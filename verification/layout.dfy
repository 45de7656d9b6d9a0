/** The obstacle layout of one terrain tile: rejection sampling with a spacing test and a fallback list. */
module Layout {
  import opened Common

  datatype Class = Small | Large

  datatype Axis = X | Y

  datatype LayoutCfg = LayoutCfg(tileMargin: real, centerHalfExtent: real, clearance: real, maxAttempts: int)

  /** The parts hashed by `_stable_unit_interval`. */
  datatype HashKey = HashKey(seed: int, stage: string, row: int, col: int, slotIndex: int, cls: Class, attempt: int,
                             axis: Axis)

  datatype Counts = Counts(small: int, large: int)

  /** Everything one call of the placer receives except the counts. The hash is an arbitrary function. */
  datatype Tile = Tile(
    size: Point, cfg: LayoutCfg, smallDiameter: real, largeDiameter: real, mandatory: Option<Point>,
    seed: int, stage: string, row: int, col: int, hash: HashKey -> real)

  datatype Slot = Slot(cls: Class, slotIndex: int, xy: Point, fallback: bool)

  datatype Placed = Placed(xy: Point, radius: real)

  datatype LayoutError = TileTooSmall | NoFallbackPoint

  /** The hash lands in the closed unit interval: its 64-bit quotient may round up to 1. */
  ghost predicate UnitHash(t: Tile) {
    forall k :: 0.0 <= t.hash(k) <= 1.0
  }

  function Radius(t: Tile, c: Class): real {
    (match c case Small => t.smallDiameter case Large => t.largeDiameter) / 2.0
  }

  /** Half of the usable extent of a tile along one side, for centres of radius r. */
  function HalfSpan(t: Tile, side: real, r: real): real {
    side / 2.0 - t.cfg.tileMargin - r
  }

  function MaxX(t: Tile, r: real): real { HalfSpan(t, t.size.0, r) }

  function MaxY(t: Tile, r: real): real { HalfSpan(t, t.size.1, r) }

  predicate Fits(t: Tile, r: real) {
    -MaxX(t, r) <= MaxX(t, r) && -MaxY(t, r) <= MaxY(t, r)
  }

  /** Inside the tile shrunk by the margin and the radius. */
  ghost predicate InBox(t: Tile, r: real, p: Point) {
    -MaxX(t, r) <= p.0 <= MaxX(t, r) && -MaxY(t, r) <= p.1 <= MaxY(t, r)
  }

  predicate OutsideCenter(t: Tile, p: Point) {
    Abs(p.0) > t.cfg.centerHalfExtent || Abs(p.1) > t.cfg.centerHalfExtent
  }

  function DistSq(p: Point, q: Point): real {
    (p.0 - q.0) * (p.0 - q.0) + (p.1 - q.1) * (p.1 - q.1)
  }

  /** The distance of p and q is at least d. */
  predicate Apart(p: Point, q: Point, d: real) {
    d <= 0.0 || DistSq(p, q) >= d * d
  }

  predicate Spaced(t: Tile, p: Point, r: real, placed: seq<Placed>) {
    forall i :: 0 <= i < |placed| ==> Apart(p, placed[i].xy, r + placed[i].radius + t.cfg.clearance)
  }

  method HasSpacing(t: Tile, candidate: Point, radius: real, placed: seq<Placed>) returns (b: bool)
    ensures b <==> Spaced(t, candidate, radius, placed)
  {
    for i := 0 to |placed|
      invariant forall k :: 0 <= k < i ==> Apart(candidate, placed[k].xy, radius + placed[k].radius + t.cfg.clearance)
    {
      var required := radius + placed[i].radius + t.cfg.clearance;
      if !Apart(candidate, placed[i].xy, required) {
        return false;
      }
    }
    return true;
  }

  function Key(t: Tile, c: Class, slot: int, attempt: int, axis: Axis): HashKey {
    HashKey(t.seed, t.stage, t.row, t.col, slot, c, attempt, axis)
  }

  /** A unit coordinate stretched over an interval. */
  function Stretch(lo: real, hi: real, u: real): real {
    lo + (hi - lo) * u
  }

  function CandidateXy(t: Tile, c: Class, slot: int, attempt: int): Result<Point, LayoutError> {
    var r := Radius(t, c);
    if !Fits(t, r) then Err(TileTooSmall)
    else
      Ok((Stretch(-MaxX(t, r), MaxX(t, r), t.hash(Key(t, c, slot, attempt, X))),
          Stretch(-MaxY(t, r), MaxY(t, r), t.hash(Key(t, c, slot, attempt, Y)))))
  }

  /** Corners, edge middles and centre, column by column. */
  function FallbackGrid(t: Tile, r: real): seq<Point> {
    var (x, y) := (MaxX(t, r), MaxY(t, r));
    var (midX, midY) := (0.5 * (-x + x), 0.5 * (-y + y));
    [(-x, -y), (-x, y), (-x, midY), (x, -y), (x, y), (x, midY), (midX, -y), (midX, y), (midX, midY)]
  }

  function KeepOutside(t: Tile, ps: seq<Point>): (kept: seq<Point>)
    ensures forall p :: p in kept <==> p in ps && OutsideCenter(t, p)
  {
    if ps == [] then [] else
      var rest := KeepOutside(t, ps[1..]);
      if OutsideCenter(t, ps[0]) then [ps[0]] + rest else rest
  }

  function FallbackCandidates(t: Tile, r: real): Result<seq<Point>, LayoutError> {
    var kept := KeepOutside(t, FallbackGrid(t, r));
    if kept == [] then Err(NoFallbackPoint) else Ok(kept)
  }

  predicate Acceptable(t: Tile, c: Class, placed: seq<Placed>, p: Point) {
    OutsideCenter(t, p) && Spaced(t, p, Radius(t, c), placed)
  }

  /** The first acceptable candidate from an attempt on; None when the attempts run out. */
  function FirstAccepted(t: Tile, c: Class, slot: int, placed: seq<Placed>,
                         attempt: nat): Result<Option<Point>, LayoutError>
    decreases t.cfg.maxAttempts - attempt
  {
    if attempt >= t.cfg.maxAttempts then Ok(None) else
      match CandidateXy(t, c, slot, attempt)
      case Err(e) => Err(e)
      case Ok(p) => if Acceptable(t, c, placed, p) then Ok(Some(p)) else FirstAccepted(t, c, slot, placed, attempt + 1)
  }

  /** The slot placed next: sampled, or taken from the fallback list. */
  function ChooseSlot(t: Tile, c: Class, slot: nat, placed: seq<Placed>): Result<Slot, LayoutError> {
    match FirstAccepted(t, c, slot, placed, 0)
    case Err(e) => Err(e)
    case Ok(Some(p)) => Ok(Slot(c, slot, p, false))
    case Ok(None) =>
      match FallbackCandidates(t, Radius(t, c))
      case Err(e) => Err(e)
      case Ok(ps) => Ok(Slot(c, slot, ps[(|placed| + slot) % |ps|], true))
  }

  function PlacedOf(t: Tile, slots: seq<Slot>): (r: seq<Placed>)
    ensures |r| == |slots|
    ensures forall i :: 0 <= i < |r| ==> r[i] == Placed(slots[i].xy, Radius(t, slots[i].cls))
  {
    seq(|slots|, i requires 0 <= i < |slots| => Placed(slots[i].xy, Radius(t, slots[i].cls)))
  }

  /** The slots 0 .. count-1 of one class, placed one after the other behind what is already there. */
  function ClassSlots(t: Tile, c: Class, count: int, before: seq<Placed>): (r: Result<seq<Slot>, LayoutError>)
    ensures r.Ok? ==> |r.value| == if count < 0 then 0 else count
    decreases count
  {
    if count <= 0 then Ok([]) else
      match ClassSlots(t, c, count - 1, before)
      case Err(e) => Err(e)
      case Ok(slots) =>
        match ChooseSlot(t, c, count - 1, before + PlacedOf(t, slots))
        case Err(e) => Err(e)
        case Ok(s) => Ok(slots + [s])
  }

  /** The point every layout must contain comes first; its slot index follows the sampled small ones. */
  function MandatorySlots(t: Tile, counts: Counts): seq<Slot> {
    match t.mandatory
    case None => []
    case Some(p) => [Slot(Small, counts.small, p, false)]
  }

  function Rank(s: Slot): int {
    match s.cls case Small => 0 case Large => 1
  }

  predicate KeyLe(a: Slot, b: Slot) {
    Rank(a) < Rank(b) || (Rank(a) == Rank(b) && a.slotIndex <= b.slotIndex)
  }

  function InsertSlot(x: Slot, s: seq<Slot>): seq<Slot> {
    if s == [] || KeyLe(x, s[0]) then [x] + s else [s[0]] + InsertSlot(x, s[1..])
  }

  /** Python's stable `sorted` by class rank, then slot index. */
  function SortSlots(s: seq<Slot>): seq<Slot> {
    if s == [] then [] else InsertSlot(s[0], SortSlots(s[1..]))
  }

  /** Slots in the order they are placed: the mandatory one, the large ones, the small ones. */
  function PlacementOrder(t: Tile, counts: Counts): Result<seq<Slot>, LayoutError> {
    var m := MandatorySlots(t, counts);
    match ClassSlots(t, Large, counts.large, PlacedOf(t, m))
    case Err(e) => Err(e)
    case Ok(large) =>
      match ClassSlots(t, Small, counts.small, PlacedOf(t, m) + PlacedOf(t, large))
      case Err(e) => Err(e)
      case Ok(small) => Ok(m + large + small)
  }

  function StageSlotsSpec(t: Tile, counts: Counts): Result<seq<Slot>, LayoutError> {
    match PlacementOrder(t, counts)
    case Err(e) => Err(e)
    case Ok(slots) => Ok(SortSlots(slots))
  }

  // ---- The placer ----

  /** The attempt loop of one slot. */
  method SelectCandidate(t: Tile, c: Class, slot: nat, placed: seq<Placed>)
    returns (r: Result<Option<Point>, LayoutError>)
    ensures r == FirstAccepted(t, c, slot, placed, 0)
  {
    var attempt := 0;
    while attempt < t.cfg.maxAttempts
      invariant FirstAccepted(t, c, slot, placed, attempt) == FirstAccepted(t, c, slot, placed, 0)
    {
      var candidate := CandidateXy(t, c, slot, attempt);
      if candidate.Err? {
        return Err(candidate.error);
      }
      var spaced := false;
      if OutsideCenter(t, candidate.value) {
        spaced := HasSpacing(t, candidate.value, Radius(t, c), placed);
      }
      if spaced {
        return Ok(Some(candidate.value));
      }
      attempt := attempt + 1;
    }
    return Ok(None);
  }

  method StageSlots(t: Tile, counts: Counts) returns (r: Result<seq<Slot>, LayoutError>)
    ensures r == StageSlotsSpec(t, counts)
  {
    var placed: seq<Placed> := [];
    var slots: seq<Slot> := [];
    if t.mandatory.Some? {
      placed := placed + [Placed(t.mandatory.value, t.smallDiameter / 2.0)];
      slots := slots + [Slot(Small, counts.small, t.mandatory.value, false)];
    }
    assert slots == MandatorySlots(t, counts) && placed == PlacedOf(t, slots);
    var large;
    large, placed := PlaceClass(t, Large, counts.large, placed);
    if large.Err? {
      return large;
    }
    var small;
    small, placed := PlaceClass(t, Small, counts.small, placed);
    if small.Err? {
      return small;
    }
    return Ok(SortSlots(slots + large.value + small.value));
  }

  /** The slot loop of one class. */
  method PlaceClass(t: Tile, c: Class, count: int, before: seq<Placed>)
    returns (r: Result<seq<Slot>, LayoutError>, placed: seq<Placed>)
    ensures r == ClassSlots(t, c, count, before)
    ensures r.Ok? ==> placed == before + PlacedOf(t, r.value)
  {
    placed := before;
    var slots: seq<Slot> := [];
    var slotIndex := 0;
    while slotIndex < count
      invariant 0 <= slotIndex && (slotIndex <= count || slotIndex == 0)
      invariant ClassSlots(t, c, slotIndex, before) == Ok(slots)
      invariant placed == before + PlacedOf(t, slots)
    {
      ClassSlotsStep(t, c, slotIndex, count, before);
      var selected := SelectCandidate(t, c, slotIndex, placed);
      if selected.Err? {
        return Err(selected.error), placed;
      }
      var selectedXy: Point;
      var fallbackUsed := selected.value.None?;
      if fallbackUsed {
        var candidates := FallbackCandidates(t, Radius(t, c));
        if candidates.Err? {
          return Err(candidates.error), placed;
        }
        selectedXy := candidates.value[(|placed| + slotIndex) % |candidates.value|];
      } else {
        selectedXy := selected.value.value;
      }
      placed := placed + [Placed(selectedXy, Radius(t, c))];
      slots := slots + [Slot(c, slotIndex, selectedXy, fallbackUsed)];
      slotIndex := slotIndex + 1;
    }
    r := Ok(slots);
  }

  /** A class whose next slot fails, fails as a whole with that error. */
  lemma {:induction false} ClassSlotsStep(t: Tile, c: Class, k: nat, count: int, before: seq<Placed>)
    requires k < count && ClassSlots(t, c, k, before).Ok?
    ensures var slots := ClassSlots(t, c, k, before).value;
            var next := ChooseSlot(t, c, k, before + PlacedOf(t, slots));
            (next.Ok? ==> ClassSlots(t, c, k + 1, before) == Ok(slots + [next.value])) &&
            (next.Err? ==> ClassSlots(t, c, count, before) == Err(next.error))
    decreases count
  {
    if k + 1 < count {
      ClassSlotsStep(t, c, k, count - 1, before);
    }
  }
}
