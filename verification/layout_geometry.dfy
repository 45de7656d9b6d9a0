/** A layout told in plain geometry: which hash each coordinate is drawn from, when a draw is taken, and which fallback
    point replaces it. */
module LayoutGeometry {
  import opened Common
  import opened Layout
  import opened LayoutSafety

  ghost function Diameter(t: Tile, c: Class): real {
    if c == Small then t.smallDiameter else t.largeDiameter
  }

  /** Half the width and half the depth that are left for the centres of a class. */
  ghost function HalfWidth(t: Tile, c: Class): real {
    t.size.0 / 2.0 - t.cfg.tileMargin - Diameter(t, c) / 2.0
  }

  ghost function HalfDepth(t: Tile, c: Class): real {
    t.size.1 / 2.0 - t.cfg.tileMargin - Diameter(t, c) / 2.0
  }

  ghost predicate HasRoom(t: Tile, c: Class) {
    HalfWidth(t, c) >= 0.0 && HalfDepth(t, c) >= 0.0
  }

  // ---- One draw ----

  /** 0 gives one border, 1 the opposite one, and it is affine between. */
  ghost function Spread(half: real, u: real): real {
    (2.0 * u - 1.0) * half
  }

  /** Each coordinate comes from its own hash. */
  ghost predicate Drawn(t: Tile, c: Class, slot: int, attempt: int, p: Point) {
    && p.0 == Spread(HalfWidth(t, c), t.hash(HashKey(t.seed, t.stage, t.row, t.col, slot, c, attempt, X)))
    && p.1 == Spread(HalfDepth(t, c), t.hash(HashKey(t.seed, t.stage, t.row, t.col, slot, c, attempt, Y)))
  }

  lemma {:induction false} StretchIsAffine(h: real, u: real)
    ensures Stretch(-h, h, u) == Spread(h, u)
  {
  }

  /** Main result: a draw fails exactly when the class has no room, and otherwise lies where its two hashes say. */
  lemma {:induction false} CandidateExactlyWhen(t: Tile, c: Class, slot: int, attempt: int, p: Point)
    ensures CandidateXy(t, c, slot, attempt) == Ok(p) <==> HasRoom(t, c) && Drawn(t, c, slot, attempt, p)
    ensures CandidateXy(t, c, slot, attempt) == Err(TileTooSmall) <==> !HasRoom(t, c)
  {
    CandidateIsStretched(t, c, slot, attempt);
    hide CandidateXy, Stretch, Spread, HalfWidth, HalfDepth, HasRoom;
    StretchIsAffine(HalfWidth(t, c), t.hash(HashKey(t.seed, t.stage, t.row, t.col, slot, c, attempt, X)));
    StretchIsAffine(HalfDepth(t, c), t.hash(HashKey(t.seed, t.stage, t.row, t.col, slot, c, attempt, Y)));
  }

  lemma {:induction false} CandidateIsStretched(t: Tile, c: Class, slot: int, attempt: int)
    ensures CandidateXy(t, c, slot, attempt) ==
            if HasRoom(t, c) then
              Ok((Stretch(-HalfWidth(t, c), HalfWidth(t, c),
                          t.hash(HashKey(t.seed, t.stage, t.row, t.col, slot, c, attempt, X))),
                  Stretch(-HalfDepth(t, c), HalfDepth(t, c),
                          t.hash(HashKey(t.seed, t.stage, t.row, t.col, slot, c, attempt, Y)))))
            else Err(TileTooSmall)
  {
    hide Stretch;
    var r := Radius(t, c);
    assert r == Diameter(t, c) / 2.0 && MaxX(t, r) == HalfWidth(t, c) && MaxY(t, r) == HalfDepth(t, c);
  }

  /** The fraction of the usable width and depth a coordinate is drawn at. */
  type Draws = (Class, int, int, Axis) -> real

  ghost predicate Yields(t: Tile, want: Draws) {
    forall c, slot, attempt, p ::
      CandidateXy(t, c, slot, attempt) == Ok(p) <==> HasRoom(t, c) && DrawnAs(t, c, want, slot, attempt, p)
  }

  ghost predicate DrawnAs(t: Tile, c: Class, want: Draws, slot: int, attempt: int, p: Point) {
    && p.0 == Spread(HalfWidth(t, c), want(c, slot, attempt, X))
    && p.1 == Spread(HalfDepth(t, c), want(c, slot, attempt, Y))
  }

  /** Main result: all draws of a tile are independent. Whatever fractions are wanted, for every class, slot, attempt
      and axis, there is a hash that yields them all at once. */
  lemma {:induction false} DrawsAreIndependent(t: Tile, want: Draws)
    ensures exists h :: Yields(t.(hash := h), want)
  {
    var h := (k: HashKey) => want(k.cls, k.slotIndex, k.attempt, k.axis);
    var t' := t.(hash := h);
    forall c, slot, attempt, p
      ensures CandidateXy(t', c, slot, attempt) == Ok(p) <==> HasRoom(t', c) && DrawnAs(t', c, want, slot, attempt, p)
    {
      CandidateExactlyWhen(t', c, slot, attempt, p);
      hide CandidateXy, HasRoom, HalfWidth, HalfDepth;
    }
    assert Yields(t', want);
  }

  // ---- Taking a draw ----

  ghost predicate OutsideBox(t: Tile, p: Point) {
    var c := t.cfg.centerHalfExtent;
    p.0 > c || -p.0 > c || p.1 > c || -p.1 > c
  }

  /** The circles of p and of what is placed keep the clearance between their rims. */
  ghost predicate Free(t: Tile, c: Class, p: Point, placed: seq<Slot>) {
    OutsideBox(t, p) &&
    forall i :: 0 <= i < |placed| ==>
      var d := (Diameter(t, c) + Diameter(t, placed[i].cls)) / 2.0 + t.cfg.clearance;
      var (x, y) := (p.0 - placed[i].xy.0, p.1 - placed[i].xy.1);
      d <= 0.0 || x * x + y * y >= d * d
  }

  ghost predicate Taken(t: Tile, c: Class, slot: int, attempt: int, p: Point, placed: seq<Slot>) {
    HasRoom(t, c) && Drawn(t, c, slot, attempt, p) && Free(t, c, p, placed)
  }

  /** p is the first free draw. */
  ghost predicate FirstTaken(t: Tile, c: Class, slot: int, p: Point, placed: seq<Slot>) {
    exists a :: 0 <= a < t.cfg.maxAttempts && Taken(t, c, slot, a, p, placed) &&
      forall b, q :: 0 <= b < a ==> !Taken(t, c, slot, b, q, placed)
  }

  ghost predicate NoneTaken(t: Tile, c: Class, slot: int, placed: seq<Slot>) {
    forall a, p :: 0 <= a < t.cfg.maxAttempts ==> !Taken(t, c, slot, a, p, placed)
  }

  lemma {:induction false} AcceptableIsFree(t: Tile, c: Class, p: Point, placed: seq<Slot>)
    ensures Acceptable(t, c, PlacedOf(t, placed), p) <==> Free(t, c, p, placed)
  {
    forall i | 0 <= i < |placed| ensures Radius(t, c) + PlacedOf(t, placed)[i].radius ==
                                         (Diameter(t, c) + Diameter(t, placed[i].cls)) / 2.0
    {
    }
  }

  lemma {:induction false} RejectedIsNotTaken(t: Tile, c: Class, slot: int, a: int, placed: seq<Slot>)
    requires HasRoom(t, c)
    ensures Rejected(t, c, slot, PlacedOf(t, placed), a) <==> forall p :: !Taken(t, c, slot, a, p, placed)
    ensures forall p :: Taken(t, c, slot, a, p, placed) <==>
              CandidateXy(t, c, slot, a) == Ok(p) && !Rejected(t, c, slot, PlacedOf(t, placed), a)
  {
    assert CandidateXy(t, c, slot, a).Err? ==> CandidateXy(t, c, slot, a).error == TileTooSmall;
    CandidateExactlyWhen(t, c, slot, a, (0.0, 0.0));
    hide CandidateXy, Acceptable, Free, Drawn, HasRoom;
    forall p
      ensures Taken(t, c, slot, a, p, placed) <==>
              CandidateXy(t, c, slot, a) == Ok(p) && !Rejected(t, c, slot, PlacedOf(t, placed), a)
    {
      CandidateExactlyWhen(t, c, slot, a, p);
      AcceptableIsFree(t, c, p, placed);
    }
    hide Taken;
    var p := CandidateXy(t, c, slot, a).value;
    assert Taken(t, c, slot, a, p, placed) <==> !Rejected(t, c, slot, PlacedOf(t, placed), a);
  }

  /** Main result: sampling a slot takes its first free draw, finds none exactly when no draw is free, and fails exactly
      when there are attempts but no room. */
  lemma {:induction false} SampledExactlyWhen(t: Tile, c: Class, slot: int, placed: seq<Slot>)
    ensures var r := FirstAccepted(t, c, slot, PlacedOf(t, placed), 0);
            (forall p :: r == Ok(Some(p)) <==> FirstTaken(t, c, slot, p, placed)) &&
            (r == Ok(None) <==> NoneTaken(t, c, slot, placed) && (t.cfg.maxAttempts <= 0 || HasRoom(t, c))) &&
            (r == Err(TileTooSmall) <==> t.cfg.maxAttempts > 0 && !HasRoom(t, c))
  {
    if HasRoom(t, c) {
      SampledWithRoom(t, c, slot, placed);
    } else if t.cfg.maxAttempts > 0 {
      CandidateExactlyWhen(t, c, slot, 0, (0.0, 0.0));
    }
  }

  lemma {:induction false} SampledWithRoom(t: Tile, c: Class, slot: int, placed: seq<Slot>)
    requires HasRoom(t, c)
    ensures var r := FirstAccepted(t, c, slot, PlacedOf(t, placed), 0);
            r.Ok? && (r.value.None? <==> NoneTaken(t, c, slot, placed)) &&
            forall p :: r.value == Some(p) <==> FirstTaken(t, c, slot, p, placed)
  {
    var before := PlacedOf(t, placed);
    var r := FirstAccepted(t, c, slot, before, 0);
    assert Fits(t, Radius(t, c));
    FirstAcceptedIsFirst(t, c, slot, before, 0);
    hide FirstAccepted, CandidateXy, Rejected, Taken, HasRoom, PlacedOf;
    forall a ensures RejectedAgrees(t, c, slot, a, placed) {
      RejectedIsNotTaken(t, c, slot, a, placed);
    }
    hide RejectedAgrees;
    NoneTakenAgrees(t, c, slot, placed);
    forall p ensures r.value == Some(p) <==> FirstTaken(t, c, slot, p, placed) {
      FirstTakenAgrees(t, c, slot, p, placed);
    }
  }

  lemma {:induction false} NoneTakenAgrees(t: Tile, c: Class, slot: int, placed: seq<Slot>)
    requires forall a :: RejectedAgrees(t, c, slot, a, placed)
    ensures NoneTaken(t, c, slot, placed) <==>
            forall a :: 0 <= a < t.cfg.maxAttempts ==> Rejected(t, c, slot, PlacedOf(t, placed), a)
  {
    hide Taken, Rejected;
    forall a, p
      ensures Taken(t, c, slot, a, p, placed) ==> !Rejected(t, c, slot, PlacedOf(t, placed), a)
    {
      assert RejectedAgrees(t, c, slot, a, placed);
    }
    forall a ensures Rejected(t, c, slot, PlacedOf(t, placed), a) || exists p :: Taken(t, c, slot, a, p, placed) {
      assert RejectedAgrees(t, c, slot, a, placed);
    }
  }

  lemma {:induction false} FirstTakenAgrees(t: Tile, c: Class, slot: int, p: Point, placed: seq<Slot>)
    requires forall a :: RejectedAgrees(t, c, slot, a, placed)
    ensures FirstTaken(t, c, slot, p, placed) <==>
            exists a :: 0 <= a < t.cfg.maxAttempts && CandidateXy(t, c, slot, a) == Ok(p) &&
              !Rejected(t, c, slot, PlacedOf(t, placed), a) &&
              forall b :: 0 <= b < a ==> Rejected(t, c, slot, PlacedOf(t, placed), b)
  {
    hide Taken, Rejected, CandidateXy;
    forall a, q
      ensures Taken(t, c, slot, a, q, placed) <==>
                CandidateXy(t, c, slot, a) == Ok(q) && !Rejected(t, c, slot, PlacedOf(t, placed), a)
    {
      assert RejectedAgrees(t, c, slot, a, placed);
    }
    forall a ensures Rejected(t, c, slot, PlacedOf(t, placed), a) || exists q :: Taken(t, c, slot, a, q, placed) {
      assert RejectedAgrees(t, c, slot, a, placed);
    }
  }

  ghost predicate RejectedAgrees(t: Tile, c: Class, slot: int, a: int, placed: seq<Slot>) {
    && (Rejected(t, c, slot, PlacedOf(t, placed), a) <==> forall p :: !Taken(t, c, slot, a, p, placed))
    && (forall p :: Taken(t, c, slot, a, p, placed) <==>
          CandidateXy(t, c, slot, a) == Ok(p) && !Rejected(t, c, slot, PlacedOf(t, placed), a))
  }

  // ---- Fallback points ----

  /** The nine points at the left, the right and the middle of the usable tile, each at the front, the back and the
      middle. */
  ghost function GridPoint(t: Tile, c: Class, k: nat): Point {
    var (w, d) := (HalfWidth(t, c), HalfDepth(t, c));
    (if k / 3 == 0 then -w else if k / 3 == 1 then w else 0.0, if k % 3 == 0 then -d else if k % 3 == 1 then d else 0.0)
  }

  /** The points are those of the grid outside the centre box, in grid order. */
  ghost predicate FallbackList(t: Tile, c: Class, ps: seq<Point>) {
    exists places: seq<nat> :: Selects(t, c, ps, places)
  }

  ghost predicate Selects(t: Tile, c: Class, ps: seq<Point>, places: seq<nat>) {
    && |places| == |ps| && (forall i, j :: 0 <= i < j < |places| ==> places[i] < places[j])
    && (forall k: nat :: k in places <==> k < 9 && OutsideBox(t, GridPoint(t, c, k)))
    && forall i :: 0 <= i < |ps| ==> ps[i] == GridPoint(t, c, places[i])
  }

  lemma {:induction false} FallbackGridPoints(t: Tile, c: Class)
    ensures var grid := FallbackGrid(t, Radius(t, c));
            |grid| == 9 && forall k :: 0 <= k < 9 ==> grid[k] == GridPoint(t, c, k)
  {
    var r := Radius(t, c);
    assert r == Diameter(t, c) / 2.0 && MaxX(t, r) == HalfWidth(t, c) && MaxY(t, r) == HalfDepth(t, c);
    hide MaxX, MaxY, Radius, HalfWidth, HalfDepth;
  }

  /** The kept points are those of ps outside the centre box, whose places, from place `from` on, are given. */
  ghost predicate Picks(t: Tile, ps: seq<Point>, kept: seq<Point>, places: seq<nat>, from: nat) {
    && |places| == |kept| && (forall i, j :: 0 <= i < j < |places| ==> places[i] < places[j])
    && (forall i :: 0 <= i < |places| ==>
          from <= places[i] < from + |ps| && kept[i] == ps[places[i] - from] && OutsideBox(t, kept[i]))
    && forall k :: 0 <= k < |ps| && OutsideBox(t, ps[k]) ==> from + k in places
  }

  lemma {:induction false} PicksMore(t: Tile, ps: seq<Point>, kept: seq<Point>, rest: seq<nat>, from: nat)
    requires ps != [] && Picks(t, ps[1..], kept, rest, from + 1)
    ensures OutsideBox(t, ps[0]) ==> Picks(t, ps, [ps[0]] + kept, [from] + rest, from)
    ensures !OutsideBox(t, ps[0]) ==> Picks(t, ps, kept, rest, from)
  {
    hide OutsideBox;
    forall k | 1 <= k < |ps| && OutsideBox(t, ps[k]) ensures from + k in rest {
      assert ps[1..][k - 1] == ps[k];
      assert from + 1 + (k - 1) in rest;
    }
    forall i | 0 <= i < |rest| ensures kept[i] == ps[rest[i] - from] {
      assert ps[1..][rest[i] - (from + 1)] == ps[rest[i] - from];
    }
  }

  lemma {:induction false} KeptPlaces(t: Tile, ps: seq<Point>, from: nat) returns (places: seq<nat>)
    ensures Picks(t, ps, KeepOutside(t, ps), places, from)
    decreases |ps|
  {
    if ps == [] {
      places := [];
    } else {
      var rest := KeptPlaces(t, ps[1..], from + 1);
      PicksMore(t, ps, KeepOutside(t, ps[1..]), rest, from);
      places := if OutsideBox(t, ps[0]) then [from] + rest else rest;
      KeepOne(t, ps);
      hide KeepOutside, OutsideBox, Picks;
    }
  }

  lemma {:induction false} KeepOne(t: Tile, ps: seq<Point>)
    requires ps != []
    ensures KeepOutside(t, ps) ==
            if OutsideBox(t, ps[0]) then [ps[0]] + KeepOutside(t, ps[1..]) else KeepOutside(t, ps[1..])
  {
  }

  lemma {:induction false} FallbackIsListed(t: Tile, c: Class)
    ensures match FallbackCandidates(t, Radius(t, c))
            case Ok(ps) => |ps| > 0 && FallbackList(t, c, ps)
            case Err(e) => e == NoFallbackPoint && forall k: nat :: k < 9 ==> !OutsideBox(t, GridPoint(t, c, k))
  {
    var grid := FallbackGrid(t, Radius(t, c));
    FallbackGridPoints(t, c);
    var places := KeptPlaces(t, grid, 0);
    hide FallbackGrid, KeepOutside, GridPoint, OutsideBox;
    PicksSelects(t, c, grid, KeepOutside(t, grid), places);
    if KeepOutside(t, grid) == [] {
      assert places == [];
      assert forall k: nat :: k !in places;
    }
  }

  lemma {:induction false} PicksSelects(t: Tile, c: Class, grid: seq<Point>, kept: seq<Point>, places: seq<nat>)
    requires |grid| == 9 && forall k :: 0 <= k < 9 ==> grid[k] == GridPoint(t, c, k)
    requires Picks(t, grid, kept, places, 0)
    ensures Selects(t, c, kept, places)
  {
    hide GridPoint, OutsideBox;
    forall k: nat ensures k in places <==> k < 9 && OutsideBox(t, GridPoint(t, c, k)) {
      if k in places {
        var i :| 0 <= i < |places| && places[i] == k;
      } else if k < 9 {
        assert grid[k] == GridPoint(t, c, k);
      }
    }
  }

  // ---- The whole layout ----

  /** What the slot of an index is, after everything placed before it. */
  ghost predicate Chosen(t: Tile, s: Slot, c: Class, index: nat, before: seq<Slot>) {
    && s.cls == c && s.slotIndex == index
    && if s.fallback then
         NoneTaken(t, c, index, before) && FallbackAt(t, c, |before| + index, s.xy)
       else FirstTaken(t, c, index, s.xy, before)
  }

  /** The n-th fallback point, counted around. */
  ghost predicate FallbackAt(t: Tile, c: Class, n: nat, p: Point) {
    exists ps :: FallbackList(t, c, ps) && |ps| > 0 && p == ps[n % |ps|]
  }

  lemma {:induction false} ChooseSlotIsChosen(t: Tile, c: Class, index: nat, before: seq<Slot>)
    requires ChooseSlot(t, c, index, PlacedOf(t, before)).Ok?
    ensures Chosen(t, ChooseSlot(t, c, index, PlacedOf(t, before)).value, c, index, before)
  {
    var s := ChooseSlot(t, c, index, PlacedOf(t, before)).value;
    ChooseSlotCases(t, c, index, PlacedOf(t, before));
    hide FirstAccepted, FallbackCandidates, NoneTaken, FirstTaken, FallbackList, ChooseSlot;
    SampledExactlyWhen(t, c, index, before);
    FallbackIsListed(t, c);
    if s.fallback {
      var ps := FallbackCandidates(t, Radius(t, c)).value;
      assert FallbackList(t, c, ps) && s.xy == ps[(|before| + index) % |ps|];
    }
  }

  lemma {:induction false} ChooseSlotCases(t: Tile, c: Class, index: nat, placed: seq<Placed>)
    requires ChooseSlot(t, c, index, placed).Ok?
    ensures var s := ChooseSlot(t, c, index, placed).value;
            s.cls == c && s.slotIndex == index &&
            if s.fallback then
              var ps := FallbackCandidates(t, Radius(t, c));
              FirstAccepted(t, c, index, placed, 0) == Ok(None) && ps.Ok? && |ps.value| > 0 &&
              s.xy == ps.value[(|placed| + index) % |ps.value|]
            else FirstAccepted(t, c, index, placed, 0) == Ok(Some(s.xy))
  {
    hide FirstAccepted, KeepOutside, FallbackGrid;
  }

  ghost predicate AllChosen(t: Tile, slots: seq<Slot>, c: Class, before: seq<Slot>) {
    forall i :: 0 <= i < |slots| ==> Chosen(t, slots[i], c, i, before + slots[..i])
  }

  lemma {:induction false} ClassIsChosen(t: Tile, c: Class, count: int, before: seq<Slot>)
    requires ClassSlots(t, c, count, PlacedOf(t, before)).Ok?
    ensures AllChosen(t, ClassSlots(t, c, count, PlacedOf(t, before)).value, c, before)
    decreases count
  {
    hide Chosen, ChooseSlot;
    if count > 0 {
      ClassIsChosen(t, c, count - 1, before);
      var slots := ClassSlots(t, c, count - 1, PlacedOf(t, before)).value;
      PlacedOfAppend(t, before, slots);
      ChooseSlotIsChosen(t, c, count - 1, before + slots);
      var all := ClassSlots(t, c, count, PlacedOf(t, before)).value;
      assert all[..count - 1] == slots;
      forall i | 0 <= i < |all| ensures Chosen(t, all[i], c, i, before + all[..i]) {
        if i < count - 1 {
          assert all[..i] == slots[..i] && all[i] == slots[i];
        }
      }
    }
  }

  /** The slot of the point every layout must contain. */
  ghost function Mandatory(t: Tile, counts: Counts): seq<Slot> {
    if t.mandatory.Some? then [Slot(Small, counts.small, t.mandatory.value, false)] else []
  }

  ghost predicate Composed(t: Tile, counts: Counts, out: seq<Slot>, large: seq<Slot>, small: seq<Slot>) {
    var m := Mandatory(t, counts);
    && out == small + m + large
    && |small| == (if counts.small > 0 then counts.small else 0)
    && |large| == (if counts.large > 0 then counts.large else 0)
    && AllChosen(t, large, Large, m) && AllChosen(t, small, Small, m + large)
  }

  /** Main result: what a layout consists of. Each slot is the first draw that is free of everything placed before it,
      or, where no draw is, the fallback point at the number of slots before it plus its own index. */
  lemma {:induction false} LayoutIsComposed(t: Tile, counts: Counts)
    requires UnitHash(t) && StageSlotsSpec(t, counts).Ok?
    ensures exists large, small :: Composed(t, counts, StageSlotsSpec(t, counts).value, large, small)
  {
    OutputShape(t, counts);
    var m, large, small := MandatorySlots(t, counts), LargeSlots(t, counts).value, SmallSlots(t, counts).value;
    assert m == Mandatory(t, counts);
    hide StageSlotsSpec, AllChosen;
    ClassIsChosen(t, Large, counts.large, m);
    ClassIsChosen(t, Small, counts.small, m + large);
    assert Composed(t, counts, StageSlotsSpec(t, counts).value, large, small);
  }

  // ---- When there is no layout ----

  ghost predicate Needed(counts: Counts, c: Class) {
    if c == Small then counts.small > 0 else counts.large > 0
  }

  ghost predicate HasFallback(t: Tile, c: Class) {
    exists k: nat :: k < 9 && OutsideBox(t, GridPoint(t, c, k))
  }

  ghost predicate Explains(t: Tile, c: Class, e: LayoutError) {
    match e
    case TileTooSmall => t.cfg.maxAttempts > 0 && !HasRoom(t, c)
    case NoFallbackPoint => !HasFallback(t, c)
  }

  lemma {:induction false} ChooseSlotFails(t: Tile, c: Class, index: nat, placed: seq<Slot>)
    ensures var r := ChooseSlot(t, c, index, PlacedOf(t, placed));
            (t.cfg.maxAttempts > 0 && !HasRoom(t, c) ==> r == Err(TileTooSmall)) &&
            (r.Err? ==> Explains(t, c, r.error))
  {
    SampledExactlyWhen(t, c, index, placed);
    FallbackIsListed(t, c);
    var r := FirstAccepted(t, c, index, PlacedOf(t, placed), 0);
    assert r.Err? ==> r.error == TileTooSmall by {
      if r.Err? {
        OnlyTooSmall(t, c, index, PlacedOf(t, placed), 0);
      }
    }
    hide FirstAccepted, FallbackCandidates, HasRoom, FirstTaken, NoneTaken;
  }

  lemma {:induction false} OnlyTooSmall(t: Tile, c: Class, slot: int, placed: seq<Placed>, from: nat)
    ensures FirstAccepted(t, c, slot, placed, from).Err? ==>
            FirstAccepted(t, c, slot, placed, from).error == TileTooSmall
    decreases t.cfg.maxAttempts - from
  {
    if from < t.cfg.maxAttempts {
      OnlyTooSmall(t, c, slot, placed, from + 1);
    }
  }

  lemma {:induction false} ClassFails(t: Tile, c: Class, count: int, placed: seq<Slot>)
    ensures var r := ClassSlots(t, c, count, PlacedOf(t, placed));
            (count > 0 && t.cfg.maxAttempts > 0 && !HasRoom(t, c) ==> r == Err(TileTooSmall)) &&
            (r.Err? ==> count > 0 && Explains(t, c, r.error))
    decreases count
  {
    hide ChooseSlot, HasRoom, HasFallback;
    if count > 0 {
      ClassFails(t, c, count - 1, placed);
      var before := ClassSlots(t, c, count - 1, PlacedOf(t, placed));
      if before.Ok? {
        PlacedOfAppend(t, placed, before.value);
        ChooseSlotFails(t, c, count - 1, placed + before.value);
      }
    }
  }

  /** Main result: a layout fails with one error only if some class it needs has no room although it has attempts, and
      does fail then; with the other only if such a class has no fallback point. */
  lemma {:induction false} LayoutFails(t: Tile, counts: Counts)
    ensures var r := StageSlotsSpec(t, counts);
            (r == Err(TileTooSmall) ==> t.cfg.maxAttempts > 0 && exists c :: Needed(counts, c) && !HasRoom(t, c)) &&
            (r == Err(NoFallbackPoint) ==> exists c :: Needed(counts, c) && !HasFallback(t, c)) &&
            (t.cfg.maxAttempts > 0 && (exists c :: Needed(counts, c) && !HasRoom(t, c)) ==> r.Err?)
  {
    var m := MandatorySlots(t, counts);
    ClassFails(t, Large, counts.large, m);
    hide HasRoom, HasFallback, ClassSlots;
    if LargeSlots(t, counts).Ok? {
      var large := LargeSlots(t, counts).value;
      ClassFails(t, Small, counts.small, m + large);
      PlacedOfAppend(t, m, large);
    }
    assert Needed(counts, Large) <==> counts.large > 0;
    assert Needed(counts, Small) <==> counts.small > 0;
  }
}
