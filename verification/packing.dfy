/** How many obstacles rejection sampling can place in one tile: a packing bound on the layout. */
module Packing {
  import opened Common
  import opened Layout
  import opened LayoutSafety

  // ---- Cells of a grid with step s ----

  function Cell(x: real, s: real): int
    requires s > 0.0
  {
    (x / s).Floor
  }

  function Times(a: real, b: real): real { a * b }

  lemma TimesStrict(a: real, b: real, s: real)
    requires s > 0.0 && a < b
    ensures Times(a, s) < Times(b, s)
  {
  }

  lemma TimesNext(a: real, s: real)
    ensures Times(a + 1.0, s) == Times(a, s) + s
  {
  }

  lemma TimesQuotient(x: real, s: real)
    requires s > 0.0
    ensures Times(x / s, s) == x
  {
  }

  lemma QuotientBounds(x: real, s: real, k: int)
    requires s > 0.0 && Cell(x, s) == k
    ensures Times(k as real, s) <= x < Times(k as real, s) + s
  {
    var q, f := x / s, k as real;
    TimesQuotient(x, s);
    TimesNext(f, s);
    TimesStrict(q, f + 1.0, s);
    if f < q {
      TimesStrict(f, q, s);
    }
  }

  lemma CellMonotone(x: real, y: real, s: real)
    requires s > 0.0 && x <= y
    ensures Cell(x, s) <= Cell(y, s)
  {
    var d := y - x;
    assert d / s >= 0.0;
    assert y / s == x / s + d / s;
  }

  /** Two coordinates in one cell differ by less than the step. */
  lemma SameCellClose(x: real, y: real, s: real)
    requires s > 0.0 && Cell(x, s) == Cell(y, s)
    ensures -s < x - y < s
  {
    QuotientBounds(x, s, Cell(x, s));
    QuotientBounds(y, s, Cell(y, s));
  }

  lemma SquareBelow(a: real, s: real)
    requires -s < a < s
    ensures a * a < s * s
  {
    assert (s - a) * (s + a) > 0.0;
    assert (s - a) * (s + a) == s * s - a * a;
  }

  /** Two points that are d apart never share a cell whose diagonal is at most d. */
  lemma DifferentCells(p: Point, q: Point, s: real, d: real)
    requires s > 0.0 && d > 0.0 && 2.0 * (s * s) <= d * d && Apart(p, q, d)
    ensures Cell(p.0, s) != Cell(q.0, s) || Cell(p.1, s) != Cell(q.1, s)
  {
    if Cell(p.0, s) == Cell(q.0, s) && Cell(p.1, s) == Cell(q.1, s) {
      SameCellClose(p.0, q.0, s);
      SameCellClose(p.1, q.1, s);
      SquareBelow(p.0 - q.0, s);
      SquareBelow(p.1 - q.1, s);
      assert false;
    }
  }

  // ---- Pigeonholes ----

  ghost predicate Distinct(xs: seq<int>) {
    forall i, j :: 0 <= i < j < |xs| ==> xs[i] != xs[j]
  }

  lemma {:induction false} DistinctSetSize(xs: seq<int>)
    requires Distinct(xs)
    ensures |set x | x in xs| == |xs|
  {
    if xs != [] {
      var n := |xs| - 1;
      DistinctSetSize(xs[..n]);
      assert (set x | x in xs) == (set x | x in xs[..n]) + {xs[n]};
      assert xs[n] !in xs[..n];
    }
  }

  /** The numbers below n. */
  ghost function Range(n: nat): (r: set<int>)
    ensures |r| == n && forall x :: x in r <==> 0 <= x < n
  {
    if n == 0 then {} else Range(n - 1) + {n - 1}
  }

  lemma {:induction false} SubsetSize(a: set<int>, b: set<int>)
    requires a <= b
    ensures |a| <= |b|
  {
    assert b == a + (b - a);
  }

  lemma Pigeonhole(xs: seq<int>, n: nat)
    requires Distinct(xs) && forall i :: 0 <= i < |xs| ==> 0 <= xs[i] < n
    ensures |xs| <= n
  {
    DistinctSetSize(xs);
    SubsetSize((set x | x in xs), Range(n));
  }

  lemma EncodeInRange(i: int, j: int, a: nat, b: nat)
    requires 0 <= i < a && 0 <= j < b
    ensures 0 <= i * b + j < a * b
  {
    var d := a - 1 - i;
    assert d * b >= 0;
    assert d * b == a * b - i * b - b;
  }

  lemma DistinctRows(i: int, j: int, i': int, j': int, b: nat)
    requires 0 <= j < b && 0 <= j' < b && i < i'
    ensures i * b + j < i' * b + j'
  {
    var d := i' - i - 1;
    assert d * b >= 0;
    assert d * b == i' * b - i * b - b;
  }

  lemma EncodeInjective(i: int, j: int, i': int, j': int, b: nat)
    requires 0 <= j < b && 0 <= j' < b && i * b + j == i' * b + j'
    ensures i == i' && j == j'
  {
    if i < i' {
      DistinctRows(i, j, i', j', b);
    } else if i' < i {
      DistinctRows(i', j', i, j, b);
    }
  }

  // ---- Points with pairwise distance ----

  ghost predicate PairwiseApart(ps: seq<Point>, d: real) {
    forall i, j :: 0 <= i < j < |ps| ==> Apart(ps[j], ps[i], d)
  }

  ghost predicate AllWithin(ps: seq<Point>, w: real, h: real) {
    forall i :: 0 <= i < |ps| ==> 0.0 <= ps[i].0 <= w && 0.0 <= ps[i].1 <= h
  }

  /** The number of cells of step s that meet a w by h rectangle. */
  function Cells(w: real, h: real, s: real): int
    requires s > 0.0
  {
    (Cell(w, s) + 1) * (Cell(h, s) + 1)
  }

  function Code(p: Point, h: real, s: real): int
    requires s > 0.0
  {
    Cell(p.0, s) * (Cell(h, s) + 1) + Cell(p.1, s)
  }

  lemma CodeInRange(p: Point, w: real, h: real, s: real)
    requires s > 0.0 && 0.0 <= p.0 <= w && 0.0 <= p.1 <= h
    ensures 0 <= Cell(p.1, s) < Cell(h, s) + 1
    ensures 0 <= Code(p, h, s) < Cells(w, h, s)
  {
    CellMonotone(0.0, p.0, s);
    CellMonotone(0.0, p.1, s);
    CellMonotone(p.0, w, s);
    CellMonotone(p.1, h, s);
    assert Cell(0.0, s) == 0;
    EncodeInRange(Cell(p.0, s), Cell(p.1, s), Cell(w, s) + 1, Cell(h, s) + 1);
  }

  /** Points of a w by h rectangle with pairwise distance at least d are no more than the cells of diagonal at most
      d. */
  lemma RectanglePacking(ps: seq<Point>, w: real, h: real, d: real, s: real)
    requires s > 0.0 && d > 0.0 && 2.0 * (s * s) <= d * d
    requires PairwiseApart(ps, d) && AllWithin(ps, w, h) && w >= 0.0 && h >= 0.0
    ensures |ps| <= Cells(w, h, s)
  {
    var codes := seq(|ps|, i requires 0 <= i < |ps| => Code(ps[i], h, s));
    forall i | 0 <= i < |ps| ensures 0 <= codes[i] < Cells(w, h, s) {
      CodeInRange(ps[i], w, h, s);
    }
    forall i, j | 0 <= i < j < |ps| ensures codes[i] != codes[j] {
      CodeInRange(ps[i], w, h, s);
      CodeInRange(ps[j], w, h, s);
      DifferentCells(ps[j], ps[i], s, d);
      if codes[i] == codes[j] {
        EncodeInjective(Cell(ps[i].0, s), Cell(ps[i].1, s), Cell(ps[j].0, s), Cell(ps[j].1, s), Cell(h, s) + 1);
      }
    }
    CodeInRange((0.0, 0.0), w, h, s);
    Pigeonhole(codes, Cells(w, h, s));
  }

  // ---- The sampled slots of one class ----

  /** The positions of the slots that were sampled, not taken from the fallback list. */
  function Sampled(slots: seq<Slot>): (ps: seq<Point>)
    ensures |ps| <= |slots|
    ensures |ps| == |slots| <==> forall s :: s in slots ==> !s.fallback
  {
    if slots == [] then [] else
      var n := |slots| - 1;
      assert slots == slots[..n] + [slots[n]];
      Sampled(slots[..n]) + (if slots[n].fallback then [] else [slots[n].xy])
  }

  ghost predicate Good(t: Tile, c: Class, ps: seq<Point>) {
    && PairwiseApart(ps, Radius(t, c) + Radius(t, c) + t.cfg.clearance)
    && forall i :: 0 <= i < |ps| ==> InBox(t, Radius(t, c), ps[i])
  }

  lemma {:induction false} SampledMembers(slots: seq<Slot>, p: Point)
    requires p in Sampled(slots)
    ensures exists s :: s in slots && s.xy == p
  {
    var n := |slots| - 1;
    assert slots == slots[..n] + [slots[n]];
    if p in Sampled(slots[..n]) {
      SampledMembers(slots[..n], p);
      var s :| s in slots[..n] && s.xy == p;
      assert s in slots;
    } else {
      assert slots[n] in slots;
    }
  }

  /** A new point that is spaced from everything placed is spaced from the points sampled before. */
  lemma NewPointApart(t: Tile, c: Class, slots: seq<Slot>, before: seq<Placed>, p: Point, q: Point)
    requires forall s :: s in slots ==> s.cls == c
    requires Spaced(t, p, Radius(t, c), before + PlacedOf(t, slots)) && q in Sampled(slots)
    ensures Apart(p, q, Radius(t, c) + Radius(t, c) + t.cfg.clearance)
  {
    SampledMembers(slots, q);
    var s :| s in slots && s.xy == q;
    var k :| 0 <= k < |slots| && slots[k] == s;
    var all := before + PlacedOf(t, slots);
    assert all[|before| + k] == Placed(q, Radius(t, c));
  }

  lemma GoodAppend(t: Tile, c: Class, slots: seq<Slot>, before: seq<Placed>, s: Slot)
    requires forall x :: x in slots ==> x.cls == c
    requires Good(t, c, Sampled(slots))
    requires !s.fallback ==> Spaced(t, s.xy, Radius(t, c), before + PlacedOf(t, slots)) && InBox(t, Radius(t, c), s.xy)
    ensures Good(t, c, Sampled(slots + [s]))
  {
    assert (slots + [s])[..|slots|] == slots;
    if !s.fallback {
      forall i | 0 <= i < |Sampled(slots)|
        ensures Apart(s.xy, Sampled(slots)[i], Radius(t, c) + Radius(t, c) + t.cfg.clearance)
      {
        NewPointApart(t, c, slots, before, s.xy, Sampled(slots)[i]);
      }
    }
  }

  lemma {:induction false} ClassOfSlots(t: Tile, c: Class, count: int, before: seq<Placed>)
    requires ClassSlots(t, c, count, before).Ok?
    ensures forall s :: s in ClassSlots(t, c, count, before).value ==> s.cls == c
    decreases count
  {
    if count > 0 {
      ClassOfSlots(t, c, count - 1, before);
    }
  }

  lemma {:induction false} ClassSlotsLast(t: Tile, c: Class, count: nat, before: seq<Placed>)
    requires UnitHash(t) && count > 0 && ClassSlots(t, c, count, before).Ok?
    ensures ClassSlots(t, c, count - 1, before).Ok?
    ensures var slots := ClassSlots(t, c, count - 1, before).value;
            var next := ChooseSlot(t, c, count - 1, before + PlacedOf(t, slots));
            next.Ok? && ClassSlots(t, c, count, before) == Ok(slots + [next.value]) &&
            GoodSlot(t, next.value) &&
            (!next.value.fallback ==>
              Fits(t, Radius(t, c)) && InBox(t, Radius(t, c), next.value.xy) &&
              Spaced(t, next.value.xy, Radius(t, c), before + PlacedOf(t, slots)))
  {
    hide InBox, Fits, Spaced, ChooseSlot, PlacedOf, OutsideCenter, UnitHash;
    if ClassSlots(t, c, count - 1, before).Ok? {
      var slots := ClassSlots(t, c, count - 1, before).value;
      if ChooseSlot(t, c, count - 1, before + PlacedOf(t, slots)).Ok? {
        ChooseSlotSafe(t, c, count - 1, before + PlacedOf(t, slots));
      }
    }
  }

  lemma {:induction false} NothingSampled(t: Tile, c: Class, count: int, before: seq<Placed>)
    requires count <= 0
    ensures ClassSlots(t, c, count, before) == Ok([]) && Good(t, c, Sampled([]))
  {
  }

  lemma {:induction false} SampledIsGood(t: Tile, c: Class, count: int, before: seq<Placed>)
    requires UnitHash(t) && ClassSlots(t, c, count, before).Ok?
    ensures Good(t, c, Sampled(ClassSlots(t, c, count, before).value))
    decreases count
  {
    hide *;
    if count <= 0 {
      NothingSampled(t, c, count, before);
    } else {
      ClassSlotsLast(t, c, count, before);
      SampledIsGood(t, c, count - 1, before);
      ClassOfSlots(t, c, count - 1, before);
      var slots := ClassSlots(t, c, count - 1, before).value;
      GoodAppend(t, c, slots, before, ChooseSlot(t, c, count - 1, before + PlacedOf(t, slots)).value);
    }
  }

  /** Move the usable tile to the first quadrant. */
  function Moved(ps: seq<Point>, dx: real, dy: real): (r: seq<Point>)
    ensures |r| == |ps| && forall i :: 0 <= i < |r| ==> r[i] == (ps[i].0 + dx, ps[i].1 + dy)
  {
    seq(|ps|, i requires 0 <= i < |ps| => (ps[i].0 + dx, ps[i].1 + dy))
  }

  lemma MovedApart(p: Point, q: Point, d: real, dx: real, dy: real)
    requires Apart(p, q, d)
    ensures Apart((p.0 + dx, p.1 + dy), (q.0 + dx, q.1 + dy), d)
  {
    assert p.0 + dx - (q.0 + dx) == p.0 - q.0;
    assert p.1 + dy - (q.1 + dy) == p.1 - q.1;
  }

  /** The distance two slots of one class must keep. */
  function OwnSpacing(t: Tile, c: Class): real {
    Radius(t, c) + Radius(t, c) + t.cfg.clearance
  }

  /** The most slots of one class that can be sampled, told by a grid of step s over the usable tile. */
  function Capacity(t: Tile, c: Class, s: real): int
    requires s > 0.0
  {
    var r := Radius(t, c);
    Cells(MaxX(t, r) + MaxX(t, r), MaxY(t, r) + MaxY(t, r), s)
  }

  lemma GoodFits(t: Tile, c: Class, ps: seq<Point>, s: real)
    requires s > 0.0 && OwnSpacing(t, c) > 0.0 && 2.0 * (s * s) <= OwnSpacing(t, c) * OwnSpacing(t, c)
    requires Good(t, c, ps) && Fits(t, Radius(t, c))
    ensures |ps| <= Capacity(t, c, s)
  {
    var r := Radius(t, c);
    var (dx, dy) := (MaxX(t, r), MaxY(t, r));
    var qs := Moved(ps, dx, dy);
    forall i, j | 0 <= i < j < |qs| ensures Apart(qs[j], qs[i], OwnSpacing(t, c)) {
      MovedApart(ps[j], ps[i], OwnSpacing(t, c), dx, dy);
    }
    forall i | 0 <= i < |qs| ensures 0.0 <= qs[i].0 <= dx + dx && 0.0 <= qs[i].1 <= dy + dy {
      assert InBox(t, r, ps[i]);
    }
    RectanglePacking(qs, dx + dx, dy + dy, OwnSpacing(t, c), s);
  }

  /** Main result: the slots of one class that a layout places without the fallback list are at most the capacity;
      so asking for more forces the fallback flag on some slot of that class. */
  lemma PackingBound(t: Tile, c: Class, count: int, before: seq<Placed>, s: real)
    requires UnitHash(t) && ClassSlots(t, c, count, before).Ok?
    requires s > 0.0 && OwnSpacing(t, c) > 0.0 && 2.0 * (s * s) <= OwnSpacing(t, c) * OwnSpacing(t, c)
    requires Fits(t, Radius(t, c))
    ensures var slots := ClassSlots(t, c, count, before).value;
            |Sampled(slots)| <= Capacity(t, c, s) &&
            (count > Capacity(t, c, s) ==> exists x :: x in slots && x.fallback)
  {
    SampledIsGood(t, c, count, before);
    var slots := ClassSlots(t, c, count, before).value;
    GoodFits(t, c, Sampled(slots), s);
    GoodFits(t, c, [], s);
    if count > Capacity(t, c, s) {
      assert |Sampled(slots)| < |slots|;
    }
  }

  /** Main result, on the layout itself: too large a small count shows as a small slot with the fallback flag,
      too large a large count as a large one. */
  lemma OverfullLayoutFallsBack(t: Tile, counts: Counts, c: Class, s: real)
    requires UnitHash(t) && StageSlotsSpec(t, counts).Ok? && Fits(t, Radius(t, c))
    requires s > 0.0 && OwnSpacing(t, c) > 0.0 && 2.0 * (s * s) <= OwnSpacing(t, c) * OwnSpacing(t, c)
    requires (match c case Small => counts.small case Large => counts.large) > Capacity(t, c, s)
    ensures exists x :: x in StageSlotsSpec(t, counts).value && x.cls == c && x.fallback
  {
    OutputShape(t, counts);
    PartsSafe(t, counts);
    var m := MandatorySlots(t, counts);
    var before := match c case Small => PlacedOf(t, m + LargeSlots(t, counts).value) case Large => PlacedOf(t, m);
    var count := match c case Small => counts.small case Large => counts.large;
    PackingBound(t, c, count, before, s);
    ClassOfSlots(t, c, count, before);
    var x :| x in ClassSlots(t, c, count, before).value && x.fallback;
    assert x in StageSlotsSpec(t, counts).value;
  }
}
