/** What every layout of a tile satisfies: keep-out box, usable tile, spacing, order and keys. */
module LayoutSafety {
  import opened Common
  import opened Layout

  // ---- One slot ----

  lemma StretchInRange(lo: real, hi: real, u: real)
    requires lo <= hi && 0.0 <= u <= 1.0
    ensures lo <= Stretch(lo, hi, u) <= hi
  {
    var d, w := hi - lo, 1.0 - u;
    assert d * u >= 0.0;
    assert d * w >= 0.0;
    assert d * w == d - d * u;
  }

  lemma CandidateInBox(t: Tile, c: Class, slot: int, attempt: int)
    requires UnitHash(t) && CandidateXy(t, c, slot, attempt).Ok?
    ensures Fits(t, Radius(t, c)) && InBox(t, Radius(t, c), CandidateXy(t, c, slot, attempt).value)
  {
    var r := Radius(t, c);
    assert 0.0 <= t.hash(Key(t, c, slot, attempt, X)) <= 1.0 && 0.0 <= t.hash(Key(t, c, slot, attempt, Y)) <= 1.0;
    StretchInRange(-MaxX(t, r), MaxX(t, r), t.hash(Key(t, c, slot, attempt, X)));
    StretchInRange(-MaxY(t, r), MaxY(t, r), t.hash(Key(t, c, slot, attempt, Y)));
  }

  ghost predicate Rejected(t: Tile, c: Class, slot: int, placed: seq<Placed>, attempt: int) {
    CandidateXy(t, c, slot, attempt).Ok? && !Acceptable(t, c, placed, CandidateXy(t, c, slot, attempt).value)
  }

  /** Main result: the sampler takes the earliest acceptable candidate, and gives up exactly when there is none. */
  lemma {:induction false} FirstAcceptedIsFirst(t: Tile, c: Class, slot: int, placed: seq<Placed>, from: nat)
    requires Fits(t, Radius(t, c))
    ensures FirstAccepted(t, c, slot, placed, from).Ok?
    ensures FirstAccepted(t, c, slot, placed, from).value.None? <==>
            forall a :: from <= a < t.cfg.maxAttempts ==> Rejected(t, c, slot, placed, a)
    ensures forall p :: FirstAccepted(t, c, slot, placed, from).value == Some(p) <==>
              exists a :: from <= a < t.cfg.maxAttempts && CandidateXy(t, c, slot, a) == Ok(p) &&
                !Rejected(t, c, slot, placed, a) && forall b :: from <= b < a ==> Rejected(t, c, slot, placed, b)
    decreases t.cfg.maxAttempts - from
  {
    if from < t.cfg.maxAttempts && Rejected(t, c, slot, placed, from) {
      FirstAcceptedIsFirst(t, c, slot, placed, from + 1);
      var r := FirstAccepted(t, c, slot, placed, from);
      forall p | r.value == Some(p)
        ensures exists a :: from <= a < t.cfg.maxAttempts && CandidateXy(t, c, slot, a) == Ok(p) &&
                  !Rejected(t, c, slot, placed, a) && forall b :: from <= b < a ==> Rejected(t, c, slot, placed, b)
      {
        var a :| from + 1 <= a < t.cfg.maxAttempts && CandidateXy(t, c, slot, a) == Ok(p) &&
          !Rejected(t, c, slot, placed, a) && forall b :: from + 1 <= b < a ==> Rejected(t, c, slot, placed, b);
      }
    }
  }

  lemma {:induction false} FirstAcceptedSafe(t: Tile, c: Class, slot: int, placed: seq<Placed>, from: nat)
    requires UnitHash(t)
    ensures FirstAccepted(t, c, slot, placed, from).Ok? && from < t.cfg.maxAttempts ==> Fits(t, Radius(t, c))
    ensures match FirstAccepted(t, c, slot, placed, from)
            case Ok(Some(p)) => InBox(t, Radius(t, c), p) && Acceptable(t, c, placed, p)
            case _ => true
    decreases t.cfg.maxAttempts - from
  {
    if from < t.cfg.maxAttempts && CandidateXy(t, c, slot, from).Ok? {
      CandidateInBox(t, c, slot, from);
      FirstAcceptedSafe(t, c, slot, placed, from + 1);
    }
  }

  /** A fallback point lies in the usable tile exactly when there is a usable tile. */
  lemma FallbackSafe(t: Tile, r: real, p: Point)
    requires FallbackCandidates(t, r).Ok? && p in FallbackCandidates(t, r).value
    ensures OutsideCenter(t, p) && (InBox(t, r, p) <==> Fits(t, r))
  {
    assert p in FallbackGrid(t, r);
  }

  lemma SomeMember(ps: seq<Point>)
    ensures ps != [] ==> exists p :: p in ps
  {
    if ps != [] {
      assert ps[0] in ps;
    }
  }

  /** There is no fallback point exactly when the centre box covers the corners of the usable tile. */
  lemma {:induction false} NoFallbackExactlyWhenCovered(t: Tile, r: real)
    ensures FallbackCandidates(t, r).Err? <==>
            Abs(MaxX(t, r)) <= t.cfg.centerHalfExtent && Abs(MaxY(t, r)) <= t.cfg.centerHalfExtent
  {
    var grid, corner := FallbackGrid(t, r), (MaxX(t, r), MaxY(t, r));
    assert grid[4] == corner;
    if OutsideCenter(t, corner) {
      assert corner in KeepOutside(t, grid);
    } else {
      forall p | p in grid ensures !OutsideCenter(t, p) {
        var i :| 0 <= i < 9 && grid[i] == p;
      }
      SomeMember(KeepOutside(t, grid));
    }
  }

  ghost predicate GoodSlot(t: Tile, s: Slot) {
    && OutsideCenter(t, s.xy)
    && (InBox(t, Radius(t, s.cls), s.xy) <==> Fits(t, Radius(t, s.cls)))
    && (t.cfg.maxAttempts > 0 ==> Fits(t, Radius(t, s.cls)))
  }

  lemma ChooseSlotSafe(t: Tile, c: Class, slot: nat, placed: seq<Placed>)
    requires UnitHash(t) && ChooseSlot(t, c, slot, placed).Ok?
    ensures var s := ChooseSlot(t, c, slot, placed).value;
            s.cls == c && s.slotIndex == slot && GoodSlot(t, s) &&
            (!s.fallback ==> Fits(t, Radius(t, c)) && Spaced(t, s.xy, Radius(t, c), placed))
  {
    FirstAcceptedSafe(t, c, slot, placed, 0);
    var s := ChooseSlot(t, c, slot, placed).value;
    if s.fallback {
      var ps := FallbackCandidates(t, Radius(t, c)).value;
      assert s.xy == ps[(|placed| + slot) % |ps|];
      FallbackSafe(t, Radius(t, c), s.xy);
    }
  }

  // ---- All slots, in the order they are placed ----

  ghost predicate ApartSlots(t: Tile, later: Slot, earlier: Slot) {
    Apart(later.xy, earlier.xy, Radius(t, later.cls) + Radius(t, earlier.cls) + t.cfg.clearance)
  }

  /** Every slot that is not a fallback keeps its distance from all slots placed before it. */
  ghost predicate SpacedInOrder(t: Tile, slots: seq<Slot>) {
    forall i, j :: 0 <= i < j < |slots| && !slots[j].fallback ==> ApartSlots(t, slots[j], slots[i])
  }

  lemma PlacedOfAppend(t: Tile, a: seq<Slot>, b: seq<Slot>)
    ensures PlacedOf(t, a + b) == PlacedOf(t, a) + PlacedOf(t, b)
  {
  }

  lemma AppendSpaced(t: Tile, slots: seq<Slot>, s: Slot)
    requires SpacedInOrder(t, slots)
    requires !s.fallback ==> Spaced(t, s.xy, Radius(t, s.cls), PlacedOf(t, slots))
    ensures SpacedInOrder(t, slots + [s])
  {
    var all := slots + [s];
    forall i, j | 0 <= i < j < |all| && !all[j].fallback ensures ApartSlots(t, all[j], all[i]) {
      if j == |slots| {
        assert PlacedOf(t, slots)[i] == Placed(all[i].xy, Radius(t, all[i].cls));
      } else {
        assert all[i] == slots[i] && all[j] == slots[j];
      }
    }
  }

  lemma {:induction false} ClassSlotsSafe(t: Tile, c: Class, count: int, before: seq<Slot>)
    requires UnitHash(t) && SpacedInOrder(t, before)
    requires ClassSlots(t, c, count, PlacedOf(t, before)).Ok?
    ensures var slots := ClassSlots(t, c, count, PlacedOf(t, before)).value;
            (forall i :: 0 <= i < |slots| ==> slots[i].cls == c && slots[i].slotIndex == i && GoodSlot(t, slots[i])) &&
            SpacedInOrder(t, before + slots)
    decreases count
  {
    if count <= 0 {
      assert before + [] == before;
    } else {
      ClassSlotsSafe(t, c, count - 1, before);
      var slots := ClassSlots(t, c, count - 1, PlacedOf(t, before)).value;
      PlacedOfAppend(t, before, slots);
      ChooseSlotSafe(t, c, count - 1, PlacedOf(t, before + slots));
      var s := ChooseSlot(t, c, count - 1, PlacedOf(t, before + slots)).value;
      AppendSpaced(t, before + slots, s);
      assert before + (slots + [s]) == before + slots + [s];
    }
  }

  function LargeSlots(t: Tile, counts: Counts): Result<seq<Slot>, LayoutError> {
    ClassSlots(t, Large, counts.large, PlacedOf(t, MandatorySlots(t, counts)))
  }

  function SmallSlots(t: Tile, counts: Counts): Result<seq<Slot>, LayoutError>
    requires LargeSlots(t, counts).Ok?
  {
    ClassSlots(t, Small, counts.small, PlacedOf(t, MandatorySlots(t, counts) + LargeSlots(t, counts).value))
  }

  lemma PlacementOrderParts(t: Tile, counts: Counts)
    ensures PlacementOrder(t, counts).Ok? <==> LargeSlots(t, counts).Ok? && SmallSlots(t, counts).Ok?
    ensures PlacementOrder(t, counts).Ok? ==>
            PlacementOrder(t, counts).value ==
              MandatorySlots(t, counts) + LargeSlots(t, counts).value + SmallSlots(t, counts).value
  {
    if LargeSlots(t, counts).Ok? {
      PlacedOfAppend(t, MandatorySlots(t, counts), LargeSlots(t, counts).value);
    }
  }

  lemma PartsSafe(t: Tile, counts: Counts)
    requires UnitHash(t) && PlacementOrder(t, counts).Ok?
    ensures LargeSlots(t, counts).Ok? && SmallSlots(t, counts).Ok?
    ensures var large, small := LargeSlots(t, counts).value, SmallSlots(t, counts).value;
            (forall i :: 0 <= i < |large| ==>
             large[i].cls == Large && large[i].slotIndex == i && GoodSlot(t, large[i])) &&
            (forall i :: 0 <= i < |small| ==> small[i].cls == Small && small[i].slotIndex == i && GoodSlot(t, small[i]))
    ensures SpacedInOrder(t, PlacementOrder(t, counts).value)
  {
    PlacementOrderParts(t, counts);
    var m := MandatorySlots(t, counts);
    ClassSlotsSafe(t, Large, counts.large, m);
    ClassSlotsSafe(t, Small, counts.small, m + LargeSlots(t, counts).value);
  }

  // ---- The sort ----

  ghost predicate SortedSlots(s: seq<Slot>) {
    forall i, j :: 0 <= i < j < |s| ==> KeyLe(s[i], s[j])
  }

  /** Sorted, and no two slots have the same class and slot index. */
  ghost predicate StrictlySorted(s: seq<Slot>) {
    forall i, j :: 0 <= i < j < |s| ==> KeyLe(s[i], s[j]) && !KeyLe(s[j], s[i])
  }

  lemma {:induction false} InsertSlotMultiset(x: Slot, s: seq<Slot>)
    ensures multiset(InsertSlot(x, s)) == multiset(s) + multiset{x}
  {
    hide KeyLe;
    if s != [] && !KeyLe(x, s[0]) {
      TailMultiset(s);
      InsertSlotMultiset(x, s[1..]);
      TailMultiset(InsertSlot(x, s));
    }
  }

  lemma {:induction false} InsertSlotSorted(x: Slot, s: seq<Slot>)
    requires SortedSlots(s)
    ensures SortedSlots(InsertSlot(x, s))
    ensures InsertSlot(x, s)[0] == if s == [] || KeyLe(x, s[0]) then x else s[0]
  {
    if s != [] && !KeyLe(x, s[0]) {
      InsertSlotSorted(x, s[1..]);
    }
  }

  lemma {:induction false} SortSlotsSorts(s: seq<Slot>)
    ensures SortedSlots(SortSlots(s)) && multiset(SortSlots(s)) == multiset(s)
  {
    if s != [] {
      assert s == [s[0]] + s[1..];
      SortSlotsSorts(s[1..]);
      InsertSlotMultiset(s[0], SortSlots(s[1..]));
      InsertSlotSorted(s[0], SortSlots(s[1..]));
    }
  }

  lemma {:induction false} SortedSlotsUnique(a: seq<Slot>, b: seq<Slot>)
    requires SortedSlots(a) && StrictlySorted(b) && multiset(a) == multiset(b)
    ensures a == b
  {
    assert |multiset(a)| == |multiset(b)|;
    if b != [] {
      assert a[0] in multiset(b) && b[0] in multiset(a);
      assert KeyLe(a[0], b[0]);
      assert a[0] == b[0];
      TailMultiset(a);
      TailMultiset(b);
      assert multiset(a[1..]) == multiset(b[1..]);
      SortedSlotsUnique(a[1..], b[1..]);
      assert a == [a[0]] + a[1..] && b == [b[0]] + b[1..];
    }
  }

  ghost predicate Numbered(slots: seq<Slot>, c: Class) {
    forall i :: 0 <= i < |slots| ==> slots[i].cls == c && slots[i].slotIndex == i
  }

  ghost predicate Parts(m: seq<Slot>, large: seq<Slot>, small: seq<Slot>) {
    && Numbered(large, Large)
    && Numbered(small, Small)
    && |m| <= 1 && (m != [] ==> m[0].cls == Small && (small != [] ==> m[0].slotIndex == |small|))
  }

  lemma CanonicalIsStrict(m: seq<Slot>, large: seq<Slot>, small: seq<Slot>)
    requires Parts(m, large, small)
    ensures StrictlySorted(small + m + large)
  {
    var target := small + m + large;
    assert forall i :: 0 <= i < |small| ==> target[i] == small[i];
    assert m != [] ==> target[|small|] == m[0];
    assert forall i :: |small| + |m| <= i < |target| ==> target[i] == large[i - |small| - |m|];
  }

  lemma {:induction false} SortsToCanonical(m: seq<Slot>, large: seq<Slot>, small: seq<Slot>)
    requires Parts(m, large, small)
    ensures SortSlots(m + large + small) == small + m + large
    ensures multiset(small + m + large) == multiset(m + large + small)
  {
    var placed, target := m + large + small, small + m + large;
    CanonicalIsStrict(m, large, small);
    SortSlotsSorts(placed);
    assert multiset(target) == multiset(small) + multiset(m) + multiset(large);
    assert multiset(placed) == multiset(m) + multiset(large) + multiset(small);
    SortedSlotsUnique(SortSlots(placed), target);
  }

  /** Main result: a layout lists the small slots 0, 1, .., then the mandatory one, then the large slots 0, 1, ..:
      the sort is a permutation of what was placed, and no two slots share class and index. */
  lemma {:induction false} OutputShape(t: Tile, counts: Counts)
    requires UnitHash(t)
    ensures StageSlotsSpec(t, counts).Ok? <==> LargeSlots(t, counts).Ok? && SmallSlots(t, counts).Ok?
    ensures StageSlotsSpec(t, counts).Ok? ==>
            var out := StageSlotsSpec(t, counts).value;
            out == SmallSlots(t, counts).value + MandatorySlots(t, counts) + LargeSlots(t, counts).value &&
            multiset(out) == multiset(PlacementOrder(t, counts).value) &&
            StrictlySorted(out)
  {
    PlacementOrderParts(t, counts);
    if PlacementOrder(t, counts).Ok? {
      PartsSafe(t, counts);
      CanonicalIsStrict(MandatorySlots(t, counts), LargeSlots(t, counts).value, SmallSlots(t, counts).value);
      SortsToCanonical(MandatorySlots(t, counts), LargeSlots(t, counts).value, SmallSlots(t, counts).value);
    }
  }

  // ---- The layout as its caller sees it ----

  ghost predicate IsMandatory(t: Tile, counts: Counts, s: Slot) {
    t.mandatory.Some? && s.cls == Small && s.slotIndex == counts.small
  }

  /** When a slot has its turn: the mandatory one first, then the large ones, then the small ones, each by index. */
  ghost predicate PlacedBefore(t: Tile, counts: Counts, a: Slot, b: Slot) {
    if IsMandatory(t, counts, a) || IsMandatory(t, counts, b) then !IsMandatory(t, counts, b)
    else if a.cls != b.cls then a.cls == Large
    else a.slotIndex < b.slotIndex
  }

  lemma TurnsFollowOrder(t: Tile, counts: Counts, i: nat, j: nat)
    requires UnitHash(t) && PlacementOrder(t, counts).Ok?
    requires i <= j < |PlacementOrder(t, counts).value|
    ensures !PlacedBefore(t, counts, PlacementOrder(t, counts).value[j], PlacementOrder(t, counts).value[i])
  {
    PlacementOrderParts(t, counts);
    PartsSafe(t, counts);
  }

  lemma PairInOrder(t: Tile, counts: Counts, a: Slot, b: Slot)
    requires UnitHash(t) && PlacementOrder(t, counts).Ok?
    requires a in PlacementOrder(t, counts).value && b in PlacementOrder(t, counts).value
    requires PlacedBefore(t, counts, a, b) && !b.fallback
    ensures ApartSlots(t, b, a)
  {
    PartsSafe(t, counts);
    var order := PlacementOrder(t, counts).value;
    var i :| 0 <= i < |order| && order[i] == a;
    var j :| 0 <= j < |order| && order[j] == b;
    if j <= i {
      TurnsFollowOrder(t, counts, j, i);
    }
  }

  lemma SameSlots(t: Tile, counts: Counts, s: Slot)
    requires UnitHash(t) && StageSlotsSpec(t, counts).Ok?
    ensures s in StageSlotsSpec(t, counts).value <==> s in PlacementOrder(t, counts).value
  {
    OutputShape(t, counts);
    assert s in StageSlotsSpec(t, counts).value <==> s in multiset(StageSlotsSpec(t, counts).value);
    assert s in PlacementOrder(t, counts).value <==> s in multiset(PlacementOrder(t, counts).value);
  }

  lemma SlotIsGood(t: Tile, counts: Counts, s: Slot)
    requires UnitHash(t) && PlacementOrder(t, counts).Ok?
    requires s in PlacementOrder(t, counts).value && !IsMandatory(t, counts, s)
    ensures GoodSlot(t, s)
  {
    PlacementOrderParts(t, counts);
    PartsSafe(t, counts);
    assert s in MandatorySlots(t, counts) || s in LargeSlots(t, counts).value || s in SmallSlots(t, counts).value;
  }

  /** Main result: layout safety, for every slot and every pair of slots of a returned layout. */
  lemma LayoutIsSafe(t: Tile, counts: Counts)
    requires UnitHash(t) && StageSlotsSpec(t, counts).Ok?
    ensures var out := StageSlotsSpec(t, counts).value;
            (forall s :: s in out && !IsMandatory(t, counts, s) ==> GoodSlot(t, s)) &&
            (forall a, b :: a in out && b in out && PlacedBefore(t, counts, a, b) && !b.fallback ==>
             ApartSlots(t, b, a))
  {
    var out := StageSlotsSpec(t, counts).value;
    forall s | s in out && !IsMandatory(t, counts, s) ensures GoodSlot(t, s) {
      SameSlots(t, counts, s);
      SlotIsGood(t, counts, s);
    }
    forall a, b | a in out && b in out && PlacedBefore(t, counts, a, b) && !b.fallback
      ensures ApartSlots(t, b, a)
    {
      SameSlots(t, counts, a);
      SameSlots(t, counts, b);
      PairInOrder(t, counts, a, b);
    }
  }

  /** With at least one attempt per slot, every slot of a layout but the mandatory one lies in the usable tile.
      Without attempts that holds exactly when the class fits the tile at all. */
  lemma LayoutInsideTile(t: Tile, counts: Counts, s: Slot)
    requires UnitHash(t) && StageSlotsSpec(t, counts).Ok?
    requires s in StageSlotsSpec(t, counts).value && !IsMandatory(t, counts, s)
    ensures InBox(t, Radius(t, s.cls), s.xy) <==> t.cfg.maxAttempts > 0 || Fits(t, Radius(t, s.cls))
  {
    LayoutIsSafe(t, counts);
  }

  /** Main result: raising the small count keeps every large slot, every earlier small slot and the mandatory point. */
  lemma {:induction false} LayoutPrefixStable(t: Tile, counts: Counts, more: int)
    requires UnitHash(t) && 0 <= counts.small <= more
    requires StageSlotsSpec(t, counts.(small := more)).Ok?
    ensures StageSlotsSpec(t, counts).Ok?
    ensures var out, out' := StageSlotsSpec(t, counts).value, StageSlotsSpec(t, counts.(small := more)).value;
            counts.small <= |out| && more <= |out'| &&
            out[..counts.small] == out'[..counts.small] &&
            out'[more..] == Renumbered(t, counts, more, out[counts.small..])
  {
    var counts' := counts.(small := more);
    OutputSplit(t, counts');
    SamePartsBefore(t, counts, more);
    var rest := MandatorySlots(t, counts) + LargeSlots(t, counts).value;
    ClassSlotsPrefix(t, Small, counts.small, more, PlacedOf(t, rest));
    OutputShape(t, counts);
    OutputSplit(t, counts);
    RestRenumbered(t, counts, more);
  }

  lemma RestRenumbered(t: Tile, counts: Counts, more: int)
    requires UnitHash(t) && PlacementOrder(t, counts).Ok?
    ensures LargeSlots(t, counts).Ok?
    ensures MandatorySlots(t, counts.(small := more)) + LargeSlots(t, counts).value ==
            Renumbered(t, counts, more, MandatorySlots(t, counts) + LargeSlots(t, counts).value)
  {
    PartsSafe(t, counts);
  }

  lemma OutputSplit(t: Tile, counts: Counts)
    requires UnitHash(t) && counts.small >= 0 && StageSlotsSpec(t, counts).Ok?
    ensures LargeSlots(t, counts).Ok? && SmallSlots(t, counts).Ok?
    ensures var out := StageSlotsSpec(t, counts).value;
            counts.small <= |out| && out[..counts.small] == SmallSlots(t, counts).value &&
            out[counts.small..] == MandatorySlots(t, counts) + LargeSlots(t, counts).value
  {
    OutputShape(t, counts);
    SplitConcat(SmallSlots(t, counts).value, MandatorySlots(t, counts), LargeSlots(t, counts).value);
  }

  lemma SplitConcat(a: seq<Slot>, b: seq<Slot>, c: seq<Slot>)
    ensures (a + b + c)[..|a|] == a && (a + b + c)[|a|..] == b + c
  {
  }

  /** The mandatory slot carries the small count as its index; nothing else depends on the counts. */
  function Renumbered(t: Tile, counts: Counts, more: int, slots: seq<Slot>): (r: seq<Slot>)
    ensures |r| == |slots|
    ensures forall i :: 0 <= i < |r| ==>
              r[i] == if t.mandatory.Some? && slots[i].cls == Small && slots[i].slotIndex == counts.small
                      then slots[i].(slotIndex := more) else slots[i]
  {
    seq(|slots|, i requires 0 <= i < |slots| =>
      if t.mandatory.Some? && slots[i].cls == Small && slots[i].slotIndex == counts.small
      then slots[i].(slotIndex := more) else slots[i])
  }

  lemma SamePartsBefore(t: Tile, counts: Counts, more: int)
    ensures var counts' := counts.(small := more);
            LargeSlots(t, counts) == LargeSlots(t, counts') &&
            (LargeSlots(t, counts).Ok? ==>
              PlacedOf(t, MandatorySlots(t, counts) + LargeSlots(t, counts).value) ==
              PlacedOf(t, MandatorySlots(t, counts') + LargeSlots(t, counts).value))
  {
    assert PlacedOf(t, MandatorySlots(t, counts)) == PlacedOf(t, MandatorySlots(t, counts.(small := more)));
    if LargeSlots(t, counts).Ok? {
      PlacedOfAppend(t, MandatorySlots(t, counts), LargeSlots(t, counts).value);
      PlacedOfAppend(t, MandatorySlots(t, counts.(small := more)), LargeSlots(t, counts).value);
    }
  }

  lemma {:induction false} ClassSlotsPrefix(t: Tile, c: Class, count: nat, more: nat, before: seq<Placed>)
    requires count <= more && ClassSlots(t, c, more, before).Ok?
    ensures ClassSlots(t, c, count, before).Ok?
    ensures ClassSlots(t, c, count, before).value == ClassSlots(t, c, more, before).value[..count]
    decreases more
  {
    if count < more {
      ClassSlotsPrefix(t, c, count, more - 1, before);
    }
  }
}
