/** The robust ground height of one obstacle footprint: a quantile of its terrain samples. */
module GroundHeight {
  import opened Common
  import opened OrderStatistics

  /** SemanticCourseGroundingCfg; both fields are floats a caller may set to anything. */
  datatype GroundingCfg = GroundingCfg(heightQuantile: Float, embedDepth: Float)

  datatype HeightError = NonFiniteHeight | NoHeights | BadQuantile | BadEmbedDepth

  predicate AllFinite(heights: seq<Float>) {
    forall h :: h in heights ==> h.Finite?
  }

  function Values(heights: seq<Float>): (r: seq<real>)
    requires AllFinite(heights)
    ensures |r| == |heights| && forall i :: 0 <= i < |r| ==> r[i] == heights[i].v
  {
    seq(|heights|, i requires 0 <= i < |heights| => heights[i].v)
  }

  predicate InUnit(q: Float) {
    q.Finite? && 0.0 <= q.v <= 1.0
  }

  predicate ValidEmbed(d: Float) {
    d.Finite? && d.v >= 0.0
  }

  function MaxOf(s: seq<real>): (m: real)
    requires s != []
  {
    if |s| == 1 then s[0]
    else
      var rest := MaxOf(s[1..]);
      if rest > s[0] then rest else s[0]
  }

  function Floor(p: real): int { p.Floor }

  function Ceil(p: real): int { -(-p).Floor }

  /** The point a fraction t of the way from lo to hi. */
  function Lerp(lo: real, hi: real, t: real): (r: real) {
    lo * (1.0 - t) + hi * t
  }

  /** Linear interpolation of a list at a fractional position. */
  function Interpolate(ordered: seq<real>, p: real): (h: real)
    requires ordered != [] && 0.0 <= p <= (|ordered| - 1) as real
  {
    var lower, upper := Floor(p), Ceil(p);
    if lower == upper then ordered[lower]
    else Lerp(ordered[lower], ordered[upper], p - lower as real)
  }

  function Position(q: real, n: nat): (p: real)
    requires n > 0 && 0.0 <= q <= 1.0
    ensures 0.0 <= p <= (n - 1) as real
  {
    PositionBounds(q, (n - 1) as real);
    q * (n - 1) as real
  }

  lemma PositionBounds(q: real, m: real)
    requires 0.0 <= q <= 1.0 && m >= 0.0
    ensures 0.0 <= q * m <= m
  {
  }

  function Quantile(heights: seq<real>, q: real): (h: real)
    requires heights != [] && 0.0 <= q <= 1.0
  {
    if q == 1.0 || |heights| == 1 then MaxOf(heights)
    else Interpolate(Ordered(heights), Position(q, |heights|))
  }

  function RobustGroundHeight(heights: seq<Float>, cfg: GroundingCfg): (r: Result<real, HeightError>) {
    if !AllFinite(heights) then Err(NonFiniteHeight)
    else if heights == [] then Err(NoHeights)
    else if !InUnit(cfg.heightQuantile) then Err(BadQuantile)
    else if !ValidEmbed(cfg.embedDepth) then Err(BadEmbedDepth)
    else Ok(Quantile(Values(heights), cfg.heightQuantile.v))
  }

  // ---- Products of reals, kept apart from everything else ----

  lemma ScaleMonotone(m: real, t: real, u: real)
    requires m >= 0.0 && t <= u
    ensures m * t <= m * u
  {
  }

  lemma LerpEnds(lo: real, hi: real)
    ensures Lerp(lo, hi, 0.0) == lo && Lerp(lo, hi, 1.0) == hi
  {
  }

  lemma LerpMonotone(lo: real, hi: real, t: real, u: real)
    requires lo <= hi && t <= u
    ensures Lerp(lo, hi, t) <= Lerp(lo, hi, u)
  {
    var d := hi - lo;
    var x, y := d * t, d * u;
    assert x <= y by {
      ScaleMonotone(d, t, u);
    }
    assert Lerp(lo, hi, t) == lo + x && Lerp(lo, hi, u) == lo + y;
  }

  lemma LerpRaise(lo: real, hi: real, lo': real, hi': real, t: real)
    requires lo <= lo' && hi <= hi' && 0.0 <= t <= 1.0
    ensures Lerp(lo, hi, t) <= Lerp(lo', hi', t)
  {
    var u := 1.0 - t;
    var x, x', y, y' := u * lo, u * lo', t * hi, t * hi';
    assert x <= x' && y <= y' by {
      ScaleMonotone(u, lo, lo');
      ScaleMonotone(t, hi, hi');
    }
    assert Lerp(lo, hi, t) == x + y && Lerp(lo', hi', t) == x' + y';
  }

  lemma LerpShift(lo: real, hi: real, c: real, t: real)
    ensures Lerp(lo + c, hi + c, t) == Lerp(lo, hi, t) + c
  {
  }

  // ---- The interpolation of a list ----

  lemma FloorCeil(p: real, k: int)
    requires k as real <= p < k as real + 1.0
    ensures Floor(p) == k && Ceil(p) == if p == k as real then k else k + 1
  {
  }

  /** The interpolation between two neighbouring positions. */
  lemma InterpolateCell(s: seq<real>, p: real, k: nat)
    requires s != [] && 0.0 <= p <= (|s| - 1) as real
    requires k < |s| && k as real <= p < k as real + 1.0
    ensures k + 1 < |s| ==> Interpolate(s, p) == Lerp(s[k], s[k + 1], p - k as real)
    ensures k + 1 == |s| ==> Interpolate(s, p) == s[k]
  {
    FloorCeil(p, k);
    if k + 1 < |s| {
      LerpEnds(s[k], s[k + 1]);
    }
  }

  lemma InterpolateBracket(s: seq<real>, p: real, k: nat)
    requires Sorted(s) && s != [] && 0.0 <= p <= (|s| - 1) as real
    requires k < |s| && k as real <= p < k as real + 1.0
    ensures s[k] <= Interpolate(s, p)
    ensures k + 1 < |s| ==> Interpolate(s, p) <= s[k + 1]
  {
    InterpolateCell(s, p, k);
    if k + 1 < |s| {
      LerpEnds(s[k], s[k + 1]);
      LerpMonotone(s[k], s[k + 1], 0.0, p - k as real);
      LerpMonotone(s[k], s[k + 1], p - k as real, 1.0);
    }
  }

  /** Interpolating a sorted list further to the right gives no smaller a value. */
  lemma InterpolateMonotoneInPosition(s: seq<real>, p: real, q: real)
    requires Sorted(s) && s != [] && 0.0 <= p <= q <= (|s| - 1) as real
    ensures Interpolate(s, p) <= Interpolate(s, q)
  {
    var j, k := Floor(p), Floor(q);
    if j == k {
      InterpolateCell(s, p, k);
      InterpolateCell(s, q, k);
      if k + 1 < |s| {
        LerpMonotone(s[k], s[k + 1], p - k as real, q - k as real);
      }
    } else {
      InterpolateBracket(s, p, j);
      InterpolateBracket(s, q, k);
      assert s[j + 1] <= s[k];
    }
  }

  lemma InterpolateMonotoneInEntries(s: seq<real>, t: seq<real>, p: real)
    requires Below(s, t) && s != [] && 0.0 <= p <= (|s| - 1) as real
    ensures Interpolate(s, p) <= Interpolate(t, p)
  {
    var k := Floor(p);
    InterpolateCell(s, p, k);
    InterpolateCell(t, p, k);
    if k + 1 < |s| {
      LerpRaise(s[k], s[k + 1], t[k], t[k + 1], p - k as real);
    }
  }

  lemma InterpolateShift(s: seq<real>, t: seq<real>, c: real, p: real)
    requires |s| == |t| > 0 && forall i :: 0 <= i < |s| ==> t[i] == s[i] + c
    requires 0.0 <= p <= (|s| - 1) as real
    ensures Interpolate(t, p) == Interpolate(s, p) + c
  {
    var k := Floor(p);
    InterpolateCell(s, p, k);
    InterpolateCell(t, p, k);
    if k + 1 < |s| {
      LerpShift(s[k], s[k + 1], c, p - k as real);
    }
  }

  // ---- The quantile ----

  lemma {:induction false} MaxOfIsMax(s: seq<real>)
    requires s != []
    ensures MaxOf(s) in s && forall x :: x in s ==> x <= MaxOf(s)
  {
    if |s| > 1 {
      MaxOfIsMax(s[1..]);
      assert s == [s[0]] + s[1..];
    }
  }

  lemma LastIsGreatest(o: seq<real>, s: seq<real>, m: real)
    requires s != [] && |o| == |s| && Sorted(o) && multiset(o) == multiset(s)
    requires m in s && forall x :: x in s ==> x <= m
    ensures o[|s| - 1] == m
  {
    assert o[|s| - 1] in multiset(o) && m in multiset(o);
    assert o[|s| - 1] in s;
  }

  /** The maximum is the last entry of the sorted list. */
  lemma {:induction false} MaxOfIsLast(s: seq<real>)
    requires s != []
    ensures MaxOf(s) == Ordered(s)[|s| - 1]
  {
    MaxOfIsMax(s);
    OrderedMultiset(s);
    LastIsGreatest(Ordered(s), s, MaxOf(s));
  }

  /** The shortcut for q = 1 and for a single sample agrees with the general formula. */
  lemma {:induction false} ShortcutAgrees(heights: seq<real>, q: real)
    requires heights != [] && 0.0 <= q <= 1.0
    ensures Quantile(heights, q) == Interpolate(Ordered(heights), Position(q, |heights|))
  {
    if q == 1.0 || |heights| == 1 {
      MaxOfIsLast(heights);
      InterpolateCell(Ordered(heights), Position(q, |heights|), |heights| - 1);
    }
  }

  /** Main result: the height does not depend on the order in which the footprint is sampled. */
  lemma {:induction false} QuantilePermutationInvariant(a: seq<real>, b: seq<real>, q: real)
    requires a != [] && multiset(a) == multiset(b) && 0.0 <= q <= 1.0
    ensures b != [] && Quantile(a, q) == Quantile(b, q)
  {
    assert |multiset(a)| == |multiset(b)|;
    OrderedPermutation(a, b);
    ShortcutAgrees(a, q);
    ShortcutAgrees(b, q);
  }

  /** Main result: raising any terrain sample never lowers the height. */
  lemma {:induction false} QuantileMonotoneInHeights(a: seq<real>, b: seq<real>, q: real)
    requires a != [] && Below(a, b) && 0.0 <= q <= 1.0
    ensures Quantile(a, q) <= Quantile(b, q)
  {
    OrderedMonotone(a, b);
    ShortcutAgrees(a, q);
    ShortcutAgrees(b, q);
    InterpolateMonotoneInEntries(Ordered(a), Ordered(b), Position(q, |a|));
  }

  lemma PositionMonotone(q: real, q': real, n: nat)
    requires n > 0 && 0.0 <= q <= q' <= 1.0
    ensures Position(q, n) <= Position(q', n)
  {
    ScaleMonotone((n - 1) as real, q, q');
  }

  /** Main result: a larger quantile never lowers the height. */
  lemma {:induction false} QuantileMonotoneInQ(a: seq<real>, q: real, q': real)
    requires a != [] && 0.0 <= q <= q' <= 1.0
    ensures Quantile(a, q) <= Quantile(a, q')
  {
    ShortcutAgrees(a, q);
    ShortcutAgrees(a, q');
    PositionMonotone(q, q', |a|);
    InterpolateMonotoneInPosition(Ordered(a), Position(q, |a|), Position(q', |a|));
  }

  /** Main result: lifting the terrain lifts the height by the same amount. */
  lemma {:induction false} QuantileShift(a: seq<real>, c: real, q: real)
    requires a != [] && 0.0 <= q <= 1.0
    ensures Quantile(Shift(a, c), q) == Quantile(a, q) + c
  {
    OrderedShift(a, c);
    ShortcutAgrees(a, q);
    ShortcutAgrees(Shift(a, c), q);
    InterpolateShift(Ordered(a), Ordered(Shift(a, c)), c, Position(q, |a|));
  }

  /** Main result: the height moves by at most the largest change of a sample. */
  lemma {:induction false} QuantileLipschitz(a: seq<real>, b: seq<real>, d: real, q: real)
    requires a != [] && |a| == |b| && 0.0 <= q <= 1.0
    requires forall i :: 0 <= i < |a| ==> a[i] - d <= b[i] <= a[i] + d
    ensures Quantile(a, q) - d <= Quantile(b, q) <= Quantile(a, q) + d
  {
    QuantileShift(a, d, q);
    QuantileMonotoneInHeights(b, Shift(a, d), q);
    QuantileShift(b, d, q);
    QuantileMonotoneInHeights(a, Shift(b, d), q);
  }

  /** Main result: the height lies between the lowest and the highest sample, and q = 0 and q = 1 give those. */
  lemma {:induction false} QuantileBetweenExtremes(a: seq<real>, q: real)
    requires a != [] && 0.0 <= q <= 1.0
    ensures Quantile(a, 0.0) in a && forall x :: x in a ==> Quantile(a, 0.0) <= x
    ensures Quantile(a, 1.0) in a && forall x :: x in a ==> x <= Quantile(a, 1.0)
    ensures Quantile(a, 0.0) <= Quantile(a, q) <= Quantile(a, 1.0)
  {
    QuantileMonotoneInQ(a, 0.0, q);
    QuantileMonotoneInQ(a, q, 1.0);
    MaxOfIsMax(a);
    ShortcutAgrees(a, 0.0);
    var o := Ordered(a);
    InterpolateCell(o, Position(0.0, |a|), 0);
    FirstIsLeast(a);
  }

  lemma {:induction false} FirstIsLeast(a: seq<real>)
    requires a != []
    ensures Ordered(a)[0] in a && forall x :: x in a ==> Ordered(a)[0] <= x
  {
    OrderedMultiset(a);
    var o := Ordered(a);
    assert o[0] in multiset(o);
    forall x | x in a ensures o[0] <= x {
      assert x in multiset(o);
    }
  }

  /** Main result: at a whole position k the height is the k-th order statistic, told by the ranks in the samples. */
  lemma {:induction false} QuantileIsOrderStatistic(a: seq<real>, q: real, k: nat, x: real)
    requires a != [] && 0.0 <= q <= 1.0 && k < |a|
    requires q * (|a| - 1) as real == k as real
    ensures Quantile(a, q) <= x <==> CountLe(a, x) > k
    ensures Quantile(a, q) < x <==> CountLt(a, x) > k
  {
    ShortcutAgrees(a, q);
    InterpolateCell(Ordered(a), Position(q, |a|), k);
    OrderedRank(a, k, x);
  }
}
