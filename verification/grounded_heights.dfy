/** Where a grounded obstacle stands, told by ranks among the samples of its footprint. */
module GroundedHeights {
  import opened Common
  import opened OrderStatistics
  import opened GroundHeight
  import opened Grounding

  // ---- Ranks ----

  ghost function Lower(heights: seq<Float>, v: real): set<nat> {
    set i: nat | i < |heights| && heights[i].Finite? && heights[i].v < v
  }

  ghost function NotHigher(heights: seq<Float>, v: real): set<nat> {
    set i: nat | i < |heights| && heights[i].Finite? && heights[i].v <= v
  }

  /** The sample with exactly k samples before it when they are lined up by height. */
  ghost predicate HasRank(heights: seq<Float>, k: nat, v: real) {
    Finite(v) in heights && |Lower(heights, v)| <= k < |NotHigher(heights, v)|
  }

  lemma {:induction false} CountsAreSets(heights: seq<Float>, v: real)
    requires AllFinite(heights)
    ensures CountLt(Values(heights), v) == |Lower(heights, v)| && CountLe(Values(heights), v) == |NotHigher(heights, v)|
  {
    LowerIsCounted(Values(heights), v, Lower(heights, v), 0);
    NotHigherIsCounted(Values(heights), v, NotHigher(heights, v), 0);
  }

  lemma {:induction false} LowerIsCounted(s: seq<real>, v: real, places: set<nat>, from: nat)
    requires forall i: nat :: i in places <==> from <= i < from + |s| && s[i - from] < v
    ensures CountLt(s, v) == |places|
    decreases |s|
  {
    if s == [] {
      assert places == {};
    } else {
      var rest := places - {from};
      forall i: nat ensures i in rest <==> from + 1 <= i < from + |s| && s[1..][i - from - 1] < v {
        assert i in places <==> from <= i < from + |s| && s[i - from] < v;
      }
      LowerIsCounted(s[1..], v, rest, from + 1);
      assert places == if s[0] < v then rest + {from} else rest;
    }
  }

  lemma {:induction false} NotHigherIsCounted(s: seq<real>, v: real, places: set<nat>, from: nat)
    requires forall i: nat :: i in places <==> from <= i < from + |s| && s[i - from] <= v
    ensures CountLe(s, v) == |places|
    decreases |s|
  {
    if s == [] {
      assert places == {};
    } else {
      var rest := places - {from};
      forall i: nat ensures i in rest <==> from + 1 <= i < from + |s| && s[1..][i - from - 1] <= v {
        assert i in places <==> from <= i < from + |s| && s[i - from] <= v;
      }
      NotHigherIsCounted(s[1..], v, rest, from + 1);
      assert places == if s[0] <= v then rest + {from} else rest;
    }
  }

  /** The entries of the sorted samples are the ones of those ranks, and no others. */
  lemma {:induction false} OrderedHasRank(heights: seq<Float>, k: nat, v: real)
    requires AllFinite(heights) && k < |heights|
    ensures HasRank(heights, k, v) <==> v == Ordered(Values(heights))[k]
  {
    var values, o := Values(heights), Ordered(Values(heights));
    CountsAreSets(heights, v);
    OrderedRank(values, k, v);
    if v == o[k] {
      OrderedMultiset(values);
      assert v in multiset(o);
      assert v in values;
      var i :| 0 <= i < |values| && values[i] == v;
      assert heights[i] in heights;
      assert heights[i] == Finite(v);
    }
  }

  // ---- One obstacle ----

  /** The terrain height an obstacle stands on, undoing its offset and its embedding. */
  ghost function StandingHeight(o: Obstacle, embed: real): real {
    o.worldCenter.2 - o.body.groundOffset + embed
  }

  /** The fraction f of the way from lo to hi. */
  ghost function Way(lo: real, hi: real, f: real): real {
    lo + f * (hi - lo)
  }

  /** The height lies the fraction f of the way from the sample of rank k to the one of the next rank. */
  ghost predicate Divides(heights: seq<Float>, k: nat, next: nat, f: real, h: real) {
    if f == 0.0 then HasRank(heights, k, h)
    else exists lo, hi :: HasRank(heights, k, lo) && HasRank(heights, next, hi) && h == Way(lo, hi, f)
  }

  /** The whole part k and the fraction f of the position of a quantile among n samples. */
  ghost predicate AtPosition(q: real, n: nat, k: nat, f: real) {
    n > 0 && 0.0 <= f < 1.0 && q * (n - 1) as real == k as real + f
  }

  /** What the configuration asks for, apart from the samples. */
  ghost predicate Configured(cfg: GroundingCfg) {
    cfg.heightQuantile.Finite? && 0.0 <= cfg.heightQuantile.v && cfg.heightQuantile.v <= 1.0 &&
    cfg.embedDepth.Finite? && cfg.embedDepth.v >= 0.0
  }

  /** The obstacle of an anchor over these samples. */
  ghost predicate Grounded(anchor: Anchor, heights: seq<Float>, cfg: GroundingCfg, o: Obstacle) {
    && (forall i :: 0 <= i < |heights| ==> heights[i].Finite?) && |heights| > 0 && Configured(cfg)
    && o.body == anchor.body && o.worldCenter.0 == anchor.worldXy.0 && o.worldCenter.1 == anchor.worldXy.1
    && forall k: nat, f :: AtPosition(cfg.heightQuantile.v, |heights|, k, f) ==>
         Divides(heights, k, k + 1, f, StandingHeight(o, cfg.embedDepth.v))
  }

  /** The position among the sorted samples, cut into a whole part and a fraction. */
  lemma {:induction false} PositionParts(q: real, n: nat) returns (k: nat, f: real)
    requires n > 0 && 0.0 <= q <= 1.0
    ensures AtPosition(q, n, k, f)
    ensures forall k': nat, f' :: AtPosition(q, n, k', f') ==> k' == k && f' == f
  {
    var p := Position(q, n);
    k, f := p.Floor, p - p.Floor as real;
  }

  lemma {:induction false} QuantileDivides(heights: seq<Float>, q: real, k: nat, next: nat, f: real, h: real)
    requires AllFinite(heights) && heights != [] && 0.0 <= q <= 1.0 && AtPosition(q, |heights|, k, f) && next == k + 1
    ensures Divides(heights, k, next, f, h) <==> h == Quantile(Values(heights), q)
  {
    var o := Ordered(Values(heights));
    QuantileInCell(Values(heights), q, k, f);
    hide Quantile, HasRank, AtPosition, Way;
    OrderedAreRanks(heights, k);
    if f > 0.0 {
      OrderedAreRanks(heights, next);
      assert HasRank(heights, k, o[k]) && HasRank(heights, next, o[next]);
    }
  }

  lemma {:induction false} OrderedAreRanks(heights: seq<Float>, k: nat)
    requires AllFinite(heights) && k < |heights|
    ensures forall v :: HasRank(heights, k, v) <==> v == Ordered(Values(heights))[k]
  {
    hide HasRank;
    forall v ensures HasRank(heights, k, v) <==> v == Ordered(Values(heights))[k] {
      OrderedHasRank(heights, k, v);
    }
  }

  lemma {:induction false} PositionIs(q: real, n: nat, k: nat, f: real)
    requires 0.0 <= q <= 1.0 && AtPosition(q, n, k, f)
    ensures Position(q, n) == k as real + f && 0.0 <= f < 1.0
  {
  }

  lemma {:induction false} InterpolateAt(o: seq<real>, p: real, k: nat, f: real)
    requires o != [] && 0.0 <= p <= (|o| - 1) as real && p == k as real + f && 0.0 <= f < 1.0
    ensures k < |o| && (f > 0.0 ==> k + 1 < |o|)
    ensures Interpolate(o, p) == if f == 0.0 then o[k] else Way(o[k], o[k + 1], f)
  {
    InterpolateCell(o, p, k);
    hide Interpolate;
    if k + 1 < |o| {
      LerpIsWay(o[k], o[k + 1], f);
      LerpEnds(o[k], o[k + 1]);
      hide Lerp, Way;
    }
  }

  lemma {:induction false} QuantileInCell(values: seq<real>, q: real, k: nat, f: real)
    requires values != [] && 0.0 <= q <= 1.0 && AtPosition(q, |values|, k, f)
    ensures k < |values| && (f > 0.0 ==> k + 1 < |values|) && f >= 0.0
    ensures var o := Ordered(values);
            Quantile(values, q) == if f == 0.0 then o[k] else Way(o[k], o[k + 1], f)
  {
    hide *;
    PositionIs(q, |values|, k, f);
    ShortcutAgrees(values, q);
    InterpolateAt(Ordered(values), Position(q, |values|), k, f);
  }

  lemma {:induction false} LerpIsWay(lo: real, hi: real, f: real)
    ensures Lerp(lo, hi, f) == Way(lo, hi, f)
  {
  }

  /** Main result: an obstacle is grounded exactly when its samples and the configuration allow it, and then it stands
      where its anchor is, on the height its quantile has among the samples. */
  lemma {:induction false} PlaceExactlyWhen(anchor: Anchor, heights: seq<Float>, cfg: GroundingCfg, o: Obstacle)
    ensures Place(anchor, heights, cfg) == Ok(o) <==> Grounded(anchor, heights, cfg, o)
  {
    AllFiniteMeans(heights);
    if AllFinite(heights) && heights != [] && Configured(cfg) {
      var q := cfg.heightQuantile.v;
      var k, f := PositionParts(q, |heights|);
      QuantileDivides(heights, q, k, k + 1, f, StandingHeight(o, cfg.embedDepth.v));
      hide Quantile, Divides, AllFinite, AtPosition;
    }
  }

  lemma {:induction false} AllFiniteMeans(heights: seq<Float>)
    ensures AllFinite(heights) <==> forall i :: 0 <= i < |heights| ==> heights[i].Finite?
  {
    assert forall i :: 0 <= i < |heights| ==> heights[i] in heights;
  }

  /** Main result: what each failure means, the first that applies. */
  lemma {:induction false} PlaceFails(anchor: Anchor, heights: seq<Float>, cfg: GroundingCfg, e: GroundingError)
    ensures Place(anchor, heights, cfg) == Err(e) <==>
            e == Height(
              if exists i :: 0 <= i < |heights| && heights[i].NonFinite? then NonFiniteHeight
              else if |heights| == 0 then NoHeights
              else if !cfg.heightQuantile.Finite? || cfg.heightQuantile.v < 0.0 || cfg.heightQuantile.v > 1.0
              then BadQuantile
              else BadEmbedDepth) &&
            !((forall i :: 0 <= i < |heights| ==> heights[i].Finite?) && |heights| > 0 && Configured(cfg))
  {
    AllFiniteMeans(heights);
  }

  /** The quantile 1 puts an obstacle on the highest sample, the quantile 0 on the lowest. */
  lemma {:induction false} StandsOnExtreme(anchor: Anchor, heights: seq<Float>, cfg: GroundingCfg)
    requires Place(anchor, heights, cfg).Ok?
    ensures var h := StandingHeight(Place(anchor, heights, cfg).value, cfg.embedDepth.v);
            (cfg.heightQuantile == Finite(1.0) ==>
              Finite(h) in heights && forall i :: 0 <= i < |heights| ==> heights[i].v <= h) &&
            (cfg.heightQuantile == Finite(0.0) ==>
              Finite(h) in heights && forall i :: 0 <= i < |heights| ==> h <= heights[i].v)
  {
    var values, q := Values(heights), cfg.heightQuantile.v;
    assert StandingHeight(Place(anchor, heights, cfg).value, cfg.embedDepth.v) == Quantile(values, q);
    hide Quantile, Place;
    QuantileBetweenExtremes(values, q);
    forall v | v in values ensures Finite(v) in heights {
      var i :| 0 <= i < |values| && values[i] == v;
      assert heights[i] in heights;
      assert heights[i] == Finite(v);
    }
    assert forall i :: 0 <= i < |heights| ==> values[i] in values;
  }

  // ---- A whole course ----

  /** The heights below an anchor. */
  ghost predicate Sampled(anchor: Anchor, footprint: Footprint, sampler: Sampler, heights: seq<Float>) {
    footprint(anchor).Some? && |heights| == |footprint(anchor).value| &&
    forall i :: 0 <= i < |heights| ==> heights[i] == sampler(footprint(anchor).value[i])
  }

  /** The anchor is grounded over the heights below it. */
  ghost predicate GroundedBelow(anchor: Anchor, footprint: Footprint, sampler: Sampler, cfg: GroundingCfg,
                                o: Obstacle) {
    exists heights :: Sampled(anchor, footprint, sampler, heights) && Grounded(anchor, heights, cfg, o)
  }

  /** Main result: a course is grounded exactly when every anchor is, entry by entry, over the heights sampled below
      it. */
  lemma {:induction false} CourseExactlyWhen(anchors: seq<Anchor>, footprint: Footprint, sampler: Sampler,
                                             cfg: GroundingCfg, os: seq<Obstacle>)
    ensures GroundAll(anchors, footprint, sampler, cfg) == Ok(os) <==>
            |os| == |anchors| &&
            forall i :: 0 <= i < |anchors| ==> GroundedBelow(anchors[i], footprint, sampler, cfg, os[i])
  {
    var whole := GroundAll(anchors, footprint, sampler, cfg);
    GroundAllPointwise(anchors, footprint, sampler, cfg);
    hide GroundAll, GroundOne, GroundedBelow;
    if |os| == |anchors| {
      forall i | 0 <= i < |anchors|
        ensures GroundOne(anchors[i], footprint, sampler, cfg) == Ok(os[i]) <==>
                GroundedBelow(anchors[i], footprint, sampler, cfg, os[i])
      {
        GroundOneExactlyWhen(anchors[i], footprint, sampler, cfg, os[i]);
      }
      if forall i :: 0 <= i < |anchors| ==> GroundOne(anchors[i], footprint, sampler, cfg) == Ok(os[i]) {
        assert whole.Ok?;
        assert forall i :: 0 <= i < |anchors| ==> whole.value[i] == os[i];
        assert whole.value == os;
      }
    }
  }

  lemma {:induction false} GroundOneExactlyWhen(anchor: Anchor, footprint: Footprint, sampler: Sampler,
                                                cfg: GroundingCfg, o: Obstacle)
    ensures GroundOne(anchor, footprint, sampler, cfg) == Ok(o) <==>
            GroundedBelow(anchor, footprint, sampler, cfg, o)
  {
    hide Grounded, Place;
    if footprint(anchor).Some? {
      var own := Heights(footprint(anchor).value, sampler);
      PlaceExactlyWhen(anchor, own, cfg, o);
      assert Sampled(anchor, footprint, sampler, own);
      forall heights | Sampled(anchor, footprint, sampler, heights) ensures heights == own {
      }
    }
  }

  /** The failure of a course is that of the first anchor that fails. */
  lemma {:induction false} CourseFailsAtFirst(anchors: seq<Anchor>, footprint: Footprint, sampler: Sampler,
                                              cfg: GroundingCfg, i: nat)
    requires i < |anchors| && GroundOne(anchors[i], footprint, sampler, cfg).Err?
    requires forall j :: 0 <= j < i ==> GroundOne(anchors[j], footprint, sampler, cfg).Ok?
    ensures GroundAll(anchors, footprint, sampler, cfg) == Err(GroundOne(anchors[i], footprint, sampler, cfg).error)
    ensures footprint(anchors[i]).None? ==> GroundAll(anchors, footprint, sampler, cfg) == Err(BadFootprint)
  {
    GroundAllPointwise(anchors[..i], footprint, sampler, cfg);
    assert forall j :: 0 <= j < i ==> anchors[..i][j] == anchors[j];
    GroundAllExtend(anchors, i, footprint, sampler, cfg);
    GroundAllFailsEarly(anchors, i + 1, footprint, sampler, cfg);
  }
}
