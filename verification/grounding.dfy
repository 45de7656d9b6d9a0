/** Placing obstacles on the terrain: one anchor at a time, and all footprints in one ray cast. */
module Grounding {
  import opened Common
  import opened GroundHeight

  /** What an anchor and the obstacle made from it have in common. */
  datatype Body = Body(
    row: int, col: int, stage: string, semanticClass: string, slotIndex: int, shape: string,
    targetDiameter: real, targetHeight: real, groundOffset: real, localXy: Point, primPath: string)

  datatype Anchor = Anchor(body: Body, worldXy: Point, layoutFallbackUsed: bool)

  datatype Obstacle = Obstacle(body: Body, worldCenter: (real, real, real))

  datatype GroundingError = BadFootprint | Height(error: HeightError) | RaycastMissed

  /** The world points sampled below an anchor; None where the shape has no valid footprint. */
  type Footprint = Anchor -> Option<seq<Point>>

  /** The terrain height below a world point. */
  type Sampler = Point -> Float

  function Heights(points: seq<Point>, sampler: Sampler): (r: seq<Float>)
    ensures |r| == |points| && forall i :: 0 <= i < |r| ==> r[i] == sampler(points[i])
  {
    seq(|points|, i requires 0 <= i < |points| => sampler(points[i]))
  }

  function Place(anchor: Anchor, heights: seq<Float>, cfg: GroundingCfg): Result<Obstacle, GroundingError> {
    match RobustGroundHeight(heights, cfg)
    case Err(e) => Err(Height(e))
    case Ok(z) =>
      Ok(Obstacle(anchor.body, (anchor.worldXy.0, anchor.worldXy.1, z - cfg.embedDepth.v + anchor.body.groundOffset)))
  }

  /** An obstacle stands where its anchor is, and its base, before embedding, lies between the lowest and the highest
      sample of its own footprint. */
  lemma {:induction false} StandsOnItsFootprint(anchor: Anchor, heights: seq<Float>, cfg: GroundingCfg)
    requires Place(anchor, heights, cfg).Ok?
    ensures var o := Place(anchor, heights, cfg).value;
            o.body == anchor.body && (o.worldCenter.0, o.worldCenter.1) == anchor.worldXy &&
            var base := o.worldCenter.2 - anchor.body.groundOffset;
            exists lo, hi :: Finite(lo) in heights && Finite(hi) in heights && lo <= base + cfg.embedDepth.v <= hi
  {
    var values := Values(heights);
    QuantileBetweenExtremes(values, cfg.heightQuantile.v);
    var lo, hi := Quantile(values, 0.0), Quantile(values, 1.0);
    var i :| 0 <= i < |values| && values[i] == lo;
    var j :| 0 <= j < |values| && values[j] == hi;
    assert heights[i] in heights && heights[j] in heights;
  }

  function GroundOne(anchor: Anchor, footprint: Footprint, sampler: Sampler,
                     cfg: GroundingCfg): Result<Obstacle, GroundingError> {
    match footprint(anchor)
    case None => Err(BadFootprint)
    case Some(points) => Place(anchor, Heights(points, sampler), cfg)
  }

  /** Every anchor on its own, from left to right; the first failure is the result. */
  function GroundAll(anchors: seq<Anchor>, footprint: Footprint, sampler: Sampler,
                     cfg: GroundingCfg): (r: Result<seq<Obstacle>, GroundingError>)
    ensures r.Ok? ==> |r.value| == |anchors|
  {
    if anchors == [] then Ok([]) else
      var n := |anchors| - 1;
      match GroundAll(anchors[..n], footprint, sampler, cfg)
      case Err(e) => Err(e)
      case Ok(before) =>
        match GroundOne(anchors[n], footprint, sampler, cfg)
        case Err(e) => Err(e)
        case Ok(o) => Ok(before + [o])
  }

  /** Grounding succeeds exactly when every anchor can be grounded alone, and then entry by entry. */
  lemma {:induction false} GroundAllPointwise(anchors: seq<Anchor>, footprint: Footprint, sampler: Sampler,
                                              cfg: GroundingCfg)
    ensures GroundAll(anchors, footprint, sampler, cfg).Ok? <==>
            forall i :: 0 <= i < |anchors| ==> GroundOne(anchors[i], footprint, sampler, cfg).Ok?
    ensures GroundAll(anchors, footprint, sampler, cfg).Ok? ==>
            forall i :: 0 <= i < |anchors| ==>
              GroundOne(anchors[i], footprint, sampler, cfg) == Ok(GroundAll(anchors, footprint, sampler, cfg).value[i])
  {
    if anchors != [] {
      var n := |anchors| - 1;
      GroundAllPointwise(anchors[..n], footprint, sampler, cfg);
      assert forall i :: 0 <= i < n ==> anchors[..n][i] == anchors[i];
    }
  }

  lemma GroundAllExtend(anchors: seq<Anchor>, i: nat, footprint: Footprint, sampler: Sampler, cfg: GroundingCfg)
    requires i < |anchors|
    requires GroundAll(anchors[..i], footprint, sampler, cfg).Ok?
    ensures var before := GroundAll(anchors[..i], footprint, sampler, cfg).value;
            GroundAll(anchors[..i + 1], footprint, sampler, cfg) ==
            match GroundOne(anchors[i], footprint, sampler, cfg)
            case Err(e) => Err(e)
            case Ok(o) => Ok(before + [o])
  {
    assert anchors[..i + 1][..i] == anchors[..i];
  }

  lemma {:induction false} GroundAllFailsEarly(anchors: seq<Anchor>, i: nat, footprint: Footprint, sampler: Sampler,
                                               cfg: GroundingCfg)
    requires i <= |anchors|
    requires GroundAll(anchors[..i], footprint, sampler, cfg).Err?
    ensures GroundAll(anchors, footprint, sampler, cfg) == GroundAll(anchors[..i], footprint, sampler, cfg)
    decreases |anchors|
  {
    if i == |anchors| {
      assert anchors[..i] == anchors;
    } else {
      var n := |anchors| - 1;
      assert anchors[..n][..i] == anchors[..i];
      GroundAllFailsEarly(anchors[..n], i, footprint, sampler, cfg);
    }
  }

  method GroundCourseAnchors(anchors: seq<Anchor>, footprint: Footprint, sampler: Sampler, cfg: GroundingCfg)
    returns (r: Result<seq<Obstacle>, GroundingError>)
    ensures r == GroundAll(anchors, footprint, sampler, cfg)
  {
    var obstacles: seq<Obstacle> := [];
    for i := 0 to |anchors|
      invariant GroundAll(anchors[..i], footprint, sampler, cfg) == Ok(obstacles)
    {
      GroundAllExtend(anchors, i, footprint, sampler, cfg);
      var samplePoints := footprint(anchors[i]);
      if samplePoints.None? {
        GroundAllFailsEarly(anchors, i + 1, footprint, sampler, cfg);
        return Err(BadFootprint);
      }
      var terrainHeights := Heights(samplePoints.value, sampler);
      var placed := Place(anchors[i], terrainHeights, cfg);
      if placed.Err? {
        GroundAllFailsEarly(anchors, i + 1, footprint, sampler, cfg);
        return Err(placed.error);
      }
      obstacles := obstacles + [placed.value];
    }
    assert anchors[..|anchors|] == anchors;
    return Ok(obstacles);
  }

  // ---- One ray cast for all footprints ----

  /** All sample points, footprint after footprint. */
  function Flatten(anchors: seq<Anchor>, footprint: Footprint): (points: seq<Point>)
    requires forall a :: a in anchors ==> footprint(a).Some?
  {
    if anchors == [] then [] else
      var n := |anchors| - 1;
      Flatten(anchors[..n], footprint) + footprint(anchors[n]).value
  }

  lemma FlattenExtend(anchors: seq<Anchor>, i: nat, footprint: Footprint)
    requires i < |anchors|
    requires forall a :: a in anchors ==> footprint(a).Some?
    ensures Flatten(anchors[..i + 1], footprint) == Flatten(anchors[..i], footprint) + footprint(anchors[i]).value
  {
    assert anchors[..i + 1][..i] == anchors[..i];
  }

  lemma {:induction false} FlattenPrefix(anchors: seq<Anchor>, i: nat, footprint: Footprint)
    requires i <= |anchors|
    requires forall a :: a in anchors ==> footprint(a).Some?
    ensures Flatten(anchors[..i], footprint) <= Flatten(anchors, footprint)
    decreases |anchors| - i
  {
    if i < |anchors| {
      FlattenPrefix(anchors, i + 1, footprint);
      FlattenExtend(anchors, i, footprint);
    } else {
      assert anchors[..i] == anchors;
    }
  }

  /** The running index cuts the flat list of heights back into the footprint of each anchor. */
  lemma {:induction false} SliceIsFootprint(anchors: seq<Anchor>, i: nat, footprint: Footprint, sampler: Sampler)
    requires i < |anchors|
    requires forall a :: a in anchors ==> footprint(a).Some?
    ensures var flat, start := Flatten(anchors, footprint), |Flatten(anchors[..i], footprint)|;
            var count := |footprint(anchors[i]).value|;
            start + count <= |flat| &&
            Heights(flat, sampler)[start..start + count] == Heights(footprint(anchors[i]).value, sampler)
  {
    hide Flatten, Heights;
    FlattenExtend(anchors, i, footprint);
    FlattenPrefix(anchors, i + 1, footprint);
    HeightsOfPart(Flatten(anchors[..i], footprint), footprint(anchors[i]).value, Flatten(anchors, footprint), sampler);
  }

  lemma {:induction false} HeightsOfPart(before: seq<Point>, own: seq<Point>, flat: seq<Point>, sampler: Sampler)
    requires before + own <= flat
    ensures |before| + |own| <= |flat|
    ensures Heights(flat, sampler)[|before|..|before| + |own|] == Heights(own, sampler)
  {
    hide Heights;
    forall k | 0 <= k < |own| ensures flat[|before| + k] == own[k] {
      assert (before + own)[|before| + k] == own[k];
    }
  }

  ghost predicate EveryFootprint(anchors: seq<Anchor>, footprint: Footprint) {
    forall a :: a in anchors ==> footprint(a).Some?
  }

  ghost predicate NoMiss(anchors: seq<Anchor>, footprint: Footprint, sampler: Sampler)
    requires EveryFootprint(anchors, footprint)
  {
    AllFinite(Heights(Flatten(anchors, footprint), sampler))
  }

  lemma {:induction false} FlattenMembers(anchors: seq<Anchor>, p: Point, footprint: Footprint)
    requires EveryFootprint(anchors, footprint)
    ensures p in Flatten(anchors, footprint) <==> exists a :: a in anchors && p in footprint(a).value
  {
    if anchors != [] {
      var n := |anchors| - 1;
      assert anchors == anchors[..n] + [anchors[n]];
      FlattenMembers(anchors[..n], p, footprint);
    }
  }

  /** A ray that misses makes some anchor impossible to ground, one at a time as well. */
  lemma MissFailsOneByOne(anchors: seq<Anchor>, footprint: Footprint, sampler: Sampler, cfg: GroundingCfg)
    requires EveryFootprint(anchors, footprint) && !NoMiss(anchors, footprint, sampler)
    ensures GroundAll(anchors, footprint, sampler, cfg).Err?
  {
    var flat := Flatten(anchors, footprint);
    var h :| h in Heights(flat, sampler) && h.NonFinite?;
    var k :| 0 <= k < |flat| && sampler(flat[k]).NonFinite?;
    FlattenMembers(anchors, flat[k], footprint);
    var a :| a in anchors && flat[k] in footprint(a).value;
    var i :| 0 <= i < |anchors| && anchors[i] == a;
    var own := footprint(a).value;
    var j :| 0 <= j < |own| && own[j] == flat[k];
    assert Heights(own, sampler)[j].NonFinite?;
    assert GroundOne(anchors[i], footprint, sampler, cfg).Err?;
    GroundAllPointwise(anchors, footprint, sampler, cfg);
  }

  lemma BadFootprintFailsOneByOne(anchors: seq<Anchor>, i: nat, footprint: Footprint, sampler: Sampler,
                                  cfg: GroundingCfg)
    requires i < |anchors| && footprint(anchors[i]).None?
    ensures GroundAll(anchors, footprint, sampler, cfg).Err?
  {
    GroundAllPointwise(anchors, footprint, sampler, cfg);
    assert GroundOne(anchors[i], footprint, sampler, cfg).Err?;
  }

  ghost predicate CountsOf(counts: seq<nat>, anchors: seq<Anchor>, footprint: Footprint)
    requires EveryFootprint(anchors, footprint)
  {
    |counts| == |anchors| && forall k :: 0 <= k < |anchors| ==> counts[k] == |footprint(anchors[k]).value|
  }

  /** First loop of the batched routine: the sample counts and the flat list of points. */
  method CollectSamplePoints(anchors: seq<Anchor>, footprint: Footprint)
    returns (ok: bool, counts: seq<nat>, points: seq<Point>)
    ensures ok <==> EveryFootprint(anchors, footprint)
    ensures ok ==> CountsOf(counts, anchors, footprint) && points == Flatten(anchors, footprint)
  {
    counts, points := [], [];
    for i := 0 to |anchors|
      invariant EveryFootprint(anchors[..i], footprint)
      invariant CountsOf(counts, anchors[..i], footprint)
      invariant points == Flatten(anchors[..i], footprint)
    {
      var samplePoints := footprint(anchors[i]);
      if samplePoints.None? {
        return false, counts, points;
      }
      assert anchors[..i + 1] == anchors[..i] + [anchors[i]];
      assert anchors[..i + 1][..i] == anchors[..i];
      counts := counts + [|samplePoints.value|];
      points := points + samplePoints.value;
    }
    assert anchors[..|anchors|] == anchors;
    ok := true;
  }

  lemma SliceStep(anchors: seq<Anchor>, i: nat, heights: seq<Float>, footprint: Footprint, sampler: Sampler,
                  cfg: GroundingCfg)
    requires i < |anchors| && EveryFootprint(anchors, footprint)
    requires heights == Heights(Flatten(anchors, footprint), sampler)
    ensures var start, count := |Flatten(anchors[..i], footprint)|, |footprint(anchors[i]).value|;
            start + count == |Flatten(anchors[..i + 1], footprint)| <= |heights| &&
            Place(anchors[i], heights[start..start + count], cfg) == GroundOne(anchors[i], footprint, sampler, cfg)
  {
    SliceIsFootprint(anchors, i, footprint, sampler);
    FlattenExtend(anchors, i, footprint);
  }

  /** Second loop: the running index hands each anchor its own heights. */
  method GroundSlices(anchors: seq<Anchor>, counts: seq<nat>, heights: seq<Float>, cfg: GroundingCfg,
                      ghost footprint: Footprint, ghost sampler: Sampler)
    returns (r: Result<seq<Obstacle>, GroundingError>)
    requires EveryFootprint(anchors, footprint) && CountsOf(counts, anchors, footprint)
    requires heights == Heights(Flatten(anchors, footprint), sampler)
    ensures r == GroundAll(anchors, footprint, sampler, cfg)
  {
    var obstacles: seq<Obstacle> := [];
    var heightIndex := 0;
    for i := 0 to |anchors|
      invariant heightIndex == |Flatten(anchors[..i], footprint)|
      invariant GroundAll(anchors[..i], footprint, sampler, cfg) == Ok(obstacles)
    {
      SliceStep(anchors, i, heights, footprint, sampler, cfg);
      GroundAllExtend(anchors, i, footprint, sampler, cfg);
      var anchorHeights := heights[heightIndex..heightIndex + counts[i]];
      heightIndex := heightIndex + counts[i];
      var placed := Place(anchors[i], anchorHeights, cfg);
      if placed.Err? {
        GroundAllFailsEarly(anchors, i + 1, footprint, sampler, cfg);
        return Err(placed.error);
      }
      obstacles := obstacles + [placed.value];
    }
    assert anchors[..|anchors|] == anchors;
    return Ok(obstacles);
  }

  /** Main result: the batched routine grounds exactly as the simple one and fails on the same inputs.
      Its failure names the first phase that fails: footprints, the ray cast, the heights. */
  method GroundWithRuntimeTerrainSampler(anchors: seq<Anchor>, footprint: Footprint, sampler: Sampler,
                                         cfg: GroundingCfg)
    returns (r: Result<seq<Obstacle>, GroundingError>)
    ensures r.Ok? <==> GroundAll(anchors, footprint, sampler, cfg).Ok?
    ensures r.Ok? ==> r == GroundAll(anchors, footprint, sampler, cfg)
    ensures !EveryFootprint(anchors, footprint) ==> r == Err(BadFootprint)
    ensures EveryFootprint(anchors, footprint) && !NoMiss(anchors, footprint, sampler) ==> r == Err(RaycastMissed)
    ensures EveryFootprint(anchors, footprint) && NoMiss(anchors, footprint, sampler) ==>
            r == GroundAll(anchors, footprint, sampler, cfg)
  {
    if anchors == [] {
      return Ok([]);
    }
    var ok, anchorSampleCounts, xyPoints := CollectSamplePoints(anchors, footprint);
    if !ok {
      ghost var i :| 0 <= i < |anchors| && footprint(anchors[i]).None?;
      BadFootprintFailsOneByOne(anchors, i, footprint, sampler, cfg);
      return Err(BadFootprint);
    }
    var heights := Heights(xyPoints, sampler);
    if !AllFinite(heights) {
      MissFailsOneByOne(anchors, footprint, sampler, cfg);
      return Err(RaycastMissed);
    }
    r := GroundSlices(anchors, anchorSampleCounts, heights, cfg, footprint, sampler);
  }
}
