/** Controlled crossings, one environment at a time: the per-step measurements, and what their accumulation means. */
module CrossingTracks {
  import opened Common
  import opened Tensors

  /** A cell of the terrain grid, with its semantic class. */
  datatype Cell = Cell(x: real, y: real, z: real, small: bool)

  /** A foot, with the terrain height and class sampled under it. */
  datatype Foot = Foot(x: real, y: real, z: real, ground: real, onSmall: bool)

  /** What a step shows of one environment; the heading is the normalised one. */
  datatype View = View(cells: seq<Cell>, root: Point, rootGround: real, heading: Point, feet: seq<Foot>)

  /** The obstacle an environment is locked to, and the heading it was seen along. */
  datatype Target = Target(x: real, y: real, top: real, heading: Point)

  const NO_TARGET := Target(0.0, 0.0, 0.0, (0.0, 0.0))
  const HALF_CORRIDOR := 0.18
  const LOOKAHEAD := 1.40
  const MAX_HEIGHT := 0.30
  const HALF_EXTENT := 0.18
  const MARGIN := 0.05
  const OFF_PATH := 1000000.0
  const FAR := 999.0

  // ---- Measurements ----

  /** The components of a displacement along a heading and to its left. */
  function Along(heading: Point, dx: real, dy: real): real {
    dx * heading.0 + dy * heading.1
  }

  function Leftward(heading: Point, dx: real, dy: real): real {
    dy * heading.0 - dx * heading.1
  }

  predicate OnPath(v: View, c: Cell) {
    var along := Along(v.heading, c.x - v.root.0, c.y - v.root.1);
    var lateral := Leftward(v.heading, c.x - v.root.0, c.y - v.root.1);
    c.small && 0.10 < along < LOOKAHEAD && Abs(lateral) < HALF_CORRIDOR && 0.015 < c.z - v.rootGround <= MAX_HEIGHT
  }

  function Score(v: View, c: Cell): real {
    if OnPath(v, c)
    then Along(v.heading, c.x - v.root.0, c.y - v.root.1) +
      0.05 * Abs(Leftward(v.heading, c.x - v.root.0, c.y - v.root.1))
    else OFF_PATH
  }

  predicate HasPath(v: View) {
    exists i :: 0 <= i < |v.cells| && OnPath(v, v.cells[i])
  }

  /** The first cell of least score among the first n. */
  function ArgMin(v: View, n: nat): (k: nat)
    requires 0 < n <= |v.cells|
    ensures k < n && forall i :: 0 <= i < n ==> Score(v, v.cells[k]) <= Score(v, v.cells[i])
    ensures forall i :: 0 <= i < k ==> Score(v, v.cells[k]) < Score(v, v.cells[i])
  {
    if n == 1 then 0 else
      var k := ArgMin(v, n - 1);
      if Score(v, v.cells[n - 1]) < Score(v, v.cells[k]) then n - 1 else k
  }

  function Nearest(v: View): Target {
    if v.cells == [] then NO_TARGET else
      var c := v.cells[ArgMin(v, |v.cells|)];
      Target(c.x, c.y, c.z, v.heading)
  }

  /** The score off the path is beyond every score on it, so the chosen cell lies on the path. */
  lemma {:induction false} NearestIsOnPath(v: View)
    requires HasPath(v)
    ensures var k := ArgMin(v, |v.cells|);
            OnPath(v, v.cells[k]) && forall i :: 0 <= i < |v.cells| ==> OnPath(v, v.cells[i]) ==>
              Score(v, v.cells[k]) <= Score(v, v.cells[i])
  {
    hide Along, Leftward;
    var i :| 0 <= i < |v.cells| && OnPath(v, v.cells[i]);
    assert Score(v, v.cells[i]) < 2.0;
  }

  predicate Past(t: Target, v: View) {
    Along(t.heading, v.root.0 - t.x, v.root.1 - t.y) > HALF_EXTENT
  }

  predicate InFootprint(t: Target, f: Foot) {
    Abs(Along(t.heading, f.x - t.x, f.y - t.y)) < HALF_EXTENT &&
    Abs(Leftward(t.heading, f.x - t.x, f.y - t.y)) < HALF_EXTENT
  }

  predicate FootOver(t: Target, v: View) {
    exists i :: 0 <= i < |v.feet| && InFootprint(t, v.feet[i]) && v.feet[i].z - t.top > MARGIN
  }

  predicate StandsOnSmall(v: View) {
    exists i :: 0 <= i < |v.feet| && v.feet[i].onSmall && v.feet[i].z - v.feet[i].ground < 0.04
  }

  function LeastClearance(t: Target, feet: seq<Foot>): real {
    if feet == [] then FAR else
      var n := |feet| - 1;
      Min(LeastClearance(t, feet[..n]), if InFootprint(t, feet[n]) then feet[n].z - t.top else FAR)
  }

  function GreatestClearance(t: Target, feet: seq<Foot>): real {
    if feet == [] then -FAR else
      var n := |feet| - 1;
      Max(GreatestClearance(t, feet[..n]), if InFootprint(t, feet[n]) then feet[n].z - t.top else -FAR)
  }

  // ---- Accumulation ----

  datatype Track = Track(
    opportunity: bool, rootCrossed: bool, footOver: bool, touchdown: bool, lockStep: int, target: Target,
    pathSteps: nat, footOverEvents: nat, touchdownEvents: nat, minClearance: real, maxClearance: real)

  const NEW_TRACK := Track(false, false, false, false, -1, NO_TARGET, 0, 0, 0, FAR, -FAR)

  /** Lock on to the nearest obstacle of the first step that shows one. */
  function LockOn(t: Track, step: nat, v: View): Track {
    var seen := HasPath(v);
    var pathSteps := if seen then t.pathSteps + 1 else t.pathSteps;
    if !t.opportunity && seen then
      t.(pathSteps := pathSteps, opportunity := true, target := Nearest(v), lockStep := step)
    else t.(pathSteps := pathSteps)
  }

  /** Measure against the locked obstacle. */
  function Measure(t: Track, v: View): Track {
    if !t.opportunity then t else
      var over := FootOver(t.target, v);
      var down := StandsOnSmall(v);
      t.(rootCrossed := t.rootCrossed || Past(t.target, v), footOver := t.footOver || over,
         touchdown := t.touchdown || down,
         footOverEvents := if over then t.footOverEvents + 1 else t.footOverEvents,
         touchdownEvents := if down then t.touchdownEvents + 1 else t.touchdownEvents,
         minClearance := Min(t.minClearance, LeastClearance(t.target, v.feet)),
         maxClearance := Max(t.maxClearance, GreatestClearance(t.target, v.feet)))
  }

  /** The step metrics. */
  function StepTrack(t: Track, step: nat, v: View): Track {
    Measure(LockOn(t, step, v), v)
  }

  function Follow(views: seq<View>): Track {
    if views == [] then NEW_TRACK else
      var n := |views| - 1;
      StepTrack(Follow(views[..n]), n, views[n])
  }

  // ---- What the accumulated track means ----

  /** The step at which the path first showed an obstacle. */
  ghost predicate LocksAt(views: seq<View>, k: int) {
    0 <= k < |views| && HasPath(views[k]) && forall j :: 0 <= j < k ==> !HasPath(views[j])
  }

  function PathSeen(views: seq<View>): seq<bool> {
    seq(|views|, k requires 0 <= k < |views| => HasPath(views[k]))
  }

  function OversFrom(t: Target, lock: int, views: seq<View>): seq<bool> {
    seq(|views|, k requires 0 <= k < |views| => lock <= k && FootOver(t, views[k]))
  }

  function StandsFrom(lock: int, views: seq<View>): seq<bool> {
    seq(|views|, k requires 0 <= k < |views| => lock <= k && StandsOnSmall(views[k]))
  }

  function PastFrom(t: Target, lock: int, views: seq<View>): seq<bool> {
    seq(|views|, k requires 0 <= k < |views| => lock <= k && Past(t, views[k]))
  }

  /** A track without an opportunity is a new one but for the step count; one with an opportunity is locked to the
      nearest obstacle of the first step that showed any, and counts what happened from that step on. */
  ghost predicate Means(t: Track, views: seq<View>) {
    t.pathSteps == CountTrue(PathSeen(views)) &&
    (!t.opportunity ==>
       (forall k :: 0 <= k < |views| ==> !HasPath(views[k])) && t == NEW_TRACK && t.lockStep == -1) &&
    (t.opportunity ==>
       LocksAt(views, t.lockStep) && t.target == Nearest(views[t.lockStep]) &&
       t.footOverEvents == CountTrue(OversFrom(t.target, t.lockStep, views)) &&
       (t.footOver <==> t.footOverEvents > 0) &&
       t.touchdownEvents == CountTrue(StandsFrom(t.lockStep, views)) && (t.touchdown <==> t.touchdownEvents > 0) &&
       (t.rootCrossed <==> CountTrue(PastFrom(t.target, t.lockStep, views)) > 0))
  }

  lemma {:induction false} CountAppend(a: seq<bool>, b: seq<bool>)
    requires b != [] && a == b[..|b| - 1]
    ensures CountTrue(b) == CountTrue(a) + if b[|b| - 1] then 1 else 0
  {
  }

  /** The counts of a longer trace, from those of the shorter one. */
  lemma {:induction false} CountsGrow(t: Target, lock: int, views: seq<View>)
    requires views != []
    ensures var n := |views| - 1; var shorter := views[..n];
            CountTrue(PathSeen(views)) == CountTrue(PathSeen(shorter)) + (if HasPath(views[n]) then 1 else 0) &&
            CountTrue(OversFrom(t, lock, views)) ==
              CountTrue(OversFrom(t, lock, shorter)) + (if lock <= n && FootOver(t, views[n]) then 1 else 0) &&
            CountTrue(StandsFrom(lock, views)) ==
              CountTrue(StandsFrom(lock, shorter)) + (if lock <= n && StandsOnSmall(views[n]) then 1 else 0) &&
            CountTrue(PastFrom(t, lock, views)) ==
              CountTrue(PastFrom(t, lock, shorter)) + if lock <= n && Past(t, views[n]) then 1 else 0
  {
    var n := |views| - 1;
    var shorter := views[..n];
    hide HasPath, FootOver, StandsOnSmall, Past;
    CountAppend(PathSeen(shorter), PathSeen(views));
    CountAppend(OversFrom(t, lock, shorter), OversFrom(t, lock, views));
    CountAppend(StandsFrom(lock, shorter), StandsFrom(lock, views));
    CountAppend(PastFrom(t, lock, shorter), PastFrom(t, lock, views));
  }

  lemma {:induction false} NothingBeforeLock(t: Target, views: seq<View>)
    ensures CountTrue(OversFrom(t, |views|, views)) == 0 && CountTrue(StandsFrom(|views|, views)) == 0 &&
            CountTrue(PastFrom(t, |views|, views)) == 0
  {
    CountNone(OversFrom(t, |views|, views));
    CountNone(StandsFrom(|views|, views));
    CountNone(PastFrom(t, |views|, views));
  }

  /** Accumulating step by step records exactly what the whole trace says. */
  lemma {:induction false} FollowMeans(views: seq<View>)
    ensures Means(Follow(views), views)
  {
    if views != [] {
      var n := |views| - 1;
      var shorter := views[..n];
      FollowMeans(shorter);
      StepMeans(Follow(shorter), views);
    }
  }

  lemma {:induction false} StepMeans(t: Track, views: seq<View>)
    requires views != [] && Means(t, views[..|views| - 1])
    ensures Means(StepTrack(t, |views| - 1, views[|views| - 1]), views)
  {
    hide HasPath, FootOver, StandsOnSmall, Past, Nearest, CountTrue, PathSeen, OversFrom, StandsFrom, PastFrom;
    var n := |views| - 1;
    var shorter := views[..n];
    var next := StepTrack(t, n, views[n]);
    assert forall k :: 0 <= k < n ==> shorter[k] == views[k];
    CountsGrow(next.target, next.lockStep, views);
    if next.opportunity && !t.opportunity {
      NothingBeforeLock(next.target, shorter);
    }
  }

  // ---- Clearances ----

  /** Some foot of the given feet has this clearance within the footprint. */
  ghost predicate Measured(t: Target, feet: seq<Foot>, x: real) {
    exists i :: 0 <= i < |feet| && InFootprint(t, feet[i]) && x == feet[i].z - t.top
  }

  ghost predicate MeasuredFrom(t: Target, lock: int, views: seq<View>, x: real) {
    exists k :: 0 <= k < |views| && lock <= k && Measured(t, views[k].feet, x)
  }

  lemma {:induction false} LeastMeasured(t: Target, feet: seq<Foot>)
    ensures var m := LeastClearance(t, feet);
            m <= FAR && (m == FAR || Measured(t, feet, m)) && forall x :: Measured(t, feet, x) ==> m <= x
  {
    hide InFootprint;
    if feet != [] {
      var n := |feet| - 1;
      LeastMeasured(t, feet[..n]);
      MeasuredSplit(t, feet);
    }
  }

  lemma {:induction false} GreatestMeasured(t: Target, feet: seq<Foot>)
    ensures var m := GreatestClearance(t, feet);
            m >= -FAR && (m == -FAR || Measured(t, feet, m)) && forall x :: Measured(t, feet, x) ==> m >= x
  {
    hide InFootprint;
    if feet != [] {
      var n := |feet| - 1;
      GreatestMeasured(t, feet[..n]);
      MeasuredSplit(t, feet);
    }
  }

  lemma {:induction false} MeasuredSplit(t: Target, feet: seq<Foot>)
    requires feet != []
    ensures var n := |feet| - 1;
            forall x :: Measured(t, feet, x) <==>
              (Measured(t, feet[..n], x) || (InFootprint(t, feet[n]) && x == feet[n].z - t.top))
  {
    hide InFootprint;
    var n := |feet| - 1;
    forall x
      ensures Measured(t, feet, x) <==>
              (Measured(t, feet[..n], x) || (InFootprint(t, feet[n]) && x == feet[n].z - t.top))
    {
      if i :| 0 <= i < n && InFootprint(t, feet[i]) && x == feet[i].z - t.top {
        assert feet[..n][i] == feet[i];
      }
      if i :| 0 <= i < n && InFootprint(t, feet[..n][i]) && x == feet[..n][i].z - t.top {
        assert feet[i] == feet[..n][i];
      }
    }
  }

  /** The extreme clearances are those of the feet in the footprint, from the lock on, capped by their initial
      values. */
  ghost predicate ClearancesMean(t: Track, views: seq<View>) {
    t.minClearance <= 999.0 && t.maxClearance >= -999.0 &&
    (t.minClearance == 999.0 || MeasuredFrom(t.target, t.lockStep, views, t.minClearance)) &&
    (t.maxClearance == -999.0 || MeasuredFrom(t.target, t.lockStep, views, t.maxClearance)) &&
    (t.opportunity ==> forall x :: MeasuredFrom(t.target, t.lockStep, views, x) ==>
     t.minClearance <= x <= t.maxClearance)
  }

  lemma {:induction false} MeasuredFromSplit(t: Target, lock: int, views: seq<View>)
    requires views != []
    ensures var n := |views| - 1;
            forall x :: MeasuredFrom(t, lock, views, x) <==>
              (MeasuredFrom(t, lock, views[..n], x) || (lock <= n && Measured(t, views[n].feet, x)))
  {
    hide Measured;
    var n := |views| - 1;
    assert forall k :: 0 <= k < n ==> views[..n][k] == views[k];
  }

  lemma {:induction false} ClearancesFollow(views: seq<View>)
    ensures ClearancesMean(Follow(views), views)
  {
    if views != [] {
      var n := |views| - 1;
      ClearancesFollow(views[..n]);
      FollowMeans(views[..n]);
      ClearancesStep(Follow(views[..n]), views);
    }
  }

  lemma {:induction false} ClearancesStep(t: Track, views: seq<View>)
    requires views != []
    requires Means(t, views[..|views| - 1]) && ClearancesMean(t, views[..|views| - 1])
    ensures ClearancesMean(StepTrack(t, |views| - 1, views[|views| - 1]), views)
  {
    hide HasPath, FootOver, StandsOnSmall, Past, Nearest, CountTrue, PathSeen, OversFrom, StandsFrom, PastFrom,
         Measured, LeastClearance, GreatestClearance;
    var n := |views| - 1;
    var v := views[n];
    var next := StepTrack(t, n, v);
    MeasuredFromSplit(next.target, next.lockStep, views);
    LeastMeasured(next.target, v.feet);
    GreatestMeasured(next.target, v.feet);
  }
}
