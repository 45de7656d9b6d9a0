/** Outcomes of the evaluation episodes of `m1_checkpoint_eval.py`: the rollout loop, and what each outcome means. */
module EpisodeOutcomes {
  import opened Common
  import opened Tensors

  datatype Position = Position(x: real, y: real, z: real)

  /** `obstacle_threshold` and `semantic_crossing`. */
  datatype Gate = Gate(threshold: Option<real>, semantic: bool)

  /** What one step shows of one environment. */
  datatype Sight = Sight(rootBefore: Position, root: Position, done: bool, timeOut: bool, badOrientation: bool,
                         crossed: bool)

  /** The bookkeeping of one environment. */
  datatype Episode = Episode(success: bool, done: bool, timeout: bool, badOrientation: bool, maxDx: real,
                             rootAtDone: Position)

  predicate Ended(e: Episode) {
    e.done || e.success
  }

  predicate Crosses(g: Gate, maxDx: real, crossed: bool) {
    g.threshold.Some? && maxDx >= g.threshold.value && (g.semantic ==> crossed)
  }

  function Fresh(start: Position): Episode {
    Episode(false, false, false, false, 0.0, start)
  }

  /** The farthest displacement and the crossings of a step. */
  function Advance(g: Gate, start: Position, e: Episode, s: Sight): Episode {
    if Ended(e) then e else
      var maxDx := Max(e.maxDx, s.root.x - start.x);
      if Crosses(g, maxDx, s.crossed) then e.(maxDx := maxDx, success := true, rootAtDone := s.root)
      else e.(maxDx := maxDx)
  }

  /** The terminations of a step, seen after its crossings. */
  function Terminate(e: Episode, s: Sight): Episode {
    if !s.done || e.done || e.success then e else
      e.(done := true, timeout := e.timeout || s.timeOut, badOrientation := e.badOrientation || s.badOrientation,
         rootAtDone := s.rootBefore)
  }

  /** One turn of the loop, as it concerns one environment. */
  function StepEpisode(g: Gate, start: Position, e: Episode, s: Sight): Episode {
    Terminate(Advance(g, start, e, s), s)
  }

  /** An environment's bookkeeping after all of its steps. */
  function Play(g: Gate, start: Position, trace: seq<Sight>): Episode {
    if trace == [] then Fresh(start) else
      var n := |trace| - 1;
      StepEpisode(g, start, Play(g, start, trace[..n]), trace[n])
  }

  // ---- What the outcome means, without the bookkeeping ----

  /** The largest displacement shown so far, never negative. */
  function RunningMax(start: Position, trace: seq<Sight>): real {
    if trace == [] then 0.0 else
      var n := |trace| - 1;
      Max(RunningMax(start, trace[..n]), trace[n].root.x - start.x)
  }

  /** No displacement is larger, and it is one of them or zero. */
  lemma {:induction false} RunningMaxIs(start: Position, trace: seq<Sight>, m: real)
    ensures RunningMax(start, trace) >= m <==>
            m <= 0.0 || exists k :: 0 <= k < |trace| && trace[k].root.x - start.x >= m
  {
    if trace != [] {
      var n := |trace| - 1;
      RunningMaxIs(start, trace[..n], m);
      assert forall k :: 0 <= k < n ==> trace[..n][k] == trace[k];
    }
  }

  predicate CrossesAt(g: Gate, start: Position, trace: seq<Sight>, k: nat)
    requires k < |trace|
  {
    g.threshold.Some? && RunningMax(start, trace[..k + 1]) >= g.threshold.value && (g.semantic ==> trace[k].crossed)
  }

  predicate EndsAt(g: Gate, start: Position, trace: seq<Sight>, k: nat)
    requires k < |trace|
  {
    CrossesAt(g, start, trace, k) || trace[k].done
  }

  ghost predicate FirstEnd(g: Gate, start: Position, trace: seq<Sight>, k: nat) {
    k < |trace| && EndsAt(g, start, trace, k) && forall j: nat :: j < k ==> !EndsAt(g, start, trace, j)
  }

  /** What the first ending step leaves behind: a crossing wins over a termination of the same step. */
  function OutcomeAt(g: Gate, start: Position, trace: seq<Sight>, k: nat): Episode
    requires k < |trace|
  {
    var far := RunningMax(start, trace[..k + 1]);
    if CrossesAt(g, start, trace, k) then Episode(true, false, false, false, far, trace[k].root)
    else Episode(false, true, trace[k].timeOut, trace[k].badOrientation, far, trace[k].rootBefore)
  }

  /** An ended episode never changes again. */
  lemma {:induction false} EndedIsFrozen(g: Gate, start: Position, e: Episode, s: Sight)
    requires Ended(e)
    ensures StepEpisode(g, start, e, s) == e
  {
  }

  lemma {:induction false} PlayIsFrozen(g: Gate, start: Position, trace: seq<Sight>, k: nat)
    requires k <= |trace| && Ended(Play(g, start, trace[..k]))
    ensures Play(g, start, trace) == Play(g, start, trace[..k])
    decreases |trace|
  {
    if k == |trace| {
      assert trace[..k] == trace;
    } else {
      var n := |trace| - 1;
      assert trace[..n][..k] == trace[..k];
      PlayIsFrozen(g, start, trace[..n], k);
      EndedIsFrozen(g, start, Play(g, start, trace[..n]), trace[n]);
    }
  }

  lemma {:induction false} PrefixEnds(g: Gate, start: Position, trace: seq<Sight>, n: nat, k: nat)
    requires k < n <= |trace|
    ensures EndsAt(g, start, trace[..n], k) == EndsAt(g, start, trace, k) &&
            CrossesAt(g, start, trace[..n], k) == CrossesAt(g, start, trace, k)
    ensures OutcomeAt(g, start, trace[..n], k) == OutcomeAt(g, start, trace, k)
  {
    assert trace[..n][..k + 1] == trace[..k + 1];
  }

  /** Until an ending step, nothing but the running maximum has moved. */
  lemma {:induction false} PlayUntilEnd(g: Gate, start: Position, trace: seq<Sight>)
    requires forall k: nat :: k < |trace| ==> !EndsAt(g, start, trace, k)
    ensures Play(g, start, trace) == Fresh(start).(maxDx := RunningMax(start, trace))
  {
    if trace != [] {
      var n := |trace| - 1;
      forall k: nat | k < n ensures !EndsAt(g, start, trace[..n], k) {
        PrefixEnds(g, start, trace, n, k);
      }
      PlayUntilEnd(g, start, trace[..n]);
      assert trace[..n + 1] == trace;
      assert !EndsAt(g, start, trace, n);
    }
  }

  /** The bookkeeping records the first ending step, and only that one. */
  lemma {:induction false} PlayIsFirstEnd(g: Gate, start: Position, trace: seq<Sight>, k: nat)
    requires FirstEnd(g, start, trace, k)
    ensures Play(g, start, trace) == OutcomeAt(g, start, trace, k)
  {
    forall j: nat | j < k ensures !EndsAt(g, start, trace[..k], j) {
      PrefixEnds(g, start, trace, k, j);
    }
    PlayUntilEnd(g, start, trace[..k]);
    assert trace[..k + 1][..k] == trace[..k];
    assert EndsAt(g, start, trace, k);
    PlayIsFrozen(g, start, trace, k + 1);
  }

  lemma {:induction false} FirstEndExists(g: Gate, start: Position, trace: seq<Sight>, n: nat) returns (k: nat)
    requires n < |trace| && EndsAt(g, start, trace, n)
    ensures k <= n && FirstEnd(g, start, trace, k)
  {
    if j: nat :| j < n && EndsAt(g, start, trace, j) {
      k := FirstEndExists(g, start, trace, j);
    } else {
      k := n;
    }
  }

  /** Every trace either never ends or has a first ending step. */
  lemma {:induction false} PlayCases(g: Gate, start: Position, trace: seq<Sight>)
    ensures Ended(Play(g, start, trace)) <==> exists k: nat :: FirstEnd(g, start, trace, k)
    ensures !Ended(Play(g, start, trace)) ==> Play(g, start, trace) == Fresh(start).(maxDx := RunningMax(start, trace))
  {
    if n: nat :| n < |trace| && EndsAt(g, start, trace, n) {
      var k := FirstEndExists(g, start, trace, n);
      PlayIsFirstEnd(g, start, trace, k);
    } else {
      PlayUntilEnd(g, start, trace);
    }
  }

  /** Success and done exclude each other, and only terminated episodes time out or tip over. */
  lemma {:induction false} OutcomesExclusive(g: Gate, start: Position, trace: seq<Sight>)
    ensures var e := Play(g, start, trace);
            !(e.success && e.done) && ((e.timeout || e.badOrientation) ==> e.done)
  {
    PlayCases(g, start, trace);
    if k: nat :| FirstEnd(g, start, trace, k) {
      PlayIsFirstEnd(g, start, trace, k);
    }
  }

  lemma {:induction false} RunningMaxGrows(start: Position, trace: seq<Sight>, n: nat)
    requires n <= |trace|
    ensures 0.0 <= RunningMax(start, trace[..n]) <= RunningMax(start, trace)
    decreases |trace|
  {
    if n == |trace| {
      assert trace[..n] == trace;
      if n > 0 {
        RunningMaxGrows(start, trace[..n - 1], n - 1);
      }
    } else {
      var m := |trace| - 1;
      assert trace[..m][..n] == trace[..n];
      RunningMaxGrows(start, trace[..m], n);
    }
  }

  /** Success always shows in the distance; without the semantic requirement the distance is all there is to it, save
      that an episode of no steps cannot succeed even when the threshold asks for nothing. */
  lemma {:induction false} SuccessIsDistance(g: Gate, start: Position, trace: seq<Sight>)
    requires g.threshold.Some?
    ensures var e := Play(g, start, trace);
            (e.success ==> e.maxDx >= g.threshold.value) &&
            (!g.semantic ==>
             ((e.success <==> e.maxDx >= g.threshold.value) <==> (trace != [] || g.threshold.value > 0.0)))
  {
    PlayCases(g, start, trace);
    if k: nat :| FirstEnd(g, start, trace, k) {
      PlayIsFirstEnd(g, start, trace, k);
    } else if trace != [] {
      var n := |trace| - 1;
      assert trace[..n + 1] == trace;
      if EndsAt(g, start, trace, n) {
        var k := FirstEndExists(g, start, trace, n);
      }
    }
  }

  /** The termination that takes an environment out: no crossing and no termination came before it. */
  predicate CutShortAt(g: Gate, start: Position, trace: seq<Sight>, k: nat) {
    k < |trace| && trace[k].done && (forall j: nat :: j < k ==> !trace[j].done) &&
    forall j: nat :: j <= k ==> !CrossesAt(g, start, trace, j)
  }

  /** A timed-out episode is also counted as a crossing exactly when its time-out found it beyond the threshold, which
      takes a semantic requirement that stayed unmet at every step from reaching the threshold on. */
  lemma {:induction false} CountedTwice(g: Gate, start: Position, trace: seq<Sight>)
    requires g.threshold.Some?
    ensures var e := Play(g, start, trace);
            (e.timeout && e.maxDx >= g.threshold.value) <==>
            (g.semantic && exists k: nat :: CutShortAt(g, start, trace, k) && trace[k].timeOut &&
                                            RunningMax(start, trace[..k + 1]) >= g.threshold.value)
  {
    var e := Play(g, start, trace);
    PlayCases(g, start, trace);
    OutcomesExclusive(g, start, trace);
    if e.timeout && e.maxDx >= g.threshold.value {
      var k: nat :| FirstEnd(g, start, trace, k);
      PlayIsFirstEnd(g, start, trace, k);
      forall j: nat | j < k ensures !trace[j].done && !CrossesAt(g, start, trace, j) {
        assert !EndsAt(g, start, trace, j);
      }
      assert CutShortAt(g, start, trace, k);
    }
    if k: nat :|
      CutShortAt(g, start, trace, k) && trace[k].timeOut && RunningMax(start, trace[..k + 1]) >= g.threshold.value
    {
      assert FirstEnd(g, start, trace, k);
      PlayIsFirstEnd(g, start, trace, k);
    }
  }

  /** The distance counts up to the first step that ends the episode, and no further. */
  ghost predicate GotAsFarAs(g: Gate, start: Position, trace: seq<Sight>, m: real) {
    m <= 0.0 ||
    exists k: nat ::
      k < |trace| && trace[k].root.x - start.x >= m && forall j: nat :: j < k ==> !EndsAt(g, start, trace, j)
  }

  /** The episode ended by a termination that was a time-out. */
  ghost predicate RanOut(g: Gate, start: Position, trace: seq<Sight>) {
    exists k: nat :: CutShortAt(g, start, trace, k) && trace[k].timeOut
  }

  /** What the report counts an episode by, told from its trace. */
  lemma {:induction false} EpisodeTold(g: Gate, start: Position, trace: seq<Sight>, m: real)
    ensures Play(g, start, trace).maxDx >= m <==> GotAsFarAs(g, start, trace, m)
    ensures Play(g, start, trace).timeout <==> RanOut(g, start, trace)
  {
    PlayCases(g, start, trace);
    if k: nat :| FirstEnd(g, start, trace, k) {
      PlayIsFirstEnd(g, start, trace, k);
      RunningMaxIs(start, trace[..k + 1], m);
      assert forall j :: 0 <= j <= k ==> trace[..k + 1][j] == trace[j];
      hide Play, RunningMax, CrossesAt;
      CutShortIsFirstEnd(g, start, trace, k);
    } else {
      RunningMaxIs(start, trace, m);
      forall k: nat | k < |trace| ensures !EndsAt(g, start, trace, k) {
        if EndsAt(g, start, trace, k) {
          var j := FirstEndExists(g, start, trace, k);
        }
      }
      assert forall k: nat :: CutShortAt(g, start, trace, k) ==> EndsAt(g, start, trace, k);
      hide RunningMax, CrossesAt;
    }
  }

  lemma {:induction false} CutShortIsFirstEnd(g: Gate, start: Position, trace: seq<Sight>, k: nat)
    requires FirstEnd(g, start, trace, k)
    ensures forall m: nat :: CutShortAt(g, start, trace, m) <==> m == k && !CrossesAt(g, start, trace, k)
  {
    hide CrossesAt;
    forall m: nat | CutShortAt(g, start, trace, m) ensures m == k && !CrossesAt(g, start, trace, k) {
      assert EndsAt(g, start, trace, m) && forall j: nat :: j < m ==> !EndsAt(g, start, trace, j);
    }
    forall j: nat | j < k ensures !trace[j].done && !CrossesAt(g, start, trace, j) {
      assert !EndsAt(g, start, trace, j);
    }
  }

  // ---- All environments ----

  /** The sights of a step, one for each environment. */
  type Frame = seq<Sight>

  function Column(frames: seq<Frame>, i: nat): (trace: seq<Sight>)
    requires forall f :: f in frames ==> i < |f|
    ensures |trace| == |frames|
  {
    seq(|frames|, k requires 0 <= k < |frames| => frames[k][i])
  }

  ghost predicate Rectangular(frames: seq<Frame>, n: nat) {
    forall f :: f in frames ==> |f| == n
  }

  function PlayAll(g: Gate, starts: seq<Position>, frames: seq<Frame>): (es: seq<Episode>)
    requires Rectangular(frames, |starts|)
    ensures |es| == |starts|
  {
    seq(|starts|, i requires 0 <= i < |starts| => Play(g, starts[i], Column(frames, i)))
  }

  function AdvanceAll(g: Gate, starts: seq<Position>, es: seq<Episode>, frame: Frame): (r: seq<Episode>)
    requires |es| == |frame| == |starts|
    ensures |r| == |starts|
  {
    seq(|starts|, i requires 0 <= i < |starts| => Advance(g, starts[i], es[i], frame[i]))
  }

  function TerminateAll(es: seq<Episode>, frame: Frame): (r: seq<Episode>)
    requires |es| == |frame|
    ensures |r| == |es|
  {
    seq(|es|, i requires 0 <= i < |es| => Terminate(es[i], frame[i]))
  }

  function StepAll(g: Gate, starts: seq<Position>, es: seq<Episode>, frame: Frame): (r: seq<Episode>)
    requires |es| == |frame| == |starts|
    ensures |r| == |starts|
  {
    seq(|starts|, i requires 0 <= i < |starts| => StepEpisode(g, starts[i], es[i], frame[i]))
  }

  lemma {:induction false} PlayAllStep(g: Gate, starts: seq<Position>, frames: seq<Frame>, n: nat)
    requires n < |frames| && Rectangular(frames, |starts|)
    ensures PlayAll(g, starts, frames[..n + 1]) == StepAll(g, starts, PlayAll(g, starts, frames[..n]), frames[n])
  {
    forall i | 0 <= i < |starts|
      ensures Play(g, starts[i], Column(frames[..n + 1], i)) ==
              StepEpisode(g, starts[i], Play(g, starts[i], Column(frames[..n], i)), frames[n][i])
    {
      assert Column(frames[..n + 1], i)[..n] == Column(frames[..n], i);
    }
  }

  /** Once every episode has ended the remaining steps change nothing, so the loop may stop early. */
  lemma {:induction false} AllEndedIsFrozen(g: Gate, starts: seq<Position>, frames: seq<Frame>, n: nat)
    requires n <= |frames| && Rectangular(frames, |starts|)
    requires forall e :: e in PlayAll(g, starts, frames[..n]) ==> Ended(e)
    ensures PlayAll(g, starts, frames) == PlayAll(g, starts, frames[..n])
  {
    forall i | 0 <= i < |starts|
      ensures Play(g, starts[i], Column(frames, i)) == Play(g, starts[i], Column(frames[..n], i))
    {
      assert Column(frames, i)[..n] == Column(frames[..n], i);
      assert PlayAll(g, starts, frames[..n])[i] in PlayAll(g, starts, frames[..n]);
      PlayIsFrozen(g, starts[i], Column(frames, i), n);
    }
  }

  // ---- The report ----

  function FarEnough(threshold: real, es: seq<Episode>): seq<bool> {
    seq(|es|, i requires 0 <= i < |es| => es[i].maxDx >= threshold)
  }

  function TimedOut(es: seq<Episode>): seq<bool> {
    seq(|es|, i requires 0 <= i < |es| => es[i].timeout)
  }

  /** The report counts crossings by distance alone. */
  function CrossingEpisodes(threshold: real, es: seq<Episode>): nat {
    CountTrue(FarEnough(threshold, es))
  }

  function TimeoutEpisodes(es: seq<Episode>): nat {
    CountTrue(TimedOut(es))
  }

  /** Crossings and time-outs overlap in the episodes counted twice, and in no others. */
  lemma {:induction false} ReportCounts(g: Gate, starts: seq<Position>, frames: seq<Frame>)
    requires g.threshold.Some? && Rectangular(frames, |starts|)
    ensures var es := PlayAll(g, starts, frames);
            CrossingEpisodes(g.threshold.value, es) + TimeoutEpisodes(es) <=
            |starts| + CountTrue(And(FarEnough(g.threshold.value, es), TimedOut(es)))
    ensures !g.semantic ==>
              var es := PlayAll(g, starts, frames);
              CrossingEpisodes(g.threshold.value, es) + TimeoutEpisodes(es) <= |starts|
  {
    var es := PlayAll(g, starts, frames);
    var far, late := FarEnough(g.threshold.value, es), TimedOut(es);
    CountBoth(far, late);
    CountNot(Or(far, late));
    if !g.semantic {
      forall i | 0 <= i < |es| ensures !And(far, late)[i] {
        CountedTwice(g, starts[i], Column(frames, i));
      }
      CountNone(And(far, late));
    }
  }

  /** Main result: the two counts of the report, told from the traces. */
  lemma {:induction false} CountsTold(g: Gate, starts: seq<Position>, frames: seq<Frame>, threshold: real)
    requires Rectangular(frames, |starts|)
    ensures var es := PlayAll(g, starts, frames);
            CrossingEpisodes(threshold, es) ==
              |set i: nat | i < |starts| && GotAsFarAs(g, starts[i], Column(frames, i), threshold)| &&
            TimeoutEpisodes(es) == |set i: nat | i < |starts| && RanOut(g, starts[i], Column(frames, i))|
  {
    var es := PlayAll(g, starts, frames);
    hide Play, GotAsFarAs, RanOut;
    forall i: nat | i < |starts|
      ensures es[i].maxDx >= threshold <==> GotAsFarAs(g, starts[i], Column(frames, i), threshold)
      ensures es[i].timeout <==> RanOut(g, starts[i], Column(frames, i))
    {
      EpisodeTold(g, starts[i], Column(frames, i), threshold);
    }
    hide PlayAll, Column;
    MarkedAreCounted(FarEnough(threshold, es),
                     set i: nat | i < |starts| && GotAsFarAs(g, starts[i], Column(frames, i), threshold));
    MarkedAreCounted(TimedOut(es), set i: nat | i < |starts| && RanOut(g, starts[i], Column(frames, i)));
  }

  ghost predicate CountsFit(g: Gate, starts: seq<Position>, frames: seq<Frame>)
    requires g.threshold.Some? && Rectangular(frames, |starts|)
  {
    var es := PlayAll(g, starts, frames);
    CrossingEpisodes(g.threshold.value, es) + TimeoutEpisodes(es) <= |starts|
  }

  /** Crossings and time-outs fit into the number of episodes in every rollout exactly when no semantic crossing is
      demanded. */
  lemma {:induction false} CountsFitExactlyWhen(g: Gate)
    requires g.threshold.Some?
    ensures (forall starts, frames :: Rectangular(frames, |starts|) ==> CountsFit(g, starts, frames)) <==> !g.semantic
  {
    if g.semantic {
      var start := Position(0.0, 0.0, 0.0);
      var far := Position(Max(g.threshold.value, 0.0), 0.0, 0.0);
      var sight := Sight(start, far, true, true, false, false);
      var starts, frames := [start], [[sight]];
      var trace := Column(frames, 0);
      assert trace == [sight] && trace[..0] == [] && RunningMax(start, []) == 0.0;
      assert Play(g, start, trace[..0]) == Fresh(start);
      var e := Play(g, start, trace);
      assert e.timeout && e.maxDx >= g.threshold.value;
      var es := PlayAll(g, starts, frames);
      assert es == [e];
      assert FarEnough(g.threshold.value, es) == [true] && TimedOut(es) == [true];
      assert CountTrue([true]) == 1;
      assert !CountsFit(g, starts, frames);
    } else {
      forall starts, frames | Rectangular(frames, |starts|) ensures CountsFit(g, starts, frames) {
        ReportCounts(g, starts, frames);
      }
    }
  }

  /** The bookkeeping tensors of the rollout loop. */
  class Rollout {
    const gate: Gate
    const starts: seq<Position>
    var success: seq<bool>
    var done: seq<bool>
    var timeout: seq<bool>
    var badOrientation: seq<bool>
    var maxDx: seq<real>
    var rootAtDone: seq<Position>

    ghost predicate Valid()
      reads this
    {
      |success| == |done| == |timeout| == |badOrientation| == |maxDx| == |rootAtDone| == |starts|
    }

    ghost function Episodes(): (es: seq<Episode>)
      requires Valid()
      reads this
      ensures |es| == |starts|
    {
      seq(|starts|, i requires 0 <= i < |starts| reads this requires Valid() =>
        Episode(success[i], done[i], timeout[i], badOrientation[i], maxDx[i], rootAtDone[i]))
    }

    constructor (gate: Gate, starts: seq<Position>)
      ensures Valid() && this.gate == gate && this.starts == starts
      ensures Episodes() == PlayAll(gate, starts, [])
    {
      this.gate := gate;
      this.starts := starts;
      var none := seq(|starts|, _ => false);
      success, done, timeout, badOrientation := none, none, none, none;
      maxDx := seq(|starts|, _ => 0.0);
      rootAtDone := starts;
    }

    /** Which environments are past the threshold, whether or not they still count. */
    method CrossingNow(frame: Frame) returns (crossing: seq<bool>)
      requires Valid() && |frame| == |starts|
      ensures |crossing| == |starts| && forall i :: 0 <= i < |starts| ==>
              crossing[i] == Crosses(gate, maxDx[i], frame[i].crossed)
    {
      var n := |starts|;
      crossing := seq(n, _ => false);
      if gate.threshold.Some? {
        var far := maxDx;
        crossing := seq(n, i requires 0 <= i < n => far[i] >= gate.threshold.value);
        if gate.semantic {
          crossing := And(crossing, seq(n, i requires 0 <= i < n => frame[i].crossed));
        }
      }
    }

    /** The first whole-tensor statements of a turn: displacements and crossings. */
    method NoteCrossings(frame: Frame)
      requires Valid() && |frame| == |starts|
      modifies `maxDx, `rootAtDone, `success
      ensures Valid() && Episodes() == AdvanceAll(gate, starts, old(Episodes()), frame)
    {
      hide Crosses;
      ghost var before := Episodes();
      var n := |starts|;
      var active := Not(Or(done, success));
      var stepDx := seq(n, i requires 0 <= i < n => frame[i].root.x - starts[i].x);
      maxDx := Maximum(maxDx, Where(active, stepDx, maxDx));
      var crossing := CrossingNow(frame);
      var newSuccess := And(crossing, active);
      rootAtDone := Where(newSuccess, seq(n, i requires 0 <= i < n => frame[i].root), rootAtDone);
      success := Or(success, newSuccess);
      forall i | 0 <= i < n ensures Episodes()[i] == Advance(gate, starts[i], before[i], frame[i]) {
        assert active[i] == !Ended(before[i]);
      }
    }

    /** The remaining statements of a turn: terminations. */
    method NoteTerminations(frame: Frame)
      requires Valid() && |frame| == |starts|
      modifies `rootAtDone, `timeout, `badOrientation, `done
      ensures Valid() && Episodes() == TerminateAll(old(Episodes()), frame)
    {
      ghost var before := Episodes();
      var n := |starts|;
      var dones := seq(n, i requires 0 <= i < n => frame[i].done);
      var newDone := And(And(dones, Not(done)), Not(success));
      rootAtDone := Where(newDone, seq(n, i requires 0 <= i < n => frame[i].rootBefore), rootAtDone);
      timeout := Or(timeout, And(newDone, seq(n, i requires 0 <= i < n => frame[i].timeOut)));
      badOrientation := Or(badOrientation, And(newDone, seq(n, i requires 0 <= i < n => frame[i].badOrientation)));
      done := Or(done, And(dones, Not(success)));
      forall i | 0 <= i < n ensures Episodes()[i] == Terminate(before[i], frame[i]) {
      }
    }

    method Step(frame: Frame)
      requires Valid() && |frame| == |starts|
      modifies this
      ensures Valid() && Episodes() == StepAll(gate, starts, old(Episodes()), frame)
    {
      hide Advance, Terminate;
      NoteCrossings(frame);
      NoteTerminations(frame);
    }

    /** The rollout loop: it stops early once every environment has ended. */
    method Run(frames: seq<Frame>)
      requires Valid() && Episodes() == PlayAll(gate, starts, [])
      requires Rectangular(frames, |starts|)
      modifies this
      ensures Valid() && Episodes() == PlayAll(gate, starts, frames)
    {
      for k := 0 to |frames|
        invariant Valid() && Episodes() == PlayAll(gate, starts, frames[..k])
      {
        PlayAllStep(gate, starts, frames, k);
        Step(frames[k]);
        if forall i :: 0 <= i < |starts| ==> done[i] || success[i] {
          AllEndedIsFrozen(gate, starts, frames, k + 1);
          return;
        }
      }
      assert frames[..|frames|] == frames;
    }

    /** The counts handed to the obstacle gate. */
    method Counts(threshold: real) returns (crossings: nat, timeouts: nat)
      requires Valid()
      ensures crossings == CrossingEpisodes(threshold, Episodes()) && timeouts == TimeoutEpisodes(Episodes())
    {
      var far := maxDx;
      crossings := CountTrue(seq(|far|, i requires 0 <= i < |far| => far[i] >= threshold));
      timeouts := CountTrue(timeout);
      assert FarEnough(threshold, Episodes()) == seq(|far|, i requires 0 <= i < |far| => far[i] >= threshold);
      assert TimedOut(Episodes()) == timeout;
    }
  }
}
