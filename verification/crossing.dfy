/** The accumulator of controlled crossings, with its tensors and counters, and the round that drives it. */
module Crossing {
  import opened Common
  import opened Tensors
  import opened CrossingTracks
  import opened CrossingReports
  import opened CrossingGroups

  datatype CrossingError = GroupsMustMatch | DoneMustMatch | ContactMustMatch | ForcesMustMatch

  /** What one step of the simulation shows of all environments. */
  datatype Frame = Frame(views: seq<View>, dones: seq<bool>, terms: Terms)

  ghost predicate Fits(f: Frame, n: nat) {
    |f.views| == |f.dones| == n && TermsFit(f.terms, n)
  }

  ghost predicate AllFit(frames: seq<Frame>, n: nat) {
    forall k :: 0 <= k < |frames| ==> Fits(frames[k], n)
  }

  function SightOf(f: Frame, i: nat): Sight
    requires Fits(f, |f.views|) && i < |f.views|
  {
    Sight(f.views[i], f.dones[i], FirstSet(NAMED_REASONS, f.terms, i))
  }

  /** One environment's share of a round. */
  ghost function Trace(frames: seq<Frame>, n: nat, i: nat): (trace: seq<Sight>)
    requires AllFit(frames, n) && i < n
    ensures |trace| == |frames|
  {
    seq(|frames|, k requires 0 <= k < |frames| => SightOf(frames[k], i))
  }

  /** All environments after a round. */
  ghost function WatchAll(frames: seq<Frame>, n: nat): (es: seq<Env>)
    requires AllFit(frames, n)
    ensures |es| == n
  {
    seq(n, i requires 0 <= i < n => Watch(Trace(frames, n, i)))
  }

  function LockTracks(ts: seq<Track>, step: nat, views: seq<View>): (r: seq<Track>)
    requires |ts| == |views|
    ensures |r| == |ts|
  {
    seq(|ts|, i requires 0 <= i < |ts| => LockOn(ts[i], step, views[i]))
  }

  function MeasureTracks(ts: seq<Track>, views: seq<View>): (r: seq<Track>)
    requires |ts| == |views|
    ensures |r| == |ts|
  {
    seq(|ts|, i requires 0 <= i < |ts| => Measure(ts[i], views[i]))
  }

  function StepTracks(ts: seq<Track>, step: nat, views: seq<View>): (r: seq<Track>)
    requires |ts| == |views|
    ensures |r| == |ts|
  {
    MeasureTracks(LockTracks(ts, step, views), views)
  }

  /** The new records are made for the masked environments. */
  function FirstResets(rs: Records, ts: seq<Track>, step: nat, newDone: seq<bool>, terms: Terms): (r: Records)
    requires |rs| == |ts| == |newDone| && TermsFit(terms, |ts|)
    ensures |r| == |rs|
  {
    seq(|rs|, i requires 0 <= i < |rs| =>
      if newDone[i] then Some(ResetOf(step, FirstSet(NAMED_REASONS, terms, i), ts[i])) else rs[i])
  }

  /** Done now and not reset before. */
  function NewlyDone(rs: Records, dones: seq<bool>): seq<bool>
    requires |rs| == |dones|
  {
    And(dones, Not(Resets(rs)))
  }

  /** The tensors of an accumulator, read environment by environment. */
  function TracksOf(n: nat, opportunity: seq<bool>, rootCrossed: seq<bool>, footOver: seq<bool>, touchdown: seq<bool>,
                    lockStep: seq<int>, target: seq<Target>, pathSteps: seq<nat>, overEvents: seq<nat>,
                    downEvents: seq<nat>,
                    minClearance: seq<real>, maxClearance: seq<real>): (ts: seq<Track>)
    requires |opportunity| == |rootCrossed| == |footOver| == |touchdown| == |lockStep| == |target| == n
    requires |pathSteps| == |overEvents| == |downEvents| == |minClearance| == |maxClearance| == n
    ensures |ts| == n
  {
    seq(n, i requires 0 <= i < n =>
      Track(opportunity[i], rootCrossed[i], footOver[i], touchdown[i], lockStep[i], target[i],
            pathSteps[i], overEvents[i], downEvents[i], minClearance[i], maxClearance[i]))
  }

  /** The reset tensors agree on which environments have been reset. */
  ghost predicate ResetTensors(n: nat, seen: seq<bool>, step: seq<int>, reason: seq<Option<Reason>>,
                               stage: seq<Option<Stage>>,
                               over: seq<bool>, past: seq<bool>)
  {
    |seen| == |step| == |reason| == |stage| == |over| == |past| == n &&
    forall i :: 0 <= i < n ==>
      (seen[i] <==> reason[i].Some?) && (seen[i] <==> stage[i].Some?) && (seen[i] <==> step[i] >= 0) &&
      (!seen[i] ==> !over[i] && !past[i])
  }

  function RecordsFrom(n: nat, seen: seq<bool>, step: seq<int>, reason: seq<Option<Reason>>, stage: seq<Option<Stage>>,
                       over: seq<bool>, past: seq<bool>): (rs: Records)
    requires ResetTensors(n, seen, step, reason, stage, over, past)
    ensures |rs| == n
  {
    seq(n, i requires 0 <= i < n =>
      if seen[i] then Some(Reset(step[i], reason[i].value, stage[i].value, over[i], past[i])) else None)
  }

  /** Extremes stay within their initial values. */
  lemma {:induction false} Caps()
    ensures forall x, y :: Min(x, y) <= x
    ensures forall x, y :: Max(x, y) >= x
  {
  }

  /** One step of every environment. */
  ghost function StepEnvs(es: seq<Env>, step: nat, f: Frame): (r: seq<Env>)
    requires Fits(f, |es|)
    ensures |r| == |es|
  {
    seq(|es|, i requires 0 <= i < |es| => StepEnv(es[i], step, SightOf(f, i)))
  }

  function EnvsOf(ts: seq<Track>, done: seq<bool>, rs: Records): (es: seq<Env>)
    requires |ts| == |done| == |rs|
    ensures |es| == |ts|
  {
    seq(|ts|, i requires 0 <= i < |ts| => Env(ts[i], done[i], rs[i]))
  }

  class ControlledCrossing {
    const n: nat
    const speeds: seq<real>
    const laterals: seq<real>
    var opportunitySeen: seq<bool>
    var rootCrossed: seq<bool>
    var footOver: seq<bool>
    var touchdownOnSmall: seq<bool>
    var lockStep: seq<int>
    var target: seq<Target>
    var pathSmallSeenSteps: seq<nat>
    var footOverEvents: seq<nat>
    var touchdownEvents: seq<nat>
    var minClearance: seq<real>
    var maxClearance: seq<real>
    var doneSeen: seq<bool>
    var resetSeen: seq<bool>
    var resetAfterFootOver: seq<bool>
    var resetAfterRootCrossed: seq<bool>
    var firstResetStep: seq<int>
    var firstResetReason: seq<Option<Reason>>
    var firstResetStage: seq<Option<Stage>>
    var reasonCounts: map<Reason, nat>
    var stageCounts: map<Stage, nat>

    ghost predicate TrackShape()
      reads `opportunitySeen, `rootCrossed, `footOver, `touchdownOnSmall, `lockStep, `target
      reads `pathSmallSeenSteps, `footOverEvents, `touchdownEvents, `minClearance, `maxClearance
    {
      |opportunitySeen| == |rootCrossed| == |footOver| == |touchdownOnSmall| == |lockStep| == |target| == n &&
      |pathSmallSeenSteps| == |footOverEvents| == |touchdownEvents| == |minClearance| == |maxClearance| == n &&
      forall i :: 0 <= i < n ==> minClearance[i] <= FAR && maxClearance[i] >= -FAR
    }

    ghost function Tracks(): (ts: seq<Track>)
      requires TrackShape()
      reads `opportunitySeen, `rootCrossed, `footOver, `touchdownOnSmall, `lockStep, `target
      reads `pathSmallSeenSteps, `footOverEvents, `touchdownEvents, `minClearance, `maxClearance
      ensures |ts| == n
    {
      TracksOf(n, opportunitySeen, rootCrossed, footOver, touchdownOnSmall, lockStep, target,
               pathSmallSeenSteps, footOverEvents, touchdownEvents, minClearance, maxClearance)
    }

    ghost predicate ResetShape()
      reads `resetSeen, `resetAfterFootOver, `resetAfterRootCrossed, `firstResetStep, `firstResetReason,
            `firstResetStage
    {
      ResetTensors(n, resetSeen, firstResetStep, firstResetReason, firstResetStage, resetAfterFootOver,
                   resetAfterRootCrossed)
    }

    ghost function Recorded(): (rs: Records)
      requires ResetShape()
      reads `resetSeen, `resetAfterFootOver, `resetAfterRootCrossed, `firstResetStep, `firstResetReason,
            `firstResetStage
      ensures |rs| == n
    {
      RecordsFrom(n, resetSeen, firstResetStep, firstResetReason, firstResetStage, resetAfterFootOver,
                  resetAfterRootCrossed)
    }

    ghost predicate Valid()
      reads this
    {
      |speeds| == |laterals| == |doneSeen| == n && TrackShape() && ResetShape() &&
      ReasonsCount(reasonCounts, Recorded()) && StagesCount(stageCounts, Recorded())
    }

    ghost function Envs(): (es: seq<Env>)
      requires Valid()
      reads this
      ensures |es| == n
    {
      EnvsOf(Tracks(), doneSeen, Recorded())
    }

    constructor (speeds: seq<real>, laterals: seq<real>)
      requires |speeds| == |laterals|
      ensures Valid() && n == |speeds| && this.speeds == speeds && this.laterals == laterals
      ensures Envs() == WatchAll([], n)
    {
      var count := |speeds|;
      var no := seq(count, _ => false);
      n, this.speeds, this.laterals := count, speeds, laterals;
      opportunitySeen, rootCrossed, footOver, touchdownOnSmall := no, no, no, no;
      lockStep, target := seq(count, _ => -1), seq(count, _ => NO_TARGET);
      pathSmallSeenSteps, footOverEvents, touchdownEvents := seq(count, _ => 0), seq(count, _ => 0), seq(count, _ => 0);
      minClearance, maxClearance := seq(count, _ => FAR), seq(count, _ => -FAR);
      doneSeen, resetSeen, resetAfterFootOver, resetAfterRootCrossed := no, no, no, no;
      firstResetStep := seq(count, _ => -1);
      firstResetReason, firstResetStage := seq(count, _ => None), seq(count, _ => None);
      reasonCounts := map[BadOrientation := 0, BaseContact := 0, TimeOut := 0, Unknown := 0];
      stageCounts := map[BeforeOpportunity := 0, BeforeFootOver := 0, AfterFootOver := 0, AfterRootCross := 0];
      new;
      forall r: Reason ensures r in reasonCounts && reasonCounts[r] == 0 {
        assert r.BadOrientation? || r.BaseContact? || r.TimeOut? || r.Unknown?;
      }
      forall s: Stage ensures s in stageCounts && stageCounts[s] == 0 {
        assert s.BeforeOpportunity? || s.BeforeFootOver? || s.AfterFootOver? || s.AfterRootCross?;
      }
      NoResets(Recorded(), reasonCounts, stageCounts);
    }

    /** `done_seen |= dones`. */
    method MarkDone(dones: seq<bool>)
      requires Valid() && |dones| == n
      modifies `doneSeen
      ensures Valid() && doneSeen == Or(old(doneSeen), dones)
    {
      doneSeen := Or(doneSeen, dones);
    }

    /** The part of the step metrics that locks on. */
    method LockNew(step: nat, views: seq<View>)
      requires TrackShape() && |views| == n
      modifies `opportunitySeen, `lockStep, `target, `pathSmallSeenSteps
      ensures TrackShape() && Tracks() == LockTracks(old(Tracks()), step, views)
    {
      hide HasPath, Nearest;
      ghost var before := Tracks();
      var seen := seq(n, i requires 0 <= i < n => HasPath(views[i]));
      pathSmallSeenSteps := Tally(pathSmallSeenSteps, seen);
      var newly := And(Not(opportunitySeen), seen);
      if exists i :: 0 <= i < n && newly[i] {
        target := Where(newly, seq(n, i requires 0 <= i < n => Nearest(views[i])), target);
        opportunitySeen := Or(opportunitySeen, newly);
        lockStep := Where(newly, seq(n, _ => step), lockStep);
      } else {
        assert forall i :: 0 <= i < n ==> !newly[i];
      }
      forall i | 0 <= i < n ensures Tracks()[i] == LockOn(before[i], step, views[i]) {
        assert newly[i] <==> !before[i].opportunity && HasPath(views[i]);
      }
    }

    /** The part of the step metrics that measures against the locked obstacles. */
    method MeasureLocked(views: seq<View>)
      requires TrackShape() && |views| == n
      modifies `rootCrossed, `footOver, `touchdownOnSmall, `footOverEvents, `touchdownEvents, `minClearance,
               `maxClearance
      ensures TrackShape() && Tracks() == MeasureTracks(old(Tracks()), views)
    {
      hide HasPath, FootOver, StandsOnSmall, Past, Nearest, LeastClearance, GreatestClearance;
      ghost var before := Tracks();
      Caps();
      hide Min, Max;
      var goal, locked := target, opportunitySeen;
      var past := And(locked, seq(n, i requires 0 <= i < n => Past(goal[i], views[i])));
      var least := seq(n, i requires 0 <= i < n => if locked[i] then LeastClearance(goal[i], views[i].feet) else FAR);
      var greatest :=
        seq(n, i requires 0 <= i < n => if locked[i] then GreatestClearance(goal[i], views[i].feet) else -FAR);
      var over := And(locked, seq(n, i requires 0 <= i < n => FootOver(goal[i], views[i])));
      var down := And(locked, seq(n, i requires 0 <= i < n => StandsOnSmall(views[i])));
      rootCrossed := Or(rootCrossed, past);
      minClearance, maxClearance := Minimum(minClearance, least), Maximum(maxClearance, greatest);
      footOverEvents, footOver := Tally(footOverEvents, over), Or(footOver, over);
      touchdownEvents, touchdownOnSmall := Tally(touchdownEvents, down), Or(touchdownOnSmall, down);
      forall i | 0 <= i < n ensures Tracks()[i] == Measure(before[i], views[i]) {
      }
    }

    /** The step metrics: lock on first, then measure against whatever is locked. */
    method StepMetrics(step: nat, views: seq<View>)
      requires TrackShape() && |views| == n
      modifies `opportunitySeen, `rootCrossed, `footOver, `touchdownOnSmall, `lockStep, `target
      modifies `pathSmallSeenSteps, `footOverEvents, `touchdownEvents, `minClearance, `maxClearance
      ensures TrackShape() && Tracks() == StepTracks(old(Tracks()), step, views)
    {
      hide LockOn;
      LockNew(step, views);
      if exists i :: 0 <= i < n && opportunitySeen[i] {
        MeasureLocked(views);
      } else {
        assert forall i :: 0 <= i < n ==> !opportunitySeen[i] && !Tracks()[i].opportunity;
        assert Tracks() == MeasureTracks(Tracks(), views);
      }
    }

    lemma FlagsAt(i: nat)
      requires TrackShape() && i < n
      ensures i < |footOver| && i < |rootCrossed| && i < |opportunitySeen|
      ensures Tracks()[i].footOver == footOver[i] && Tracks()[i].rootCrossed == rootCrossed[i]
    {
    }

    /** `_reset_stage_for_env`. */
    method ResetStage(i: nat) returns (stage: Stage)
      requires TrackShape() && i < n
      ensures stage == StageOf(Tracks()[i])
    {
      if !opportunitySeen[i] {
        return BeforeOpportunity;
      }
      if !footOver[i] {
        return BeforeFootOver;
      }
      if rootCrossed[i] {
        return AfterRootCross;
      }
      return AfterFootOver;
    }

    /** The tensor assignments for one newly done environment. */
    method NoteReset(i: nat, step: nat, reason: Reason, stage: Stage)
      requires ResetShape() && i < n && !resetSeen[i] && i < |footOver| && i < |rootCrossed|
      modifies `resetSeen, `resetAfterFootOver, `resetAfterRootCrossed, `firstResetStep, `firstResetReason,
               `firstResetStage
      ensures ResetShape()
      ensures Recorded() == old(Recorded())[i := Some(Reset(step, reason, stage, footOver[i], rootCrossed[i]))]
    {
      ghost var x := Reset(step, reason, stage, footOver[i], rootCrossed[i]);
      TensorsAfterReset(n, resetSeen, firstResetStep, firstResetReason, firstResetStage, resetAfterFootOver,
                        resetAfterRootCrossed, i, x);
      assert |firstResetStep| == |firstResetReason| == |firstResetStage| == |resetSeen| == n;
      assert |resetAfterFootOver| == |resetAfterRootCrossed| == n;
      hide ResetTensors, RecordsFrom;
      firstResetStep := firstResetStep[i := step];
      firstResetReason := firstResetReason[i := Some(reason)];
      firstResetStage := firstResetStage[i := Some(stage)];
      resetSeen := resetSeen[i := true];
      resetAfterFootOver := resetAfterFootOver[i := footOver[i]];
      resetAfterRootCrossed := resetAfterRootCrossed[i := rootCrossed[i]];
    }

    /** The assignments for one newly done environment, counters first. */
    method StoreReset(i: nat, step: nat, reason: Reason, stage: Stage)
      requires Valid() && i < n && Recorded()[i].None? && !resetSeen[i] && i < |footOver| && i < |rootCrossed|
      modifies this
      ensures TrackShape() && Tracks() == old(Tracks()) && doneSeen == old(doneSeen)
      ensures Valid()
      ensures Recorded() == old(Recorded())[i := Some(Reset(step, reason, stage, footOver[i], rootCrossed[i]))]
    {
      ghost var x := Reset(step, reason, stage, footOver[i], rootCrossed[i]);
      CountsAfterReset(reasonCounts, stageCounts, Recorded(), i, x);
      assert reason in reasonCounts && stage in stageCounts;
      hide ResetTensors, RecordsFrom, ReasonsCount, StagesCount, TracksOf, TrackShape;
      reasonCounts := reasonCounts[reason := reasonCounts[reason] + 1];
      stageCounts := stageCounts[stage := stageCounts[stage] + 1];
      NoteReset(i, step, reason, stage);
    }

    /** The body of the loop over the newly done environments. */
    method RecordReset(i: nat, step: nat, terms: Terms)
      requires Valid() && i < n && Recorded()[i].None? && TermsFit(terms, n)
      modifies this
      ensures TrackShape() && Tracks() == old(Tracks()) && doneSeen == old(doneSeen)
      ensures Valid() && ResetShape() && TrackShape()
      ensures Recorded() == old(Recorded())[i := Some(ResetOf(step, FirstSet(NAMED_REASONS, terms, i), Tracks()[i]))]
    {
      SeenIsRecorded(n, resetSeen, firstResetStep, firstResetReason, firstResetStage, resetAfterFootOver,
                     resetAfterRootCrossed);
      FlagsAt(i);
      hide ResetTensors, RecordsFrom, ReasonsCount, StagesCount, TracksOf, TrackShape, FirstSet;
      var reason := FirstSet(NAMED_REASONS, terms, i);
      var stage := ResetStage(i);
      StoreReset(i, step, reason, stage);
    }

    /** The loop over the newly done environments. */
    method RecordResets(step: nat, newDone: seq<bool>, terms: Terms)
      requires Valid() && TermsFit(terms, n) && |newDone| == n && forall i :: 0 <= i < n ==> newDone[i] ==>
               Recorded()[i].None?
      modifies this
      ensures TrackShape() && Tracks() == old(Tracks()) && doneSeen == old(doneSeen)
      ensures Valid() && Recorded() == FirstResets(old(Recorded()), Tracks(), step, newDone, terms)
    {
      ghost var start, tracks := Recorded(), Tracks();
      ghost var goal := FirstResets(start, tracks, step, newDone, terms);
      SpliceEnd(goal, start);
      hide *;
      for i := 0 to n
        invariant Valid() && ResetShape() && TrackShape() && Tracks() == tracks && doneSeen == old(doneSeen)
        invariant Recorded() == Spliced(goal, start, i)
      {
        OneRecord(start, tracks, step, newDone, terms, i);
        if newDone[i] {
          RecordReset(i, step, terms);
        }
      }
    }

    method UpdateResetDiagnostics(step: nat, dones: seq<bool>, terms: Terms) returns (r: Result<(), CrossingError>)
      requires Valid() && TermsFit(terms, n)
      modifies this
      ensures TrackShape() && Tracks() == old(Tracks()) && doneSeen == old(doneSeen)
      ensures Valid()
      ensures r == if |dones| == n then Ok(()) else Err(DoneMustMatch)
      ensures |dones| == n ==>
              Recorded() == FirstResets(old(Recorded()), Tracks(), step, NewlyDone(old(Recorded()), dones), terms)
      ensures |dones| != n ==> Recorded() == old(Recorded())
    {
      if |dones| != n {
        return Err(DoneMustMatch);
      }
      var newDone := And(dones, Not(resetSeen));
      SeenIsRecorded(n, resetSeen, firstResetStep, firstResetReason, firstResetStage, resetAfterFootOver,
                     resetAfterRootCrossed);
      hide ResetTensors, RecordsFrom, ReasonsCount, StagesCount, TracksOf, FirstSet, FirstResets;
      assert newDone == NewlyDone(Recorded(), dones);
      RecordResets(step, newDone, terms);
      return Ok(());
    }

    /** One step of the round: done flags, then step metrics, then reset diagnostics. */
    method ObserveStep(step: nat, f: Frame)
      requires Valid() && Fits(f, n)
      modifies this
      ensures Valid() && Envs() == StepEnvs(old(Envs()), step, f)
    {
      StepIsPointwise(Tracks(), doneSeen, Recorded(), step, f);
      hide ResetTensors, RecordsFrom, ReasonsCount, StagesCount, TracksOf, EnvsOf, StepEnvs, StepTracks, FirstResets,
           TrackShape;
      MarkDone(f.dones);
      StepMetrics(step, f.views);
      var _ := UpdateResetDiagnostics(step, f.dones, f.terms);
    }

    /** The success mask and the flags it is made of. */
    method SuccessMask(contact: seq<bool>) returns (success: seq<bool>)
      requires Valid() && |contact| == n
      ensures success == Successes(Envs(), contact)
      ensures Opportunities(Envs()) == opportunitySeen && RootCrossings(Envs()) == rootCrossed
      ensures FeetOver(Envs()) == footOver && Touchdowns(Envs()) == touchdownOnSmall && RecordsOf(Envs()) == Recorded()
    {
      hide ReasonsCount, StagesCount, RecordsFrom, ResetTensors;
      success :=
        And(And(And(opportunitySeen, rootCrossed), And(footOver, Not(touchdownOnSmall))),
            And(Not(contact), Not(doneSeen)));
    }

    /** The counts and records of the resets. */
    method SummarizeResets() returns (resets: nat, afterFootOver: nat, afterRoot: nat, first: map<nat, Reset>)
      requires Valid()
      ensures resets == CountTrue(Resets(Recorded())) && first == FirstResetsOf(Recorded())
      ensures afterFootOver == CountTrue(ResetAfterFootOver(Recorded())) &&
              afterRoot == CountTrue(ResetAfterRootCrossed(Recorded()))
    {
      hide ReasonsCount, StagesCount, TracksOf, CountTrue;
      ghost var rs := Recorded();
      first := map i: nat | i < n && resetSeen[i] ::
        Reset(firstResetStep[i], firstResetReason[i].value, firstResetStage[i].value, resetAfterFootOver[i],
              resetAfterRootCrossed[i]);
      assert Resets(rs) == resetSeen && ResetAfterFootOver(rs) == resetAfterFootOver &&
        ResetAfterRootCrossed(rs) == resetAfterRootCrossed;
      return CountTrue(resetSeen), CountTrue(resetAfterFootOver), CountTrue(resetAfterRootCrossed), first;
    }

    /** `summary`: the counts of the report. */
    method Summarize(contact: seq<bool>) returns (r: Result<Report, CrossingError>)
      requires Valid()
      ensures r.Err? <==> |contact| != n
      ensures r.Ok? ==> Reports(r.value, Envs(), contact, speeds, laterals)
    {
      if |contact| != n {
        return Err(ContactMustMatch);
      }
      hide ReasonsCount, StagesCount, RecordsFrom, ResetTensors, TracksOf, EnvsOf, CountTrue, Opportunities,
           RootCrossings, FeetOver, Touchdowns,
           Successes, RecordsOf, Resets, Summary, FirstResetsOf;
      var opportunity := opportunitySeen;
      var success := SuccessMask(contact);
      var bySpeed := GroupSummary(speeds, opportunity, success);
      var byLateral := GroupSummary(laterals, opportunity, success);
      var resets, afterFootOver, afterRoot, first := SummarizeResets();
      return Ok(Report(
        CountTrue(opportunity), CountTrue(And(opportunity, rootCrossed)), CountTrue(And(opportunity, footOver)),
        CountTrue(And(opportunity, touchdownOnSmall)), CountTrue(And(opportunity, contact)), CountTrue(success),
        bySpeed, byLateral,
        resets, afterFootOver, afterRoot, reasonCounts, stageCounts,
        Rate(CountTrue(opportunity), n), Rate(CountTrue(success), CountTrue(opportunity)), first));
    }
  }

  lemma {:induction false} StepIsPointwise(ts: seq<Track>, done: seq<bool>, rs: Records, step: nat, f: Frame)
    requires |ts| == |done| == |rs| && Fits(f, |ts|)
    ensures var next := StepTracks(ts, step, f.views);
            EnvsOf(next, Or(done, f.dones), FirstResets(rs, next, step, NewlyDone(rs, f.dones), f.terms)) ==
            StepEnvs(EnvsOf(ts, done, rs), step, f)
  {
    hide LockOn, Measure, FirstSet;
  }

  lemma {:induction false} WatchAllStep(frames: seq<Frame>, n: nat, k: nat)
    requires AllFit(frames, n) && k < |frames|
    ensures WatchAll(frames[..k + 1], n) == StepEnvs(WatchAll(frames[..k], n), k, frames[k])
  {
    hide StepEnv;
    forall i | 0 <= i < n
      ensures Watch(Trace(frames[..k + 1], n, i)) == StepEnv(Watch(Trace(frames[..k], n, i)), k, SightOf(frames[k], i))
    {
      assert Trace(frames[..k + 1], n, i)[..k] == Trace(frames[..k], n, i);
    }
  }

  lemma {:induction false} WatchAllIsWatched(frames: seq<Frame>, n: nat)
    requires AllFit(frames, n)
    ensures Watched(WatchAll(frames, n))
  {
    forall e | e in WatchAll(frames, n) ensures exists trace :: e == Watch(trace) {
      var i :| 0 <= i < n && e == WatchAll(frames, n)[i];
      assert e == Watch(Trace(frames, n, i));
    }
  }

  /** The first i elements of one sequence, then the rest of another. */
  function Spliced<T>(a: seq<T>, b: seq<T>, i: nat): (r: seq<T>)
    requires i <= |a| == |b|
    ensures |r| == |a|
  {
    a[..i] + b[i..]
  }

  lemma {:induction false} OneRecord(rs: Records, ts: seq<Track>, step: nat, newDone: seq<bool>, terms: Terms, i: nat)
    requires |rs| == |ts| == |newDone| && TermsFit(terms, |ts|) && i < |rs|
    ensures var goal := FirstResets(rs, ts, step, newDone, terms); var now := Spliced(goal, rs, i);
            now[i] == rs[i] &&
            Spliced(goal, rs, i + 1) ==
              if newDone[i] then now[i := Some(ResetOf(step, FirstSet(NAMED_REASONS, terms, i), ts[i]))] else now
  {
    hide FirstSet;
  }

  lemma {:induction false} SpliceEnd<T>(a: seq<T>, b: seq<T>)
    requires |a| == |b|
    ensures Spliced(a, b, 0) == b && Spliced(a, b, |a|) == a
  {
  }

  lemma {:induction false} SeenIsRecorded(
    n: nat, seen: seq<bool>, step: seq<int>, reason: seq<Option<Reason>>, stage: seq<Option<Stage>>, over: seq<bool>,
    past: seq<bool>)
    requires ResetTensors(n, seen, step, reason, stage, over, past)
    ensures |seen| == n && forall i :: 0 <= i < n ==>
            (seen[i] <==> RecordsFrom(n, seen, step, reason, stage, over, past)[i].Some?)
  {
  }

  lemma {:induction false} NoResets(rs: Records, reasons: map<Reason, nat>, stages: map<Stage, nat>)
    requires forall i :: 0 <= i < |rs| ==> rs[i].None?
    requires forall r: Reason :: r in reasons && reasons[r] == 0
    requires forall s: Stage :: s in stages && stages[s] == 0
    ensures ReasonsCount(reasons, rs) && StagesCount(stages, rs)
  {
    forall r: Reason ensures CountTrue(ResetFor(rs, r)) == 0 {
      CountNone(ResetFor(rs, r));
    }
    forall s: Stage ensures CountTrue(ResetAt(rs, s)) == 0 {
      CountNone(ResetAt(rs, s));
    }
  }

  lemma {:induction false} CountsAfterReset(reasons: map<Reason, nat>, stages: map<Stage, nat>, rs: Records, i: nat,
                                            x: Reset)
    requires i < |rs| && rs[i].None? && ReasonsCount(reasons, rs) && StagesCount(stages, rs)
    ensures ReasonsCount(reasons[x.reason := reasons[x.reason] + 1], rs[i := Some(x)])
    ensures StagesCount(stages[x.stage := stages[x.stage] + 1], rs[i := Some(x)])
  {
    forall r: Reason
      ensures CountTrue(ResetFor(rs[i := Some(x)], r)) == CountTrue(ResetFor(rs, r)) + if x.reason == r then 1 else 0
    {
      CountUpdate(ResetFor(rs, r), i, x.reason == r);
      assert ResetFor(rs[i := Some(x)], r) == ResetFor(rs, r)[i := x.reason == r];
    }
    forall s: Stage
      ensures CountTrue(ResetAt(rs[i := Some(x)], s)) == CountTrue(ResetAt(rs, s)) + if x.stage == s then 1 else 0
    {
      CountUpdate(ResetAt(rs, s), i, x.stage == s);
      assert ResetAt(rs[i := Some(x)], s) == ResetAt(rs, s)[i := x.stage == s];
    }
  }

  lemma {:induction false} TensorsAfterReset(
    n: nat, seen: seq<bool>, step: seq<int>, reason: seq<Option<Reason>>, stage: seq<Option<Stage>>, over: seq<bool>,
    past: seq<bool>,
    i: nat, x: Reset)
    requires ResetTensors(n, seen, step, reason, stage, over, past) && i < n && !seen[i]
    ensures ResetTensors(n, seen[i := true], step[i := x.step], reason[i := Some(x.reason)], stage[i := Some(x.stage)],
                         over[i := x.afterFootOver], past[i := x.afterRootCrossed])
    ensures RecordsFrom(n, seen[i := true], step[i := x.step], reason[i := Some(x.reason)], stage[i := Some(x.stage)],
                        over[i := x.afterFootOver], past[i := x.afterRootCrossed]) ==
            RecordsFrom(n, seen, step, reason, stage, over, past)[i := Some(x)]
  {
  }
}
