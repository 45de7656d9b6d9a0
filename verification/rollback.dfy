/** What every run of the curriculum driver guarantees on every exit. */
module Rollback {
  import opened Common
  import opened FileStores
  import opened Lineage
  import opened Curriculum

  // ---- Where files live ----

  /** The run directories of different stages share no path. */
  lemma RunDirsDisjoint(x: Experiment, i: StageIndex, j: StageIndex, p: Path)
    requires Under(RunDir(x, i), p) && Under(RunDir(x, j), p)
    ensures i == j
  {
    StageOrderFacts(i, j);
    StageOrderFacts(j, i);
    var a, b := RunDir(x, i), RunDir(x, j);
    assert |a| == |b| && a == (a + "/")[..|a|] && b == (b + "/")[..|b|];
    var n := |x.root| + 1;
    assert a[n..] == STAGE_ORDER[i] && b[n..] == STAGE_ORDER[j];
  }

  lemma StateOutside(x: Experiment, k: StageIndex)
    ensures !Under(RunDir(x, k), StatePath(x))
  {
    StageOrderFacts(k, k);
    var n, dir := |x.root| + 1, RunDir(x, k) + "/";
    assert dir[n] == STAGE_ORDER[k][0];
    assert StatePath(x)[n] == 'c';
    assert |dir| <= |StatePath(x)| && StatePath(x)[..|dir|][n] == StatePath(x)[n];
  }

  lemma ManifestInside(x: Experiment, k: StageIndex)
    ensures Under(RunDir(x, k), ManifestPath(x, k)) && ManifestPath(x, k) != StatePath(x)
  {
    JoinUnder(RunDir(x, k), "run_manifest.json");
    StateOutside(x, k);
  }

  // ---- The effect of one stage on the stages before ----

  /** The final checkpoint a stage names, if any, is out of the way: not the state file, and below the run directory of
      no other stage. Its own run directory, where the evaluator publishes it, is such a place, and so is any place
      outside the experiment. */
  ghost predicate Housed(x: Experiment, s: Store, k: StageIndex) {
    FinalCheckpoint(x, s, k).Some? ==>
      var p := FinalCheckpoint(x, s, k).value;
      p != StatePath(x) && forall j: StageIndex :: j != k ==> !Under(RunDir(x, j), p)
  }

  ghost predicate HousedBelow(x: Experiment, s: Store, k: int) {
    forall i: StageIndex :: i < k ==> Housed(x, s, i)
  }

  /** A stage that is promoted names a checkpoint out of the way of the others. */
  ghost predicate Tidy(x: Experiment, e: Executor) {
    forall k: StageIndex, s: Store :: Verdict(x, e, k, s).None? ==> Housed(x, Execute(x, e, k, s), k)
  }

  /** Nothing but the run directory of stage k and the state file differs. */
  ghost predicate OnlyStage(x: Experiment, s: Store, t: Store, k: StageIndex) {
    forall p :: !Under(RunDir(x, k), p) && p != StatePath(x) ==> Agree(s, t, p)
  }

  ghost predicate OnlyState(x: Experiment, s: Store, t: Store) {
    forall p :: p != StatePath(x) ==> Agree(s, t, p)
  }

  lemma ExecuteOnlyStage(x: Experiment, e: Executor, k: StageIndex, s: Store, st: CurriculumState)
    ensures OnlyStage(x, s, Execute(x, e, k, s), k)
    ensures OnlyStage(x, s, Persist(x, Execute(x, e, k, s), st), k)
    ensures OnlyState(x, Execute(x, e, k, s), Persist(x, Execute(x, e, k, s), st))
  {
  }

  lemma HousedElsewhere(x: Experiment, s: Store, t: Store, k: StageIndex, i: StageIndex)
    requires OnlyStage(x, s, t, k) && i != k && Housed(x, s, i)
    ensures SameFiles(x, s, t, i) && Housed(x, t, i)
  {
    ManifestInside(x, i);
    if Under(RunDir(x, k), ManifestPath(x, i)) {
      RunDirsDisjoint(x, i, k, ManifestPath(x, i));
    }
    if FinalCheckpoint(x, s, i).Some? {
      var p := FinalCheckpoint(x, s, i).value;
      StateOutside(x, i);
      if Under(RunDir(x, k), p) {
        RunDirsDisjoint(x, i, k, p);
      }
    }
  }

  lemma HousedBesideState(x: Experiment, s: Store, t: Store, i: StageIndex)
    requires OnlyState(x, s, t) && Housed(x, s, i)
    ensures SameFiles(x, s, t, i) && Housed(x, t, i)
  {
    ManifestInside(x, i);
    StateOutside(x, i);
  }

  lemma StageKeepsParents(x: Experiment, s: Store, t: Store, k: StageIndex)
    requires OnlyStage(x, s, t, k) && HousedBelow(x, s, k)
    ensures ParentsUnchanged(x, s, t, k) && HousedBelow(x, t, k)
  {
    forall i: StageIndex | i < k ensures SameFiles(x, s, t, i) && Housed(x, t, i) {
      HousedElsewhere(x, s, t, k, i);
    }
  }

  lemma StateKeepsChain(x: Experiment, s: Store, t: Store, k: int)
    requires 0 <= k <= STAGES && OnlyState(x, s, t) && HousedBelow(x, s, k)
    ensures ParentsUnchanged(x, s, t, k) && HousedBelow(x, t, k)
    ensures CheckThrough(x, s, k - 1) == CheckThrough(x, t, k - 1)
    ensures AcceptedCheckpoint(x, s, k) == AcceptedCheckpoint(x, t, k)
  {
    forall i: StageIndex | i < k ensures SameFiles(x, s, t, i) && Housed(x, t, i) {
      HousedBesideState(x, s, t, i);
    }
    ThroughUnchanged(x, s, t, k, k - 1);
    if k > 0 {
      ManifestInside(x, k - 1);
      assert Agree(s, t, ManifestPath(x, k - 1));
    }
  }

  // ---- The shape of every run, for any executor whatsoever ----

  /** The manifest of the last complete stage can be read, so no exception escapes the driver. */
  ghost predicate Readable(x: Experiment, s: Store, k: int) {
    0 <= k <= STAGES && AcceptedCheckpoint(x, s, k).Some?
  }

  lemma ReadableKept(x: Experiment, s: Store, t: Store, k: int, j: StageIndex)
    requires Readable(x, s, k) && k <= j && OnlyStage(x, s, t, j)
    ensures Readable(x, t, k) && AcceptedCheckpoint(x, s, k) == AcceptedCheckpoint(x, t, k)
  {
    if k > 0 {
      var m := ManifestPath(x, k - 1);
      ManifestInside(x, k - 1);
      if Under(RunDir(x, j), m) {
        RunDirsDisjoint(x, k - 1, j, m);
      }
      assert Agree(s, t, m);
    }
  }

  lemma ReadableBesideState(x: Experiment, s: Store, t: Store, k: int)
    requires Readable(x, s, k) && OnlyState(x, s, t)
    ensures Readable(x, t, k) && AcceptedCheckpoint(x, s, k) == AcceptedCheckpoint(x, t, k)
  {
    if k > 0 {
      ManifestInside(x, k - 1);
      assert Agree(s, t, ManifestPath(x, k - 1));
    }
  }

  lemma ValidIsReadable(x: Experiment, s: Store, k: int)
    requires 0 <= k <= STAGES && ValidThrough(x, s, k - 1)
    ensures Readable(x, s, k)
    ensures AcceptedCheckpoint(x, s, k) == Some(if k == 0 then None else FinalCheckpoint(x, s, k - 1))
  {
    if k > 0 {
      PrefixValid(x, s, k - 1, k - 1);
      StageFacts(x, s, k - 1);
    }
  }

  /** What one turn of the loop does. */
  lemma {:induction false} StepShape(x: Experiment, e: Executor, k: StageIndex, s: Store)
    requires Readable(x, s, k)
    ensures AcceptedCheckpoint(x, s, k).Some?
    ensures match StageStep(x, e, k, s)
            case Stop(exit, t) =>
              Verdict(x, e, k, s).Some? &&
              exit == Exited(StoppedState(k, AcceptedCheckpoint(x, s, k).value, Verdict(x, e, k, s).value)) &&
              t == Persist(x, Execute(x, e, k, s), exit.state)
            case Continue(t) =>
              Verdict(x, e, k, s).None? && Readable(x, t, k + 1) &&
              ValidThrough(x, Execute(x, e, k, s), k) && OnlyState(x, Execute(x, e, k, s), t)
  {
    hide Execute, CheckThrough, AcceptedCheckpoint, Persist, StoppedState, RunningState, OnlyState, RequestFor,
         OnlyStage;
    ExecuteOnlyStage(x, e, k, s, RunningState(k, None));
    var after := Execute(x, e, k, s);
    ReadableKept(x, s, after, k, k);
    if Verdict(x, e, k, s).None? {
      ValidIsReadable(x, after, k + 1);
      var st := RunningState(k, AcceptedCheckpoint(x, after, k + 1).value);
      ExecuteOnlyStage(x, e, k, s, st);
      ReadableBesideState(x, after, Persist(x, after, st), k + 1);
    }
  }

  /** What is complete is a prefix of the order; the run is accepted exactly when that is all of it;
      otherwise the next stage stopped it. The rollback is the last complete stage. */
  ghost predicate StateEnds(k: int, st: CurriculumState) {
    var j := |st.completedStages|;
    && 0 <= k <= j <= STAGES && st.completedStages == STAGE_ORDER[..j]
    && (j == STAGES <==> st.status == "accepted")
    && (j < STAGES <==> st.status == "stopped")
    && (j < STAGES <==> st.reason.Some?)
    && st.stoppedStage == (if j < STAGES then Some(STAGE_ORDER[j]) else None)
    && st.rollbackStage == LastBelow(j)
  }

  ghost predicate Persisted(x: Experiment, st: CurriculumState, s: Store) {
    StatePath(x) in s && s[StatePath(x)] == Json(StateDocument(st))
  }

  /** The requests are those of the stages from k on, in order. */
  ghost predicate InOrder(x: Experiment, k: int, issued: seq<Issue>) {
    0 <= k && k + |issued| <= STAGES && forall i :: 0 <= i < |issued| ==> issued[i].request == RequestFor(x, k + i)
  }

  /** How a run from stage k ends: with a state as above, which the state file holds, after one request for every stage
      that completed and for the one that stopped it. */
  ghost predicate WellEnded(x: Experiment, k: int, run: Run) {
    && run.exit.Exited? && StateEnds(k, run.exit.state) && Persisted(x, run.exit.state, run.store)
    && InOrder(x, k, run.issued)
    && |run.issued| ==
      |run.exit.state.completedStages| - k + (if |run.exit.state.completedStages| < STAGES then 1 else 0)
  }

  lemma FinishEndsWell(x: Experiment, s: Store)
    requires Readable(x, s, STAGES)
    ensures WellEnded(x, STAGES, Finish(x, s))
  {
  }

  lemma StopEndsWell(x: Experiment, k: StageIndex, rollback: Option<Path>, reason: Reason, s: Store, issue: Issue)
    requires issue.request == RequestFor(x, k)
    ensures WellEnded(x, k,
                      Run(Exited(StoppedState(k, rollback, reason)), Persist(x, s, StoppedState(k, rollback, reason)),
                          [issue]))
  {
  }

  lemma PrependInOrder(x: Experiment, k: StageIndex, issued: seq<Issue>, issue: Issue)
    requires InOrder(x, k + 1, issued) && issue.request == RequestFor(x, k)
    ensures InOrder(x, k, [issue] + issued)
  {
    hide RequestFor;
    var all := [issue] + issued;
    forall i | 0 <= i < |all| ensures all[i].request == RequestFor(x, k + i) {
      if i > 0 {
        assert all[i] == issued[i - 1];
      }
    }
  }

  lemma EarlierStart(k: StageIndex, st: CurriculumState)
    requires StateEnds(k + 1, st)
    ensures StateEnds(k, st)
  {
  }

  lemma PrependEndsWell(x: Experiment, k: StageIndex, rest: Run, issue: Issue)
    requires WellEnded(x, k + 1, rest) && issue.request == RequestFor(x, k)
    ensures WellEnded(x, k, Run(rest.exit, rest.store, [issue] + rest.issued))
  {
    hide InOrder, StateEnds, RequestFor, Persisted;
    EarlierStart(k, rest.exit.state);
    PrependInOrder(x, k, rest.issued, issue);
  }

  /** Main result: every run ends well, whatever the executor does or raises; no exception escapes. */
  lemma {:induction false} EveryRunEndsWell(x: Experiment, e: Executor, k: int, s: Store)
    requires 0 <= k <= STAGES && Readable(x, s, k)
    ensures WellEnded(x, k, RunFrom(x, e, k, s))
    decreases STAGES - k
  {
    hide *;
    StageCount();
    if k == STAGES {
      RunFromEnd(x, e, s);
      FinishEndsWell(x, s);
    } else {
      StepShape(x, e, k, s);
      RunFromStep(x, e, k, s);
      var issue := Issue(RequestFor(x, k), s);
      match StageStep(x, e, k, s)
      case Stop(_, _) =>
        StopEndsWell(x, k, AcceptedCheckpoint(x, s, k).value, Verdict(x, e, k, s).value, Execute(x, e, k, s), issue);
      case Continue(next) =>
        EveryRunEndsWell(x, e, k + 1, next);
        PrependEndsWell(x, k, RunFrom(x, e, k + 1, next), issue);
    }
  }

  /** Every request was issued in a store that differs at most in the state file from one whose chain validated through
      the stage before. */
  ghost predicate Validated(x: Experiment, k: int, run: Run) {
    0 <= k && k + |run.issued| <= STAGES && forall i :: 0 <= i < |run.issued| ==> Backing(x, run.issued[i].store, k + i)
  }

  ghost predicate Backing(x: Experiment, s: Store, k: StageIndex) {
    exists v :: OnlyState(x, v, s) && ValidThrough(x, v, k - 1)
  }

  /** The loop may go on with stage k: the last accepted manifest can be read, and the chain of the request is
      backed. */
  ghost predicate Continuable(x: Experiment, s: Store, k: int) {
    Readable(x, s, k) && (k < STAGES ==> Backing(x, s, k))
  }

  lemma {:induction false} ContinueIsBacked(x: Experiment, e: Executor, k: StageIndex, s: Store)
    requires Continuable(x, s, k) && StageStep(x, e, k, s).Continue?
    ensures Continuable(x, StageStep(x, e, k, s).store, k + 1)
  {
    hide StageStep, Execute, OnlyState, CheckThrough;
    StepShape(x, e, k, s);
    if k + 1 < STAGES {
      assert ValidThrough(x, Execute(x, e, k, s), k + 1 - 1);
    }
  }

  lemma {:induction false} PrependValidated(x: Experiment, k: StageIndex, rest: Run, issue: Issue)
    requires Validated(x, k + 1, rest) && Backing(x, issue.store, k)
    ensures Validated(x, k, Run(rest.exit, rest.store, [issue] + rest.issued))
  {
    hide Backing;
    var all := [issue] + rest.issued;
    forall i | 0 <= i < |all| ensures Backing(x, all[i].store, k + i) {
      if i > 0 {
        assert all[i] == rest.issued[i - 1];
      }
    }
  }

  lemma {:induction false} NothingIsValidated(x: Experiment, s: Store)
    ensures Validated(x, STAGES, Finish(x, s))
  {
    assert Finish(x, s).issued == [];
  }

  lemma {:induction false} OneIsValidated(x: Experiment, k: StageIndex, run: Run)
    requires |run.issued| == 1 && Backing(x, run.issued[0].store, k)
    ensures Validated(x, k, run)
  {
    hide Backing;
  }

  lemma {:induction false} ContinuableMeans(x: Experiment, s: Store, k: StageIndex)
    requires Continuable(x, s, k)
    ensures Backing(x, s, k)
  {
    hide Readable, Backing;
  }

  /** Main result: no request is issued before its parent chain validated, whatever the executor does. */
  lemma {:induction false} EveryRequestIsValidated(x: Experiment, e: Executor, k: int, s: Store)
    requires 0 <= k <= STAGES && Continuable(x, s, k)
    ensures Validated(x, k, RunFrom(x, e, k, s))
    decreases STAGES - k
  {
    hide *;
    StageCount();
    if k == STAGES {
      RunFromEnd(x, e, s);
      NothingIsValidated(x, s);
    } else {
      RunFromStep(x, e, k, s);
      ContinuableMeans(x, s, k);
      var issue := Issue(RequestFor(x, k), s);
      match StageStep(x, e, k, s)
      case Stop(exit, t) =>
        OneIsValidated(x, k, Run(exit, t, [issue]));
      case Continue(next) =>
        ContinueIsBacked(x, e, k, s);
        EveryRequestIsValidated(x, e, k + 1, next);
        PrependValidated(x, k, RunFrom(x, e, k + 1, next), issue);
    }
  }

  /** A run may begin behind every valid chain. */
  lemma {:induction false} ValidIsContinuable(x: Experiment, s: Store, k: int)
    requires 0 <= k <= STAGES && ValidThrough(x, s, k - 1)
    ensures Continuable(x, s, k)
  {
    hide CheckThrough;
    ValidIsReadable(x, s, k);
    assert OnlyState(x, s, s);
  }

  // ---- The chain behind the rollback ----

  /** The chain of the complete stages validates at the end, and the rollback checkpoint is its last one. */
  ghost predicate ChainEnd(x: Experiment, st: CurriculumState, s: Store) {
    var j := |st.completedStages|;
    && j <= STAGES && HousedBelow(x, s, j) && ValidThrough(x, s, j - 1)
    && st.rollbackCheckpoint == (if j == 0 then None else FinalCheckpoint(x, s, j - 1))
  }

  /** Every request was issued in a store whose chain validates through the stage before. */
  ghost predicate Backed(x: Experiment, k: int, issued: seq<Issue>) {
    0 <= k && k + |issued| <= STAGES && forall i :: 0 <= i < |issued| ==> ValidThrough(x, issued[i].store, k + i - 1)
  }

  ghost predicate ChainKept(x: Experiment, k: int, run: Run) {
    run.exit.Exited? && ChainEnd(x, run.exit.state, run.store) && Backed(x, k, run.issued)
  }

  lemma ExtendHoused(x: Experiment, s: Store, k: StageIndex)
    requires HousedBelow(x, s, k) && Housed(x, s, k)
    ensures HousedBelow(x, s, k + 1)
  {
  }

  lemma TidyHoused(x: Experiment, e: Executor, k: StageIndex, s: Store)
    requires Tidy(x, e) && Verdict(x, e, k, s).None?
    ensures Housed(x, Execute(x, e, k, s), k)
  {
  }

  /** A step from a valid chain: a stop keeps the chain below, a promotion extends it. */
  lemma StepKeepsChain(x: Experiment, e: Executor, k: StageIndex, s: Store)
    requires Tidy(x, e) && HousedBelow(x, s, k) && ValidThrough(x, s, k - 1)
    ensures match StageStep(x, e, k, s)
            case Stop(_, t) =>
              HousedBelow(x, t, k) && ValidThrough(x, t, k - 1) &&
              AcceptedCheckpoint(x, t, k) == AcceptedCheckpoint(x, s, k)
            case Continue(t) => HousedBelow(x, t, k + 1) && ValidThrough(x, t, k)
  {
    hide *;
    StageCount();
    ValidIsReadable(x, s, k);
    StepShape(x, e, k, s);
    match StageStep(x, e, k, s)
    case Stop(exit, t) =>
      ExecuteOnlyStage(x, e, k, s, exit.state);
      StageKeepsParents(x, s, t, k);
      ValidUnchanged(x, s, t, k, k - 1);
      ReadableKept(x, s, t, k, k);
    case Continue(t) =>
      var after := Execute(x, e, k, s);
      ExecuteOnlyStage(x, e, k, s, RunningState(k, None));
      StageKeepsParents(x, s, after, k);
      TidyHoused(x, e, k, s);
      ExtendHoused(x, after, k);
      StateKeepsChain(x, after, t, k + 1);
      ValidUnchanged(x, after, t, k + 1, k);
  }

  /** Main result: with executors that keep their checkpoints out of the way, the chain behind the rollback checkpoint
      validates at every exit, and the one behind every request in the very store it was issued in. */
  lemma {:induction false} EveryRunKeepsChain(x: Experiment, e: Executor, k: int, s: Store)
    requires 0 <= k <= STAGES
    requires Tidy(x, e) && HousedBelow(x, s, k) && ValidThrough(x, s, k - 1)
    ensures ChainKept(x, k, RunFrom(x, e, k, s))
    decreases STAGES - k
  {
    hide *;
    StageCount();
    if k == STAGES {
      RunFromEnd(x, e, s);
      FinishKeepsChain(x, s);
    } else {
      ValidIsReadable(x, s, k);
      StepShape(x, e, k, s);
      StepKeepsChain(x, e, k, s);
      RunFromStep(x, e, k, s);
      var issue := Issue(RequestFor(x, k), s);
      match StageStep(x, e, k, s)
      case Stop(_, t) =>
        StopKeepsChain(x, k, AcceptedCheckpoint(x, s, k).value, Verdict(x, e, k, s).value, t, issue);
      case Continue(next) =>
        EveryRunKeepsChain(x, e, k + 1, next);
        PrependKeepsChain(x, k, RunFrom(x, e, k + 1, next), issue);
    }
  }

  lemma FinishShape(x: Experiment, s: Store)
    requires Readable(x, s, STAGES)
    ensures OnlyState(x, s, Finish(x, s).store)
    ensures Finish(x, s).exit == Exited(AcceptedState(AcceptedCheckpoint(x, s, STAGES).value)) &&
            Finish(x, s).issued == []
  {
  }

  lemma FinishKeepsChain(x: Experiment, s: Store)
    requires HousedBelow(x, s, STAGES) && ValidThrough(x, s, STAGES - 1)
    ensures ChainKept(x, STAGES, Finish(x, s))
  {
    hide HousedBelow, ValidThrough, CheckThrough, Finish, AcceptedCheckpoint, OnlyState, FinalCheckpoint, Readable;
    ValidIsReadable(x, s, STAGES);
    FinishShape(x, s);
    var t := Finish(x, s).store;
    StateKeepsChain(x, s, t, STAGES);
    ValidUnchanged(x, s, t, STAGES, STAGES - 1);
    ValidIsReadable(x, t, STAGES);
  }

  lemma StopKeepsChain(x: Experiment, k: StageIndex, rollback: Option<Path>, reason: Reason, t: Store, issue: Issue)
    requires HousedBelow(x, t, k) && ValidThrough(x, t, k - 1) && AcceptedCheckpoint(x, t, k) == Some(rollback)
    requires ValidThrough(x, issue.store, k - 1)
    ensures ChainKept(x, k, Run(Exited(StoppedState(k, rollback, reason)), t, [issue]))
  {
    hide HousedBelow, ValidThrough, AcceptedCheckpoint, FinalCheckpoint;
    assert |StoppedState(k, rollback, reason).completedStages| == k;
    ValidIsReadable(x, t, k);
  }

  lemma PrependBacked(x: Experiment, k: StageIndex, issued: seq<Issue>, issue: Issue)
    requires Backed(x, k + 1, issued) && ValidThrough(x, issue.store, k - 1)
    ensures Backed(x, k, [issue] + issued)
  {
    hide ValidThrough;
    var all := [issue] + issued;
    forall i | 0 <= i < |all| ensures ValidThrough(x, all[i].store, k + i - 1) {
      if i > 0 {
        assert all[i] == issued[i - 1];
        assert ValidThrough(x, issued[i - 1].store, k + 1 + (i - 1) - 1);
      }
    }
  }

  lemma PrependKeepsChain(x: Experiment, k: StageIndex, rest: Run, issue: Issue)
    requires ChainKept(x, k + 1, rest) && ValidThrough(x, issue.store, k - 1)
    ensures ChainKept(x, k, Run(rest.exit, rest.store, [issue] + rest.issued))
  {
    hide Backed, ChainEnd, ValidThrough;
    PrependBacked(x, k, rest.issued, issue);
  }

  lemma {:induction false} StartFrom(x: Experiment, e: Executor, k: StageIndex, s: Store)
    ensures RunCurriculumSpec(x, e, STAGE_ORDER[k], s) ==
            match CheckThrough(x, s, k - 1) case Err(error) => Err(error) case Ok(_) => Ok(RunFrom(x, e, k, s))
    ensures ValidThrough(x, s, k - 1) <==> CheckThrough(x, s, k - 1).Ok?
    ensures k == 0 ==> CheckThrough(x, s, k - 1).Ok?
    ensures STAGES == 8
  {
    IndexOfStage(k);
    hide RunFrom, IndexOf, CheckStage, STAGE_ORDER;
  }

  /** What holds of a run of `run_curriculum` from any start stage, whatever its executor does. */
  lemma {:induction false} CurriculumEndsWell(x: Experiment, e: Executor, k: StageIndex, s: Store)
    ensures match RunCurriculumSpec(x, e, STAGE_ORDER[k], s)
            case Err(error) => k > 0 && CheckThrough(x, s, k - 1) == Err(error)
            case Ok(run) => WellEnded(x, k, run) && Validated(x, k, run)
  {
    StartFrom(x, e, k, s);
    hide *;
    if CheckThrough(x, s, k - 1).Ok? {
      ValidIsReadable(x, s, k);
      ValidIsContinuable(x, s, k);
      EveryRunEndsWell(x, e, k, s);
      EveryRequestIsValidated(x, e, k, s);
    }
  }

  /** What holds in addition of executors whose promoted stages keep their checkpoints out of the way. */
  lemma {:induction false} CurriculumIsSafe(x: Experiment, e: Executor, k: StageIndex, s: Store)
    requires Tidy(x, e) && HousedBelow(x, s, k)
    ensures match RunCurriculumSpec(x, e, STAGE_ORDER[k], s)
            case Err(error) => k > 0 && CheckThrough(x, s, k - 1) == Err(error)
            case Ok(run) => WellEnded(x, k, run) && ChainKept(x, k, run)
  {
    StartFrom(x, e, k, s);
    hide *;
    if CheckThrough(x, s, k - 1).Ok? {
      ValidIsReadable(x, s, k);
      EveryRunEndsWell(x, e, k, s);
      EveryRunKeepsChain(x, e, k, s);
    }
  }

  // ---- Exactly when a stopped stage cannot hurt its parents ----

  /** No accepted checkpoint lies where stage k or the state file is written. */
  ghost predicate Clear(x: Experiment, s: Store, k: StageIndex) {
    forall i: StageIndex :: i < k && FinalCheckpoint(x, s, i).Some? ==>
      !Under(RunDir(x, k), FinalCheckpoint(x, s, i).value) && FinalCheckpoint(x, s, i).value != StatePath(x)
  }

  lemma {:induction false} ClearKeepsChain(x: Experiment, e: Executor, s: Store, k: StageIndex)
    requires ValidThrough(x, s, k - 1) && Clear(x, s, k) && StageStep(x, e, k, s).Stop?
    ensures ValidThrough(x, StageStep(x, e, k, s).store, k - 1)
  {
    var t := StageStep(x, e, k, s).store;
    StopIsOnlyStage(x, e, s, k);
    hide StageStep, FinalCheckpoint, RunDir, StatePath, CheckThrough;
    forall i: StageIndex | i < k ensures SameFiles(x, s, t, i) {
      ManifestSurvives(x, s, t, k, i);
    }
    ThroughUnchanged(x, s, t, k, k - 1);
  }

  lemma {:induction false} StopIsOnlyStage(x: Experiment, e: Executor, s: Store, k: StageIndex)
    requires ValidThrough(x, s, k - 1) && StageStep(x, e, k, s).Stop?
    ensures OnlyStage(x, s, StageStep(x, e, k, s).store, k)
  {
    hide *;
    StageCount();
    ValidIsReadable(x, s, k);
    StepShape(x, e, k, s);
    ExecuteOnlyStage(x, e, k, s, StageStep(x, e, k, s).exit.state);
  }

  lemma {:induction false} ManifestSurvives(x: Experiment, s: Store, t: Store, k: StageIndex, i: StageIndex)
    requires OnlyStage(x, s, t, k) && i < k
    ensures Agree(s, t, ManifestPath(x, i)) && FinalCheckpoint(x, s, i) == FinalCheckpoint(x, t, i)
  {
    ManifestInside(x, i);
    if Under(RunDir(x, k), ManifestPath(x, i)) {
      RunDirsDisjoint(x, i, k, ManifestPath(x, i));
    }
  }

  /** An executor that raises and one that reports failure; both leave nothing. */
  function Raising(): Executor {
    (r: Request, s: Store) => Effect(Raised, map[])
  }

  function Refusing(): Executor {
    (r: Request, s: Store) => Effect(Returned(false), map[])
  }

  /** What the driver leaves after such a stage. */
  function AfterStop(x: Experiment, s: Store, k: StageIndex, rollback: Option<Path>, reason: Reason): Store {
    Persist(x, ReplaceBelow(s, RunDir(x, k), map[]), StoppedState(k, rollback, reason))
  }

  lemma {:induction false} EmptyHandedStops(x: Experiment, s: Store, k: StageIndex)
    requires Readable(x, s, k)
    ensures var c := AcceptedCheckpoint(x, s, k).value;
            StageStep(x, Raising(), k, s) ==
              Stop(Exited(StoppedState(k, c, ExecutorRaised)), AfterStop(x, s, k, c, ExecutorRaised)) &&
            StageStep(x, Refusing(), k, s) ==
              Stop(Exited(StoppedState(k, c, NotPromoted)), AfterStop(x, s, k, c, NotPromoted))
  {
    StepShape(x, Raising(), k, s);
    StepShape(x, Refusing(), k, s);
    hide StageStep, RequestFor, AcceptedCheckpoint, Persist, StoppedState, CheckThrough, ReplaceBelow;
  }

  /** A checkpoint in the way can be lost: by a stage that leaves nothing, or by one of two state files. */
  lemma {:induction false} UnclearCanBreak(x: Experiment, s: Store, k: StageIndex)
    requires Injective(x.hash) && ValidThrough(x, s, k - 1) && !Clear(x, s, k)
    ensures exists e :: StageStep(x, e, k, s).Stop? && !ValidThrough(x, StageStep(x, e, k, s).store, k - 1)
  {
    var i: StageIndex :| i < k && FinalCheckpoint(x, s, i).Some? &&
      (Under(RunDir(x, k), FinalCheckpoint(x, s, i).value) || FinalCheckpoint(x, s, i).value == StatePath(x));
    ValidIsReadable(x, s, k);
    EmptyHandedStops(x, s, k);
    hide StageStep, Raising, Refusing, CheckThrough, AfterStop;
    StopIsOnlyStage(x, Raising(), s, k);
    StopIsOnlyStage(x, Refusing(), s, k);
    NotBothValid(x, s, k, i, AcceptedCheckpoint(x, s, k).value);
    assert StageStep(x, Raising(), k, s).Stop? && StageStep(x, Refusing(), k, s).Stop?;
  }

  lemma {:induction false} DifferentStateFiles(x: Experiment, s: Store, k: StageIndex, c: Option<Path>)
    ensures AfterStop(x, s, k, c, ExecutorRaised)[StatePath(x)] != AfterStop(x, s, k, c, NotPromoted)[StatePath(x)]
  {
    var a, b := StateDocument(StoppedState(k, c, ExecutorRaised)), StateDocument(StoppedState(k, c, NotPromoted));
    assert a["reason"] != b["reason"];
  }

  lemma {:induction false} StillThere(x: Experiment, s: Store, t: Store, k: StageIndex, i: StageIndex)
    requires OnlyStage(x, s, t, k) && i < k && ValidThrough(x, s, k - 1) && ValidThrough(x, t, k - 1)
    ensures FinalCheckpoint(x, s, i).Some? && FinalCheckpoint(x, s, i).value in t
    ensures Get(DocAt(x, s, i), "final_checkpoint_sha256") == Text(x.hash(t[FinalCheckpoint(x, s, i).value]))
  {
    hide CheckThrough, CheckStage, ValidThrough, FinalCheckpoint, STAGE_ORDER, RunDir, ManifestPath, OnlyStage;
    ManifestSurvives(x, s, t, k, i);
    PrefixValid(x, s, i, k - 1);
    PrefixValid(x, t, i, k - 1);
    StageFacts(x, s, i);
    StageFacts(x, t, i);
  }

  /** The two stops cannot both leave a valid chain: a checkpoint in the way would be the state file, with the same
      content both times. */
  lemma {:induction false} NotBothValid(x: Experiment, s: Store, k: StageIndex, i: StageIndex, c: Option<Path>)
    requires Injective(x.hash) && i < k && FinalCheckpoint(x, s, i).Some? && ValidThrough(x, s, k - 1)
    requires
      var p := FinalCheckpoint(x, s, i).value;
      Under(RunDir(x, k), p) || p == StatePath(x)
    requires OnlyStage(x, s, AfterStop(x, s, k, c, ExecutorRaised), k)
    requires OnlyStage(x, s, AfterStop(x, s, k, c, NotPromoted), k)
    ensures !ValidThrough(x, AfterStop(x, s, k, c, ExecutorRaised), k - 1) ||
            !ValidThrough(x, AfterStop(x, s, k, c, NotPromoted), k - 1)
  {
    hide CheckThrough, ValidThrough, FinalCheckpoint, DocAt, StateDocument, RunDir, OnlyStage;
    var a, b := AfterStop(x, s, k, c, ExecutorRaised), AfterStop(x, s, k, c, NotPromoted);
    StateOutside(x, k);
    DifferentStateFiles(x, s, k, c);
    if ValidThrough(x, a, k - 1) && ValidThrough(x, b, k - 1) {
      StillThere(x, s, a, k, i);
      StillThere(x, s, b, k, i);
      SameDigest(x, a[FinalCheckpoint(x, s, i).value], b[FinalCheckpoint(x, s, i).value]);
    }
  }

  /** Main result: whatever the executor does in stage k, a stop leaves the chain below valid, exactly when no accepted
      checkpoint lies in the run directory of stage k or is the state file itself. */
  lemma {:induction false} RollbackSafeExactlyWhenClear(x: Experiment, s: Store, k: StageIndex)
    requires Injective(x.hash) && ValidThrough(x, s, k - 1)
    ensures Clear(x, s, k) <==>
            forall e :: StageStep(x, e, k, s).Stop? ==> ValidThrough(x, StageStep(x, e, k, s).store, k - 1)
  {
    hide StageStep, Clear, ValidThrough;
    if Clear(x, s, k) {
      forall e | StageStep(x, e, k, s).Stop? ensures ValidThrough(x, StageStep(x, e, k, s).store, k - 1) {
        ClearKeepsChain(x, e, s, k);
      }
    } else {
      UnclearCanBreak(x, s, k);
    }
  }

  /** The checkpoint of the first stage, published in the run directory of the next one. */
  function MisplacedCheckpoint(x: Experiment): Path {
    Join(RunDir(x, 1), "model.pt")
  }

  /** A chain of one stage with such a checkpoint. */
  function MisplacedChain(x: Experiment): Store {
    map[
      MisplacedCheckpoint(x) := Raw([]),
      ManifestPath(x, 0) := Json(map[
        "stage" := Text("L0-C0"), "accepted" := Bool(true),
        "final_checkpoint" := Text(MisplacedCheckpoint(x)), "final_checkpoint_sha256" := Text(x.hash(Raw([])))])]
  }

  lemma {:induction false} MisplacedChainIsValid(x: Experiment)
    requires Absolute(x.root)
    ensures ValidThrough(x, MisplacedChain(x), 0) &&
            FinalCheckpoint(x, MisplacedChain(x), 0) == Some(MisplacedCheckpoint(x))
  {
    var s, p := MisplacedChain(x), MisplacedCheckpoint(x);
    JoinUnder(RunDir(x, 1), "model.pt");
    StageOrderFacts(0, 1);
    ManifestInside(x, 0);
    assert p != ManifestPath(x, 0);
    assert Absolute(p);
    assert CheckThrough(x, s, 0) == CheckStage(x, s, 0);
  }

  /** So a rollback is not always safe: there the driver is admitted at the second stage, stops in it, and reports a
      rollback checkpoint that is gone; the chain it should fall back on no longer validates. */
  lemma {:induction false} MisplacedCheckpointCanBreak(x: Experiment)
    requires Absolute(x.root)
    ensures var r := RunCurriculumSpec(x, Raising(), STAGE_ORDER[1], MisplacedChain(x));
            r.Ok? && r.value.exit == Exited(StoppedState(1, Some(MisplacedCheckpoint(x)), ExecutorRaised)) &&
            MisplacedCheckpoint(x) !in r.value.store && !ValidThrough(x, r.value.store, 0)
  {
    var s, p := MisplacedChain(x), MisplacedCheckpoint(x);
    MisplacedChainIsValid(x);
    JoinUnder(RunDir(x, 1), "model.pt");
    StateOutside(x, 1);
    IndexOfStage(1);
    hide MisplacedChain, MisplacedCheckpoint, RunDir, CheckThrough, RunFrom, StageStep, FinalCheckpoint, IndexOf,
         STAGE_ORDER, Raising, StoppedState,
         StatePath, AcceptedCheckpoint;
    ValidIsReadable(x, s, 1);
    EmptyHandedStops(x, s, 1);
    RunFromStep(x, Raising(), 1, s);
    var t := StageStep(x, Raising(), 1, s).store;
    assert p !in t;
    if ValidThrough(x, t, 0) {
      StopIsOnlyStage(x, Raising(), s, 1);
      StillThere(x, s, t, 1, 0);
    }
  }
}
