/** An interrupted curriculum run, continued at the stage that stopped it, does what an uninterrupted one does, if that
    stage does on the files it finds what it would have done on those it began with. */
module Interruption {
  import opened Common
  import opened FileStores
  import opened Lineage
  import opened Curriculum
  import opened Rollback

  /** A stage that reports success names a checkpoint out of the way of the others, if any, whether it is promoted or
      not. */
  ghost predicate Neat(x: Experiment, e: Executor) {
    forall k: StageIndex, s :: e(RequestFor(x, k), s).outcome == Returned(true) ==> Housed(x, Execute(x, e, k, s), k)
  }

  lemma {:induction false} NeatIsTidy(x: Experiment, e: Executor)
    requires Neat(x, e)
    ensures Tidy(x, e)
  {
    hide Housed, Execute, CheckThrough;
  }

  lemma {:induction false} NeatHoused(x: Experiment, e: Executor, k: StageIndex, s: Store)
    requires Neat(x, e) && e(RequestFor(x, k), s).outcome == Returned(true)
    ensures Housed(x, Execute(x, e, k, s), k)
  {
  }

  function Requests(issued: seq<Issue>): (r: seq<Request>)
    ensures |r| == |issued| && forall i :: 0 <= i < |r| ==> r[i] == issued[i].request
  {
    seq(|issued|, i requires 0 <= i < |issued| => issued[i].request)
  }

  /** Same exit, same final store, same requests. */
  ghost predicate SameRun(a: Run, b: Run) {
    a.exit == b.exit && a.store == b.store && Requests(a.issued) == Requests(b.issued)
  }

  // ---- The same effect in two stores ----

  lemma PersistForgetsState(x: Experiment, s: Store, t: Store, st: CurriculumState)
    requires OnlyState(x, s, t)
    ensures Persist(x, s, st) == Persist(x, t, st)
  {
    var a, b := Persist(x, s, st), Persist(x, t, st);
    forall p ensures Agree(a, b, p) {
      if p != StatePath(x) {
        assert Agree(s, t, p);
      }
    }
    assert a.Keys == b.Keys by {
      forall p ensures p in a.Keys <==> p in b.Keys {
        assert Agree(a, b, p);
      }
    }
    forall p | p in a ensures a[p] == b[p] {
      assert Agree(a, b, p);
    }
  }

  /** The stage ran in two stores, with the same effect and the same validation. */
  ghost predicate Parallel(x: Experiment, e: Executor, k: StageIndex, s: Store, t: Store) {
    var after, after' := Execute(x, e, k, s), Execute(x, e, k, t);
    && e(RequestFor(x, k), s) == e(RequestFor(x, k), t)
    && OnlyState(x, after, after') && AcceptedCheckpoint(x, after, k) == AcceptedCheckpoint(x, after', k)
    && (e(RequestFor(x, k), s).outcome == Returned(true) ==>
          CheckThrough(x, after, k) == CheckThrough(x, after', k) &&
          AcceptedCheckpoint(x, after, k + 1) == AcceptedCheckpoint(x, after', k + 1))
  }

  lemma {:induction false} ParallelParts(x: Experiment, e: Executor, k: StageIndex, s: Store, t: Store)
    requires e(RequestFor(x, k), s) == e(RequestFor(x, k), t) && OnlyState(x, Execute(x, e, k, s), Execute(x, e, k, t))
    requires AcceptedCheckpoint(x, Execute(x, e, k, s), k) == AcceptedCheckpoint(x, Execute(x, e, k, t), k)
    requires e(RequestFor(x, k), s).outcome == Returned(true) ==>
               CheckThrough(x, Execute(x, e, k, s), k) == CheckThrough(x, Execute(x, e, k, t), k) &&
               AcceptedCheckpoint(x, Execute(x, e, k, s), k + 1) == AcceptedCheckpoint(x, Execute(x, e, k, t), k + 1)
    ensures Parallel(x, e, k, s, t)
  {
    hide OnlyState, Execute, CheckThrough, AcceptedCheckpoint, RequestFor;
  }

  /** Stores that differ only where stage k and the driver write are alike after a stage with the same effect. */
  lemma SameEffectSameFiles(x: Experiment, e: Executor, k: StageIndex, s: Store, t: Store)
    requires OnlyStage(x, s, t, k) && e(RequestFor(x, k), s) == e(RequestFor(x, k), t)
    ensures OnlyState(x, Execute(x, e, k, s), Execute(x, e, k, t))
  {
    hide RequestFor, RunDir, StatePath;
    forall p | p != StatePath(x) ensures Agree(Execute(x, e, k, s), Execute(x, e, k, t), p) {
      if !Under(RunDir(x, k), p) {
        assert Agree(s, t, p);
      }
    }
  }

  lemma {:induction false} SameEffectIsParallel(x: Experiment, e: Executor, k: StageIndex, s: Store, t: Store)
    requires Neat(x, e) && OnlyStage(x, s, t, k) && e(RequestFor(x, k), s) == e(RequestFor(x, k), t) &&
             HousedBelow(x, s, k)
    ensures Parallel(x, e, k, s, t)
  {
    hide *;
    StageCount();
    var after, after' := Execute(x, e, k, s), Execute(x, e, k, t);
    SameEffectSameFiles(x, e, k, s, t);
    ExecuteOnlyStage(x, e, k, s, RunningState(k, None));
    StageKeepsParents(x, s, after, k);
    StateKeepsChain(x, after, after', k);
    if e(RequestFor(x, k), s).outcome == Returned(true) {
      NeatHoused(x, e, k, s);
      ExtendHoused(x, after, k);
      StateKeepsChain(x, after, after', k + 1);
    }
    ParallelParts(x, e, k, s, t);
  }

  lemma ExecuteReadable(x: Experiment, e: Executor, k: StageIndex, s: Store)
    requires ValidThrough(x, s, k - 1)
    ensures AcceptedCheckpoint(x, Execute(x, e, k, s), k).Some?
    ensures Verdict(x, e, k, s).None? ==> AcceptedCheckpoint(x, Execute(x, e, k, s), k + 1).Some?
  {
    hide *;
    StageCount();
    ValidIsReadable(x, s, k);
    ExecuteOnlyStage(x, e, k, s, RunningState(k, None));
    ReadableKept(x, s, Execute(x, e, k, s), k, k);
    if Verdict(x, e, k, s).None? {
      PromotedIsValid(x, e, k, s);
      ValidIsReadable(x, Execute(x, e, k, s), k + 1);
    }
  }

  lemma PromotedIsValid(x: Experiment, e: Executor, k: StageIndex, s: Store)
    requires Verdict(x, e, k, s).None?
    ensures ValidThrough(x, Execute(x, e, k, s), k)
  {
  }

  lemma {:induction false} StepFromParts(x: Experiment, e: Executor, k: StageIndex, s: Store, t: Store)
    requires Parallel(x, e, k, s, t)
    requires AcceptedCheckpoint(x, Execute(x, e, k, s), k).Some?
    requires Verdict(x, e, k, s).None? ==> AcceptedCheckpoint(x, Execute(x, e, k, s), k + 1).Some?
    ensures StageStep(x, e, k, s) == StageStep(x, e, k, t)
  {
    hide Execute, CheckThrough, AcceptedCheckpoint, Persist, OnlyState, RequestFor, StoppedState, RunningState;
    var after, after' := Execute(x, e, k, s), Execute(x, e, k, t);
    assert Verdict(x, e, k, s) == Verdict(x, e, k, t);
    match Verdict(x, e, k, s)
    case Some(reason) =>
      PersistForgetsState(x, after, after', StoppedState(k, AcceptedCheckpoint(x, after, k).value, reason));
    case None =>
      PersistForgetsState(x, after, after', RunningState(k, AcceptedCheckpoint(x, after, k + 1).value));
  }

  /** A stage with the same effect leads to the same place. */
  lemma {:induction false} SameEffectSameStep(x: Experiment, e: Executor, k: StageIndex, s: Store, t: Store)
    requires Neat(x, e) && OnlyStage(x, s, t, k) && e(RequestFor(x, k), s) == e(RequestFor(x, k), t)
    requires HousedBelow(x, s, k) && ValidThrough(x, s, k - 1)
    ensures StageStep(x, e, k, s) == StageStep(x, e, k, t)
  {
    hide *;
    StageCount();
    SameEffectIsParallel(x, e, k, s, t);
    ExecuteReadable(x, e, k, s);
    StepFromParts(x, e, k, s, t);
  }

  lemma {:induction false} SameStepSameRun(x: Experiment, e: Executor, k: StageIndex, s: Store, t: Store)
    requires StageStep(x, e, k, s) == StageStep(x, e, k, t)
    ensures SameRun(RunFrom(x, e, k, s), RunFrom(x, e, k, t))
  {
    hide RunFrom, StageStep, RequestFor, Requests;
    RunFromStep(x, e, k, s);
    RunFromStep(x, e, k, t);
    match StageStep(x, e, k, s)
    case Stop(_, _) =>
      RequestsPrepend(Issue(RequestFor(x, k), s), []);
      RequestsPrepend(Issue(RequestFor(x, k), t), []);
    case Continue(next) =>
      RequestsPrepend(Issue(RequestFor(x, k), s), RunFrom(x, e, k + 1, next).issued);
      RequestsPrepend(Issue(RequestFor(x, k), t), RunFrom(x, e, k + 1, next).issued);
  }

  // ---- A different state file makes no difference ----

  /** The executor does not look at the driver's state file. It may hash the checkpoints recorded by earlier stages, as
      long as these are out of the way. */
  ghost predicate IgnoresState(x: Experiment, e: Executor) {
    forall k: StageIndex, s, t :: OnlyState(x, s, t) && HousedBelow(x, s, k) ==>
      e(RequestFor(x, k), s) == e(RequestFor(x, k), t)
  }

  lemma {:induction false} IgnoresStateMeans(x: Experiment, e: Executor, k: StageIndex, s: Store, t: Store)
    requires IgnoresState(x, e) && OnlyState(x, s, t) && HousedBelow(x, s, k)
    ensures e(RequestFor(x, k), s) == e(RequestFor(x, k), t) && OnlyStage(x, s, t, k)
  {
    hide HousedBelow, RequestFor, RunDir;
  }

  lemma {:induction false} RunIgnoresState(x: Experiment, e: Executor, k: int, s: Store, t: Store)
    requires 0 <= k <= STAGES
    requires Neat(x, e) && IgnoresState(x, e) && OnlyState(x, s, t)
    requires HousedBelow(x, s, k) && ValidThrough(x, s, k - 1)
    ensures SameRun(RunFrom(x, e, k, s), RunFrom(x, e, k, t))
  {
    hide *;
    StageCount();
    if k == STAGES {
      ValidIsReadable(x, s, k);
      StateKeepsChain(x, s, t, k);
      RunFromEnd(x, e, s);
      RunFromEnd(x, e, t);
      FinishIgnoresState(x, s, t);
    } else {
      IgnoresStateMeans(x, e, k, s, t);
      SameEffectSameStep(x, e, k, s, t);
      SameStepSameRun(x, e, k, s, t);
    }
  }

  lemma FinishIgnoresState(x: Experiment, s: Store, t: Store)
    requires OnlyState(x, s, t) && AcceptedCheckpoint(x, s, STAGES) == AcceptedCheckpoint(x, t, STAGES)
    requires Readable(x, s, STAGES)
    ensures SameRun(Finish(x, s), Finish(x, t))
  {
    PersistForgetsState(x, s, t, AcceptedState(AcceptedCheckpoint(x, s, STAGES).value));
  }

  // ---- Interruption ----

  /** The interrupted run stopped at stage j. */
  ghost predicate StoppedAt(run: Run, j: int) {
    run.exit.Exited? && run.exit.state.status == "stopped" && |run.exit.state.completedStages| == j
  }

  lemma ContinueOnlyStage(x: Experiment, e: Executor, k: StageIndex, s: Store)
    requires Readable(x, s, k) && StageStep(x, e, k, s).Continue?
    ensures OnlyStage(x, s, StageStep(x, e, k, s).store, k)
  {
    hide StageStep, Execute, Verdict, Readable, ValidThrough, AcceptedCheckpoint;
    StepShape(x, e, k, s);
    var after, next := Execute(x, e, k, s), StageStep(x, e, k, s).store;
    ExecuteOnlyStage(x, e, k, s, RunningState(k, None));
    forall p | !Under(RunDir(x, k), p) && p != StatePath(x) ensures Agree(s, next, p) {
      assert Agree(s, after, p) && Agree(after, next, p);
    }
  }

  /** The executors did the same at every request but the last. */
  ghost predicate SameBefore(e: Executor, e': Executor, issued: seq<Issue>) {
    forall i :: 0 <= i < |issued| - 1 ==>
      e(issued[i].request, issued[i].store) == e'(issued[i].request, issued[i].store)
  }

  /** The store the last stage of a run began with. */
  function LastBegin(run: Run): Store {
    if run.issued == [] then run.store else run.issued[|run.issued| - 1].store
  }

  /** A run of e' from a valid chain stopped at stage j, and e would have done the same before. */
  ghost predicate Interrupted(x: Experiment, e': Executor, e: Executor, k: int, j: StageIndex, s: Store) {
    && 0 <= k <= j && HousedBelow(x, s, k) && ValidThrough(x, s, k - 1)
    && StoppedAt(RunFrom(x, e', k, s), j) && SameBefore(e, e', RunFrom(x, e', k, s).issued)
  }

  lemma {:induction false} InterruptedIs(x: Experiment, e': Executor, e: Executor, k: int, j: StageIndex, s: Store)
    ensures Interrupted(x, e', e, k, j, s) <==>
            0 <= k <= j && HousedBelow(x, s, k) && ValidThrough(x, s, k - 1) &&
            StoppedAt(RunFrom(x, e', k, s), j) && SameBefore(e, e', RunFrom(x, e', k, s).issued)
  {
    hide HousedBelow, RunFrom, SameBefore, StoppedAt, ValidThrough;
  }

  /** A run that stops in its first stage. */
  lemma {:induction false} StopsHere(x: Experiment, e': Executor, e: Executor, j: StageIndex, s: Store)
    requires Interrupted(x, e', e, j, j, s)
    ensures StageStep(x, e', j, s).Stop? && OnlyStage(x, s, StageStep(x, e', j, s).store, j)
    ensures var run := RunFrom(x, e', j, s);
            |run.issued| == 1 && LastBegin(run) == s && run.store == StageStep(x, e', j, s).store
  {
    hide *;
    StageCount();
    InterruptedIs(x, e', e, j, j, s);
    ValidIsReadable(x, s, j);
    FirstStep(x, e', j, j, s);
    StopIsOnlyStage(x, e', s, j);
    RunFromStep(x, e', j, s);
    var run := RunFrom(x, e', j, s);
    BeginOf(run, Issue(RequestFor(x, j), s), Run(run.exit, run.store, []));
  }

  lemma {:induction false} BeginOf(run: Run, issue: Issue, rest: Run)
    requires run.issued == [issue] + rest.issued
    ensures LastBegin(run) == if rest.issued == [] then issue.store else LastBegin(rest)
  {
  }

  lemma {:induction false} SameEffectHere(x: Experiment, e: Executor, e': Executor, k: StageIndex, s: Store)
    requires e(RequestFor(x, k), s) == e'(RequestFor(x, k), s)
    ensures StageStep(x, e, k, s) == StageStep(x, e', k, s)
  {
    hide CheckThrough, AcceptedCheckpoint, Persist, RequestFor;
  }

  lemma {:induction false} SameBeforeTail(e: Executor, e': Executor, issue: Issue, rest: seq<Issue>)
    requires SameBefore(e, e', [issue] + rest) && rest != []
    ensures e(issue.request, issue.store) == e'(issue.request, issue.store) && SameBefore(e, e', rest)
  {
    var all := [issue] + rest;
    assert all[0] == issue;
    forall i | 0 <= i < |rest| - 1 ensures e(rest[i].request, rest[i].store) == e'(rest[i].request, rest[i].store) {
      assert all[i + 1] == rest[i];
    }
  }

  lemma {:induction false} StoppedIssues(x: Experiment, e: Executor, k: int, j: StageIndex, s: Store)
    requires 0 <= k <= j && Readable(x, s, k) && StoppedAt(RunFrom(x, e, k, s), j)
    ensures RunFrom(x, e, k, s).issued != []
  {
    hide RunFrom, Readable;
    EveryRunEndsWell(x, e, k, s);
  }

  /** A run that stops at a later stage completes this one, and the situation is the same one stage on. */
  lemma {:induction false} StopsLater(x: Experiment, e': Executor, e: Executor, k: StageIndex, j: StageIndex, s: Store)
    requires k < j && Neat(x, e) && Interrupted(x, e', e, k, j, s)
    ensures StageStep(x, e', k, s).Continue? && StageStep(x, e, k, s) == StageStep(x, e', k, s)
    ensures var rest := RunFrom(x, e', k + 1, StageStep(x, e', k, s).store);
            RunFrom(x, e', k, s) == Run(rest.exit, rest.store, [Issue(RequestFor(x, k), s)] + rest.issued) &&
            LastBegin(RunFrom(x, e', k, s)) == LastBegin(rest)
    ensures Interrupted(x, e', e, k + 1, j, StageStep(x, e', k, s).store)
  {
    hide *;
    StageCount();
    InterruptedIs(x, e', e, k, j, s);
    ValidIsReadable(x, s, k);
    FirstStep(x, e', k, j, s);
    RunFromStep(x, e', k, s);
    var issue, rest := Issue(RequestFor(x, k), s), RunFrom(x, e', k + 1, StageStep(x, e', k, s).store);
    StepShape(x, e', k, s);
    StoppedIssues(x, e', k + 1, j, StageStep(x, e', k, s).store);
    SameBeforeTail(e, e', issue, rest.issued);
    BeginOf(RunFrom(x, e', k, s), issue, rest);
    SameEffectHere(x, e, e', k, s);
    NeatIsTidy(x, e);
    StepKeepsChain(x, e, k, s);
    InterruptedIs(x, e', e, k + 1, j, StageStep(x, e', k, s).store);
  }

  /** A run that stops at stage j goes on exactly when it is not yet there. */
  lemma FirstStep(x: Experiment, e: Executor, k: StageIndex, j: StageIndex, s: Store)
    requires k <= j && Readable(x, s, k) && StoppedAt(RunFrom(x, e, k, s), j)
    ensures k == j <==> StageStep(x, e, k, s).Stop?
    ensures k < j ==>
            var rest := RunFrom(x, e, k + 1, StageStep(x, e, k, s).store);
            StoppedAt(rest, j) && rest.store == RunFrom(x, e, k, s).store
  {
    hide RunFrom, StageStep, RequestFor, Readable, Execute, Verdict, AcceptedCheckpoint, Persist, ValidThrough;
    StepShape(x, e, k, s);
    RunFromStep(x, e, k, s);
    if StageStep(x, e, k, s).Continue? {
      EveryRunEndsWell(x, e, k + 1, StageStep(x, e, k, s).store);
    }
  }

  /** The stage that stopped the run began behind a valid chain, and nothing but what it and the driver write changed
      since. */
  lemma {:induction false} LastStage(x: Experiment, e': Executor, e: Executor, k: int, j: StageIndex, s: Store)
    requires Neat(x, e) && Interrupted(x, e', e, k, j, s)
    ensures var run := RunFrom(x, e', k, s); var begin := LastBegin(run);
            HousedBelow(x, begin, j) && ValidThrough(x, begin, j - 1) && OnlyStage(x, begin, run.store, j) &&
            StageStep(x, e', j, begin).Stop? && StageStep(x, e', j, begin).store == run.store
    decreases j - k
  {
    hide *;
    StageCount();
    InterruptedIs(x, e', e, k, j, s);
    if k == j {
      StopsHere(x, e', e, j, s);
    } else {
      StopsLater(x, e', e, k, j, s);
      LastStage(x, e', e, k + 1, j, StageStep(x, e', k, s).store);
    }
  }

  /** The whole run ends as the continuation does, and its requests are the first n of the interrupted run,
      the stopped one aside, and then those of the continuation. */
  ghost predicate Joined(whole: Run, interrupted: Run, rest: Run, n: nat) {
    && whole.exit == rest.exit && whole.store == rest.store
    && |interrupted.issued| == n + 1
    && Requests(whole.issued) == Requests(interrupted.issued)[..n] + Requests(rest.issued)
  }

  /** What continuing the interrupted run at stage j achieves. */
  ghost predicate Harmless(x: Experiment, e: Executor, k: int, j: StageIndex, s: Store, interrupted: Run, now: Store) {
    0 <= k <= j && ValidThrough(x, now, j - 1) &&
    Joined(RunFrom(x, e, k, s), interrupted, RunFrom(x, e, j, now), j - k)
  }

  lemma OnlyStageTransitive(x: Experiment, s: Store, t: Store, u: Store, k: StageIndex)
    requires OnlyStage(x, s, t, k) && OnlyStage(x, t, u, k)
    ensures OnlyStage(x, s, u, k)
  {
    hide RunDir, StatePath, Under;
    forall p | !Under(RunDir(x, k), p) && p != StatePath(x) ensures Agree(s, u, p) {
      assert Agree(s, t, p) && Agree(t, u, p);
    }
  }

  lemma {:induction false} HarmlessAtOnce(x: Experiment, e: Executor, j: StageIndex, s: Store, interrupted: Run,
                                          now: Store)
    requires ValidThrough(x, now, j - 1) && |interrupted.issued| == 1 &&
             SameRun(RunFrom(x, e, j, s), RunFrom(x, e, j, now))
    ensures Harmless(x, e, j, j, s, interrupted, now)
  {
    hide RunFrom, ValidThrough, Requests;
    var rest := Requests(RunFrom(x, e, j, now).issued);
    assert Requests(interrupted.issued)[..0] + rest == rest;
  }

  /** A first stage that both runs complete in the same way. */
  lemma HarmlessPrepend(x: Experiment, e: Executor, k: StageIndex, j: StageIndex, s: Store, issue: Issue, next: Store,
                        part: Run, now: Store)
    requires k < j && Harmless(x, e, k + 1, j, next, part, now)
    requires ghost var rest := RunFrom(x, e, k + 1, next);
             RunFrom(x, e, k, s) == Run(rest.exit, rest.store, [issue] + rest.issued)
    ensures Harmless(x, e, k, j, s, Run(part.exit, part.store, [issue] + part.issued), now)
  {
    hide RunFrom, ValidThrough, Joined;
    JoinedPrepend(issue, RunFrom(x, e, k + 1, next), part, RunFrom(x, e, j, now), j - k - 1);
  }

  lemma JoinedPrepend(issue: Issue, whole: Run, part: Run, rest: Run, n: nat)
    requires Joined(whole, part, rest, n)
    ensures Joined(Run(whole.exit, whole.store, [issue] + whole.issued),
                   Run(part.exit, part.store, [issue] + part.issued), rest, n + 1)
  {
    hide Requests;
    RequestsPrepend(issue, part.issued);
    RequestsPrepend(issue, whole.issued);
    PrependTake(issue.request, Requests(part.issued), n);
  }

  lemma RequestsPrepend(issue: Issue, issued: seq<Issue>)
    ensures Requests([issue] + issued) == [issue.request] + Requests(issued)
  {
  }

  lemma PrependTake(r: Request, rs: seq<Request>, n: nat)
    requires n <= |rs|
    ensures ([r] + rs)[..n + 1] == [r] + rs[..n]
  {
  }

  /** Main result: interruption is harmless. A run that stopped at stage j, continued at j in a store that differs from
      what it left only where stage j and the driver write, is admitted, issues the same later requests, ends in the
      same state and leaves the same files as one uninterrupted run, if stage j does there what it would have done where
      it began. */
  lemma {:induction false} InterruptionIsHarmless(x: Experiment, e': Executor, e: Executor, k: int, j: StageIndex,
                                                  s: Store, now: Store)
    requires Neat(x, e) && Interrupted(x, e', e, k, j, s) && OnlyStage(x, RunFrom(x, e', k, s).store, now, j)
    requires e(RequestFor(x, j), now) == e(RequestFor(x, j), LastBegin(RunFrom(x, e', k, s)))
    ensures Harmless(x, e, k, j, s, RunFrom(x, e', k, s), now)
    decreases j - k
  {
    hide *;
    StageCount();
    InterruptedIs(x, e', e, k, j, s);
    if k == j {
      StopsHere(x, e', e, j, s);
      OnlyStageTransitive(x, s, RunFrom(x, e', j, s).store, now, j);
      StageKeepsParents(x, s, now, j);
      ValidUnchanged(x, s, now, j, j - 1);
      SameEffectSameStep(x, e, j, s, now);
      SameStepSameRun(x, e, j, s, now);
      HarmlessAtOnce(x, e, j, s, RunFrom(x, e', j, s), now);
    } else {
      StopsLater(x, e', e, k, j, s);
      var next, issue := StageStep(x, e', k, s).store, Issue(RequestFor(x, k), s);
      InterruptionIsHarmless(x, e', e, k + 1, j, next, now);
      RunFromStep(x, e, k, s);
      HarmlessPrepend(x, e, k, j, s, issue, next, RunFrom(x, e', k + 1, next), now);
    }
  }

  // ---- When a stage does again what it would have done ----

  /** Stage j goes over whatever it finds in its run directory. */
  ghost predicate Heedless(x: Experiment, e: Executor, j: StageIndex) {
    forall s, t :: OnlyStage(x, s, t, j) && HousedBelow(x, s, j) ==> e(RequestFor(x, j), s) == e(RequestFor(x, j), t)
  }

  lemma {:induction false} HeedlessMeans(x: Experiment, e: Executor, j: StageIndex, s: Store, t: Store)
    requires Heedless(x, e, j) && OnlyStage(x, s, t, j) && HousedBelow(x, s, j)
    ensures e(RequestFor(x, j), s) == e(RequestFor(x, j), t)
  {
    hide OnlyStage, HousedBelow, RequestFor;
  }

  /** Such a stage may be restarted over what it left, at once or later. */
  lemma {:induction false} HarmlessAsLeft(x: Experiment, e': Executor, e: Executor, k: int, j: StageIndex, s: Store,
                                          now: Store)
    requires Neat(x, e) && Heedless(x, e, j) && Interrupted(x, e', e, k, j, s)
    requires OnlyStage(x, RunFrom(x, e', k, s).store, now, j)
    ensures Harmless(x, e, k, j, s, RunFrom(x, e', k, s), now)
  {
    hide *;
    StageCount();
    InterruptedIs(x, e', e, k, j, s);
    var run := RunFrom(x, e', k, s);
    LastStage(x, e', e, k, j, s);
    OnlyStageTransitive(x, LastBegin(run), run.store, now, j);
    HeedlessMeans(x, e, j, LastBegin(run), now);
    InterruptionIsHarmless(x, e', e, k, j, s, now);
  }

  /** The run directory of stage j is back to what stage j found there; elsewhere is what the run left; the state file
      may be anything. */
  ghost predicate Restored(x: Experiment, j: StageIndex, run: Run, now: Store) {
    forall p :: p != StatePath(x) ==> Agree(now, if Under(RunDir(x, j), p) then LastBegin(run) else run.store, p)
  }

  lemma {:induction false} RestoredMeans(x: Experiment, j: StageIndex, run: Run, now: Store)
    requires Restored(x, j, run, now) && OnlyStage(x, LastBegin(run), run.store, j)
    ensures OnlyStage(x, run.store, now, j) && OnlyState(x, LastBegin(run), now)
  {
    hide RunDir, StatePath, Under, LastBegin;
    forall p | p != StatePath(x)
      ensures Agree(LastBegin(run), now, p) && (!Under(RunDir(x, j), p) ==> Agree(run.store, now, p))
    {
      assert Agree(now, if Under(RunDir(x, j), p) then LastBegin(run) else run.store, p);
    }
  }

  /** Every stage that does not look at the state file may be restarted once its run directory is restored. */
  lemma {:induction false} HarmlessOnceRestored(x: Experiment, e': Executor, e: Executor, k: int, j: StageIndex,
                                                s: Store, now: Store)
    requires Neat(x, e) && IgnoresState(x, e) && Interrupted(x, e', e, k, j, s)
    requires Restored(x, j, RunFrom(x, e', k, s), now)
    ensures Harmless(x, e, k, j, s, RunFrom(x, e', k, s), now)
  {
    hide *;
    StageCount();
    InterruptedIs(x, e', e, k, j, s);
    var run := RunFrom(x, e', k, s);
    LastStage(x, e', e, k, j, s);
    RestoredMeans(x, j, run, now);
    IgnoresStateMeans(x, e, j, LastBegin(run), now);
    InterruptionIsHarmless(x, e', e, k, j, s, now);
  }

  /** The main result, told for `run_curriculum`. */
  lemma {:induction false} ContinuationIsAdmitted(x: Experiment, e': Executor, e: Executor, k: StageIndex,
                                                  j: StageIndex, s: Store, now: Store)
    requires k <= j && Neat(x, e) && HousedBelow(x, s, k) && RunCurriculumSpec(x, e', STAGE_ORDER[k], s).Ok?
    requires var run := RunCurriculumSpec(x, e', STAGE_ORDER[k], s).value;
             StoppedAt(run, j) && SameBefore(e, e', run.issued) && OnlyStage(x, run.store, now, j) &&
             e(RequestFor(x, j), now) == e(RequestFor(x, j), LastBegin(run))
    ensures var whole, rest := RunCurriculumSpec(x, e, STAGE_ORDER[k], s), RunCurriculumSpec(x, e, STAGE_ORDER[j], now);
            whole.Ok? && rest.Ok? &&
            Joined(whole.value, RunCurriculumSpec(x, e', STAGE_ORDER[k], s).value, rest.value, j - k)
  {
    hide *;
    StartFrom(x, e', k, s);
    StartFrom(x, e, k, s);
    StartFrom(x, e, j, now);
    InterruptedIs(x, e', e, k, j, s);
    InterruptionIsHarmless(x, e', e, k, j, s, now);
    HarmlessMeans(x, e, k, j, s, RunFrom(x, e', k, s), now);
  }

  lemma {:induction false} HarmlessMeans(x: Experiment, e: Executor, k: int, j: StageIndex, s: Store, interrupted: Run,
                                         now: Store)
    requires Harmless(x, e, k, j, s, interrupted, now)
    ensures 0 <= k <= j && ValidThrough(x, now, j - 1)
    ensures Joined(RunFrom(x, e, k, s), interrupted, RunFrom(x, e, j, now), j - k)
  {
    hide RunFrom, ValidThrough, Joined;
  }
}
