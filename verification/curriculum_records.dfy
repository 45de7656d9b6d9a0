/** What the driver asks of its executor, writes into its state file and reports on exit, told entry by entry. */
module CurriculumRecords {
  import opened Common
  import opened FileStores
  import opened Lineage
  import opened LineageRecords
  import opened Curriculum
  import opened Rollback

  ghost function StateFile(x: Experiment): Path {
    x.root + "/curriculum_state.json"
  }

  ghost predicate IsText(v: Value, t: Option<string>) {
    match t case None => v == Null case Some(s) => v == Text(s)
  }

  /** The document holds this state, entry by entry, and nothing else. */
  ghost predicate Tells(doc: Document, s: CurriculumState) {
    && doc.Keys == {"status", "completed_stages", "stopped_stage", "rollback_stage", "rollback_checkpoint", "reason"}
    && doc["status"] == Text(s.status) && doc["completed_stages"] == List(s.completedStages)
    && IsText(doc["stopped_stage"], s.stoppedStage) && IsText(doc["rollback_stage"], s.rollbackStage)
    && IsText(doc["rollback_checkpoint"], s.rollbackCheckpoint)
    && (s.reason.None? <==> doc["reason"] == Null)
    && (s.reason == Some(NotPromoted) <==> doc["reason"] == Text("stage process or acceptance failed"))
  }

  ghost predicate OnFile(x: Experiment, files: Store, s: CurriculumState) {
    exists doc :: IsDocument(files, StateFile(x), doc) && Tells(doc, s)
  }

  lemma {:induction false} StateIsTold(s: CurriculumState)
    ensures Tells(StateDocument(s), s)
  {
    if s.reason.Some? {
      var t := ReasonText(s.reason.value);
      assert "executor error"[0] == 'e' && "lineage error"[0] == 'l' && "stage process or acceptance failed"[0] == 's';
    }
  }

  lemma {:induction false} PersistedIsOnFile(x: Experiment, files: Store, s: CurriculumState)
    requires StatePath(x) in files && files[StatePath(x)] == Json(StateDocument(s))
    ensures OnFile(x, files, s)
  {
    StateIsTold(s);
    hide StateDocument, Tells;
    StateFileIs(x);
    hide StatePath, StateFile;
    assert IsDocument(files, StateFile(x), StateDocument(s));
  }

  lemma {:induction false} StateFileIs(x: Experiment)
    ensures StateFile(x) == StatePath(x)
  {
  }

  // ---- The requests ----

  /** The request of stage k: its name, its run directory and the manifest of the stage before. */
  ghost predicate Asks(x: Experiment, k: StageIndex, r: Request) {
    && r.stage == CURRICULUM[k] && r.runDir == StageDir(x, k)
    && r.parentManifest == if k == 0 then None else Some(StageManifest(x, k - 1))
  }

  lemma {:induction false} RequestAsks(x: Experiment, k: StageIndex)
    ensures Asks(x, k, RequestFor(x, k))
  {
    PlacesAgree(x, k);
    if k > 0 {
      PlacesAgree(x, k - 1);
    }
    hide STAGE_ORDER, CURRICULUM, ManifestPath, StageManifest, RunDir, StageDir;
  }

  // ---- The states on the way ----

  /** The checkpoint the stage before k names in its manifest. */
  ghost predicate RollsBackTo(x: Experiment, files: Store, k: int, c: Option<Path>) {
    0 <= k <= STAGES &&
    if k == 0 then c.None?
    else c.Some? && exists doc :: IsDocument(files, StageManifest(x, k - 1), doc) &&
                                  Names(Field(doc, "final_checkpoint"), StageDir(x, k - 1), c.value)
  }

  /** The state file of a run that has completed the stages below k and goes on. */
  ghost predicate SaysRunning(x: Experiment, files: Store, k: StageIndex) {
    k > 0 &&
    exists c :: RollsBackTo(x, files, k, c) &&
                OnFile(x, files, CurriculumState("running", CURRICULUM[..k], None, Some(CURRICULUM[k - 1]), c, None))
  }

  lemma {:induction false} AcceptedIsRollback(x: Experiment, files: Store, k: int)
    requires 0 <= k <= STAGES && AcceptedCheckpoint(x, files, k).Some?
    ensures RollsBackTo(x, files, k, AcceptedCheckpoint(x, files, k).value)
  {
    if k > 0 {
      PlacesAgree(x, k - 1);
      var m := ManifestPath(x, k - 1);
      var doc, c := files[m].doc, AcceptedCheckpoint(x, files, k).value;
      assert c.Some? && DocumentPath(Get(doc, "final_checkpoint"), m) == Some(c.value);
      PathRead(x, k - 1, Get(doc, "final_checkpoint"), c.value);
      hide STAGE_ORDER, CURRICULUM, ManifestPath, StageManifest, RunDir, StageDir, Names, DocumentPath;
      assert Names(Field(doc, "final_checkpoint"), StageDir(x, k - 1), c.value);
      assert IsDocument(files, StageManifest(x, k - 1), doc);
      hide AcceptedCheckpoint, Field;
    }
  }

  lemma {:induction false} RollbackBesideState(x: Experiment, s: Store, t: Store, k: int, c: Option<Path>)
    requires RollsBackTo(x, s, k, c) && OnlyState(x, s, t)
    ensures RollsBackTo(x, t, k, c)
  {
    if k > 0 {
      PlacesAgree(x, k - 1);
      ManifestInside(x, k - 1);
      assert Agree(s, t, ManifestPath(x, k - 1));
      hide STAGE_ORDER, CURRICULUM, ManifestPath, StageManifest, RunDir, StageDir, Names;
    }
  }

  lemma {:induction false} OrderIsCurriculum()
    ensures STAGE_ORDER == CURRICULUM
  {
  }

  lemma {:induction false} ContinuePersists(x: Experiment, e: Executor, k: StageIndex, s: Store)
    requires StageStep(x, e, k, s).Continue?
    ensures var c := AcceptedCheckpoint(x, Execute(x, e, k, s), k + 1);
            c.Some? && StageStep(x, e, k, s).store == Persist(x, Execute(x, e, k, s), RunningState(k, c.value))
  {
    hide Execute, Verdict, AcceptedCheckpoint, Persist, RunningState;
  }

  lemma {:induction false} PersistTells(x: Experiment, s: Store, st: CurriculumState)
    ensures OnlyState(x, s, Persist(x, s, st)) && OnFile(x, Persist(x, s, st), st)
  {
    PersistedIsOnFile(x, Persist(x, s, st), st);
  }

  lemma {:induction false} ContinueSaysRunning(x: Experiment, e: Executor, k: StageIndex, s: Store)
    requires StageStep(x, e, k, s).Continue? && k + 1 < STAGES
    ensures SaysRunning(x, StageStep(x, e, k, s).store, k + 1)
  {
    hide *;
    StageCount();
    var after := Execute(x, e, k, s);
    var c := AcceptedCheckpoint(x, after, k + 1);
    ContinuePersists(x, e, k, s);
    RunningStateIs(k, c.value);
    PersistTells(x, after, RunningState(k, c.value));
    AcceptedIsRollback(x, after, k + 1);
    RollbackBesideState(x, after, StageStep(x, e, k, s).store, k + 1, c.value);
    RunningIsSaid(x, StageStep(x, e, k, s).store, k + 1, c.value);
  }

  lemma {:induction false} RunningStateIs(k: StageIndex, c: Option<Path>)
    ensures |CURRICULUM| == 8 &&
            RunningState(k, c) == CurriculumState("running", CURRICULUM[..k + 1], None, Some(CURRICULUM[k]), c, None)
  {
    OrderIsCurriculum();
    hide STAGE_ORDER;
  }

  lemma {:induction false} RunningIsSaid(x: Experiment, files: Store, k: StageIndex, c: Option<Path>)
    requires k > 0 && RollsBackTo(x, files, k, c)
    requires OnFile(x, files, CurriculumState("running", CURRICULUM[..k], None, Some(CURRICULUM[k - 1]), c, None))
    ensures SaysRunning(x, files, k)
  {
    hide OnFile, RollsBackTo, CURRICULUM;
  }

  /** Every request asks for its own stage, and all but the first find the state file of a run that has completed the
      stages before. */
  ghost predicate Announced(x: Experiment, k: int, run: Run) {
    0 <= k && k + |run.issued| <= STAGES &&
    forall i :: 0 <= i < |run.issued| ==>
      Asks(x, k + i, run.issued[i].request) && (i > 0 ==> SaysRunning(x, run.issued[i].store, k + i))
  }

  lemma {:induction false} PrependAnnounced(x: Experiment, k: StageIndex, rest: Run, issue: Issue)
    requires Announced(x, k + 1, rest) && Asks(x, k, issue.request)
    requires rest.issued != [] ==> k + 1 < STAGES && SaysRunning(x, rest.issued[0].store, k + 1)
    ensures Announced(x, k, Run(rest.exit, rest.store, [issue] + rest.issued))
  {
    hide Asks, SaysRunning;
    var all := [issue] + rest.issued;
    forall i | 0 <= i < |all|
      ensures Asks(x, k + i, all[i].request) && (i > 0 ==> SaysRunning(x, all[i].store, k + i))
    {
      if i > 0 {
        assert all[i] == rest.issued[i - 1];
      }
    }
  }

  lemma {:induction false} OneIsAnnounced(x: Experiment, k: StageIndex, run: Run)
    requires |run.issued| == 1 && Asks(x, k, run.issued[0].request)
    ensures Announced(x, k, run)
  {
    hide Asks;
  }

  lemma {:induction false} NothingIsAnnounced(x: Experiment, s: Store)
    ensures Announced(x, STAGES, Finish(x, s))
  {
    assert Finish(x, s).issued == [];
  }

  lemma {:induction false} FirstIssue(x: Experiment, e: Executor, k: int, s: Store)
    requires 0 <= k <= STAGES
    ensures RunFrom(x, e, k, s).issued != [] ==> k < STAGES && RunFrom(x, e, k, s).issued[0].store == s
  {
    hide *;
    StageCount();
    if k == STAGES {
      RunFromEnd(x, e, s);
      FinishIssuesNothing(x, s);
    } else {
      RunFromStep(x, e, k, s);
    }
  }

  lemma {:induction false} FinishIssuesNothing(x: Experiment, s: Store)
    ensures Finish(x, s).issued == []
  {
  }

  /** Main result: every run announces what it does, whatever its executor does. */
  lemma {:induction false} EveryRunIsAnnounced(x: Experiment, e: Executor, k: int, s: Store)
    requires 0 <= k <= STAGES && Readable(x, s, k)
    ensures Announced(x, k, RunFrom(x, e, k, s))
    decreases STAGES - k
  {
    hide *;
    StageCount();
    if k == STAGES {
      RunFromEnd(x, e, s);
      NothingIsAnnounced(x, s);
    } else {
      RequestAsks(x, k);
      StepShape(x, e, k, s);
      RunFromStep(x, e, k, s);
      var issue := Issue(RequestFor(x, k), s);
      match StageStep(x, e, k, s)
      case Stop(exit, t) =>
        OneIsAnnounced(x, k, Run(exit, t, [issue]));
      case Continue(next) =>
        EveryRunIsAnnounced(x, e, k + 1, next);
        FirstIssue(x, e, k + 1, next);
        if k + 1 < STAGES {
          ContinueSaysRunning(x, e, k, s);
        }
        PrependAnnounced(x, k, RunFrom(x, e, k + 1, next), issue);
    }
  }

  // ---- The end ----

  /** What the driver reports of the j complete stages, and why it stopped if it did. */
  ghost predicate ExitTold(x: Experiment, files: Store, st: CurriculumState, j: int) {
    && 0 <= j <= 8 && OnFile(x, files, st) && st.completedStages == CURRICULUM[..j]
    && st.rollbackStage == (if j == 0 then None else Some(CURRICULUM[j - 1]))
    && RollsBackTo(x, files, j, st.rollbackCheckpoint)
    && if j == 8 then st.status == "accepted" && st.stoppedStage.None? && st.reason.None?
       else st.status == "stopped" && st.stoppedStage == Some(CURRICULUM[j]) && st.reason.Some?
  }

  /** The reason a stage j stopped the run that reached it with these files. */
  ghost predicate ReasonTold(x: Experiment, e: Executor, j: StageIndex, issue: Issue, reason: Reason) {
    var effect := e(issue.request, issue.store);
    match reason
    case ExecutorRaised => effect.outcome == Raised
    case NotPromoted => effect.outcome == Returned(false)
    case LineageFailed(error) =>
      effect.outcome == Returned(true) &&
      CheckThrough(x, ReplaceBelow(issue.store, StageDir(x, j), effect.files), j) == Err(error)
  }

  ghost predicate EndTold(x: Experiment, e: Executor, k: int, run: Run) {
    run.exit.Exited? &&
    exists j :: k <= j && ExitTold(x, run.store, run.exit.state, j) &&
      |run.issued| == (if j < 8 then j - k + 1 else j - k) &&
      (j < 8 ==> run.issued != [] &&
                 ReasonTold(x, e, j, run.issued[|run.issued| - 1], run.exit.state.reason.value))
  }

  lemma {:induction false} StopIsTold(x: Experiment, e: Executor, k: StageIndex, s: Store)
    requires Readable(x, s, k) && StageStep(x, e, k, s).Stop?
    ensures EndTold(x, e, k, Run(StageStep(x, e, k, s).exit, StageStep(x, e, k, s).store, [Issue(RequestFor(x, k), s)]))
  {
    var after, t := Execute(x, e, k, s), StageStep(x, e, k, s).store;
    var c, reason := AcceptedCheckpoint(x, after, k), Verdict(x, e, k, s);
    var run := Run(StageStep(x, e, k, s).exit, t, [Issue(RequestFor(x, k), s)]);
    StepShape(x, e, k, s);
    ExecuteOnlyStage(x, e, k, s, RunningState(k, None));
    ReadableKept(x, s, after, k, k);
    PlacesAgree(x, k);
    OrderIsCurriculum();
    var st := StoppedState(k, c.value, reason.value);
    assert run.exit == Exited(st) && t == Persist(x, after, st);
    assert st.status == "stopped" && st.completedStages == CURRICULUM[..k] && st.stoppedStage == Some(CURRICULUM[k]);
    assert st.rollbackStage == (if k == 0 then None else Some(CURRICULUM[k - 1])) && st.rollbackCheckpoint == c.value;
    assert st.reason == reason;
    assert StatePath(x) in t && t[StatePath(x)] == Json(StateDocument(st)) && OnlyState(x, after, t);
    ReasonIsTold(x, e, k, s);
    hide *;
    StageCount();
    AcceptedIsRollback(x, after, k);
    RollbackBesideState(x, after, t, k, c.value);
    PersistedIsOnFile(x, t, st);
    StoppedIsTold(x, t, k, st);
    EndIsTold(x, e, k, run, k);
  }

  lemma {:induction false} ReasonIsTold(x: Experiment, e: Executor, k: StageIndex, s: Store)
    requires Verdict(x, e, k, s).Some?
    ensures ReasonTold(x, e, k, Issue(RequestFor(x, k), s), Verdict(x, e, k, s).value)
  {
    PlacesAgree(x, k);
    hide STAGE_ORDER, CURRICULUM, RunDir, StageDir, CheckThrough, RequestFor;
  }

  lemma {:induction false} StoppedIsTold(x: Experiment, files: Store, k: StageIndex, st: CurriculumState)
    requires OnFile(x, files, st) && RollsBackTo(x, files, k, st.rollbackCheckpoint)
    requires st.status == "stopped" && st.completedStages == CURRICULUM[..k] && st.stoppedStage == Some(CURRICULUM[k])
    requires st.rollbackStage == (if k == 0 then None else Some(CURRICULUM[k - 1])) && st.reason.Some?
    ensures ExitTold(x, files, st, k)
  {
    hide OnFile, RollsBackTo, CURRICULUM;
  }

  lemma {:induction false} EndIsTold(x: Experiment, e: Executor, k: int, run: Run, j: int)
    requires run.exit.Exited? && k <= j && ExitTold(x, run.store, run.exit.state, j)
    requires |run.issued| == (if j < 8 then j - k + 1 else j - k)
    requires j < 8 ==> run.exit.state.reason.Some? && run.issued != [] && 0 <= j &&
                       ReasonTold(x, e, j, run.issued[|run.issued| - 1], run.exit.state.reason.value)
    ensures EndTold(x, e, k, run)
  {
    hide ExitTold, ReasonTold;
  }

  lemma {:induction false} PrependTold(x: Experiment, e: Executor, k: int, rest: Run, issue: Issue)
    requires EndTold(x, e, k + 1, rest)
    ensures EndTold(x, e, k, Run(rest.exit, rest.store, [issue] + rest.issued))
  {
    hide ReasonTold, OnFile, RollsBackTo;
    var j :| k + 1 <= j && ExitTold(x, rest.store, rest.exit.state, j) &&
      |rest.issued| == (if j < 8 then j - (k + 1) + 1 else j - (k + 1)) &&
      (j < 8 ==> rest.issued != [] &&
                 ReasonTold(x, e, j, rest.issued[|rest.issued| - 1], rest.exit.state.reason.value));
    EndIsTold(x, e, k, Run(rest.exit, rest.store, [issue] + rest.issued), j);
  }

  lemma {:induction false} FinishIsTold(x: Experiment, e: Executor, s: Store)
    requires Readable(x, s, STAGES)
    ensures EndTold(x, e, STAGES, Finish(x, s))
  {
    OrderIsCurriculum();
    FinishShape(x, s);
    var run := Finish(x, s);
    var c := AcceptedCheckpoint(x, s, STAGES).value;
    AcceptedIsRollback(x, s, STAGES);
    RollbackBesideState(x, s, run.store, STAGES, c);
    assert StatePath(x) in run.store && run.store[StatePath(x)] == Json(StateDocument(AcceptedState(c)));
    PersistedIsOnFile(x, run.store, AcceptedState(c));
    assert AcceptedState(c).completedStages == CURRICULUM[..8];
    hide OnFile, RollsBackTo, Finish;
    assert ExitTold(x, run.store, run.exit.state, 8);
    EndIsTold(x, e, STAGES, run, 8);
  }

  /** Main result: every run, whatever its executor does, ends with a state that tells what is complete, where to roll
      back and why it stopped, and leaves that state on file. */
  lemma {:induction false} EveryEndIsTold(x: Experiment, e: Executor, k: int, s: Store)
    requires 0 <= k <= STAGES && Readable(x, s, k)
    ensures EndTold(x, e, k, RunFrom(x, e, k, s))
    decreases STAGES - k
  {
    hide *;
    StageCount();
    if k == STAGES {
      RunFromEnd(x, e, s);
      FinishIsTold(x, e, s);
    } else {
      StepShape(x, e, k, s);
      RunFromStep(x, e, k, s);
      match StageStep(x, e, k, s)
      case Stop(_, _) =>
        StopIsTold(x, e, k, s);
      case Continue(next) =>
        EveryEndIsTold(x, e, k + 1, next);
        PrependTold(x, e, k, RunFrom(x, e, k + 1, next), Issue(RequestFor(x, k), s));
    }
  }

  ghost predicate RecordsBefore(x: Experiment, s: Store, k: StageIndex) {
    forall i: StageIndex :: i < k ==> LineageRecords.InOrder(x, s, i)
  }

  /** `run_curriculum` from stage k refuses exactly where the records of the stages before are not in order, and its run
      is otherwise announced and told to its end. */
  ghost predicate StartTold(x: Experiment, e: Executor, k: StageIndex, s: Store, r: Result<Run, LineageError>) {
    match r
    case Ok(run) => RecordsBefore(x, s, k) && Announced(x, k, run) && EndTold(x, e, k, run)
    case Err(_) => !RecordsBefore(x, s, k)
  }

  lemma {:induction false} StartIsTold(x: Experiment, e: Executor, k: StageIndex, s: Store)
    ensures StartTold(x, e, k, s, RunCurriculumSpec(x, e, CURRICULUM[k], s))
  {
    OrderIsCurriculum();
    ValidExactlyWhen(x, s, k - 1);
    assert RecordsBefore(x, s, k) <==> forall i: StageIndex :: i <= k - 1 ==> LineageRecords.InOrder(x, s, i);
    hide RunCurriculumSpec, RunFrom, CheckThrough, Announced, EndTold, RecordsBefore, STAGE_ORDER, CURRICULUM, Readable;
    StartFrom(x, e, k, s);
    if CheckThrough(x, s, k - 1).Ok? {
      ValidIsReadable(x, s, k);
      EveryRunIsAnnounced(x, e, k, s);
      EveryEndIsTold(x, e, k, s);
    }
  }

  /** Main result: `run_curriculum` refuses a stage it does not know before anything else, and is told for every
      other. */
  lemma {:induction false} CurriculumIsTold(x: Experiment, e: Executor, start: string, s: Store)
    ensures start in CURRICULUM ==>
            exists k: StageIndex :: start == CURRICULUM[k] && StartTold(x, e, k, s, RunCurriculumSpec(x, e, start, s))
    ensures start !in CURRICULUM ==> RunCurriculumSpec(x, e, start, s) == Err(UnknownStage)
  {
    OrderIsCurriculum();
    hide RunFrom, CheckThrough, StartTold, IndexFrom;
    if start in CURRICULUM {
      var k: StageIndex :| start == CURRICULUM[k];
      StartIsTold(x, e, k, s);
    }
  }
}
