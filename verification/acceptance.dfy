/** Trainer, evaluator and driver together: a curriculum whose stages record their true parents is accepted. */
module Acceptance {
  import opened Common
  import opened FileStores
  import opened Lineage
  import opened ParentRecords
  import opened Curriculum
  import opened Rollback
  import opened Interruption

  /** What the trainer of stage k makes of its parent. */
  function ParentOf(x: Experiment, s: Store, k: StageIndex): Result<Option<ParentLineage>, ParentError> {
    ValidateParent(x.hash, s, STAGE_ORDER[k], ParentManifest(x, k))
  }

  /** The manifest of stage k records that parent beside its other fields, and was accepted with a matching
      checkpoint. */
  ghost predicate Records(x: Experiment, before: Store, after: Store, k: StageIndex, rest: Document) {
    ParentOf(x, before, k).Ok? && ManifestPath(x, k) in after &&
    after[ManifestPath(x, k)] == Json(RecordParent(rest, STAGE_ORDER[k], ParentOf(x, before, k).value)) &&
    AcceptedFinal(x, after, k) && !Diagnostic(x, after, k)
  }

  /** The stage reports success and leaves such a manifest. */
  ghost predicate Succeeds(x: Experiment, e: Executor, k: StageIndex, s: Store) {
    e(RequestFor(x, k), s).outcome == Returned(true) && exists rest :: Records(x, s, Execute(x, e, k, s), k, rest)
  }

  /** No file lies below the run directory of stage k; the trainer demands that. */
  ghost predicate Vacant(x: Experiment, s: Store, k: StageIndex) {
    forall p :: Under(RunDir(x, k), p) ==> p !in s
  }

  ghost predicate VacantFrom(x: Experiment, s: Store, k: int) {
    forall j: StageIndex :: k <= j ==> Vacant(x, s, j)
  }

  /** A stage succeeds whenever its run directory is vacant and its trainer accepts the parent. */
  ghost predicate Compliant(x: Experiment, e: Executor) {
    forall k: StageIndex, s :: Vacant(x, s, k) && ParentOf(x, s, k).Ok? ==> Succeeds(x, e, k, s)
  }

  /** The last complete stage is no diagnostic run. */
  ghost predicate Proper(x: Experiment, s: Store, k: int) {
    0 <= k <= STAGES && (k > 0 ==> !Diagnostic(x, s, k - 1))
  }

  /** A compliant stage behind a valid chain is promoted. */
  lemma {:induction false} CompliantStagePasses(x: Experiment, e: Executor, k: StageIndex, s: Store)
    requires Absolute(x.root) && Compliant(x, e) && HousedBelow(x, s, k) && ValidThrough(x, s, k - 1) &&
             Proper(x, s, k) && Vacant(x, s, k)
    ensures Verdict(x, e, k, s).None? && Proper(x, Execute(x, e, k, s), k + 1)
  {
    TrainerAcceptsParent(x, s, k);
    assert ParentOf(x, s, k).Ok?;
    assert Succeeds(x, e, k, s);
    var after := Execute(x, e, k, s);
    var rest :| Records(x, s, after, k, rest);
    ExecuteOnlyStage(x, e, k, s, RunningState(k, None));
    StageKeepsParents(x, s, after, k);
    RecordedParentValidates(x, s, after, k, rest);
    hide CheckThrough, Execute, Diagnostic;
  }

  lemma {:induction false} ProperBesideState(x: Experiment, s: Store, t: Store, k: StageIndex)
    requires OnlyState(x, s, t) && Proper(x, s, k + 1)
    ensures Proper(x, t, k + 1)
  {
    ManifestInside(x, k);
    assert Agree(s, t, ManifestPath(x, k));
  }

  lemma {:induction false} VacantElsewhere(x: Experiment, s: Store, t: Store, k: StageIndex)
    requires OnlyStage(x, s, t, k) && VacantFrom(x, s, k + 1)
    ensures VacantFrom(x, t, k + 1)
  {
    forall j: StageIndex, p | k < j && Under(RunDir(x, j), p) ensures p !in t {
      assert Vacant(x, s, j);
      StateOutside(x, j);
      if Under(RunDir(x, k), p) {
        RunDirsDisjoint(x, j, k, p);
      }
      assert Agree(s, t, p);
    }
  }

  /** Stages below k are complete, valid and no diagnostic runs; the run directories from k on are vacant. */
  ghost predicate Ready(x: Experiment, s: Store, k: int) {
    && 0 <= k <= STAGES && HousedBelow(x, s, k) && ValidThrough(x, s, k - 1)
    && Proper(x, s, k) && VacantFrom(x, s, k)
  }

  lemma {:induction false} ReadyMeans(x: Experiment, s: Store, k: int)
    requires Ready(x, s, k)
    ensures 0 <= k <= STAGES && HousedBelow(x, s, k) && ValidThrough(x, s, k - 1) && Proper(x, s, k) &&
            VacantFrom(x, s, k)
    ensures k < STAGES ==> Vacant(x, s, k)
  {
    hide HousedBelow, ValidThrough, Proper, Vacant;
  }

  lemma {:induction false} LaterVacant(x: Experiment, s: Store, k: StageIndex)
    requires VacantFrom(x, s, k)
    ensures VacantFrom(x, s, k + 1)
  {
    hide Vacant;
  }

  /** The run ends with all stages accepted. */
  ghost predicate Accepted(run: Run) {
    run.exit.Exited? && run.exit.state.status == "accepted"
  }

  /** An earlier request makes no difference to how a run ends. */
  lemma {:induction false} EndsAlike(rest: Run, issue: Issue)
    ensures var run := Run(rest.exit, rest.store, [issue] + rest.issued);
            (Accepted(run) <==> Accepted(rest)) && forall j :: StoppedAt(run, j) <==> StoppedAt(rest, j)
  {
  }

  /** A promoted stage leaves a store like the one it began in, one stage further. */
  lemma {:induction false} CompliantStep(x: Experiment, e: Executor, k: StageIndex, s: Store)
    requires Absolute(x.root) && Compliant(x, e) && Tidy(x, e) && Ready(x, s, k)
    ensures StageStep(x, e, k, s).Continue? && Ready(x, StageStep(x, e, k, s).store, k + 1)
  {
    hide *;
    StageCount();
    ReadyMeans(x, s, k);
    LaterVacant(x, s, k);
    ValidIsReadable(x, s, k);
    CompliantStagePasses(x, e, k, s);
    StepShape(x, e, k, s);
    StepKeepsChain(x, e, k, s);
    var next := StageStep(x, e, k, s).store;
    ProperBesideState(x, Execute(x, e, k, s), next, k);
    ContinueOnlyStage(x, e, k, s);
    VacantElsewhere(x, s, next, k);
    ReadyNext(x, next, k);
  }

  lemma {:induction false} ReadyNext(x: Experiment, s: Store, k: StageIndex)
    requires HousedBelow(x, s, k + 1) && ValidThrough(x, s, k) && Proper(x, s, k + 1) && VacantFrom(x, s, k + 1)
    ensures Ready(x, s, k + 1)
  {
  }

  lemma {:induction false} FinishAccepts(x: Experiment, e: Executor, s: Store)
    requires Readable(x, s, STAGES)
    ensures Accepted(RunFrom(x, e, STAGES, s))
  {
    RunFromEnd(x, e, s);
    FinishShape(x, s);
  }

  /** Main result: behind a valid chain of non-diagnostic stages, stages that record what their trainer validated carry
      the curriculum to acceptance, from any stage on. */
  lemma {:induction false} CompliantRunIsAccepted(x: Experiment, e: Executor, k: int, s: Store)
    requires Absolute(x.root) && Compliant(x, e) && Tidy(x, e) && Ready(x, s, k)
    ensures Accepted(RunFrom(x, e, k, s))
    decreases STAGES - k
  {
    hide *;
    StageCount();
    ReadyMeans(x, s, k);
    if k == STAGES {
      ValidIsReadable(x, s, k);
      FinishAccepts(x, e, s);
    } else {
      CompliantStep(x, e, k, s);
      RunFromStep(x, e, k, s);
      var rest := RunFrom(x, e, k + 1, StageStep(x, e, k, s).store);
      CompliantRunIsAccepted(x, e, k + 1, StageStep(x, e, k, s).store);
      EndsAlike(rest, Issue(RequestFor(x, k), s));
    }
  }

  // ---- Failing once ----

  /** Stage j reports no success, whatever it finds. */
  ghost predicate FailsAt(x: Experiment, e: Executor, j: StageIndex) {
    forall s :: e(RequestFor(x, j), s).outcome != Returned(true)
  }

  /** Two executors do the same in the stages from k up to but not including j. */
  ghost predicate SameBetween(x: Experiment, e: Executor, e': Executor, k: int, j: int) {
    forall i: StageIndex, s :: k <= i < j ==> e(RequestFor(x, i), s) == e'(RequestFor(x, i), s)
  }

  lemma {:induction false} SameBetweenMeans(x: Experiment, e: Executor, e': Executor, k: StageIndex, j: int, s: Store)
    requires SameBetween(x, e, e', k, j) && k < j
    ensures e(RequestFor(x, k), s) == e'(RequestFor(x, k), s) && SameBetween(x, e, e', k + 1, j)
  {
    hide RequestFor;
  }

  lemma {:induction false} FailsMeans(x: Experiment, e: Executor, j: StageIndex, s: Store)
    requires FailsAt(x, e, j)
    ensures e(RequestFor(x, j), s).outcome != Returned(true)
  {
  }

  /** A stage that reports no success stops the run. */
  lemma {:induction false} RefusedStops(x: Experiment, e: Executor, j: StageIndex, s: Store)
    requires e(RequestFor(x, j), s).outcome != Returned(true) && Readable(x, s, j)
    ensures StageStep(x, e, j, s).Stop? && StoppedAt(RunFrom(x, e, j, s), j)
  {
    assert Verdict(x, e, j, s).Some?;
    StepShape(x, e, j, s);
    RunFromStep(x, e, j, s);
    hide StageStep, RunFrom, Verdict, Execute, AcceptedCheckpoint, Persist, RequestFor;
  }

  /** A stop at stage j after a stage that both executors complete in the same way. */
  lemma {:induction false} InterruptedLater(x: Experiment, e': Executor, e: Executor, k: StageIndex, j: StageIndex,
                                            s: Store)
    requires k < j && HousedBelow(x, s, k) && ValidThrough(x, s, k - 1) &&
             e(RequestFor(x, k), s) == e'(RequestFor(x, k), s)
    requires StageStep(x, e', k, s).Continue? && Interrupted(x, e', e, k + 1, j, StageStep(x, e', k, s).store)
    ensures Interrupted(x, e', e, k, j, s)
  {
    hide *;
    StageCount();
    var next, issue := StageStep(x, e', k, s).store, Issue(RequestFor(x, k), s);
    InterruptedIs(x, e', e, k + 1, j, next);
    RunFromStep(x, e', k, s);
    var rest := RunFrom(x, e', k + 1, next);
    EndsAlike(rest, issue);
    SameBeforePrepend(e, e', issue, rest.issued);
    InterruptedIs(x, e', e, k, j, s);
  }

  lemma {:induction false} SameBeforePrepend(e: Executor, e': Executor, issue: Issue, rest: seq<Issue>)
    requires SameBefore(e, e', rest) && e(issue.request, issue.store) == e'(issue.request, issue.store)
    ensures SameBefore(e, e', [issue] + rest)
  {
    var all := [issue] + rest;
    forall i | 0 <= i < |all| - 1 ensures e(all[i].request, all[i].store) == e'(all[i].request, all[i].store) {
      if i > 0 {
        assert all[i] == rest[i - 1];
      }
    }
  }

  /** A curriculum that is compliant up to a failing stage stops there. */
  lemma {:induction false} StopsWhereItFails(x: Experiment, e': Executor, e: Executor, k: int, j: StageIndex, s: Store)
    requires 0 <= k <= j && Absolute(x.root) && Compliant(x, e) && Tidy(x, e) && Ready(x, s, k)
    requires SameBetween(x, e, e', k, j) && FailsAt(x, e', j)
    ensures Interrupted(x, e', e, k, j, s)
    decreases j - k
  {
    hide *;
    StageCount();
    ReadyMeans(x, s, k);
    if k == j {
      ValidIsReadable(x, s, k);
      FailsMeans(x, e', j, s);
      RefusedStops(x, e', j, s);
      RunFromStep(x, e', j, s);
      OneRequestIsLast(e, e', Issue(RequestFor(x, j), s));
      InterruptedIs(x, e', e, k, j, s);
    } else {
      CompliantStep(x, e, k, s);
      SameBetweenMeans(x, e, e', k, j, s);
      SameEffectHere(x, e, e', k, s);
      StopsWhereItFails(x, e', e, k + 1, j, StageStep(x, e, k, s).store);
      InterruptedLater(x, e', e, k, j, s);
    }
  }

  lemma {:induction false} OneRequestIsLast(e: Executor, e': Executor, issue: Issue)
    ensures SameBefore(e, e', [issue])
  {
  }

  /** Ready for stage k, but for what its own run directory may hold. */
  ghost predicate ReadyApart(x: Experiment, s: Store, k: StageIndex) {
    HousedBelow(x, s, k) && ValidThrough(x, s, k - 1) && Proper(x, s, k) && VacantFrom(x, s, k + 1)
  }

  lemma {:induction false} ReadyExactlyWhenVacant(x: Experiment, s: Store, k: StageIndex)
    ensures Ready(x, s, k) <==> ReadyApart(x, s, k) && Vacant(x, s, k)
  {
    hide HousedBelow, ValidThrough, Proper, Vacant;
  }

  lemma {:induction false} ProperElsewhere(x: Experiment, s: Store, t: Store, k: StageIndex)
    requires OnlyStage(x, s, t, k) && Proper(x, s, k)
    ensures Proper(x, t, k)
  {
    if k > 0 {
      ManifestSurvives(x, s, t, k, k - 1);
      hide ManifestPath;
    }
  }

  lemma {:induction false} StillReadyApart(x: Experiment, s: Store, t: Store, k: StageIndex)
    requires ReadyApart(x, s, k) && OnlyStage(x, s, t, k)
    ensures ReadyApart(x, t, k)
  {
    hide OnlyStage, HousedBelow, Proper, Vacant, ParentsUnchanged, CheckThrough;
    StageKeepsParents(x, s, t, k);
    ValidUnchanged(x, s, t, k, k - 1);
    ProperElsewhere(x, s, t, k);
    VacantElsewhere(x, s, t, k);
  }

  /** Up to the stage that stopped it, such a run finds and leaves everything ready. */
  lemma {:induction false} ReadyAtLast(x: Experiment, e': Executor, e: Executor, k: int, j: StageIndex, s: Store)
    requires Absolute(x.root) && Compliant(x, e) && Neat(x, e) && Ready(x, s, k) && Interrupted(x, e', e, k, j, s)
    ensures Ready(x, LastBegin(RunFrom(x, e', k, s)), j)
    decreases j - k
  {
    hide *;
    StageCount();
    InterruptedIs(x, e', e, k, j, s);
    if k == j {
      StopsHere(x, e', e, j, s);
    } else {
      StopsLater(x, e', e, k, j, s);
      NeatIsTidy(x, e);
      CompliantStep(x, e, k, s);
      ReadyAtLast(x, e', e, k + 1, j, StageStep(x, e', k, s).store);
    }
  }

  lemma {:induction false} ReadyAfterStop(x: Experiment, e': Executor, e: Executor, k: int, j: StageIndex, s: Store,
                                          now: Store)
    requires Absolute(x.root) && Compliant(x, e) && Neat(x, e) && Ready(x, s, k) && Interrupted(x, e', e, k, j, s)
    requires OnlyStage(x, RunFrom(x, e', k, s).store, now, j)
    ensures ReadyApart(x, now, j)
  {
    hide *;
    StageCount();
    InterruptedIs(x, e', e, k, j, s);
    var run := RunFrom(x, e', k, s);
    LastStage(x, e', e, k, j, s);
    ReadyAtLast(x, e', e, k, j, s);
    ReadyExactlyWhenVacant(x, LastBegin(run), j);
    OnlyStageTransitive(x, LastBegin(run), run.store, now, j);
    StillReadyApart(x, LastBegin(run), now, j);
  }

  /** Main result: one failure costs one stage. However a run stopped at stage j, in a store that differs from what it
      left only where stage j and the driver write, the continuation is admitted, and accepted once j's run directory is
      vacant. */
  lemma {:induction false} FailureIsRecoverable(x: Experiment, e': Executor, e: Executor, k: int, j: StageIndex,
                                                s: Store, now: Store)
    requires Absolute(x.root) && Compliant(x, e) && Neat(x, e) && Ready(x, s, k) && Interrupted(x, e', e, k, j, s)
    requires OnlyStage(x, RunFrom(x, e', k, s).store, now, j)
    ensures RunCurriculumSpec(x, e, STAGE_ORDER[j], now) == Ok(RunFrom(x, e, j, now))
    ensures Vacant(x, now, j) ==> Accepted(RunFrom(x, e, j, now))
  {
    hide *;
    StageCount();
    ReadyAfterStop(x, e', e, k, j, s, now);
    ReadyExactlyWhenVacant(x, now, j);
    ReadyApartIsAdmitted(x, e, now, j);
    if Vacant(x, now, j) {
      NeatIsTidy(x, e);
      CompliantRunIsAccepted(x, e, j, now);
    }
  }

  lemma {:induction false} ReadyApartIsAdmitted(x: Experiment, e: Executor, s: Store, k: StageIndex)
    requires ReadyApart(x, s, k)
    ensures ValidThrough(x, s, k - 1) && RunCurriculumSpec(x, e, STAGE_ORDER[k], s) == Ok(RunFrom(x, e, k, s))
  {
    hide HousedBelow, Proper, VacantFrom, RunFrom, CheckThrough, RunCurriculumSpec, STAGE_ORDER;
    StartFrom(x, e, k, s);
  }

  // ---- Such stages exist ----

  const WEIGHTS := Raw([])

  /** The fields a stage adds to its lineage when it is accepted. */
  function AcceptedFields(x: Experiment, k: StageIndex): Document {
    map["accepted" := Bool(true), "final_checkpoint" := Text(FinalPath(x, k)),
        "final_checkpoint_sha256" := Text(x.hash(WEIGHTS))]
  }

  function FinalPath(x: Experiment, k: StageIndex): Path {
    Join(RunDir(x, k), "model_final.pt")
  }

  /** The files of an accepted stage. */
  function AcceptedFiles(x: Experiment, k: StageIndex, parent: Option<ParentLineage>): Store {
    map[FinalPath(x, k) := WEIGHTS,
        ManifestPath(x, k) := Json(RecordParent(AcceptedFields(x, k), STAGE_ORDER[k], parent))]
  }

  predicate Occupied(s: Store, dir: Path) {
    exists p :: p in s && Under(dir, p)
  }

  function Below(s: Store, dir: Path): Store {
    map p | p in s && Under(dir, p) :: s[p]
  }

  /** A stage like the trainer: it refuses an occupied run directory or a parent it does not accept and leaves
      everything as it is; otherwise it is accepted. */
  function Model(x: Experiment): Executor {
    (r: Request, s: Store) =>
      var refusal := Effect(Returned(false), Below(s, r.runDir));
      if Occupied(s, r.runDir) then refusal else
      match IndexOf(r.stage)
      case None => refusal
      case Some(k) =>
        match ParentOf(x, s, k)
        case Err(_) => refusal
        case Ok(parent) => Effect(Returned(true), AcceptedFiles(x, k, parent))
  }

  lemma {:induction false} ModelStage(x: Experiment, k: StageIndex, s: Store)
    ensures Model(x)(RequestFor(x, k), s) ==
            if Occupied(s, RunDir(x, k)) || ParentOf(x, s, k).Err? then Effect(Returned(false), Below(s, RunDir(x, k)))
            else Effect(Returned(true), AcceptedFiles(x, k, ParentOf(x, s, k).value))
  {
    IndexOfStage(k);
    hide ParentOf, AcceptedFiles, IndexOf, STAGE_ORDER, Occupied, Below, RunDir;
  }

  lemma {:induction false} ModelIsCompliant(x: Experiment)
    requires Absolute(x.root)
    ensures Compliant(x, Model(x)) && Neat(x, Model(x))
  {
    hide ParentOf, AcceptedFiles, Model, Housed, Succeeds;
    forall k: StageIndex, s | Vacant(x, s, k) && ParentOf(x, s, k).Ok? ensures Succeeds(x, Model(x), k, s) {
      ModelSucceeds(x, k, s);
    }
    forall k: StageIndex, s | Model(x)(RequestFor(x, k), s).outcome == Returned(true)
      ensures Housed(x, Execute(x, Model(x), k, s), k)
    {
      ModelStage(x, k, s);
      AcceptedFilesRecord(x, s, Execute(x, Model(x), k, s), k);
    }
  }

  lemma {:induction false} ModelSucceeds(x: Experiment, k: StageIndex, s: Store)
    requires Absolute(x.root) && Vacant(x, s, k) && ParentOf(x, s, k).Ok?
    ensures Succeeds(x, Model(x), k, s)
  {
    ModelStage(x, k, s);
    hide ParentOf, AcceptedFiles, Model, Records;
    AcceptedFilesRecord(x, s, Execute(x, Model(x), k, s), k);
  }

  /** The trainer's view of the parent does not change with the state file. */
  lemma {:induction false} ParentBesideState(x: Experiment, s: Store, t: Store, k: StageIndex)
    requires OnlyState(x, s, t) && HousedBelow(x, s, k)
    ensures ParentOf(x, s, k) == ParentOf(x, t, k)
  {
    StageOrderFacts(k, k);
    if k > 0 {
      HousedBesideState(x, s, t, k - 1);
      hide STAGE_ORDER, StageParent, ManifestPath, OnlyState;
    }
  }

  lemma {:induction false} ModelIgnoresState(x: Experiment)
    ensures IgnoresState(x, Model(x))
  {
    hide Model, ParentOf, AcceptedFiles, HousedBelow;
    forall k: StageIndex, s, t | OnlyState(x, s, t) && HousedBelow(x, s, k)
      ensures Model(x)(RequestFor(x, k), s) == Model(x)(RequestFor(x, k), t)
    {
      ModelStage(x, k, s);
      ModelStage(x, k, t);
      ParentBesideState(x, s, t, k);
      StateOutside(x, k);
      SameBelow(x, s, t, RunDir(x, k));
    }
  }

  lemma {:induction false} SameBelow(x: Experiment, s: Store, t: Store, dir: Path)
    requires OnlyState(x, s, t) && !Under(dir, StatePath(x))
    ensures Below(s, dir) == Below(t, dir) && Occupied(s, dir) == Occupied(t, dir)
  {
    hide StatePath, Under;
    assert forall p :: Under(dir, p) ==> Agree(s, t, p);
  }

  /** The two files and their places. */
  lemma {:induction false} AcceptedFilesPlaces(x: Experiment, after: Store, k: StageIndex,
                                               parent: Option<ParentLineage>)
    requires forall p :: Under(RunDir(x, k), p) ==> Agree(after, AcceptedFiles(x, k, parent), p)
    ensures FinalPath(x, k) in after && after[FinalPath(x, k)] == WEIGHTS && Under(RunDir(x, k), FinalPath(x, k))
    ensures ManifestPath(x, k) in after &&
            after[ManifestPath(x, k)] == Json(RecordParent(AcceptedFields(x, k), STAGE_ORDER[k], parent))
  {
    ManifestInside(x, k);
    JoinUnder(RunDir(x, k), "model_final.pt");
    assert FinalPath(x, k) != ManifestPath(x, k) by {
      assert FinalPath(x, k)[|RunDir(x, k)| + 1] == 'm' && ManifestPath(x, k)[|RunDir(x, k)| + 1] == 'r';
    }
    hide RecordParent, RunDir;
  }

  predicate OwnField(f: string) {
    f !in PARENT_FIELDS && f != "stage"
  }

  lemma {:induction false} OwnFields()
    ensures OwnField("accepted") && OwnField("final_checkpoint") && OwnField("final_checkpoint_sha256") &&
            OwnField("diagnostic_only")
  {
    assert |PARENT_FIELDS| == 5;
    forall f | f in PARENT_FIELDS ensures f[0] == 'p' {
    }
  }

  lemma {:induction false} AcceptedFieldValues(x: Experiment, k: StageIndex)
    ensures var rest := AcceptedFields(x, k);
            Get(rest, "accepted") == Bool(true) && Get(rest, "final_checkpoint") == Text(FinalPath(x, k)) &&
            Get(rest, "final_checkpoint_sha256") == Text(x.hash(WEIGHTS)) && Get(rest, "diagnostic_only") == Null
  {
    hide FinalPath;
  }

  lemma {:induction false} AcceptedDocument(x: Experiment, k: StageIndex, parent: Option<ParentLineage>)
    requires Absolute(x.root)
    ensures var doc := RecordParent(AcceptedFields(x, k), STAGE_ORDER[k], parent);
            Get(doc, "accepted") == Bool(true) && Checkpoint(doc, ManifestPath(x, k)) == Some(FinalPath(x, k)) &&
            Get(doc, "final_checkpoint_sha256") == Text(x.hash(WEIGHTS)) && Get(doc, "diagnostic_only") == Null
  {
    assert Absolute(FinalPath(x, k)) by { assert FinalPath(x, k)[0] == x.root[0]; }
    OwnFields();
    AcceptedFieldValues(x, k);
    var doc := RecordParent(AcceptedFields(x, k), STAGE_ORDER[k], parent);
    assert forall f :: OwnField(f) ==> Get(doc, f) == Get(AcceptedFields(x, k), f);
    hide *;
    AbsoluteCheckpoint(doc, ManifestPath(x, k), FinalPath(x, k));
  }

  lemma {:induction false} AbsoluteCheckpoint(doc: Document, manifest: Path, p: Path)
    requires Absolute(p) && Get(doc, "final_checkpoint") == Text(p)
    ensures Checkpoint(doc, manifest) == Some(p)
  {
    hide Get;
  }

  lemma {:induction false} AcceptedFilesRecord(x: Experiment, s: Store, after: Store, k: StageIndex)
    requires Absolute(x.root) && ParentOf(x, s, k).Ok?
    requires forall p :: Under(RunDir(x, k), p) ==> Agree(after, AcceptedFiles(x, k, ParentOf(x, s, k).value), p)
    ensures Records(x, s, after, k, AcceptedFields(x, k)) && Housed(x, after, k)
  {
    AcceptedFilesPlaces(x, after, k, ParentOf(x, s, k).value);
    AcceptedDocument(x, k, ParentOf(x, s, k).value);
    hide *;
    DocumentRecords(x, s, after, k, AcceptedFields(x, k));
  }

  /** A place below the stage's own run directory is out of the way. */
  lemma {:induction false} OwnPlace(x: Experiment, k: StageIndex, p: Path)
    requires Under(RunDir(x, k), p)
    ensures p != StatePath(x) && forall j: StageIndex :: j != k ==> !Under(RunDir(x, j), p)
  {
    StateOutside(x, k);
    forall j: StageIndex | Under(RunDir(x, j), p) ensures j == k {
      RunDirsDisjoint(x, j, k, p);
    }
  }

  /** A manifest whose checkpoint is the stage's own final one. */
  lemma {:induction false} DocumentRecords(x: Experiment, s: Store, after: Store, k: StageIndex, rest: Document)
    requires ParentOf(x, s, k).Ok? && ManifestPath(x, k) in after
    requires after[ManifestPath(x, k)] == Json(RecordParent(rest, STAGE_ORDER[k], ParentOf(x, s, k).value))
    requires var doc := RecordParent(rest, STAGE_ORDER[k], ParentOf(x, s, k).value);
             Get(doc, "accepted") == Bool(true) && Checkpoint(doc, ManifestPath(x, k)) == Some(FinalPath(x, k)) &&
             Get(doc, "final_checkpoint_sha256") == Text(x.hash(WEIGHTS)) && Get(doc, "diagnostic_only") == Null
    requires FinalPath(x, k) in after && after[FinalPath(x, k)] == WEIGHTS && Under(RunDir(x, k), FinalPath(x, k))
    ensures Records(x, s, after, k, rest) && Housed(x, after, k)
  {
    hide ParentOf, RecordParent, RunDir, ManifestPath, FinalPath, STAGE_ORDER, Get, Checkpoint, Under, StatePath;
    OwnPlace(x, k, FinalPath(x, k));
    assert DocAt(x, after, k) == after[ManifestPath(x, k)].doc;
  }

  lemma {:induction false} EmptyIsReady(x: Experiment)
    ensures Ready(x, map[], 0)
  {
    assert CheckThrough(x, map[], -1).Ok?;
  }

  /** So from an empty experiment, such stages lead through all of the curriculum. */
  lemma {:induction false} ModelRunIsAccepted(x: Experiment)
    requires Absolute(x.root)
    ensures Accepted(RunFrom(x, Model(x), 0, map[]))
  {
    EmptyIsReady(x);
    ModelIsCompliant(x);
    NeatIsTidy(x, Model(x));
    hide *;
    CompliantRunIsAccepted(x, Model(x), 0, map[]);
  }

  // ---- Restarting over what a failed stage left ----

  lemma {:induction false} OccupiedIsNotVacant(x: Experiment, s: Store, k: StageIndex)
    ensures Occupied(s, RunDir(x, k)) <==> !Vacant(x, s, k)
  {
    hide RunDir, Under;
  }

  /** The trainer refuses an occupied run directory, so the driver stops at that stage again. */
  lemma {:induction false} OccupiedStopsAgain(x: Experiment, j: StageIndex, now: Store)
    requires ValidThrough(x, now, j - 1) && !Vacant(x, now, j)
    ensures StoppedAt(RunFrom(x, Model(x), j, now), j)
  {
    hide *;
    StageCount();
    ValidIsReadable(x, now, j);
    OccupiedIsNotVacant(x, now, j);
    RefusedIsNotPromoted(x, j, now);
    RefusedStops(x, Model(x), j, now);
  }

  lemma {:induction false} RefusedIsNotPromoted(x: Experiment, j: StageIndex, now: Store)
    requires Occupied(now, RunDir(x, j))
    ensures Model(x)(RequestFor(x, j), now).outcome == Returned(false)
  {
    ModelStage(x, j, now);
    hide Model, Occupied, RequestFor, RunDir, ParentOf, AcceptedFiles, Below;
  }

  /** Main result: however a run of such stages stopped at stage j, its continuation at j is admitted; it is accepted
      exactly when j's run directory is vacant, and stops at j again otherwise. */
  lemma {:induction false} ModelRunIsRecoverable(x: Experiment, e': Executor, j: StageIndex, now: Store)
    requires Absolute(x.root) && Interrupted(x, e', Model(x), 0, j, map[]) &&
             OnlyStage(x, RunFrom(x, e', 0, map[]).store, now, j)
    ensures var r := RunCurriculumSpec(x, Model(x), STAGE_ORDER[j], now);
            r.Ok? && (Accepted(r.value) <==> Vacant(x, now, j)) && (!Vacant(x, now, j) ==> StoppedAt(r.value, j))
  {
    EmptyIsReady(x);
    ModelIsCompliant(x);
    hide *;
    StageCount();
    ReadyAfterStop(x, e', Model(x), 0, j, map[], now);
    ReadyApartIsAdmitted(x, Model(x), now, j);
    FailureIsRecoverable(x, e', Model(x), 0, j, map[], now);
    if !Vacant(x, now, j) {
      OccupiedStopsAgain(x, j, now);
      StoppedIsNotAccepted(RunFrom(x, Model(x), j, now), j);
    }
  }

  lemma {:induction false} StoppedIsNotAccepted(run: Run, j: int)
    requires StoppedAt(run, j)
    ensures !Accepted(run)
  {
  }

  function Log(x: Experiment, j: StageIndex): Path {
    Join(RunDir(x, j), "train.log")
  }

  /** These stages, but stage j writes a file and raises. */
  function FailsOnce(x: Experiment, j: StageIndex): Executor {
    (r: Request, s: Store) =>
      if r == RequestFor(x, j) then Effect(Raised, map[Log(x, j) := Raw([])]) else Model(x)(r, s)
  }

  lemma {:induction false} FailsOnceFails(x: Experiment, j: StageIndex)
    ensures FailsAt(x, FailsOnce(x, j), j) && SameBetween(x, Model(x), FailsOnce(x, j), 0, j)
  {
    forall i: StageIndex | i < j ensures RequestFor(x, i) != RequestFor(x, j) {
      StageOrderFacts(i, j);
    }
    hide Model, RequestFor;
  }

  lemma {:induction false} FailsOnceLeavesLog(x: Experiment, j: StageIndex, s: Store)
    requires Readable(x, s, j) && StageStep(x, FailsOnce(x, j), j, s).Stop?
    ensures !Vacant(x, StageStep(x, FailsOnce(x, j), j, s).store, j)
  {
    JoinUnder(RunDir(x, j), "train.log");
    assert Log(x, j) in FailsOnce(x, j)(RequestFor(x, j), s).files;
    StepShape(x, FailsOnce(x, j), j, s);
    hide StageStep, RunDir, RequestFor, FailsOnce, AcceptedCheckpoint, Verdict, Log;
    assert Log(x, j) in Execute(x, FailsOnce(x, j), j, s) by {
      assert Agree(Execute(x, FailsOnce(x, j), j, s), FailsOnce(x, j)(RequestFor(x, j), s).files, Log(x, j));
    }
  }

  /** So an immediate restart can fail: at every stage there is a run that stops there, and whose continuation, with
      nothing touched in between, stops there again. */
  lemma {:induction false} RestartMayStopAgain(x: Experiment, j: StageIndex)
    requires Absolute(x.root)
    ensures var first := RunCurriculumSpec(x, FailsOnce(x, j), STAGE_ORDER[0], map[]);
            first.Ok? && StoppedAt(first.value, j) &&
            var again := RunCurriculumSpec(x, Model(x), STAGE_ORDER[j], first.value.store);
            again.Ok? && StoppedAt(again.value, j)
  {
    EmptyIsReady(x);
    ModelIsCompliant(x);
    hide *;
    StageCount();
    var e := FailsOnce(x, j);
    NeatIsTidy(x, Model(x));
    FailsOnceFails(x, j);
    StopsWhereItFails(x, e, Model(x), 0, j, map[]);
    InterruptedIs(x, e, Model(x), 0, j, map[]);
    StartFrom(x, e, 0, map[]);
    LastStage(x, e, Model(x), 0, j, map[]);
    var run := RunFrom(x, e, 0, map[]);
    ValidIsReadable(x, LastBegin(run), j);
    FailsOnceLeavesLog(x, j, LastBegin(run));
    OnlyStageReflexive(x, run.store, j);
    ModelRunIsRecoverable(x, e, j, run.store);
  }

  lemma {:induction false} OnlyStageReflexive(x: Experiment, s: Store, k: StageIndex)
    ensures OnlyStage(x, s, s, k)
  {
  }
}
