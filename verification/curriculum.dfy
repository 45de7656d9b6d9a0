/** The curriculum driver: it runs the stages in order, revalidates the chain, and rolls back on any failure. */
module Curriculum {
  import opened Common
  import opened FileStores
  import opened Lineage

  datatype Request = Request(stage: string, runDir: Path, parentManifest: Option<Path>)

  /** What a stage executor does: it returns or raises, and leaves files in its run directory. */
  datatype Outcome = Returned(launched: bool) | Raised

  datatype Effect = Effect(outcome: Outcome, files: Store)

  /** An arbitrary executor. Confinement to the run directory is built into `Execute`. */
  type Executor = (Request, Store) -> Effect

  datatype Reason = ExecutorRaised | LineageFailed(error: LineageError) | NotPromoted

  datatype CurriculumState = CurriculumState(
    status: string, completedStages: seq<string>, stoppedStage: Option<string>,
    rollbackStage: Option<string>, rollbackCheckpoint: Option<Path>, reason: Option<Reason>)

  /** The driver returns its state, or an exception escapes it. */
  datatype Exit = Exited(state: CurriculumState) | Escaped

  /** A request together with the store it was issued in. */
  datatype Issue = Issue(request: Request, store: Store)

  datatype Run = Run(exit: Exit, store: Store, issued: seq<Issue>)

  const STAGES := 8

  lemma StageCount()
    ensures STAGES == |STAGE_ORDER| == 8
  {
  }

  function StatePath(x: Experiment): Path {
    Join(x.root, "curriculum_state.json")
  }

  function RequestFor(x: Experiment, k: StageIndex): Request {
    Request(STAGE_ORDER[k], RunDir(x, k), if k == 0 then None else Some(ManifestPath(x, k - 1)))
  }

  /** The store after an executor ran: only the run directory may differ. */
  function Execute(x: Experiment, e: Executor, k: StageIndex, store: Store): Store {
    ReplaceBelow(store, RunDir(x, k), e(RequestFor(x, k), store).files)
  }

  function ReasonText(r: Reason): string {
    match r
    case ExecutorRaised => "executor error"
    case LineageFailed(_) => "lineage error"
    case NotPromoted => "stage process or acceptance failed"
  }

  function OptionalText(s: Option<string>): Value {
    match s case None => Null case Some(t) => Text(t)
  }

  function StateDocument(s: CurriculumState): Document {
    map[
      "status" := Text(s.status),
      "completed_stages" := List(s.completedStages),
      "stopped_stage" := OptionalText(s.stoppedStage),
      "rollback_stage" := OptionalText(s.rollbackStage),
      "rollback_checkpoint" := OptionalText(s.rollbackCheckpoint),
      "reason" := match s.reason case None => Null case Some(r) => Text(ReasonText(r))]
  }

  /** One atomic replacement of the state file. */
  function Persist(x: Experiment, store: Store, s: CurriculumState): Store {
    store[StatePath(x) := Json(StateDocument(s))]
  }

  /** The checkpoint recorded by the last accepted stage below k; the outer None is an exception. */
  function AcceptedCheckpoint(x: Experiment, store: Store, k: int): Option<Option<Path>>
    requires 0 <= k <= STAGES
  {
    if k == 0 then Some(None)
    else
      var m := ManifestPath(x, k - 1);
      if m !in store || store[m].Raw? then None
      else
        match Checkpoint(store[m].doc, m)
        case None => None
        case Some(p) => Some(Some(p))
  }

  function LastBelow(k: int): Option<string>
    requires 0 <= k <= STAGES
  {
    if k == 0 then None else Some(STAGE_ORDER[k - 1])
  }

  function StoppedState(k: StageIndex, rollback: Option<Path>, reason: Reason): CurriculumState {
    CurriculumState("stopped", STAGE_ORDER[..k], Some(STAGE_ORDER[k]), LastBelow(k), rollback, Some(reason))
  }

  function RunningState(k: StageIndex, rollback: Option<Path>): CurriculumState {
    CurriculumState("running", STAGE_ORDER[..k + 1], None, Some(STAGE_ORDER[k]), rollback, None)
  }

  function AcceptedState(rollback: Option<Path>): CurriculumState {
    CurriculumState("accepted", STAGE_ORDER[..STAGES], None, Some(STAGE_ORDER[STAGES - 1]), rollback, None)
  }

  /** Why stage k is not promoted, if it is not. */
  function Verdict(x: Experiment, e: Executor, k: StageIndex, store: Store): Option<Reason> {
    match e(RequestFor(x, k), store).outcome
    case Raised => Some(ExecutorRaised)
    case Returned(false) => Some(NotPromoted)
    case Returned(true) =>
      match CheckThrough(x, Execute(x, e, k, store), k)
      case Err(error) => Some(LineageFailed(error))
      case Ok(_) => None
  }

  /** One turn of the stage loop ends the run or leaves a store for the next stage. */
  datatype Step = Stop(exit: Exit, store: Store) | Continue(store: Store)

  function StageStep(x: Experiment, e: Executor, k: StageIndex, store: Store): Step {
    var after := Execute(x, e, k, store);
    match Verdict(x, e, k, store)
    case Some(reason) =>
      (match AcceptedCheckpoint(x, after, k)
       case None => Stop(Escaped, after)
       case Some(c) => Stop(Exited(StoppedState(k, c, reason)), Persist(x, after, StoppedState(k, c, reason))))
    case None =>
      match AcceptedCheckpoint(x, after, k + 1)
      case None => Stop(Escaped, after)
      case Some(c) => Continue(Persist(x, after, RunningState(k, c)))
  }

  function Finish(x: Experiment, store: Store): Run {
    match AcceptedCheckpoint(x, store, STAGES)
    case None => Run(Escaped, store, [])
    case Some(c) => Run(Exited(AcceptedState(c)), Persist(x, store, AcceptedState(c)), [])
  }

  /** The run from stage k on, all stages below k being complete. */
  function RunFrom(x: Experiment, e: Executor, k: int, store: Store): Run
    requires 0 <= k <= STAGES
    decreases STAGES - k
  {
    if k == STAGES then Finish(x, store)
    else
      var issue := Issue(RequestFor(x, k), store);
      match StageStep(x, e, k, store)
      case Stop(exit, last) => Run(exit, last, [issue])
      case Continue(next) =>
        var rest := RunFrom(x, e, k + 1, next);
        Run(rest.exit, rest.store, [issue] + rest.issued)
  }

  lemma {:induction false} RunFromEnd(x: Experiment, e: Executor, s: Store)
    ensures RunFrom(x, e, STAGES, s) == Finish(x, s)
  {
  }

  lemma {:induction false} RunFromStep(x: Experiment, e: Executor, k: StageIndex, s: Store)
    ensures var issue := Issue(RequestFor(x, k), s);
            RunFrom(x, e, k, s) ==
            match StageStep(x, e, k, s)
            case Stop(exit, t) => Run(exit, t, [issue])
            case Continue(t) =>
              var rest := RunFrom(x, e, k + 1, t);
              Run(rest.exit, rest.store, [issue] + rest.issued)
  {
  }

  /** A run behind requests issued before. */
  function Preceded(issued: seq<Issue>, rest: Run): Run {
    Run(rest.exit, rest.store, issued + rest.issued)
  }

  lemma {:induction false} Unpreceded(rest: Run)
    ensures Preceded([], rest) == rest
  {
    assert [] + rest.issued == rest.issued;
  }

  lemma {:induction false} PrecededStep(x: Experiment, e: Executor, k: StageIndex, s: Store, issued: seq<Issue>)
    ensures var more := issued + [Issue(RequestFor(x, k), s)];
            Preceded(issued, RunFrom(x, e, k, s)) ==
            match StageStep(x, e, k, s)
            case Stop(exit, t) => Run(exit, t, more)
            case Continue(t) => Preceded(more, RunFrom(x, e, k + 1, t))
  {
    hide StageStep, RunFrom, RequestFor;
    RunFromStep(x, e, k, s);
    var issue := Issue(RequestFor(x, k), s);
    if StageStep(x, e, k, s).Continue? {
      var rest := RunFrom(x, e, k + 1, StageStep(x, e, k, s).store);
      assert issued + ([issue] + rest.issued) == issued + [issue] + rest.issued;
    }
  }

  lemma {:induction false} PrecededEnd(x: Experiment, e: Executor, s: Store, issued: seq<Issue>)
    ensures var last := Finish(x, s); Preceded(issued, RunFrom(x, e, STAGES, s)) == Run(last.exit, last.store, issued)
  {
    RunFromEnd(x, e, s);
    assert Finish(x, s).issued == [] && issued + [] == issued;
  }

  /** `run_curriculum`: from a later stage on it first validates everything before. */
  function RunCurriculumSpec(x: Experiment, e: Executor, startStage: string, store: Store): Result<Run, LineageError> {
    match IndexOf(startStage)
    case None => Err(UnknownStage)
    case Some(k) =>
      match CheckThrough(x, store, k - 1)
      case Err(error) => Err(error)
      case Ok(_) => Ok(RunFrom(x, e, k, store))
  }

  /** The experiment directory on disk. */
  class Disk {
    var files: Store

    constructor (initial: Store)
      ensures files == initial
    {
      files := initial;
    }

    /** The stage loop of the driver. */
    method RunStages(x: Experiment, e: Executor, startIndex: StageIndex) returns (exit: Exit, ghost issued: seq<Issue>)
      modifies this
      ensures Run(exit, files, issued) == RunFrom(x, e, startIndex, old(files))
    {
      hide *;
      StageCount();
      Unpreceded(RunFrom(x, e, startIndex, files));
      var completed := STAGE_ORDER[..startIndex];
      var previousManifest := if startIndex == 0 then None else Some(ManifestPath(x, startIndex - 1));
      issued := [];
      var k: int := startIndex;
      while k < STAGES
        invariant startIndex <= k <= STAGES
        invariant completed == STAGE_ORDER[..k]
        invariant previousManifest == if k == 0 then None else Some(ManifestPath(x, k - 1))
        invariant Preceded(issued, RunFrom(x, e, k, files)) == RunFrom(x, e, startIndex, old(files))
      {
        PrecededStep(x, e, k, files, issued);
        issued := issued + [Issue(RequestFor(x, k), files)];
        var stopped;
        stopped, completed, previousManifest := RunStage(x, e, k, completed, previousManifest);
        if stopped.Some? {
          return stopped.value, issued;
        }
        k := k + 1;
      }
      PrecededEnd(x, e, files, issued);
      exit := FinishRun(x, completed);
    }

    /** The final state, behind the last stage. */
    method FinishRun(x: Experiment, completed: seq<string>) returns (exit: Exit)
      requires completed == STAGE_ORDER[..STAGES]
      modifies this
      ensures Run(exit, files, []) == Finish(x, old(files))
    {
      hide ManifestPath, AcceptedCheckpoint, Persist;
      var rollback := AcceptedCheckpoint(x, files, STAGES);
      if rollback.None? {
        return Escaped;
      }
      var state := CurriculumState("accepted", completed, None, Some(completed[|completed| - 1]), rollback.value, None);
      files := Persist(x, files, state);
      return Exited(state);
    }

    /** One turn of the stage loop. */
    method RunStage(x: Experiment, e: Executor, k: StageIndex, completed: seq<string>, previousManifest: Option<Path>)
      returns (stopped: Option<Exit>, completed': seq<string>, previousManifest': Option<Path>)
      requires completed == STAGE_ORDER[..k]
      requires previousManifest == if k == 0 then None else Some(ManifestPath(x, k - 1))
      modifies this
      ensures StageStep(x, e, k, old(files)) == if stopped.Some? then Stop(stopped.value, files) else Continue(files)
      ensures stopped.None? ==> completed' == STAGE_ORDER[..k + 1] && previousManifest' == Some(ManifestPath(x, k))
    {
      hide Execute, Verdict, ManifestPath, RunDir, AcceptedCheckpoint, Persist;
      completed', previousManifest' := completed, previousManifest;
      var reason := LaunchAndValidate(x, e, k, Request(STAGE_ORDER[k], RunDir(x, k), previousManifest));
      var rollback := AcceptedCheckpoint(x, files, if reason.Some? then k else k + 1);
      if rollback.None? {
        return Some(Escaped), completed', previousManifest';
      }
      if reason.Some? {
        var state := CurriculumState(
          "stopped", completed, Some(STAGE_ORDER[k]),
          if previousManifest.None? then None else Some(completed[|completed| - 1]), rollback.value, reason);
        files := Persist(x, files, state);
        return Some(Exited(state)), completed', previousManifest';
      }
      completed' := completed + [STAGE_ORDER[k]];
      assert completed' == STAGE_ORDER[..k + 1];
      previousManifest' := Some(ManifestPath(x, k));
      files := Persist(x, files,
                       CurriculumState("running", completed', None, Some(STAGE_ORDER[k]), rollback.value, None));
      stopped := None;
    }

    /** Run the executor of one stage, then validate the chain if it reports success. */
    method LaunchAndValidate(x: Experiment, e: Executor, k: StageIndex, request: Request)
      returns (reason: Option<Reason>)
      requires request == RequestFor(x, k)
      modifies this
      ensures files == Execute(x, e, k, old(files))
      ensures reason == Verdict(x, e, k, old(files))
    {
      var effect := e(request, files);
      files := ReplaceBelow(files, request.runDir, effect.files);
      match effect.outcome
      case Raised =>
        return Some(ExecutorRaised);
      case Returned(launched) =>
        if !launched {
          return Some(NotPromoted);
        }
        IndexOfStage(k);
        var current := ValidateLineage(x, files, request.stage);
        return if current.Err? then Some(LineageFailed(current.error)) else None;
    }

    method RunCurriculum(x: Experiment, e: Executor, startStage: string)
      returns (r: Result<Exit, LineageError>, ghost issued: seq<Issue>)
      modifies this
      ensures match RunCurriculumSpec(x, e, startStage, old(files))
              case Err(error) => r == Err(error) && files == old(files)
              case Ok(run) => r == Ok(run.exit) && files == run.store && issued == run.issued
    {
      issued := [];
      var index := IndexOf(startStage);
      if index.None? {
        return Err(UnknownStage), issued;
      }
      var k := index.value;
      if k > 0 {
        IndexOfStage(k - 1);
        var previous := ValidateLineage(x, files, STAGE_ORDER[k - 1]);
        if previous.Err? {
          return Err(previous.error), issued;
        }
      }
      var exit;
      exit, issued := RunStages(x, e, k);
      r := Ok(exit);
    }
  }

  lemma IndexOfStage(k: StageIndex)
    ensures IndexOf(STAGE_ORDER[k]) == Some(k)
  {
    var r := IndexOf(STAGE_ORDER[k]);
    if r.Some? {
      StageOrderFacts(r.value, k);
    }
  }
}
