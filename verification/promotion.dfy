/** Resumable promotion: a fixed schedule of evaluation workers whose outputs persist across crashes. */
module Promotion {
  import opened Common

  datatype Metrics = Metrics(hardFailures: int, values: seq<real>)

  /** Metrics of the baseline and of the candidate. */
  type Pair = (Metrics, Metrics)

  type Digests = map<string, string>

  /** Where a worker of the schedule leaves its output. */
  datatype OutputPath = Calibration(seed: int, pair: int) | CandidateEval(updates: int, seed: int)

  /** A worker manifest; missing metrics are None. */
  datatype Output = Output(
    status: string, mode: string, seed: int, steps: int, checkpointSha: Option<string>, lineage: Digests,
    baseline: Option<Metrics>, candidate: Option<Metrics>)

  type Outputs = map<OutputPath, Output>

  /** One worker of the schedule; the digest is that of its checkpoint file, None in calibration. */
  datatype Job = Job(path: OutputPath, mode: string, seed: int, checkpointSha: Option<string>)

  datatype WorkerError =
    | OutputExists | IdentityMismatch | WorkerRaised | NoOutput | ContractMismatch | CheckpointShaMismatch
    | LineageMismatch | MissingMetrics | BestShaMismatch

  const EVAL_STEPS := 4000

  const SHA_KEYS: seq<string> :=
    ["asset_sha256", "config_sha256", "reward_sha256", "runtime_sha256", "reward_runtime_bundle_sha256",
     "pilot_schema_sha256"]

  predicate SameDigest(out: Digests, expected: Digests, key: string) {
    key in out && key in expected && out[key] == expected[key]
  }

  function ValidateWorker(out: Option<Output>, job: Job, lineage: Digests): Result<Pair, WorkerError> {
    match out
    case None => Err(NoOutput)
    case Some(o) =>
      if o.status != "complete" || o.mode != job.mode || o.seed != job.seed || o.steps != EVAL_STEPS then
        Err(ContractMismatch)
      else if o.checkpointSha != job.checkpointSha then Err(CheckpointShaMismatch)
      else if exists k :: k in SHA_KEYS && !SameDigest(o.lineage, lineage, k) then Err(LineageMismatch)
      else if o.baseline.None? || o.candidate.None? then Err(MissingMetrics)
      else Ok((o.baseline.value, o.candidate.value))
  }

  /** An unfinished output that this very worker left. */
  predicate Retryable(o: Output, job: Job, lineage: Digests) {
    && (o.status == "failed" || o.status == "starting")
    && o.mode == job.mode && o.seed == job.seed && o.steps == EVAL_STEPS && o.checkpointSha == job.checkpointSha
    && forall k :: k in lineage ==> k in o.lineage && o.lineage[k] == lineage[k]
  }

  /** What a worker process leaves at its output path, and whether it failed. */
  datatype WorkerRun = WorkerRun(left: Option<Output>, raised: bool)

  type Worker = Job -> WorkerRun

  function Find(s: Outputs, p: OutputPath): Option<Output> {
    if p in s then Some(s[p]) else None
  }

  /** The output path set to what a worker left there. */
  function Leave(s: Outputs, p: OutputPath, left: Option<Output>): (r: Outputs)
    ensures Find(r, p) == left
    ensures forall q :: q != p ==> Find(r, q) == Find(s, q)
  {
    match left case None => s - {p} case Some(o) => s[p := o]
  }

  datatype JobRun = JobRun(result: Result<Pair, WorkerError>, outputs: Outputs, launched: bool)

  function Launch(s: Outputs, job: Job, lineage: Digests, worker: Worker): JobRun {
    var run := worker(job);
    var after := Leave(s, job.path, run.left);
    JobRun(if run.raised then Err(WorkerRaised) else ValidateWorker(run.left, job, lineage), after, true)
  }

  /** Reuse a complete output, retry an unfinished one, reject anything else, launch where there is none. */
  function RunOrResume(s: Outputs, job: Job, resume: bool, lineage: Digests, worker: Worker): JobRun {
    match Find(s, job.path)
    case None => Launch(s, job, lineage, worker)
    case Some(o) =>
      if !resume then JobRun(Err(OutputExists), s, false)
      else if o.status == "complete" then JobRun(ValidateWorker(Some(o), job, lineage), s, false)
      else if !Retryable(o, job, lineage) then JobRun(Err(IdentityMismatch), s, false)
      else Launch(s, job, lineage, worker)
  }

  /** A session over a schedule: results, remaining outputs, and the paths for which a worker was launched. */
  datatype Session = Session(result: Result<seq<Pair>, WorkerError>, outputs: Outputs, launched: seq<OutputPath>)

  /** A session that goes on after earlier results and launches. */
  function Prefixed(pairs: seq<Pair>, launched: seq<OutputPath>, rest: Session): (r: Session)
    ensures r.result.Ok? <==> rest.result.Ok?
    ensures r.result.Ok? ==> |r.result.value| == |pairs| + |rest.result.value|
  {
    Session(match rest.result case Err(e) => Err(e) case Ok(ps) => Ok(pairs + ps), rest.outputs,
            launched + rest.launched)
  }

  lemma PrefixedTwice(a: seq<Pair>, l: seq<OutputPath>, b: seq<Pair>, m: seq<OutputPath>, rest: Session)
    ensures Prefixed(a, l, Prefixed(b, m, rest)) == Prefixed(a + b, l + m, rest)
  {
    if rest.result.Ok? {
      assert a + (b + rest.result.value) == a + b + rest.result.value;
    }
    assert l + (m + rest.launched) == l + m + rest.launched;
  }

  lemma PrefixedNothing(a: seq<Pair>, l: seq<OutputPath>, rest: Session)
    ensures Prefixed([], [], rest) == rest
    ensures rest.result == Ok([]) && rest.launched == [] ==> Prefixed(a, l, rest) == Session(Ok(a), rest.outputs, l)
  {
    if rest.result.Ok? {
      assert [] + rest.result.value == rest.result.value;
    }
    assert [] + rest.launched == rest.launched;
    assert a + [] == a && l + [] == l;
  }

  function RunJobs(s: Outputs, jobs: seq<Job>, resume: bool, lineage: Digests, worker: Worker): (r: Session)
    ensures r.result.Ok? ==> |r.result.value| == |jobs|
    decreases |jobs|
  {
    if jobs == [] then Session(Ok([]), s, []) else
      var first := RunOrResume(s, jobs[0], resume, lineage, worker);
      var mine := if first.launched then [jobs[0].path] else [];
      match first.result
      case Err(e) => Session(Err(e), first.outputs, mine)
      case Ok(pair) =>
        var rest := RunJobs(first.outputs, jobs[1..], resume, lineage, worker);
        Prefixed([pair], mine, rest)
  }

  // ---- Any worker, any outputs ----

  /** Main result: no session ever alters or removes a complete output, whatever its workers do; one without `resume`
      alters nothing that was there, and one that resumes replaces only unfinished outputs of the same identity. */
  lemma {:induction false} FinishedOutputsSurvive(s: Outputs, jobs: seq<Job>, resume: bool, lineage: Digests,
                                                  worker: Worker, p: OutputPath)
    requires p in s
    requires !resume || s[p].status == "complete" || forall j :: j in jobs && j.path == p ==>
             !Retryable(s[p], j, lineage)
    ensures Find(RunJobs(s, jobs, resume, lineage, worker).outputs, p) == Some(s[p])
    decreases |jobs|
  {
    if jobs != [] {
      var first := RunOrResume(s, jobs[0], resume, lineage, worker);
      assert jobs[0] in jobs;
      assert Find(first.outputs, p) == Some(s[p]);
      if first.result.Ok? {
        assert forall j :: j in jobs[1..] ==> j in jobs;
        FinishedOutputsSurvive(first.outputs, jobs[1..], resume, lineage, worker, p);
      }
    }
  }

  // ---- Deterministic workers and crashes ----

  /** Valid, and with the metrics this job always yields. */
  ghost predicate Done(o: Option<Output>, job: Job, lineage: Digests, metrics: Job -> Pair) {
    o.Some? && o.value.status == "complete" && ValidateWorker(o, job, lineage) == Ok(metrics(job))
  }

  /** What a job's output can be at any moment: absent, unfinished by this job, or done. */
  ghost predicate Expected(o: Option<Output>, job: Job, lineage: Digests, metrics: Job -> Pair) {
    o.None? || Retryable(o.value, job, lineage) || Done(o, job, lineage, metrics)
  }

  ghost predicate Consistent(s: Outputs, jobs: seq<Job>, lineage: Digests, metrics: Job -> Pair) {
    forall j :: j in jobs ==> Expected(Find(s, j.path), j, lineage, metrics)
  }

  /** Every worker finishes with the metrics of its job. */
  ghost predicate Deterministic(worker: Worker, lineage: Digests, metrics: Job -> Pair) {
    forall j :: !worker(j).raised && Done(worker(j).left, j, lineage, metrics)
  }

  ghost predicate DistinctPaths(jobs: seq<Job>) {
    forall i, j :: 0 <= i < j < |jobs| ==> jobs[i].path != jobs[j].path
  }

  function MetricsOf(jobs: seq<Job>, metrics: Job -> Pair): (r: seq<Pair>)
    ensures |r| == |jobs|
  {
    if jobs == [] then [] else [metrics(jobs[0])] + MetricsOf(jobs[1..], metrics)
  }

  /** The paths of the jobs that are not done, in schedule order. */
  ghost function Unfinished(s: Outputs, jobs: seq<Job>, lineage: Digests, metrics: Job -> Pair): seq<OutputPath> {
    if jobs == [] then [] else
      (if Done(Find(s, jobs[0].path), jobs[0], lineage, metrics) then [] else [jobs[0].path]) +
      Unfinished(s, jobs[1..], lineage, metrics)
  }

  lemma OneJob(s: Outputs, job: Job, lineage: Digests, worker: Worker, metrics: Job -> Pair)
    requires Expected(Find(s, job.path), job, lineage, metrics) && Deterministic(worker, lineage, metrics)
    ensures var r := RunOrResume(s, job, true, lineage, worker);
            r.result == Ok(metrics(job)) && Done(Find(r.outputs, job.path), job, lineage, metrics) &&
            (r.launched <==> !Done(Find(s, job.path), job, lineage, metrics)) &&
            (!r.launched ==> r.outputs == s) &&
            (forall q :: q != job.path ==> Find(r.outputs, q) == Find(s, q))
  {
    assert Done(worker(job).left, job, lineage, metrics);
  }

  lemma {:induction false} UnfinishedElsewhere(s: Outputs, t: Outputs, jobs: seq<Job>, lineage: Digests,
                                               metrics: Job -> Pair)
    requires forall j :: j in jobs ==> Find(s, j.path) == Find(t, j.path)
    ensures Unfinished(s, jobs, lineage, metrics) == Unfinished(t, jobs, lineage, metrics)
  {
    if jobs != [] {
      assert jobs[0] in jobs;
      assert forall j :: j in jobs[1..] ==> j in jobs;
      UnfinishedElsewhere(s, t, jobs[1..], lineage, metrics);
    }
  }

  lemma TailPaths(jobs: seq<Job>)
    requires DistinctPaths(jobs) && jobs != []
    ensures DistinctPaths(jobs[1..])
    ensures forall j :: j in jobs[1..] ==> j in jobs && j.path != jobs[0].path
  {
    forall j | j in jobs[1..] ensures j in jobs && j.path != jobs[0].path {
      var i :| 1 <= i < |jobs| && jobs[i] == j;
    }
  }

  /** Main result: a resumed session over consistent outputs yields every job's metrics, launches exactly the absent and
      retryable ones, in order, and keeps every output that was done. */
  lemma {:induction false} ResumeCompletes(s: Outputs, jobs: seq<Job>, lineage: Digests, worker: Worker,
                                           metrics: Job -> Pair)
    requires DistinctPaths(jobs) && Consistent(s, jobs, lineage, metrics) && Deterministic(worker, lineage, metrics)
    ensures var r := RunJobs(s, jobs, true, lineage, worker);
            r.result == Ok(MetricsOf(jobs, metrics)) &&
            r.launched == Unfinished(s, jobs, lineage, metrics) &&
            (forall j :: j in jobs ==> Done(Find(r.outputs, j.path), j, lineage, metrics)) &&
            (forall p :: p !in Unfinished(s, jobs, lineage, metrics) ==> Find(r.outputs, p) == Find(s, p))
    decreases |jobs|
  {
    if jobs != [] {
      assert jobs[0] in jobs;
      OneJob(s, jobs[0], lineage, worker, metrics);
      TailPaths(jobs);
      var first := RunOrResume(s, jobs[0], true, lineage, worker);
      hide RunOrResume, Done, Expected, Deterministic, DistinctPaths;
      assert Consistent(first.outputs, jobs[1..], lineage, metrics);
      ResumeCompletes(first.outputs, jobs[1..], lineage, worker, metrics);
      UnfinishedElsewhere(s, first.outputs, jobs[1..], lineage, metrics);
      UnfinishedPaths(s, jobs[1..], lineage, metrics);
    }
  }

  lemma {:induction false} UnfinishedPaths(s: Outputs, jobs: seq<Job>, lineage: Digests, metrics: Job -> Pair)
    ensures forall p :: p in Unfinished(s, jobs, lineage, metrics) ==> exists j :: j in jobs && j.path == p
  {
    if jobs != [] {
      UnfinishedPaths(s, jobs[1..], lineage, metrics);
      forall p | p in Unfinished(s, jobs, lineage, metrics) ensures exists j :: j in jobs && j.path == p {
        if p !in Unfinished(s, jobs[1..], lineage, metrics) {
          assert jobs[0] in jobs && jobs[0].path == p;
        } else {
          var j :| j in jobs[1..] && j.path == p;
          assert j in jobs;
        }
      }
    }
  }
}
