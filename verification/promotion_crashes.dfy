/** Crashes of a promotion run, at any point of the schedule and inside any worker, and what resuming does. */
module PromotionCrashes {
  import opened Common
  import opened Promotion
  import opened PromotionRuns

  /** A crash in the turn of job `at`: the jobs before it went through; if its worker was launched it leaves `left`. */
  datatype Crash = Crash(at: nat, left: Option<Output>)

  function OutputsAfterCrash(s: Outputs, jobs: seq<Job>, c: Crash, lineage: Digests, worker: Worker): Outputs
    requires c.at < |jobs|
  {
    var before := RunJobs(s, jobs[..c.at], true, lineage, worker).outputs;
    if RunOrResume(before, jobs[c.at], true, lineage, worker).launched then
      Leave(before, jobs[c.at].path, c.left)
    else before
  }

  function OutputsAfterCrashes(s: Outputs, jobs: seq<Job>, crashes: seq<Crash>, lineage: Digests,
                               worker: Worker): Outputs
    requires forall c :: c in crashes ==> c.at < |jobs|
  {
    if crashes == [] then s else
      var n := |crashes| - 1;
      OutputsAfterCrash(OutputsAfterCrashes(s, jobs, crashes[..n], lineage, worker), jobs, crashes[n], lineage, worker)
  }

  /** A worker writes a starting manifest of its own identity first and replaces it atomically by a failed or a complete
      one; so a crash leaves nothing, an unfinished output of this job, or a done one. */
  ghost predicate Plausible(jobs: seq<Job>, crashes: seq<Crash>, lineage: Digests, metrics: Job -> Pair) {
    forall c :: c in crashes ==> c.at < |jobs| && Expected(c.left, jobs[c.at], lineage, metrics)
  }

  /** The manifest a worker writes before anything else. */
  function StartingOutput(job: Job, lineage: Digests): Output {
    Output("starting", job.mode, job.seed, EVAL_STEPS, job.checkpointSha, lineage, None, None)
  }

  /** The manifest of a worker whose rollout raised. */
  function FailedOutput(job: Job, lineage: Digests): Output {
    StartingOutput(job, lineage).(status := "failed")
  }

  function CompleteOutput(job: Job, lineage: Digests, pair: Pair): Output {
    StartingOutput(job, lineage).(status := "complete", baseline := Some(pair.0), candidate := Some(pair.1))
  }

  /** Every moment of a worker's life is a plausible crash. */
  lemma WorkerLifeIsExpected(job: Job, lineage: Digests, metrics: Job -> Pair)
    requires forall k :: k in SHA_KEYS ==> k in lineage
    ensures Expected(None, job, lineage, metrics)
    ensures Expected(Some(StartingOutput(job, lineage)), job, lineage, metrics)
    ensures Expected(Some(FailedOutput(job, lineage)), job, lineage, metrics)
    ensures Done(Some(CompleteOutput(job, lineage, metrics(job))), job, lineage, metrics)
  {
  }

  lemma PrefixJobs(jobs: seq<Job>, n: nat)
    requires DistinctPaths(jobs) && n < |jobs|
    ensures DistinctPaths(jobs[..n])
    ensures forall j :: j in jobs[..n] ==> j in jobs && j.path != jobs[n].path
  {
    forall j | j in jobs[..n] ensures j in jobs && j.path != jobs[n].path {
      var i :| 0 <= i < n && jobs[i] == j;
    }
  }

  lemma SameJob(jobs: seq<Job>, i: nat, j: Job)
    requires DistinctPaths(jobs) && i < |jobs| && j in jobs && j.path == jobs[i].path
    ensures j == jobs[i]
  {
    var k :| 0 <= k < |jobs| && jobs[k] == j;
  }

  /** After the jobs before a crash, every output is still as expected. */
  lemma PrefixKeepsConsistent(s: Outputs, jobs: seq<Job>, n: nat, lineage: Digests, worker: Worker,
                              metrics: Job -> Pair)
    requires DistinctPaths(jobs) && Consistent(s, jobs, lineage, metrics) && Deterministic(worker, lineage, metrics) &&
             n < |jobs|
    ensures Consistent(RunJobs(s, jobs[..n], true, lineage, worker).outputs, jobs, lineage, metrics)
  {
    hide RunJobs, Done, Deterministic;
    PrefixJobs(jobs, n);
    ResumeCompletes(s, jobs[..n], lineage, worker, metrics);
    UnfinishedPaths(s, jobs[..n], lineage, metrics);
    var after := RunJobs(s, jobs[..n], true, lineage, worker).outputs;
    forall j | j in jobs ensures Expected(Find(after, j.path), j, lineage, metrics) {
      if j.path in Unfinished(s, jobs[..n], lineage, metrics) {
        var i :| i in jobs[..n] && i.path == j.path;
        var k :| 0 <= k < n && jobs[k] == i;
        SameJob(jobs, k, j);
        assert Done(Find(after, j.path), j, lineage, metrics);
      }
    }
  }

  lemma CrashKeepsConsistent(s: Outputs, jobs: seq<Job>, c: Crash, lineage: Digests, worker: Worker,
                             metrics: Job -> Pair)
    requires DistinctPaths(jobs) && Consistent(s, jobs, lineage, metrics) && Deterministic(worker, lineage, metrics)
    requires c.at < |jobs| && Expected(c.left, jobs[c.at], lineage, metrics)
    ensures Consistent(OutputsAfterCrash(s, jobs, c, lineage, worker), jobs, lineage, metrics)
  {
    PrefixKeepsConsistent(s, jobs, c.at, lineage, worker, metrics);
    hide RunJobs, RunOrResume, Expected, Deterministic;
    var after := OutputsAfterCrash(s, jobs, c, lineage, worker);
    forall j | j in jobs ensures Expected(Find(after, j.path), j, lineage, metrics) {
      if j.path == jobs[c.at].path {
        SameJob(jobs, c.at, j);
      }
    }
  }

  lemma {:induction false} CrashesKeepConsistent(s: Outputs, jobs: seq<Job>, crashes: seq<Crash>, lineage: Digests,
                                                 worker: Worker, metrics: Job -> Pair)
    requires DistinctPaths(jobs) && Consistent(s, jobs, lineage, metrics) && Deterministic(worker, lineage, metrics)
    requires Plausible(jobs, crashes, lineage, metrics)
    ensures Consistent(OutputsAfterCrashes(s, jobs, crashes, lineage, worker), jobs, lineage, metrics)
  {
    hide Consistent, Deterministic, DistinctPaths, Expected, OutputsAfterCrash;
    if crashes != [] {
      var n := |crashes| - 1;
      assert crashes[n] in crashes && forall c :: c in crashes[..n] ==> c in crashes;
      CrashesKeepConsistent(s, jobs, crashes[..n], lineage, worker, metrics);
      CrashKeepsConsistent(OutputsAfterCrashes(s, jobs, crashes[..n], lineage, worker), jobs, crashes[n], lineage,
                           worker, metrics);
    }
  }

  /** No output of the schedule is there yet. */
  ghost predicate Fresh(s: Outputs, jobs: seq<Job>) {
    forall j :: j in jobs ==> j.path !in s
  }

  /** Without earlier outputs it makes no difference whether a session resumes. */
  lemma {:induction false} FreshNeedsNoResume(s: Outputs, jobs: seq<Job>, lineage: Digests, worker: Worker)
    requires DistinctPaths(jobs) && Fresh(s, jobs)
    ensures RunJobs(s, jobs, false, lineage, worker) == RunJobs(s, jobs, true, lineage, worker)
    decreases |jobs|
  {
    if jobs != [] {
      assert jobs[0] in jobs;
      TailPaths(jobs);
      var first := RunOrResume(s, jobs[0], false, lineage, worker);
      assert first == RunOrResume(s, jobs[0], true, lineage, worker);
      if first.result.Ok? {
        forall j | j in jobs[1..] ensures j.path !in first.outputs {
          assert Find(first.outputs, j.path) == Find(s, j.path);
        }
        FreshNeedsNoResume(first.outputs, jobs[1..], lineage, worker);
      }
    }
  }

  /** Without `resume`, outputs that are already there are refused, not reused. */
  lemma {:induction false} NoResumeRefuses(s: Outputs, jobs: seq<Job>, lineage: Digests, worker: Worker, j: Job)
    requires j in jobs && j.path in s
    ensures RunJobs(s, jobs, false, lineage, worker).result.Err?
    decreases |jobs|
  {
    var first := RunOrResume(s, jobs[0], false, lineage, worker);
    if first.result.Ok? {
      assert jobs[0].path !in s;
      assert jobs == [jobs[0]] + jobs[1..];
      assert Find(first.outputs, j.path) == Find(s, j.path);
      NoResumeRefuses(first.outputs, jobs[1..], lineage, worker, j);
    }
  }

  // ---- A path used twice ----

  /** A complete output that another job left is refused by a session that resumes. */
  lemma {:induction false} OthersOutputRefused(s: Outputs, jobs: seq<Job>, lineage: Digests, worker: Worker, j: Job)
    requires j in jobs && j.path in s && s[j.path].status == "complete" &&
             ValidateWorker(Some(s[j.path]), j, lineage).Err?
    ensures RunJobs(s, jobs, true, lineage, worker).result.Err?
    decreases |jobs|
  {
    hide ValidateWorker;
    var first := RunOrResume(s, jobs[0], true, lineage, worker);
    if first.result.Ok? && j != jobs[0] {
      assert jobs == [jobs[0]] + jobs[1..];
      assert Find(first.outputs, j.path) == Find(s, j.path);
      OthersOutputRefused(first.outputs, jobs[1..], lineage, worker, j);
    }
  }

  /** An output is valid for no job but the one it names. */
  lemma {:induction false} ValidForOneJob(o: Option<Output>, j: Job, k: Job, lineage: Digests)
    requires ValidateWorker(o, j, lineage).Ok? && j.path == k.path && j != k
    ensures ValidateWorker(o, k, lineage).Err?
  {
    assert j.mode != k.mode || j.seed != k.seed || j.checkpointSha != k.checkpointSha;
  }

  lemma {:induction false} SuccessIsValid(s: Outputs, job: Job, resume: bool, lineage: Digests, worker: Worker)
    requires RunOrResume(s, job, resume, lineage, worker).result.Ok?
    ensures var after := RunOrResume(s, job, resume, lineage, worker).outputs;
            job.path in after && after[job.path].status == "complete" &&
            ValidateWorker(Some(after[job.path]), job, lineage).Ok?
  {
    assert Find(Leave(s, job.path, worker(job).left), job.path) == worker(job).left;
  }

  /** Main result: a schedule that uses a path twice never completes without `resume`, and with it only if the jobs
      agree, whatever the workers do and whatever was there before. */
  lemma {:induction false} RepeatedPathFails(s: Outputs, jobs: seq<Job>, resume: bool, lineage: Digests, worker: Worker,
                                             i: nat, k: nat)
    requires i < k < |jobs| && jobs[i].path == jobs[k].path && (!resume || jobs[i] != jobs[k])
    ensures RunJobs(s, jobs, resume, lineage, worker).result.Err?
    decreases i
  {
    var first := RunOrResume(s, jobs[0], resume, lineage, worker);
    if first.result.Ok? {
      assert jobs[1..][k - 1] == jobs[k];
      if i > 0 {
        RepeatedPathFails(first.outputs, jobs[1..], resume, lineage, worker, i - 1, k - 1);
      } else {
        SuccessIsValid(s, jobs[0], resume, lineage, worker);
        if resume {
          ValidForOneJob(Some(first.outputs[jobs[k].path]), jobs[0], jobs[k], lineage);
          OthersOutputRefused(first.outputs, jobs[1..], lineage, worker, jobs[k]);
        } else {
          NoResumeRefuses(first.outputs, jobs[1..], lineage, worker, jobs[k]);
        }
      }
    }
  }

  /** Jobs with the same path are the same job. */
  ghost predicate SamePathSameJob(jobs: seq<Job>) {
    forall i, k :: 0 <= i < k < |jobs| && jobs[i].path == jobs[k].path ==> jobs[i] == jobs[k]
  }

  /** Repeated jobs are reused by a session that resumes. */
  lemma {:induction false} RepeatsAreReused(s: Outputs, jobs: seq<Job>, lineage: Digests, worker: Worker,
                                            metrics: Job -> Pair)
    requires SamePathSameJob(jobs) && Consistent(s, jobs, lineage, metrics) && Deterministic(worker, lineage, metrics)
    ensures RunJobs(s, jobs, true, lineage, worker).result == Ok(MetricsOf(jobs, metrics))
    decreases |jobs|
  {
    if jobs != [] {
      assert jobs[0] in jobs;
      OneJob(s, jobs[0], lineage, worker, metrics);
      var first := RunOrResume(s, jobs[0], true, lineage, worker);
      hide RunOrResume, Done, Deterministic;
      forall j | j in jobs[1..] ensures Expected(Find(first.outputs, j.path), j, lineage, metrics) {
        assert j in jobs;
        assert j.path == jobs[0].path ==> j == jobs[0];
      }
      assert forall i :: 0 <= i < |jobs[1..]| ==> jobs[1..][i] == jobs[i + 1];
      RepeatsAreReused(first.outputs, jobs[1..], lineage, worker, metrics);
    }
  }

  /** Main result: over new outputs and with workers that do their job, a session completes exactly when no path is used
      twice, or, if it resumes, when each path belongs to one job. */
  lemma {:induction false} CompletesExactlyWhen(s: Outputs, jobs: seq<Job>, lineage: Digests, worker: Worker,
                                                metrics: Job -> Pair)
    requires Fresh(s, jobs) && Deterministic(worker, lineage, metrics)
    ensures RunJobs(s, jobs, false, lineage, worker).result.Ok? <==> DistinctPaths(jobs)
    ensures RunJobs(s, jobs, true, lineage, worker).result.Ok? <==> SamePathSameJob(jobs)
  {
    hide RunJobs, Deterministic, Done;
    assert Consistent(s, jobs, lineage, metrics);
    if SamePathSameJob(jobs) {
      RepeatsAreReused(s, jobs, lineage, worker, metrics);
    } else {
      var i, k :| 0 <= i < k < |jobs| && jobs[i].path == jobs[k].path && jobs[i] != jobs[k];
      RepeatedPathFails(s, jobs, true, lineage, worker, i, k);
    }
    if DistinctPaths(jobs) {
      FreshNeedsNoResume(s, jobs, lineage, worker);
    } else {
      var i, k :| 0 <= i < k < |jobs| && jobs[i].path == jobs[k].path;
      RepeatedPathFails(s, jobs, false, lineage, worker, i, k);
    }
  }

  /** When everything is done, nothing is left to launch. */
  lemma {:induction false} DoneIsFinished(s: Outputs, jobs: seq<Job>, lineage: Digests, metrics: Job -> Pair)
    requires forall j :: j in jobs ==> Done(Find(s, j.path), j, lineage, metrics)
    ensures Unfinished(s, jobs, lineage, metrics) == [] && Consistent(s, jobs, lineage, metrics)
  {
    hide Done;
    if jobs != [] {
      assert jobs[0] in jobs;
      assert forall j :: j in jobs[1..] ==> j in jobs;
      DoneIsFinished(s, jobs[1..], lineage, metrics);
    }
  }

  /** Main result: crash and resume. After any number of crashes, at any jobs and inside any workers, a resumed session
      launches exactly the absent and retryable outputs and gives the pairs of an uninterrupted one; resuming once more
      launches nothing and gives them again. */
  lemma {:induction false} CrashAndResume(s: Outputs, jobs: seq<Job>, crashes: seq<Crash>, lineage: Digests,
                                          worker: Worker, metrics: Job -> Pair)
    requires DistinctPaths(jobs) && Fresh(s, jobs) && Deterministic(worker, lineage, metrics)
    requires Plausible(jobs, crashes, lineage, metrics)
    ensures var crashed := OutputsAfterCrashes(s, jobs, crashes, lineage, worker);
            var resumed, whole := RunJobs(crashed, jobs, true, lineage, worker),
              RunJobs(s, jobs, false, lineage, worker);
            var again := RunJobs(resumed.outputs, jobs, true, lineage, worker);
            resumed.result == whole.result == again.result == Ok(MetricsOf(jobs, metrics)) &&
            resumed.launched == Unfinished(crashed, jobs, lineage, metrics) && again.launched == []
  {
    assert Consistent(s, jobs, lineage, metrics);
    hide RunJobs, Done, Deterministic, DistinctPaths, Consistent, OutputsAfterCrashes;
    CrashesKeepConsistent(s, jobs, crashes, lineage, worker, metrics);
    var crashed := OutputsAfterCrashes(s, jobs, crashes, lineage, worker);
    ResumeCompletes(crashed, jobs, lineage, worker, metrics);
    ResumeCompletes(s, jobs, lineage, worker, metrics);
    FreshNeedsNoResume(s, jobs, lineage, worker);
    var resumed := RunJobs(crashed, jobs, true, lineage, worker);
    DoneIsFinished(resumed.outputs, jobs, lineage, metrics);
    ResumeCompletes(resumed.outputs, jobs, lineage, worker, metrics);
  }

  // ---- The schedule of a promotion ----

  ghost predicate DistinctUpdates(records: seq<Record>) {
    forall i, j :: 0 <= i < j < |records| ==> records[i].updates != records[j].updates
  }

  lemma {:induction false} CandidatePaths(records: seq<Record>, j: Job)
    requires j in AllCandidateJobs(records)
    ensures exists i, seed :: 0 <= i < |records| && j.path == CandidateEval(records[i].updates, seed)
  {
    var n := |records| - 1;
    if j in AllCandidateJobs(records[..n]) {
      CandidatePaths(records[..n], j);
      var i, seed :| 0 <= i < |records[..n]| && j.path == CandidateEval(records[..n][i].updates, seed);
      assert records[i] == records[..n][i];
    } else {
      assert j in CandidateJobs(records[n]);
      assert j.path == CandidateEval(records[n].updates, j.seed);
    }
  }

  lemma AppendDistinct(a: seq<Job>, b: seq<Job>)
    requires DistinctPaths(a) && DistinctPaths(b) && forall x, y :: x in a && y in b ==> x.path != y.path
    ensures DistinctPaths(a + b)
  {
  }

  lemma {:induction false} CandidatesDistinct(records: seq<Record>)
    requires DistinctUpdates(records)
    ensures DistinctPaths(AllCandidateJobs(records))
  {
    if records != [] {
      var n := |records| - 1;
      CandidatesDistinct(records[..n]);
      var before, own := AllCandidateJobs(records[..n]), CandidateJobs(records[n]);
      forall x, y | x in before && y in own ensures x.path != y.path {
        CandidatePaths(records[..n], x);
        var i, seed :| 0 <= i < |records[..n]| && x.path == CandidateEval(records[..n][i].updates, seed);
        assert records[..n][i] == records[i];
      }
      AppendDistinct(before, own);
    }
  }

  lemma CalibrationDistinct()
    ensures DistinctPaths(CalibrationJobs())
    ensures forall j :: j in CalibrationJobs() ==> j.path.Calibration?
  {
    var jobs := CalibrationJobs();
    forall i, j | 0 <= i < j < |jobs| ensures jobs[i].path != jobs[j].path {
      assert jobs[i].path == Calibration(42 + i / 3, i % 3);
      assert jobs[j].path == Calibration(42 + j / 3, j % 3);
    }
  }

  /** Candidates with distinct update counts give a schedule without a path used twice. */
  lemma {:induction false} ScheduleDistinct(records: seq<Record>)
    requires DistinctUpdates(records)
    ensures DistinctPaths(Schedule(records))
  {
    hide CalibrationJobs;
    CandidatesDistinct(records);
    CalibrationDistinct();
    var before, own := CalibrationJobs(), AllCandidateJobs(records);
    forall x, y | x in before && y in own ensures x.path != y.path {
      CandidatePaths(records, y);
      assert x.path.Calibration?;
    }
    AppendDistinct(before, own);
  }

  /** Main result, for the whole promotion: whatever crashed before, resuming gives the decision of a run that was never
      interrupted, and publishes or refuses the same checkpoint. */
  lemma {:induction false} SameDecision<T, D>(s: Outputs, records: seq<Record>, crashes: seq<Crash>, lineage: Digests,
                                              worker: Worker,
                                              metrics: Job -> Pair, judge: Judge<T, D>, files: FileDigests)
    requires DistinctUpdates(records) && Fresh(s, Schedule(records)) && Deterministic(worker, lineage, metrics)
    requires Plausible(Schedule(records), crashes, lineage, metrics)
    ensures var crashed := OutputsAfterCrashes(s, Schedule(records), crashes, lineage, worker);
            PromotionResult(crashed, records, true, lineage, worker, judge, files) ==
            PromotionResult(s, records, false, lineage, worker, judge, files) &&
            PromotionResult(s, records, false, lineage, worker, judge, files) ==
            Publish(Decide(judge, records, MetricsOf(Schedule(records), metrics)), files)
  {
    hide RunJobs, DistinctPaths, Deterministic, Plausible, Fresh, Unfinished, Decide, Schedule, Publish;
    ScheduleDistinct(records);
    CrashAndResume(s, Schedule(records), crashes, lineage, worker, metrics);
  }
}
