/** Whole promotion runs: the schedule, the driver's loops, crashes between and inside workers, and the decision. */
module PromotionRuns {
  import opened Common
  import opened Promotion

  /** A candidate checkpoint of the input manifest. */
  datatype Record = Record(updates: int, checkpoint: string, sha: string)

  function CalibrationJob(seed: int, pair: int): Job {
    Job(Calibration(seed, pair), "zero-pair", seed, None)
  }

  /** Seed by seed, pair by pair. */
  function CalibrationJobs(): seq<Job> {
    [CalibrationJob(42, 0), CalibrationJob(42, 1), CalibrationJob(42, 2),
     CalibrationJob(43, 0), CalibrationJob(43, 1), CalibrationJob(43, 2),
     CalibrationJob(44, 0), CalibrationJob(44, 1), CalibrationJob(44, 2)]
  }

  function CandidateJob(r: Record, seed: int): Job {
    Job(CandidateEval(r.updates, seed), "candidate", seed, Some(r.sha))
  }

  function CandidateJobs(r: Record): seq<Job> {
    [CandidateJob(r, 42), CandidateJob(r, 43), CandidateJob(r, 44)]
  }

  function AllCandidateJobs(records: seq<Record>): (jobs: seq<Job>)
    ensures |jobs| == 3 * |records|
  {
    if records == [] then [] else
      var n := |records| - 1;
      AllCandidateJobs(records[..n]) + CandidateJobs(records[n])
  }

  function Schedule(records: seq<Record>): seq<Job> {
    CalibrationJobs() + AllCandidateJobs(records)
  }

  // ---- The decision, over uninterpreted judgements ----

  datatype Judge<!T, !D> = Judge(
    calibrate: seq<Pair> -> T, evaluate: (seq<Pair>, T) -> D, select: (seq<Promoted<D>>, T) -> Option<Promoted<D>>)

  datatype Promoted<D> = Promoted(record: Record, decision: D)

  /** The result manifest, as far as it depends on the workers. */
  datatype Verdict<T, D> = Verdict(tolerances: T, promoted: seq<Promoted<D>>, selected: Option<Promoted<D>>)

  function Judged<T, D>(judge: Judge<T, D>, tolerances: T, records: seq<Record>,
                        pairs: seq<Pair>): (r: seq<Promoted<D>>)
    requires |pairs| == 3 * |records|
    ensures |r| == |records|
  {
    if records == [] then [] else
      var n := |records| - 1;
      Judged(judge, tolerances, records[..n], pairs[..3 * n]) +
        [Promoted(records[n], judge.evaluate(pairs[3 * n..], tolerances))]
  }

  function Decide<T, D>(judge: Judge<T, D>, records: seq<Record>, pairs: seq<Pair>): Verdict<T, D>
    requires |pairs| == 9 + 3 * |records|
  {
    var tolerances := judge.calibrate(pairs[..9]);
    var promoted := Judged(judge, tolerances, records, pairs[9..]);
    Verdict(tolerances, promoted, judge.select(promoted, tolerances))
  }

  /** The digests of the checkpoint files at the time the best one is published. */
  type FileDigests = string -> string

  /** The verdict stands if nothing was selected, or the published copy has the digest the candidate was listed with. */
  function Publish<T, D>(verdict: Verdict<T, D>, files: FileDigests): Result<Verdict<T, D>, WorkerError> {
    if verdict.selected.Some? && files(verdict.selected.value.record.checkpoint) != verdict.selected.value.record.sha
    then Err(BestShaMismatch) else Ok(verdict)
  }

  /** The digest of the published best checkpoint, which is replaced before it is rechecked. */
  function PublishedBest<T, D>(verdict: Verdict<T, D>, files: FileDigests, before: Option<string>): Option<string> {
    if verdict.selected.Some? then Some(files(verdict.selected.value.record.checkpoint)) else before
  }

  /** `run_promotion`: the workers of the schedule, then the decision and its publication. */
  function PromotionResult<T, D>(s: Outputs, records: seq<Record>, resume: bool, lineage: Digests, worker: Worker,
                                 judge: Judge<T, D>,
                                 files: FileDigests): Result<Verdict<T, D>, WorkerError>
  {
    match RunJobs(s, Schedule(records), resume, lineage, worker).result
    case Err(e) => Err(e)
    case Ok(pairs) => Publish(Decide(judge, records, pairs), files)
  }

  // ---- Sessions compose ----

  lemma {:induction false} RunJobsAppend(s: Outputs, a: seq<Job>, b: seq<Job>, resume: bool, lineage: Digests,
                                         worker: Worker)
    ensures var first, whole := RunJobs(s, a, resume, lineage, worker), RunJobs(s, a + b, resume, lineage, worker);
            (first.result.Err? ==> whole == first) &&
            (first.result.Ok? ==>
              whole == Prefixed(first.result.value, first.launched, RunJobs(first.outputs, b, resume, lineage, worker)))
    decreases |a|
  {
    hide RunOrResume, Prefixed;
    if a == [] {
      assert a + b == b;
      PrefixedNothing([], [], RunJobs(s, b, resume, lineage, worker));
    } else {
      var one := RunOrResume(s, a[0], resume, lineage, worker);
      var mine := if one.launched then [a[0].path] else [];
      assert (a + b)[0] == a[0] && (a + b)[1..] == a[1..] + b;
      if one.result.Ok? {
        RunJobsAppend(one.outputs, a[1..], b, resume, lineage, worker);
        var tail := RunJobs(one.outputs, a[1..], resume, lineage, worker);
        PrefixedOk([one.result.value], mine, tail);
        if tail.result.Ok? {
          PrefixedTwice([one.result.value], mine, tail.result.value, tail.launched,
                        RunJobs(tail.outputs, b, resume, lineage, worker));
        }
      }
    }
  }

  lemma PrefixedOk(a: seq<Pair>, l: seq<OutputPath>, rest: Session)
    ensures Prefixed(a, l, rest).outputs == rest.outputs && Prefixed(a, l, rest).launched == l + rest.launched
    ensures rest.result.Ok? ==> Prefixed(a, l, rest).result == Ok(a + rest.result.value)
    ensures rest.result.Err? ==> Prefixed(a, l, rest).result == rest.result
  {
  }

  /** The run directory: worker outputs, and the files the driver publishes. */
  class RunDirectory<T(0), D> {
    var outputs: Outputs
    var calibration: Option<T>
    var best: Option<string>
    var manifest: Option<Verdict<T, D>>

    constructor (initial: Outputs)
      ensures outputs == initial && calibration == None && best == None && manifest == None
    {
      outputs := initial;
      calibration := None;
      best := None;
      manifest := None;
    }

    method RunOrResumeWorker(job: Job, resume: bool, lineage: Digests, worker: Worker)
      returns (r: Result<Pair, WorkerError>, ghost launched: bool)
      modifies this`outputs
      ensures JobRun(r, outputs, launched) == RunOrResume(old(outputs), job, resume, lineage, worker)
    {
      launched := false;
      if job.path in outputs {
        if !resume {
          return Err(OutputExists), launched;
        }
        var document := outputs[job.path];
        if document.status == "complete" {
          return ValidateWorker(Some(document), job, lineage), launched;
        }
        if !Retryable(document, job, lineage) {
          return Err(IdentityMismatch), launched;
        }
        outputs := outputs - {job.path};
      }
      launched := true;
      var run := worker(job);
      assert Leave(outputs, job.path, run.left) == Leave(old(outputs), job.path, run.left);
      outputs := Leave(outputs, job.path, run.left);
      if run.raised {
        return Err(WorkerRaised), launched;
      }
      r := ValidateWorker(Find(outputs, job.path), job, lineage);
    }

    /** The inner loop: some workers one after the other. */
    method RunWorkers(jobs: seq<Job>, resume: bool, lineage: Digests, worker: Worker)
      returns (r: Result<seq<Pair>, WorkerError>, ghost launched: seq<OutputPath>)
      modifies this`outputs
      ensures Session(r, outputs, launched) == RunJobs(old(outputs), jobs, resume, lineage, worker)
    {
      hide RunOrResume;
      var pairs: seq<Pair> := [];
      launched := [];
      for i := 0 to |jobs|
        invariant Session(Ok(pairs), outputs, launched) == RunJobs(old(outputs), jobs[..i], resume, lineage, worker)
      {
        ghost var before := outputs;
        var one;
        ghost var mine;
        one, mine := RunOrResumeWorker(jobs[i], resume, lineage, worker);
        launched := launched + (if mine then [jobs[i].path] else []);
        OneMore(old(outputs), jobs, i, resume, lineage, worker);
        if one.Err? {
          return Err(one.error), launched;
        }
        pairs := pairs + [one.value];
      }
      assert jobs[..|jobs|] == jobs;
      r := Ok(pairs);
    }

    method RunPromotion(records: seq<Record>, resume: bool, lineage: Digests, worker: Worker, judge: Judge<T, D>,
                        files: FileDigests)
      returns (r: Result<Verdict<T, D>, WorkerError>, ghost launched: seq<OutputPath>)
      modifies this
      ensures r == PromotionResult(old(outputs), records, resume, lineage, worker, judge, files)
      ensures ghost var session := RunJobs(old(outputs), Schedule(records), resume, lineage, worker);
              outputs == session.outputs && launched == session.launched &&
              best ==
              (if session.result.Ok? then PublishedBest(Decide(judge, records, session.result.value), files, old(best))
               else old(best))
      ensures ghost var zero := RunJobs(old(outputs), CalibrationJobs(), resume, lineage, worker).result;
              calibration == if zero.Ok? then Some(judge.calibrate(zero.value)) else old(calibration)
      ensures manifest == if r.Ok? then Some(r.value) else old(manifest)
    {
      hide RunJobs, Decide, PublishedBest;
      var decided;
      decided, launched := DecideOnWorkers(records, resume, lineage, worker, judge);
      if decided.Err? {
        return decided, launched;
      }
      r := PublishVerdict(decided.value, files);
    }

    /** The best checkpoint is copied and rechecked, then the manifest is written. */
    method PublishVerdict(verdict: Verdict<T, D>, files: FileDigests) returns (r: Result<Verdict<T, D>, WorkerError>)
      modifies `best, `manifest
      ensures r == Publish(verdict, files) && best == PublishedBest(verdict, files, old(best))
      ensures manifest == if r.Ok? then Some(verdict) else old(manifest)
    {
      if verdict.selected.Some? {
        var record := verdict.selected.value.record;
        best := Some(files(record.checkpoint));
        if best.value != record.sha {
          return Err(BestShaMismatch);
        }
      }
      manifest := Some(verdict);
      r := Ok(verdict);
    }

    /** All workers, calibration first, and the decision they lead to. */
    method DecideOnWorkers(records: seq<Record>, resume: bool, lineage: Digests, worker: Worker, judge: Judge<T, D>)
      returns (r: Result<Verdict<T, D>, WorkerError>, ghost launched: seq<OutputPath>)
      modifies `outputs, `calibration
      ensures ghost var session := RunJobs(old(outputs), Schedule(records), resume, lineage, worker);
              outputs == session.outputs && launched == session.launched &&
              r == match session.result case Err(e) => Err(e) case Ok(pairs) => Ok(Decide(judge, records, pairs))
      ensures ghost var zero := RunJobs(old(outputs), CalibrationJobs(), resume, lineage, worker).result;
              calibration == if zero.Ok? then Some(judge.calibrate(zero.value)) else old(calibration)
    {
      var zeroPairs;
      zeroPairs, launched := RunWorkers(CalibrationJobs(), resume, lineage, worker);
      RunJobsAppend(old(outputs), CalibrationJobs(), AllCandidateJobs(records), resume, lineage, worker);
      assert |CalibrationJobs()| == 9;
      hide RunJobs, CalibrationJobs, AllCandidateJobs, Judged;
      if zeroPairs.Err? {
        return Err(zeroPairs.error), launched;
      }
      var tolerances := judge.calibrate(zeroPairs.value);
      calibration := Some(tolerances);
      var promoted;
      ghost var mine;
      ghost var pairs;
      promoted, mine, pairs := EvaluateRecords(records, tolerances, resume, lineage, worker, judge);
      launched := launched + mine;
      if promoted.Err? {
        return Err(promoted.error), launched;
      }
      assert (zeroPairs.value + pairs)[..9] == zeroPairs.value && (zeroPairs.value + pairs)[9..] == pairs;
      r := Ok(Verdict(tolerances, promoted.value, judge.select(promoted.value, tolerances)));
    }

    /** The loop over the candidates. */
    method EvaluateRecords(records: seq<Record>, tolerances: T, resume: bool, lineage: Digests, worker: Worker,
                           judge: Judge<T, D>)
      returns (r: Result<seq<Promoted<D>>, WorkerError>, ghost launched: seq<OutputPath>, ghost pairs: seq<Pair>)
      modifies this`outputs
      ensures ghost var session := RunJobs(old(outputs), AllCandidateJobs(records), resume, lineage, worker);
              outputs == session.outputs && launched == session.launched &&
              (r.Err? ==> session.result == Err(r.error)) &&
              (r.Ok? ==> session.result == Ok(pairs) && r.value == Judged(judge, tolerances, records, pairs))
    {
      var promoted: seq<Promoted<D>> := [];
      launched, pairs := [], [];
      for i := 0 to |records|
        invariant Session(Ok(pairs), outputs, launched) ==
                  RunJobs(old(outputs), AllCandidateJobs(records[..i]), resume, lineage, worker)
        invariant promoted == Judged(judge, tolerances, records[..i], pairs)
      {
        var results;
        ghost var mine;
        results, mine := RunWorkers(CandidateJobs(records[i]), resume, lineage, worker);
        launched := launched + mine;
        OneMoreRecord(old(outputs), records, i, resume, lineage, worker);
        if results.Err? {
          return Err(results.error), launched, pairs;
        }
        promoted := promoted + [Promoted(records[i], judge.evaluate(results.value, tolerances))];
        JudgedStep(judge, tolerances, records, i, pairs, results.value);
        pairs := pairs + results.value;
      }
      assert records[..|records|] == records;
      r := Ok(promoted);
    }
  }

  lemma JudgedStep<T, D>(judge: Judge<T, D>, tolerances: T, records: seq<Record>, i: nat, pairs: seq<Pair>,
                         own: seq<Pair>)
    requires i < |records| && |pairs| == 3 * i && |own| == 3
    ensures Judged(judge, tolerances, records[..i + 1], pairs + own) ==
            Judged(judge, tolerances, records[..i], pairs) + [Promoted(records[i], judge.evaluate(own, tolerances))]
  {
    assert records[..i + 1][..i] == records[..i];
    assert (pairs + own)[..3 * i] == pairs && (pairs + own)[3 * i..] == own;
  }

  /** A session over the first i jobs, then one more; a failing job ends the whole session. */
  lemma {:induction false} OneMore(s: Outputs, jobs: seq<Job>, i: nat, resume: bool, lineage: Digests, worker: Worker)
    requires i < |jobs| && RunJobs(s, jobs[..i], resume, lineage, worker).result.Ok?
    ensures var before := RunJobs(s, jobs[..i], resume, lineage, worker);
            var one := RunOrResume(before.outputs, jobs[i], resume, lineage, worker);
            var launched := before.launched + (if one.launched then [jobs[i].path] else []);
            (one.result.Ok? ==>
              RunJobs(s, jobs[..i + 1], resume, lineage, worker) ==
              Session(Ok(before.result.value + [one.result.value]), one.outputs, launched)) &&
            (one.result.Err? ==>
              RunJobs(s, jobs, resume, lineage, worker) == Session(Err(one.result.error), one.outputs, launched))
  {
    hide RunJobs, RunOrResume;
    var before := RunJobs(s, jobs[..i], resume, lineage, worker);
    RunJobsAppend(s, jobs[..i], [jobs[i]], resume, lineage, worker);
    RunJobsAppend(s, jobs[..i + 1], jobs[i + 1..], resume, lineage, worker);
    SingleJob(before.outputs, jobs[i], resume, lineage, worker);
    assert jobs[..i] + [jobs[i]] == jobs[..i + 1] && jobs[..i + 1] + jobs[i + 1..] == jobs;
  }

  lemma SingleJob(s: Outputs, job: Job, resume: bool, lineage: Digests, worker: Worker)
    ensures var one := RunOrResume(s, job, resume, lineage, worker);
            RunJobs(s, [job], resume, lineage, worker) ==
            Session(match one.result case Err(e) => Err(e) case Ok(p) => Ok([p]), one.outputs,
                    if one.launched then [job.path] else [])
  {
    hide RunOrResume;
    var one := RunOrResume(s, job, resume, lineage, worker);
    assert [job][1..] == [];
    if one.result.Ok? {
      PrefixedNothing([one.result.value], if one.launched then [job.path] else [],
                      RunJobs(one.outputs, [], resume, lineage, worker));
    }
  }

  lemma OneMoreRecord(s: Outputs, records: seq<Record>, i: nat, resume: bool, lineage: Digests, worker: Worker)
    requires i < |records| && RunJobs(s, AllCandidateJobs(records[..i]), resume, lineage, worker).result.Ok?
    ensures var before := RunJobs(s, AllCandidateJobs(records[..i]), resume, lineage, worker);
            var own := RunJobs(before.outputs, CandidateJobs(records[i]), resume, lineage, worker);
            (own.result.Ok? ==>
              RunJobs(s, AllCandidateJobs(records[..i + 1]), resume, lineage, worker) ==
              Session(Ok(before.result.value + own.result.value), own.outputs, before.launched + own.launched)) &&
            (own.result.Err? ==>
              RunJobs(s, AllCandidateJobs(records), resume, lineage, worker) ==
              Session(Err(own.result.error), own.outputs, before.launched + own.launched))
  {
    hide RunJobs;
    assert records[..i + 1][..i] == records[..i];
    RunJobsAppend(s, AllCandidateJobs(records[..i]), CandidateJobs(records[i]), resume, lineage, worker);
    var rest := CandidateJobsSplit(records, i + 1);
    RunJobsAppend(s, AllCandidateJobs(records[..i + 1]), rest, resume, lineage, worker);
  }

  lemma {:induction false} CandidateJobsSplit(records: seq<Record>, i: nat) returns (rest: seq<Job>)
    requires i <= |records|
    ensures AllCandidateJobs(records) == AllCandidateJobs(records[..i]) + rest
    decreases |records|
  {
    if i == |records| {
      rest := [];
      assert records[..i] == records;
    } else {
      var n := |records| - 1;
      var r := CandidateJobsSplit(records[..n], i);
      assert records[..n][..i] == records[..i];
      rest := r + CandidateJobs(records[n]);
    }
  }
}
