/** Which workers a promotion runs, which of their outputs it believes, and what it makes of them. */
module PromotionRecords {
  import opened Common
  import opened Promotion
  import opened PromotionRuns

  // ---- The schedule ----

  /** The p-th zero pair of the i-th seed. */
  ghost function ZeroPair(i: int, p: int): Job {
    Job(Calibration(42 + i, p), "zero-pair", 42 + i, None)
  }

  /** The evaluation of a candidate on the k-th seed. */
  ghost function Evaluation(r: Record, k: int): Job {
    Job(CandidateEval(r.updates, 42 + k), "candidate", 42 + k, Some(r.sha))
  }

  ghost predicate ZeroPairAt(jobs: seq<Job>, i: nat, p: nat) {
    3 * i + p < |jobs| && jobs[3 * i + p] == ZeroPair(i, p)
  }

  ghost predicate EvaluationAt(jobs: seq<Job>, records: seq<Record>, i: nat, k: nat) {
    i < |records| && 9 + 3 * i + k < |jobs| && jobs[9 + 3 * i + k] == Evaluation(records[i], k)
  }

  /** Main result: the schedule. Three zero pairs on each of the seeds 42, 43 and 44, then for each candidate in turn
      one evaluation on each of these seeds, and nothing else. */
  lemma {:induction false} ScheduleIs(records: seq<Record>)
    ensures |Schedule(records)| == 9 + 3 * |records|
    ensures forall i: nat, p: nat :: i < 3 && p < 3 ==> ZeroPairAt(Schedule(records), i, p)
    ensures forall i: nat, k: nat :: i < |records| && k < 3 ==> EvaluationAt(Schedule(records), records, i, k)
  {
    forall i: nat, k: nat | i < |records| && k < 3 ensures EvaluationAt(Schedule(records), records, i, k) {
      EvaluationIs(records, i, k);
    }
  }

  lemma {:induction false} EvaluationIs(records: seq<Record>, i: nat, k: nat)
    requires i < |records| && k < 3
    ensures AllCandidateJobs(records)[3 * i + k] == Evaluation(records[i], k)
  {
    var n := |records| - 1;
    if i < n {
      EvaluationIs(records[..n], i, k);
    }
  }

  // ---- One worker ----

  /** The output is that of the finished job, on the same sources, and holds these metrics. */
  ghost predicate Delivers(o: Output, job: Job, lineage: Digests, pair: Pair) {
    && o.status == "complete" && o.mode == job.mode && o.seed == job.seed && o.steps == 4000
    && o.checkpointSha == job.checkpointSha && o.baseline == Some(pair.0) && o.candidate == Some(pair.1)
    && SameSources(o, lineage)
  }

  ghost predicate SameAt(o: Output, lineage: Digests, key: string) {
    key in o.lineage && key in lineage && o.lineage[key] == lineage[key]
  }

  ghost predicate SameSources(o: Output, lineage: Digests) {
    && SameAt(o, lineage, "asset_sha256") && SameAt(o, lineage, "config_sha256") && SameAt(o, lineage, "reward_sha256")
    && SameAt(o, lineage, "runtime_sha256") && SameAt(o, lineage, "reward_runtime_bundle_sha256")
    && SameAt(o, lineage, "pilot_schema_sha256")
  }

  /** The output is one that this very job left unfinished. */
  ghost predicate LeftBy(o: Output, job: Job, lineage: Digests) {
    && o.status in {"failed", "starting"} && o.mode == job.mode && o.seed == job.seed && o.steps == 4000
    && o.checkpointSha == job.checkpointSha && forall key :: key in lineage ==> SameAt(o, lineage, key)
  }

  lemma {:induction false} SourcesChecked(o: Output, lineage: Digests)
    ensures SameSources(o, lineage) <==> !exists k :: k in SHA_KEYS && !SameDigest(o.lineage, lineage, k)
  {
    var ks := SHA_KEYS;
    assert ks[0] in ks && ks[1] in ks && ks[2] in ks && ks[3] in ks && ks[4] in ks && ks[5] in ks;
    assert forall k :: k in ks ==> k in {ks[0], ks[1], ks[2], ks[3], ks[4], ks[5]};
    assert ks == ["asset_sha256", "config_sha256", "reward_sha256", "runtime_sha256", "reward_runtime_bundle_sha256",
                  "pilot_schema_sha256"];
  }

  lemma {:induction false} ValidExactlyWhen(o: Option<Output>, job: Job, lineage: Digests, pair: Pair)
    ensures ValidateWorker(o, job, lineage) == Ok(pair) <==> o.Some? && Delivers(o.value, job, lineage, pair)
  {
    if o.Some? {
      SourcesChecked(o.value, lineage);
    }
    hide SHA_KEYS, SameDigest, SameSources;
  }

  /** What is wrong with an output that is refused. */
  ghost predicate OutputFault(o: Option<Output>, job: Job, lineage: Digests, e: WorkerError) {
    match e
    case NoOutput => o.None?
    case ContractMismatch =>
      o.Some? &&
      !(o.value.status == "complete" && o.value.mode == job.mode && o.value.seed == job.seed && o.value.steps == 4000)
    case CheckpointShaMismatch => o.Some? && o.value.checkpointSha != job.checkpointSha
    case LineageMismatch => o.Some? && !SameSources(o.value, lineage)
    case MissingMetrics => o.Some? && (o.value.baseline.None? || o.value.candidate.None?)
    case _ => false
  }

  lemma {:induction false} RefusedFor(o: Option<Output>, job: Job, lineage: Digests)
    requires ValidateWorker(o, job, lineage).Err?
    ensures OutputFault(o, job, lineage, ValidateWorker(o, job, lineage).error)
  {
    if o.Some? {
      SourcesChecked(o.value, lineage);
    }
    hide SHA_KEYS, SameDigest, SameSources;
  }

  /** The job starts a worker: its output is missing, or it resumes one it left itself. */
  ghost predicate Starts(s: Outputs, job: Job, resume: bool, lineage: Digests) {
    job.path !in s || (resume && LeftBy(s[job.path], job, lineage))
  }

  /** Main result: a job starts a worker exactly when its output is missing or one that it left unfinished and resumes.
      Only then is anything written, at its own path; and it succeeds exactly when what is there in the end is its
      finished output. */
  lemma {:induction false} JobExactlyWhen(s: Outputs, job: Job, resume: bool, lineage: Digests, worker: Worker,
                                          pair: Pair)
    ensures var r := RunOrResume(s, job, resume, lineage, worker);
            (r.launched <==> Starts(s, job, resume, lineage)) &&
            (!r.launched ==> r.outputs == s) &&
            (r.launched ==> Find(r.outputs, job.path) == worker(job).left &&
                            forall q :: q != job.path ==> Find(r.outputs, q) == Find(s, q)) &&
            (r.result == Ok(pair) <==>
              (if r.launched then !worker(job).raised else resume) &&
              job.path in r.outputs && Delivers(r.outputs[job.path], job, lineage, pair))
  {
    var left := worker(job).left;
    ValidExactlyWhen(left, job, lineage, pair);
    ValidExactlyWhen(Find(s, job.path), job, lineage, pair);
    assert forall o :: Retryable(o, job, lineage) <==> LeftBy(o, job, lineage);
    assert Find(Leave(s, job.path, left), job.path) == left;
    hide ValidateWorker, Retryable, LeftBy, Leave;
  }

  /** Why a job fails. */
  lemma {:induction false} JobFailsFor(s: Outputs, job: Job, resume: bool, lineage: Digests, worker: Worker)
    requires RunOrResume(s, job, resume, lineage, worker).result.Err?
    ensures var e := RunOrResume(s, job, resume, lineage, worker).result.error;
            if Starts(s, job, resume, lineage) then
              if worker(job).raised then e == WorkerRaised else OutputFault(worker(job).left, job, lineage, e)
            else if !resume then e == OutputExists
            else if s[job.path].status == "complete" then OutputFault(Some(s[job.path]), job, lineage, e)
            else e == IdentityMismatch
  {
    assert forall o :: Retryable(o, job, lineage) <==> LeftBy(o, job, lineage);
    if ValidateWorker(worker(job).left, job, lineage).Err? {
      RefusedFor(worker(job).left, job, lineage);
    }
    if ValidateWorker(Find(s, job.path), job, lineage).Err? {
      RefusedFor(Find(s, job.path), job, lineage);
    }
    hide ValidateWorker, Retryable, OutputFault;
  }

  // ---- A session ----

  /** The outputs hold the finished job with these metrics. */
  ghost predicate Holds(s: Outputs, job: Job, lineage: Digests, pair: Pair) {
    job.path in s && Delivers(s[job.path], job, lineage, pair)
  }

  /** Main result: the results of a session are those its outputs hold at its end, job by job, whatever its workers
      did. */
  lemma {:induction false} SessionDelivers(s: Outputs, jobs: seq<Job>, resume: bool, lineage: Digests, worker: Worker)
    requires RunJobs(s, jobs, resume, lineage, worker).result.Ok?
    ensures var r := RunJobs(s, jobs, resume, lineage, worker);
            |r.result.value| == |jobs| &&
            forall i :: 0 <= i < |jobs| ==> Holds(r.outputs, jobs[i], lineage, r.result.value[i])
    decreases |jobs|
  {
    if jobs != [] {
      var first := RunOrResume(s, jobs[0], resume, lineage, worker);
      var rest := RunJobs(first.outputs, jobs[1..], resume, lineage, worker);
      var r := RunJobs(s, jobs, resume, lineage, worker);
      var pair := first.result.value;
      assert r.outputs == rest.outputs && r.result.value == [pair] + rest.result.value;
      JobExactlyWhen(s, jobs[0], resume, lineage, worker, pair);
      hide RunJobs, RunOrResume;
      SessionDelivers(first.outputs, jobs[1..], resume, lineage, worker);
      FinishedOutputsSurvive(first.outputs, jobs[1..], resume, lineage, worker, jobs[0].path);
      assert Holds(rest.outputs, jobs[0], lineage, pair);
      forall i | 0 <= i < |jobs| ensures Holds(r.outputs, jobs[i], lineage, r.result.value[i]) {
        if i > 0 {
          assert jobs[i] == jobs[1..][i - 1] && r.result.value[i] == rest.result.value[i - 1];
        }
      }
    }
  }

  // ---- The decision ----

  /** Entry i of the manifest is the judgement on the three results of candidate i. */
  ghost predicate JudgedOn<T, D>(judge: Judge<T, D>, tolerances: T, r: Record, own: seq<Pair>, p: Promoted<D>) {
    |own| == 3 && p.record == r && p.decision == judge.evaluate(own, tolerances)
  }

  lemma {:induction false} JudgedEach<T, D>(judge: Judge<T, D>, tolerances: T, records: seq<Record>, pairs: seq<Pair>)
    requires |pairs| == 3 * |records|
    ensures var ps := Judged(judge, tolerances, records, pairs);
            forall i :: 0 <= i < |records| ==>
              JudgedOn(judge, tolerances, records[i], [pairs[3 * i], pairs[3 * i + 1], pairs[3 * i + 2]], ps[i])
  {
    if records != [] {
      var n := |records| - 1;
      JudgedEach(judge, tolerances, records[..n], pairs[..3 * n]);
      assert pairs[3 * n..] == [pairs[3 * n], pairs[3 * n + 1], pairs[3 * n + 2]];
      assert forall i :: 0 <= i < n ==> records[..n][i] == records[i];
    }
  }

  /** The tolerances come from the nine zero pairs, every decision from its candidate's own three results under these
      tolerances, and the choice from all decisions. */
  ghost predicate Decided<T, D>(judge: Judge<T, D>, records: seq<Record>, pairs: seq<Pair>, v: Verdict<T, D>) {
    && |pairs| == 9 + 3 * |records|
    && v.tolerances ==
       judge.calibrate([pairs[0], pairs[1], pairs[2], pairs[3], pairs[4], pairs[5], pairs[6], pairs[7], pairs[8]])
    && |v.promoted| == |records|
    && (forall i :: 0 <= i < |records| ==>
          JudgedOn(judge, v.tolerances, records[i], [pairs[9 + 3 * i], pairs[10 + 3 * i], pairs[11 + 3 * i]],
                   v.promoted[i]))
    && v.selected == judge.select(v.promoted, v.tolerances)
  }

  lemma {:induction false} DecideDecides<T, D>(judge: Judge<T, D>, records: seq<Record>, pairs: seq<Pair>)
    requires |pairs| == 9 + 3 * |records|
    ensures Decided(judge, records, pairs, Decide(judge, records, pairs))
  {
    var zero, own := pairs[..9], pairs[9..];
    assert zero == [pairs[0], pairs[1], pairs[2], pairs[3], pairs[4], pairs[5], pairs[6], pairs[7], pairs[8]];
    var v := Decide(judge, records, pairs);
    JudgedEach(judge, v.tolerances, records, own);
    hide Judged, JudgedOn;
    assert forall k :: 0 <= k < |own| ==> own[k] == pairs[9 + k];
  }

  /** The published copy has the digest the chosen candidate was listed with. */
  ghost predicate Published<T, D>(v: Verdict<T, D>, files: FileDigests) {
    v.selected.Some? ==> files(v.selected.value.record.checkpoint) == v.selected.value.record.sha
  }

  /** After a verdict the best checkpoint is the chosen one as it was listed, or the old one where none was chosen;
      after a refused verdict it is already the file with the other digest. */
  lemma {:induction false} BestAfterVerdict<T, D>(v: Verdict<T, D>, files: FileDigests, before: Option<string>)
    ensures var best := PublishedBest(v, files, before);
            match Publish(v, files)
            case Ok(_) => best == if v.selected.Some? then Some(v.selected.value.record.sha) else before
            case Err(e) =>
              e == BestShaMismatch && v.selected.Some? && best != Some(v.selected.value.record.sha) &&
              best == Some(files(v.selected.value.record.checkpoint))
  {
  }

  /** The outputs hold, at the places of the schedule, the finished workers with these metrics. */
  ghost predicate Measured(s: Outputs, records: seq<Record>, lineage: Digests, pairs: seq<Pair>) {
    |pairs| == 9 + 3 * |records| &&
    (forall i: nat, p: nat :: i < 3 && p < 3 ==> HoldsAt(s, lineage, pairs, 3 * i + p, ZeroPair(i, p))) &&
    forall i: nat, k: nat :: i < |records| && k < 3 ==>
      HoldsAt(s, lineage, pairs, 9 + 3 * i + k, Evaluation(records[i], k))
  }

  ghost predicate HoldsAt(s: Outputs, lineage: Digests, pairs: seq<Pair>, n: nat, job: Job) {
    n < |pairs| && Holds(s, job, lineage, pairs[n])
  }

  /** Main result: a promotion that yields a verdict has decided on what its outputs hold for the right seeds, pairs and
      candidates; it fails on the digest of the published copy only after all of that. */
  lemma {:induction false} PromotionDecides<T, D>(s: Outputs, records: seq<Record>, resume: bool, lineage: Digests,
                                                  worker: Worker, judge: Judge<T, D>, files: FileDigests)
    ensures var r := PromotionResult(s, records, resume, lineage, worker, judge, files);
            var session := RunJobs(s, Schedule(records), resume, lineage, worker);
            (r.Ok? ==>
              session.result.Ok? && Measured(session.outputs, records, lineage, session.result.value) &&
              Decided(judge, records, session.result.value, r.value) && Published(r.value, files)) &&
            (r.Err? && session.result.Ok? ==>
              r.error == BestShaMismatch &&
              exists v :: Decided(judge, records, session.result.value, v) && !Published(v, files)) &&
            (session.result.Err? ==> r == Err(session.result.error))
  {
    var session := RunJobs(s, Schedule(records), resume, lineage, worker);
    ScheduleIs(records);
    if session.result.Ok? {
      var v := Decide(judge, records, session.result.value);
      assert PromotionResult(s, records, resume, lineage, worker, judge, files) == Publish(v, files);
      assert Publish(v, files) == if Published(v, files) then Ok(v) else Err(BestShaMismatch);
      hide *;
      SessionDelivers(s, Schedule(records), resume, lineage, worker);
      MeasuredBySchedule(session.outputs, records, lineage, session.result.value);
      DecideDecides(judge, records, session.result.value);
    }
  }

  lemma {:induction false} MeasuredBySchedule(s: Outputs, records: seq<Record>, lineage: Digests, pairs: seq<Pair>)
    requires |pairs| == |Schedule(records)| &&
             forall i :: 0 <= i < |pairs| ==> Holds(s, Schedule(records)[i], lineage, pairs[i])
    ensures Measured(s, records, lineage, pairs)
  {
    ScheduleIs(records);
    hide Schedule, ZeroPair, Evaluation, Holds;
    forall i: nat, p: nat | i < 3 && p < 3 ensures HoldsAt(s, lineage, pairs, 3 * i + p, ZeroPair(i, p)) {
      assert ZeroPairAt(Schedule(records), i, p);
    }
    forall i: nat, k: nat | i < |records| && k < 3
      ensures HoldsAt(s, lineage, pairs, 9 + 3 * i + k, Evaluation(records[i], k))
    {
      assert EvaluationAt(Schedule(records), records, i, k);
    }
  }
}
