/** Reading the candidate list of a bridge manifest and of a short manifest. */
module CandidateManifests {
  import opened Common
  import opened PromotionRuns
  import opened PromotionCrashes
  import opened Promotion

  const BRIDGE_UPDATES: seq<int> := [100, 150, 200, 250, 300]
  const SHORT_UPDATES: seq<int> := [0, 25, 50, 75, 100]

  /** A listed candidate; `updates` is None where it is no integer, `checkpoint` where it names no existing file. */
  datatype RawCandidate = RawCandidate(updates: Option<int>, checkpoint: Option<string>, recordedSha: string,
                                       actualSha: string, valid: bool)

  datatype ManifestError =
    | WrongLength | NotAnInteger | DuplicateUpdate | BadCheckpoint | ShaMismatch | InvalidCheckpoint | WrongUpdates
    | WrongParent

  function Entry(raw: RawCandidate): Result<Record, ManifestError> {
    if raw.updates.None? then Err(NotAnInteger)
    else if raw.checkpoint.None? then Err(BadCheckpoint)
    else if raw.recordedSha != raw.actualSha then Err(ShaMismatch)
    else if !raw.valid then Err(InvalidCheckpoint)
    else Ok(Record(raw.updates.value, raw.checkpoint.value, raw.actualSha))
  }

  function UpdatesOf(records: seq<Record>): (us: seq<int>)
    ensures |us| == |records| && forall i :: 0 <= i < |us| ==> us[i] == records[i].updates
  {
    seq(|records|, i requires 0 <= i < |records| => records[i].updates)
  }

  /** Python's `set` of a list. */
  function Members(us: seq<int>): (r: set<int>)
    ensures forall u :: u in r <==> u in us
  {
    set u | u in us
  }

  function InsertRecord(x: Record, s: seq<Record>): seq<Record> {
    if s == [] || x.updates <= s[0].updates then [x] + s else [s[0]] + InsertRecord(x, s[1..])
  }

  /** Python's `sorted` by update count. */
  function SortRecords(s: seq<Record>): seq<Record> {
    if s == [] then [] else InsertRecord(s[0], SortRecords(s[1..]))
  }

  ghost predicate SortedRecords(s: seq<Record>) {
    forall i, j :: 0 <= i < j < |s| ==> s[i].updates <= s[j].updates
  }

  lemma {:induction false} InsertRecordMultiset(x: Record, s: seq<Record>)
    ensures multiset(InsertRecord(x, s)) == multiset(s) + multiset{x}
  {
    if s != [] && x.updates > s[0].updates {
      TailMultiset(s);
      InsertRecordMultiset(x, s[1..]);
      TailMultiset(InsertRecord(x, s));
    }
  }

  lemma {:induction false} InsertRecordSorted(x: Record, s: seq<Record>)
    requires SortedRecords(s)
    ensures SortedRecords(InsertRecord(x, s))
    ensures InsertRecord(x, s)[0] == if s == [] || x.updates <= s[0].updates then x else s[0]
  {
    if s != [] && x.updates > s[0].updates {
      InsertRecordSorted(x, s[1..]);
    }
  }

  lemma {:induction false} SortRecordsSorts(s: seq<Record>)
    ensures SortedRecords(SortRecords(s)) && multiset(SortRecords(s)) == multiset(s)
  {
    if s != [] {
      assert s == [s[0]] + s[1..];
      SortRecordsSorts(s[1..]);
      InsertRecordMultiset(s[0], SortRecords(s[1..]));
      InsertRecordSorted(s[0], SortRecords(s[1..]));
    }
  }

  /** The entries of the list, in order; all of them must be readable. */
  ghost predicate Entries(raws: seq<RawCandidate>, records: seq<Record>) {
    |records| == |raws| && forall i :: 0 <= i < |raws| ==> ReadsAs(raws[i], records[i])
  }

  /** An entry with an update count and an existing checkpoint of the recorded digest, which is itself valid. */
  ghost predicate ReadsAs(raw: RawCandidate, r: Record) {
    raw.updates == Some(r.updates) && raw.checkpoint == Some(r.checkpoint) && raw.recordedSha == r.sha &&
    raw.actualSha == r.sha && raw.valid
  }

  lemma {:induction false} EntryReads(raw: RawCandidate)
    ensures forall r :: Entry(raw) == Ok(r) <==> ReadsAs(raw, r)
  {
  }

  /** The records are over the five update counts, each once, and the one of 100 updates is the migrated checkpoint. */
  ghost predicate IsBridge(records: seq<Record>, migrated: string, migratedSha: string) {
    && |records| == 5 && (forall r :: r in records ==> r.updates in {100, 150, 200, 250, 300})
    && (forall i, j :: 0 <= i < j < |records| ==> records[i].updates != records[j].updates)
    && forall r :: r in records && r.updates == 100 ==> r.checkpoint == migrated && r.sha == migratedSha
  }

  /** What is wrong with a list that is refused. */
  ghost predicate ListFault(raws: seq<RawCandidate>, migrated: string, migratedSha: string, e: ManifestError) {
    match e
    case WrongLength => |raws| != 5
    case NotAnInteger => exists i :: 0 <= i < |raws| && raws[i].updates.None?
    case DuplicateUpdate => exists i, j :: 0 <= i < j < |raws| && raws[i].updates == raws[j].updates
    case BadCheckpoint => exists i :: 0 <= i < |raws| && raws[i].checkpoint.None?
    case ShaMismatch => exists i :: 0 <= i < |raws| && raws[i].recordedSha != raws[i].actualSha
    case InvalidCheckpoint => exists i :: 0 <= i < |raws| && !raws[i].valid
    case WrongUpdates =>
      exists i :: 0 <= i < |raws| && raws[i].updates.Some? && raws[i].updates.value !in {100, 150, 200, 250, 300}
    case WrongParent =>
      exists i :: 0 <= i < |raws| && raws[i].updates == Some(100) &&
                  !(raws[i].checkpoint == Some(migrated) && raws[i].actualSha == migratedSha)
  }

  /** The candidate of 100 updates is the migrated checkpoint. */
  predicate FromParent(records: seq<Record>, migrated: string, migratedSha: string) {
    forall r :: r in records && r.updates == 100 ==> r.checkpoint == migrated && r.sha == migratedSha
  }

  /** Main result: a bridge manifest is accepted exactly when its list is readable, without repetition, over the
      required update counts, and from its parent; the candidates then come back in the order of their update counts. */
  method LoadBridgeCandidates(raws: seq<RawCandidate>, migrated: string, migratedSha: string)
    returns (r: Result<seq<Record>, ManifestError>)
    ensures r.Ok? ==> UpdatesOf(r.value) == [100, 150, 200, 250, 300]
    ensures r.Ok? ==>
            exists records ::
              Entries(raws, records) && IsBridge(records, migrated, migratedSha) &&
              multiset(r.value) == multiset(records)
    ensures r.Ok? <==> exists records :: Entries(raws, records) && IsBridge(records, migrated, migratedSha)
    ensures r.Err? ==> ListFault(raws, migrated, migratedSha, r.error)
  {
    if |raws| != |BRIDGE_UPDATES| {
      return Err(WrongLength);
    }
    var records: seq<Record> := [];
    var seen: set<int> := {};
    for i := 0 to |raws|
      invariant Entries(raws[..i], records) && DistinctUpdates(records)
      invariant seen == Members(UpdatesOf(records))
    {
      var raw := raws[i];
      if raw.updates.None? {
        EntriesForced(raws, i, records);
        return Err(NotAnInteger);
      }
      var updates := raw.updates.value;
      if updates in seen {
        EntriesForced(raws, i, records);
        RepeatIsFault(raws, i, records);
        return Err(DuplicateUpdate);
      }
      seen := seen + {updates};
      var entry := Entry(raw);
      EntryReads(raw);
      if entry.Err? {
        EntriesForced(raws, i, records);
        return Err(entry.error);
      }
      assert updates !in UpdatesOf(records);
      assert UpdatesOf(records + [entry.value]) == UpdatesOf(records) + [updates];
      records := records + [entry.value];
    }
    assert raws[..|raws|] == raws;
    EntriesUnique(raws, records);
    BridgeMembers(records);
    if seen != Members(BRIDGE_UPDATES) {
      var r :| r in records && r.updates !in {100, 150, 200, 250, 300};
      assert exists i :: 0 <= i < |raws| && records[i] == r;
      return Err(WrongUpdates);
    }
    if !FromParent(records, migrated, migratedSha) {
      var r :| r in records && r.updates == 100 && !(r.checkpoint == migrated && r.sha == migratedSha);
      assert exists i :: 0 <= i < |raws| && records[i] == r;
      return Err(WrongParent);
    }
    var sorted := SortRecords(records);
    SortRecordsSorts(records);
    SortedBridge(records, sorted);
    return Ok(sorted);
  }

  /** Five distinct counts are the five required ones exactly when each is one of them. */
  lemma {:induction false} BridgeMembers(records: seq<Record>)
    requires |records| == 5 && DistinctUpdates(records)
    ensures Members(UpdatesOf(records)) == Members(BRIDGE_UPDATES) <==>
            forall r :: r in records ==> r.updates in {100, 150, 200, 250, 300}
  {
    var seen := Members(UpdatesOf(records));
    DistinctUpdatesInts(records);
    DistinctCount(UpdatesOf(records));
    BridgeIsFive();
    hide Members, UpdatesOf, BRIDGE_UPDATES;
    SeenWithin(records);
    if seen <= Members(BRIDGE_UPDATES) {
      SameSize(seen, Members(BRIDGE_UPDATES));
    }
  }

  lemma {:induction false} SeenWithin(records: seq<Record>)
    ensures Members(UpdatesOf(records)) <= {100, 150, 200, 250, 300} <==>
            forall r :: r in records ==> r.updates in {100, 150, 200, 250, 300}
  {
    forall u ensures u in Members(UpdatesOf(records)) <==> exists r :: r in records && r.updates == u {
      MemberUpdates(records, u);
    }
    hide Members, UpdatesOf;
    forall r | r in records ensures r.updates in Members(UpdatesOf(records)) {
    }
  }

  lemma {:induction false} BridgeIsFive()
    ensures Members(BRIDGE_UPDATES) == {100, 150, 200, 250, 300} && |Members(BRIDGE_UPDATES)| == 5
  {
    assert BRIDGE_UPDATES == [100, 150, 200, 250, 300];
    DistinctCount(BRIDGE_UPDATES);
  }

  lemma {:induction false} SameSize(a: set<int>, b: set<int>)
    requires a <= b && |a| == |b|
    ensures a == b
  {
    forall x | x in b ensures x in a {
      if x !in a {
        Within(a, b - {x});
      }
    }
  }

  lemma {:induction false} Within(a: set<int>, b: set<int>)
    requires a <= b
    ensures |a| <= |b|
  {
    assert b == a + (b - a);
  }

  lemma {:induction false} RepeatIsFault(raws: seq<RawCandidate>, i: nat, records: seq<Record>)
    requires i < |raws| && Entries(raws[..i], records)
    requires raws[i].updates.Some? && raws[i].updates.value in UpdatesOf(records)
    ensures exists k, j :: 0 <= k < j < |raws| && raws[k].updates == raws[j].updates
  {
    var k :| 0 <= k < i && records[k].updates == raws[i].updates.value;
    assert ReadsAs(raws[..i][k], records[k]);
  }

  lemma EntriesUnique(raws: seq<RawCandidate>, records: seq<Record>)
    requires Entries(raws, records)
    ensures forall other :: Entries(raws, other) ==> other == records
  {
    forall other | Entries(raws, other) ensures other == records {
      forall i | 0 <= i < |raws| ensures other[i] == records[i] {
        assert ReadsAs(raws[i], records[i]) && ReadsAs(raws[i], other[i]);
      }
    }
  }

  /** Any reading of the whole list begins with the entries read so far. */
  lemma EntriesForced(raws: seq<RawCandidate>, i: nat, records: seq<Record>)
    requires i < |raws| && Entries(raws[..i], records)
    ensures forall other :: Entries(raws, other) ==> other[..i] == records && ReadsAs(raws[i], other[i])
    ensures raws[i].updates.Some? && raws[i].updates.value in UpdatesOf(records) ==>
            forall other :: Entries(raws, other) ==> !DistinctUpdates(other)
  {
    forall other | Entries(raws, other) ensures other[..i] == records && ReadsAs(raws[i], other[i]) {
      assert Entries(raws[..i], other[..i]);
      EntriesUnique(raws[..i], records);
    }
    if raws[i].updates.Some? && raws[i].updates.value in UpdatesOf(records) {
      var k :| 0 <= k < i && records[k].updates == raws[i].updates.value;
      forall other | Entries(raws, other) ensures !DistinctUpdates(other) {
        assert other[..i][k] == other[k];
      }
    }
  }

  ghost predicate DistinctInts(us: seq<int>) {
    forall i, j :: 0 <= i < j < |us| ==> us[i] != us[j]
  }

  /** A list has as many values as entries exactly when none repeats. */
  lemma {:induction false} DistinctCount(us: seq<int>)
    ensures |Members(us)| <= |us|
    ensures DistinctInts(us) <==> |Members(us)| == |us|
  {
    if us != [] {
      var n := |us| - 1;
      DistinctCount(us[..n]);
      var before, last := Members(us[..n]), us[n];
      assert us == us[..n] + [last];
      assert Members(us) == before + {last};
      if last in us[..n] {
        assert before + {last} == before;
        var k :| 0 <= k < n && us[..n][k] == last;
        assert us[k] == us[n];
      } else {
        assert DistinctInts(us) <==> DistinctInts(us[..n]);
      }
    }
  }

  lemma DistinctUpdatesInts(records: seq<Record>)
    ensures DistinctUpdates(records) <==> DistinctInts(UpdatesOf(records))
  {
  }

  lemma MemberUpdates(records: seq<Record>, u: int)
    ensures u in UpdatesOf(records) <==> exists r :: r in records && r.updates == u
  {
  }

  /** Five sorted records over the five required update counts carry them in order. */
  lemma SortedBridge(records: seq<Record>, sorted: seq<Record>)
    requires SortedRecords(sorted) && multiset(sorted) == multiset(records) && |records| == 5
    requires Members(UpdatesOf(records)) == Members(BRIDGE_UPDATES)
    ensures UpdatesOf(sorted) == BRIDGE_UPDATES && DistinctUpdates(sorted)
  {
    assert |multiset(sorted)| == |multiset(records)|;
    forall u | u in BRIDGE_UPDATES ensures u in UpdatesOf(sorted) {
      assert u in Members(BRIDGE_UPDATES);
      assert u in UpdatesOf(records);
      MemberUpdates(records, u);
      var r :| r in records && r.updates == u;
      assert r in multiset(sorted);
    }
    FiveInOrder(UpdatesOf(sorted));
  }

  lemma FiveInOrder(us: seq<int>)
    requires |us| == 5 && forall i, j :: 0 <= i < j < 5 ==> us[i] <= us[j]
    requires forall u :: u in BRIDGE_UPDATES ==> u in us
    ensures us == BRIDGE_UPDATES
  {
    assert BRIDGE_UPDATES[0] in us && BRIDGE_UPDATES[1] in us && BRIDGE_UPDATES[2] in us && BRIDGE_UPDATES[3] in us &&
      BRIDGE_UPDATES[4] in us;
    var a :| 0 <= a < 5 && us[a] == 100;
    var b :| 0 <= b < 5 && us[b] == 150;
    var c :| 0 <= c < 5 && us[c] == 200;
    var d :| 0 <= d < 5 && us[d] == 250;
    var e :| 0 <= e < 5 && us[e] == 300;
    assert a < b < c < d < e;
  }

  // ---- Short manifests ----

  /** The check a short manifest makes: the set of update counts, not their number. */
  predicate ShortListAccepted(records: seq<Record>) {
    Members(UpdatesOf(records)) == Members(SHORT_UPDATES)
  }

  /** Main result: an accepted short list has a schedule without a path used twice exactly when it has five entries. */
  lemma ShortScheduleDistinctExactlyWhenFive(records: seq<Record>)
    requires ShortListAccepted(records)
    ensures DistinctPaths(Schedule(records)) <==> |records| == 5
  {
    DistinctCount(SHORT_UPDATES);
    DistinctCount(UpdatesOf(records));
    DistinctUpdatesInts(records);
    if DistinctUpdates(records) {
      ScheduleDistinct(records);
    } else {
      var i, j :| 0 <= i < j < |records| && records[i].updates == records[j].updates;
      RepeatedPath(records, i, j);
    }
  }

  lemma {:induction false} JobAt(records: seq<Record>, i: nat, seed: int)
    requires i < |records| && 42 <= seed <= 44
    ensures Schedule(records)[9 + 3 * i + seed - 42] == CandidateJob(records[i], seed)
  {
    CandidateJobAt(records, i, seed);
  }

  lemma {:induction false} CandidateJobAt(records: seq<Record>, i: nat, seed: int)
    requires i < |records| && 42 <= seed <= 44
    ensures AllCandidateJobs(records)[3 * i + seed - 42] == CandidateJob(records[i], seed)
  {
    var n := |records| - 1;
    if i < n {
      CandidateJobAt(records[..n], i, seed);
    }
  }

  lemma RepeatedPath(records: seq<Record>, i: nat, j: nat)
    requires i < j < |records| && records[i].updates == records[j].updates
    ensures !DistinctPaths(Schedule(records))
    ensures records[i].sha != records[j].sha ==> !SamePathSameJob(Schedule(records))
  {
    JobAt(records, i, 42);
    JobAt(records, j, 42);
    var a, b := 9 + 3 * i, 9 + 3 * j;
    assert Schedule(records)[a].path == Schedule(records)[b].path;
  }

  /** Entries with the same update count carry the same digest. */
  ghost predicate SameCountSameDigest(records: seq<Record>) {
    forall i, j :: 0 <= i < j < |records| && records[i].updates == records[j].updates ==>
      records[i].sha == records[j].sha
  }

  /** Every job of the schedule is a calibration job or one of a candidate. */
  lemma {:induction false} JobsOfSchedule(records: seq<Record>, j: Job)
    requires j in Schedule(records) && !j.path.Calibration?
    ensures exists i :: 0 <= i < |records| && j == CandidateJob(records[i], j.seed)
  {
    CalibrationDistinct();
    hide CalibrationJobs;
    CandidateJobsOf(records, j);
  }

  lemma {:induction false} CandidateJobsOf(records: seq<Record>, j: Job)
    requires j in AllCandidateJobs(records)
    ensures exists i :: 0 <= i < |records| && j == CandidateJob(records[i], j.seed)
  {
    var n := |records| - 1;
    if j in AllCandidateJobs(records[..n]) {
      CandidateJobsOf(records[..n], j);
      var i :| 0 <= i < n && j == CandidateJob(records[..n][i], j.seed);
      assert records[i] == records[..n][i];
    } else {
      assert j in CandidateJobs(records[n]);
      assert j == CandidateJob(records[n], j.seed);
    }
  }

  lemma {:induction false} CalibrationJobsCoincide(records: seq<Record>, j: Job, k: Job)
    requires j in Schedule(records) && k in Schedule(records) && j.path == k.path && j.path.Calibration?
    ensures j == k
  {
    forall c | c in AllCandidateJobs(records) ensures !c.path.Calibration? {
      CandidatePaths(records, c);
    }
    CalibrationDistinct();
    hide CalibrationJobs, AllCandidateJobs, CandidateJobs;
    assert j in CalibrationJobs() && k in CalibrationJobs();
    var i :| 0 <= i < |CalibrationJobs()| && CalibrationJobs()[i] == k;
    SameJob(CalibrationJobs(), i, j);
  }

  lemma {:induction false} SameDigestsSameJobs(records: seq<Record>)
    ensures SamePathSameJob(Schedule(records)) <==> SameCountSameDigest(records)
  {
    if SameCountSameDigest(records) {
      var jobs := Schedule(records);
      forall i, k | 0 <= i < k < |jobs| && jobs[i].path == jobs[k].path ensures jobs[i] == jobs[k] {
        assert jobs[i] in jobs && jobs[k] in jobs;
        if jobs[i].path.Calibration? {
          CalibrationJobsCoincide(records, jobs[i], jobs[k]);
        } else {
          JobsOfSchedule(records, jobs[i]);
          JobsOfSchedule(records, jobs[k]);
        }
      }
    } else {
      var i, j :| 0 <= i < j < |records| && records[i].updates == records[j].updates &&
        records[i].sha != records[j].sha;
      RepeatedPath(records, i, j);
    }
  }

  /** So an accepted short list of more than five entries never completes without `resume`, whatever its workers do. */
  lemma {:induction false} LongShortListFails<T, D>(s: Outputs, records: seq<Record>, lineage: Digests, worker: Worker,
                                                    judge: Judge<T, D>, files: FileDigests)
    requires ShortListAccepted(records) && |records| != 5
    ensures PromotionResult(s, records, false, lineage, worker, judge, files).Err?
  {
    hide RunJobs, ShortListAccepted, Schedule;
    ShortScheduleDistinctExactlyWhenFive(records);
    var jobs := Schedule(records);
    var i, k :| 0 <= i < k < |jobs| && jobs[i].path == jobs[k].path;
    RepeatedPathFails(s, jobs, false, lineage, worker, i, k);
  }

  /** Main result: over new outputs and with workers that do their job, the workers of an accepted short list all
      complete exactly when the list has five entries or, if the run resumes, when entries of one count carry one
      digest. */
  lemma {:induction false} ShortRunCompletesExactlyWhen(s: Outputs, records: seq<Record>, lineage: Digests,
                                                        worker: Worker, metrics: Job -> Pair)
    requires ShortListAccepted(records) && Fresh(s, Schedule(records)) && Deterministic(worker, lineage, metrics)
    ensures RunJobs(s, Schedule(records), false, lineage, worker).result.Ok? <==> |records| == 5
    ensures RunJobs(s, Schedule(records), true, lineage, worker).result.Ok? <==> SameCountSameDigest(records)
  {
    hide RunJobs, ShortListAccepted, Schedule, Fresh, Deterministic, DistinctPaths, SamePathSameJob,
         SameCountSameDigest;
    ShortScheduleDistinctExactlyWhenFive(records);
    SameDigestsSameJobs(records);
    CompletesExactlyWhen(s, Schedule(records), lineage, worker, metrics);
  }

  /** Such lists exist: the five counts with one of them repeated. */
  lemma ShortListMayRepeat()
    ensures var records := [Record(0, "a", "a"), Record(25, "b", "b"), Record(50, "c", "c"), Record(75, "d", "d"),
                            Record(100, "e", "e"), Record(100, "f", "f")];
            ShortListAccepted(records) && !DistinctPaths(Schedule(records))
  {
    var records := [Record(0, "a", "a"), Record(25, "b", "b"), Record(50, "c", "c"), Record(75, "d", "d"),
                    Record(100, "e", "e"), Record(100, "f", "f")];
    assert UpdatesOf(records) == SHORT_UPDATES + [100];
    assert Members(SHORT_UPDATES + [100]) == Members(SHORT_UPDATES) by {
      assert SHORT_UPDATES[4] in SHORT_UPDATES;
    }
    ShortScheduleDistinctExactlyWhenFive(records);
  }
}
