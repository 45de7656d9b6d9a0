/** Why pruning is safe to run, to crash in the middle of, and to run again. */
module PruningSafety {
  import opened Common
  import opened Decimals
  import opened Pruning

  // ---- Names ----

  /** The name a run gives the checkpoint of an iteration is read back as that iteration. */
  lemma {:induction false} CheckpointNameRoundTrip(n: nat)
    ensures NumericCheckpoint("model_" + Decimal(n) + ".pt") == Some(n)
  {
    var name, digits := "model_" + Decimal(n) + ".pt", Decimal(n);
    ReadDecimal(n);
    assert |digits| > 0;
    assert name[..6] == "model_" && name[6..|name| - 3] == digits && name[|name| - 3..] == ".pt";
  }

  /** A name is read as a number exactly when it is that number's digits, zeros before them or not, between the fixed
      parts; one digit is enough. */
  lemma {:induction false} NumericExactlyWhen(name: string, v: int)
    ensures NumericCheckpoint(name) == Some(v) <==>
            exists digits :: digits != "" && AllDigits(digits) && name == "model_" + digits + ".pt" && Read(digits) == v
  {
    var n := |name|;
    if NumericCheckpoint(name).Some? {
      var digits := name[6..n - 3];
      assert digits != "" && name == name[..6] + digits + name[n - 3..];
      assert name == "model_" + digits + ".pt";
    }
    if digits :| digits != "" && AllDigits(digits) && name == "model_" + digits + ".pt" {
      assert name[..6] == "model_" && name[6..n - 3] == digits && name[n - 3..] == ".pt";
    }
  }

  /** A checkpoint is doomed exactly when its iteration lies above the limit; no other name is. */
  lemma {:induction false} DoomedExactlyWhen(name: string, keep: int)
    ensures Doomed(name, keep) <==>
            exists digits ::
              digits != "" && AllDigits(digits) && name == "model_" + digits + ".pt" && Read(digits) > keep
    ensures forall n: nat :: Doomed("model_" + Decimal(n) + ".pt", keep) <==> n > keep
  {
    if Doomed(name, keep) {
      NumericExactlyWhen(name, NumericCheckpoint(name).value);
    }
    if digits :| digits != "" && AllDigits(digits) && name == "model_" + digits + ".pt" && Read(digits) > keep {
      NumericExactlyWhen(name, Read(digits));
    }
    forall n: nat ensures Doomed("model_" + Decimal(n) + ".pt", keep) <==> n > keep {
      CheckpointNameRoundTrip(n);
    }
  }

  // ---- The plan ----

  ghost predicate Distinct(items: seq<Item>) {
    forall i, j :: 0 <= i < j < |items| ==> items[i].name != items[j].name
  }

  /** The items are exactly the doomed files of a directory, each with its present hash. */
  ghost predicate ExactlyDoomed(items: seq<Item>, dir: Dir, keep: int, hash: Hash) {
    && Distinct(items)
    && (forall i :: i in items ==>
        i.name in dir && Doomed(i.name, keep) && dir[i.name].File? && i.sha == hash(dir[i.name].bytes))
    && (forall n :: n in dir && Doomed(n, keep) ==> exists i :: i in items && i.name == n)
  }

  /** The same, for the entries of a listing. */
  ghost predicate DoomedOf(items: seq<Item>, listing: seq<string>, dir: Dir, keep: int, hash: Hash) {
    && Distinct(items)
    && (forall i :: i in items ==>
        i.name in listing && i.name in dir && Doomed(i.name, keep) && dir[i.name].File? &&
        i.sha == hash(dir[i.name].bytes))
    && (forall n :: n in listing && Doomed(n, keep) ==> exists i :: i in items && i.name == n)
  }

  lemma {:induction false} CollectIsExact(dir: Dir, listing: seq<string>, keep: int, hash: Hash)
    requires forall n :: n in listing ==> n in dir
    requires forall i, j :: 0 <= i < j < |listing| ==> listing[i] != listing[j]
    ensures match Collect(dir, listing, keep, hash)
            case Ok(items) => DoomedOf(items, listing, dir, keep, hash)
            case Err(e) => e == CheckpointNotRegular && exists n :: n in listing && Doomed(n, keep) && !dir[n].File?
    ensures (exists n :: n in listing && Doomed(n, keep) && !dir[n].File?) ==> Collect(dir, listing, keep, hash).Err?
  {
    if listing != [] {
      var k := |listing| - 1;
      var before, name := listing[..k], listing[k];
      assert listing == before + [name];
      CollectIsExact(dir, before, keep, hash);
      var r := Collect(dir, before, keep, hash);
      if r.Ok? && Doomed(name, keep) && dir[name].File? {
        ExtendDoomed(r.value, before, name, dir, keep, hash);
      }
    }
  }

  lemma ExtendDoomed(items: seq<Item>, before: seq<string>, name: string, dir: Dir, keep: int, hash: Hash)
    requires DoomedOf(items, before, dir, keep, hash) && name !in before
    requires name in dir && Doomed(name, keep) && dir[name].File?
    ensures DoomedOf(items + [Item(name, hash(dir[name].bytes))], before + [name], dir, keep, hash)
  {
    hide Doomed;
    var item := Item(name, hash(dir[name].bytes));
    var all := items + [item];
    forall n | n in before + [name] && Doomed(n, keep) ensures exists i :: i in all && i.name == n {
      if n == name {
        assert item in all;
      } else {
        var i :| i in items && i.name == n;
        assert i in all;
      }
    }
  }

  ghost predicate SortedItems(s: seq<Item>) {
    forall i, j :: 0 <= i < j < |s| ==> Number(s[i]) <= Number(s[j])
  }

  lemma {:induction false} InsertItemMultiset(x: Item, s: seq<Item>)
    ensures multiset(InsertItem(x, s)) == multiset(s) + multiset{x}
  {
    hide Number;
    if s != [] && Number(x) > Number(s[0]) {
      TailMultiset(s);
      InsertItemMultiset(x, s[1..]);
      TailMultiset(InsertItem(x, s));
    }
  }

  lemma {:induction false} InsertItemSorted(x: Item, s: seq<Item>)
    requires SortedItems(s)
    ensures SortedItems(InsertItem(x, s))
    ensures InsertItem(x, s)[0] == if s == [] || Number(x) <= Number(s[0]) then x else s[0]
  {
    hide Number;
    if s != [] && Number(x) > Number(s[0]) {
      InsertItemSorted(x, s[1..]);
    }
  }

  lemma {:induction false} SortItemsSorts(s: seq<Item>)
    ensures SortedItems(SortItems(s)) && multiset(SortItems(s)) == multiset(s)
  {
    hide Number;
    if s != [] {
      assert s == [s[0]] + s[1..];
      SortItemsSorts(s[1..]);
      InsertItemMultiset(s[0], SortItems(s[1..]));
      InsertItemSorted(s[0], SortItems(s[1..]));
    }
  }

  lemma {:induction false} InsertDistinct(x: Item, s: seq<Item>)
    requires Distinct(s) && forall i :: i in s ==> i.name != x.name
    ensures Distinct(InsertItem(x, s)) && forall i :: i in InsertItem(x, s) <==> i == x || i in s
  {
    hide Number;
    if s != [] && Number(x) > Number(s[0]) {
      assert s == [s[0]] + s[1..];
      InsertDistinct(x, s[1..]);
      var rest := InsertItem(x, s[1..]);
      forall j | 0 <= j < |rest| ensures rest[j].name != s[0].name {
        assert rest[j] in rest;
        assert s[0] in s;
      }
    }
  }

  lemma {:induction false} SortDistinct(s: seq<Item>)
    requires Distinct(s)
    ensures Distinct(SortItems(s)) && forall i :: i in SortItems(s) <==> i in s
  {
    if s != [] {
      assert s == [s[0]] + s[1..];
      SortDistinct(s[1..]);
      InsertDistinct(s[0], SortItems(s[1..]));
    }
  }

  ghost predicate Regular(dir: Dir, name: string) {
    name in dir && dir[name].File?
  }

  /** By increasing number. */
  ghost predicate Ascending(items: seq<Item>) {
    forall i, j :: 0 <= i < j < |items| ==>
      match (NumericCheckpoint(items[i].name), NumericCheckpoint(items[j].name))
      case (Some(m), Some(n)) => m <= n
      case _ => false
  }

  /** The plan carries the hashes of the two files that stay. */
  ghost predicate Recorded(plan: Plan, dir: Dir, hash: Hash) {
    Regular(dir, "run_manifest.json") && plan.manifestSha == hash(dir["run_manifest.json"].bytes) &&
    Regular(dir, "model_3500.pt") && plan.keptSha == hash(dir["model_3500.pt"].bytes)
  }

  /** What each refusal means; one that comes later in the list means that none before applied. */
  ghost predicate Refused(e: PruningError, dir: Dir, keep: int, rightDirectory: bool) {
    if keep != 3500 then e == KeepNotAllowed
    else if !rightDirectory then e == WrongDirectory
    else if !Regular(dir, "run_manifest.json") then e == ManifestNotRegular
    else if !Regular(dir, "model_3500.pt") then e == KeptNotRegular
    else e == CheckpointNotRegular && exists n :: n in dir && Doomed(n, keep) && !Regular(dir, n)
  }

  /** Main result: the plan lists exactly the numeric checkpoints above the limit, each once, with its present hash,
      by increasing number; planning fails on them only when one is no regular file. */
  lemma {:induction false} PlanIsExact(dir: Dir, listing: seq<string>, keep: int, rightDirectory: bool, hash: Hash)
    requires Lists(listing, dir)
    ensures match PlanOf(dir, listing, keep, rightDirectory, hash)
            case Ok(plan) =>
              plan.keepThrough == keep == 3500 && Ascending(plan.delete) &&
              ExactlyDoomed(plan.delete, dir, keep, hash) && Recorded(plan, dir, hash)
            case Err(e) => Refused(e, dir, keep, rightDirectory)
    ensures PlanOf(dir, listing, keep, rightDirectory, hash).Ok? <==>
            keep == 3500 && rightDirectory && Regular(dir, "run_manifest.json") && Regular(dir, "model_3500.pt") &&
            forall n :: n in dir && Doomed(n, keep) ==> Regular(dir, n)
  {
    hide Doomed, Number, InsertItem;
    CollectIsExact(dir, listing, keep, hash);
    if PlanOf(dir, listing, keep, rightDirectory, hash).Ok? {
      var items := Collect(dir, listing, keep, hash).value;
      SortItemsSorts(items);
      SortDistinct(items);
      SortedAscends(SortItems(items), keep);
    }
  }

  lemma {:induction false} SortedAscends(items: seq<Item>, keep: int)
    requires SortedItems(items) && forall i :: i in items ==> Doomed(i.name, keep)
    ensures Ascending(items)
  {
    hide NumericCheckpoint;
    forall i, j | 0 <= i < j < |items| ensures Number(items[i]) <= Number(items[j]) {
      assert items[i] in items && items[j] in items;
    }
    assert forall i :: 0 <= i < |items| ==> items[i] in items;
  }

  // ---- Execution, state by state ----

  /** The names of the first k items. */
  function Names(items: seq<Item>, k: nat): (ns: set<string>)
    requires k <= |items|
    ensures forall n :: n in ns <==> exists i :: 0 <= i < k && items[i].name == n
  {
    set i | 0 <= i < k :: items[i].name
  }

  /** The item was the file the plan saw when its turn came. */
  ghost predicate Unchanged(dir: Dir, i: Item, hash: Hash) {
    i.name in dir && dir[i.name].File? && hash(dir[i.name].bytes) == i.sha
  }

  lemma {:induction false} NamesStep(items: seq<Item>, k: nat)
    requires 0 < k <= |items|
    ensures Names(items, k) == {items[0].name} + Names(items[1..], k - 1)
  {
    forall n ensures n in Names(items, k) <==> n == items[0].name || n in Names(items[1..], k - 1) {
      if n in Names(items, k) {
        var i :| 0 <= i < k && items[i].name == n;
        if i > 0 {
          assert items[1..][i - 1].name == n;
        }
      }
      if n in Names(items[1..], k - 1) {
        var i :| 0 <= i < k - 1 && items[1..][i].name == n;
        assert items[i + 1].name == n;
      }
    }
  }

  /** The deletion loop removes planned files one by one, in order, each only if it is what the plan saw. */
  lemma {:induction false} DeletionStates(dir: Dir, items: seq<Item>, hash: Hash, k: nat)
    requires Distinct(items) && k < |DeleteItems(dir, items, hash).states|
    ensures k <= |items| && DeleteItems(dir, items, hash).states[k] == dir - Names(items, k)
    ensures forall i :: 0 <= i < k ==> Unchanged(dir, items[i], hash)
    decreases k
  {
    if k > 0 {
      hide Names;
      var next := dir - {items[0].name};
      assert DeleteItems(dir, items, hash).states[k] == DeleteItems(next, items[1..], hash).states[k - 1];
      DeletionStates(next, items[1..], hash, k - 1);
      NamesStep(items, k);
      forall i | 1 <= i < k ensures Unchanged(dir, items[i], hash) {
        assert items[1..][i - 1] == items[i];
        assert Unchanged(next, items[i], hash);
      }
    }
  }

  lemma {:induction false} DeletionEnds(dir: Dir, items: seq<Item>, hash: Hash)
    requires Distinct(items)
    ensures var x := DeleteItems(dir, items, hash);
            (x.error.None? <==> forall i :: 0 <= i < |items| ==> Unchanged(dir, items[i], hash)) &&
            (x.error.None? ==> |x.states| == |items| + 1)
  {
    if items != [] && Unchanged(dir, items[0], hash) {
      var next := dir - {items[0].name};
      DeletionEnds(next, items[1..], hash);
      forall i | 1 <= i < |items| ensures Unchanged(dir, items[i], hash) <==> Unchanged(next, items[1..][i - 1], hash) {
        assert items[i].name != items[0].name;
      }
    }
  }

  /** The first planned file that is not what the plan saw ends the loop: with one error if it is no regular file any
      more, with the other if its contents have another hash. */
  lemma {:induction false} StopsAtFirstChange(dir: Dir, items: seq<Item>, hash: Hash, k: nat)
    requires Distinct(items) && FirstChanged(dir, items, hash, k)
    ensures var x := DeleteItems(dir, items, hash);
            x.error == Some(if Regular(dir, items[k].name) then ChangedAfterAudit else CheckpointNotRegular) &&
            |x.states| == k + 1
    decreases k
  {
    if k > 0 {
      var next := dir - {items[0].name};
      assert Unchanged(dir, items[0], hash);
      forall i | 1 <= i < |items|
        ensures items[i].name != items[0].name && items[1..][i - 1] == items[i]
      {
      }
      assert FirstChanged(next, items[1..], hash, k - 1);
      StopsAtFirstChange(next, items[1..], hash, k - 1);
    }
  }

  ghost predicate FirstChanged(dir: Dir, items: seq<Item>, hash: Hash, k: nat) {
    k < |items| && !Unchanged(dir, items[k], hash) && forall i :: 0 <= i < k ==> Unchanged(dir, items[i], hash)
  }

  /** Main result: how an execution ends. The first changed file stops it, stays, and keeps all later ones; without one
      it fails only on a checkpoint above the limit that was not planned. */
  lemma {:induction false} ExecutionEnds(plan: Plan, dir: Dir, hash: Hash)
    requires Planned(plan)
    ensures forall k: nat :: FirstChanged(dir, plan.delete, hash, k) ==>
              var x := Execute(plan, dir, hash);
              x.error == Some(if Regular(dir, plan.delete[k].name) then ChangedAfterAudit else CheckpointNotRegular) &&
              Final(x) == WithAudit(dir, "planned", plan) - Names(plan.delete, k)
    ensures (forall i :: i in plan.delete ==> Unchanged(dir, i, hash)) ==>
              Execute(plan, dir, hash).error ==
              if exists n :: n in dir && Doomed(n, plan.keepThrough) && forall i :: i in plan.delete ==> i.name != n
              then Some(Remaining) else None
  {
    hide Doomed;
    var start := WithAudit(dir, "planned", plan);
    UnchangedBesideAudit(plan, dir, hash);
    forall k: nat | FirstChanged(dir, plan.delete, hash, k)
      ensures var x := Execute(plan, dir, hash);
              x.error == Some(if Regular(dir, plan.delete[k].name) then ChangedAfterAudit else CheckpointNotRegular) &&
              Final(x) == start - Names(plan.delete, k)
    {
      AuditNotPlanned(plan);
      assert plan.delete[k].name in Names(plan.delete, |plan.delete|);
      assert FirstChanged(start, plan.delete, hash, k);
      StopsAtFirstChange(start, plan.delete, hash, k);
      DeletionStates(start, plan.delete, hash, k);
    }
    if forall i :: i in plan.delete ==> Unchanged(dir, i, hash) {
      assert forall i :: 0 <= i < |plan.delete| ==> plan.delete[i] in plan.delete;
      DeletionEnds(start, plan.delete, hash);
      CompletesExactlyWhenUnchanged(plan, dir, hash);
    }
  }

  /** So a planned file that now has another hash is there in every durable state, and the execution does not
      complete. */
  lemma {:induction false} ChangedFileStays(plan: Plan, dir: Dir, hash: Hash, i: Item, s: nat)
    requires Planned(plan) && i in plan.delete && i.name in dir && dir[i.name].File? && hash(dir[i.name].bytes) != i.sha
    requires s < |Execute(plan, dir, hash).states|
    ensures Execute(plan, dir, hash).error.Some?
    ensures i.name in Execute(plan, dir, hash).states[s] && Execute(plan, dir, hash).states[s][i.name] == dir[i.name]
  {
    hide Doomed;
    AuditNotDoomed(plan.keepThrough);
    var m :| 0 <= m < |plan.delete| && plan.delete[m] == i;
    assert !Unchanged(dir, plan.delete[m], hash);
    CompletesExactlyWhenUnchanged(plan, dir, hash);
    NeverRemoved(plan, dir, hash, s, i.name);
  }

  /** No planned name is the audit file's. */
  ghost predicate Planned(plan: Plan) {
    Distinct(plan.delete) && forall i :: i in plan.delete ==> Doomed(i.name, plan.keepThrough)
  }

  lemma AuditNotPlanned(plan: Plan)
    requires Planned(plan)
    ensures forall k, n :: 0 <= k <= |plan.delete| && n in Names(plan.delete, k) ==> n != AUDIT
  {
    ProtectedNames();
    forall k, n | 0 <= k <= |plan.delete| && n in Names(plan.delete, k) ensures n != AUDIT {
      var i :| 0 <= i < k && plan.delete[i].name == n;
      assert plan.delete[i] in plan.delete;
    }
  }

  /** What an audit may say: that pruning is planned, or that it is completed and nothing doomed is left. */
  ghost predicate Truthful(status: string, plan: Plan, state: Dir) {
    status == "planned" || (status == "completed" && PostconditionHolds(state, plan.keepThrough, {}))
  }

  /** A durable state after the first: some prefix of the plan is gone while the audit in the directory holds that plan
      and tells the truth. */
  ghost predicate PrefixDeleted(plan: Plan, dir: Dir, state: Dir, hash: Hash) {
    exists k, status :: 0 <= k <= |plan.delete| && state == WithAudit(dir, status, plan) - Names(plan.delete, k) &&
      Truthful(status, plan, state) && forall i :: 0 <= i < k ==> Unchanged(dir, plan.delete[i], hash)
  }

  /** The states of the deletion loop, told from the directory before the audit was written. */
  lemma {:induction false} DeletedInOrder(plan: Plan, dir: Dir, hash: Hash, k: nat)
    requires Planned(plan) && k < |DeleteItems(WithAudit(dir, "planned", plan), plan.delete, hash).states|
    ensures k <= |plan.delete|
    ensures DeleteItems(WithAudit(dir, "planned", plan), plan.delete, hash).states[k] ==
            WithAudit(dir, "planned", plan) - Names(plan.delete, k)
    ensures forall i :: 0 <= i < k ==> Unchanged(dir, plan.delete[i], hash)
  {
    hide DeleteItems, Doomed, WithAudit;
    DeletionStates(WithAudit(dir, "planned", plan), plan.delete, hash, k);
    UnchangedBesideAudit(plan, dir, hash);
  }

  /** Main result: crash safety. In every durable state the deleted files are a prefix of the planned list that the
      audit on disk already holds, and each of them had its planned hash. */
  lemma {:induction false} EveryStateIsAudited(plan: Plan, dir: Dir, hash: Hash, s: nat)
    requires Planned(plan) && 0 < s < |Execute(plan, dir, hash).states|
    ensures PrefixDeleted(plan, dir, Execute(plan, dir, hash).states[s], hash)
  {
    hide DeleteItems, Planned, Names, Unchanged, WithAudit, PostconditionHolds;
    var start, x := WithAudit(dir, "planned", plan), Execute(plan, dir, hash);
    var deleting := DeleteItems(start, plan.delete, hash);
    if s - 1 < |deleting.states| {
      DeletedInOrder(plan, dir, hash, s - 1);
      assert x.states[s] == deleting.states[s - 1];
    } else {
      var k := |deleting.states| - 1;
      DeletedInOrder(plan, dir, hash, k);
      CompletedState(plan, dir, k);
      assert x.states[s] == WithAudit(Final(deleting), "completed", plan);
      StillHolds(Final(deleting), plan);
    }
  }

  lemma {:induction false} StillHolds(dir: Dir, plan: Plan)
    requires PostconditionHolds(dir, plan.keepThrough, {})
    ensures PostconditionHolds(WithAudit(dir, "completed", plan), plan.keepThrough, {})
  {
    AuditNotDoomed(plan.keepThrough);
    hide Doomed;
  }

  /** What the audit on disk says about a plan. */
  ghost function AuditIn(state: Dir, plan: Plan): Option<string> {
    var name := "checkpoint_pruning.json";
    if name in state && state[name].AuditFile? && state[name].audit.plan == plan then Some(state[name].audit.status)
    else None
  }

  /** Main result: an audit on disk never claims too much. In every durable state after the first it holds the plan;
      while it says planned more may follow, and once it says completed no numeric checkpoint above the limit is
      left. */
  lemma {:induction false} AuditTellsTheTruth(plan: Plan, dir: Dir, hash: Hash, s: nat)
    requires Planned(plan) && 0 < s < |Execute(plan, dir, hash).states|
    ensures var state := Execute(plan, dir, hash).states[s];
            AuditIn(state, plan).Some? &&
            (AuditIn(state, plan).value == "planned" ||
             (AuditIn(state, plan).value == "completed" && forall n :: n in state ==> !Doomed(n, plan.keepThrough)))
  {
    hide Execute, Planned, Unchanged, Names, Doomed;
    EveryStateIsAudited(plan, dir, hash, s);
    AuditNotPlanned(plan);
  }

  lemma CompletedState(plan: Plan, dir: Dir, k: nat)
    requires Planned(plan) && k <= |plan.delete|
    ensures WithAudit(WithAudit(dir, "planned", plan) - Names(plan.delete, k), "completed", plan) ==
            WithAudit(dir, "completed", plan) - Names(plan.delete, k)
  {
    AuditNotPlanned(plan);
  }

  /** Main result: nothing else is ever removed or altered: no name that is not numeric or not above the limit, no file
      that is not in the plan, and no planned file whose hash is not the planned one. */
  lemma NeverRemoved(plan: Plan, dir: Dir, hash: Hash, s: nat, name: string)
    requires Planned(plan) && s < |Execute(plan, dir, hash).states| && name in dir && name != AUDIT
    requires || !Doomed(name, plan.keepThrough)
             || (forall i :: i in plan.delete ==> i.name != name)
             || (exists i :: i in plan.delete && i.name == name && !Unchanged(dir, i, hash))
    ensures name in Execute(plan, dir, hash).states[s] && Execute(plan, dir, hash).states[s][name] == dir[name]
  {
    if s > 0 {
      EveryStateIsAudited(plan, dir, hash, s);
      var k, status :| 0 <= k <= |plan.delete| &&
        Execute(plan, dir, hash).states[s] == WithAudit(dir, status, plan) - Names(plan.delete, k) &&
        forall i :: 0 <= i < k ==> Unchanged(dir, plan.delete[i], hash);
      assert name !in Names(plan.delete, k);
    }
  }

  /** Main result: an execution completes exactly when every planned file is still what the plan saw and nothing else
      above the limit is there; then all of these are gone, everything else is left, and the audit says so. */
  lemma CompletesExactlyWhenUnchanged(plan: Plan, dir: Dir, hash: Hash)
    requires Planned(plan)
    ensures var x := Execute(plan, dir, hash);
            (x.error.None? <==>
              (forall i :: 0 <= i < |plan.delete| ==> Unchanged(dir, plan.delete[i], hash)) &&
              (forall n :: n in dir && Doomed(n, plan.keepThrough) ==> exists i :: i in plan.delete && i.name == n)) &&
            (x.error.None? ==>
              Final(x) == WithAudit(dir, "completed", plan) - Names(plan.delete, |plan.delete|) &&
              PostconditionHolds(Final(x), plan.keepThrough, {}))
  {
    hide Doomed;
    var start := WithAudit(dir, "planned", plan);
    var deleting := DeleteItems(start, plan.delete, hash);
    DeletionEnds(start, plan.delete, hash);
    UnchangedBesideAudit(plan, dir, hash);
    AuditNotDoomed(plan.keepThrough);
    if deleting.error.None? {
      DeletionStates(start, plan.delete, hash, |plan.delete|);
      var rest := start - Names(plan.delete, |plan.delete|);
      assert Final(deleting) == rest;
      CompletedState(plan, dir, |plan.delete|);
      LeftOver(plan, dir);
    }
  }

  lemma AuditNotDoomed(keep: int)
    ensures !Doomed(AUDIT, keep)
  {
    ProtectedNames();
  }

  lemma UnchangedBesideAudit(plan: Plan, dir: Dir, hash: Hash)
    requires Planned(plan)
    ensures forall i :: 0 <= i < |plan.delete| ==>
              (Unchanged(dir, plan.delete[i], hash) <==>
               Unchanged(WithAudit(dir, "planned", plan), plan.delete[i], hash))
  {
    AuditNotPlanned(plan);
    forall i | 0 <= i < |plan.delete| ensures plan.delete[i].name != AUDIT {
      assert plan.delete[i].name in Names(plan.delete, |plan.delete|);
    }
  }

  lemma LeftOver(plan: Plan, dir: Dir)
    requires Planned(plan)
    ensures PostconditionHolds(WithAudit(dir, "planned", plan) - Names(plan.delete, |plan.delete|), plan.keepThrough,
                               {}) <==>
            forall n :: n in dir && Doomed(n, plan.keepThrough) ==> exists i :: i in plan.delete && i.name == n
    ensures PostconditionHolds(WithAudit(dir, "planned", plan) - Names(plan.delete, |plan.delete|), plan.keepThrough,
                               {}) ==>
            PostconditionHolds(WithAudit(dir, "completed", plan) - Names(plan.delete, |plan.delete|), plan.keepThrough,
                               {})
  {
    hide Doomed;
    AuditNotDoomed(plan.keepThrough);
    var k := |plan.delete|;
    forall n ensures n in Names(plan.delete, k) <==> exists i :: i in plan.delete && i.name == n {
      if i :| i in plan.delete && i.name == n {
        var m :| 0 <= m < k && plan.delete[m] == i;
      }
      if n in Names(plan.delete, k) {
        var m :| 0 <= m < k && plan.delete[m].name == n;
        assert plan.delete[m] in plan.delete;
      }
    }
  }

  // ---- Planning again after a crash ----

  /** Two directories hold the same, the audit file aside. */
  ghost predicate SameButAudit(a: Dir, b: Dir) {
    forall n :: n != AUDIT ==> (n in a <==> n in b) && (n in a ==> a[n] == b[n])
  }

  /** The directory without the numeric checkpoints above the limit. */
  function Survivors(dir: Dir, keep: int): (r: Dir)
    ensures forall n :: n in r <==> n in dir && !Doomed(n, keep)
    ensures forall n :: n in r ==> r[n] == dir[n]
  {
    map n | n in dir && !Doomed(n, keep) :: dir[n]
  }

  /** The plan names exactly the doomed files, which are as it saw them. */
  lemma {:induction false} FreshPlanNames(dir: Dir, plan: Plan, hash: Hash)
    requires ExactlyDoomed(plan.delete, dir, plan.keepThrough, hash)
    ensures Planned(plan) && forall i :: 0 <= i < |plan.delete| ==> Unchanged(dir, plan.delete[i], hash)
    ensures forall n :: n in Names(plan.delete, |plan.delete|) <==> n in dir && Doomed(n, plan.keepThrough)
  {
    hide Doomed;
    var k := |plan.delete|;
    forall i | 0 <= i < k ensures Unchanged(dir, plan.delete[i], hash) {
      assert plan.delete[i] in plan.delete;
    }
    forall n ensures n in Names(plan.delete, k) <==> n in dir && Doomed(n, plan.keepThrough) {
      if n in Names(plan.delete, k) {
        var m :| 0 <= m < k && plan.delete[m].name == n;
        assert plan.delete[m] in plan.delete;
      }
      if n in dir && Doomed(n, plan.keepThrough) {
        var i :| i in plan.delete && i.name == n;
        var m :| 0 <= m < k && plan.delete[m] == i;
      }
    }
  }

  lemma {:induction false} FreshPlanCompletes(dir: Dir, listing: seq<string>, hash: Hash, plan: Plan)
    requires Lists(listing, dir) && PlanOf(dir, listing, KEEP_THROUGH, true, hash) == Ok(plan)
    ensures Planned(plan) && Execute(plan, dir, hash).error.None?
    ensures SameButAudit(Final(Execute(plan, dir, hash)), Survivors(dir, KEEP_THROUGH))
  {
    PlanIsExact(dir, listing, KEEP_THROUGH, true, hash);
    FreshPlanNames(dir, plan, hash);
    hide Doomed, Execute, PlanOf, Planned, Names, Unchanged;
    assert forall n :: n in dir && Doomed(n, plan.keepThrough) ==> exists i :: i in plan.delete && i.name == n;
    CompletesExactlyWhenUnchanged(plan, dir, hash);
    hide *;
    WithoutDoomed(dir, plan, Names(plan.delete, |plan.delete|));
  }

  lemma {:induction false} WithoutDoomed(dir: Dir, plan: Plan, names: set<string>)
    requires forall n :: n in names <==> n in dir && Doomed(n, plan.keepThrough)
    ensures SameButAudit(WithAudit(dir, "completed", plan) - names, Survivors(dir, plan.keepThrough))
  {
    hide Doomed;
  }

  /** Main result: crash and replan. If an execution of a fresh plan stops in any of its durable states, planning again
      there succeeds, its execution completes, and the same files survive as without the crash. */
  lemma ReplanReachesSameSurvivors(dir: Dir, listing: seq<string>, hash: Hash, plan: Plan, s: nat,
                                   listing': seq<string>)
    requires Lists(listing, dir) && PlanOf(dir, listing, KEEP_THROUGH, true, hash) == Ok(plan)
    requires s < |Execute(plan, dir, hash).states| && Lists(listing', Execute(plan, dir, hash).states[s])
    ensures var crashed := Execute(plan, dir, hash).states[s];
            var again := PlanOf(crashed, listing', KEEP_THROUGH, true, hash);
            again.Ok? && Execute(again.value, crashed, hash).error.None? &&
            SameButAudit(Final(Execute(again.value, crashed, hash)), Final(Execute(plan, dir, hash)))
  {
    hide Doomed, Execute;
    FreshPlanCompletes(dir, listing, hash, plan);
    PlanIsExact(dir, listing, KEEP_THROUGH, true, hash);
    var crashed := Execute(plan, dir, hash).states[s];
    CrashedIsPlannable(dir, listing, hash, plan, s);
    PlanIsExact(crashed, listing', KEEP_THROUGH, true, hash);
    var again := PlanOf(crashed, listing', KEEP_THROUGH, true, hash).value;
    FreshPlanCompletes(crashed, listing', hash, again);
  }

  /** A crashed directory still has the protected files, only regular doomed ones, and the same survivors. */
  lemma CrashedIsPlannable(dir: Dir, listing: seq<string>, hash: Hash, plan: Plan, s: nat)
    requires Lists(listing, dir) && PlanOf(dir, listing, KEEP_THROUGH, true, hash) == Ok(plan) && Planned(plan)
    requires s < |Execute(plan, dir, hash).states|
    ensures var crashed := Execute(plan, dir, hash).states[s];
            MANIFEST in crashed && crashed[MANIFEST].File? && KEPT in crashed && crashed[KEPT].File? &&
            (forall n :: n in crashed && Doomed(n, KEEP_THROUGH) ==> crashed[n].File?) &&
            SameButAudit(Survivors(crashed, KEEP_THROUGH), Survivors(dir, KEEP_THROUGH))
  {
    hide Execute, PlanOf, Doomed, Planned, Lists;
    PlanIsExact(dir, listing, KEEP_THROUGH, true, hash);
    SafeNames();
    NeverRemoved(plan, dir, hash, s, MANIFEST);
    NeverRemoved(plan, dir, hash, s, KEPT);
    NothingAppears(plan, dir, hash, s);
    var crashed := Execute(plan, dir, hash).states[s];
    forall n | n != AUDIT && n in dir && !Doomed(n, KEEP_THROUGH) ensures n in crashed && crashed[n] == dir[n] {
      NeverRemoved(plan, dir, hash, s, n);
    }
  }

  lemma SafeNames()
    ensures MANIFEST != AUDIT && KEPT != AUDIT
    ensures !Doomed(MANIFEST, KEEP_THROUGH) && !Doomed(KEPT, KEEP_THROUGH) && !Doomed(AUDIT, KEEP_THROUGH)
  {
    ProtectedNames();
    assert MANIFEST[0] == 'r' && KEPT[0] == 'm' && AUDIT[0] == 'c';
  }

  lemma NothingAppears(plan: Plan, dir: Dir, hash: Hash, s: nat)
    requires Planned(plan) && s < |Execute(plan, dir, hash).states|
    ensures var state := Execute(plan, dir, hash).states[s];
            forall n :: n in state && n != AUDIT ==> n in dir && state[n] == dir[n]
  {
    hide Execute, Planned;
    if s > 0 {
      EveryStateIsAudited(plan, dir, hash, s);
    } else {
      FirstState(plan, dir, hash);
    }
  }

  lemma FirstState(plan: Plan, dir: Dir, hash: Hash)
    ensures Execute(plan, dir, hash).states[0] == dir
  {
  }
}
