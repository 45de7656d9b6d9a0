/** Audited pruning of numeric checkpoints: plan, write-ahead audit, deletion one by one, verification. */
module Pruning {
  import opened Common
  import opened Decimals

  datatype Entry = File(bytes: seq<nat>) | AuditFile(audit: Audit) | Symlink | Directory

  /** The run directory. */
  type Dir = map<string, Entry>

  type Hash = seq<nat> -> string

  datatype Item = Item(name: string, sha: string)

  datatype Plan = Plan(keepThrough: int, manifestSha: string, keptSha: string, delete: seq<Item>)

  datatype Audit = Audit(status: string, plan: Plan)

  datatype PruningError =
    | KeepNotAllowed | WrongDirectory | ManifestNotRegular | KeptNotRegular | CheckpointNotRegular
    | ChangedAfterAudit | Remaining

  const KEEP_THROUGH := 3500
  const MANIFEST := "run_manifest.json"
  const KEPT := "model_3500.pt"
  const AUDIT := "checkpoint_pruning.json"

  /** The number of a name of the form model_<digits>.pt. */
  function NumericCheckpoint(name: string): Option<int> {
    var n := |name|;
    if n > 9 && name[..6] == "model_" && name[n - 3..] == ".pt" && AllDigits(name[6..n - 3]) then
      Some(Read(name[6..n - 3]))
    else None
  }

  /** A numeric checkpoint above the limit. */
  predicate Doomed(name: string, keep: int) {
    NumericCheckpoint(name).Some? && NumericCheckpoint(name).value > keep
  }

  lemma ProtectedNames()
    ensures NumericCheckpoint(AUDIT).None? && NumericCheckpoint(MANIFEST).None? && NumericCheckpoint(KEPT) == Some(3500)
  {
    assert KEPT[6..10] == "3500" && AllDigits("3500");
    assert "3500"[..3] == "350" && "350"[..2] == "35" && "35"[..1] == "3" && "3"[..0] == "";
    assert Read("3") == 3 && Read("35") == 35 && Read("350") == 350;
  }

  /** The listing shows every entry once, in any order. */
  ghost predicate Lists(listing: seq<string>, dir: Dir) {
    (forall n :: n in listing <==> n in dir) && forall i, j :: 0 <= i < j < |listing| ==> listing[i] != listing[j]
  }

  /** The doomed entries of a listing, in listing order; they must be regular files. */
  function Collect(dir: Dir, listing: seq<string>, keep: int, hash: Hash): Result<seq<Item>, PruningError>
    requires forall n :: n in listing ==> n in dir
  {
    if listing == [] then Ok([]) else
      var k := |listing| - 1;
      match Collect(dir, listing[..k], keep, hash)
      case Err(e) => Err(e)
      case Ok(items) =>
        var name := listing[k];
        if !Doomed(name, keep) then Ok(items)
        else if !dir[name].File? then Err(CheckpointNotRegular)
        else Ok(items + [Item(name, hash(dir[name].bytes))])
  }

  function Number(i: Item): int {
    match NumericCheckpoint(i.name) case None => 0 case Some(n) => n
  }

  function InsertItem(x: Item, s: seq<Item>): seq<Item> {
    if s == [] || Number(x) <= Number(s[0]) then [x] + s else [s[0]] + InsertItem(x, s[1..])
  }

  /** The stable sort by checkpoint number. */
  function SortItems(s: seq<Item>): seq<Item> {
    if s == [] then [] else InsertItem(s[0], SortItems(s[1..]))
  }

  function PlanOf(dir: Dir, listing: seq<string>, keep: int, rightDirectory: bool,
                  hash: Hash): Result<Plan, PruningError>
    requires forall n :: n in listing ==> n in dir
  {
    if keep != KEEP_THROUGH then Err(KeepNotAllowed)
    else if !rightDirectory then Err(WrongDirectory)
    else if MANIFEST !in dir || !dir[MANIFEST].File? then Err(ManifestNotRegular)
    else if KEPT !in dir || !dir[KEPT].File? then Err(KeptNotRegular)
    else
      match Collect(dir, listing, keep, hash)
      case Err(e) => Err(e)
      case Ok(items) => Ok(Plan(keep, hash(dir[MANIFEST].bytes), hash(dir[KEPT].bytes), SortItems(items)))
  }

  lemma {:induction false} CollectFailsEarly(dir: Dir, listing: seq<string>, i: nat, keep: int, hash: Hash)
    requires i <= |listing| && forall n :: n in listing ==> n in dir
    requires Collect(dir, listing[..i], keep, hash).Err?
    ensures Collect(dir, listing, keep, hash) == Collect(dir, listing[..i], keep, hash)
    decreases |listing|
  {
    if i == |listing| {
      assert listing[..i] == listing;
    } else {
      var k := |listing| - 1;
      assert listing[..k][..i] == listing[..i];
      CollectFailsEarly(dir, listing[..k], i, keep, hash);
    }
  }

  method BuildPruningPlan(dir: Dir, listing: seq<string>, keep: int, rightDirectory: bool, hash: Hash)
    returns (r: Result<Plan, PruningError>)
    requires forall n :: n in listing ==> n in dir
    ensures r == PlanOf(dir, listing, keep, rightDirectory, hash)
  {
    if keep != KEEP_THROUGH {
      return Err(KeepNotAllowed);
    }
    if !rightDirectory {
      return Err(WrongDirectory);
    }
    if MANIFEST !in dir || !dir[MANIFEST].File? {
      return Err(ManifestNotRegular);
    }
    if KEPT !in dir || !dir[KEPT].File? {
      return Err(KeptNotRegular);
    }
    var delete: seq<Item> := [];
    for i := 0 to |listing|
      invariant Collect(dir, listing[..i], keep, hash) == Ok(delete)
    {
      assert listing[..i + 1][..i] == listing[..i];
      var name := listing[i];
      if Doomed(name, keep) {
        if !dir[name].File? {
          CollectFailsEarly(dir, listing, i + 1, keep, hash);
          return Err(CheckpointNotRegular);
        }
        delete := delete + [Item(name, hash(dir[name].bytes))];
      }
    }
    assert listing[..|listing|] == listing;
    return Ok(Plan(keep, hash(dir[MANIFEST].bytes), hash(dir[KEPT].bytes), SortItems(delete)));
  }

  // ---- Execution ----

  /** The durable states an execution passes through, the initial one first, and how it ends. */
  datatype Execution = Execution(error: Option<PruningError>, states: seq<Dir>)

  function Final(x: Execution): Dir
    requires x.states != []
  {
    x.states[|x.states| - 1]
  }

  /** Is the file still what the plan saw? */
  function CheckItem(dir: Dir, i: Item, hash: Hash): Option<PruningError> {
    if i.name !in dir || !dir[i.name].File? then Some(CheckpointNotRegular)
    else if hash(dir[i.name].bytes) != i.sha then Some(ChangedAfterAudit)
    else None
  }

  /** The deletion loop; the state reached so far is the first of the list. */
  function DeleteItems(dir: Dir, items: seq<Item>, hash: Hash): (x: Execution)
    ensures x.states != [] && x.states[0] == dir
  {
    if items == [] then Execution(None, [dir]) else
      match CheckItem(dir, items[0], hash)
      case Some(e) => Execution(Some(e), [dir])
      case None =>
        var rest := DeleteItems(dir - {items[0].name}, items[1..], hash);
        Execution(rest.error, [dir] + rest.states)
  }

  /** One turn of the loop. */
  lemma {:induction false} DeleteStep(dir: Dir, items: seq<Item>, i: nat, hash: Hash)
    requires i < |items|
    ensures var whole := DeleteItems(dir, items[i..], hash);
            match CheckItem(dir, items[i], hash)
            case Some(e) => whole == Execution(Some(e), [dir])
            case None =>
              var rest := DeleteItems(dir - {items[i].name}, items[i + 1..], hash);
              whole == Execution(rest.error, [dir] + rest.states) && Final(whole) == Final(rest)
  {
    hide CheckItem;
    assert items[i..][0] == items[i] && items[i..][1..] == items[i + 1..];
  }

  lemma {:induction false} DeleteNothing(dir: Dir, items: seq<Item>, hash: Hash)
    ensures DeleteItems(dir, items[|items|..], hash) == Execution(None, [dir])
  {
  }

  /** The postcondition: no numeric checkpoint above the limit is left, but for the ignored names. */
  predicate PostconditionHolds(dir: Dir, keep: int, ignored: set<string>) {
    forall n :: n in dir ==> Doomed(n, keep) ==> n in ignored
  }

  function WithAudit(dir: Dir, status: string, plan: Plan): Dir {
    dir[AUDIT := AuditFile(Audit(status, plan))]
  }

  /** `execute_pruning` with `apply`. */
  function Execute(plan: Plan, dir: Dir, hash: Hash): (x: Execution)
    ensures x.states != [] && x.states[0] == dir
  {
    var deleting := DeleteItems(WithAudit(dir, "planned", plan), plan.delete, hash);
    if deleting.error.Some? then Execution(deleting.error, [dir] + deleting.states)
    else if !PostconditionHolds(Final(deleting), plan.keepThrough, {}) then
      Execution(Some(Remaining), [dir] + deleting.states)
    else Execution(None, [dir] + deleting.states + [WithAudit(Final(deleting), "completed", plan)])
  }

  /** The directory on disk, with the durable states it went through. */
  class RunDirectory {
    var entries: Dir
    ghost var history: seq<Dir>

    constructor (initial: Dir)
      ensures entries == initial && history == [initial]
    {
      entries := initial;
      history := [initial];
    }

    /** `os.replace` of a freshly written file. */
    method WriteAudit(status: string, plan: Plan)
      modifies this
      ensures entries == WithAudit(old(entries), status, plan)
      ensures history == old(history) + [entries]
    {
      entries := WithAudit(entries, status, plan);
      history := history + [entries];
    }

    method VerifyPostcondition(keep: int, ignored: set<string>) returns (ok: bool)
      ensures ok <==> PostconditionHolds(entries, keep, ignored)
    {
      var unseen := entries.Keys;
      ok := true;
      while unseen != {}
        invariant unseen <= entries.Keys
        invariant ok <==> forall n :: n in entries && n !in unseen ==> Doomed(n, keep) ==> n in ignored
        decreases unseen
      {
        var n :| n in unseen;
        unseen := unseen - {n};
        if Doomed(n, keep) && n !in ignored {
          ok := false;
        }
      }
    }

    method DeleteFiles(items: seq<Item>, hash: Hash) returns (error: Option<PruningError>)
      modifies this
      ensures ghost var x := DeleteItems(old(entries), items, hash);
              error == x.error && entries == Final(x) && history == old(history) + x.states[1..]
    {
      hide CheckItem, DeleteItems;
      ghost var start := entries;
      assert items[0..] == items;
      for i := 0 to |items|
        invariant ghost var rest := DeleteItems(entries, items[i..], hash);
                  ghost var whole := DeleteItems(start, items, hash);
                  whole.error == rest.error && Final(whole) == Final(rest) &&
                  old(history) + whole.states[1..] == history + rest.states[1..]
      {
        DeleteStep(entries, items, i, hash);
        var item := items[i];
        error := CheckItem(entries, item, hash);
        if error.Some? {
          return;
        }
        ghost var rest := DeleteItems(entries - {item.name}, items[i + 1..], hash);
        Glue(history, entries, rest.states);
        entries := entries - {item.name};
        history := history + [entries];
      }
      DeleteNothing(entries, items, hash);
      error := None;
    }

    method ExecutePruning(plan: Plan, apply: bool, hash: Hash) returns (r: Result<Audit, PruningError>)
      modifies this
      ensures !apply ==> r == Ok(Audit("dry_run", plan)) && entries == old(entries) && history == old(history)
      ensures apply ==>
              ghost var x := Execute(plan, old(entries), hash);
              entries == Final(x) && history == old(history) + x.states[1..] &&
              r == match x.error case Some(e) => Err(e) case None => Ok(Audit("completed", plan))
    {
      hide DeleteItems, WithAudit, PostconditionHolds;
      if !apply {
        return Ok(Audit("dry_run", plan));
      }
      ghost var deleting := DeleteItems(WithAudit(entries, "planned", plan), plan.delete, hash);
      Glue(history, entries, deleting.states);
      WriteAudit("planned", plan);
      var error := DeleteFiles(plan.delete, hash);
      if error.Some? {
        return Err(error.value);
      }
      var ok := VerifyPostcondition(plan.keepThrough, {});
      if !ok {
        return Err(Remaining);
      }
      WriteAudit("completed", plan);
      GlueEnd(old(history), old(entries), deleting.states, entries);
      return Ok(Audit("completed", plan));
    }
  }

  lemma Glue(h: seq<Dir>, first: Dir, states: seq<Dir>)
    requires states != []
    ensures h + ([first] + states)[1..] == h + [states[0]] + states[1..]
  {
    assert ([first] + states)[1..] == states && states == [states[0]] + states[1..];
  }

  lemma GlueEnd(h: seq<Dir>, first: Dir, states: seq<Dir>, last: Dir)
    requires states != []
    ensures h + ([first] + states + [last])[1..] == h + ([first] + states)[1..] + [last]
  {
    assert ([first] + states + [last])[1..] == states + [last] && ([first] + states)[1..] == states;
  }
}
