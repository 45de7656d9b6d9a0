/** The chain of accepted stage manifests: each records the hashes of its parent's manifest and checkpoint. */
module Lineage {
  import opened Common
  import opened FileStores

  const STAGE_ORDER: seq<string> := ["L0-C0", "L1-C1", "L1-C2", "L1-C3", "L1-C4", "L2-D1", "L2-D2", "L2-D3"]

  /** The parent a stage contract names; the outer None is an unknown stage. */
  function StageParent(stage: string): Option<Option<string>> {
    if stage == "L0-C0" then Some(None)
    else if stage == "L1-C1" then Some(Some("L0-C0"))
    else if stage == "L1-C2" then Some(Some("L1-C1"))
    else if stage == "L1-C3" then Some(Some("L1-C2"))
    else if stage == "L1-C4" then Some(Some("L1-C3"))
    else if stage == "L2-D1" then Some(Some("L1-C4"))
    else if stage == "L2-D2" then Some(Some("L2-D1"))
    else if stage == "L2-D3" then Some(Some("L2-D2"))
    else None
  }

  /** An index into the stage order. */
  type StageIndex = k: int | 0 <= k < 8

  lemma StageOrderFacts(i: StageIndex, j: StageIndex)
    ensures |STAGE_ORDER| == 8 && |STAGE_ORDER[i]| == 5 && STAGE_ORDER[i][0] == 'L'
    ensures STAGE_ORDER[i] == STAGE_ORDER[j] ==> i == j
    ensures StageParent(STAGE_ORDER[i]) == Some(if i == 0 then None else Some(STAGE_ORDER[i - 1]))
  {
  }

  /** The experiment directory and the file hash. */
  datatype Experiment = Experiment(root: Path, hash: Hash)

  datatype LineageError =
    | UnknownStage | MissingManifest | NotJson | StageMismatch | NotAccepted | BadPath | MissingFile | FinalShaMismatch
    | NonRootStart | RootHasParent | NotImmediateChild | ParentStageMismatch | ParentManifestPathMismatch
    | ParentManifestShaMismatch | ParentCheckpointShaMismatch | ParentCheckpointPathMismatch

  function RunDir(x: Experiment, k: StageIndex): Path {
    Join(x.root, STAGE_ORDER[k])
  }

  function ManifestPath(x: Experiment, k: StageIndex): Path {
    Join(RunDir(x, k), "run_manifest.json")
  }

  function Checkpoint(doc: Document, manifest: Path): Option<Path> {
    DocumentPath(Get(doc, "final_checkpoint"), manifest)
  }

  const PARENT_FIELDS: seq<string> :=
    ["parent_stage", "parent_manifest", "parent_manifest_sha256", "parent_checkpoint", "parent_checkpoint_sha256"]

  /** The checks of one manifest on its own. */
  function CheckSelf(x: Experiment, store: Store, k: StageIndex): Result<Document, LineageError> {
    var manifest := ManifestPath(x, k);
    if manifest !in store then Err(MissingManifest)
    else if store[manifest].Raw? then Err(NotJson)
    else
      var doc := store[manifest].doc;
      if Get(doc, "stage") != Text(STAGE_ORDER[k]) then Err(StageMismatch)
      else if Get(doc, "accepted") != Bool(true) then Err(NotAccepted)
      else
        match Checkpoint(doc, manifest)
        case None => Err(BadPath)
        case Some(p) =>
          if p !in store then Err(MissingFile)
          else if Get(doc, "final_checkpoint_sha256") != Text(x.hash(store[p])) then Err(FinalShaMismatch)
          else Ok(doc)
  }

  /** The checks of a first manifest against having no parent. */
  function CheckRoot(doc: Document, k: StageIndex): Result<(), LineageError> {
    if StageParent(STAGE_ORDER[k]) != Some(None) then Err(NonRootStart)
    else if exists f :: f in PARENT_FIELDS && Get(doc, f) != Null then Err(RootHasParent)
    else Ok(())
  }

  /** The checks of a manifest against the accepted one before it. */
  function CheckChild(x: Experiment, store: Store, k: StageIndex, doc: Document, prev: Path,
                      prevDoc: Document): Result<(), LineageError> {
    var manifest, parent := ManifestPath(x, k), StageParent(STAGE_ORDER[k]);
    if parent.None? || parent.value.None? || Text(parent.value.value) != Get(prevDoc, "stage") then
      Err(NotImmediateChild)
    else if Get(doc, "parent_stage") != Text(parent.value.value) then Err(ParentStageMismatch)
    else
      match DocumentPath(Get(doc, "parent_manifest"), manifest)
      case None => Err(BadPath)
      case Some(recorded) =>
        if recorded != prev then Err(ParentManifestPathMismatch)
        else if prev !in store then Err(MissingFile)
        else if Get(doc, "parent_manifest_sha256") != Text(x.hash(store[prev])) then Err(ParentManifestShaMismatch)
        else
          match Checkpoint(prevDoc, prev)
          case None => Err(BadPath)
          case Some(prevCheckpoint) =>
            if prevCheckpoint !in store then Err(MissingFile)
            else if Get(doc, "parent_checkpoint_sha256") != Text(x.hash(store[prevCheckpoint])) then
              Err(ParentCheckpointShaMismatch)
            else
              match DocumentPath(Get(doc, "parent_checkpoint"), manifest)
              case None => Err(BadPath)
              case Some(p) => if p != prevCheckpoint then Err(ParentCheckpointPathMismatch) else Ok(())
  }

  /** The manifest document of a stage; empty where there is none. */
  function DocAt(x: Experiment, store: Store, k: StageIndex): Document {
    var m := ManifestPath(x, k);
    if m in store && store[m].Json? then store[m].doc else map[]
  }

  function CheckStage(x: Experiment, store: Store, k: StageIndex): Result<(), LineageError> {
    match CheckSelf(x, store, k)
    case Err(e) => Err(e)
    case Ok(doc) =>
      if k == 0 then CheckRoot(doc, k)
      else CheckChild(x, store, k, doc, ManifestPath(x, k - 1), DocAt(x, store, k - 1))
  }

  /** The first failing check from the first stage on through stage k. */
  function CheckThrough(x: Experiment, store: Store, k: int): Result<(), LineageError>
    requires k < 8
    decreases k
  {
    if k < 0 then Ok(()) else
      match CheckThrough(x, store, k - 1)
      case Err(e) => Err(e)
      case Ok(_) => CheckStage(x, store, k)
  }

  ghost predicate ValidThrough(x: Experiment, store: Store, k: int)
    requires k < 8
  {
    CheckThrough(x, store, k).Ok?
  }

  function LineageResult(x: Experiment, store: Store, k: StageIndex): Result<Path, LineageError> {
    match CheckThrough(x, store, k)
    case Err(e) => Err(e)
    case Ok(_) => Ok(ManifestPath(x, k))
  }

  /** The index of a stage in the order, from index k on. */
  function IndexFrom(stage: string, k: nat): (r: Option<StageIndex>)
    ensures r.Some? ==> STAGE_ORDER[r.value] == stage
    ensures r.None? ==> forall i: StageIndex :: k <= i ==> STAGE_ORDER[i] != stage
    decreases 8 - k
  {
    if k >= 8 then None else if STAGE_ORDER[k] == stage then Some(k) else IndexFrom(stage, k + 1)
  }

  function IndexOf(stage: string): Option<StageIndex> {
    IndexFrom(stage, 0)
  }

  /** A failing check of an earlier stage is the result of the whole validation. */
  lemma {:induction false} FailsEarly(x: Experiment, store: Store, j: int, k: StageIndex)
    requires 0 <= j <= k && CheckThrough(x, store, j).Err?
    ensures CheckThrough(x, store, k) == CheckThrough(x, store, j)
    decreases k
  {
    if j < k {
      FailsEarly(x, store, j, k - 1);
    }
  }

  lemma CheckSelfReads(x: Experiment, store: Store, k: StageIndex)
    ensures CheckSelf(x, store, k).Ok? ==> CheckSelf(x, store, k).value == DocAt(x, store, k)
  {
  }

  method ValidateLineage(x: Experiment, store: Store, throughStage: string) returns (r: Result<Path, LineageError>)
    ensures IndexOf(throughStage).None? ==> r == Err(UnknownStage)
    ensures IndexOf(throughStage).Some? ==> r == LineageResult(x, store, IndexOf(throughStage).value)
  {
    hide CheckSelf, CheckRoot, CheckChild, DocAt, ManifestPath;
    var index := IndexOf(throughStage);
    if index.None? {
      return Err(UnknownStage);
    }
    var previousManifest: Option<Path> := None;
    var previousDocument: Document := map[];
    var last: int := index.value;
    for k := 0 to last + 1
      invariant CheckThrough(x, store, k - 1).Ok?
      invariant previousManifest == if k == 0 then None else Some(ManifestPath(x, k - 1))
      invariant k > 0 ==> previousDocument == DocAt(x, store, k - 1)
    {
      CheckSelfReads(x, store, k);
      var own := CheckSelf(x, store, k);
      if own.Err? {
        FailsEarly(x, store, k, index.value);
        return Err(own.error);
      }
      var document := own.value;
      var linked := if previousManifest.None? then CheckRoot(document, k)
                    else CheckChild(x, store, k, document, previousManifest.value, previousDocument);
      if linked.Err? {
        FailsEarly(x, store, k, index.value);
        return Err(linked.error);
      }
      previousManifest := Some(ManifestPath(x, k));
      previousDocument := document;
    }
    return Ok(previousManifest.value);
  }

  // ---- What a valid chain determines ----

  /** Validation is closed under prefixes. */
  lemma {:induction false} PrefixValid(x: Experiment, store: Store, j: int, k: int)
    requires j <= k < 8 && ValidThrough(x, store, k)
    ensures ValidThrough(x, store, j)
    ensures 0 <= j ==> CheckStage(x, store, j).Ok?
    decreases k
  {
    if k >= 0 && j < k {
      PrefixValid(x, store, j, k - 1);
    }
  }

  /** The final checkpoint of a stage. */
  function FinalCheckpoint(x: Experiment, store: Store, k: StageIndex): Option<Path> {
    Checkpoint(DocAt(x, store, k), ManifestPath(x, k))
  }

  lemma StageFacts(x: Experiment, store: Store, k: StageIndex)
    requires CheckStage(x, store, k).Ok?
    ensures ManifestPath(x, k) in store && store[ManifestPath(x, k)] == Json(DocAt(x, store, k))
    ensures Get(DocAt(x, store, k), "accepted") == Bool(true)
    ensures FinalCheckpoint(x, store, k).Some? && FinalCheckpoint(x, store, k).value in store
    ensures Get(DocAt(x, store, k), "final_checkpoint_sha256") ==
            Text(x.hash(store[FinalCheckpoint(x, store, k).value]))
    ensures Get(DocAt(x, store, k), "stage") == Text(STAGE_ORDER[k])
    ensures k > 0 && ManifestPath(x, k - 1) in store ==>
            Get(DocAt(x, store, k), "parent_manifest_sha256") == Text(x.hash(store[ManifestPath(x, k - 1)]))
  {
  }

  /** Both stores hold the same manifest and the same final checkpoint of a stage. */
  ghost predicate SameStage(x: Experiment, s: Store, t: Store, k: StageIndex) {
    && ManifestPath(x, k) in s && ManifestPath(x, k) in t && s[ManifestPath(x, k)] == t[ManifestPath(x, k)]
    && FinalCheckpoint(x, s, k) == FinalCheckpoint(x, t, k) && FinalCheckpoint(x, s, k).Some?
    && FinalCheckpoint(x, s, k).value in s && FinalCheckpoint(x, s, k).value in t
    && s[FinalCheckpoint(x, s, k).value] == t[FinalCheckpoint(x, s, k).value]
  }

  lemma SameManifestSameStage(x: Experiment, s: Store, t: Store, k: StageIndex)
    requires Injective(x.hash) && CheckStage(x, s, k).Ok? && CheckStage(x, t, k).Ok?
    requires ManifestPath(x, k) in s && ManifestPath(x, k) in t && s[ManifestPath(x, k)] == t[ManifestPath(x, k)]
    ensures SameStage(x, s, t, k)
  {
    StageFacts(x, s, k);
    StageFacts(x, t, k);
    var p := FinalCheckpoint(x, s, k).value;
    SameDigest(x, s[p], t[p]);
  }

  /** The stage before has the same manifest too: its hash is recorded. */
  lemma SameParentManifest(x: Experiment, s: Store, t: Store, k: StageIndex)
    requires Injective(x.hash) && k > 0 && CheckStage(x, s, k).Ok? && CheckStage(x, t, k).Ok?
    requires CheckStage(x, s, k - 1).Ok? && CheckStage(x, t, k - 1).Ok?
    requires ManifestPath(x, k) in s && ManifestPath(x, k) in t && s[ManifestPath(x, k)] == t[ManifestPath(x, k)]
    ensures ManifestPath(x, k - 1) in s && ManifestPath(x, k - 1) in t
    ensures s[ManifestPath(x, k - 1)] == t[ManifestPath(x, k - 1)]
  {
    hide *;
    StageFacts(x, s, k - 1);
    StageFacts(x, t, k - 1);
    StageFacts(x, s, k);
    StageFacts(x, t, k);
    SameDigest(x, s[ManifestPath(x, k - 1)], t[ManifestPath(x, k - 1)]);
  }

  lemma SameDigest(x: Experiment, a: Content, b: Content)
    requires Injective(x.hash) && x.hash(a) == x.hash(b)
    ensures a == b
  {
  }

  /** Main result: two stores that both validate through stage k and hold the same stage-k manifest
      hold the same manifests and final checkpoints of all stages up to k. */
  lemma {:induction false} ManifestDeterminesHistory(x: Experiment, s: Store, t: Store, k: StageIndex, i: StageIndex)
    requires Injective(x.hash) && ValidThrough(x, s, k) && ValidThrough(x, t, k)
    requires ManifestPath(x, k) in s && ManifestPath(x, k) in t && s[ManifestPath(x, k)] == t[ManifestPath(x, k)]
    requires i <= k
    ensures SameStage(x, s, t, i)
    decreases k
  {
    hide *;
    PrefixValid(x, s, k, k);
    PrefixValid(x, t, k, k);
    SameManifestSameStage(x, s, t, k);
    if i < k {
      PrefixValid(x, s, k - 1, k);
      PrefixValid(x, t, k - 1, k);
      SameParentManifest(x, s, t, k);
      ManifestDeterminesHistory(x, s, t, k - 1, i);
    }
  }

  /** So a change to any recorded file of an earlier stage, the last manifest aside, makes validation fail. */
  lemma TamperingIsDetected(x: Experiment, s: Store, t: Store, k: StageIndex, i: StageIndex, p: Path)
    requires Injective(x.hash) && ValidThrough(x, s, k) && i <= k
    requires ManifestPath(x, k) in s && ManifestPath(x, k) in t && s[ManifestPath(x, k)] == t[ManifestPath(x, k)]
    requires p == ManifestPath(x, i) || Some(p) == FinalCheckpoint(x, s, i)
    requires !Agree(s, t, p)
    ensures !ValidThrough(x, t, k)
  {
    if ValidThrough(x, t, k) {
      ManifestDeterminesHistory(x, s, t, k, i);
    }
  }

  // ---- What validation reads ----

  /** The manifest and the final checkpoint of a stage are the same in both stores. */
  ghost predicate SameFiles(x: Experiment, s: Store, t: Store, k: StageIndex) {
    && Agree(s, t, ManifestPath(x, k))
    && (FinalCheckpoint(x, s, k).Some? ==> Agree(s, t, FinalCheckpoint(x, s, k).value))
  }

  /** The files of the stages below k are the same in both stores. */
  ghost predicate ParentsUnchanged(x: Experiment, s: Store, t: Store, k: int) {
    forall i: StageIndex :: i < k ==> SameFiles(x, s, t, i)
  }

  lemma SelfUnchanged(x: Experiment, s: Store, t: Store, k: StageIndex)
    requires SameFiles(x, s, t, k)
    ensures DocAt(x, s, k) == DocAt(x, t, k) && FinalCheckpoint(x, s, k) == FinalCheckpoint(x, t, k)
    ensures CheckSelf(x, s, k) == CheckSelf(x, t, k)
  {
  }

  /** A stage check reads only the manifests and final checkpoints of the stage and its parent. */
  lemma StageUnchanged(x: Experiment, s: Store, t: Store, k: StageIndex)
    requires SameFiles(x, s, t, k) && (k > 0 ==> SameFiles(x, s, t, k - 1))
    ensures CheckStage(x, s, k) == CheckStage(x, t, k)
  {
    SelfUnchanged(x, s, t, k);
    if k > 0 {
      SelfUnchanged(x, s, t, k - 1);
      ChildUnchanged(x, s, t, k, DocAt(x, s, k));
    }
    hide CheckSelf, CheckChild, CheckRoot;
    assert CheckSelf(x, s, k).Ok? ==> CheckSelf(x, s, k).value == DocAt(x, s, k) by {
      CheckSelfReads(x, s, k);
    }
  }

  lemma ChildUnchanged(x: Experiment, s: Store, t: Store, k: StageIndex, doc: Document)
    requires k > 0 && SameFiles(x, s, t, k - 1)
    ensures CheckChild(x, s, k, doc, ManifestPath(x, k - 1), DocAt(x, s, k - 1)) ==
            CheckChild(x, t, k, doc, ManifestPath(x, k - 1), DocAt(x, t, k - 1))
  {
  }

  lemma {:induction false} ThroughUnchanged(x: Experiment, s: Store, t: Store, k: int, j: int)
    requires j < k <= 8 && ParentsUnchanged(x, s, t, k)
    ensures CheckThrough(x, s, j) == CheckThrough(x, t, j)
    decreases j
  {
    hide CheckStage, SameFiles, ManifestPath;
    if j >= 0 {
      ThroughUnchanged(x, s, t, k, j - 1);
      StageUnchanged(x, s, t, j);
    }
  }

  lemma ValidUnchanged(x: Experiment, s: Store, t: Store, k: int, j: int)
    requires j < k <= 8 && ParentsUnchanged(x, s, t, k) && ValidThrough(x, s, j)
    ensures ValidThrough(x, t, j)
  {
    ThroughUnchanged(x, s, t, k, j);
  }

  lemma AbsolutePaths(x: Experiment, store: Store, k: StageIndex)
    requires Absolute(x.root)
    ensures Absolute(ManifestPath(x, k)) && Dirname(ManifestPath(x, k)) == RunDir(x, k) && Absolute(RunDir(x, k))
    ensures FinalCheckpoint(x, store, k).Some? ==> Absolute(FinalCheckpoint(x, store, k).value)
  {
    DirnameJoin(RunDir(x, k), "run_manifest.json");
    assert RunDir(x, k)[0] == x.root[0] && ManifestPath(x, k)[0] == x.root[0];
  }
}
