/** What the trainer accepts as a parent and records in its run manifest, against what the curriculum validates. */
module ParentRecords {
  import opened Common
  import opened FileStores
  import opened Lineage

  datatype ParentLineage = ParentLineage(
    stage: string, manifest: Path, manifestSha: string, checkpoint: Path, checkpointSha: string)

  datatype ParentError =
    | UnknownContract | RootWithParent | ParentRequired | NoManifest | BadManifest | DiagnosticOnly | ParentNotAccepted
    | WrongStage | NoFinalCheckpoint | MissingCheckpoint | ShaMismatch

  function ValidateParent(hash: Hash, store: Store, stage: string,
                          parentManifest: Option<Path>): Result<Option<ParentLineage>, ParentError> {
    match StageParent(stage)
    case None => Err(UnknownContract)
    case Some(None) => if parentManifest.Some? then Err(RootWithParent) else Ok(None)
    case Some(Some(parent)) =>
      if parentManifest.None? then Err(ParentRequired) else
      var manifest := parentManifest.value;
      if manifest !in store then Err(NoManifest)
      else if store[manifest].Raw? then Err(BadManifest)
      else
        var doc := store[manifest].doc;
        if Get(doc, "diagnostic_only") == Bool(true) then Err(DiagnosticOnly)
        else if Get(doc, "accepted") != Bool(true) then Err(ParentNotAccepted)
        else if Get(doc, "stage") != Text(parent) then Err(WrongStage)
        else
          match Checkpoint(doc, manifest)
          case None => Err(NoFinalCheckpoint)
          case Some(p) =>
            if p !in store then Err(MissingCheckpoint)
            else if Get(doc, "final_checkpoint_sha256") != Text(hash(store[p])) then Err(ShaMismatch)
            else Ok(Some(ParentLineage(parent, manifest, hash(store[manifest]), p, hash(store[p]))))
  }

  /** The run manifest records the stage and its parent's identity; `rest` holds the other fields. */
  function RecordParent(rest: Document, stage: string, parent: Option<ParentLineage>): (doc: Document)
    ensures Get(doc, "stage") == Text(stage)
    ensures forall f :: f !in PARENT_FIELDS && f != "stage" ==> Get(doc, f) == Get(rest, f)
    ensures parent.None? ==> forall f :: f in PARENT_FIELDS ==> Get(doc, f) == Null
    ensures parent.Some? ==>
            Get(doc, "parent_stage") == Text(parent.value.stage) &&
            Get(doc, "parent_manifest") == Text(parent.value.manifest) &&
            Get(doc, "parent_manifest_sha256") == Text(parent.value.manifestSha) &&
            Get(doc, "parent_checkpoint") == Text(parent.value.checkpoint) &&
            Get(doc, "parent_checkpoint_sha256") == Text(parent.value.checkpointSha)
  {
    var p := parent;
    rest[
      "stage" := Text(stage)][
      "parent_stage" := if p.None? then Null else Text(p.value.stage)][
      "parent_manifest" := if p.None? then Null else Text(p.value.manifest)][
      "parent_manifest_sha256" := if p.None? then Null else Text(p.value.manifestSha)][
      "parent_checkpoint" := if p.None? then Null else Text(p.value.checkpoint)][
      "parent_checkpoint_sha256" := if p.None? then Null else Text(p.value.checkpointSha)]
  }

  /** The parent manifest the driver hands to the trainer of stage k. */
  function ParentManifest(x: Experiment, k: StageIndex): Option<Path> {
    if k == 0 then None else Some(ManifestPath(x, k - 1))
  }

  ghost predicate Diagnostic(x: Experiment, store: Store, k: StageIndex) {
    Get(DocAt(x, store, k), "diagnostic_only") == Bool(true)
  }

  /** Main result: behind a chain the curriculum accepts, the trainer accepts the parent of stage k
      exactly when that parent is not marked diagnostic, and reads off its true identity. */
  lemma {:induction false} TrainerAcceptsParent(x: Experiment, store: Store, k: StageIndex)
    requires ValidThrough(x, store, k - 1)
    ensures var r := ValidateParent(x.hash, store, STAGE_ORDER[k], ParentManifest(x, k));
            (r.Ok? <==> k == 0 || !Diagnostic(x, store, k - 1)) &&
            (r.Err? ==> r.error == DiagnosticOnly) &&
            (r.Ok? && k == 0 ==> r.value.None?) &&
            (r.Ok? && k > 0 ==>
              r.value == Some(ParentLineage(
                STAGE_ORDER[k - 1], ManifestPath(x, k - 1), x.hash(store[ManifestPath(x, k - 1)]),
                FinalCheckpoint(x, store, k - 1).value, x.hash(store[FinalCheckpoint(x, store, k - 1).value]))))
  {
    StageOrderFacts(k, k);
    hide *;
    if k > 0 {
      PrefixValid(x, store, k - 1, k - 1);
      StageFacts(x, store, k - 1);
      ParentIsRead(x, store, k);
    } else {
      RootHasNone(x, store);
    }
  }

  lemma {:induction false} RootHasNone(x: Experiment, store: Store)
    requires StageParent(STAGE_ORDER[0]) == Some(None)
    ensures ValidateParent(x.hash, store, STAGE_ORDER[0], ParentManifest(x, 0)) == Ok(None)
  {
  }

  /** The trainer reads the parent's own record: only the diagnostic mark can still turn it down. */
  lemma {:induction false} ParentIsRead(x: Experiment, store: Store, k: StageIndex)
    requires k > 0 && StageParent(STAGE_ORDER[k]) == Some(Some(STAGE_ORDER[k - 1]))
    requires ManifestPath(x, k - 1) in store && store[ManifestPath(x, k - 1)] == Json(DocAt(x, store, k - 1))
    requires Get(DocAt(x, store, k - 1), "accepted") == Bool(true) &&
             Get(DocAt(x, store, k - 1), "stage") == Text(STAGE_ORDER[k - 1])
    requires FinalCheckpoint(x, store, k - 1).Some? && FinalCheckpoint(x, store, k - 1).value in store
    requires Get(DocAt(x, store, k - 1), "final_checkpoint_sha256") ==
             Text(x.hash(store[FinalCheckpoint(x, store, k - 1).value]))
    ensures ValidateParent(x.hash, store, STAGE_ORDER[k], ParentManifest(x, k)) ==
            if Diagnostic(x, store, k - 1) then Err(DiagnosticOnly)
            else Ok(Some(ParentLineage(
              STAGE_ORDER[k - 1], ManifestPath(x, k - 1), x.hash(store[ManifestPath(x, k - 1)]),
              FinalCheckpoint(x, store, k - 1).value, x.hash(store[FinalCheckpoint(x, store, k - 1).value]))))
  {
    hide STAGE_ORDER, StageParent, DocAt, ManifestPath;
  }

  /** The manifest of stage k was accepted and names a checkpoint whose hash it carries. */
  ghost predicate AcceptedFinal(x: Experiment, store: Store, k: StageIndex) {
    && Get(DocAt(x, store, k), "accepted") == Bool(true)
    && FinalCheckpoint(x, store, k).Some? && FinalCheckpoint(x, store, k).value in store
    && Get(DocAt(x, store, k), "final_checkpoint_sha256") == Text(x.hash(store[FinalCheckpoint(x, store, k).value]))
  }

  /** A manifest with the lineage of an absolute, valid parent passes the curriculum's parent checks. */
  lemma {:induction false} RecordedLineagePasses(x: Experiment, store: Store, k: StageIndex, rest: Document)
    requires Absolute(x.root) && k > 0 && CheckStage(x, store, k - 1).Ok?
    ensures var p := ParentLineage(
              STAGE_ORDER[k - 1], ManifestPath(x, k - 1), x.hash(store[ManifestPath(x, k - 1)]),
              FinalCheckpoint(x, store, k - 1).value, x.hash(store[FinalCheckpoint(x, store, k - 1).value]));
            CheckChild(x, store, k, RecordParent(rest, STAGE_ORDER[k], Some(p)),
                       ManifestPath(x, k - 1), DocAt(x, store, k - 1)).Ok?
  {
    hide CheckStage, CheckChild, DocAt, RecordParent, STAGE_ORDER, StageParent;
    StageOrderFacts(k, k);
    StageFacts(x, store, k - 1);
    AbsolutePaths(x, store, k - 1);
    var prev, c := ManifestPath(x, k - 1), FinalCheckpoint(x, store, k - 1).value;
    assert Checkpoint(DocAt(x, store, k - 1), prev) == Some(c);
    hide *;
    ChildPasses(x, store, k,
                RecordParent(rest, STAGE_ORDER[k],
                             Some(ParentLineage(STAGE_ORDER[k - 1], prev, x.hash(store[prev]), c, x.hash(store[c])))),
                prev, DocAt(x, store, k - 1), c);
  }

  /** The parent checks, each with what it compares. */
  lemma {:induction false} ChildPasses(x: Experiment, store: Store, k: StageIndex, doc: Document, prev: Path,
                                       prevDoc: Document, c: Path)
    requires k > 0 && StageParent(STAGE_ORDER[k]) == Some(Some(STAGE_ORDER[k - 1])) &&
             Get(prevDoc, "stage") == Text(STAGE_ORDER[k - 1])
    requires Absolute(prev) && prev in store && Absolute(c) && c in store && Checkpoint(prevDoc, prev) == Some(c)
    requires Get(doc, "parent_stage") == Text(STAGE_ORDER[k - 1]) && Get(doc, "parent_manifest") == Text(prev)
    requires Get(doc, "parent_manifest_sha256") == Text(x.hash(store[prev])) && Get(doc, "parent_checkpoint") == Text(c)
    requires Get(doc, "parent_checkpoint_sha256") == Text(x.hash(store[c]))
    ensures CheckChild(x, store, k, doc, prev, prevDoc).Ok?
  {
    hide Get, StageParent, STAGE_ORDER, Checkpoint, ManifestPath;
  }

  /** Main result: producer and consumer agree. A manifest that records what `ValidateParent` returned, once accepted
      with a matching final checkpoint, passes the curriculum's validation through its stage while the parents stay
      unchanged. */
  lemma {:induction false} RecordedParentValidates(x: Experiment, before: Store, after: Store, k: StageIndex,
                                                   rest: Document)
    requires Absolute(x.root) && ValidThrough(x, before, k - 1) && ParentsUnchanged(x, before, after, k)
    requires ValidateParent(x.hash, before, STAGE_ORDER[k], ParentManifest(x, k)).Ok?
    requires ManifestPath(x, k) in after
    requires after[ManifestPath(x, k)] ==
             Json(RecordParent(rest, STAGE_ORDER[k],
                               ValidateParent(x.hash, before, STAGE_ORDER[k], ParentManifest(x, k)).value))
    requires AcceptedFinal(x, after, k)
    ensures ValidThrough(x, after, k)
  {
    TrainerAcceptsParent(x, before, k);
    ThroughUnchanged(x, before, after, k, k - 1);
    RecordRead(x, after, k);
    if k > 0 {
      assert SameFiles(x, before, after, k - 1);
    }
    assert ValidThrough(x, after, k - 1);
    hide *;
    SelfPasses(x, after, k);
    if k > 0 {
      PrefixValid(x, before, k - 1, k - 1);
      PrefixValid(x, after, k - 1, k - 1);
      RecordedChildPasses(x, before, after, k, rest);
    } else {
      RootPasses(rest);
    }
    StagePasses(x, after, k);
  }

  /** A manifest that recorded the parent as it was passes against the parent as it is, both being the same. */
  lemma {:induction false} RecordedChildPasses(x: Experiment, before: Store, after: Store, k: StageIndex,
                                               rest: Document)
    requires Absolute(x.root) && k > 0 && SameFiles(x, before, after, k - 1)
    requires CheckStage(x, before, k - 1).Ok? && CheckStage(x, after, k - 1).Ok?
    ensures var p := ParentLineage(
              STAGE_ORDER[k - 1], ManifestPath(x, k - 1), x.hash(before[ManifestPath(x, k - 1)]),
              FinalCheckpoint(x, before, k - 1).value, x.hash(before[FinalCheckpoint(x, before, k - 1).value]));
            CheckChild(x, after, k, RecordParent(rest, STAGE_ORDER[k], Some(p)), ManifestPath(x, k - 1),
                       DocAt(x, after, k - 1)).Ok?
  {
    hide CheckChild, CheckStage, RecordParent, DocAt, ManifestPath, STAGE_ORDER, FinalCheckpoint;
    StageFacts(x, before, k - 1);
    SelfUnchanged(x, before, after, k - 1);
    RecordedLineagePasses(x, after, k, rest);
  }

  lemma {:induction false} RootPasses(rest: Document)
    ensures CheckRoot(RecordParent(rest, STAGE_ORDER[0], None), 0).Ok?
  {
    StageOrderFacts(0, 0);
    hide RecordParent;
  }

  lemma {:induction false} StagePasses(x: Experiment, store: Store, k: StageIndex)
    requires ValidThrough(x, store, k - 1) && CheckSelf(x, store, k) == Ok(DocAt(x, store, k))
    requires if k == 0 then CheckRoot(DocAt(x, store, k), k).Ok?
             else CheckChild(x, store, k, DocAt(x, store, k), ManifestPath(x, k - 1), DocAt(x, store, k - 1)).Ok?
    ensures ValidThrough(x, store, k)
  {
    hide CheckSelf, CheckChild, CheckRoot, DocAt, ManifestPath;
  }

  lemma RecordRead(x: Experiment, store: Store, k: StageIndex)
    requires ManifestPath(x, k) in store && store[ManifestPath(x, k)].Json?
    ensures DocAt(x, store, k) == store[ManifestPath(x, k)].doc
  {
  }

  lemma SelfPasses(x: Experiment, store: Store, k: StageIndex)
    requires ManifestPath(x, k) in store && store[ManifestPath(x, k)].Json? && AcceptedFinal(x, store, k)
    requires Get(DocAt(x, store, k), "stage") == Text(STAGE_ORDER[k])
    ensures CheckSelf(x, store, k) == Ok(DocAt(x, store, k))
  {
  }
}
