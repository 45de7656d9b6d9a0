/** What the manifests of an accepted chain must say, field by field, and what each refusal means. */
module LineageRecords {
  import opened Common
  import opened FileStores
  import opened Lineage
  import opened ParentRecords

  const CURRICULUM: seq<string> := ["L0-C0", "L1-C1", "L1-C2", "L1-C3", "L1-C4", "L2-D1", "L2-D2", "L2-D3"]

  ghost function StageDir(x: Experiment, k: StageIndex): Path {
    x.root + "/" + CURRICULUM[k]
  }

  ghost function StageManifest(x: Experiment, k: StageIndex): Path {
    StageDir(x, k) + "/run_manifest.json"
  }

  ghost function Field(doc: Document, name: string): Value {
    if name in doc then doc[name] else Null
  }

  /** A recorded path, read from the directory of its manifest. */
  ghost predicate Names(raw: Value, dir: Path, p: Path) {
    raw.Text? && |raw.s| > 0 && p == if raw.s[0] == '/' then raw.s else dir + "/" + raw.s
  }

  /** The file at p has the recorded digest. */
  ghost predicate Matches(x: Experiment, s: Store, digest: Value, p: Path) {
    p in s && digest == Text(x.hash(s[p]))
  }

  ghost predicate IsDocument(s: Store, p: Path, doc: Document) {
    p in s && s[p] == Json(doc)
  }

  /** The document of a stage says that it was accepted, with a checkpoint that is there and unchanged. */
  ghost predicate SaysAccepted(x: Experiment, s: Store, k: StageIndex, doc: Document) {
    && Field(doc, "stage") == Text(CURRICULUM[k]) && Field(doc, "accepted") == Bool(true)
    && exists c :: Names(Field(doc, "final_checkpoint"), StageDir(x, k), c) &&
                   Matches(x, s, Field(doc, "final_checkpoint_sha256"), c)
  }

  ghost predicate SaysRoot(doc: Document) {
    && Field(doc, "parent_stage") == Null && Field(doc, "parent_manifest") == Null
    && Field(doc, "parent_manifest_sha256") == Null && Field(doc, "parent_checkpoint") == Null
    && Field(doc, "parent_checkpoint_sha256") == Null
  }

  /** The document names the manifest and the checkpoint of the stage before, both with their digests. */
  ghost predicate SaysChild(x: Experiment, s: Store, k: StageIndex, doc: Document)
    requires k > 0
  {
    var m := StageManifest(x, k - 1);
    && Field(doc, "parent_stage") == Text(CURRICULUM[k - 1])
    && Names(Field(doc, "parent_manifest"), StageDir(x, k), m)
    && Matches(x, s, Field(doc, "parent_manifest_sha256"), m)
    && exists before, c ::
         IsDocument(s, m, before) && Names(Field(before, "final_checkpoint"), StageDir(x, k - 1), c) &&
         Matches(x, s, Field(doc, "parent_checkpoint_sha256"), c) &&
         Names(Field(doc, "parent_checkpoint"), StageDir(x, k), c)
  }

  /** A stage whose records are in order. */
  ghost predicate InOrder(x: Experiment, s: Store, k: StageIndex) {
    exists doc :: IsDocument(s, StageManifest(x, k), doc) && SaysAccepted(x, s, k, doc) &&
                  if k == 0 then SaysRoot(doc) else SaysChild(x, s, k, doc)
  }

  lemma {:induction false} PlacesAgree(x: Experiment, k: StageIndex)
    ensures STAGE_ORDER[k] == CURRICULUM[k] && RunDir(x, k) == StageDir(x, k) &&
            ManifestPath(x, k) == StageManifest(x, k)
    ensures Dirname(StageManifest(x, k)) == StageDir(x, k)
  {
    DirnameJoin(StageDir(x, k), "run_manifest.json");
  }

  lemma {:induction false} PathRead(x: Experiment, k: StageIndex, raw: Value, p: Path)
    ensures DocumentPath(raw, StageManifest(x, k)) == Some(p) <==> Names(raw, StageDir(x, k), p)
  {
    PlacesAgree(x, k);
    hide StageManifest, Dirname, StageDir;
  }

  lemma {:induction false} SelfExactlyWhen(x: Experiment, s: Store, k: StageIndex, doc: Document)
    ensures CheckSelf(x, s, k) == Ok(doc) <==> IsDocument(s, StageManifest(x, k), doc) && SaysAccepted(x, s, k, doc)
  {
    PlacesAgree(x, k);
    hide STAGE_ORDER, ManifestPath, StageManifest, RunDir, StageDir, DocumentPath, CURRICULUM, Names;
    var raw := Field(doc, "final_checkpoint");
    forall p ensures DocumentPath(raw, StageManifest(x, k)) == Some(p) <==> Names(raw, StageDir(x, k), p) {
      PathRead(x, k, raw, p);
    }
  }

  lemma {:induction false} RootExactlyWhen(doc: Document)
    ensures CheckRoot(doc, 0).Ok? <==> SaysRoot(doc)
  {
    StageOrderFacts(0, 0);
    var fs := PARENT_FIELDS;
    assert fs[0] in fs && fs[1] in fs && fs[2] in fs && fs[3] in fs && fs[4] in fs;
    assert fs[0] == "parent_stage" && fs[1] == "parent_manifest" && fs[2] == "parent_manifest_sha256" &&
      fs[3] == "parent_checkpoint" && fs[4] == "parent_checkpoint_sha256";
    assert forall f :: f in fs ==> f in {fs[0], fs[1], fs[2], fs[3], fs[4]};
  }

  lemma {:induction false} ChildChecks(x: Experiment, s: Store, k: StageIndex, doc: Document, m: Path, before: Document)
    requires k > 0 && Get(before, "stage") == Text(STAGE_ORDER[k - 1]) && m in s
    ensures CheckChild(x, s, k, doc, m, before).Ok? <==>
            Get(doc, "parent_stage") == Text(STAGE_ORDER[k - 1]) &&
            DocumentPath(Get(doc, "parent_manifest"), ManifestPath(x, k)) == Some(m) &&
            Get(doc, "parent_manifest_sha256") == Text(x.hash(s[m])) && Checkpoint(before, m).Some? &&
            Checkpoint(before, m).value in s &&
            Get(doc, "parent_checkpoint_sha256") == Text(x.hash(s[Checkpoint(before, m).value])) &&
            DocumentPath(Get(doc, "parent_checkpoint"), ManifestPath(x, k)) == Checkpoint(before, m)
  {
    StageOrderFacts(k, k);
    hide STAGE_ORDER, StageParent, ManifestPath, DocumentPath, Get;
  }

  lemma {:induction false} ChildExactlyWhen(x: Experiment, s: Store, k: StageIndex, doc: Document)
    requires k > 0 && CheckSelf(x, s, k - 1).Ok?
    ensures CheckChild(x, s, k, doc, ManifestPath(x, k - 1), DocAt(x, s, k - 1)).Ok? <==> SaysChild(x, s, k, doc)
  {
    var m, before := StageManifest(x, k - 1), DocAt(x, s, k - 1);
    PlacesAgree(x, k);
    PlacesAgree(x, k - 1);
    CheckSelfReads(x, s, k - 1);
    SelfExactlyWhen(x, s, k - 1, before);
    assert IsDocument(s, m, before) && Get(before, "stage") == Text(STAGE_ORDER[k - 1]);
    assert Checkpoint(before, m) == DocumentPath(Get(before, "final_checkpoint"), m);
    hide STAGE_ORDER, CURRICULUM, ManifestPath, StageManifest, RunDir, StageDir, DocumentPath, Checkpoint, Names, DocAt,
         CheckSelf, CheckChild, SaysAccepted;
    ChildChecks(x, s, k, doc, m, before);
    PathRead(x, k, Get(doc, "parent_manifest"), m);
    forall c ensures ReadsBoth(x, k, doc, before, m, c) {
      PathRead(x, k - 1, Get(before, "final_checkpoint"), c);
      PathRead(x, k, Get(doc, "parent_checkpoint"), c);
    }
    ChildSays(x, s, k, doc, m, before);
  }

  /** How the two records of the earlier checkpoint are read. */
  ghost predicate ReadsBoth(x: Experiment, k: StageIndex, doc: Document, before: Document, m: Path, c: Path)
    requires k > 0
  {
    (Checkpoint(before, m) == Some(c) <==> Names(Field(before, "final_checkpoint"), StageDir(x, k - 1), c)) &&
    (DocumentPath(Get(doc, "parent_checkpoint"), ManifestPath(x, k)) == Some(c) <==>
     Names(Field(doc, "parent_checkpoint"), StageDir(x, k), c))
  }

  lemma {:induction false} ChildSays(x: Experiment, s: Store, k: StageIndex, doc: Document, m: Path, before: Document)
    requires k > 0 && m == StageManifest(x, k - 1) && IsDocument(s, m, before)
    requires forall c :: ReadsBoth(x, k, doc, before, m, c)
    ensures SaysChild(x, s, k, doc) <==>
            Field(doc, "parent_stage") == Text(CURRICULUM[k - 1]) &&
            Names(Field(doc, "parent_manifest"), StageDir(x, k), m) &&
            Field(doc, "parent_manifest_sha256") == Text(x.hash(s[m])) && Checkpoint(before, m).Some? &&
            Checkpoint(before, m).value in s &&
            Field(doc, "parent_checkpoint_sha256") == Text(x.hash(s[Checkpoint(before, m).value])) &&
            DocumentPath(Get(doc, "parent_checkpoint"), ManifestPath(x, k)) == Checkpoint(before, m)
  {
    hide CURRICULUM, StageManifest, StageDir, ManifestPath, DocumentPath, Checkpoint, Names, Field, Get, ReadsBoth;
    if Checkpoint(before, m).Some? {
      var c := Checkpoint(before, m).value;
      BothMean(x, k, doc, before, m, c);
    }
    forall b, c | IsDocument(s, m, b) && Names(Field(b, "final_checkpoint"), StageDir(x, k - 1), c)
      ensures b == before && Checkpoint(before, m) == Some(c)
      ensures DocumentPath(Get(doc, "parent_checkpoint"), ManifestPath(x, k)) == Some(c) <==>
              Names(Field(doc, "parent_checkpoint"), StageDir(x, k), c)
    {
      BothMean(x, k, doc, before, m, c);
    }
  }

  lemma {:induction false} BothMean(x: Experiment, k: StageIndex, doc: Document, before: Document, m: Path, c: Path)
    requires k > 0 && forall p :: ReadsBoth(x, k, doc, before, m, p)
    ensures Checkpoint(before, m) == Some(c) <==> Names(Field(before, "final_checkpoint"), StageDir(x, k - 1), c)
    ensures DocumentPath(Get(doc, "parent_checkpoint"), ManifestPath(x, k)) == Some(c) <==>
            Names(Field(doc, "parent_checkpoint"), StageDir(x, k), c)
  {
    hide Checkpoint, Names, Field, StageDir, DocumentPath, Get, ManifestPath;
    assert ReadsBoth(x, k, doc, before, m, c);
  }

  lemma {:induction false} StageExactlyWhen(x: Experiment, s: Store, k: StageIndex)
    requires k > 0 ==> CheckSelf(x, s, k - 1).Ok?
    ensures CheckStage(x, s, k).Ok? <==> InOrder(x, s, k)
  {
    forall doc
      ensures CheckSelf(x, s, k) == Ok(doc) <==> IsDocument(s, StageManifest(x, k), doc) && SaysAccepted(x, s, k, doc)
    {
      SelfExactlyWhen(x, s, k, doc);
    }
    hide CheckSelf, IsDocument, SaysAccepted, SaysRoot, SaysChild, CheckRoot, CheckChild;
    if CheckSelf(x, s, k).Ok? {
      var doc := CheckSelf(x, s, k).value;
      if k == 0 {
        RootExactlyWhen(doc);
      } else {
        ChildExactlyWhen(x, s, k, doc);
      }
    }
  }

  /** Main result: a chain validates through a stage exactly when the records of that stage and of all before are in
      order. */
  lemma {:induction false} ValidExactlyWhen(x: Experiment, s: Store, k: int)
    requires k < 8
    ensures ValidThrough(x, s, k) <==> forall i: StageIndex :: i <= k ==> InOrder(x, s, i)
    decreases k
  {
    hide CheckStage, InOrder;
    if k >= 0 {
      ValidExactlyWhen(x, s, k - 1);
      if ValidThrough(x, s, k - 1) {
        if k > 0 {
          PrefixValid(x, s, k - 1, k - 1);
          SelfPassed(x, s, k - 1);
        }
        StageExactlyWhen(x, s, k);
      }
    }
  }

  lemma {:induction false} SelfPassed(x: Experiment, s: Store, k: StageIndex)
    requires CheckStage(x, s, k).Ok?
    ensures CheckSelf(x, s, k).Ok?
  {
  }

  // ---- What the refusals mean ----

  /** What is wrong with stage k when validation stops there with an error. */
  ghost predicate Fault(x: Experiment, s: Store, k: StageIndex, e: LineageError) {
    var m := StageManifest(x, k);
    match e
    case MissingManifest => m !in s
    case NotJson => m in s && s[m].Raw?
    case _ => m in s && s[m].Json? && RecordFault(x, s, k, e)
  }

  /** The entry of a readable manifest that is wrong. */
  ghost predicate RecordFault(x: Experiment, s: Store, k: StageIndex, e: LineageError) {
    match e
    case StageMismatch => Says(x, s, k, "stage") != Text(CURRICULUM[k])
    case NotAccepted => Says(x, s, k, "accepted") != Bool(true)
    case BadPath =>
      exists f :: f in {"final_checkpoint", "parent_manifest", "parent_checkpoint"} &&
        (!Says(x, s, k, f).Text? || Says(x, s, k, f).s == "")
    case MissingFile => exists c :: Names(Says(x, s, k, "final_checkpoint"), StageDir(x, k), c) && c !in s
    case FinalShaMismatch => Differs(x, s, k, "final_checkpoint", "final_checkpoint_sha256", k)
    case RootHasParent => k == 0 && exists f :: f in PARENT_FIELDS && Says(x, s, k, f) != Null
    case ParentStageMismatch => k > 0 && Says(x, s, k, "parent_stage") != Text(CURRICULUM[k - 1])
    case ParentManifestPathMismatch =>
      k > 0 && !Names(Says(x, s, k, "parent_manifest"), StageDir(x, k), StageManifest(x, k - 1))
    case ParentManifestShaMismatch =>
      k > 0 && !Matches(x, s, Says(x, s, k, "parent_manifest_sha256"), StageManifest(x, k - 1))
    case ParentCheckpointShaMismatch => k > 0 && Differs(x, s, k - 1, "final_checkpoint", "parent_checkpoint_sha256", k)
    case ParentCheckpointPathMismatch =>
      k > 0 && exists c :: Names(Says(x, s, k - 1, "final_checkpoint"), StageDir(x, k - 1), c) &&
                           !Names(Says(x, s, k, "parent_checkpoint"), StageDir(x, k), c)
    case _ => false
  }

  ghost function Says(x: Experiment, s: Store, k: StageIndex, f: string): Value {
    var m := StageManifest(x, k);
    if m in s && s[m].Json? then Field(s[m].doc, f) else Null
  }

  /** The file that stage i names in a field has another digest than the one stage k records. */
  ghost predicate Differs(x: Experiment, s: Store, i: StageIndex, field: string, digest: string, k: StageIndex) {
    exists c :: Names(Says(x, s, i, field), StageDir(x, i), c) && c in s && Says(x, s, k, digest) != Text(x.hash(s[c]))
  }

  lemma {:induction false} SaysWhatIsRead(x: Experiment, s: Store, k: StageIndex, f: string)
    ensures Says(x, s, k, f) == Get(DocAt(x, s, k), f)
  {
    PlacesAgree(x, k);
    hide ManifestPath, StageManifest;
  }

  lemma {:induction false} SelfFault(x: Experiment, s: Store, k: StageIndex)
    requires CheckSelf(x, s, k).Err?
    ensures Fault(x, s, k, CheckSelf(x, s, k).error)
  {
    PlacesAgree(x, k);
    var raw := Says(x, s, k, "final_checkpoint");
    var r := DocumentPath(raw, StageManifest(x, k));
    if r.Some? {
      PathRead(x, k, raw, r.value);
    }
    SaysWhatIsRead(x, s, k, "final_checkpoint");
    hide STAGE_ORDER, CURRICULUM, ManifestPath, StageManifest, RunDir, StageDir, Names, PARENT_FIELDS;
  }

  lemma {:induction false} RootFault(x: Experiment, s: Store)
    requires CheckSelf(x, s, 0).Ok? && CheckRoot(CheckSelf(x, s, 0).value, 0).Err?
    ensures Fault(x, s, 0, CheckRoot(CheckSelf(x, s, 0).value, 0).error)
  {
    var doc := CheckSelf(x, s, 0).value;
    CheckSelfReads(x, s, 0);
    StageOrderFacts(0, 0);
    hide CheckSelf, PARENT_FIELDS, StageParent, STAGE_ORDER;
    var f :| f in PARENT_FIELDS && Get(doc, f) != Null;
    SaysWhatIsRead(x, s, 0, f);
  }

  lemma {:induction false} ChildFault(x: Experiment, s: Store, k: StageIndex)
    requires k > 0 && CheckSelf(x, s, k).Ok? && CheckSelf(x, s, k - 1).Ok?
    requires CheckChild(x, s, k, CheckSelf(x, s, k).value, ManifestPath(x, k - 1), DocAt(x, s, k - 1)).Err?
    ensures Fault(x, s, k,
                  CheckChild(x, s, k, CheckSelf(x, s, k).value, ManifestPath(x, k - 1), DocAt(x, s, k - 1)).error)
  {
    var m, before, doc := StageManifest(x, k - 1), DocAt(x, s, k - 1), CheckSelf(x, s, k).value;
    PlacesAgree(x, k);
    PlacesAgree(x, k - 1);
    StageOrderFacts(k, k);
    CheckSelfReads(x, s, k);
    CheckSelfReads(x, s, k - 1);
    SelfExactlyWhen(x, s, k - 1, before);
    assert IsDocument(s, m, before) && Get(before, "stage") == Text(STAGE_ORDER[k - 1]);
    CheckpointThere(x, s, k - 1, before);
    var c := DocumentPath(Get(before, "final_checkpoint"), m).value;
    assert Checkpoint(before, m) == Some(c);
    SelfExactlyWhen(x, s, k, doc);
    assert IsDocument(s, StageManifest(x, k), doc);
    assert StageManifest(x, k) in s && s[StageManifest(x, k)].Json?;
    hide *;
    FaultOfRecord(x, s, k, CheckChild(x, s, k, doc, m, before).error);
    ChildError(x, s, k, doc, m, before, c);
    ReadsAgree(x, s, k, doc, m, before, c);
    ChildFaultCases(x, s, k, doc, m, before, c, CheckChild(x, s, k, doc, m, before).error);
  }

  lemma {:induction false} FaultOfRecord(x: Experiment, s: Store, k: StageIndex, e: LineageError)
    requires StageManifest(x, k) in s && s[StageManifest(x, k)].Json?
    ensures RecordFault(x, s, k, e) ==> Fault(x, s, k, e)
  {
    hide Says, Names, Differs, CURRICULUM, StageManifest;
  }

  /** The fields of both documents and how their paths are read. */
  ghost predicate Readings(x: Experiment, s: Store, k: StageIndex, doc: Document, m: Path, before: Document, c: Path)
    requires k > 0
  {
    && (forall f :: Says(x, s, k, f) == Get(doc, f)) && (forall f :: Says(x, s, k - 1, f) == Get(before, f))
    && Names(Get(before, "final_checkpoint"), StageDir(x, k - 1), c)
    && (DocumentPath(Get(doc, "parent_checkpoint"), ManifestPath(x, k)) == Some(c) <==>
        Names(Get(doc, "parent_checkpoint"), StageDir(x, k), c))
    && (DocumentPath(Get(doc, "parent_manifest"), ManifestPath(x, k)) == Some(m) <==>
        Names(Get(doc, "parent_manifest"), StageDir(x, k), m))
  }

  lemma {:induction false} ReadsAgree(x: Experiment, s: Store, k: StageIndex, doc: Document, m: Path, before: Document,
                                      c: Path)
    requires k > 0 && DocAt(x, s, k) == doc && DocAt(x, s, k - 1) == before && m == StageManifest(x, k - 1)
    requires DocumentPath(Get(before, "final_checkpoint"), m) == Some(c)
    ensures Readings(x, s, k, doc, m, before, c)
  {
    PlacesAgree(x, k);
    hide DocAt, StageManifest, ManifestPath, DocumentPath, Names, StageDir, Get, Says;
    forall f ensures Says(x, s, k, f) == Get(doc, f) && Says(x, s, k - 1, f) == Get(before, f) {
      SaysWhatIsRead(x, s, k, f);
      SaysWhatIsRead(x, s, k - 1, f);
    }
    PathRead(x, k - 1, Get(before, "final_checkpoint"), c);
    PathRead(x, k, Get(doc, "parent_checkpoint"), c);
    PathRead(x, k, Get(doc, "parent_manifest"), m);
  }

  lemma {:induction false} ChildFaultCases(x: Experiment, s: Store, k: StageIndex, doc: Document, m: Path,
                                           before: Document, c: Path, e: LineageError)
    requires k > 0 && Readings(x, s, k, doc, m, before, c) && m == StageManifest(x, k - 1) && m in s && c in s
    requires FailsBy(x, s, k, doc, m, c, e)
    ensures RecordFault(x, s, k, e)
  {
    PlacesAgree(x, k - 1);
    assert DocumentPath(Get(doc, "parent_manifest"), ManifestPath(x, k)).None? ==>
        !Get(doc, "parent_manifest").Text? || Get(doc, "parent_manifest").s == "";
    assert DocumentPath(Get(doc, "parent_checkpoint"), ManifestPath(x, k)).None? ==>
        !Get(doc, "parent_checkpoint").Text? || Get(doc, "parent_checkpoint").s == "";
    hide STAGE_ORDER, CURRICULUM, StageManifest, StageDir, ManifestPath, DocumentPath, Names, Says, Get, PARENT_FIELDS;
  }

  lemma {:induction false} CheckpointThere(x: Experiment, s: Store, k: StageIndex, doc: Document)
    requires CheckSelf(x, s, k) == Ok(doc)
    ensures var c := DocumentPath(Get(doc, "final_checkpoint"), StageManifest(x, k)); c.Some? && c.value in s
  {
    PlacesAgree(x, k);
    hide STAGE_ORDER, ManifestPath, StageManifest, DocumentPath;
  }

  /** The check of a child that an error stands for, m and c being the manifest and the checkpoint before it. */
  ghost predicate FailsBy(x: Experiment, s: Store, k: StageIndex, doc: Document, m: Path, c: Path, e: LineageError)
    requires k > 0 && m in s && c in s
  {
    match e
    case ParentStageMismatch => Get(doc, "parent_stage") != Text(STAGE_ORDER[k - 1])
    case BadPath =>
      DocumentPath(Get(doc, "parent_manifest"), ManifestPath(x, k)).None? ||
      DocumentPath(Get(doc, "parent_checkpoint"), ManifestPath(x, k)).None?
    case ParentManifestPathMismatch => DocumentPath(Get(doc, "parent_manifest"), ManifestPath(x, k)) != Some(m)
    case ParentManifestShaMismatch => Get(doc, "parent_manifest_sha256") != Text(x.hash(s[m]))
    case ParentCheckpointShaMismatch => Get(doc, "parent_checkpoint_sha256") != Text(x.hash(s[c]))
    case ParentCheckpointPathMismatch => DocumentPath(Get(doc, "parent_checkpoint"), ManifestPath(x, k)) != Some(c)
    case _ => false
  }

  lemma {:induction false} ChildError(x: Experiment, s: Store, k: StageIndex, doc: Document, m: Path, before: Document,
                                      c: Path)
    requires k > 0 && Get(before, "stage") == Text(STAGE_ORDER[k - 1]) && m in s && Checkpoint(before, m) == Some(c) &&
             c in s
    requires CheckChild(x, s, k, doc, m, before).Err?
    ensures FailsBy(x, s, k, doc, m, c, CheckChild(x, s, k, doc, m, before).error)
  {
    StageOrderFacts(k, k);
    hide STAGE_ORDER, StageParent, ManifestPath, DocumentPath, Get;
  }

  /** Main result: a refused chain is in order up to a stage that has the reported fault. */
  lemma {:induction false} RefusalMeans(x: Experiment, s: Store, k: int)
    requires k < 8 && CheckThrough(x, s, k).Err?
    ensures exists i: StageIndex :: i <= k && Fault(x, s, i, CheckThrough(x, s, k).error) &&
                                    forall j: StageIndex :: j < i ==> InOrder(x, s, j)
    decreases k
  {
    if CheckThrough(x, s, k - 1).Err? {
      RefusalMeans(x, s, k - 1);
    } else {
      ValidExactlyWhen(x, s, k - 1);
      if k > 0 {
        PrefixValid(x, s, k - 1, k - 1);
        SelfPassed(x, s, k - 1);
      }
      StageFault(x, s, k);
      hide CheckStage, Fault, InOrder;
    }
  }

  lemma {:induction false} StageFault(x: Experiment, s: Store, k: StageIndex)
    requires (k > 0 ==> CheckSelf(x, s, k - 1).Ok?) && CheckStage(x, s, k).Err?
    ensures Fault(x, s, k, CheckStage(x, s, k).error)
  {
    hide Fault, CheckSelf, CheckChild, CheckRoot;
    if CheckSelf(x, s, k).Err? {
      SelfFault(x, s, k);
    } else if k == 0 {
      RootFault(x, s);
    } else {
      ChildFault(x, s, k);
    }
  }

  // ---- What the trainer asks of a parent ----

  /** The manifest and its checkpoint, as they are when the trainer looks at them. */
  ghost predicate Identifies(hash: Hash, s: Store, m: Path, l: ParentLineage) {
    m in s && l.manifest == m && l.manifestSha == hash(s[m]) && l.checkpoint in s &&
    l.checkpointSha == hash(s[l.checkpoint])
  }

  /** The trainer may start a stage from this parent manifest, and gathers l. */
  ghost predicate StartsFrom(hash: Hash, s: Store, k: StageIndex, m: Path, l: ParentLineage) {
    && k > 0 && l.stage == CURRICULUM[k - 1] && Identifies(hash, s, m, l)
    && exists doc :: IsDocument(s, m, doc) && Field(doc, "diagnostic_only") != Bool(true) &&
                     Field(doc, "accepted") == Bool(true) && Field(doc, "stage") == Text(l.stage) &&
                     Names(Field(doc, "final_checkpoint"), Dirname(m), l.checkpoint) &&
                     Field(doc, "final_checkpoint_sha256") == Text(l.checkpointSha)
  }

  lemma {:induction false} PathReadBeside(m: Path, raw: Value, p: Path)
    ensures DocumentPath(raw, m) == Some(p) <==> Names(raw, Dirname(m), p)
  {
    hide Dirname;
  }

  /** Main result: what the trainer accepts, for every stage and every parent manifest, valid chain or not. The first
      stage starts fresh; every other one starts from a manifest of the stage before it that is accepted, no diagnostic
      run, and whose checkpoint is there and unchanged. */
  lemma {:induction false} TrainerAcceptsExactlyWhen(hash: Hash, s: Store, k: StageIndex, parent: Option<Path>,
                                                     l: ParentLineage)
    ensures ValidateParent(hash, s, CURRICULUM[k], parent) == Ok(None) <==> k == 0 && parent.None?
    ensures ValidateParent(hash, s, CURRICULUM[k], parent) == Ok(Some(l)) <==>
            parent.Some? && StartsFrom(hash, s, k, parent.value, l)
  {
    PlacesOfStages(k);
    hide StageParent, STAGE_ORDER, CURRICULUM, Dirname, DocumentPath, Names;
    if k > 0 && parent.Some? && parent.value in s && s[parent.value].Json? {
      var m, doc := parent.value, s[parent.value].doc;
      var raw := Get(doc, "final_checkpoint");
      PathReadBeside(m, raw, l.checkpoint);
      assert IsDocument(s, m, doc) && forall d :: IsDocument(s, m, d) ==> d == doc;
      hide Get, IsDocument;
      assert forall f :: Field(doc, f) == Get(doc, f) by {
        FieldIsGet(doc);
      }
    }
  }

  lemma {:induction false} FieldIsGet(doc: Document)
    ensures forall f :: Field(doc, f) == Get(doc, f)
  {
  }

  /** What is wrong with a parent when the trainer refuses it with an error. */
  ghost predicate ParentFault(hash: Hash, s: Store, k: StageIndex, parent: Option<Path>, e: ParentError) {
    match e
    case RootWithParent => k == 0 && parent.Some?
    case ParentRequired => k > 0 && parent.None?
    case NoManifest => k > 0 && parent.Some? && parent.value !in s
    case BadManifest => k > 0 && parent.Some? && parent.value in s && s[parent.value].Raw?
    case _ =>
      k > 0 && parent.Some? &&
      exists doc :: IsDocument(s, parent.value, doc) && DocumentFault(hash, s, k, parent.value, doc, e)
  }

  ghost predicate DocumentFault(hash: Hash, s: Store, k: StageIndex, m: Path, doc: Document, e: ParentError) {
    match e
    case DiagnosticOnly => Field(doc, "diagnostic_only") == Bool(true)
    case ParentNotAccepted => Field(doc, "accepted") != Bool(true)
    case WrongStage => k > 0 && Field(doc, "stage") != Text(CURRICULUM[k - 1])
    case NoFinalCheckpoint => !Field(doc, "final_checkpoint").Text? || Field(doc, "final_checkpoint").s == ""
    case MissingCheckpoint => exists c :: Names(Field(doc, "final_checkpoint"), Dirname(m), c) && c !in s
    case ShaMismatch =>
      exists c :: Names(Field(doc, "final_checkpoint"), Dirname(m), c) && c in s &&
                  Field(doc, "final_checkpoint_sha256") != Text(hash(s[c]))
    case _ => false
  }

  /** Every refusal of the trainer names a fault the parent has. */
  lemma {:induction false} TrainerRefusalMeans(hash: Hash, s: Store, k: StageIndex, parent: Option<Path>)
    requires ValidateParent(hash, s, CURRICULUM[k], parent).Err?
    ensures ParentFault(hash, s, k, parent, ValidateParent(hash, s, CURRICULUM[k], parent).error)
  {
    PlacesOfStages(k);
    hide StageParent, STAGE_ORDER, CURRICULUM, Dirname, Names;
    if k > 0 && parent.Some? && parent.value in s && s[parent.value].Json? {
      var m, doc := parent.value, s[parent.value].doc;
      var raw := Get(doc, "final_checkpoint");
      var c := DocumentPath(raw, m);
      if c.Some? {
        PathReadBeside(m, raw, c.value);
      }
      assert IsDocument(s, m, doc);
    }
  }

  /** A stage that is none of the curriculum has no parent to accept. */
  lemma {:induction false} UnknownContractMeans(hash: Hash, s: Store, stage: string, parent: Option<Path>)
    ensures stage !in CURRICULUM <==> ValidateParent(hash, s, stage, parent) == Err(UnknownContract)
  {
    if stage in CURRICULUM {
      var k: StageIndex :| CURRICULUM[k] == stage;
      PlacesOfStages(k);
    } else {
      NotAmong(stage);
    }
  }

  lemma {:induction false} NotAmong(stage: string)
    requires stage !in CURRICULUM
    ensures StageParent(stage) == None
  {
    forall k: StageIndex ensures stage != CURRICULUM[k] {
      assert CURRICULUM[k] in CURRICULUM;
    }
    assert stage != CURRICULUM[0] && stage != CURRICULUM[1] && stage != CURRICULUM[2] && stage != CURRICULUM[3];
    assert stage != CURRICULUM[4] && stage != CURRICULUM[5] && stage != CURRICULUM[6] && stage != CURRICULUM[7];
  }

  lemma {:induction false} PlacesOfStages(k: StageIndex)
    ensures StageParent(CURRICULUM[k]) == Some(if k == 0 then None else Some(CURRICULUM[k - 1]))
  {
    StageOrderFacts(k, k);
  }
}
