# Verified model of the semantic course, training protocols and evaluation reports

A Dafny 4.11 model of the project-owned logic of Go2Pvcnn that decides what is placed, trained, promoted, deleted and
reported, with proofs of what that logic is relied on for. `dafny verify dfyconfig.toml` checks all of it.

## What is modelled

* **Obstacle course** (`layout`, `layout_safety`, `packing`, `decimals`, `prim_paths`, `course_anchors`, `stage_bands`,
  `tile_size`, `order_statistics`, `ground_height`, `grounding`, and `layout_geometry`, `course_geometry`,
  `grounded_heights`, which tell the results in plain geometry). Placing obstacles in a tile by hashed rejection
  sampling with a fallback list, naming them, choosing stages by row, inferring the tile size from origins, and standing the
  obstacles on a quantile of the terrain below them, one at a time or with one ray cast for all.
* **Folded-load curriculum** (`file_store`, `lineage`, `parent_lineage`, `lineage_records`, `curriculum`, `curriculum_records`,
  `rollback`, `interruption`, `acceptance`). The chain of manifests that record the hashes of their parents, the trainer that
  writes such a record, and the driver that runs the stages, revalidates the chain and rolls back.
* **Resumable promotion** (`promotion`, `promotion_runs`, `promotion_records`, `promotion_crashes`,
  `candidate_manifests`). A schedule of
  evaluation workers whose outputs persist, with crashes anywhere in between.
* **Audited pruning** (`pruning`, `pruning_safety`). Plan, write-ahead audit, deletion file by file, verification.
* **Evaluation reports** (`tensors`, `crossing_tracks`, `crossing_groups`, `crossing_reports`, `crossing`,
  `crossing_outcomes`, `crossing_told`, `small_collisions`, `crossing_rounds`, `episodes`). Per-environment flags, first events
  and counters over rollouts of any length, and the laws their reports obey.
* **Settling gate** (`settling`). When scoring may start.

Each loop of the program is a method with that loop, and each object with updated fields a class; both are proved against a
specification function or predicate, about which the properties are lemmas. Beside the laws, each operation is told once more
by what its inputs hold, without its own functions.

## How it is modelled

* Floats are reals. A float the program checks for finiteness is `Finite(x)` or `NonFinite`. Distances are compared squared.
* The layout hash is an arbitrary function into the closed unit interval: dividing 64 bits by 2^64 can round up to 1.
* A file hash is an arbitrary function; where a result needs it to be injective, it says so (`Injective`). In pruning it is
  any function of a file's bytes, also one with collisions.
* A store of files is a map from canonical absolute paths to contents; an atomic replacement is one update of the map.
* The stage order is the concrete one of Go2Pvcnn/go2_pvcnn/tasks/m1_panda_folded_load_curriculum.py:69-115. A stage executor
  is any function of request and store; it writes in its own run directory only, and may return or raise. That every
  run ends well and no request is issued before its chain validated is proved for all of them. That the chain still
  validates afterwards asks that a promoted stage names a checkpoint out of the way (`Tidy`): not the state file, and below
  the run directory of no other stage. Its own run directory is such a place, where
  Go2Pvcnn/go2_pvcnn/tasks/m1_panda_folded_load_training_guard.py:327-331 publishes it, and so is any place outside the
  experiment; without that, `RollbackSafeExactlyWhenClear` says exactly what is lost. The interruption results ask it of every
  stage that reports success (`Neat`).
* A stage succeeds in a vacant run directory only, which the trainer demands
  (Go2Pvcnn/scripts/m1_panda_folded_load_train.py:68-73). `Acceptance.Model`, which hashes its parent's checkpoint as the
  trainer does, is such a stage.
* Evaluation workers leave arbitrary outputs at their own path. For crash and resume they are deterministic, and a crashed one
  leaves nothing, a starting, a failed or a complete manifest of its own identity. Calibration, evaluation and selection of
  candidates are arbitrary functions. An output path is identified by seed and pair, or by update count and seed.
* A directory listing comes in any order. A name of digits is one of ASCII digits.
* A step of the crossing evaluation shows each environment's terrain cells, root position, normalised heading, and feet with the
  terrain below them; terminations and contact forces are arbitrary. The minimum over a tensor is taken at its first index.
  What is told in coordinates asks that headings are unit vectors (`UnitFrames`); all other laws hold for any.
* A rollout shows positions, terminations, causes and semantic crossings as arbitrary inputs of every step.

## Where the program falls short of its own names

* An accepted checkpoint recorded in the run directory of a later stage can be destroyed by that stage, and the driver then
  reports a rollback checkpoint that is gone (`MisplacedCheckpointCanBreak`).
* Restarting the driver at the stage that stopped stops there again until the run directory of that stage is vacant
  (`ModelRunIsRecoverable`); `RestartMayStopAgain` has such a run for every stage.
* A short manifest is checked by its set of update counts, so it may list a count twice (`ShortListMayRepeat`). Its run then
  always fails without resume (`LongShortListFails`); `ShortRunCompletesExactlyWhen` tells when it completes.
* The count of resets after the root crossed can exceed the count of the stage of that name (`RootFirstUndercounts`);
  `LastStageCountsExactlyWhen` tells from the traces when it does not.
* With a semantic crossing demanded, the report can count one episode as a crossing and as a time-out
  (`CountsFitExactlyWhen`).

## Model

| member | source | states |
|---|---|---|
| `Layout.HasSpacing` | Go2Pvcnn/extension/semantic_course.py:475-486 | true exactly when the candidate keeps radius + radius + clearance from every placed obstacle |
| `Layout.SelectCandidate` | Go2Pvcnn/extension/semantic_course.py:536-555 | the attempt loop returns the first acceptable candidate, None when the attempts run out, or the size error |
| `LayoutSafety.FirstAcceptedIsFirst` | Go2Pvcnn/extension/semantic_course.py:536-555 | a candidate is taken exactly when it is the earliest one outside the centre box with its spacing; nothing is taken exactly when every attempt is rejected |
| `Layout.PlaceClass` | Go2Pvcnn/extension/semantic_course.py:535-563 | the slot loop of one class places each slot behind everything placed before, sampled or from the fallback list at index (placed + slot) mod length |
| `Layout.StageSlots` | Go2Pvcnn/extension/semantic_course.py:507-564 | the placer as a whole: mandatory point, large slots, small slots, then the sort; the first failure is the result |
| `LayoutSafety.CandidateInBox` | Go2Pvcnn/extension/semantic_course.py:442-465 | for any hash into the closed unit interval a candidate lies in the tile shrunk by margin and radius |
| `LayoutSafety.FallbackSafe` | Go2Pvcnn/extension/semantic_course.py:489-504 | a fallback point is outside the centre box, and in the usable tile exactly when there is one |
| `LayoutSafety.NoFallbackExactlyWhenCovered` | Go2Pvcnn/extension/semantic_course.py:489-504 | the placer has no fallback point exactly when the centre box covers the corners of the usable tile |
| `LayoutSafety.LayoutIsSafe` | Go2Pvcnn/extension/semantic_course.py:507-564 | in every returned layout all slots but the mandatory one keep out of the centre box, and any two slots keep their spacing unless the later-placed one is a fallback |
| `LayoutSafety.LayoutInsideTile` | Go2Pvcnn/extension/semantic_course.py:442-564 | every slot but the mandatory one lies in the usable tile exactly when there is at least one attempt per slot or the class fits the tile |
| `LayoutSafety.OutputShape` | Go2Pvcnn/extension/semantic_course.py:518-564 | the sort is a permutation of what was placed: small slots 0, 1, .., the mandatory one, large slots 0, 1, ..; no two share class and index |
| `LayoutSafety.SortsToCanonical` | Go2Pvcnn/extension/semantic_course.py:564 | the stable sort puts mandatory + large + small into small + mandatory + large |
| `LayoutSafety.LayoutPrefixStable` | Go2Pvcnn/extension/semantic_course.py:519-563 | raising the small count keeps every earlier small slot, every large slot and the mandatory point with their fallback flags |
| `Packing.RectanglePacking` | Go2Pvcnn/extension/semantic_course.py:475-486 | points of a rectangle pairwise d apart are at most as many as grid cells of side s with 2 s^2 <= d^2 |
| `Packing.PackingBound` | Go2Pvcnn/extension/semantic_course.py:442-564 | the slots of one class placed without fallback are at most (floor(W/s)+1)(floor(H/s)+1); a larger count forces a fallback slot of that class |
| `Packing.OverfullLayoutFallsBack` | Go2Pvcnn/extension/semantic_course.py:507-564 | the same for the returned layout, for the small and for the large count |
| `LayoutGeometry.CandidateExactlyWhen` | Go2Pvcnn/extension/semantic_course.py:442-465 | a draw fails exactly when the class has no room in the tile; otherwise x and y are affine, from border to border, in two hashes of their own: those of seed, stage, row, column, slot, class, attempt and axis |
| `LayoutGeometry.DrawsAreIndependent` | Go2Pvcnn/extension/semantic_course.py:437-465 | whatever fractions are wanted for every class, slot, attempt and axis, some hash yields them all at once |
| `LayoutGeometry.SampledExactlyWhen` | Go2Pvcnn/extension/semantic_course.py:536-555 | a slot takes its first draw outside the centre box and clear of all circles placed before; none and the size error are told exactly too |
| `LayoutGeometry.FallbackIsListed` | Go2Pvcnn/extension/semantic_course.py:489-504 | the fallback list is the part outside the centre box of three by three points, in column order, or the error when none is |
| `LayoutGeometry.LayoutIsComposed` | Go2Pvcnn/extension/semantic_course.py:507-564 | a layout is small slots, mandatory one, large slots; each is its first free draw behind everything placed before, or, with none free, the fallback point at the number of slots before it plus its index |
| `LayoutGeometry.LayoutFails` | Go2Pvcnn/extension/semantic_course.py:507-564 | which error means what, for any counts; a class that is needed, has attempts and has no room always fails the layout |
| `PrimPaths.PrimPathInjective` | Go2Pvcnn/extension/semantic_course.py:659 | a scene path determines class, row, column and slot index, for numbers of any length |
| `CourseGeometry.PathOfSlotReads` | Go2Pvcnn/extension/semantic_course.py:625-659 | the scene path in full: class, and row, column and slot index as decimals padded to two digits |
| `Decimals.ReadTwoDigits` | Go2Pvcnn/extension/semantic_course.py:659 | a zero-padded decimal reads back as its number |
| `CourseAnchors.BuildTile` | Go2Pvcnn/extension/semantic_course.py:607-661 | the anchors of a tile: missing origins and layout errors are errors, otherwise one anchor for each slot |
| `CourseAnchors.BuildRow` | Go2Pvcnn/extension/semantic_course.py:593-661 | the column loop over the tiles of a row, in the stage of its band |
| `CourseAnchors.BuildCourseAnchors` | Go2Pvcnn/extension/semantic_course.py:592-663 | the row loop: all anchors in row and column order, or the first error |
| `CourseAnchors.CourseNeverRepeatsPath` | Go2Pvcnn/extension/semantic_course.py:567-663 | no two anchors of a course share a scene path |
| `CourseAnchors.CourseIsWellPlaced` | Go2Pvcnn/extension/semantic_course.py:567-663 | every anchor carries row, column and stage of its own tile and lies there, clear of the centre box and, given attempts, inside the usable tile; only the mandatory point is exempt |
| `CourseGeometry.AnchorDescribes` | Go2Pvcnn/extension/semantic_course.py:618-661 | every field of an anchor: place, stage name of its quarter of the rows, class, shape, diameter, height, offset, local and world position, fallback flag and path |
| `CourseGeometry.CourseDescribed` | Go2Pvcnn/extension/semantic_course.py:592-663 | a course is, row by row and column by column, the anchors of its tiles, each the layout of its own seed, stage, row and column, slot by slot |
| `CourseGeometry.CourseExactlyWhen` | Go2Pvcnn/extension/semantic_course.py:567-663 | there is a course exactly when every tile within the width of the first row has an origin and a layout |
| `CourseGeometry.AnchorsAreApart` | Go2Pvcnn/extension/semantic_course.py:475-564 | two anchors of a tile keep diameters and clearance apart in the world unless the later one is a fallback |
| `StageBands.BandsPartitionRows` | Go2Pvcnn/extension/semantic_course.py:132-144 | for every positive row count the four bands follow each other, cover all rows and differ in size by at most one |
| `StageBands.StageForRowFinds` | Go2Pvcnn/extension/semantic_course.py:147-154 | every row in range has a stage; it is the one whose band holds the row, number 4 row / rows rounded down |
| `StageBands.StageForRowMonotone` | Go2Pvcnn/extension/semantic_course.py:147-154 | a later row never has an earlier stage |
| `StageBands.RepresentativesExist` | Go2Pvcnn/extension/semantic_course.py:157-166 | representatives exist exactly from four rows on, one for each stage, each mapped back to its own stage |
| `StageBands.RepresentativesAreCentred` | Go2Pvcnn/extension/semantic_course.py:157-166 | a representative is the middle row of its quarter, the earlier of two |
| `StageBands.BandRefusals` | Go2Pvcnn/extension/semantic_course.py:132-166 | exactly which rows have no stage, and which stage is reported to have an empty band |
| `TileSize.DiffsDownColumns` | Go2Pvcnn/extension/semantic_course.py:388-399 | the loop for axis 0 collects exactly the positive finite differences down the columns; ragged rows and unreadable entries are skipped |
| `TileSize.DiffsAlongRows` | Go2Pvcnn/extension/semantic_course.py:400-411 | the loop for axis 1 does the same along the rows |
| `TileSize.InferAxisSpacing` | Go2Pvcnn/extension/semantic_course.py:384-414 | the median of the collected differences, None when there are none, an error on any other axis |
| `TileSize.MajorityIsMedian` | Go2Pvcnn/extension/semantic_course.py:414 | a value that more than half of a list's entries have is its median |
| `TileSize.MajoritySpacing` | Go2Pvcnn/extension/semantic_course.py:384-414 | if more than half of the collected differences are d, the inferred spacing is exactly d |
| `TileSize.RegularGridSpacing` | Go2Pvcnn/extension/semantic_course.py:384-414 | a regular grid of any size, in either orientation, yields its spacing along an axis exactly when that axis has neighbours that are apart, and nothing otherwise |
| `TileSize.AxisDiffsAre` | Go2Pvcnn/extension/semantic_course.py:384-411 | a number is among the collected differences exactly when two readable neighbours along the axis are that far apart, x down the columns and y along the rows |
| `TileSize.MedianIsMiddle` | Go2Pvcnn/extension/semantic_course.py:414 | the median is the middle entry, or halfway between the two middle ones, by rank among the unsorted entries |
| `TileSize.ResolvedSizeIs` | Go2Pvcnn/extension/semantic_course.py:417-434 | a usable generator size wins, then inference for each side along its own axis, then the fallback; an unusable fallback is refused first |
| `TileSize.ResolvedSizePositive` | Go2Pvcnn/extension/semantic_course.py:417-434 | resolving fails exactly on a fallback that is no positive pair; otherwise both sides are positive |
| `GroundHeight.ShortcutAgrees` | Go2Pvcnn/extension/semantic_course.py:907-916 | the shortcut for quantile 1 and for one sample agrees with sorting and interpolating |
| `GroundHeight.QuantileIsOrderStatistic` | Go2Pvcnn/extension/semantic_course.py:909-916 | at a whole position k the height is the k-th order statistic, told by counting samples |
| `GroundHeight.QuantilePermutationInvariant` | Go2Pvcnn/extension/semantic_course.py:889-916 | the height does not depend on the order of the samples |
| `GroundHeight.QuantileMonotoneInHeights` | Go2Pvcnn/extension/semantic_course.py:889-916 | raising samples never lowers the height |
| `GroundHeight.QuantileMonotoneInQ` | Go2Pvcnn/extension/semantic_course.py:889-916 | a larger quantile never lowers the height |
| `GroundHeight.QuantileShift` | Go2Pvcnn/extension/semantic_course.py:889-916 | lifting all samples lifts the height by the same amount |
| `GroundHeight.QuantileLipschitz` | Go2Pvcnn/extension/semantic_course.py:889-916 | the height moves by at most the largest change of a sample |
| `GroundHeight.QuantileBetweenExtremes` | Go2Pvcnn/extension/semantic_course.py:889-916 | the height lies between lowest and highest sample, which quantiles 0 and 1 give |
| `OrderStatistics.OrderedRank` | Go2Pvcnn/extension/semantic_course.py:909 | entry k of the sorted list is at most x exactly when more than k entries are |
| `Grounding.StandsOnItsFootprint` | Go2Pvcnn/extension/semantic_course.py:677-685 | an obstacle keeps its anchor's identity and place, and its base before embedding lies between the lowest and the highest sample of its own footprint |
| `GroundedHeights.PlaceExactlyWhen` | Go2Pvcnn/extension/semantic_course.py:666-702 | an obstacle is placed exactly when its samples and the configuration allow it; then the height below it, undoing offset and embedding, divides the two samples next in rank to the quantile's position in the ratio of its fraction |
| `GroundedHeights.PlaceFails` | Go2Pvcnn/extension/semantic_course.py:889-906 | which error is reported, the first that applies, exactly |
| `GroundedHeights.StandsOnExtreme` | Go2Pvcnn/extension/semantic_course.py:907-916 | the quantile 1 puts an obstacle on its highest sample, 0 on its lowest |
| `GroundedHeights.CourseExactlyWhen` | Go2Pvcnn/extension/semantic_course.py:666-702 | a course is grounded exactly when every anchor is, over the heights sampled below it |
| `GroundedHeights.CourseFailsAtFirst` | Go2Pvcnn/extension/semantic_course.py:666-702 | the failure of a course is that of its first anchor that fails |
| `Grounding.GroundCourseAnchors` | Go2Pvcnn/extension/semantic_course.py:666-702 | the per-anchor loop: all obstacles in order, or the first failure |
| `Grounding.GroundAllPointwise` | Go2Pvcnn/extension/semantic_course.py:666-702 | grounding succeeds exactly when every anchor can be grounded alone, and then entry by entry |
| `Grounding.CollectSamplePoints` | Go2Pvcnn/extension/semantic_course.py:926-932 | the first loop of the batched routine: sample counts and all footprints in a row |
| `Grounding.SliceIsFootprint` | Go2Pvcnn/extension/semantic_course.py:934-937 | the running index cuts the flat heights back into each anchor's own footprint |
| `Grounding.GroundSlices` | Go2Pvcnn/extension/semantic_course.py:935-966 | the second loop grounds each anchor on its own slice |
| `Grounding.MissFailsOneByOne` | Go2Pvcnn/extension/semantic_course.py:1037 | a missed ray fails the per-anchor routine too |
| `Grounding.GroundWithRuntimeTerrainSampler` | Go2Pvcnn/extension/semantic_course.py:919-966 | the batched routine gives exactly the obstacles of the per-anchor one and fails on the same inputs; its error names the first failing phase |
| `Lineage.ValidateLineage` | Go2Pvcnn/scripts/m1_panda_folded_load_curriculum.py:80-141 | the validation loop returns the last manifest, or the first failing check of the first failing stage |
| `Lineage.PrefixValid` | Go2Pvcnn/scripts/m1_panda_folded_load_curriculum.py:89-141 | validation through a stage includes validation through every earlier one |
| `Lineage.StageFacts` | Go2Pvcnn/scripts/m1_panda_folded_load_curriculum.py:89-137 | what a validated stage guarantees: a manifest of this stage marked accepted, an existing final checkpoint with its recorded hash, the hash of the parent manifest |
| `Lineage.ManifestDeterminesHistory` | Go2Pvcnn/scripts/m1_panda_folded_load_curriculum.py:80-141 | with an injective hash two stores valid through stage k with the same stage-k manifest hold the same manifests and final checkpoints of all stages up to k |
| `Lineage.TamperingIsDetected` | Go2Pvcnn/scripts/m1_panda_folded_load_curriculum.py:80-141 | changing a recorded file of a stage up to k, the last manifest aside, makes validation through k fail |
| `Lineage.StageUnchanged` | Go2Pvcnn/scripts/m1_panda_folded_load_curriculum.py:89-139 | a stage check depends only on manifest and final checkpoint of the stage and of its parent |
| `LineageRecords.ValidExactlyWhen` | Go2Pvcnn/scripts/m1_panda_folded_load_curriculum.py:80-141 | a chain validates through a stage exactly when the records of it and of all before are in order, told field by field: accepted, the checkpoint there with its digest, and no parent or the manifest and checkpoint of the stage before with their digests |
| `LineageRecords.RefusalMeans` | Go2Pvcnn/scripts/m1_panda_folded_load_curriculum.py:80-141 | a refused chain is in order up to a stage that has the fault the error names |
| `ParentRecords.TrainerAcceptsParent` | Go2Pvcnn/scripts/m1_panda_folded_load_train.py:83-125 | behind a chain valid through k-1 the trainer accepts the parent of stage k exactly when it is not marked diagnostic, and returns its true identity |
| `LineageRecords.TrainerAcceptsExactlyWhen` | Go2Pvcnn/scripts/m1_panda_folded_load_train.py:83-125 | for every stage and every parent manifest, valid chain or not: what the trainer accepts and gathers, told from the document |
| `LineageRecords.TrainerRefusalMeans` | Go2Pvcnn/scripts/m1_panda_folded_load_train.py:83-118 | every refusal names a fault the parent has |
| `ParentRecords.RecordParent` | Go2Pvcnn/scripts/m1_panda_folded_load_train.py:217-227 | the manifest records the stage and either nothing or the identity of the parent, and keeps its other fields |
| `ParentRecords.RecordedParentValidates` | Go2Pvcnn/scripts/m1_panda_folded_load_train.py:223-227 | a manifest recording what the trainer's check returned, once accepted with a matching checkpoint, makes the chain valid through its stage while the parents are unchanged |
| `Curriculum.Disk.LaunchAndValidate` | Go2Pvcnn/scripts/m1_panda_folded_load_curriculum.py:225-231 | one stage runs in its own directory; success is revalidated from the first stage on; a raise, a refusal and a broken chain are told apart |
| `Curriculum.Disk.RunStage` | Go2Pvcnn/scripts/m1_panda_folded_load_curriculum.py:222-265 | one turn of the loop: the stop state with the last accepted stage, or the running state with this one, persisted |
| `Curriculum.Disk.RunStages` | Go2Pvcnn/scripts/m1_panda_folded_load_curriculum.py:222-277 | the stage loop and the final state |
| `Curriculum.Disk.RunCurriculum` | Go2Pvcnn/scripts/m1_panda_folded_load_curriculum.py:205-277 | the driver: unknown stages and invalid chains are refused before anything is written, then the stages run from the start stage on |
| `Rollback.EveryRunEndsWell` | Go2Pvcnn/scripts/m1_panda_folded_load_curriculum.py:212-277 | whatever the executor does or raises: completed stages are a prefix of the order, accepted means all of them, a stopped stage is the next one, the state file holds the returned state, and no exception escapes |
| `Rollback.EveryRequestIsValidated` | Go2Pvcnn/scripts/m1_panda_folded_load_curriculum.py:222-255 | whatever the executor does, every request was issued in a store that differs at most in the state file from one whose chain validated through the stage before |
| `Rollback.CurriculumEndsWell` | Go2Pvcnn/scripts/m1_panda_folded_load_curriculum.py:205-277 | both, for a run of any executor from any start stage; refused exactly when the earlier chain is invalid |
| `Rollback.EveryRunKeepsChain` | Go2Pvcnn/scripts/m1_panda_folded_load_curriculum.py:212-277 | at every exit the chain behind the rollback checkpoint validates, and so did the chain behind every request in the very store it was issued in, for executors whose promoted stages name checkpoints out of the way of the others (`Tidy`) |
| `Rollback.CurriculumIsSafe` | Go2Pvcnn/scripts/m1_panda_folded_load_curriculum.py:205-277 | both, for a run of such an executor from any start stage; refused exactly when the earlier chain is invalid |
| `Rollback.RollbackSafeExactlyWhenClear` | Go2Pvcnn/scripts/m1_panda_folded_load_curriculum.py:222-255 | whatever any executor does in a stage, its stop leaves the chain below valid exactly when no accepted checkpoint lies in the stage's run directory or is the state file |
| `Rollback.UnclearCanBreak` | Go2Pvcnn/scripts/m1_panda_folded_load_curriculum.py:222-255 | otherwise one of two empty-handed executors, one raising and one refusing, breaks the chain |
| `Rollback.MisplacedCheckpointCanBreak` | Go2Pvcnn/scripts/m1_panda_folded_load_curriculum.py:205-255 | a concrete valid chain on which the driver, admitted at the second stage, stops and reports a rollback checkpoint that no longer exists |
| `CurriculumRecords.StateIsTold` | Go2Pvcnn/scripts/m1_panda_folded_load_curriculum.py:41-48 | the state file holds each of the six entries of the state under its own name, and nothing else |
| `CurriculumRecords.EveryRunIsAnnounced` | Go2Pvcnn/scripts/m1_panda_folded_load_curriculum.py:222-265 | every request names its stage, its run directory and the manifest of the stage before; all but the first find a state file that says which stages are complete and where to roll back |
| `CurriculumRecords.EveryEndIsTold` | Go2Pvcnn/scripts/m1_panda_folded_load_curriculum.py:212-277 | on every exit the returned state is on file and tells the complete stages, the checkpoint the last one names, and the reason the executor's outcome gave |
| `CurriculumRecords.CurriculumIsTold` | Go2Pvcnn/scripts/m1_panda_folded_load_curriculum.py:205-277 | both from any start stage; an unknown one is refused, and a known one exactly when the records before it are not in order |
| `Acceptance.CompliantStagePasses` | Go2Pvcnn/scripts/m1_panda_folded_load_curriculum.py:222-255 | in a vacant run directory, a stage that records what its trainer's check returned and is accepted passes validation behind a valid chain of non-diagnostic stages |
| `Acceptance.CompliantRunIsAccepted` | Go2Pvcnn/scripts/m1_panda_folded_load_curriculum.py:205-277 | trainer, evaluator and driver together: from any stage on, with vacant run directories ahead, such stages carry the curriculum to the accepted state |
| `Acceptance.ModelIsCompliant` | Go2Pvcnn/scripts/m1_panda_folded_load_train.py:202-239 | such stages exist: one that refuses an occupied run directory or a parent it does not accept, leaving everything as it is, and otherwise records its validated parent and publishes a final checkpoint beside it |
| `Acceptance.ModelRunIsAccepted` | Go2Pvcnn/scripts/m1_panda_folded_load_curriculum.py:205-277 | from an empty experiment they lead through all stages |
| `Acceptance.StopsWhereItFails` | Go2Pvcnn/scripts/m1_panda_folded_load_curriculum.py:222-255 | a curriculum that is compliant up to a failing stage stops exactly there |
| `Acceptance.FailureIsRecoverable` | Go2Pvcnn/scripts/m1_panda_folded_load_curriculum.py:205-277 | however a run stopped at stage j, if compliant stages would have done the same before j, the continuation with start stage j is admitted, and accepted once j's run directory is vacant |
| `Acceptance.ModelIgnoresState` | Go2Pvcnn/scripts/m1_panda_folded_load_train.py:103-117 | the stage that hashes its parent's recorded checkpoint does not look at the state file |
| `Acceptance.OccupiedStopsAgain` | Go2Pvcnn/scripts/m1_panda_folded_load_train.py:68-73 | restarted behind a valid chain over a run directory that is not vacant, the concrete stages stop at that stage again |
| `Acceptance.ModelRunIsRecoverable` | Go2Pvcnn/scripts/m1_panda_folded_load_curriculum.py:205-277 | however a run of the concrete stages stopped at stage j, its continuation at j is admitted; it is accepted exactly when j's run directory is vacant, and stops at j again otherwise |
| `Acceptance.RestartMayStopAgain` | Go2Pvcnn/scripts/m1_panda_folded_load_curriculum.py:205-277 | for every stage a run that leaves a file there and stops, and whose immediate restart stops there again |
| `Interruption.RunIgnoresState` | Go2Pvcnn/scripts/m1_panda_folded_load_curriculum.py:205-277 | stores that differ in the state file only lead to the same run, for executors that do not read the state file behind checkpoints out of the way (`IgnoresState`) and whose successful stages name such checkpoints (`Neat`) |
| `Interruption.LastStage` | Go2Pvcnn/scripts/m1_panda_folded_load_curriculum.py:222-255 | the stage that stopped a run began behind a valid chain, and its stop changed nothing but its run directory and the state file |
| `Interruption.InterruptionIsHarmless` | Go2Pvcnn/scripts/m1_panda_folded_load_curriculum.py:205-277 | a run stopped at stage j and continued at j issues the same later requests and ends in the same state and store as an uninterrupted run, if outside j's run directory and the state file nothing changed since and stage j does what it would have done where it began |
| `Interruption.HarmlessAsLeft` | Go2Pvcnn/scripts/m1_panda_folded_load_curriculum.py:205-277 | so it may be restarted over what it left, if it goes over whatever its run directory holds (`Heedless`) |
| `Interruption.HarmlessOnceRestored` | Go2Pvcnn/scripts/m1_panda_folded_load_curriculum.py:205-277 | and every stage that does not look at the state file once its run directory is back to what it found there |
| `Interruption.ContinuationIsAdmitted` | Go2Pvcnn/scripts/m1_panda_folded_load_curriculum.py:205-277 | the same for `run_curriculum`: the continuation with start stage j is admitted and joins the requests, exit and files of the uninterrupted run |
| `Promotion.FinishedOutputsSurvive` | Go2Pvcnn/scripts/m1_panda_arm_mpc_residual_promote.py:407-431 | no session alters a complete output, whatever its workers do; without resume nothing is altered, with it only unfinished outputs of the same identity |
| `Promotion.ResumeCompletes` | Go2Pvcnn/scripts/m1_panda_arm_mpc_residual_promote.py:395-448 | over consistent outputs a resumed session yields every worker's metrics and launches exactly the absent and retryable ones, in order |
| `PromotionRuns.RunDirectory.RunOrResumeWorker` | Go2Pvcnn/scripts/m1_panda_arm_mpc_residual_promote.py:395-448 | reuse, retry, reject or launch one worker, and what is left at its output path |
| `PromotionRuns.RunDirectory.RunWorkers` | Go2Pvcnn/scripts/m1_panda_arm_mpc_residual_promote.py:479-495 | the inner loops over workers, as a session |
| `PromotionRuns.RunDirectory.EvaluateRecords` | Go2Pvcnn/scripts/m1_panda_arm_mpc_residual_promote.py:510-553 | the candidate loop judges every candidate on its own three results |
| `PromotionRuns.RunDirectory.RunPromotion` | Go2Pvcnn/scripts/m1_panda_arm_mpc_residual_promote.py:451-587 | the whole run: outputs and launches of the schedule's session, the decision of its pairs, the best checkpoint published and rechecked, and each published file only as far as the run got |
| `PromotionRuns.RunDirectory.PublishVerdict` | Go2Pvcnn/scripts/m1_panda_arm_mpc_residual_promote.py:550-587 | the best checkpoint is replaced first; a copy whose hash is not the listed one leaves the old manifest |
| `PromotionRuns.RunJobsAppend` | Go2Pvcnn/scripts/m1_panda_arm_mpc_residual_promote.py:477-536 | running two schedules one after the other is running them as one; an error ends both |
| `PromotionRecords.ScheduleIs` | Go2Pvcnn/scripts/m1_panda_arm_mpc_residual_promote.py:477-536 | three zero pairs on each of the seeds 42, 43, 44, then one evaluation of each candidate on each seed, with mode, seed, place and digest, and nothing else |
| `PromotionRecords.JobExactlyWhen` | Go2Pvcnn/scripts/m1_panda_arm_mpc_residual_promote.py:395-448 | a worker starts exactly when its output is missing or its own unfinished one is resumed; nothing else is written; success is exactly a finished output of this job with these metrics |
| `PromotionRecords.JobFailsFor` | Go2Pvcnn/scripts/m1_panda_arm_mpc_residual_promote.py:395-448 | which error means what |
| `PromotionRecords.SessionDelivers` | Go2Pvcnn/scripts/m1_panda_arm_mpc_residual_promote.py:395-448 | the results of a session are those its outputs hold at its end, whatever its workers did |
| `PromotionRecords.PromotionDecides` | Go2Pvcnn/scripts/m1_panda_arm_mpc_residual_promote.py:451-587 | a verdict is decided on what the outputs hold: tolerances from the nine zero pairs, each candidate on its own three results, the choice from all; the published digest is checked last |
| `PromotionRecords.BestAfterVerdict` | Go2Pvcnn/scripts/m1_panda_arm_mpc_residual_promote.py:550-587 | after a verdict the best checkpoint is the chosen one as listed; after the refusal it is already the file with the other digest |
| `PromotionCrashes.WorkerLifeIsExpected` | Go2Pvcnn/scripts/m1_panda_arm_mpc_residual_eval.py:133-206 | every moment of a worker's life leaves an output that resuming accepts: none, starting, failed or complete |
| `PromotionCrashes.CrashesKeepConsistent` | Go2Pvcnn/scripts/m1_panda_arm_mpc_residual_promote.py:395-448 | any number of crashes, at any workers and inside them, leaves consistent outputs |
| `PromotionCrashes.FreshNeedsNoResume` | Go2Pvcnn/scripts/m1_panda_arm_mpc_residual_promote.py:407-409 | without earlier outputs resume makes no difference |
| `PromotionCrashes.NoResumeRefuses` | Go2Pvcnn/scripts/m1_panda_arm_mpc_residual_promote.py:407-409 | without resume an output that is already there makes the session fail |
| `PromotionCrashes.RepeatedPathFails` | Go2Pvcnn/scripts/m1_panda_arm_mpc_residual_promote.py:395-448 | a schedule that uses a path twice fails without resume, and with resume if the two jobs differ, whatever the workers do and whatever was there before |
| `PromotionCrashes.CompletesExactlyWhen` | Go2Pvcnn/scripts/m1_panda_arm_mpc_residual_promote.py:395-448 | over new outputs and with deterministic workers a session completes exactly when no path is used twice or, with resume, when jobs of one path are one job |
| `PromotionCrashes.CrashAndResume` | Go2Pvcnn/scripts/m1_panda_arm_mpc_residual_promote.py:395-448 | after any crashes resuming launches exactly the absent and retryable outputs and gives the pairs of an uninterrupted run; resuming again launches none |
| `PromotionCrashes.ScheduleDistinct` | Go2Pvcnn/scripts/m1_panda_arm_mpc_residual_promote.py:477-536 | distinct candidate updates give a schedule that uses no output path twice |
| `PromotionCrashes.SameDecision` | Go2Pvcnn/scripts/m1_panda_arm_mpc_residual_promote.py:451-587 | after any crashes resuming gives the decision of a run that was never interrupted, and publishes or refuses the same checkpoint |
| `CandidateManifests.LoadBridgeCandidates` | Go2Pvcnn/scripts/m1_panda_arm_mpc_residual_promote.py:271-303 | a bridge list is accepted exactly when each entry is readable and has its recorded digest, the five required updates occur once each, and the one of 100 updates is the migrated checkpoint; it is returned in their order, and each refusal names a fault of the list |
| `CandidateManifests.ShortScheduleDistinctExactlyWhenFive` | Go2Pvcnn/scripts/m1_panda_arm_mpc_residual_promote.py:188-208 | an accepted short list gives a schedule without a repeated path exactly when it has five entries |
| `CandidateManifests.ShortListMayRepeat` | Go2Pvcnn/scripts/m1_panda_arm_mpc_residual_promote.py:206-207 | a short list of six entries is accepted and repeats a path |
| `CandidateManifests.LongShortListFails` | Go2Pvcnn/scripts/m1_panda_arm_mpc_residual_promote.py:451-587 | an accepted short list that has not five entries never completes without resume, whatever its workers do |
| `CandidateManifests.ShortRunCompletesExactlyWhen` | Go2Pvcnn/scripts/m1_panda_arm_mpc_residual_promote.py:451-536 | over new outputs and with deterministic workers all workers of an accepted short list complete exactly when it has five entries or, with resume, when entries of one update count carry one digest |
| `Pruning.BuildPruningPlan` | Go2Pvcnn/scripts/prune_m1_panda_coordinated_checkpoints.py:74-112 | the planning loop: the guards in order, then the sorted items or the first irregular checkpoint |
| `PruningSafety.CheckpointNameRoundTrip` | Go2Pvcnn/scripts/prune_m1_panda_coordinated_checkpoints.py:94-96 | the name of the checkpoint of iteration n is read back as n |
| `PruningSafety.DoomedExactlyWhen` | Go2Pvcnn/scripts/prune_m1_panda_coordinated_checkpoints.py:94-98 | a name is doomed exactly when it is digits between the fixed parts, at least one, that read as a number above the limit |
| `PruningSafety.PlanIsExact` | Go2Pvcnn/scripts/prune_m1_panda_coordinated_checkpoints.py:74-112 | a plan lists exactly the numeric checkpoints above the limit with their present hashes, by number, and the hashes of the two files that stay; planning succeeds exactly when guards hold and all of these are regular files, and each refusal is told |
| `Pruning.RunDirectory.VerifyPostcondition` | Go2Pvcnn/scripts/prune_m1_panda_coordinated_checkpoints.py:130-150 | true exactly when no numeric checkpoint above the limit is left, but for ignored names |
| `Pruning.RunDirectory.DeleteFiles` | Go2Pvcnn/scripts/prune_m1_panda_coordinated_checkpoints.py:159-165 | the deletion loop passes through the specified states and stops at the first file that is not what the plan saw |
| `Pruning.RunDirectory.ExecutePruning` | Go2Pvcnn/scripts/prune_m1_panda_coordinated_checkpoints.py:153-169 | a dry run changes nothing; otherwise audit, deletions, verification, completed audit, with every durable state in between |
| `PruningSafety.DeletionStates` | Go2Pvcnn/scripts/prune_m1_panda_coordinated_checkpoints.py:159-165 | after k deletions exactly the first k planned names are gone, each unchanged since planning |
| `PruningSafety.EveryStateIsAudited` | Go2Pvcnn/scripts/prune_m1_panda_coordinated_checkpoints.py:153-169 | in every durable state after the first, what is gone is a prefix of the plan in the audit on disk, and the audit says planned, or completed with nothing doomed left |
| `PruningSafety.AuditTellsTheTruth` | Go2Pvcnn/scripts/prune_m1_panda_coordinated_checkpoints.py:153-169 | an audit on disk that says completed implies the postcondition, in every durable state of every execution after the first, which may hold an older audit |
| `PruningSafety.NeverRemoved` | Go2Pvcnn/scripts/prune_m1_panda_coordinated_checkpoints.py:153-169 | no other name, no checkpoint at or below the limit and no file whose hash changed is removed or altered in any state |
| `PruningSafety.ExecutionEnds` | Go2Pvcnn/scripts/prune_m1_panda_coordinated_checkpoints.py:153-169 | the first changed file stops the execution and stays, with the error for its kind of change; without one it fails exactly on an unplanned checkpoint above the limit |
| `PruningSafety.ChangedFileStays` | Go2Pvcnn/scripts/prune_m1_panda_coordinated_checkpoints.py:163-165 | a planned file that has another hash is there in every durable state, and the execution does not complete |
| `PruningSafety.CompletesExactlyWhenUnchanged` | Go2Pvcnn/scripts/prune_m1_panda_coordinated_checkpoints.py:153-169 | execution completes exactly when every planned file is unchanged and nothing else above the limit is there; then the postcondition holds and the audit says completed |
| `PruningSafety.ReplanReachesSameSurvivors` | Go2Pvcnn/scripts/prune_m1_panda_coordinated_checkpoints.py:74-169 | after a crash in any state planning again succeeds, completes, and the same files survive |
| `CrossingTracks.NearestIsOnPath` | Go2Pvcnn/scripts/mpc_policy_eval.py:696-717 | the locked obstacle is a path cell of least score among the path cells |
| `CrossingTracks.ArgMin` | Go2Pvcnn/scripts/mpc_policy_eval.py:708-709 | the first cell of least score |
| `CrossingTracks.FollowMeans` | Go2Pvcnn/scripts/mpc_policy_eval.py:704-759 | the accumulated track says: locked to the nearest obstacle of the first step that showed one, and from that step on, in how many steps a foot was over it or stood on a small obstacle, and whether the root got past it |
| `CrossingTracks.ClearancesFollow` | Go2Pvcnn/scripts/mpc_policy_eval.py:742-746 | extreme clearances are those of the feet in the footprint from the lock on, capped by their initial values |
| `CrossingOutcomes.MeasurementsAreCoordinates` | Go2Pvcnn/scripts/mpc_policy_eval.py:686-694 | the two measurements are the coordinates of a displacement along and to the left of a unit heading |
| `CrossingOutcomes.NearestIsSeen` | Go2Pvcnn/scripts/mpc_policy_eval.py:696-717 | the locked cell is the nearest one seen in the corridor, told in these coordinates, the first of equals |
| `CrossingOutcomes.FlagsTold` | Go2Pvcnn/scripts/mpc_policy_eval.py:704-759 | after any step the flags say whether, from the lock on, the root was beyond the obstacle, a foot above its square, and a foot on a small one |
| `CrossingReports.ResetIsFirstDone` | Go2Pvcnn/scripts/mpc_policy_eval.py:373-400 | done and reset flags agree after every step; the record is of the first termination, taken after that step's measurements, and never changes |
| `CrossingOutcomes.ResetTold` | Go2Pvcnn/scripts/mpc_policy_eval.py:364-400 | the record of a reset: step, reason, stage and flags, each told from the steps up to the first termination, for all four stages |
| `CrossingTold.ReasonIsTold` | Go2Pvcnn/scripts/mpc_policy_eval.py:388-392 | a bad orientation goes before a base contact, both before a time-out, and unknown is none of them |
| `CrossingReports.StageMatchesFlags` | Go2Pvcnn/scripts/mpc_policy_eval.py:364-371 | the stage of a reset agrees with the flags recorded beside it |
| `CrossingReports.SuccessMeans` | Go2Pvcnn/scripts/mpc_policy_eval.py:407-414 | a reported success means: an obstacle was met, the root got past it and a foot over it from then on, none stood on one, no contact and no reset |
| `CrossingOutcomes.SuccessTold` | Go2Pvcnn/scripts/mpc_policy_eval.py:407-414 | the same in coordinates: crossed, stepped over and not stepped on, without contact and without termination |
| `CrossingReports.ResetsAddUp` | Go2Pvcnn/scripts/mpc_policy_eval.py:350-400 | reasons add up to the resets, and so do stages |
| `CrossingReports.FlagsAddUp` | Go2Pvcnn/scripts/mpc_policy_eval.py:364-400 | resets after a foot was over are those of the two last stages; those after the root crossed are those of the last stage and those with no foot over before |
| `CrossingReports.RootFirstMeans` | Go2Pvcnn/scripts/mpc_policy_eval.py:364-400 | a reset is recorded with its root past and no foot over exactly when, from the lock to the first termination, the root was past the obstacle and no foot ever over it |
| `CrossingReports.LastStageCountsExactlyWhen` | Go2Pvcnn/scripts/mpc_policy_eval.py:364-400 | the last stage counts all resets after the root crossed exactly when no environment's trace is of that kind |
| `CrossingReports.RootFirstUndercounts` | Go2Pvcnn/scripts/mpc_policy_eval.py:364-400 | a round of two steps over one obstacle, with four feet beside it, in which the last stage undercounts |
| `CrossingReports.SuccessesWereNotReset` | Go2Pvcnn/scripts/mpc_policy_eval.py:402-457 | successes and resets together fit into the environments, and every success is an opportunity |
| `CrossingReports.ReportConserves` | Go2Pvcnn/scripts/mpc_policy_eval.py:402-457 | every report that says what its entries are named for satisfies all conservation laws at once: resets by reason, by stage and as listed, flags, groups, and rates that are fractions |
| `CrossingTold.ReportIsTold` | Go2Pvcnn/scripts/mpc_policy_eval.py:402-457 | every count, reset record, group and rate of a report is the number of environments of whose frames it is true, where headings are unit vectors |
| `CrossingGroups.GroupSummary` | Go2Pvcnn/scripts/mpc_policy_eval.py:350-362 | one group for each distinct key in ascending order, with the marked environments of that key |
| `CrossingGroups.SortedDistinctIsSorted` | Go2Pvcnn/scripts/mpc_policy_eval.py:353 | the group keys are the keys, each once, ascending |
| `CrossingGroups.GroupsAddUp` | Go2Pvcnn/scripts/mpc_policy_eval.py:350-362 | opportunities and successes summed over the groups equal the totals, for any keys |
| `CrossingGroups.GroupRates` | Go2Pvcnn/scripts/mpc_policy_eval.py:350-362 | when successes are opportunities every group's rate is a fraction, one exactly where all its opportunities succeeded |
| `Crossing.ControlledCrossing.constructor` | Go2Pvcnn/scripts/mpc_policy_eval.py:316-348 | a new accumulator is that of a round of no steps |
| `Crossing.ControlledCrossing.LockNew` | Go2Pvcnn/scripts/mpc_policy_eval.py:703-722 | the locking statements lock each environment on its own |
| `Crossing.ControlledCrossing.MeasureLocked` | Go2Pvcnn/scripts/mpc_policy_eval.py:724-759 | the measuring statements measure each environment against its own obstacle |
| `Crossing.ControlledCrossing.StepMetrics` | Go2Pvcnn/scripts/mpc_policy_eval.py:658-767 | the whole-tensor statements with their global guards do for each environment what it would do alone |
| `Crossing.ControlledCrossing.ResetStage` | Go2Pvcnn/scripts/mpc_policy_eval.py:364-371 | the stage of an environment's flags |
| `Crossing.ControlledCrossing.UpdateResetDiagnostics` | Go2Pvcnn/scripts/mpc_policy_eval.py:373-400 | records are made for exactly the newly done environments, with the first present and set reason; counters stay the counts of the records |
| `Crossing.ControlledCrossing.ObserveStep` | Go2Pvcnn/scripts/mpc_policy_eval.py:1457-1469 | one step of the round does to each environment done flags, measurements and diagnostics in this order |
| `Crossing.ControlledCrossing.Summarize` | Go2Pvcnn/scripts/mpc_policy_eval.py:402-457 | the report says of the environments what its entries are named for; a contact mask of another size is refused |
| `CrossingRounds.EvaluateRound` | Go2Pvcnn/scripts/mpc_policy_eval.py:1388-1507 | a round's report is that of its environments' whole traces and satisfies all conservation laws, for any number of steps and environments |
| `SmallCollisions.TellsMore` | Go2Pvcnn/scripts/mpc_policy_eval.py:237-276 | marking an environment found in contact keeps flag, first step and body names in agreement with the steps so far |
| `SmallCollisions.SmallCollisionRound.Update` | Go2Pvcnn/scripts/mpc_policy_eval.py:237-276 | after every step each environment's flag, first step and body names are those of its contacts so far, and the largest force is that of all steps; forces of another size are refused |
| `SmallCollisions.SmallCollisionRound.Summarize` | Go2Pvcnn/scripts/mpc_policy_eval.py:278-287 | as many environments are counted as are dated, each date is that of the first contact, and the force is the largest |
| `Tensors.MarkedAreCounted` | Go2Pvcnn/scripts/mpc_policy_eval.py:278-287 | the environments with an entry are as many as the mask counts |
| `SmallCollisions.LargestGrows` | Go2Pvcnn/scripts/mpc_policy_eval.py:241-244 | the running maximum is the largest force of all steps, zero where none is above |
| `SmallCollisions.ContactExactlyWhenLargest` | Go2Pvcnn/scripts/mpc_policy_eval.py:237-255 | of force events alone, some environment was in contact exactly when the largest force exceeds the threshold |
| `SmallCollisions.NamedBodies` | Go2Pvcnn/scripts/mpc_policy_eval.py:247-255 | the bodies recorded are those with an exceeding force of their own |
| `EpisodeOutcomes.PlayIsFirstEnd` | Go2Pvcnn/scripts/m1_checkpoint_eval.py:1055-1072 | an episode records its first crossing or termination, and only that one: outcome, causes, position and largest displacement; a crossing wins over a termination of the same step |
| `EpisodeOutcomes.PlayCases` | Go2Pvcnn/scripts/m1_checkpoint_eval.py:1055-1072 | an episode has ended exactly when some step ended it; until then only the displacement has moved |
| `EpisodeOutcomes.PlayIsFrozen` | Go2Pvcnn/scripts/m1_checkpoint_eval.py:1055-1072 | nothing recorded changes after the outcome |
| `EpisodeOutcomes.OutcomesExclusive` | Go2Pvcnn/scripts/m1_checkpoint_eval.py:1066-1072 | success and done exclude each other; time-outs and bad orientations are among the done |
| `EpisodeOutcomes.SuccessIsDistance` | Go2Pvcnn/scripts/m1_checkpoint_eval.py:1056-1067 | success implies the distance; without a semantic requirement they coincide exactly when there was a step or the threshold is positive |
| `EpisodeOutcomes.CountedTwice` | Go2Pvcnn/scripts/m1_checkpoint_eval.py:1060-1072 | an episode is both timed out and beyond the threshold exactly when a semantic requirement stayed unmet up to the time-out |
| `EpisodeOutcomes.ReportCounts` | Go2Pvcnn/scripts/m1_checkpoint_eval.py:1091-1095 | crossings and time-outs exceed the episodes by at most those counted twice, and never without a semantic requirement |
| `EpisodeOutcomes.CountsTold` | Go2Pvcnn/scripts/m1_checkpoint_eval.py:1091-1095 | the two counts told from the traces: as far as the threshold before the episode ended, and ended by a time-out |
| `EpisodeOutcomes.CountsFitExactlyWhen` | Go2Pvcnn/scripts/m1_checkpoint_eval.py:1091-1095 | crossings and time-outs fit into the episodes of every rollout exactly when no semantic crossing is demanded |
| `EpisodeOutcomes.AllEndedIsFrozen` | Go2Pvcnn/scripts/m1_checkpoint_eval.py:1073-1074 | once all episodes have ended further steps change nothing |
| `EpisodeOutcomes.Rollout.CrossingNow` | Go2Pvcnn/scripts/m1_checkpoint_eval.py:1060-1064 | which environments are past the threshold and, if demanded, semantically across |
| `EpisodeOutcomes.Rollout.NoteCrossings` | Go2Pvcnn/scripts/m1_checkpoint_eval.py:1055-1067 | the first tensor statements do for each environment what it would do alone |
| `EpisodeOutcomes.Rollout.NoteTerminations` | Go2Pvcnn/scripts/m1_checkpoint_eval.py:1068-1072 | so do the remaining ones |
| `EpisodeOutcomes.Rollout.Run` | Go2Pvcnn/scripts/m1_checkpoint_eval.py:510-1074 | the loop with its early stop leaves what the full script would leave |
| `EpisodeOutcomes.Rollout.Counts` | Go2Pvcnn/scripts/m1_checkpoint_eval.py:1093-1095 | the counts handed to the obstacle gate |
| `Settling.SettlingGate.Settle` | Go2Pvcnn/scripts/m1_panda_wbc_roll_play.py:505-538 | driven from step 0 the gate opens at the first step whose last required samples were all stable, and gives up at the last step allowed |
| `Settling.StableRunIsLongestSuffix` | Go2Pvcnn/scripts/m1_panda_wbc_roll_play.py:94 | the counter is the length of the longest stable suffix |
| `Settling.RestedIsCounter` | Go2Pvcnn/scripts/m1_panda_wbc_roll_play.py:94-96 | the counter reaches the required number exactly when the last required samples were all stable |
| `Settling.OutcomeUnique` | Go2Pvcnn/scripts/m1_panda_wbc_roll_play.py:72-101 | a trace has one outcome |
| `Settling.DecidesInTime` | Go2Pvcnn/scripts/m1_panda_wbc_roll_play.py:72-101 | the gate never opens before minimum + required - 1, and has opened or raised by the maximum step |
| `Settling.CanOpenExactlyWhen` | Go2Pvcnn/scripts/m1_panda_wbc_roll_play.py:61-101 | some trace opens the gate exactly when its limits leave room for a run of stable samples |
| `Settling.RestOpens` | Go2Pvcnn/scripts/m1_panda_wbc_roll_play.py:72-101 | a robot at rest from the start opens the gate at the earliest step |
| `Settling.DefaultsWindow` | Go2Pvcnn/scripts/m1_panda_wbc_roll_play.py:50-58 | with the shipped limits the gate opens between steps 119 and 600 or gives up |
| `Settling.DefaultsAreTight` | Go2Pvcnn/scripts/m1_panda_wbc_roll_play.py:50-101 | both ends of that window are reached, and rest is told with the shipped limits |

## Left out

- Isaac Sim, USD, PhysX, gym and RSL-RL: scenes, ray casting, sensors, markers, cameras, spawning, app launch, arguments.
- Neural networks, losses, optimizers and training loops.
- Directories without files: a run directory that holds only such directories counts as vacant.
- Real hashing, JSON text, temporary files, `fsync`, symbolic links, `resolve` and `expanduser`.
- Rounding, overflow and NaN beyond the program's own finiteness checks.
- Spacing of fallback slots: the program checks none. Disjoint cuboid footprints: spacing uses the nominal radius.
- Shape selection, scale profiles, curriculum counts and layout overrides of a tile: inputs of a course.
- CourseAnchors.PathOf: a negative slot index, which only a negative count with a mandatory point yields, has no formatted number.
- The process executor of the curriculum and its three evaluations: an arbitrary executor.
- The text of exception messages in the state file, told by kind only.
- Manifest fields of bridge and short manifests beside the candidate list.
- PromotionRuns.RunDirectory.RunPromotion: leaves out the manifest fields beside tolerances, candidates, decisions and selection.
- Metrics gates and tolerances of promotion.
- An audit path that is a directory.
- Pruning.BuildPruningPlan: leaves out the check that a checkpoint does not escape through links, paths being canonical.
- Pruning.RunDirectory.DeleteFiles: leaves out the same check.
- The audit of an earlier pruning, which a second run overwrites.
- Crossing.ControlledCrossing.Summarize: leaves out the per-environment lists, but for the first resets.
- Tracking summaries of the policy evaluation.
- EpisodeOutcomes.Rollout.Run: leaves out tilt, wheel, leg and phase statistics of the checkpoint evaluation, and the thresholds of its gates.
- Aggregation over several rounds, keyboard control, formal gates and timing of the rolling player.
