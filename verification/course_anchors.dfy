/** Building the obstacle anchors of a whole terrain grid. */
module CourseAnchors {
  import opened Common
  import opened Layout
  import opened LayoutSafety
  import opened PrimPaths
  import opened StageBands
  import Grounding

  datatype CourseError = MissingOrigin | BadRow(band: BandError) | BadLayout(layout: LayoutError)

  /** The inputs of a course: tile origins, tile size and the per-row and per-tile settings. */
  datatype Course = Course(
    origins: seq<seq<Point>>, size: Point, seed: int, cfgForRow: int -> LayoutCfg,
    countsForTile: (int, int, Stage) -> Counts, smallDiameter: real, largeDiameter: real, smallHeight: real,
    largeHeight: real,
    mandatory: Option<Point>, hash: HashKey -> real, shape: (Stage, int, int, int, Class) -> (string, real))

  function StageName(s: Stage): string {
    match s case S1 => "S1" case S2 => "S2" case S3 => "S3" case S4 => "S4"
  }

  function ClassName(c: Class): string {
    match c case Small => "small" case Large => "large"
  }

  function TileOf(c: Course, row: int, col: int, stage: Stage): Tile {
    Tile(c.size, c.cfgForRow(row), c.smallDiameter, c.largeDiameter, c.mandatory, c.seed, StageName(stage), row, col,
         c.hash)
  }

  /** The scene path; Python formats a negative slot index with its sign, which no count that is at least 0 yields. */
  function PathOf(row: nat, col: nat, s: Slot): string {
    if s.slotIndex < 0 then Root(s.cls) else PrimPath(s.cls, row, col, s.slotIndex)
  }

  function AnchorOf(c: Course, row: nat, col: nat, stage: Stage, origin: Point, s: Slot): Grounding.Anchor {
    var (kind, offset) := c.shape(stage, row, col, s.slotIndex, s.cls);
    var (diameter, height) :=
      match s.cls case Small => (c.smallDiameter, c.smallHeight) case Large => (c.largeDiameter, c.largeHeight);
    Grounding.Anchor(
      Grounding.Body(row, col, StageName(stage), ClassName(s.cls), s.slotIndex, kind, diameter, height, offset, s.xy,
                     PathOf(row, col, s)),
      (origin.0 + s.xy.0, origin.1 + s.xy.1), s.fallback)
  }

  function AnchorsOf(c: Course, row: nat, col: nat, stage: Stage, origin: Point,
                     slots: seq<Slot>): (r: seq<Grounding.Anchor>)
    ensures |r| == |slots| && forall i :: 0 <= i < |r| ==> r[i] == AnchorOf(c, row, col, stage, origin, slots[i])
  {
    seq(|slots|, i requires 0 <= i < |slots| => AnchorOf(c, row, col, stage, origin, slots[i]))
  }

  /** The anchors of one tile. */
  function TileAnchors(c: Course, row: nat, col: nat, stage: Stage): Result<seq<Grounding.Anchor>, CourseError>
    requires row < |c.origins|
  {
    if col >= |c.origins[row]| then Err(MissingOrigin) else
      match StageSlotsSpec(TileOf(c, row, col, stage), c.countsForTile(row, col, stage))
      case Err(e) => Err(BadLayout(e))
      case Ok(slots) => Ok(AnchorsOf(c, row, col, stage, c.origins[row][col], slots))
  }

  /** The anchors of the first `cols` tiles of a row. */
  function RowAnchors(c: Course, row: nat, cols: nat, stage: Stage): Result<seq<Grounding.Anchor>, CourseError>
    requires row < |c.origins|
  {
    if cols == 0 then Ok([]) else
      match RowAnchors(c, row, cols - 1, stage)
      case Err(e) => Err(e)
      case Ok(before) =>
        match TileAnchors(c, row, cols - 1, stage)
        case Err(e) => Err(e)
        case Ok(own) => Ok(before + own)
  }

  function NumCols(c: Course): nat {
    if c.origins == [] then 0 else |c.origins[0]|
  }

  /** The anchors of one row, in the stage its band gives it. */
  function StageRow(c: Course, row: nat): Result<seq<Grounding.Anchor>, CourseError>
    requires row < |c.origins|
  {
    match StageForRow(row, |c.origins|)
    case Err(e) => Err(BadRow(e))
    case Ok(stage) => RowAnchors(c, row, NumCols(c), stage)
  }

  /** The anchors of the first `rows` rows. */
  function CourseRows(c: Course, rows: nat): Result<seq<Grounding.Anchor>, CourseError>
    requires rows <= |c.origins|
  {
    if rows == 0 then Ok([]) else
      match CourseRows(c, rows - 1)
      case Err(e) => Err(e)
      case Ok(before) =>
        match StageRow(c, rows - 1)
        case Err(e) => Err(e)
        case Ok(own) => Ok(before + own)
  }

  lemma {:induction false} RowFailsEarly(c: Course, row: nat, cols: nat, upto: nat, stage: Stage)
    requires row < |c.origins| && cols <= upto && RowAnchors(c, row, cols, stage).Err?
    ensures RowAnchors(c, row, upto, stage) == RowAnchors(c, row, cols, stage)
    decreases upto
  {
    if cols < upto {
      RowFailsEarly(c, row, cols, upto - 1, stage);
    }
  }

  lemma {:induction false} CourseFailsEarly(c: Course, rows: nat, upto: nat)
    requires rows <= upto <= |c.origins| && CourseRows(c, rows).Err?
    ensures CourseRows(c, upto) == CourseRows(c, rows)
    decreases upto
  {
    if rows < upto {
      CourseFailsEarly(c, rows, upto - 1);
    }
  }

  method BuildTile(c: Course, row: nat, col: nat, stage: Stage) returns (r: Result<seq<Grounding.Anchor>, CourseError>)
    requires row < |c.origins|
    ensures r == TileAnchors(c, row, col, stage)
  {
    if col >= |c.origins[row]| {
      return Err(MissingOrigin);
    }
    var slots := StageSlots(TileOf(c, row, col, stage), c.countsForTile(row, col, stage));
    if slots.Err? {
      return Err(BadLayout(slots.error));
    }
    return Ok(AnchorsOf(c, row, col, stage, c.origins[row][col], slots.value));
  }

  /** The column loop. */
  method BuildRow(c: Course, row: nat) returns (r: Result<seq<Grounding.Anchor>, CourseError>)
    requires row < |c.origins|
    ensures r == StageRow(c, row)
  {
    hide TileAnchors;
    var found := StageForRow(row, |c.origins|);
    if found.Err? {
      return Err(BadRow(found.error));
    }
    var stage := found.value;
    var anchors: seq<Grounding.Anchor> := [];
    for col := 0 to NumCols(c)
      invariant RowAnchors(c, row, col, stage) == Ok(anchors)
    {
      var own := BuildTile(c, row, col, stage);
      if own.Err? {
        RowFailsEarly(c, row, col + 1, NumCols(c), stage);
        return own;
      }
      anchors := anchors + own.value;
    }
    return Ok(anchors);
  }

  method BuildCourseAnchors(c: Course) returns (r: Result<seq<Grounding.Anchor>, CourseError>)
    ensures r == CourseRows(c, |c.origins|)
  {
    var anchors: seq<Grounding.Anchor> := [];
    for row := 0 to |c.origins|
      invariant CourseRows(c, row) == Ok(anchors)
    {
      var own := BuildRow(c, row);
      if own.Err? {
        CourseFailsEarly(c, row + 1, |c.origins|);
        return own;
      }
      anchors := anchors + own.value;
    }
    return Ok(anchors);
  }

  // ---- Paths ----

  /** What a course asks for: hashes in the unit interval and counts that are not negative. */
  ghost predicate Sound(c: Course) {
    && (forall k :: 0.0 <= c.hash(k) <= 1.0)
    && (forall row, col, stage ::
        c.countsForTile(row, col, stage).small >= 0 && c.countsForTile(row, col, stage).large >= 0)
  }

  /** The anchor sits in a tile before (rows, cols) and carries the path of its own row, column, class and index. */
  ghost predicate Placed(a: Grounding.Anchor, row: nat, cols: nat) {
    exists cls: Class, col: nat, slot: nat ::
      col < cols && a.body.col == col && a.body.row == row && a.body.primPath == PrimPath(cls, row, col, slot)
  }

  ghost predicate DistinctPaths(anchors: seq<Grounding.Anchor>) {
    forall i, j :: 0 <= i < j < |anchors| ==> anchors[i].body.primPath != anchors[j].body.primPath
  }

  lemma {:induction false} TileSlotIndices(t: Tile, counts: Counts)
    requires UnitHash(t) && counts.small >= 0 && counts.large >= 0 && StageSlotsSpec(t, counts).Ok?
    ensures StrictlySorted(StageSlotsSpec(t, counts).value)
    ensures forall s :: s in StageSlotsSpec(t, counts).value ==> s.slotIndex >= 0
  {
    OutputShape(t, counts);
    PartsSafe(t, counts);
  }

  lemma SlotPathsDiffer(row: nat, col: nat, a: Slot, b: Slot)
    requires a.slotIndex >= 0 && b.slotIndex >= 0 && (a.cls != b.cls || a.slotIndex != b.slotIndex)
    ensures PathOf(row, col, a) != PathOf(row, col, b)
  {
    if PrimPath(a.cls, row, col, a.slotIndex) == PrimPath(b.cls, row, col, b.slotIndex) {
      PrimPathInjective(a.cls, row, col, a.slotIndex, b.cls, row, col, b.slotIndex);
    }
  }

  /** Anchors of strictly sorted slots have distinct paths, each that of its own place. */
  lemma AnchorPaths(c: Course, row: nat, col: nat, stage: Stage, origin: Point, slots: seq<Slot>)
    requires StrictlySorted(slots) && forall s :: s in slots ==> s.slotIndex >= 0
    ensures DistinctPaths(AnchorsOf(c, row, col, stage, origin, slots))
    ensures forall a :: a in AnchorsOf(c, row, col, stage, origin, slots) ==>
            Placed(a, row, col + 1) && a.body.col == col
  {
    var anchors := AnchorsOf(c, row, col, stage, origin, slots);
    forall i, j | 0 <= i < j < |anchors| ensures anchors[i].body.primPath != anchors[j].body.primPath {
      assert slots[i] in slots && slots[j] in slots;
      SlotPathsDiffer(row, col, slots[i], slots[j]);
    }
    forall i | 0 <= i < |anchors| ensures Placed(anchors[i], row, col + 1) && anchors[i].body.col == col {
      assert slots[i] in slots;
      assert anchors[i].body.primPath == PrimPath(slots[i].cls, row, col, slots[i].slotIndex);
    }
  }

  lemma {:induction false} TilePaths(c: Course, row: nat, col: nat, stage: Stage)
    requires Sound(c) && row < |c.origins| && TileAnchors(c, row, col, stage).Ok?
    ensures DistinctPaths(TileAnchors(c, row, col, stage).value)
    ensures forall a :: a in TileAnchors(c, row, col, stage).value ==> Placed(a, row, col + 1) && a.body.col == col
  {
    var t, counts := TileOf(c, row, col, stage), c.countsForTile(row, col, stage);
    TileSlotIndices(t, counts);
    AnchorPaths(c, row, col, stage, c.origins[row][col], StageSlotsSpec(t, counts).value);
  }

  lemma PathsOfPlacesDiffer(a: Grounding.Anchor, b: Grounding.Anchor, row: nat, row': nat, cols: nat)
    requires Placed(a, row, cols) && Placed(b, row', cols)
    requires row != row' || a.body.col != b.body.col
    ensures a.body.primPath != b.body.primPath
  {
    var c: Class, col: nat, slot: nat :| a.body.col == col && a.body.primPath == PrimPath(c, row, col, slot);
    var c': Class, col': nat, slot': nat :| b.body.col == col' && b.body.primPath == PrimPath(c', row', col', slot');
    if PrimPath(c, row, col, slot) == PrimPath(c', row', col', slot') {
      PrimPathInjective(c, row, col, slot, c', row', col', slot');
    }
  }

  lemma AppendDistinct(a: seq<Grounding.Anchor>, b: seq<Grounding.Anchor>)
    requires DistinctPaths(a) && DistinctPaths(b)
    requires forall x, y :: x in a && y in b ==> x.body.primPath != y.body.primPath
    ensures DistinctPaths(a + b)
  {
  }

  lemma ExtendRow(before: seq<Grounding.Anchor>, own: seq<Grounding.Anchor>, row: nat, col: nat)
    requires DistinctPaths(before) && DistinctPaths(own)
    requires forall a :: a in before ==> Placed(a, row, col)
    requires forall a :: a in own ==> Placed(a, row, col + 1) && a.body.col == col
    ensures DistinctPaths(before + own)
    ensures forall a :: a in before + own ==> Placed(a, row, col + 1)
  {
    forall a | a in before ensures Placed(a, row, col + 1) && a.body.col < col {
      PlacedWider(a, row, col, col + 1);
    }
    forall x, y | x in before && y in own ensures x.body.primPath != y.body.primPath {
      PathsOfPlacesDiffer(x, y, row, row, col + 1);
    }
    AppendDistinct(before, own);
  }

  lemma {:induction false} RowPaths(c: Course, row: nat, cols: nat, stage: Stage)
    requires Sound(c) && row < |c.origins| && RowAnchors(c, row, cols, stage).Ok?
    ensures DistinctPaths(RowAnchors(c, row, cols, stage).value)
    ensures forall a :: a in RowAnchors(c, row, cols, stage).value ==> Placed(a, row, cols)
  {
    hide TileAnchors;
    if cols > 0 {
      RowPaths(c, row, cols - 1, stage);
      TilePaths(c, row, cols - 1, stage);
      ExtendRow(RowAnchors(c, row, cols - 1, stage).value, TileAnchors(c, row, cols - 1, stage).value, row, cols - 1);
    }
  }

  lemma PlacedWider(a: Grounding.Anchor, row: nat, cols: nat, more: nat)
    requires Placed(a, row, cols) && cols <= more
    ensures Placed(a, row, more) && a.body.col < cols
  {
    var c: Class, col: nat, slot: nat :|
      col < cols && a.body.col == col && a.body.row == row && a.body.primPath == PrimPath(c, row, col, slot);
    assert col < more;
  }

  lemma StageRowPaths(c: Course, row: nat)
    requires Sound(c) && row < |c.origins| && StageRow(c, row).Ok?
    ensures DistinctPaths(StageRow(c, row).value)
    ensures forall a :: a in StageRow(c, row).value ==> Placed(a, row, NumCols(c))
  {
    RowPaths(c, row, NumCols(c), StageForRow(row, |c.origins|).value);
  }

  lemma {:induction false} CoursePaths(c: Course, rows: nat)
    requires Sound(c) && rows <= |c.origins| && CourseRows(c, rows).Ok?
    ensures DistinctPaths(CourseRows(c, rows).value)
    ensures forall a :: a in CourseRows(c, rows).value ==> exists row: nat :: row < rows && Placed(a, row, NumCols(c))
  {
    hide StageRow, Placed, Sound;
    if rows > 0 {
      CoursePaths(c, rows - 1);
      StageRowPaths(c, rows - 1);
      var before, own := CourseRows(c, rows - 1).value, StageRow(c, rows - 1).value;
      forall x, y | x in before && y in own ensures x.body.primPath != y.body.primPath {
        var row: nat :| row < rows - 1 && Placed(x, row, NumCols(c));
        PathsOfPlacesDiffer(x, y, row, rows - 1, NumCols(c));
      }
      AppendDistinct(before, own);
    }
  }

  /** Main result: the anchors of a course never share a scene path. */
  lemma {:induction false} CourseNeverRepeatsPath(c: Course)
    requires Sound(c) && CourseRows(c, |c.origins|).Ok?
    ensures DistinctPaths(CourseRows(c, |c.origins|).value)
  {
    CoursePaths(c, |c.origins|);
  }

  // ---- Places ----

  /** The anchor was made from a slot of its own tile. */
  ghost predicate FromTile(c: Course, a: Grounding.Anchor, row: nat, col: nat, stage: Stage, s: Slot) {
    row < |c.origins| && col < |c.origins[row]| && StageForRow(row, |c.origins|) == Ok(stage) &&
    var layout := StageSlotsSpec(TileOf(c, row, col, stage), c.countsForTile(row, col, stage));
    layout.Ok? && s in layout.value && a == AnchorOf(c, row, col, stage, c.origins[row][col], s)
  }

  lemma {:induction false} RowAnchorsFromTiles(c: Course, row: nat, cols: nat, stage: Stage, a: Grounding.Anchor)
    requires row < |c.origins| && StageForRow(row, |c.origins|) == Ok(stage)
    requires RowAnchors(c, row, cols, stage).Ok? && a in RowAnchors(c, row, cols, stage).value
    ensures exists col: nat, s :: col < cols && FromTile(c, a, row, col, stage, s)
  {
    hide StageSlotsSpec;
    if a in RowAnchors(c, row, cols - 1, stage).value {
      RowAnchorsFromTiles(c, row, cols - 1, stage, a);
    } else {
      var own := TileAnchors(c, row, cols - 1, stage).value;
      var slots := StageSlotsSpec(TileOf(c, row, cols - 1, stage), c.countsForTile(row, cols - 1, stage)).value;
      var i :| 0 <= i < |own| && own[i] == a;
      assert FromTile(c, a, row, cols - 1, stage, slots[i]);
    }
  }

  lemma {:induction false} CourseAnchorsFromTiles(c: Course, rows: nat, a: Grounding.Anchor)
    requires rows <= |c.origins| && CourseRows(c, rows).Ok? && a in CourseRows(c, rows).value
    ensures exists row: nat, col: nat, stage, s :: row < rows && FromTile(c, a, row, col, stage, s)
  {
    hide FromTile;
    if a in CourseRows(c, rows - 1).value {
      CourseAnchorsFromTiles(c, rows - 1, a);
    } else {
      var stage := StageForRow(rows - 1, |c.origins|).value;
      RowAnchorsFromTiles(c, rows - 1, NumCols(c), stage, a);
    }
  }

  /** The anchor keeps clear of the centre of its tile and, if its slot was given attempts, of the tile's borders;
      the point every tile must contain is exempt. */
  ghost predicate WellPlaced(c: Course, a: Grounding.Anchor, row: nat, col: nat, stage: Stage, cls: Class)
    requires row < |c.origins| && col < |c.origins[row]|
  {
    var t, o := TileOf(c, row, col, stage), c.origins[row][col];
    var p := (a.worldXy.0 - o.0, a.worldXy.1 - o.1);
    a.body.row == row && a.body.col == col && a.body.stage == StageName(stage) &&
    a.body.semanticClass == ClassName(cls) &&
    (c.mandatory == Some(p) || (OutsideCenter(t, p) && (t.cfg.maxAttempts > 0 ==> InBox(t, Radius(t, cls), p))))
  }

  /** Main result: every anchor of a course lies in the tile and carries the stage of its own row and column, clear of
      the tile's centre and borders. */
  lemma {:induction false} CourseIsWellPlaced(c: Course, a: Grounding.Anchor)
    requires Sound(c) && CourseRows(c, |c.origins|).Ok? && a in CourseRows(c, |c.origins|).value
    ensures exists row: nat, col: nat, stage, cls :: row < |c.origins| && col < |c.origins[row]| &&
              StageForRow(row, |c.origins|) == Ok(stage) && WellPlaced(c, a, row, col, stage, cls)
  {
    CourseAnchorsFromTiles(c, |c.origins|, a);
    var row: nat, col: nat, stage, s :| row < |c.origins| && FromTile(c, a, row, col, stage, s);
    SlotIsWellPlaced(c, a, row, col, stage, s);
  }

  lemma {:induction false} SlotIsWellPlaced(c: Course, a: Grounding.Anchor, row: nat, col: nat, stage: Stage, s: Slot)
    requires Sound(c) && FromTile(c, a, row, col, stage, s)
    ensures WellPlaced(c, a, row, col, stage, s.cls)
  {
    var t, counts := TileOf(c, row, col, stage), c.countsForTile(row, col, stage);
    if IsMandatory(t, counts, s) {
      MandatoryPoint(t, counts, s);
    } else {
      LayoutIsSafe(t, counts);
      LayoutInsideTile(t, counts, s);
    }
  }

  /** The slot with the mandatory one's class and index is the mandatory one. */
  lemma {:induction false} MandatoryPoint(t: Tile, counts: Counts, s: Slot)
    requires UnitHash(t) && counts.small >= 0 && StageSlotsSpec(t, counts).Ok? && s in StageSlotsSpec(t, counts).value
    requires IsMandatory(t, counts, s)
    ensures t.mandatory == Some(s.xy)
  {
    OutputShape(t, counts);
    PartsSafe(t, counts);
    assert |SmallSlots(t, counts).value| == counts.small;
  }
}
