/** What every anchor of a course says of itself, which anchors there are, and how far apart they stand in the world. */
module CourseGeometry {
  import opened Common
  import opened Decimals
  import opened Layout
  import opened LayoutSafety
  import opened LayoutGeometry
  import opened StageBands
  import opened CourseAnchors
  import Grounding

  const STAGES: seq<Stage> := [S1, S2, S3, S4]
  const STAGE_NAMES := ["S1", "S2", "S3", "S4"]

  /** The quarter of the course a row begins in. */
  ghost function Quarter(c: Course, row: nat): int
    requires row < |c.origins|
    ensures 0 <= Quarter(c, row) < 4
  {
    QuarterInRange(row, |c.origins|);
    4 * row / |c.origins|
  }

  lemma {:induction false} QuarterInRange(row: nat, n: nat)
    requires row < n
    ensures 0 <= 4 * row / n < 4
  {
  }

  /** The tile in row and column, as the placer is called for it. */
  ghost function TileAt(c: Course, row: nat, col: nat): Tile
    requires row < |c.origins|
  {
    Tile(c.size, c.cfgForRow(row), c.smallDiameter, c.largeDiameter, c.mandatory, c.seed, STAGE_NAMES[Quarter(c, row)],
         row, col, c.hash)
  }

  ghost function CountsAt(c: Course, row: nat, col: nat): Counts
    requires row < |c.origins|
  {
    c.countsForTile(row, col, STAGES[Quarter(c, row)])
  }

  lemma {:induction false} StageOfRow(c: Course, row: nat)
    requires row < |c.origins|
    ensures StageForRow(row, |c.origins|) == Ok(STAGES[Quarter(c, row)])
    ensures StageName(STAGES[Quarter(c, row)]) == STAGE_NAMES[Quarter(c, row)]
  {
    StageForRowFinds(row, |c.origins|);
    assert row * 4 == 4 * row;
    var s := StageForRow(row, |c.origins|).value;
    assert STAGES[Index(s)] == s;
  }

  /** The scene path in full. */
  ghost predicate PathReads(path: string, small: bool, row: nat, col: nat, slot: nat) {
    exists r, k, s :: Padded(r, row) && Padded(k, col) && Padded(s, slot) &&
      path ==
        "/World/semantic_course/" + (if small then "small" else "large") + "/row_" + r + "/col_" + k + "/slot_" + s
  }

  /** A decimal of at least two digits, with a zero before it only where there would be one digit. */
  ghost predicate Padded(s: string, n: nat) {
    AllDigits(s) && Read(s) == n && |s| >= 2 && (s[0] == '0' ==> n < 10 && |s| == 2)
  }

  /** What an anchor says of its slot, its tile and its course. */
  ghost predicate Describes(c: Course, a: Grounding.Anchor, row: nat, col: nat, s: Slot)
    requires row < |c.origins| && col < |c.origins[row]|
  {
    var b, small := a.body, s.cls == Small;
    && b.row == row && b.col == col && b.stage == STAGE_NAMES[Quarter(c, row)]
    && b.semanticClass == (if small then "small" else "large") && b.slotIndex == s.slotIndex
    && (b.shape, b.groundOffset) == c.shape(STAGES[Quarter(c, row)], row, col, s.slotIndex, s.cls)
    && b.targetDiameter == (if small then c.smallDiameter else c.largeDiameter)
    && b.targetHeight == (if small then c.smallHeight else c.largeHeight)
    && b.localXy == s.xy && a.worldXy.0 == c.origins[row][col].0 + s.xy.0
    && a.worldXy.1 == c.origins[row][col].1 + s.xy.1 && a.layoutFallbackUsed == s.fallback
    && (s.slotIndex >= 0 ==> PathReads(b.primPath, small, row, col, s.slotIndex))
  }

  lemma {:induction false} PathOfSlotReads(row: nat, col: nat, s: Slot)
    requires s.slotIndex >= 0
    ensures PathReads(PathOf(row, col, s), s.cls == Small, row, col, s.slotIndex)
  {
    TwoDigitsPadded(row);
    TwoDigitsPadded(col);
    TwoDigitsPadded(s.slotIndex);
    hide TwoDigits, Padded;
    var r, k, n := TwoDigits(row), TwoDigits(col), TwoDigits(s.slotIndex);
    var root := "/World/semantic_course/" + (if s.cls == Small then "small" else "large");
    assert PathOf(row, col, s) == root + "/row_" + r + "/col_" + k + "/slot_" + n;
  }

  lemma {:induction false} TwoDigitsPadded(n: nat)
    ensures Padded(TwoDigits(n), n)
  {
    ReadTwoDigits(n);
    if n >= 10 {
      NoLeadingZero(n);
    }
  }

  lemma {:induction false} NoLeadingZero(n: nat)
    requires n >= 10
    ensures |Decimal(n)| >= 2 && Decimal(n)[0] != '0'
  {
    if n >= 100 {
      NoLeadingZero(n / 10);
    }
  }

  lemma {:induction false} AnchorDescribes(c: Course, row: nat, col: nat, s: Slot)
    requires row < |c.origins| && col < |c.origins[row]|
    ensures Describes(c, AnchorOf(c, row, col, STAGES[Quarter(c, row)], c.origins[row][col], s), row, col, s)
  {
    StageOfRow(c, row);
    if s.slotIndex >= 0 {
      PathOfSlotReads(row, col, s);
    }
    hide PathOf, PathReads;
  }

  // ---- Which anchors there are ----

  /** The slots of a tile. */
  ghost function LayoutAt(c: Course, row: nat, col: nat): Result<seq<Slot>, LayoutError>
    requires row < |c.origins|
  {
    StageSlotsSpec(TileAt(c, row, col), CountsAt(c, row, col))
  }

  /** The anchors of a tile, slot by slot. */
  ghost predicate DescribesTile(c: Course, anchors: seq<Grounding.Anchor>, row: nat, col: nat) {
    row < |c.origins| && col < |c.origins[row]| && LayoutAt(c, row, col).Ok? &&
    |anchors| == |LayoutAt(c, row, col).value| &&
    forall i :: 0 <= i < |anchors| ==> Describes(c, anchors[i], row, col, LayoutAt(c, row, col).value[i])
  }

  lemma {:induction false} TileDescribed(c: Course, row: nat, col: nat)
    requires row < |c.origins|
    ensures var r := TileAnchors(c, row, col, STAGES[Quarter(c, row)]);
            match r
            case Ok(anchors) => DescribesTile(c, anchors, row, col)
            case Err(e) =>
              if col >= |c.origins[row]| then e == MissingOrigin
              else LayoutAt(c, row, col).Err? && e == BadLayout(LayoutAt(c, row, col).error)
  {
    StageOfRow(c, row);
    hide StageSlotsSpec, AnchorOf, Describes;
    var r := TileAnchors(c, row, col, STAGES[Quarter(c, row)]);
    if r.Ok? {
      forall i | 0 <= i < |r.value| ensures Describes(c, r.value[i], row, col, LayoutAt(c, row, col).value[i]) {
        AnchorDescribes(c, row, col, LayoutAt(c, row, col).value[i]);
      }
    }
  }

  /** The anchors of several tiles, one block after the other. */
  ghost function Joined(blocks: seq<seq<Grounding.Anchor>>): seq<Grounding.Anchor> {
    if blocks == [] then [] else
      var n := |blocks| - 1;
      Joined(blocks[..n]) + blocks[n]
  }

  /** The n-th block, in row order with `cols` to a row, describes its tile. */
  ghost predicate DescribesBlocks(c: Course, blocks: seq<seq<Grounding.Anchor>>, row: nat, cols: nat) {
    |blocks| == cols && forall col :: 0 <= col < cols ==> DescribesTile(c, blocks[col], row, col)
  }

  lemma {:induction false} RowDescribed(c: Course, row: nat, cols: nat) returns (blocks: seq<seq<Grounding.Anchor>>)
    requires row < |c.origins| && RowAnchors(c, row, cols, STAGES[Quarter(c, row)]).Ok?
    ensures DescribesBlocks(c, blocks, row, cols)
    ensures RowAnchors(c, row, cols, STAGES[Quarter(c, row)]).value == Joined(blocks)
  {
    hide TileAnchors, DescribesTile, Quarter;
    blocks := [];
    if cols > 0 {
      var before := RowDescribed(c, row, cols - 1);
      TileDescribed(c, row, cols - 1);
      var own := TileAnchors(c, row, cols - 1, STAGES[Quarter(c, row)]).value;
      blocks := before + [own];
      assert blocks[..cols - 1] == before;
    }
  }

  /** All rows, each with the columns of the first. */
  ghost predicate DescribesRows(c: Course, rows: seq<seq<seq<Grounding.Anchor>>>) {
    |rows| <= |c.origins| &&
    forall row :: 0 <= row < |rows| ==> DescribesBlocks(c, rows[row], row, |c.origins[0]|)
  }

  ghost function JoinedRows(rows: seq<seq<seq<Grounding.Anchor>>>): seq<Grounding.Anchor> {
    if rows == [] then [] else
      var n := |rows| - 1;
      JoinedRows(rows[..n]) + Joined(rows[n])
  }

  /** Main result: a course is, row by row and in each row column by column, the anchors of its tiles, and these are,
      slot by slot, what the layout of the tile asks for. */
  lemma {:induction false} CourseDescribed(c: Course, n: nat) returns (rows: seq<seq<seq<Grounding.Anchor>>>)
    requires n <= |c.origins| && CourseRows(c, n).Ok?
    ensures |rows| == n && DescribesRows(c, rows) && CourseRows(c, n).value == JoinedRows(rows)
  {
    hide RowAnchors, DescribesBlocks;
    rows := [];
    if n > 0 {
      var before := CourseDescribed(c, n - 1);
      StageOfRow(c, n - 1);
      var own := RowDescribed(c, n - 1, |c.origins[0]|);
      rows := before + [own];
      assert rows[..n - 1] == before;
    }
  }

  // ---- When there is no course ----

  ghost predicate TileWorks(c: Course, row: nat, col: nat) {
    row < |c.origins| && col < |c.origins[row]| && LayoutAt(c, row, col).Ok?
  }

  lemma {:induction false} RowWorks(c: Course, row: nat, cols: nat)
    requires row < |c.origins|
    ensures RowAnchors(c, row, cols, STAGES[Quarter(c, row)]).Ok? <==>
            forall col: nat :: col < cols ==> TileWorks(c, row, col)
  {
    hide TileAnchors, LayoutAt, Quarter, DescribesTile;
    if cols > 0 {
      RowWorks(c, row, cols - 1);
      TileDescribed(c, row, cols - 1);
      assert TileAnchors(c, row, cols - 1, STAGES[Quarter(c, row)]).Ok? <==> TileWorks(c, row, cols - 1) by {
        TileOkMeans(c, row, cols - 1);
      }
    }
  }

  lemma {:induction false} TileOkMeans(c: Course, row: nat, col: nat)
    requires row < |c.origins|
    ensures TileAnchors(c, row, col, STAGES[Quarter(c, row)]).Ok? <==> TileWorks(c, row, col)
  {
    TileDescribed(c, row, col);
    hide TileAnchors, Describes, LayoutAt, Quarter;
  }

  /** Main result: there is a course exactly when every tile, with as many columns as the first row has, has an origin
      and a layout. */
  lemma {:induction false} CourseExactlyWhen(c: Course, n: nat)
    requires n <= |c.origins|
    ensures CourseRows(c, n).Ok? <==>
            forall row: nat, col: nat :: row < n && col < |c.origins[0]| ==> TileWorks(c, row, col)
  {
    hide RowAnchors, TileWorks;
    if n > 0 {
      CourseExactlyWhen(c, n - 1);
      StageOfRow(c, n - 1);
      RowWorks(c, n - 1, |c.origins[0]|);
    }
  }

  // ---- Distances in the world ----

  ghost predicate First(c: Course, row: nat, col: nat, a: Grounding.Anchor)
    requires row < |c.origins|
  {
    c.mandatory.Some? && a.body.semanticClass == "small" && a.body.slotIndex == CountsAt(c, row, col).small
  }

  /** The turn of a came before that of b: the mandatory anchor first, then the large ones, then the small ones. */
  ghost predicate InOrder(c: Course, row: nat, col: nat, a: Grounding.Anchor, b: Grounding.Anchor)
    requires row < |c.origins|
  {
    if First(c, row, col, a) || First(c, row, col, b) then !First(c, row, col, b)
    else if a.body.semanticClass != b.body.semanticClass then a.body.semanticClass == "large"
    else a.body.slotIndex < b.body.slotIndex
  }

  lemma {:induction false} TurnsAgree(c: Course, a: Grounding.Anchor, b: Grounding.Anchor, row: nat, col: nat, s: Slot,
                                      l: Slot)
    requires row < |c.origins| && col < |c.origins[row]| && Describes(c, a, row, col, s) && Describes(c, b, row, col, l)
    requires InOrder(c, row, col, a, b)
    ensures PlacedBefore(TileAt(c, row, col), CountsAt(c, row, col), s, l)
  {
    hide PathReads, CountsAt, Quarter;
    assert "small"[0] != "large"[0];
  }

  /** Main result: two anchors of a tile keep the clearance between their rims in the world, unless the one whose turn
      came later is a fallback. */
  lemma {:induction false} AnchorsAreApart(c: Course, anchors: seq<Grounding.Anchor>, row: nat, col: nat, i: nat,
                                           j: nat)
    requires Sound(c) && DescribesTile(c, anchors, row, col) && i < |anchors| && j < |anchors|
    requires InOrder(c, row, col, anchors[i], anchors[j]) && !anchors[j].layoutFallbackUsed
    ensures var a, b := anchors[i], anchors[j];
            var d := (a.body.targetDiameter + b.body.targetDiameter) / 2.0 + c.cfgForRow(row).clearance;
            var (x, y) := (a.worldXy.0 - b.worldXy.0, a.worldXy.1 - b.worldXy.1);
            d <= 0.0 || x * x + y * y >= d * d
  {
    hide *;
    TileSlot(c, anchors, row, col, i);
    TileSlot(c, anchors, row, col, j);
    var s, l := LayoutAt(c, row, col).value[i], LayoutAt(c, row, col).value[j];
    TurnsAgree(c, anchors[i], anchors[j], row, col, s, l);
    SlotsAreApart(c, row, col, s, l);
    SameDistance(c, anchors[i], anchors[j], row, col, s, l);
  }

  lemma {:induction false} TileSlot(c: Course, anchors: seq<Grounding.Anchor>, row: nat, col: nat, i: nat)
    requires DescribesTile(c, anchors, row, col) && i < |anchors|
    ensures row < |c.origins| && col < |c.origins[row]| && LayoutAt(c, row, col).Ok? &&
            i < |LayoutAt(c, row, col).value|
    ensures var s := LayoutAt(c, row, col).value[i];
            s in LayoutAt(c, row, col).value && Describes(c, anchors[i], row, col, s) &&
            s.fallback == anchors[i].layoutFallbackUsed
  {
    hide LayoutAt, PathReads, Quarter;
  }

  lemma {:induction false} SlotsAreApart(c: Course, row: nat, col: nat, s: Slot, l: Slot)
    requires Sound(c) && row < |c.origins| && LayoutAt(c, row, col).Ok?
    requires s in LayoutAt(c, row, col).value && l in LayoutAt(c, row, col).value
    requires PlacedBefore(TileAt(c, row, col), CountsAt(c, row, col), s, l) && !l.fallback
    ensures ApartSlots(TileAt(c, row, col), l, s)
  {
    assert UnitHash(TileAt(c, row, col));
    hide StageSlotsSpec, CountsAt, TileAt, PlacedBefore, ApartSlots, Quarter;
    LayoutIsSafe(TileAt(c, row, col), CountsAt(c, row, col));
  }

  lemma {:induction false} SameDistance(c: Course, a: Grounding.Anchor, b: Grounding.Anchor, row: nat, col: nat,
                                        s: Slot, l: Slot)
    requires row < |c.origins| && col < |c.origins[row]| && Describes(c, a, row, col, s) && Describes(c, b, row, col, l)
    requires ApartSlots(TileAt(c, row, col), l, s)
    ensures var d := (a.body.targetDiameter + b.body.targetDiameter) / 2.0 + c.cfgForRow(row).clearance;
            var (x, y) := (a.worldXy.0 - b.worldXy.0, a.worldXy.1 - b.worldXy.1);
            d <= 0.0 || x * x + y * y >= d * d
  {
    hide PathReads;
    var (x, y) := (a.worldXy.0 - b.worldXy.0, a.worldXy.1 - b.worldXy.1);
    var (u, v) := (l.xy.0 - s.xy.0, l.xy.1 - s.xy.1);
    assert x == -u && y == -v;
    assert x * x == u * u && y * y == v * v;
    var t := TileAt(c, row, col);
    assert Radius(t, l.cls) + Radius(t, s.cls) + t.cfg.clearance ==
           (a.body.targetDiameter + b.body.targetDiameter) / 2.0 + c.cfgForRow(row).clearance;
  }
}
