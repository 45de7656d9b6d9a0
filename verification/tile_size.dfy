/** Inferring the side lengths of a terrain tile from the grid of tile origins. */
module TileSize {
  import opened Common
  import opened OrderStatistics

  /** A component of an origin: a float, or something that cannot be read as one. */
  datatype Component = Number(f: Float) | Unreadable

  datatype Origin = Origin(x: Component, y: Component)

  /** Rows of origins; rows may be ragged, missing entries are skipped like unreadable ones. */
  type Grid = seq<seq<Origin>>

  datatype SizeError = BadFallback | UnsupportedAxis

  function ComponentAt(g: Grid, row: int, col: int, axis: int): Component {
    if 0 <= row < |g| && 0 <= col < |g[row]| then
      (if axis == 0 then g[row][col].x else g[row][col].y)
    else Unreadable
  }

  /** The positive finite difference of two components, as a list of none or one. */
  function PositiveDiff(a: Component, b: Component): (d: seq<real>)
    ensures |d| <= 1 && forall x :: x in d ==> x > 0.0
  {
    if a.Number? && b.Number? && a.f.Finite? && b.f.Finite? && Abs(a.f.v - b.f.v) > 0.0 then
      [Abs(a.f.v - b.f.v)]
    else []
  }

  function NumCols(g: Grid): nat {
    if g == [] then 0 else |g[0]|
  }

  /** The differences along one line of the grid: down column `line` for axis 0, along row `line` for axis 1. */
  function LineDiffs(g: Grid, axis: int, line: int, upto: int): (ds: seq<real>)
    decreases upto
  {
    if upto <= 0 then [] else
      LineDiffs(g, axis, line, upto - 1) + NextDiff(g, axis, line, upto)
  }

  /** The difference between an entry of a line and the one before. */
  function NextDiff(g: Grid, axis: int, line: int, at: int): (d: seq<real>)
    ensures |d| <= 1 && forall x :: x in d ==> x > 0.0
  {
    if axis == 0 then PositiveDiff(ComponentAt(g, at, line, 0), ComponentAt(g, at - 1, line, 0))
    else PositiveDiff(ComponentAt(g, line, at, 1), ComponentAt(g, line, at - 1, 1))
  }

  function AllDiffs(g: Grid, axis: int, lines: int, steps: int): (ds: seq<real>)
    decreases lines
  {
    if lines <= 0 then [] else AllDiffs(g, axis, lines - 1, steps) + LineDiffs(g, axis, lines - 1, steps)
  }

  /** Every positive finite difference of neighbouring origins along an axis. */
  function AxisDiffs(g: Grid, axis: int): (ds: seq<real>)
  {
    if axis == 0 then AllDiffs(g, 0, NumCols(g), |g| - 1) else AllDiffs(g, 1, |g|, NumCols(g) - 1)
  }

  /** Python's `statistics.median`. */
  function Median(ds: seq<real>): (m: real)
    requires ds != []
  {
    var o := Ordered(ds);
    var n := |o|;
    if n % 2 == 1 then o[n / 2] else (o[n / 2 - 1] + o[n / 2]) / 2.0
  }

  function InferredSpacing(g: Grid, axis: int): Option<real> {
    if AxisDiffs(g, axis) == [] then None else Some(Median(AxisDiffs(g, axis)))
  }

  lemma {:induction false} LineGrows(g: Grid, axis: int, line: int, upto: nat)
    requires axis == 0 || axis == 1
    ensures LineDiffs(g, axis, line, upto + 1) == LineDiffs(g, axis, line, upto) + NextDiff(g, axis, line, upto + 1)
  {
  }

  lemma {:induction false} LinesGrow(g: Grid, axis: int, lines: nat, steps: int)
    ensures AllDiffs(g, axis, lines + 1, steps) == AllDiffs(g, axis, lines, steps) + LineDiffs(g, axis, lines, steps)
    ensures LineDiffs(g, axis, lines, if steps > 0 then steps else 0) == LineDiffs(g, axis, lines, steps)
    ensures AllDiffs(g, axis, 0, steps) == [] && LineDiffs(g, axis, lines, 0) == []
  {
  }

  method DiffsDownColumns(g: Grid) returns (diffs: seq<real>)
    ensures diffs == AxisDiffs(g, 0)
  {
    hide LineDiffs, AllDiffs, PositiveDiff, ComponentAt;
    var numRows: int := |g|;
    diffs := [];
    LinesGrow(g, 0, 0, numRows - 1);
    for col := 0 to NumCols(g)
      invariant diffs == AllDiffs(g, 0, col, numRows - 1)
    {
      LinesGrow(g, 0, col, numRows - 1);
      ghost var before := diffs;
      var row := 0;
      while row < numRows - 1
        invariant 0 <= row <= if numRows > 1 then numRows - 1 else 0
        invariant diffs == before + LineDiffs(g, 0, col, row)
      {
        LineGrows(g, 0, col, row);
        diffs := diffs + PositiveDiff(ComponentAt(g, row + 1, col, 0), ComponentAt(g, row, col, 0));
        row := row + 1;
      }
    }
  }

  method DiffsAlongRows(g: Grid) returns (diffs: seq<real>)
    ensures diffs == AxisDiffs(g, 1)
  {
    hide LineDiffs, AllDiffs, PositiveDiff, ComponentAt;
    var numCols: int := NumCols(g);
    diffs := [];
    LinesGrow(g, 1, 0, numCols - 1);
    for row := 0 to |g|
      invariant diffs == AllDiffs(g, 1, row, numCols - 1)
    {
      LinesGrow(g, 1, row, numCols - 1);
      ghost var before := diffs;
      var col := 0;
      while col < numCols - 1
        invariant 0 <= col <= if numCols > 1 then numCols - 1 else 0
        invariant diffs == before + LineDiffs(g, 1, row, col)
      {
        LineGrows(g, 1, row, col);
        diffs := diffs + PositiveDiff(ComponentAt(g, row, col + 1, 1), ComponentAt(g, row, col, 1));
        col := col + 1;
      }
    }
  }

  method InferAxisSpacing(g: Grid, axis: int) returns (r: Result<Option<real>, SizeError>)
    ensures axis == 0 || axis == 1 ==> r == Ok(InferredSpacing(g, axis))
    ensures axis != 0 && axis != 1 ==> r == Err(UnsupportedAxis)
  {
    var diffs;
    if axis == 0 {
      diffs := DiffsDownColumns(g);
    } else if axis == 1 {
      diffs := DiffsAlongRows(g);
    } else {
      return Err(UnsupportedAxis);
    }
    return Ok(if diffs == [] then None else Some(Median(diffs)));
  }

  predicate PositivePair(size: (Float, Float)) {
    size.0.Finite? && size.1.Finite? && size.0.v > 0.0 && size.1.v > 0.0
  }

  /** `generator` is the size of the terrain generator, None where there is no readable one. */
  function ResolveTileSize(g: Grid, generator: Option<(Float, Float)>,
                           fallback: (Float, Float)): Result<Point, SizeError> {
    if !PositivePair(fallback) then Err(BadFallback)
    else if generator.Some? && PositivePair(generator.value) then Ok((generator.value.0.v, generator.value.1.v))
    else
      var x, y := InferredSpacing(g, 0), InferredSpacing(g, 1);
      Ok((if x.Some? then x.value else fallback.0.v, if y.Some? then y.value else fallback.1.v))
  }

  // ---- The median ----

  /** A value held by more than half of the entries is the median. */
  lemma {:induction false} MajorityIsMedian(ds: seq<real>, d: real)
    requires 2 * CountEq(ds, d) > |ds|
    ensures ds != [] && Median(ds) == d
  {
    var n := |ds|;
    CountsSplit(ds, d);
    CountsTotal(ds, d);
    OrderedRank(ds, n / 2, d);
    if n % 2 == 0 {
      OrderedRank(ds, n / 2 - 1, d);
    }
  }

  lemma {:induction false} CountsTotal(s: seq<real>, x: real)
    ensures CountLt(s, x) + CountEq(s, x) <= |s|
  {
    if s != [] {
      CountsTotal(s[1..], x);
    }
  }

  lemma {:induction false} LineDiffsPositive(g: Grid, axis: int, line: int, upto: int)
    ensures forall x :: x in LineDiffs(g, axis, line, upto) ==> x > 0.0
    decreases upto
  {
    if upto > 0 {
      LineDiffsPositive(g, axis, line, upto - 1);
    }
  }

  lemma {:induction false} AllDiffsPositive(g: Grid, axis: int, lines: int, steps: int)
    ensures forall x :: x in AllDiffs(g, axis, lines, steps) ==> x > 0.0
    decreases lines
  {
    if lines > 0 {
      AllDiffsPositive(g, axis, lines - 1, steps);
      LineDiffsPositive(g, axis, lines - 1, steps);
    }
  }

  lemma {:induction false} InferredSpacingPositive(g: Grid, axis: int)
    ensures InferredSpacing(g, axis).Some? ==> InferredSpacing(g, axis).value > 0.0
  {
    AllDiffsPositive(g, 0, NumCols(g), |g| - 1);
    AllDiffsPositive(g, 1, |g|, NumCols(g) - 1);
    hide AllDiffs, Median, NumCols;
    if AxisDiffs(g, axis) != [] {
      MedianBetween(AxisDiffs(g, axis));
    }
  }

  lemma {:induction false} MedianBetween(ds: seq<real>)
    requires ds != []
    ensures exists a, b :: a in ds && b in ds && a <= Median(ds) <= b
  {
    var o, n := Ordered(ds), |ds|;
    OrderedMultiset(ds);
    var a, b := if n % 2 == 1 then o[n / 2] else o[n / 2 - 1], o[n / 2];
    assert a in multiset(o) && b in multiset(o);
    assert a in ds && b in ds && a <= Median(ds) <= b;
  }

  /** Main result: if more than half of the positive differences along an axis are d, the inferred spacing is d. */
  lemma {:induction false} MajoritySpacing(g: Grid, axis: int, d: real)
    requires 2 * CountEq(AxisDiffs(g, axis), d) > |AxisDiffs(g, axis)|
    ensures InferredSpacing(g, axis) == Some(d)
  {
    MajorityIsMedian(AxisDiffs(g, axis), d);
  }

  /** Main result: a resolved tile size is positive on both sides; it fails exactly on a bad fallback. */
  lemma {:induction false} ResolvedSizePositive(g: Grid, generator: Option<(Float, Float)>, fallback: (Float, Float))
    ensures ResolveTileSize(g, generator, fallback).Ok? <==> PositivePair(fallback)
    ensures ResolveTileSize(g, generator, fallback).Ok? ==>
            ResolveTileSize(g, generator, fallback).value.0 > 0.0 &&
            ResolveTileSize(g, generator, fallback).value.1 > 0.0
  {
    InferredSpacingPositive(g, 0);
    InferredSpacingPositive(g, 1);
  }

  /** Main result: the median has as many entries on either side. Of an odd number it is the middle entry, of an even
      number it lies halfway between the two middle ones. */
  lemma {:induction false} MedianIsMiddle(ds: seq<real>)
    requires ds != []
    ensures |ds| % 2 == 1 ==> AtRank(ds, |ds| / 2, Median(ds))
    ensures |ds| % 2 == 0 ==> Halfway(ds, |ds| / 2 - 1, |ds| / 2, Median(ds))
  {
    var o, n := Ordered(ds), |ds|;
    OrderedAtRank(ds, n / 2);
    if n % 2 == 0 {
      OrderedAtRank(ds, n / 2 - 1);
      assert Median(ds) - o[n / 2 - 1] == o[n / 2] - Median(ds);
    }
  }

  /** An entry with at most k entries below it and more than k not above it. */
  ghost predicate AtRank(ds: seq<real>, k: int, v: real) {
    v in ds && CountLt(ds, v) <= k < CountLe(ds, v)
  }

  ghost predicate Halfway(ds: seq<real>, j: int, k: int, m: real) {
    exists lo, hi :: AtRank(ds, j, lo) && AtRank(ds, k, hi) && m - lo == hi - m
  }

  lemma {:induction false} OrderedAtRank(ds: seq<real>, k: nat)
    requires k < |ds|
    ensures AtRank(ds, k, Ordered(ds)[k])
  {
    var v := Ordered(ds)[k];
    OrderedMultiset(ds);
    assert v in multiset(Ordered(ds));
    OrderedRank(ds, k, v);
  }

  // ---- Which differences there are ----

  /** Two readable components that are d apart, d being positive. */
  ghost predicate ApartBy(a: Component, b: Component, d: real) {
    a.Number? && b.Number? && a.f.Finite? && b.f.Finite? && d > 0.0 && (a.f.v - b.f.v == d || b.f.v - a.f.v == d)
  }

  /** Neighbours in a column, within the width of the first row, whose first components are d apart. */
  ghost predicate DownBy(g: Grid, row: int, col: int, d: real) {
    0 <= row < |g| - 1 && 0 <= col < |g[0]| && col < |g[row]| && col < |g[row + 1]| &&
    ApartBy(g[row][col].x, g[row + 1][col].x, d)
  }

  /** Neighbours in a row, within the width of the first row, whose second components are d apart. */
  ghost predicate AlongBy(g: Grid, row: int, col: int, d: real) {
    0 <= row < |g| && 0 <= col < |g[0]| - 1 && col + 1 < |g[row]| && ApartBy(g[row][col].y, g[row][col + 1].y, d)
  }

  lemma {:induction false} LineDiffsAre(g: Grid, axis: int, line: int, upto: int, d: real)
    ensures d in LineDiffs(g, axis, line, upto) <==> exists at :: 1 <= at <= upto && d in NextDiff(g, axis, line, at)
    decreases upto
  {
    hide NextDiff;
    if upto > 0 {
      LineDiffsAre(g, axis, line, upto - 1, d);
    }
  }

  lemma {:induction false} AllDiffsAre(g: Grid, axis: int, lines: int, steps: int, d: real)
    ensures d in AllDiffs(g, axis, lines, steps) <==>
            exists line, at :: 0 <= line < lines && 1 <= at <= steps && d in NextDiff(g, axis, line, at)
    decreases lines
  {
    hide NextDiff, LineDiffs;
    if lines > 0 {
      AllDiffsAre(g, axis, lines - 1, steps, d);
      LineDiffsAre(g, axis, lines - 1, steps, d);
    }
  }

  /** Main result: the differences are those of readable neighbours along the axis, and no others. */
  lemma {:induction false} AxisDiffsAre(g: Grid, d: real)
    ensures d in AxisDiffs(g, 0) <==> exists row, col :: DownBy(g, row, col, d)
    ensures d in AxisDiffs(g, 1) <==> exists row, col :: AlongBy(g, row, col, d)
  {
    AllDiffsAre(g, 0, NumCols(g), |g| - 1, d);
    AllDiffsAre(g, 1, |g|, NumCols(g) - 1, d);
    hide AllDiffs;
    forall row, col ensures DownBy(g, row, col, d) <==>
                            0 <= col < NumCols(g) && 1 <= row + 1 <= |g| - 1 && d in NextDiff(g, 0, col, row + 1)
    {
    }
    forall row, col ensures AlongBy(g, row, col, d) <==>
                            0 <= row < |g| && 1 <= col + 1 <= NumCols(g) - 1 && d in NextDiff(g, 1, row, col + 1)
    {
    }
    hide DownBy, AlongBy, NextDiff, NumCols;
    if line, at :| 0 <= line < NumCols(g) && 1 <= at <= |g| - 1 && d in NextDiff(g, 0, line, at) {
      assert DownBy(g, at - 1, line, d);
    }
    if line, at :| 0 <= line < |g| && 1 <= at <= NumCols(g) - 1 && d in NextDiff(g, 1, line, at) {
      assert AlongBy(g, line, at - 1, d);
    }
  }

  /** Both sides are positive and finite. */
  ghost predicate Usable(size: (Float, Float)) {
    match size
    case (Finite(x), Finite(y)) => x > 0.0 && y > 0.0
    case _ => false
  }

  /** Main result: a usable generator size wins; otherwise each side is the inferred spacing along its own axis, or the
      fallback's where none can be inferred; an unusable fallback is refused even where it is not needed. */
  lemma {:induction false} ResolvedSizeIs(g: Grid, generator: Option<(Float, Float)>, fallback: (Float, Float))
    ensures var r := ResolveTileSize(g, generator, fallback);
            if !Usable(fallback) then r == Err(BadFallback)
            else if generator.Some? && Usable(generator.value) then
              r.Ok? && generator.value == (Finite(r.value.0), Finite(r.value.1))
            else
              r.Ok? &&
              (if AxisDiffs(g, 0) == [] then Finite(r.value.0) == fallback.0
               else r.value.0 == Median(AxisDiffs(g, 0))) &&
              (if AxisDiffs(g, 1) == [] then Finite(r.value.1) == fallback.1 else r.value.1 == Median(AxisDiffs(g, 1)))
  {
    hide AxisDiffs, Median;
  }

  // ---- Regular grids ----

  ghost predicate StepBy(a: Component, b: Component, d: real) {
    a.Number? && b.Number? && a.f.Finite? && b.f.Finite? && b.f.v == a.f.v + d
  }

  /** The entry in row i, column j lies dx beyond the one in the row before and dy beyond the one in the column
      before. */
  ghost predicate Steps(g: Grid, i: nat, j: nat, dx: real, dy: real)
    requires i < |g| && forall k :: 0 <= k <= i ==> j < |g[k]|
  {
    && (i > 0 ==> StepBy(g[i - 1][j].x, g[i][j].x, dx))
    && (j > 0 ==> StepBy(g[i][j - 1].y, g[i][j].y, dy))
  }

  /** A full grid whose rows are dx apart and whose columns are dy apart; either step may be negative. */
  ghost predicate Regular(g: Grid, rows: nat, cols: nat, dx: real, dy: real) {
    && |g| == rows
    && (forall i :: 0 <= i < rows ==> |g[i]| == cols)
    && (forall i, j :: 0 <= i < rows && 0 <= j < cols ==> Steps(g, i, j, dx, dy))
  }

  ghost predicate AllEqual(ds: seq<real>, d: real) {
    forall x :: x in ds ==> x == d
  }

  lemma {:induction false} AllEqualCount(ds: seq<real>, d: real)
    requires AllEqual(ds, d)
    ensures CountEq(ds, d) == |ds|
  {
    if ds != [] {
      assert ds[0] in ds;
      assert forall x :: x in ds[1..] ==> x in ds;
      AllEqualCount(ds[1..], d);
    }
  }

  /** The step between neighbours along an axis. */
  function AxisStep(dx: real, dy: real, axis: int): real {
    if axis == 0 then dx else dy
  }

  lemma {:induction false} RegularNext(g: Grid, rows: nat, cols: nat, dx: real, dy: real, axis: int, line: nat, at: nat)
    requires Regular(g, rows, cols, dx, dy) && at > 0
    requires if axis == 0 then line < cols && at < rows else line < rows && at < cols
    ensures NextDiff(g, axis, line, at) == if AxisStep(dx, dy, axis) == 0.0 then [] else [Abs(AxisStep(dx, dy, axis))]
  {
    if axis == 0 {
      assert Steps(g, at, line, dx, dy);
    } else {
      assert Steps(g, line, at, dx, dy);
    }
  }

  lemma {:induction false} RegularLine(g: Grid, rows: nat, cols: nat, dx: real, dy: real, axis: int, line: nat,
                                       upto: int)
    requires Regular(g, rows, cols, dx, dy) && upto >= 0
    requires if axis == 0 then line < cols && upto < rows else line < rows && upto < cols
    ensures |LineDiffs(g, axis, line, upto)| == if AxisStep(dx, dy, axis) == 0.0 then 0 else upto
    ensures AllEqual(LineDiffs(g, axis, line, upto), Abs(AxisStep(dx, dy, axis)))
    decreases upto
  {
    hide Regular, NextDiff, Abs, AxisStep;
    if upto > 0 {
      RegularLine(g, rows, cols, dx, dy, axis, line, upto - 1);
      RegularNext(g, rows, cols, dx, dy, axis, line, upto);
    }
  }

  lemma {:induction false} RegularDiffs(g: Grid, rows: nat, cols: nat, dx: real, dy: real, axis: int, lines: nat,
                                        steps: int)
    requires Regular(g, rows, cols, dx, dy)
    requires lines > 0 && steps >= 0 ==>
             if axis == 0 then lines <= cols && steps < rows else lines <= rows && steps < cols
    ensures AllEqual(AllDiffs(g, axis, lines, steps), Abs(AxisStep(dx, dy, axis)))
    ensures AllDiffs(g, axis, lines, steps) == [] <==> lines == 0 || steps <= 0 || AxisStep(dx, dy, axis) == 0.0
  {
    hide Regular, LineDiffs, Abs, AxisStep;
    if lines > 0 {
      RegularDiffs(g, rows, cols, dx, dy, axis, lines - 1, steps);
      if steps >= 0 {
        RegularLine(g, rows, cols, dx, dy, axis, lines - 1, steps);
      } else {
        NoSteps(g, axis, lines - 1, steps);
      }
    }
  }

  lemma {:induction false} NoSteps(g: Grid, axis: int, line: int, steps: int)
    requires steps <= 0
    ensures LineDiffs(g, axis, line, steps) == []
  {
  }

  lemma {:induction false} UniformSpacing(g: Grid, axis: int, d: real)
    requires AxisDiffs(g, axis) != [] && AllEqual(AxisDiffs(g, axis), d)
    ensures InferredSpacing(g, axis) == Some(d)
  {
    AllEqualCount(AxisDiffs(g, axis), d);
    MajoritySpacing(g, axis, d);
  }

  /** The axis has neighbours, and they are apart. */
  predicate HasSpacing(rows: nat, cols: nat, dx: real, dy: real, axis: int) {
    AxisStep(dx, dy, axis) != 0.0 && if axis == 0 then rows >= 2 && cols >= 1 else rows >= 1 && cols >= 2
  }

  lemma {:induction false} RegularAxis(g: Grid, rows: nat, cols: nat, dx: real, dy: real, axis: int)
    requires Regular(g, rows, cols, dx, dy) && (axis == 0 || axis == 1)
    ensures AxisDiffs(g, axis) != [] <==> HasSpacing(rows, cols, dx, dy, axis)
    ensures AllEqual(AxisDiffs(g, axis), Abs(AxisStep(dx, dy, axis)))
  {
    assert |g| == rows && NumCols(g) == if rows == 0 then 0 else cols;
    hide Regular, AllDiffs, AxisStep, Abs, NumCols, AllEqual;
    if axis == 0 {
      RegularDiffs(g, rows, cols, dx, dy, 0, NumCols(g), rows - 1);
    } else {
      RegularDiffs(g, rows, cols, dx, dy, 1, rows, NumCols(g) - 1);
    }
  }

  /** Main result: a regular grid of any size, in either orientation, yields its spacing along an axis exactly when the
      axis has neighbours that are apart, and nothing otherwise. */
  lemma {:induction false} RegularGridSpacing(g: Grid, rows: nat, cols: nat, dx: real, dy: real, axis: int)
    requires Regular(g, rows, cols, dx, dy) && (axis == 0 || axis == 1)
    ensures InferredSpacing(g, axis) ==
            if HasSpacing(rows, cols, dx, dy, axis) then Some(Abs(AxisStep(dx, dy, axis))) else None
  {
    RegularAxis(g, rows, cols, dx, dy, axis);
    if HasSpacing(rows, cols, dx, dy, axis) {
      UniformSpacing(g, axis, Abs(AxisStep(dx, dy, axis)));
    }
  }
}
