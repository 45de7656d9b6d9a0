/** The split of terrain rows into four stage bands. */
module StageBands {
  import opened Common

  datatype Stage = S1 | S2 | S3 | S4

  datatype BandError = BadRowCount | RowOutOfRange | EmptyBand(stage: Stage)

  /** A stage and its rows, from start up to but not including stop. */
  datatype Band = Band(stage: Stage, start: int, stop: int)

  function Index(s: Stage): (i: int)
    ensures 0 <= i < 4
  {
    match s case S1 => 0 case S2 => 1 case S3 => 2 case S4 => 3
  }

  /** The ceiling of a quarter count, for non-negative counts. */
  function CeilQuarter(n: int): int
    requires n >= 0
  {
    (n + 3) / 4
  }

  function StageRowBands(numRows: int): Result<seq<Band>, BandError> {
    if numRows <= 0 then Err(BadRowCount) else
      var b1, b2, b3 := CeilQuarter(numRows), CeilQuarter(numRows * 2), CeilQuarter(numRows * 3);
      Ok([Band(S1, 0, b1), Band(S2, b1, b2), Band(S3, b2, b3), Band(S4, b3, numRows)])
  }

  /** The stage of the first band that holds the row. */
  function FindBand(bands: seq<Band>, row: int): Option<Stage> {
    if bands == [] then None
    else if bands[0].start <= row < bands[0].stop then Some(bands[0].stage)
    else FindBand(bands[1..], row)
  }

  function StageForRow(row: int, numRows: int): Result<Stage, BandError> {
    if row < 0 || row >= numRows then Err(RowOutOfRange) else
      match StageRowBands(numRows)
      case Err(e) => Err(e)
      case Ok(bands) =>
        match FindBand(bands, row)
        case Some(stage) => Ok(stage)
        case None => Err(RowOutOfRange)
  }

  /** One row per band, in order; the first empty band is an error. */
  function RepresentativeOf(bands: seq<Band>): Result<seq<(Stage, int)>, BandError> {
    if bands == [] then Ok([]) else
      var b := bands[0];
      if b.stop <= b.start then Err(EmptyBand(b.stage)) else
        match RepresentativeOf(bands[1..])
        case Err(e) => Err(e)
        case Ok(rest) => Ok([Middle(b)] + rest)
  }

  function RepresentativeRows(numRows: int): Result<seq<(Stage, int)>, BandError> {
    match StageRowBands(numRows)
    case Err(e) => Err(e)
    case Ok(bands) => RepresentativeOf(bands)
  }

  /** The bands follow each other, cover the rows, and differ in size by at most one. */
  lemma BandsPartitionRows(numRows: int)
    requires numRows > 0
    ensures var b := StageRowBands(numRows).value;
            |b| == 4 && b[0].start == 0 && b[3].stop == numRows &&
            (forall i :: 0 <= i < 4 ==> Index(b[i].stage) == i && b[i].start <= b[i].stop) &&
            (forall i :: 0 <= i < 3 ==> b[i].stop == b[i + 1].start) &&
            (forall i, j :: 0 <= i < 4 && 0 <= j < 4 ==> b[i].stop - b[i].start <= b[j].stop - b[j].start + 1)
  {
  }

  /** The search among the four bands ends in the one that holds the row. */
  lemma {:induction false} FindsBand(row: int, numRows: int)
    requires 0 <= row < numRows
    ensures var b := StageRowBands(numRows).value;
            FindBand(b, row) ==
              Some(if row < b[0].stop then S1 else if row < b[1].stop then S2 else if row < b[2].stop then S3 else S4)
  {
    var b := StageRowBands(numRows).value;
    assert b[1..][1..][1..] == b[3..] && b[1..][1..] == b[2..];
    assert FindBand(b[3..], row) == if b[3].start <= row < b[3].stop then Some(S4) else FindBand(b[4..], row);
    assert FindBand(b[2..], row) == if b[2].start <= row < b[2].stop then Some(S3) else FindBand(b[3..], row);
    assert FindBand(b[1..], row) == if b[1].start <= row < b[1].stop then Some(S2) else FindBand(b[2..], row);
  }

  /** The stage of a row is the one whose band holds it: the quarter of the course the row starts in. */
  lemma {:induction false} StageForRowFinds(row: int, numRows: int)
    requires 0 <= row < numRows
    ensures StageForRow(row, numRows).Ok?
    ensures var b := StageRowBands(numRows).value[Index(StageForRow(row, numRows).value)];
            b.start <= row < b.stop
    ensures Index(StageForRow(row, numRows).value) == row * 4 / numRows
  {
    FindsBand(row, numRows);
    hide FindBand;
    QuarterOf(row, numRows, Index(StageForRow(row, numRows).value));
  }

  lemma QuarterOf(row: int, numRows: int, i: int)
    requires 0 <= i < 4 && numRows > 0 && CeilQuarter(numRows * i) <= row < CeilQuarter(numRows * (i + 1))
    ensures row * 4 / numRows == i
  {
    assert numRows * i <= row * 4 < numRows * i + numRows;
    QuotientIs(row * 4, numRows, i);
  }

  lemma QuotientIs(x: int, n: int, q: int)
    requires n > 0 && n * q <= x < n * q + n
    ensures x / n == q
  {
    var d := x / n - q;
    assert n * d == n * (x / n) - n * q;
    AwayFromZero(n, d);
  }

  lemma AwayFromZero(n: int, d: int)
    requires n > 0
    ensures d >= 1 ==> n * d >= n
    ensures d <= -1 ==> n * d <= -n
  {
  }

  /** Later rows never have an earlier stage. */
  lemma StageForRowMonotone(row: int, row': int, numRows: int)
    requires 0 <= row <= row' < numRows
    ensures StageForRow(row, numRows).Ok? && StageForRow(row', numRows).Ok?
    ensures Index(StageForRow(row, numRows).value) <= Index(StageForRow(row', numRows).value)
  {
    StageForRowFinds(row, numRows);
    StageForRowFinds(row', numRows);
  }

  /** A list of four bands has representatives exactly when none is empty. */
  lemma RepresentativesOfFour(a: Band, b: Band, c: Band, d: Band)
    ensures var r := RepresentativeOf([a, b, c, d]);
            (r.Ok? <==> a.start < a.stop && b.start < b.stop && c.start < c.stop && d.start < d.stop) &&
            (r.Ok? ==> r.value == [Middle(a), Middle(b), Middle(c), Middle(d)])
  {
    assert [a, b, c, d][1..] == [b, c, d] && [b, c, d][1..] == [c, d] && [c, d][1..] == [d] && [d][1..] == [];
    var none: seq<(Stage, int)> := [];
    assert RepresentativeOf([]) == Ok(none) && [Middle(d)] + none == [Middle(d)];
    assert RepresentativeOf([d]) == if d.stop <= d.start then Err(EmptyBand(d.stage)) else Ok([Middle(d)]);
    assert c.start < c.stop && d.start < d.stop ==> RepresentativeOf([c, d]) == Ok([Middle(c)] + [Middle(d)]);
    assert b.start < b.stop && RepresentativeOf([c, d]).Ok? ==>
        RepresentativeOf([b, c, d]) == Ok([Middle(b)] + RepresentativeOf([c, d]).value);
  }

  function Middle(b: Band): (Stage, int) {
    (b.stage, (b.start + b.stop - 1) / 2)
  }

  /** There is a representative of every stage exactly from four rows on, and it lies in its own stage. */
  lemma RepresentativesExist(numRows: int)
    ensures RepresentativeRows(numRows).Ok? <==> numRows >= 4
    ensures numRows >= 4 ==>
            var reps := RepresentativeRows(numRows).value;
            |reps| == 4 && forall i :: 0 <= i < 4 ==>
              Index(reps[i].0) == i && StageForRow(reps[i].1, numRows) == Ok(reps[i].0)
  {
    if numRows > 0 {
      var b := StageRowBands(numRows).value;
      RepresentativesOfFour(b[0], b[1], b[2], b[3]);
      if numRows >= 4 {
        forall i | 0 <= i < 4 ensures StageForRow(Middle(b[i]).1, numRows) == Ok(b[i].stage) {
          StageForRowFinds(Middle(b[i]).1, numRows);
        }
      }
    }
  }

  /** The rows from start up to but not including stop are those of quarter i. */
  ghost predicate IsQuarter(numRows: int, i: int, start: int, stop: int)
    requires numRows > 0
  {
    forall row :: 0 <= row < numRows ==> (start <= row < stop <==> row * 4 / numRows == i)
  }

  /** A representative stands in the middle of its band; of two middle rows it is the earlier one. */
  lemma {:induction false} RepresentativesAreCentred(numRows: int, i: int)
    requires numRows >= 4 && 0 <= i < 4
    ensures RepresentativeRows(numRows).Ok? && |RepresentativeRows(numRows).value| == 4
    ensures var row := RepresentativeRows(numRows).value[i].1;
            exists start, stop :: IsQuarter(numRows, i, start, stop) && start <= row < stop &&
                                  row - start <= stop - 1 - row <= row - start + 1
  {
    RepresentativesExist(numRows);
    var b := StageRowBands(numRows).value;
    RepresentativesOfFour(b[0], b[1], b[2], b[3]);
    hide RepresentativeOf, FindBand;
    BandsPartitionRows(numRows);
    forall r | 0 <= r < numRows ensures b[i].start <= r < b[i].stop <==> r * 4 / numRows == i {
      StageForRowFinds(r, numRows);
    }
    assert IsQuarter(numRows, i, b[i].start, b[i].stop);
  }

  /** The refusals: a row outside the course, no rows at all, or the first stage with an empty band. */
  lemma {:induction false} BandRefusals(row: int, numRows: int)
    ensures StageForRow(row, numRows).Err? <==> !(0 <= row < numRows)
    ensures StageForRow(row, numRows).Err? ==> StageForRow(row, numRows).error == RowOutOfRange
    ensures numRows < 4 ==>
            RepresentativeRows(numRows) ==
            Err(if numRows <= 0 then BadRowCount else if numRows == 3 then EmptyBand(S4) else EmptyBand(S2))
  {
    if 0 <= row < numRows {
      StageForRowFinds(row, numRows);
    }
    if 0 < numRows < 4 {
      var b := StageRowBands(numRows).value;
      assert b[1..][0] == b[1] && b[1..][1..][0] == b[2] && b[1..][1..][1..][0] == b[3];
    }
  }
}
