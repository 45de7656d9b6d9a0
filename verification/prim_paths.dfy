/** The scene paths of obstacles: two-digit padded decimals between fixed labels, and why they never clash. */
module PrimPaths {
  import opened Decimals
  import opened Layout

  function Root(c: Class): string {
    match c case Small => "/World/semantic_course/small" case Large => "/World/semantic_course/large"
  }

  function PrimPath(c: Class, row: nat, col: nat, slot: nat): string {
    Root(c) + ("/row_" + (TwoDigits(row) + ("/col_" + (TwoDigits(col) + ("/slot_" + TwoDigits(slot))))))
  }

  lemma SplitEqual(a: string, b: string, a': string, b': string)
    requires |a| == |a'| && a + b == a' + b'
    ensures a == a' && b == b'
  {
    assert a == (a + b)[..|a|] && a' == (a' + b')[..|a'|];
    assert b == (a + b)[|a|..] && b' == (a' + b')[|a'|..];
  }

  /** A number ends where the next label begins. */
  lemma NumberEnds(m: nat, n: nat, rest: string, rest': string)
    requires rest != [] && rest' != [] && rest[0] == '/' && rest'[0] == '/'
    requires TwoDigits(m) + rest == TwoDigits(n) + rest'
    ensures m == n && rest == rest'
  {
    var a, b := TwoDigits(m), TwoDigits(n);
    ReadTwoDigits(m);
    ReadTwoDigits(n);
    assert (a + rest)[|a|] == '/' && (b + rest')[|b|] == '/';
    SplitEqual(a, rest, b, rest');
  }

  /** Main result: a path determines class, row, column and slot index. */
  lemma PrimPathInjective(c: Class, row: nat, col: nat, slot: nat, c': Class, row': nat, col': nat, slot': nat)
    requires PrimPath(c, row, col, slot) == PrimPath(c', row', col', slot')
    ensures c == c' && row == row' && col == col' && slot == slot'
  {
    var s, s' := "/slot_" + TwoDigits(slot), "/slot_" + TwoDigits(slot');
    var k, k' := "/col_" + (TwoDigits(col) + s), "/col_" + (TwoDigits(col') + s');
    var r, r' := "/row_" + (TwoDigits(row) + k), "/row_" + (TwoDigits(row') + k');
    SplitEqual(Root(c), r, Root(c'), r');
    assert Root(c)[23] == Root(c')[23];
    SplitEqual("/row_", TwoDigits(row) + k, "/row_", TwoDigits(row') + k');
    NumberEnds(row, row', k, k');
    SplitEqual("/col_", TwoDigits(col) + s, "/col_", TwoDigits(col') + s');
    NumberEnds(col, col', s, s');
    SplitEqual("/slot_", TwoDigits(slot), "/slot_", TwoDigits(slot'));
    ReadTwoDigits(slot);
    ReadTwoDigits(slot');
  }
}
