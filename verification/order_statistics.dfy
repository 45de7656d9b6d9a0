/** Sorting of reals and ranks, as the grounding quantile and the tile-size median use them. */
module OrderStatistics {
  import opened Common

  ghost predicate Sorted(s: seq<real>) {
    forall i, j :: 0 <= i < j < |s| ==> s[i] <= s[j]
  }

  function Insert(x: real, s: seq<real>): (r: seq<real>)
    requires Sorted(s)
    ensures |r| == |s| + 1
    ensures r[0] == if s == [] || x <= s[0] then x else s[0]
    ensures Sorted(r)
  {
    if s == [] || x <= s[0] then [x] + s else [s[0]] + Insert(x, s[1..])
  }

  /** Python's `sorted` on a list of floats. */
  function Ordered(s: seq<real>): (r: seq<real>)
    ensures Sorted(r)
    ensures |r| == |s|
  {
    if s == [] then [] else Insert(s[0], Ordered(s[1..]))
  }

  lemma {:induction false} InsertMultiset(x: real, s: seq<real>)
    requires Sorted(s)
    ensures multiset(Insert(x, s)) == multiset(s) + multiset{x}
  {
    if s != [] && x > s[0] {
      TailMultiset(s);
      InsertMultiset(x, s[1..]);
      TailMultiset(Insert(x, s));
    }
  }

  /** Sorting permutes the list. */
  lemma {:induction false} OrderedMultiset(s: seq<real>)
    ensures multiset(Ordered(s)) == multiset(s)
  {
    if s != [] {
      TailMultiset(s);
      OrderedMultiset(s[1..]);
      InsertMultiset(s[0], Ordered(s[1..]));
    }
  }

  /** The number of entries at most x. */
  function CountLe(s: seq<real>, x: real): (n: nat)
    ensures n <= |s|
  {
    if s == [] then 0 else (if s[0] <= x then 1 else 0) + CountLe(s[1..], x)
  }

  /** The number of entries below x. */
  function CountLt(s: seq<real>, x: real): (n: nat)
    ensures n <= |s|
  {
    if s == [] then 0 else (if s[0] < x then 1 else 0) + CountLt(s[1..], x)
  }

  /** The number of entries equal to x. */
  function CountEq(s: seq<real>, x: real): (n: nat)
    ensures n <= |s|
  {
    if s == [] then 0 else (if s[0] == x then 1 else 0) + CountEq(s[1..], x)
  }

  lemma {:induction false} CountLeInsert(y: real, s: seq<real>, x: real)
    requires Sorted(s)
    ensures CountLe(Insert(y, s), x) == CountLe(s, x) + (if y <= x then 1 else 0)
  {
    if s == [] || y <= s[0] {
      assert ([y] + s)[1..] == s;
    } else {
      CountLeInsert(y, s[1..], x);
      assert ([s[0]] + Insert(y, s[1..]))[1..] == Insert(y, s[1..]);
    }
  }

  lemma {:induction false} CountLtInsert(y: real, s: seq<real>, x: real)
    requires Sorted(s)
    ensures CountLt(Insert(y, s), x) == CountLt(s, x) + (if y < x then 1 else 0)
  {
    if s == [] || y <= s[0] {
      assert ([y] + s)[1..] == s;
    } else {
      CountLtInsert(y, s[1..], x);
      assert ([s[0]] + Insert(y, s[1..]))[1..] == Insert(y, s[1..]);
    }
  }

  /** Sorting keeps the number of entries at most x, and below x. */
  lemma {:induction false} CountsOrdered(s: seq<real>, x: real)
    ensures CountLe(Ordered(s), x) == CountLe(s, x)
    ensures CountLt(Ordered(s), x) == CountLt(s, x)
  {
    if s != [] {
      CountsOrdered(s[1..], x);
      CountLeInsert(s[0], Ordered(s[1..]), x);
      CountLtInsert(s[0], Ordered(s[1..]), x);
    }
  }

  lemma {:induction false} CountsSplit(s: seq<real>, x: real)
    ensures CountLe(s, x) == CountLt(s, x) + CountEq(s, x)
  {
    if s != [] {
      CountsSplit(s[1..], x);
    }
  }

  lemma {:induction false} SortedRankBounds(s: seq<real>, k: nat, x: real)
    requires Sorted(s) && k < |s|
    ensures s[k] <= x <==> k < CountLe(s, x)
    ensures s[k] < x <==> k < CountLt(s, x)
  {
    if k > 0 {
      SortedRankBounds(s[1..], k - 1, x);
      assert s[0] <= s[k] == s[1..][k - 1];
    } else if s[0] > x {
      AllAbove(s, x);
    } else if s[0] == x {
      NoneBelow(s, x);
    }
  }

  lemma {:induction false} AllAbove(s: seq<real>, x: real)
    requires forall i :: 0 <= i < |s| ==> s[i] > x
    ensures CountLe(s, x) == 0 && CountLt(s, x) == 0
  {
    if s != [] {
      AllAbove(s[1..], x);
    }
  }

  lemma {:induction false} NoneBelow(s: seq<real>, x: real)
    requires forall i :: 0 <= i < |s| ==> s[i] >= x
    ensures CountLt(s, x) == 0
  {
    if s != [] {
      NoneBelow(s[1..], x);
    }
  }

  /** Entry k of the sorted list is the k-th order statistic of the list it came from. */
  lemma {:induction false} OrderedRank(s: seq<real>, k: nat, x: real)
    requires k < |s|
    ensures Ordered(s)[k] <= x <==> k < CountLe(s, x)
    ensures Ordered(s)[k] < x <==> k < CountLt(s, x)
  {
    CountsOrdered(s, x);
    SortedRankBounds(Ordered(s), k, x);
  }

  ghost predicate Below(a: seq<real>, b: seq<real>) {
    |a| == |b| && forall i :: 0 <= i < |a| ==> a[i] <= b[i]
  }

  lemma {:induction false} CountLeBelow(a: seq<real>, b: seq<real>, x: real)
    requires Below(a, b)
    ensures CountLe(a, x) >= CountLe(b, x)
  {
    if a != [] {
      CountLeBelow(a[1..], b[1..], x);
    }
  }

  /** Raising entries pointwise raises every order statistic. */
  lemma {:induction false} OrderedMonotone(a: seq<real>, b: seq<real>)
    requires Below(a, b)
    ensures Below(Ordered(a), Ordered(b))
  {
    forall k | 0 <= k < |a| ensures Ordered(a)[k] <= Ordered(b)[k] {
      var x := Ordered(b)[k];
      OrderedRank(b, k, x);
      CountLeBelow(a, b, x);
      OrderedRank(a, k, x);
    }
  }

  lemma {:induction false} SortedUnique(a: seq<real>, b: seq<real>)
    requires Sorted(a) && Sorted(b) && multiset(a) == multiset(b)
    ensures a == b
  {
    assert |multiset(a)| == |multiset(b)|;
    if a != [] {
      assert a[0] in multiset(b) && b[0] in multiset(a);
      assert a[0] == b[0];
      TailMultiset(a);
      TailMultiset(b);
      assert multiset(a[1..]) == multiset(b[1..]);
      SortedUnique(a[1..], b[1..]);
      assert a == [a[0]] + a[1..] && b == [b[0]] + b[1..];
    }
  }

  /** Sorting forgets the order of the list. */
  lemma {:induction false} OrderedPermutation(a: seq<real>, b: seq<real>)
    requires multiset(a) == multiset(b)
    ensures Ordered(a) == Ordered(b)
  {
    OrderedMultiset(a);
    OrderedMultiset(b);
    SortedUnique(Ordered(a), Ordered(b));
  }

  function Shift(s: seq<real>, c: real): (r: seq<real>)
    ensures |r| == |s| && forall i :: 0 <= i < |s| ==> r[i] == s[i] + c
  {
    if s == [] then [] else [s[0] + c] + Shift(s[1..], c)
  }

  lemma {:induction false} CountLeShift(s: seq<real>, c: real, x: real)
    ensures CountLe(Shift(s, c), x + c) == CountLe(s, x)
  {
    if s != [] {
      CountLeShift(s[1..], c, x);
    }
  }

  lemma SortedShiftAt(a: seq<real>, b: seq<real>, c: real, k: nat)
    requires Sorted(a) && Sorted(b) && k < |a| == |b|
    requires forall x :: CountLe(a, x) == CountLe(b, x + c)
    ensures b[k] == a[k] + c
  {
    var x, y := a[k], b[k] - c;
    assert CountLe(a, x) == CountLe(b, x + c) && CountLe(a, y) == CountLe(b, y + c);
    SortedRankBounds(a, k, x);
    SortedRankBounds(b, k, x + c);
    SortedRankBounds(a, k, y);
    SortedRankBounds(b, k, y + c);
  }

  lemma OrderedCountShift(s: seq<real>, c: real, x: real)
    ensures CountLe(Ordered(s), x) == CountLe(Ordered(Shift(s, c)), x + c)
  {
    CountLeShift(s, c, x);
    CountsOrdered(s, x);
    CountsOrdered(Shift(s, c), x + c);
  }

  /** Sorting commutes with adding a constant to every entry. */
  lemma {:induction false} OrderedShift(s: seq<real>, c: real)
    ensures forall k :: 0 <= k < |s| ==> Ordered(Shift(s, c))[k] == Ordered(s)[k] + c
  {
    var a, b := Ordered(s), Ordered(Shift(s, c));
    forall x ensures CountLe(a, x) == CountLe(b, x + c) {
      OrderedCountShift(s, c, x);
    }
    forall k | 0 <= k < |s| ensures b[k] == a[k] + c {
      SortedShiftAt(a, b, c, k);
    }
  }
}
