/** Elementwise operations on one-dimensional tensors, and the sum of a boolean one. */
module Tensors {
  import opened Common

  function Not(a: seq<bool>): seq<bool> {
    seq(|a|, i requires 0 <= i < |a| => !a[i])
  }

  function And(a: seq<bool>, b: seq<bool>): seq<bool>
    requires |a| == |b|
  {
    seq(|a|, i requires 0 <= i < |a| => a[i] && b[i])
  }

  function Or(a: seq<bool>, b: seq<bool>): seq<bool>
    requires |a| == |b|
  {
    seq(|a|, i requires 0 <= i < |a| => a[i] || b[i])
  }

  function Where<T>(mask: seq<bool>, a: seq<T>, b: seq<T>): seq<T>
    requires |mask| == |a| == |b|
  {
    seq(|a|, i requires 0 <= i < |a| => if mask[i] then a[i] else b[i])
  }

  function Maximum(a: seq<real>, b: seq<real>): seq<real>
    requires |a| == |b|
  {
    seq(|a|, i requires 0 <= i < |a| => Max(a[i], b[i]))
  }

  function Minimum(a: seq<real>, b: seq<real>): seq<real>
    requires |a| == |b|
  {
    seq(|a|, i requires 0 <= i < |a| => Min(a[i], b[i]))
  }

  /** `a += mask.long()`. */
  function Tally(a: seq<nat>, mask: seq<bool>): seq<nat>
    requires |a| == |mask|
  {
    seq(|a|, i requires 0 <= i < |a| => if mask[i] then a[i] + 1 else a[i])
  }

  /** `int(mask.sum())`. */
  function CountTrue(s: seq<bool>): nat {
    if s == [] then 0 else
      var n := |s| - 1;
      CountTrue(s[..n]) + if s[n] then 1 else 0
  }

  lemma {:induction false} CountUpdate(s: seq<bool>, i: nat, b: bool)
    requires i < |s|
    ensures CountTrue(s[i := b]) == CountTrue(s) - (if s[i] then 1 else 0) + if b then 1 else 0
  {
    var n := |s| - 1;
    if i == n {
      assert s[i := b][..n] == s[..n];
    } else {
      assert s[i := b][..n] == s[..n][i := b];
      CountUpdate(s[..n], i, b);
    }
  }

  /** Inclusion and exclusion. */
  lemma {:induction false} CountBoth(a: seq<bool>, b: seq<bool>)
    requires |a| == |b|
    ensures CountTrue(a) + CountTrue(b) == CountTrue(Or(a, b)) + CountTrue(And(a, b))
  {
    if a != [] {
      var n := |a| - 1;
      assert Or(a, b)[..n] == Or(a[..n], b[..n]) && And(a, b)[..n] == And(a[..n], b[..n]);
      CountBoth(a[..n], b[..n]);
    }
  }

  lemma {:induction false} CountNot(a: seq<bool>)
    ensures CountTrue(a) + CountTrue(Not(a)) == |a|
  {
    if a != [] {
      var n := |a| - 1;
      assert Not(a)[..n] == Not(a[..n]);
      CountNot(a[..n]);
    }
  }

  lemma {:induction false} CountNone(a: seq<bool>)
    ensures CountTrue(a) == 0 <==> forall i :: 0 <= i < |a| ==> !a[i]
  {
    if a != [] {
      CountNone(a[..|a| - 1]);
    }
  }

  /** One mask within another: fewer, and as many only when they agree. */
  lemma {:induction false} CountWithin(a: seq<bool>, b: seq<bool>)
    requires |a| == |b| && forall i :: 0 <= i < |a| ==> a[i] ==> b[i]
    ensures CountTrue(a) <= CountTrue(b)
    ensures CountTrue(a) == CountTrue(b) <==> a == b
  {
    if a != [] {
      var n := |a| - 1;
      CountWithin(a[..n], b[..n]);
      assert a == a[..n] + [a[n]] && b == b[..n] + [b[n]];
    }
  }

  /** The places of a mask are as many as its sum. */
  lemma {:induction false} MarkedAreCounted(mask: seq<bool>, places: set<nat>)
    requires forall i: nat :: i in places <==> i < |mask| && mask[i]
    ensures |places| == CountTrue(mask)
  {
    if mask == [] {
      assert places == {};
    } else {
      var n := |mask| - 1;
      var rest := places - {n};
      assert forall i: nat :: i < n ==> mask[..n][i] == mask[i];
      MarkedAreCounted(mask[..n], rest);
      if mask[n] {
        assert places == rest + {n};
      } else {
        assert places == rest;
      }
    }
  }
}
