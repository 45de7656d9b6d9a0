/** Opportunities and successes summed over the environments that share a speed or a lateral offset. */
module CrossingGroups {
  import opened Tensors

  datatype Group = Group(key: real, opportunities: nat, successes: nat, rate: real)

  /** `a / max(1, b)`. */
  function Rate(a: nat, b: nat): real {
    a as real / (if b > 1 then b else 1) as real
  }

  lemma {:induction false} Scaled(r: real, d: real)
    requires d > 0.0
    ensures r < 0.0 ==> r * d < 0.0
    ensures r > 1.0 ==> r * d > d
    ensures r == 0.0 ==> r * d == 0.0
    ensures r == 1.0 ==> r * d == d
  {
  }

  lemma {:induction false} QuotientBounds(a: real, d: real)
    requires d > 0.0 && 0.0 <= a
    ensures a / d >= 0.0 && (a / d == 0.0 <==> a == 0.0)
    ensures a <= d ==> a / d <= 1.0
    ensures a / d == 1.0 <==> a == d
  {
    var r := a / d;
    assert r * d == a;
    Scaled(r, d);
  }

  lemma {:induction false} RateIsFraction(a: nat, b: nat)
    requires a <= b
    ensures 0.0 <= Rate(a, b) <= 1.0
    ensures Rate(a, b) == 0.0 <==> a == 0
    ensures Rate(a, b) == 1.0 <==> a == b > 0
  {
    QuotientBounds(a as real, (if b > 1 then b else 1) as real);
  }

  /** `sorted({...})`. */
  function SortedDistinct(keys: seq<real>): seq<real> {
    if keys == [] then [] else Insert(keys[0], SortedDistinct(keys[1..]))
  }

  function Insert(x: real, s: seq<real>): seq<real> {
    if s == [] || x < s[0] then [x] + s
    else if x == s[0] then s
    else [s[0]] + Insert(x, s[1..])
  }

  predicate Ascending(s: seq<real>) {
    forall i, j :: 0 <= i < j < |s| ==> s[i] < s[j]
  }

  lemma {:induction false} InsertMembers(x: real, s: seq<real>)
    ensures forall v :: v in Insert(x, s) <==> v == x || v in s
  {
    if s != [] && x > s[0] {
      InsertMembers(x, s[1..]);
      assert forall v :: v in s <==> v == s[0] || v in s[1..];
    }
  }

  lemma {:induction false} InsertKeepsOrder(x: real, s: seq<real>)
    requires Ascending(s)
    ensures Ascending(Insert(x, s))
  {
    if s != [] && x > s[0] {
      var rest := Insert(x, s[1..]);
      InsertKeepsOrder(x, s[1..]);
      InsertMembers(x, s[1..]);
      forall k | 0 <= k < |rest| ensures s[0] < rest[k] {
        assert rest[k] in rest;
        if rest[k] != x {
          var m :| 0 <= m < |s[1..]| && s[1..][m] == rest[k];
        }
      }
    }
  }

  /** Every key once, in ascending order. */
  lemma {:induction false} SortedDistinctIsSorted(keys: seq<real>)
    ensures Ascending(SortedDistinct(keys)) && forall v :: v in SortedDistinct(keys) <==> v in keys
  {
    if keys != [] {
      SortedDistinctIsSorted(keys[1..]);
      InsertKeepsOrder(keys[0], SortedDistinct(keys[1..]));
      InsertMembers(keys[0], SortedDistinct(keys[1..]));
      assert forall v :: v in keys <==> v == keys[0] || v in keys[1..];
    }
  }

  function Members(keys: seq<real>, key: real): seq<bool> {
    seq(|keys|, i requires 0 <= i < |keys| => keys[i] == key)
  }

  function GroupFor(keys: seq<real>, key: real, opportunity: seq<bool>, success: seq<bool>): Group
    requires |keys| == |opportunity| == |success|
  {
    var opportunities, successes := CountTrue(And(Members(keys, key), opportunity)),
      CountTrue(And(Members(keys, key), success));
    Group(key, opportunities, successes, Rate(successes, opportunities))
  }

  function Groups(values: seq<real>, keys: seq<real>, opportunity: seq<bool>, success: seq<bool>): seq<Group>
    requires |keys| == |opportunity| == |success|
  {
    seq(|values|, i requires 0 <= i < |values| => GroupFor(keys, values[i], opportunity, success))
  }

  function Summary(keys: seq<real>, opportunity: seq<bool>, success: seq<bool>): seq<Group>
    requires |keys| == |opportunity| == |success|
  {
    Groups(SortedDistinct(keys), keys, opportunity, success)
  }

  /** The number of environments of a group that are marked. */
  method CountInGroup(keys: seq<real>, key: real, mask: seq<bool>) returns (count: nat)
    requires |keys| == |mask|
    ensures count == CountTrue(And(Members(keys, key), mask))
  {
    count := 0;
    ghost var picked := And(Members(keys, key), mask);
    for i := 0 to |keys|
      invariant count == CountTrue(picked[..i])
    {
      assert picked[..i + 1][..i] == picked[..i];
      if keys[i] == key && mask[i] {
        count := count + 1;
      }
    }
    assert picked[..|keys|] == picked;
  }

  /** `_group_summary`. */
  method GroupSummary(keys: seq<real>, opportunity: seq<bool>, success: seq<bool>) returns (out: seq<Group>)
    requires |keys| == |opportunity| == |success|
    ensures out == Summary(keys, opportunity, success)
  {
    var values := SortedDistinct(keys);
    out := [];
    for i := 0 to |values|
      invariant out == Groups(values[..i], keys, opportunity, success)
    {
      var opportunities := CountInGroup(keys, values[i], opportunity);
      var successes := CountInGroup(keys, values[i], success);
      out := out + [Group(values[i], opportunities, successes, Rate(successes, opportunities))];
    }
    assert values[..|values|] == values;
  }

  function TotalOpportunities(groups: seq<Group>): nat {
    if groups == [] then 0 else
      var n := |groups| - 1;
      TotalOpportunities(groups[..n]) + groups[n].opportunities
  }

  function TotalSuccesses(groups: seq<Group>): nat {
    if groups == [] then 0 else
      var n := |groups| - 1;
      TotalSuccesses(groups[..n]) + groups[n].successes
  }

  /** The environments whose key is among the given ones. */
  function Covered(keys: seq<real>, values: seq<real>): seq<bool> {
    seq(|keys|, i requires 0 <= i < |keys| => keys[i] in values)
  }

  lemma {:induction false} CountCovered(keys: seq<real>, values: seq<real>, mask: seq<bool>)
    requires |keys| == |mask| && values != [] && Ascending(values)
    ensures var n := |values| - 1;
            CountTrue(And(Covered(keys, values), mask)) ==
            CountTrue(And(Covered(keys, values[..n]), mask)) + CountTrue(And(Members(keys, values[n]), mask))
  {
    var n := |values| - 1;
    var whole, front, last := And(Covered(keys, values), mask), And(Covered(keys, values[..n]), mask),
      And(Members(keys, values[n]), mask);
    assert forall v :: v in values <==> v in values[..n] || v == values[n];
    assert values[n] !in values[..n];
    CountBoth(front, last);
    assert Or(front, last) == whole;
    CountNone(And(front, last));
  }

  lemma {:induction false} GroupsCover(values: seq<real>, keys: seq<real>, opportunity: seq<bool>, success: seq<bool>)
    requires |keys| == |opportunity| == |success| && Ascending(values)
    ensures var groups := Groups(values, keys, opportunity, success);
            TotalOpportunities(groups) == CountTrue(And(Covered(keys, values), opportunity)) &&
            TotalSuccesses(groups) == CountTrue(And(Covered(keys, values), success))
  {
    if values == [] {
      CountNone(And(Covered(keys, values), opportunity));
      CountNone(And(Covered(keys, values), success));
    } else {
      var n := |values| - 1;
      GroupsCover(values[..n], keys, opportunity, success);
      assert Groups(values, keys, opportunity, success)[..n] == Groups(values[..n], keys, opportunity, success);
      CountCovered(keys, values, opportunity);
      CountCovered(keys, values, success);
    }
  }

  /** Every environment belongs to one group: the groups add up to the totals. */
  lemma {:induction false} GroupsAddUp(keys: seq<real>, opportunity: seq<bool>, success: seq<bool>)
    requires |keys| == |opportunity| == |success|
    ensures var groups := Summary(keys, opportunity, success);
            TotalOpportunities(groups) == CountTrue(opportunity) && TotalSuccesses(groups) == CountTrue(success)
  {
    var values := SortedDistinct(keys);
    SortedDistinctIsSorted(keys);
    GroupsCover(values, keys, opportunity, success);
    forall i | 0 <= i < |keys| ensures keys[i] in values {
      var v := keys[i];
      assert v in keys;
      assert v in SortedDistinct(keys);
    }
    assert And(Covered(keys, values), opportunity) == opportunity;
    assert And(Covered(keys, values), success) == success;
  }

  /** When every success is an opportunity, every group's rate is a fraction, one exactly where all opportunities
      succeeded. */
  lemma {:induction false} GroupRates(keys: seq<real>, opportunity: seq<bool>, success: seq<bool>)
    requires |keys| == |opportunity| == |success| && forall i :: 0 <= i < |success| ==> success[i] ==> opportunity[i]
    ensures forall g :: g in Summary(keys, opportunity, success) ==>
              g.successes <= g.opportunities && 0.0 <= g.rate <= 1.0 &&
              (g.rate == 1.0 <==> g.successes == g.opportunities > 0)
  {
    var values, groups := SortedDistinct(keys), Summary(keys, opportunity, success);
    forall g | g in groups
      ensures g.successes <= g.opportunities && 0.0 <= g.rate <= 1.0 &&
              (g.rate == 1.0 <==> g.successes == g.opportunities > 0)
    {
      var i :| 0 <= i < |groups| && groups[i] == g;
      var members := Members(keys, values[i]);
      CountWithin(And(members, success), And(members, opportunity));
      RateIsFraction(g.successes, g.opportunities);
    }
  }
}
