/** The report of a round told from its frames: every count is the number of environments of which something is true. */
module CrossingTold {
  import opened Common
  import opened Tensors
  import opened CrossingTracks
  import opened CrossingReports
  import opened CrossingGroups
  import opened CrossingOutcomes
  import opened Crossing

  // ---- Reasons ----

  ghost predicate IsSet(terms: Terms, r: Reason, i: nat) {
    r in terms && i < |terms[r]| && terms[r][i]
  }

  /** A bad orientation goes before a base contact, and both before a time-out. */
  ghost predicate ReasonTold(terms: Terms, i: nat, r: Reason) {
    match r
    case BadOrientation => IsSet(terms, BadOrientation, i)
    case BaseContact => !IsSet(terms, BadOrientation, i) && IsSet(terms, BaseContact, i)
    case TimeOut => !IsSet(terms, BadOrientation, i) && !IsSet(terms, BaseContact, i) && IsSet(terms, TimeOut, i)
    case Unknown => !IsSet(terms, BadOrientation, i) && !IsSet(terms, BaseContact, i) && !IsSet(terms, TimeOut, i)
  }

  lemma {:induction false} ReasonIsTold(terms: Terms, i: nat, r: Reason)
    requires forall x :: x in terms ==> i < |terms[x]|
    ensures FirstSet(NAMED_REASONS, terms, i) == r <==> ReasonTold(terms, i, r)
  {
    var names := NAMED_REASONS;
    assert names[1..][0] == BaseContact && names[1..][1..][0] == TimeOut && names[1..][1..][1..] == [];
    assert FirstSet(names, terms, i) ==
      if IsSet(terms, BadOrientation, i) then BadOrientation else FirstSet(names[1..], terms, i);
    assert FirstSet(names[1..], terms, i) ==
      if IsSet(terms, BaseContact, i) then BaseContact else FirstSet(names[1..][1..], terms, i);
    assert FirstSet(names[1..][1..], terms, i) == if IsSet(terms, TimeOut, i) then TimeOut else Unknown;
  }

  // ---- One environment ----

  /** What the frames show of an environment. */
  ghost function ViewsOf(frames: seq<Frame>, n: nat, i: nat): (views: seq<View>)
    requires AllFit(frames, n) && i < n
    ensures |views| == |frames|
  {
    seq(|frames|, k requires 0 <= k < |frames| => frames[k].views[i])
  }

  ghost predicate UnitFrames(frames: seq<Frame>) {
    forall k, i :: 0 <= k < |frames| && 0 <= i < |frames[k].views| ==> Unit(frames[k].views[i].heading)
  }

  /** The environment terminates at step k for the first time. */
  ghost predicate EndsAt(frames: seq<Frame>, n: nat, i: nat, k: nat)
    requires AllFit(frames, n) && i < n
  {
    k < |frames| && frames[k].dones[i] && forall j :: 0 <= j < k ==> !frames[j].dones[i]
  }

  ghost predicate Ends(frames: seq<Frame>, n: nat, i: nat)
    requires AllFit(frames, n) && i < n
  {
    exists k :: 0 <= k < |frames| && frames[k].dones[i]
  }

  ghost predicate Met(views: seq<View>) {
    exists lock, n :: LockedOn(views, lock, n)
  }

  ghost predicate LeftBehind(views: seq<View>, k: int) {
    exists lock, n :: LockedOn(views, lock, n) && lock <= k && Crossed(views, lock, n, k)
  }

  ghost predicate Overstepped(views: seq<View>, k: int) {
    exists lock, n :: LockedOn(views, lock, n) && lock <= k && SteppedOver(views, lock, n, k)
  }

  ghost predicate Trodden(views: seq<View>, k: int) {
    exists lock, n :: LockedOn(views, lock, n) && lock <= k && SteppedOn(views, lock, k)
  }

  /** What is recorded of an environment at the end. */
  ghost predicate FlagsAgree(t: Track, views: seq<View>, k: int) {
    (t.opportunity <==> Met(views)) && (t.opportunity && t.rootCrossed <==> LeftBehind(views, k)) &&
    (t.opportunity && t.footOver <==> Overstepped(views, k)) && (t.opportunity && t.touchdown <==> Trodden(views, k))
  }

  lemma {:induction false} FlagsAreTold(trace: seq<Sight>)
    requires UnitViews(Views(trace))
    ensures FlagsAgree(Watch(trace).track, Views(trace), |trace| - 1)
  {
    var views, k := Views(trace), |trace| - 1;
    assert trace == [] ==> Watch(trace).track == NEW_TRACK;
    hide Watch, LockedOn, Crossed, SteppedOver, SteppedOn, Unit;
    forall lock, n | LockedOn(views, lock, n) ensures 0 <= lock <= k {
      LockInViews(views, lock, n);
    }
    if trace != [] {
      assert trace[..k + 1] == trace;
      if lock, n :| LockedOn(views, lock, n) {
        FlagsTold(trace, k, lock, n);
        forall lock', n' | LockedOn(views, lock', n') ensures lock' == lock && n' == n {
          OneLock(views, lock, n, lock', n');
        }
      } else {
        NoLockTold(trace, k);
      }
    }
  }

  /** The record of the first reset of an environment. */
  ghost predicate RecordTold(r: Reset, frames: seq<Frame>, n: nat, i: nat)
    requires AllFit(frames, n) && i < n
  {
    var views := ViewsOf(frames, n, i);
    EndsAt(frames, n, i, r.step) && ReasonTold(frames[r.step].terms, i, r.reason) &&
    StageTold(views, r.step, r.stage) &&
    (r.afterFootOver <==> Overstepped(views, r.step)) && (r.afterRootCrossed <==> LeftBehind(views, r.step))
  }

  lemma {:induction false} TraceShows(frames: seq<Frame>, n: nat, i: nat)
    requires AllFit(frames, n) && i < n
    ensures var trace := Trace(frames, n, i);
            Views(trace) == ViewsOf(frames, n, i) &&
            forall k :: 0 <= k < |frames| ==>
              trace[k].done == frames[k].dones[i] &&
              trace[k].reason == FirstSet(NAMED_REASONS, frames[k].terms, i)
    ensures UnitFrames(frames) ==> UnitViews(ViewsOf(frames, n, i))
  {
    hide FirstSet, Unit;
    assert forall k :: 0 <= k < |frames| ==> Fits(frames[k], n);
  }

  /** Main result: the record of an environment after a round. */
  lemma {:induction false} EnvironmentTold(frames: seq<Frame>, n: nat, i: nat)
    requires AllFit(frames, n) && i < n && UnitFrames(frames)
    ensures var e := Watch(Trace(frames, n, i));
            FlagsAgree(e.track, ViewsOf(frames, n, i), |frames| - 1) &&
            (e.reset.Some? <==> Ends(frames, n, i)) && (e.doneSeen <==> Ends(frames, n, i)) &&
            forall r :: e.reset == Some(r) <==> RecordTold(r, frames, n, i)
  {
    var trace := Trace(frames, n, i);
    TraceShows(frames, n, i);
    FlagsAreTold(trace);
    ResetIsFirstDone(trace);
    forall k: nat ensures EndsAt(frames, n, i, k) <==> FirstDone(trace, k) {
    }
    var e := Watch(trace);
    if e.reset.Some? {
      var m :| 0 <= m < |trace| && trace[m].done;
      var k := EarliestDone(trace, m);
      hide Watch, Trace, FlagsAgree, StageTold, UnitFrames, FirstDone, FirstSet;
      RecordAgrees(frames, n, i, k);
    }
  }

  lemma {:induction false} RecordAgrees(frames: seq<Frame>, n: nat, i: nat, k: nat)
    requires AllFit(frames, n) && i < n && UnitFrames(frames) && FirstDone(Trace(frames, n, i), k)
    requires Watch(Trace(frames, n, i)).reset.Some?
    ensures forall r :: Watch(Trace(frames, n, i)).reset == Some(r) <==> RecordTold(r, frames, n, i)
  {
    var trace, views := Trace(frames, n, i), ViewsOf(frames, n, i);
    TraceShows(frames, n, i);
    ResetTold(trace, k);
    assert k < |frames| && Fits(frames[k], n);
    forall j: nat ensures EndsAt(frames, n, i, j) <==> j == k {
    }
    forall r ensures FirstSet(NAMED_REASONS, frames[k].terms, i) == r <==> ReasonTold(frames[k].terms, i, r) {
      ReasonIsTold(frames[k].terms, i, r);
    }
    hide Watch, Trace, StageTold, UnitFrames, FirstSet, ReasonTold, EndsAt, FirstDone, LockedOn, Crossed, SteppedOver;
    hide UnitViews, ViewsOf;
  }

  // ---- All environments ----

  /** What the report counts environments by. */
  datatype Fact = Meets | LeavesBehind | Oversteps | Treads | Touches | Wins | IsReset | AfterFoot | AfterRoot
                | Because(reason: Reason) | During(stage: Stage)

  /** What each of them means of an environment over the whole round. */
  ghost predicate IsTrue(fact: Fact, frames: seq<Frame>, n: nat, contact: seq<bool>, i: nat)
    requires AllFit(frames, n) && |contact| == n && i < n
  {
    var views, last := ViewsOf(frames, n, i), |frames| - 1;
    match fact
    case Meets => Met(views)
    case LeavesBehind => LeftBehind(views, last)
    case Oversteps => Overstepped(views, last)
    case Treads => Trodden(views, last)
    case Touches => Met(views) && contact[i]
    case Wins => !contact[i] && !Ends(frames, n, i) && CleanlyCrossed(views)
    case IsReset => Ends(frames, n, i)
    case AfterFoot => exists q :: RecordTold(q, frames, n, i) && q.afterFootOver
    case AfterRoot => exists q :: RecordTold(q, frames, n, i) && q.afterRootCrossed
    case Because(reason) => exists q :: RecordTold(q, frames, n, i) && q.reason == reason
    case During(stage) => exists q :: RecordTold(q, frames, n, i) && q.stage == stage
  }

  /** The number of environments of which the fact is true. */
  ghost predicate Counts(c: nat, fact: Fact, frames: seq<Frame>, n: nat, contact: seq<bool>)
    requires AllFit(frames, n) && |contact| == n
  {
    c == |set i: nat | i < n && IsTrue(fact, frames, n, contact, i)|
  }

  /** The number of those among them that have the key. */
  ghost predicate CountsAmong(c: nat, keys: seq<real>, key: real, fact: Fact, frames: seq<Frame>, n: nat,
                              contact: seq<bool>)
    requires AllFit(frames, n) && |contact| == |keys| == n
  {
    c == |set i: nat | i < n && keys[i] == key && IsTrue(fact, frames, n, contact, i)|
  }

  /** The mask marks the environments of which the fact is true. */
  ghost predicate Marks(mask: seq<bool>, fact: Fact, frames: seq<Frame>, n: nat, contact: seq<bool>)
    requires AllFit(frames, n) && |contact| == n
  {
    |mask| == n && forall i: nat :: i < n ==> (mask[i] <==> IsTrue(fact, frames, n, contact, i))
  }

  lemma {:induction false} MaskCounts(mask: seq<bool>, fact: Fact, frames: seq<Frame>, n: nat, contact: seq<bool>)
    requires AllFit(frames, n) && |contact| == n && Marks(mask, fact, frames, n, contact)
    ensures Counts(CountTrue(mask), fact, frames, n, contact)
  {
    hide IsTrue;
    MarkedAreCounted(mask, set i: nat | i < n && IsTrue(fact, frames, n, contact, i));
  }

  lemma {:induction false} MaskCountsAmong(keys: seq<real>, key: real, mask: seq<bool>, fact: Fact, frames: seq<Frame>,
                                           n: nat, contact: seq<bool>)
    requires AllFit(frames, n) && |contact| == |keys| == n && Marks(mask, fact, frames, n, contact)
    ensures CountsAmong(CountTrue(And(Members(keys, key), mask)), keys, key, fact, frames, n, contact)
  {
    hide IsTrue;
    MarkedAreCounted(And(Members(keys, key), mask),
                     set i: nat | i < n && keys[i] == key && IsTrue(fact, frames, n, contact, i));
  }

  /** The environments that met an obstacle, and what became of it. */
  ghost predicate CrossingCountsTold(r: Report, frames: seq<Frame>, n: nat, contact: seq<bool>)
    requires AllFit(frames, n) && |contact| == n
  {
    Counts(r.opportunities, Meets, frames, n, contact) && Counts(r.rootCrossed, LeavesBehind, frames, n, contact) &&
    Counts(r.footOver, Oversteps, frames, n, contact) && Counts(r.touchdowns, Treads, frames, n, contact) &&
    Counts(r.contacts, Touches, frames, n, contact) && Counts(r.successes, Wins, frames, n, contact)
  }

  /** The counts by reason and by stage. */
  ghost predicate KindsTold(r: Report, frames: seq<Frame>, n: nat, contact: seq<bool>)
    requires AllFit(frames, n) && |contact| == n
  {
    (forall x :: x in r.reasons && Counts(r.reasons[x], Because(x), frames, n, contact)) &&
    forall x :: x in r.stages && Counts(r.stages[x], During(x), frames, n, contact)
  }

  /** The resets by what is recorded of them. */
  ghost predicate ResetCountsTold(r: Report, frames: seq<Frame>, n: nat, contact: seq<bool>)
    requires AllFit(frames, n) && |contact| == n
  {
    Counts(r.resets, IsReset, frames, n, contact) && Counts(r.afterFootOver, AfterFoot, frames, n, contact) &&
    Counts(r.afterRootCrossed, AfterRoot, frames, n, contact) && KindsTold(r, frames, n, contact)
  }

  /** The resets one by one. */
  ghost predicate ResetsTold(r: Report, frames: seq<Frame>, n: nat)
    requires AllFit(frames, n)
  {
    forall i: nat, q :: i in r.firstResets && r.firstResets[i] == q <==> i < n && RecordTold(q, frames, n, i)
  }

  /** The rate times the number it is taken of, at least one, is the count. */
  ghost predicate IsRate(rate: real, count: nat, of: nat) {
    rate * (if of > 0 then of as real else 1.0) == count as real
  }

  /** The opportunities and successes of the environments with the key of the group. */
  ghost predicate GroupTold(g: Group, keys: seq<real>, frames: seq<Frame>, n: nat, contact: seq<bool>)
    requires AllFit(frames, n) && |contact| == |keys| == n
  {
    CountsAmong(g.opportunities, keys, g.key, Meets, frames, n, contact) &&
    CountsAmong(g.successes, keys, g.key, Wins, frames, n, contact) && IsRate(g.rate, g.successes, g.opportunities)
  }

  /** One group for each key that occurs, by increasing key. */
  ghost predicate GroupsTold(groups: seq<Group>, keys: seq<real>, frames: seq<Frame>, n: nat, contact: seq<bool>)
    requires AllFit(frames, n) && |contact| == |keys| == n
  {
    (forall i, j :: 0 <= i < j < |groups| ==> groups[i].key < groups[j].key) &&
    (forall v :: v in keys <==> exists g :: g in groups && g.key == v) &&
    forall g :: g in groups ==> GroupTold(g, keys, frames, n, contact)
  }

  /** The records of all environments, told from the frames. */
  ghost predicate EachTold(es: seq<Env>, frames: seq<Frame>, n: nat, contact: seq<bool>)
    requires AllFit(frames, n) && |contact| == n
  {
    |es| == n && forall i: nat :: i < n ==>
      FlagsAgree(es[i].track, ViewsOf(frames, n, i), |frames| - 1) &&
      (es[i].reset.Some? <==> Ends(frames, n, i)) &&
      (forall q :: es[i].reset == Some(q) <==> RecordTold(q, frames, n, i)) &&
      (Succeeds(es[i], contact[i]) <==> IsTrue(Wins, frames, n, contact, i))
  }

  lemma {:induction false} EachIsTold(frames: seq<Frame>, n: nat, contact: seq<bool>)
    requires AllFit(frames, n) && UnitFrames(frames) && |contact| == n
    ensures EachTold(WatchAll(frames, n), frames, n, contact)
  {
    var es := WatchAll(frames, n);
    assert forall i: nat :: i < n ==> es[i] == Watch(Trace(frames, n, i));
    hide Watch, Trace, WatchAll, UnitFrames, RecordTold, FlagsAgree, Ends, Succeeds, IsTrue, ViewsOf;
    forall i: nat | i < n
      ensures FlagsAgree(es[i].track, ViewsOf(frames, n, i), |frames| - 1)
      ensures es[i].reset.Some? <==> Ends(frames, n, i)
      ensures forall q :: es[i].reset == Some(q) <==> RecordTold(q, frames, n, i)
      ensures Succeeds(es[i], contact[i]) <==> IsTrue(Wins, frames, n, contact, i)
    {
      EnvironmentTold(frames, n, i);
      SuccessIsWin(frames, n, contact, i);
    }
  }

  lemma {:induction false} SuccessIsWin(frames: seq<Frame>, n: nat, contact: seq<bool>, i: nat)
    requires AllFit(frames, n) && UnitFrames(frames) && |contact| == n && i < n
    ensures Succeeds(Watch(Trace(frames, n, i)), contact[i]) <==> IsTrue(Wins, frames, n, contact, i)
  {
    var trace := Trace(frames, n, i);
    TraceShows(frames, n, i);
    SuccessTold(trace, contact[i]);
    hide Succeeds, Watch, UnitFrames, CleanlyCrossed, UnitViews;
  }

  lemma {:induction false} CrossingsAreMarked(es: seq<Env>, frames: seq<Frame>, n: nat, contact: seq<bool>)
    requires AllFit(frames, n) && |contact| == n && EachTold(es, frames, n, contact)
    ensures Marks(Opportunities(es), Meets, frames, n, contact) &&
            Marks(Successes(es, contact), Wins, frames, n, contact)
    ensures Marks(And(Opportunities(es), RootCrossings(es)), LeavesBehind, frames, n, contact)
    ensures Marks(And(Opportunities(es), FeetOver(es)), Oversteps, frames, n, contact)
    ensures Marks(And(Opportunities(es), Touchdowns(es)), Treads, frames, n, contact)
    ensures Marks(And(Opportunities(es), contact), Touches, frames, n, contact)
  {
    hide Met, LeftBehind, Overstepped, Trodden, RecordTold, Ends, Succeeds, CleanlyCrossed;
    assert forall i: nat :: i < n ==> FlagsAgree(es[i].track, ViewsOf(frames, n, i), |frames| - 1);
    hide ViewsOf;
  }

  lemma {:induction false} ResetsAreMarked(es: seq<Env>, frames: seq<Frame>, n: nat, contact: seq<bool>)
    requires AllFit(frames, n) && |contact| == n && EachTold(es, frames, n, contact)
    ensures var rs := RecordsOf(es);
            Marks(Resets(rs), IsReset, frames, n, contact) &&
            Marks(ResetAfterFootOver(rs), AfterFoot, frames, n, contact) &&
            Marks(ResetAfterRootCrossed(rs), AfterRoot, frames, n, contact) &&
            (forall x :: Marks(ResetFor(rs, x), Because(x), frames, n, contact)) &&
            forall x :: Marks(ResetAt(rs, x), During(x), frames, n, contact)
  {
    var rs := RecordsOf(es);
    hide RecordTold, Ends, Succeeds, FlagsAgree, ViewsOf;
    assert forall i: nat :: i < n ==> rs[i] == es[i].reset && (rs[i].Some? ==> rs[i] == Some(rs[i].value));
    hide RecordsOf;
  }

  lemma {:induction false} CrossingCountsAreTold(r: Report, es: seq<Env>, frames: seq<Frame>, n: nat,
                                                 contact: seq<bool>,
                                                 speeds: seq<real>, laterals: seq<real>)
    requires AllFit(frames, n) && |contact| == |speeds| == |laterals| == n && EachTold(es, frames, n, contact)
    requires Reports(r, es, contact, speeds, laterals)
    ensures CrossingCountsTold(r, frames, n, contact)
  {
    CrossingsAreMarked(es, frames, n, contact);
    hide EachTold, Marks, Opportunities, Successes, RootCrossings, FeetOver, Touchdowns, Resets, ResetAfterFootOver,
         ResetAfterRootCrossed, RecordsOf, CountTrue, Summary, Rate, FirstResetsOf, Counts, And, ReasonsCount,
         StagesCount;
    MaskCounts(Opportunities(es), Meets, frames, n, contact);
    MaskCounts(And(Opportunities(es), RootCrossings(es)), LeavesBehind, frames, n, contact);
    MaskCounts(And(Opportunities(es), FeetOver(es)), Oversteps, frames, n, contact);
    MaskCounts(And(Opportunities(es), Touchdowns(es)), Treads, frames, n, contact);
    MaskCounts(And(Opportunities(es), contact), Touches, frames, n, contact);
    MaskCounts(Successes(es, contact), Wins, frames, n, contact);
  }

  lemma {:induction false} ResetCountsAreTold(r: Report, es: seq<Env>, frames: seq<Frame>, n: nat, contact: seq<bool>,
                                              speeds: seq<real>, laterals: seq<real>)
    requires AllFit(frames, n) && |contact| == |speeds| == |laterals| == n && EachTold(es, frames, n, contact)
    requires Reports(r, es, contact, speeds, laterals)
    ensures ResetCountsTold(r, frames, n, contact)
  {
    var rs := RecordsOf(es);
    ResetEntries(r, es, contact, speeds, laterals);
    hide *;
    ResetsAreMarked(es, frames, n, contact);
    MaskCounts(Resets(rs), IsReset, frames, n, contact);
    MaskCounts(ResetAfterFootOver(rs), AfterFoot, frames, n, contact);
    MaskCounts(ResetAfterRootCrossed(rs), AfterRoot, frames, n, contact);
    KindsAreTold(r, rs, frames, n, contact);
    ResetCountsMean(r, frames, n, contact);
  }

  lemma {:induction false} ResetEntries(r: Report, es: seq<Env>, contact: seq<bool>, speeds: seq<real>,
                                        laterals: seq<real>)
    requires |es| == |contact| == |speeds| == |laterals| && Reports(r, es, contact, speeds, laterals)
    ensures var rs := RecordsOf(es);
            r.resets == CountTrue(Resets(rs)) && r.afterFootOver == CountTrue(ResetAfterFootOver(rs)) &&
            r.afterRootCrossed == CountTrue(ResetAfterRootCrossed(rs)) &&
            ReasonsCount(r.reasons, rs) && StagesCount(r.stages, rs)
  {
    hide Opportunities, Successes, Flagged, Resets, ResetAfterFootOver, ResetAfterRootCrossed, RecordsOf, CountTrue,
         Summary, Rate, FirstResetsOf, ReasonsCount, StagesCount;
  }

  lemma {:induction false} KindsAreTold(r: Report, rs: Records, frames: seq<Frame>, n: nat, contact: seq<bool>)
    requires AllFit(frames, n) && |contact| == n && ReasonsCount(r.reasons, rs) && StagesCount(r.stages, rs)
    requires forall x :: Marks(ResetFor(rs, x), Because(x), frames, n, contact)
    requires forall x :: Marks(ResetAt(rs, x), During(x), frames, n, contact)
    ensures KindsTold(r, frames, n, contact)
  {
    hide Marks, ResetFor, ResetAt, CountTrue, Counts;
    forall x ensures x in r.reasons && Counts(r.reasons[x], Because(x), frames, n, contact) {
      MaskCounts(ResetFor(rs, x), Because(x), frames, n, contact);
    }
    forall x ensures x in r.stages && Counts(r.stages[x], During(x), frames, n, contact) {
      MaskCounts(ResetAt(rs, x), During(x), frames, n, contact);
    }
  }

  lemma {:induction false} ResetCountsMean(r: Report, frames: seq<Frame>, n: nat, contact: seq<bool>)
    requires AllFit(frames, n) && |contact| == n && KindsTold(r, frames, n, contact)
    requires Counts(r.resets, IsReset, frames, n, contact) && Counts(r.afterFootOver, AfterFoot, frames, n, contact)
    requires Counts(r.afterRootCrossed, AfterRoot, frames, n, contact)
    ensures ResetCountsTold(r, frames, n, contact)
  {
    hide KindsTold, Counts;
  }

  lemma {:induction false} ResetsAreTold(r: Report, es: seq<Env>, frames: seq<Frame>, n: nat, contact: seq<bool>)
    requires AllFit(frames, n) && |contact| == n && EachTold(es, frames, n, contact)
    requires r.firstResets == FirstResetsOf(RecordsOf(es))
    ensures ResetsTold(r, frames, n)
  {
    hide RecordTold, Ends, Succeeds, FlagsAgree, IsTrue, ViewsOf;
    var rs := RecordsOf(es);
    forall i: nat, q ensures i in r.firstResets && r.firstResets[i] == q <==> i < n && RecordTold(q, frames, n, i) {
      if i < n {
        assert rs[i] == es[i].reset;
        assert rs[i] == Some(q) <==> RecordTold(q, frames, n, i);
      }
    }
  }

  lemma {:induction false} RateIs(a: nat, b: nat)
    ensures IsRate(Rate(a, b), a, b)
  {
    var d := (if b > 0 then b as real else 1.0);
    assert Rate(a, b) == a as real / d;
    assert a as real / d * d == a as real;
  }

  lemma {:induction false} GroupsAreTold(keys: seq<real>, opportunity: seq<bool>, success: seq<bool>,
                                         frames: seq<Frame>,
                                         n: nat, contact: seq<bool>)
    requires AllFit(frames, n) && |contact| == |keys| == |opportunity| == |success| == n
    requires Marks(opportunity, Meets, frames, n, contact) && Marks(success, Wins, frames, n, contact)
    ensures GroupsTold(Summary(keys, opportunity, success), keys, frames, n, contact)
  {
    var values, groups := SortedDistinct(keys), Summary(keys, opportunity, success);
    SortedDistinctIsSorted(keys);
    hide Marks, SortedDistinct, GroupTold, IsTrue;
    forall k | 0 <= k < |values| ensures groups[k].key == values[k] && GroupTold(groups[k], keys, frames, n, contact) {
      OneGroupTold(values[k], keys, opportunity, success, frames, n, contact);
    }
    hide Summary, GroupFor;
    KeysAre(groups, values, keys);
    assert forall g :: g in groups ==> exists k :: 0 <= k < |groups| && groups[k] == g;
  }

  lemma {:induction false} KeysAre(groups: seq<Group>, values: seq<real>, keys: seq<real>)
    requires |groups| == |values| && forall k :: 0 <= k < |values| ==> groups[k].key == values[k]
    requires forall v :: v in values <==> v in keys
    ensures forall v :: v in keys <==> exists g :: g in groups && g.key == v
  {
    forall v | v in keys ensures exists g :: g in groups && g.key == v {
      var k :| 0 <= k < |values| && values[k] == v;
      assert groups[k] in groups;
    }
    forall g | g in groups ensures g.key in keys {
      var k :| 0 <= k < |groups| && groups[k] == g;
      assert values[k] in values;
    }
  }

  lemma {:induction false} OneGroupTold(key: real, keys: seq<real>, opportunity: seq<bool>, success: seq<bool>,
                                        frames: seq<Frame>, n: nat, contact: seq<bool>)
    requires AllFit(frames, n) && |contact| == |keys| == |opportunity| == |success| == n
    requires Marks(opportunity, Meets, frames, n, contact) && Marks(success, Wins, frames, n, contact)
    ensures GroupTold(GroupFor(keys, key, opportunity, success), keys, frames, n, contact)
  {
    var g := GroupFor(keys, key, opportunity, success);
    hide Marks, IsTrue, CountsAmong, CountTrue, Members, And, Rate, IsRate;
    MaskCountsAmong(keys, key, opportunity, Meets, frames, n, contact);
    MaskCountsAmong(keys, key, success, Wins, frames, n, contact);
    RateIs(g.successes, g.opportunities);
  }

  /** Everything a report says, told from the frames. */
  ghost predicate ReportTold(r: Report, frames: seq<Frame>, n: nat, contact: seq<bool>, speeds: seq<real>,
                             laterals: seq<real>)
    requires AllFit(frames, n) && |contact| == |speeds| == |laterals| == n
  {
    CrossingCountsTold(r, frames, n, contact) && ResetCountsTold(r, frames, n, contact) && ResetsTold(r, frames, n) &&
    GroupsTold(r.bySpeed, speeds, frames, n, contact) && GroupsTold(r.byLateral, laterals, frames, n, contact) &&
    IsRate(r.opportunityRate, r.opportunities, n) && IsRate(r.successRate, r.successes, r.opportunities)
  }

  /** Main result: the report of a round of any length is the one told from its frames, where headings are
      normalised. */
  lemma {:induction false} ReportIsTold(r: Report, frames: seq<Frame>, n: nat, contact: seq<bool>, speeds: seq<real>,
                                        laterals: seq<real>)
    requires AllFit(frames, n) && UnitFrames(frames) && |contact| == |speeds| == |laterals| == n
    requires Reports(r, WatchAll(frames, n), contact, speeds, laterals)
    ensures ReportTold(r, frames, n, contact, speeds, laterals)
  {
    var es := WatchAll(frames, n);
    EachIsTold(frames, n, contact);
    CrossingsAreMarked(es, frames, n, contact);
    CrossingCountsAreTold(r, es, frames, n, contact, speeds, laterals);
    ResetCountsAreTold(r, es, frames, n, contact, speeds, laterals);
    hide CrossingCountsTold, ResetCountsTold, ResetsTold, GroupsTold, IsRate, Rate, Summary, Opportunities, Successes,
         WatchAll, UnitFrames, EachTold, Marks, ReasonsCount, StagesCount, RecordsOf, FirstResetsOf;
    ResetsAreTold(r, es, frames, n, contact);
    GroupsAreTold(speeds, Opportunities(es), Successes(es, contact), frames, n, contact);
    GroupsAreTold(laterals, Opportunities(es), Successes(es, contact), frames, n, contact);
    RateIs(r.opportunities, n);
    RateIs(r.successes, r.opportunities);
  }
}
