/** Resets during controlled crossings, the report over all environments, and the laws its counts obey. */
module CrossingReports {
  import opened Common
  import opened Tensors
  import opened CrossingTracks
  import opened CrossingGroups

  datatype Reason = BadOrientation | BaseContact | TimeOut | Unknown

  datatype Stage = BeforeOpportunity | BeforeFootOver | AfterFootOver | AfterRootCross

  /** The termination terms of a step; a term may be missing. */
  type Terms = map<Reason, seq<bool>>

  ghost predicate TermsFit(terms: Terms, n: nat) {
    forall r :: r in terms ==> |terms[r]| == n
  }

  const NAMED_REASONS := [BadOrientation, BaseContact, TimeOut]

  /** The first of the named terms that is present and set. */
  function FirstSet(names: seq<Reason>, terms: Terms, env: nat): Reason
    requires forall r :: r in terms ==> env < |terms[r]|
  {
    if names == [] then Unknown
    else if names[0] in terms && terms[names[0]][env] then names[0]
    else FirstSet(names[1..], terms, env)
  }

  function StageOf(t: Track): Stage {
    if !t.opportunity then BeforeOpportunity
    else if !t.footOver then BeforeFootOver
    else if t.rootCrossed then AfterRootCross
    else AfterFootOver
  }

  /** The record of an environment's first reset. */
  datatype Reset = Reset(step: nat, reason: Reason, stage: Stage, afterFootOver: bool, afterRootCrossed: bool)

  function ResetOf(step: nat, reason: Reason, t: Track): Reset {
    Reset(step, reason, StageOf(t), t.footOver, t.rootCrossed)
  }

  datatype Env = Env(track: Track, doneSeen: bool, reset: Option<Reset>)

  /** What a step shows of one environment. */
  datatype Sight = Sight(view: View, done: bool, reason: Reason)

  /** One step: done flags, then measurements, then reset diagnostics. */
  function StepEnv(e: Env, step: nat, s: Sight): Env {
    var track := StepTrack(e.track, step, s.view);
    Env(track, e.doneSeen || s.done, if s.done && e.reset.None? then Some(ResetOf(step, s.reason, track)) else e.reset)
  }

  function Watch(trace: seq<Sight>): Env {
    if trace == [] then Env(NEW_TRACK, false, None) else
      var n := |trace| - 1;
      StepEnv(Watch(trace[..n]), n, trace[n])
  }

  function Views(trace: seq<Sight>): seq<View> {
    seq(|trace|, k requires 0 <= k < |trace| => trace[k].view)
  }

  lemma {:induction false} WatchFollows(trace: seq<Sight>)
    ensures Watch(trace).track == Follow(Views(trace))
  {
    if trace != [] {
      var n := |trace| - 1;
      WatchFollows(trace[..n]);
      assert Views(trace)[..n] == Views(trace[..n]);
    }
  }

  ghost predicate FirstDone(trace: seq<Sight>, k: int) {
    0 <= k < |trace| && trace[k].done && forall j :: 0 <= j < k ==> !trace[j].done
  }

  /** The record is that of the first termination, taken after that step's measurements; no later step touches it. */
  lemma {:induction false} ResetIsFirstDone(trace: seq<Sight>)
    ensures var e := Watch(trace);
            (e.doneSeen <==> e.reset.Some?) && (e.doneSeen <==> exists k :: 0 <= k < |trace| && trace[k].done) &&
            forall k :: FirstDone(trace, k) ==>
              e.reset == Some(ResetOf(k, trace[k].reason, Watch(trace[..k + 1]).track))
  {
    if trace != [] {
      hide StepTrack;
      var n := |trace| - 1;
      ResetIsFirstDone(trace[..n]);
      assert forall k :: 0 <= k < n ==> trace[..n][k] == trace[k] && trace[..n][..k + 1] == trace[..k + 1];
      assert trace[..n + 1] == trace;
      assert forall k :: FirstDone(trace, k) && k < n ==> FirstDone(trace[..n], k);
    }
  }

  /** Crossing flags come only after an opportunity. */
  lemma {:induction false} FlagsNeedOpportunity(trace: seq<Sight>)
    ensures var t := Watch(trace).track; (t.footOver || t.rootCrossed || t.touchdown) ==> t.opportunity
  {
    WatchFollows(trace);
    FollowMeans(Views(trace));
  }

  /** The stage of a reset agrees with the flags recorded beside it. */
  lemma {:induction false} StageMatchesFlags(trace: seq<Sight>)
    ensures var e := Watch(trace);
            e.reset.Some? ==>
            var r := e.reset.value;
            (r.afterFootOver <==> r.stage in {AfterFootOver, AfterRootCross}) &&
            (r.stage == AfterRootCross <==> r.afterFootOver && r.afterRootCrossed)
  {
    ResetIsFirstDone(trace);
    var e := Watch(trace);
    if e.reset.Some? {
      var n :| 0 <= n < |trace| && trace[n].done;
      var k := EarliestDone(trace, n);
      FlagsNeedOpportunity(trace[..k + 1]);
    }
  }

  lemma {:induction false} EarliestDone(trace: seq<Sight>, n: nat) returns (k: nat)
    requires n < |trace| && trace[n].done
    ensures k <= n && FirstDone(trace, k)
  {
    if j :| 0 <= j < n && trace[j].done {
      k := EarliestDone(trace, j);
    } else {
      k := n;
    }
  }

  predicate Succeeds(e: Env, contact: bool) {
    e.track.opportunity && e.track.rootCrossed && e.track.footOver && !e.track.touchdown && !contact && !e.doneSeen
  }

  /** From the lock on, the root got past the locked obstacle, a foot was over it, and no foot stood on a small
      obstacle. */
  ghost predicate CrossesCleanly(views: seq<View>, lock: int) {
    LocksAt(views, lock) &&
    var t := Nearest(views[lock]);
    (exists k :: lock <= k < |views| && Past(t, views[k])) &&
    (exists k :: lock <= k < |views| && FootOver(t, views[k])) &&
    forall k :: lock <= k < |views| ==> !StandsOnSmall(views[k])
  }

  lemma {:induction false} FlagsMeanCleanCrossing(t: Track, views: seq<View>)
    requires Means(t, views) && t.opportunity
    ensures t.rootCrossed && t.footOver && !t.touchdown <==> CrossesCleanly(views, t.lockStep)
  {
    hide HasPath, FootOver, StandsOnSmall, Past, Nearest, CountTrue;
    var overs, stands, past := OversFrom(t.target, t.lockStep, views), StandsFrom(t.lockStep, views),
      PastFrom(t.target, t.lockStep, views);
    CountNone(overs);
    CountNone(stands);
    CountNone(past);
    assert forall k :: 0 <= k < |views| ==> (stands[k] <==> t.lockStep <= k && StandsOnSmall(views[k]));
    assert forall k :: t.lockStep <= k < |views| && FootOver(t.target, views[k]) ==> overs[k];
    assert forall k :: t.lockStep <= k < |views| && Past(t.target, views[k]) ==> past[k];
    assert forall k :: t.lockStep <= k < |views| && StandsOnSmall(views[k]) ==> stands[k];
  }

  /** What a reported success means for the whole round: an obstacle was met and crossed cleanly, without contact or
      reset. */
  lemma {:induction false} SuccessMeans(trace: seq<Sight>, contact: bool)
    ensures Succeeds(Watch(trace), contact) <==>
            (!contact && (forall k :: 0 <= k < |trace| ==> !trace[k].done) &&
             exists lock :: CrossesCleanly(Views(trace), lock))
  {
    hide HasPath, FootOver, StandsOnSmall, Past, Nearest, CountTrue;
    var views := Views(trace);
    var t := Watch(trace).track;
    WatchFollows(trace);
    FollowMeans(views);
    ResetIsFirstDone(trace);
    if t.opportunity {
      FlagsMeanCleanCrossing(t, views);
      forall lock | CrossesCleanly(views, lock) ensures lock == t.lockStep {
        assert LocksAt(views, lock) && LocksAt(views, t.lockStep);
      }
    }
  }

  // ---- All environments ----

  type Records = seq<Option<Reset>>

  function RecordsOf(es: seq<Env>): (rs: Records)
    ensures |rs| == |es|
  {
    seq(|es|, i requires 0 <= i < |es| => es[i].reset)
  }

  function Resets(rs: Records): seq<bool> {
    seq(|rs|, i requires 0 <= i < |rs| => rs[i].Some?)
  }

  function ResetFor(rs: Records, r: Reason): seq<bool> {
    seq(|rs|, i requires 0 <= i < |rs| => rs[i].Some? && rs[i].value.reason == r)
  }

  function ResetAt(rs: Records, s: Stage): seq<bool> {
    seq(|rs|, i requires 0 <= i < |rs| => rs[i].Some? && rs[i].value.stage == s)
  }

  function ResetAfterFootOver(rs: Records): seq<bool> {
    seq(|rs|, i requires 0 <= i < |rs| => rs[i].Some? && rs[i].value.afterFootOver)
  }

  function ResetAfterRootCrossed(rs: Records): seq<bool> {
    seq(|rs|, i requires 0 <= i < |rs| => rs[i].Some? && rs[i].value.afterRootCrossed)
  }

  /** Reset with the root past and no foot over before. */
  function ResetRootFirst(rs: Records): seq<bool> {
    seq(|rs|, i requires 0 <= i < |rs| => rs[i].Some? && rs[i].value.afterRootCrossed && !rs[i].value.afterFootOver)
  }

  function Opportunities(es: seq<Env>): seq<bool> {
    seq(|es|, i requires 0 <= i < |es| => es[i].track.opportunity)
  }

  function Successes(es: seq<Env>, contact: seq<bool>): seq<bool>
    requires |es| == |contact|
  {
    seq(|es|, i requires 0 <= i < |es| => Succeeds(es[i], contact[i]))
  }

  ghost predicate Watched(es: seq<Env>) {
    forall e :: e in es ==> exists trace :: e == Watch(trace)
  }

  /** Three-way and four-way splits of a mask. */
  lemma {:induction false} CountSplit(whole: seq<bool>, a: seq<bool>, b: seq<bool>)
    requires |whole| == |a| == |b| && forall i :: 0 <= i < |a| ==> (whole[i] <==> a[i] || b[i]) && !(a[i] && b[i])
    ensures CountTrue(whole) == CountTrue(a) + CountTrue(b)
  {
    CountBoth(a, b);
    assert Or(a, b) == whole;
    CountNone(And(a, b));
  }

  /** Reasons add up to the resets, and so do stages. */
  lemma {:induction false} ResetsAddUp(rs: Records)
    ensures CountTrue(Resets(rs)) == CountTrue(ResetFor(rs, BadOrientation)) + CountTrue(ResetFor(rs, BaseContact)) +
                                     CountTrue(ResetFor(rs, TimeOut)) + CountTrue(ResetFor(rs, Unknown))
    ensures CountTrue(Resets(rs)) ==
            CountTrue(ResetAt(rs, BeforeOpportunity)) + CountTrue(ResetAt(rs, BeforeFootOver)) +
                                     CountTrue(ResetAt(rs, AfterFootOver)) + CountTrue(ResetAt(rs, AfterRootCross))
  {
    var r1, r2 := ResetFor(rs, BadOrientation), ResetFor(rs, BaseContact);
    var r3, r4 := ResetFor(rs, TimeOut), ResetFor(rs, Unknown);
    CountSplit(Or(r1, r2), r1, r2);
    CountSplit(Or(r3, r4), r3, r4);
    CountSplit(Resets(rs), Or(r1, r2), Or(r3, r4));
    var s1, s2 := ResetAt(rs, BeforeOpportunity), ResetAt(rs, BeforeFootOver);
    var s3, s4 := ResetAt(rs, AfterFootOver), ResetAt(rs, AfterRootCross);
    CountSplit(Or(s1, s2), s1, s2);
    CountSplit(Or(s3, s4), s3, s4);
    CountSplit(Resets(rs), Or(s1, s2), Or(s3, s4));
  }

  /** Resets after a foot was over are those of the two last stages; those of the last stage are among those after the
      root crossed, and the ones missing there are those without a foot over. */
  lemma {:induction false} FlagsAddUp(es: seq<Env>)
    requires Watched(es)
    ensures var rs := RecordsOf(es);
            CountTrue(ResetAfterFootOver(rs)) ==
              CountTrue(ResetAt(rs, AfterFootOver)) + CountTrue(ResetAt(rs, AfterRootCross)) &&
            CountTrue(ResetAfterRootCrossed(rs)) ==
              CountTrue(ResetAt(rs, AfterRootCross)) + CountTrue(ResetRootFirst(rs))
  {
    hide Watch;
    var rs := RecordsOf(es);
    var over, last, past := ResetAfterFootOver(rs), ResetAt(rs, AfterRootCross), ResetAfterRootCrossed(rs);
    forall i | 0 <= i < |es|
      ensures over[i] <==> ResetAt(rs, AfterFootOver)[i] || last[i]
      ensures last[i] <==> past[i] && over[i]
    {
      assert es[i] in es;
      var trace :| es[i] == Watch(trace);
      StageMatchesFlags(trace);
    }
    CountSplit(over, ResetAt(rs, AfterFootOver), last);
    CountSplit(past, last, ResetRootFirst(rs));
  }

  // ---- A root that crosses before any foot is over ----

  /** At its first termination the environment had its root past the locked obstacle, but never a foot over it. */
  ghost predicate RootFirstAt(trace: seq<Sight>, lock: int, k: int) {
    FirstDone(trace, k) && 0 <= lock <= k && LocksAt(Views(trace), lock) &&
    var t := Nearest(trace[lock].view);
    (exists m :: lock <= m <= k && Past(t, trace[m].view)) && forall m :: lock <= m <= k ==> !FootOver(t, trace[m].view)
  }

  ghost predicate RootFirst(trace: seq<Sight>) {
    exists lock, k :: RootFirstAt(trace, lock, k)
  }

  /** The flags after a number of steps, read off these steps. */
  lemma {:induction false} FlagsAfter(trace: seq<Sight>, lock: int, n: nat)
    requires n <= |trace| && LocksAt(Views(trace), lock) && lock < n
    ensures var track := Watch(trace[..n]).track; var t := Nearest(trace[lock].view);
            (track.rootCrossed <==> exists m :: lock <= m < n && Past(t, trace[m].view)) &&
            (track.footOver <==> exists m :: lock <= m < n && FootOver(t, trace[m].view))
  {
    hide HasPath, FootOver, StandsOnSmall, Past, Nearest, CountTrue, Watch;
    var views := Views(trace[..n]);
    WatchFollows(trace[..n]);
    FollowMeans(views);
    var track := Watch(trace[..n]).track;
    assert forall m :: 0 <= m < n ==> views[m] == trace[m].view;
    assert HasPath(views[lock]) && forall m :: 0 <= m < lock ==> views[m] == Views(trace)[m];
    assert track.lockStep == lock;
    var overs, past := OversFrom(track.target, lock, views), PastFrom(track.target, lock, views);
    CountNone(overs);
    CountNone(past);
    assert forall m :: lock <= m < n && FootOver(track.target, trace[m].view) ==> overs[m];
    assert forall m :: lock <= m < n && Past(track.target, trace[m].view) ==> past[m];
  }

  lemma {:induction false} FlagsNeedLock(trace: seq<Sight>, n: nat) returns (lock: int)
    requires n <= |trace| && Watch(trace[..n]).track.rootCrossed
    ensures LocksAt(Views(trace), lock) && lock < n
  {
    hide HasPath, Nearest, CountTrue, Watch, OversFrom, PastFrom, StandsFrom;
    WatchFollows(trace[..n]);
    FollowMeans(Views(trace[..n]));
    lock := Watch(trace[..n]).track.lockStep;
    assert forall m :: 0 <= m < n ==> Views(trace[..n])[m] == Views(trace)[m];
  }

  predicate ResetsRootFirst(r: Option<Reset>) {
    r.Some? && r.value.afterRootCrossed && !r.value.afterFootOver
  }

  /** What such a record means for the whole trace. */
  lemma {:induction false} RootFirstMeans(trace: seq<Sight>)
    ensures ResetsRootFirst(Watch(trace).reset) <==> RootFirst(trace)
  {
    hide Watch, Nearest, Past, FootOver, LocksAt;
    ResetIsFirstDone(trace);
    if Watch(trace).reset.Some? {
      var n :| 0 <= n < |trace| && trace[n].done;
      var k := EarliestDone(trace, n);
      assert FirstDone(trace, k);
      if ResetsRootFirst(Watch(trace).reset) {
        var lock := FlagsNeedLock(trace, k + 1);
        LockInRange(trace, lock);
        FlagsAfter(trace, lock, k + 1);
        assert RootFirstAt(trace, lock, k);
      }
    }
    if lock, k :| RootFirstAt(trace, lock, k) {
      FlagsAfter(trace, lock, k + 1);
    }
  }

  lemma {:induction false} LockInRange(trace: seq<Sight>, lock: int)
    requires LocksAt(Views(trace), lock)
    ensures 0 <= lock < |trace|
  {
  }

  function WatchEach(traces: seq<seq<Sight>>): (es: seq<Env>)
    ensures |es| == |traces|
  {
    seq(|traces|, i requires 0 <= i < |traces| => Watch(traces[i]))
  }

  /** The last stage counts all resets after the root crossed exactly when no environment terminated with its root past
      the obstacle and no foot ever over it. */
  lemma {:induction false} LastStageCountsExactlyWhen(traces: seq<seq<Sight>>)
    ensures var rs := RecordsOf(WatchEach(traces));
            CountTrue(ResetAt(rs, AfterRootCross)) == CountTrue(ResetAfterRootCrossed(rs)) <==>
              forall trace :: trace in traces ==> !RootFirst(trace)
  {
    hide Watch, RootFirst;
    var es := WatchEach(traces);
    var rs := RecordsOf(es);
    EachIsWatched(traces);
    FlagsAddUp(es);
    CountNone(ResetRootFirst(rs));
    forall i | 0 <= i < |traces| ensures ResetRootFirst(rs)[i] <==> RootFirst(traces[i]) {
      RootFirstMeans(traces[i]);
    }
    assert forall i :: 0 <= i < |traces| ==> traces[i] in traces;
  }

  /** No reported success was ever reset, and every success was an opportunity. */
  lemma {:induction false} SuccessesWereNotReset(es: seq<Env>, contact: seq<bool>)
    requires Watched(es) && |es| == |contact|
    ensures CountTrue(Successes(es, contact)) + CountTrue(Resets(RecordsOf(es))) <= |es|
    ensures CountTrue(Successes(es, contact)) <= CountTrue(Opportunities(es))
  {
    hide Watch;
    var won, reset := Successes(es, contact), Resets(RecordsOf(es));
    forall i | 0 <= i < |es| ensures won[i] ==> Not(reset)[i] {
      assert es[i] in es;
      var trace :| es[i] == Watch(trace);
      ResetIsFirstDone(trace);
    }
    CountWithin(won, Not(reset));
    CountNot(reset);
    CountWithin(won, Opportunities(es));
  }

  // ---- The report ----

  /** The counts of the round summary. */
  datatype Report = Report(
    opportunities: nat, rootCrossed: nat, footOver: nat, touchdowns: nat, contacts: nat, successes: nat,
    bySpeed: seq<Group>, byLateral: seq<Group>, resets: nat, afterFootOver: nat, afterRootCrossed: nat,
    reasons: map<Reason, nat>, stages: map<Stage, nat>, opportunityRate: real, successRate: real,
    firstResets: map<nat, Reset>)

  /** The environments with an opportunity that also have the given flag. */
  function Flagged(es: seq<Env>, flag: seq<bool>): nat
    requires |es| == |flag|
  {
    CountTrue(And(Opportunities(es), flag))
  }

  function RootCrossings(es: seq<Env>): seq<bool> {
    seq(|es|, i requires 0 <= i < |es| => es[i].track.rootCrossed)
  }

  function FeetOver(es: seq<Env>): seq<bool> {
    seq(|es|, i requires 0 <= i < |es| => es[i].track.footOver)
  }

  function Touchdowns(es: seq<Env>): seq<bool> {
    seq(|es|, i requires 0 <= i < |es| => es[i].track.touchdown)
  }

  ghost predicate ReasonsCount(counts: map<Reason, nat>, rs: Records) {
    forall r: Reason :: r in counts && counts[r] == CountTrue(ResetFor(rs, r))
  }

  ghost predicate StagesCount(counts: map<Stage, nat>, rs: Records) {
    forall s: Stage :: s in counts && counts[s] == CountTrue(ResetAt(rs, s))
  }

  /** The environments that were reset, with their records. */
  function FirstResetsOf(rs: Records): map<nat, Reset> {
    map i: nat | i < |rs| && rs[i].Some? :: rs[i].value
  }

  /** The report says of the environments what its entries are named for. */
  ghost predicate Reports(report: Report, es: seq<Env>, contact: seq<bool>, speeds: seq<real>, laterals: seq<real>)
    requires |es| == |contact| == |speeds| == |laterals|
  {
    var rs := RecordsOf(es);
    report.opportunities == CountTrue(Opportunities(es)) && report.rootCrossed == Flagged(es, RootCrossings(es)) &&
    report.footOver == Flagged(es, FeetOver(es)) && report.touchdowns == Flagged(es, Touchdowns(es)) &&
    report.contacts == Flagged(es, contact) && report.successes == CountTrue(Successes(es, contact)) &&
    report.bySpeed == Summary(speeds, Opportunities(es), Successes(es, contact)) &&
    report.byLateral == Summary(laterals, Opportunities(es), Successes(es, contact)) &&
    report.resets == CountTrue(Resets(rs)) && report.afterFootOver == CountTrue(ResetAfterFootOver(rs)) &&
    report.afterRootCrossed == CountTrue(ResetAfterRootCrossed(rs)) &&
    ReasonsCount(report.reasons, rs) && StagesCount(report.stages, rs) &&
    report.opportunityRate == Rate(report.opportunities, |es|) &&
    report.successRate == Rate(report.successes, report.opportunities) &&
    report.firstResets == FirstResetsOf(rs)
  }

  /** The conservation laws of a report. */
  ghost predicate Conserves(r: Report, n: nat) {
    (forall x: Reason :: x in r.reasons) && (forall x: Stage :: x in r.stages) &&
    r.resets == r.reasons[BadOrientation] + r.reasons[BaseContact] + r.reasons[TimeOut] + r.reasons[Unknown] &&
    r.resets ==
      r.stages[BeforeOpportunity] + r.stages[BeforeFootOver] + r.stages[AfterFootOver] + r.stages[AfterRootCross] &&
    r.afterFootOver == r.stages[AfterFootOver] + r.stages[AfterRootCross] &&
    r.stages[AfterRootCross] <= r.afterRootCrossed &&
    TotalOpportunities(r.bySpeed) == TotalOpportunities(r.byLateral) == r.opportunities &&
    TotalSuccesses(r.bySpeed) == TotalSuccesses(r.byLateral) == r.successes &&
    r.successes <= r.opportunities <= n && r.successes + r.resets <= n && |r.firstResets| == r.resets &&
    RatesAgree(r, n)
  }

  /** All rates are fractions; the success rate is one exactly where all opportunities succeeded. */
  ghost predicate RatesAgree(r: Report, n: nat) {
    0.0 <= r.opportunityRate <= 1.0 && 0.0 <= r.successRate <= 1.0 &&
    (r.successRate == 1.0 <==> r.successes == r.opportunities > 0) &&
    forall g :: g in r.bySpeed + r.byLateral ==> g.successes <= g.opportunities && 0.0 <= g.rate <= 1.0
  }

  /** The report of every round of every length conserves its counts. */
  lemma {:induction false} ReportConserves(report: Report, es: seq<Env>, contact: seq<bool>, speeds: seq<real>,
                                           laterals: seq<real>)
    requires Watched(es) && |es| == |contact| == |speeds| == |laterals|
    requires Reports(report, es, contact, speeds, laterals)
    ensures Conserves(report, |es|)
  {
    ResetsAddUp(RecordsOf(es));
    FlagsAddUp(es);
    SuccessesWereNotReset(es, contact);
    GroupsAddUp(speeds, Opportunities(es), Successes(es, contact));
    GroupsAddUp(laterals, Opportunities(es), Successes(es, contact));
    ResetsAreListed(RecordsOf(es));
    RatesAreFractions(report, es, contact, speeds, laterals);
    hide Watched, CountTrue, Opportunities, Successes, Resets, ResetFor, ResetAt, RecordsOf, Summary,
         ResetAfterFootOver, ResetAfterRootCrossed,
         RatesAgree, FirstResetsOf, ResetRootFirst, Rate;
  }

  /** As many first resets are listed as environments were reset. */
  lemma {:induction false} ResetsAreListed(rs: Records)
    ensures |FirstResetsOf(rs)| == CountTrue(Resets(rs))
  {
    MarkedAreCounted(Resets(rs), FirstResetsOf(rs).Keys);
    assert |FirstResetsOf(rs)| == |FirstResetsOf(rs).Keys|;
  }

  lemma {:induction false} RatesAreFractions(report: Report, es: seq<Env>, contact: seq<bool>, speeds: seq<real>,
                                             laterals: seq<real>)
    requires Watched(es) && |es| == |contact| == |speeds| == |laterals|
    requires Reports(report, es, contact, speeds, laterals)
    ensures RatesAgree(report, |es|) && report.opportunities <= |es|
  {
    var opportunity, success := Opportunities(es), Successes(es, contact);
    SuccessesWereNotReset(es, contact);
    CountNot(opportunity);
    RateIsFraction(report.opportunities, |es|);
    RateIsFraction(report.successes, report.opportunities);
    GroupRates(speeds, opportunity, success);
    GroupRates(laterals, opportunity, success);
    hide Watched, CountTrue, Rate, Summary, Opportunities, Successes;
  }

  // ---- Such a run ----

  /** Four feet around a root on the x axis, wider apart than the obstacle. */
  function FeetAt(x: real): seq<Foot> {
    [Foot(x + 0.2, 0.3, 0.0, 0.0, false), Foot(x + 0.2, -0.3, 0.0, 0.0, false),
     Foot(x - 0.2, 0.3, 0.0, 0.0, false), Foot(x - 0.2, -0.3, 0.0, 0.0, false)]
  }

  /** A terrain with one small obstacle, seen from a root on the x axis. */
  function Standing(x: real): View {
    View([Cell(0.5, 0.0, 0.2, true)], (x, 0.0), 0.0, (1.0, 0.0), FeetAt(x))
  }

  const SEEN := Target(0.5, 0.0, 0.2, (1.0, 0.0))

  lemma {:induction false} AlongTheAxis(dx: real, dy: real)
    ensures Along((1.0, 0.0), dx, dy) == dx && Leftward((1.0, 0.0), dx, dy) == dy
  {
  }

  lemma {:induction false} WideFeet(x: real)
    ensures !FootOver(SEEN, Standing(x))
  {
    forall f | f in FeetAt(x) ensures !InFootprint(SEEN, f) {
      AlongTheAxis(f.x - SEEN.x, f.y - SEEN.y);
    }
  }

  lemma {:induction false} StandingViews()
    ensures HasPath(Standing(0.0)) && Nearest(Standing(0.0)) == SEEN && !FootOver(SEEN, Standing(0.0)) &&
            !FootOver(SEEN, Standing(1.0))
    ensures Past(SEEN, Standing(1.0))
  {
    AlongTheAxis(0.5, 0.0);
    assert OnPath(Standing(0.0), Standing(0.0).cells[0]);
    WideFeet(0.0);
    WideFeet(1.0);
  }

  const ROOT_FIRST := [Sight(Standing(0.0), false, Unknown), Sight(Standing(1.0), true, TimeOut)]

  /** Two steps over one obstacle, with four feet beside it, after which the last stage undercounts. */
  lemma {:induction false} RootFirstUndercounts()
    ensures RootFirst(ROOT_FIRST)
    ensures var rs := RecordsOf(WatchEach([ROOT_FIRST]));
            CountTrue(ResetAt(rs, AfterRootCross)) < CountTrue(ResetAfterRootCrossed(rs))
  {
    StandingViews();
    assert LocksAt(Views(ROOT_FIRST), 0) && FirstDone(ROOT_FIRST, 1);
    hide Past, FootOver, Nearest, HasPath;
    assert Past(SEEN, ROOT_FIRST[1].view);
    assert RootFirstAt(ROOT_FIRST, 0, 1);
    hide RootFirst, WatchEach;
    LastStageCountsExactlyWhen([ROOT_FIRST]);
    assert ROOT_FIRST in [ROOT_FIRST];
    var es := WatchEach([ROOT_FIRST]);
    EachIsWatched([ROOT_FIRST]);
    FlagsAddUp(es);
  }

  lemma {:induction false} EachIsWatched(traces: seq<seq<Sight>>)
    ensures Watched(WatchEach(traces))
  {
    hide Watch;
    forall e | e in WatchEach(traces) ensures exists trace :: e == Watch(trace) {
      var i :| 0 <= i < |traces| && e == WatchEach(traces)[i];
      assert e == Watch(traces[i]);
    }
  }
}
