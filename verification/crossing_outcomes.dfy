/** Controlled crossings told from what the steps showed, in coordinates along and across the heading. */
module CrossingOutcomes {
  import opened Common
  import opened Tensors
  import opened CrossingTracks
  import opened CrossingReports

  // ---- Coordinates ----

  ghost predicate Unit(h: Point) {
    h.0 * h.0 + h.1 * h.1 == 1.0
  }

  /** The point lies a ahead of the origin along the heading, and l to its left. */
  ghost predicate Lies(origin: Point, h: Point, p: Point, a: real, l: real) {
    p.0 == origin.0 + a * h.0 - l * h.1 && p.1 == origin.1 + a * h.1 + l * h.0
  }

  lemma {:induction false} Products(h: Point, a: real, l: real)
    requires Unit(h)
    ensures (a * h.0 - l * h.1) * h.0 + (a * h.1 + l * h.0) * h.1 == a
    ensures (a * h.1 + l * h.0) * h.0 - (a * h.0 - l * h.1) * h.1 == l
  {
    var (c, s) := h;
    var cc, ss, cs := c * c, s * s, c * s;
    assert (a * c - l * s) * c == a * cc - l * cs;
    assert (a * s + l * c) * s == a * ss + l * cs;
    assert (a * s + l * c) * c == a * cs + l * cc;
    assert (a * c - l * s) * s == a * cs - l * ss;
    assert a * cc + a * ss == a * (cc + ss) && l * cc + l * ss == l * (cc + ss);
  }

  lemma {:induction false} BackAgain(h: Point, dx: real, dy: real)
    requires Unit(h)
    ensures Along(h, dx, dy) * h.0 - Leftward(h, dx, dy) * h.1 == dx
    ensures Along(h, dx, dy) * h.1 + Leftward(h, dx, dy) * h.0 == dy
  {
    var (c, s) := h;
    var cc, ss, cs := c * c, s * s, c * s;
    assert (dx * c + dy * s) * c == dx * cc + dy * cs;
    assert (dy * c - dx * s) * s == dy * cs - dx * ss;
    assert (dx * c + dy * s) * s == dx * cs + dy * ss;
    assert (dy * c - dx * s) * c == dy * cc - dx * cs;
    assert dx * cc + dx * ss == dx * (cc + ss) && dy * cc + dy * ss == dy * (cc + ss);
  }

  /** Main result: the two measurements are the coordinates of a displacement in a frame turned with the heading. */
  lemma {:induction false} MeasurementsAreCoordinates(origin: Point, h: Point, p: Point, a: real, l: real)
    requires Unit(h)
    ensures Lies(origin, h, p, a, l) <==>
            a == Along(h, p.0 - origin.0, p.1 - origin.1) && l == Leftward(h, p.0 - origin.0, p.1 - origin.1)
  {
    var (dx, dy) := (p.0 - origin.0, p.1 - origin.1);
    BackAgain(h, dx, dy);
    Products(h, a, l);
    if Lies(origin, h, p, a, l) {
      assert dx == a * h.0 - l * h.1 && dy == a * h.1 + l * h.0;
    }
  }

  // ---- What a step shows ----

  ghost predicate UnitViews(views: seq<View>) {
    forall k :: 0 <= k < |views| ==> Unit(views[k].heading)
  }

  /** A small obstacle in the corridor ahead of the root, a along and l across it. */
  ghost predicate SeenAt(v: View, c: Cell, a: real, l: real) {
    && Lies(v.root, v.heading, (c.x, c.y), a, l) && c.small
    && 0.10 < a < 1.40 && -0.18 < l < 0.18 && 0.015 < c.z - v.rootGround <= 0.30
  }

  ghost predicate Seen(v: View, c: Cell) {
    exists a, l :: SeenAt(v, c, a, l)
  }

  ghost predicate SomeSeen(v: View) {
    exists c :: c in v.cells && Seen(v, c)
  }

  /** How near a cell is: its way ahead, and a twentieth of its way aside. */
  ghost predicate Nears(v: View, c: Cell, d: real) {
    exists a, l :: SeenAt(v, c, a, l) && d == a + 0.05 * (if l < 0.0 then -l else l)
  }

  /** The cell at place n is seen at distance d, none seen is nearer, and none before it as near. */
  ghost predicate NearestBy(v: View, n: int, d: real) {
    0 <= n < |v.cells| && Nears(v, v.cells[n], d) &&
    forall i, b :: 0 <= i < |v.cells| && Nears(v, v.cells[i], b) ==> d <= b && (i < n ==> d < b)
  }

  ghost predicate NearestAt(v: View, n: int) {
    exists d :: NearestBy(v, n, d)
  }

  /** The root is more than the half extent beyond the cell, along the heading h. */
  ghost predicate RootBeyond(c: Cell, h: Point, v: View) {
    exists a, l :: Lies((c.x, c.y), h, v.root, a, l) && a > 0.18
  }

  /** The foot is over the cell's square, turned with the heading h. */
  ghost predicate OverSquare(c: Cell, h: Point, f: Foot) {
    exists a, l :: Lies((c.x, c.y), h, (f.x, f.y), a, l) && -0.18 < a < 0.18 && -0.18 < l < 0.18
  }

  /** A foot is above the square by more than the margin. */
  ghost predicate FootAbove(c: Cell, h: Point, v: View) {
    exists f :: f in v.feet && OverSquare(c, h, f) && f.z - c.z > 0.05
  }

  ghost predicate FootOnSmall(v: View) {
    exists f :: f in v.feet && f.onSmall && f.z - f.ground < 0.04
  }

  lemma {:induction false} SeenIsOnPath(v: View, c: Cell)
    requires Unit(v.heading)
    ensures Seen(v, c) <==> OnPath(v, c)
    ensures forall d :: Nears(v, c, d) <==> OnPath(v, c) && d == Score(v, c)
  {
    var a := Along(v.heading, c.x - v.root.0, c.y - v.root.1);
    var l := Leftward(v.heading, c.x - v.root.0, c.y - v.root.1);
    MeasurementsAreCoordinates(v.root, v.heading, (c.x, c.y), a, l);
    forall a', l' | SeenAt(v, c, a', l') ensures a' == a && l' == l {
      MeasurementsAreCoordinates(v.root, v.heading, (c.x, c.y), a', l');
    }
    hide Along, Leftward, Lies, Unit;
    assert OnPath(v, c) <==> SeenAt(v, c, a, l);
    assert OnPath(v, c) ==> Score(v, c) == a + 0.05 * (if l < 0.0 then -l else l);
    hide SeenAt, OnPath, Score;
  }

  lemma {:induction false} SomeSeenIsPath(v: View)
    requires Unit(v.heading)
    ensures SomeSeen(v) <==> HasPath(v)
  {
    hide Seen, OnPath, Unit;
    forall i | 0 <= i < |v.cells| ensures v.cells[i] in v.cells && (Seen(v, v.cells[i]) <==> OnPath(v, v.cells[i])) {
      SeenIsOnPath(v, v.cells[i]);
    }
  }

  ghost function TargetOf(c: Cell, h: Point): Target {
    Target(c.x, c.y, c.z, h)
  }

  /** Main result: an environment locks on to the nearest cell seen. */
  lemma {:induction false} NearestIsSeen(v: View, n: int)
    requires Unit(v.heading) && HasPath(v) && 0 <= n < |v.cells|
    ensures NearestAt(v, n) <==> n == ArgMin(v, |v.cells|)
    ensures Nearest(v) == TargetOf(v.cells[ArgMin(v, |v.cells|)], v.heading)
  {
    var m := ArgMin(v, |v.cells|);
    NearestIsOnPath(v);
    forall i | 0 <= i < |v.cells|
      ensures forall d :: Nears(v, v.cells[i], d) <==> OnPath(v, v.cells[i]) && d == Score(v, v.cells[i])
    {
      SeenIsOnPath(v, v.cells[i]);
    }
    hide Nears, OnPath, Score, Unit;
    assert NearestBy(v, m, Score(v, v.cells[m]));
  }

  lemma {:induction false} BeyondIsPast(c: Cell, h: Point, v: View)
    requires Unit(h)
    ensures RootBeyond(c, h, v) <==> Past(TargetOf(c, h), v)
  {
    var a, l := Along(h, v.root.0 - c.x, v.root.1 - c.y), Leftward(h, v.root.0 - c.x, v.root.1 - c.y);
    MeasurementsAreCoordinates((c.x, c.y), h, v.root, a, l);
    forall a', l' | Lies((c.x, c.y), h, v.root, a', l') ensures a' == a && l' == l {
      MeasurementsAreCoordinates((c.x, c.y), h, v.root, a', l');
    }
    hide Lies, Along, Leftward, Unit;
  }

  lemma {:induction false} SquareIsFootprint(c: Cell, h: Point, f: Foot)
    requires Unit(h)
    ensures OverSquare(c, h, f) <==> InFootprint(TargetOf(c, h), f)
  {
    var a, l := Along(h, f.x - c.x, f.y - c.y), Leftward(h, f.x - c.x, f.y - c.y);
    MeasurementsAreCoordinates((c.x, c.y), h, (f.x, f.y), a, l);
    forall a', l' | Lies((c.x, c.y), h, (f.x, f.y), a', l') ensures a' == a && l' == l {
      MeasurementsAreCoordinates((c.x, c.y), h, (f.x, f.y), a', l');
    }
    hide Lies, Along, Leftward, Unit;
  }

  lemma {:induction false} AboveIsOver(c: Cell, h: Point, v: View)
    requires Unit(h)
    ensures FootAbove(c, h, v) <==> FootOver(TargetOf(c, h), v)
  {
    hide OverSquare, InFootprint, Unit;
    forall i | 0 <= i < |v.feet|
      ensures v.feet[i] in v.feet && (OverSquare(c, h, v.feet[i]) <==> InFootprint(TargetOf(c, h), v.feet[i]))
    {
      SquareIsFootprint(c, h, v.feet[i]);
    }
  }

  lemma {:induction false} OnSmallIsStanding(v: View)
    ensures FootOnSmall(v) <==> StandsOnSmall(v)
  {
  }

  // ---- What a run shows ----

  /** The first step that shows an obstacle, and the place of the nearest one it shows. */
  ghost predicate LockedOn(views: seq<View>, lock: int, n: int) {
    0 <= lock < |views| && NearestAt(views[lock], n) && forall j :: 0 <= j < lock ==> !SomeSeen(views[j])
  }

  /** From the lock on up to step k, the root was beyond the obstacle at some step. */
  ghost predicate Crossed(views: seq<View>, lock: int, n: int, k: int) {
    0 <= lock < |views| && 0 <= n < |views[lock].cells| &&
    exists m :: lock <= m <= k && m < |views| && RootBeyond(views[lock].cells[n], views[lock].heading, views[m])
  }

  ghost predicate SteppedOver(views: seq<View>, lock: int, n: int, k: int) {
    0 <= lock < |views| && 0 <= n < |views[lock].cells| &&
    exists m :: lock <= m <= k && m < |views| && FootAbove(views[lock].cells[n], views[lock].heading, views[m])
  }

  ghost predicate SteppedOn(views: seq<View>, lock: int, k: int) {
    exists m :: 0 <= lock <= m <= k && m < |views| && FootOnSmall(views[m])
  }

  lemma {:induction false} LockedOnMeans(views: seq<View>, lock: int, n: int)
    requires UnitViews(views)
    ensures LockedOn(views, lock, n) <==> LocksAt(views, lock) && n == ArgMin(views[lock], |views[lock].cells|)
  {
    hide SomeSeen, HasPath, NearestAt, Unit;
    forall j | 0 <= j < |views| ensures SomeSeen(views[j]) <==> HasPath(views[j]) {
      SomeSeenIsPath(views[j]);
    }
    if 0 <= lock < |views| {
      if HasPath(views[lock]) && 0 <= n < |views[lock].cells| {
        NearestIsSeen(views[lock], n);
      }
      NearestNeedsPath(views[lock], n);
      PathNeedsCells(views[lock]);
    }
  }

  lemma {:induction false} NearestNeedsPath(v: View, n: int)
    requires Unit(v.heading)
    ensures NearestAt(v, n) ==> HasPath(v) && 0 <= n < |v.cells|
  {
    hide OnPath, Unit, Nears;
    if d :| NearestBy(v, n, d) {
      SeenIsOnPath(v, v.cells[n]);
      assert Nears(v, v.cells[n], d);
    }
  }

  lemma {:induction false} PathNeedsCells(v: View)
    ensures HasPath(v) ==> v.cells != [] && ArgMin(v, |v.cells|) < |v.cells|
  {
    hide OnPath;
  }

  /** Main result: what is recorded of an environment after step k, told from the steps up to k. */
  lemma {:induction false} FlagsTold(trace: seq<Sight>, k: nat, lock: int, n: int)
    requires UnitViews(Views(trace)) && k < |trace| && LockedOn(Views(trace), lock, n) && lock <= k
    ensures var t := Watch(trace[..k + 1]).track;
            t.opportunity && t.lockStep == lock &&
            (t.rootCrossed <==> Crossed(Views(trace), lock, n, k)) &&
            (t.footOver <==> SteppedOver(Views(trace), lock, n, k)) &&
            (t.touchdown <==> SteppedOn(Views(trace), lock, k))
  {
    var views := Views(trace);
    LockedOnMeans(views, lock, n);
    var v := views[lock];
    PathNeedsCells(v);
    NearestIsSeen(v, n);
    assert v == trace[lock].view && Unit(v.heading);
    hide *;
    FlagsAfter(trace, lock, k + 1);
    TouchAfter(trace, lock, k + 1);
    StepsMean(trace, k, lock, n);
  }

  /** What happened from the lock on, in the measurements of the program. */
  lemma {:induction false} StepsMean(trace: seq<Sight>, k: nat, lock: int, n: int)
    requires UnitViews(Views(trace)) && k < |trace| && 0 <= lock < |trace| && 0 <= n < |trace[lock].view.cells|
    requires Nearest(trace[lock].view) == TargetOf(trace[lock].view.cells[n], trace[lock].view.heading)
    ensures var views, t := Views(trace), Nearest(trace[lock].view);
            (Crossed(views, lock, n, k) <==> exists m :: lock <= m < k + 1 && Past(t, trace[m].view)) &&
            (SteppedOver(views, lock, n, k) <==> exists m :: lock <= m < k + 1 && FootOver(t, trace[m].view)) &&
            (SteppedOn(views, lock, k) <==> exists m :: lock <= m < k + 1 && StandsOnSmall(trace[m].view))
  {
    var views := Views(trace);
    hide Unit, Past, FootOver, StandsOnSmall, RootBeyond, FootAbove, FootOnSmall, Nearest;
    var c, h := trace[lock].view.cells[n], trace[lock].view.heading;
    assert views[lock] == trace[lock].view && Unit(h);
    forall m | 0 <= m < |views|
      ensures views[m] == trace[m].view && (RootBeyond(c, h, views[m]) <==> Past(TargetOf(c, h), views[m]))
      ensures FootAbove(c, h, views[m]) <==> FootOver(TargetOf(c, h), views[m])
      ensures FootOnSmall(views[m]) <==> StandsOnSmall(views[m])
    {
      BeyondIsPast(c, h, views[m]);
      AboveIsOver(c, h, views[m]);
      OnSmallIsStanding(views[m]);
    }
    hide TargetOf;
  }

  lemma {:induction false} TouchAfter(trace: seq<Sight>, lock: int, n: nat)
    requires n <= |trace| && LocksAt(Views(trace), lock) && lock < n
    ensures var t := Watch(trace[..n]).track;
            t.opportunity && t.lockStep == lock &&
            (t.touchdown <==> exists m :: lock <= m < n && StandsOnSmall(trace[m].view))
  {
    hide HasPath, FootOver, StandsOnSmall, Past, Nearest, CountTrue, Watch;
    var views := Views(trace[..n]);
    WatchFollows(trace[..n]);
    FollowMeans(views);
    var track := Watch(trace[..n]).track;
    assert forall m :: 0 <= m < n ==> views[m] == trace[m].view;
    assert HasPath(views[lock]) && forall m :: 0 <= m < lock ==> views[m] == Views(trace)[m];
    assert track.lockStep == lock;
    var stands := StandsFrom(lock, views);
    CountNone(stands);
    assert forall m :: lock <= m < n && StandsOnSmall(trace[m].view) ==> stands[m];
  }

  /** Without a lock nothing is recorded at all. */
  lemma {:induction false} NoLockTold(trace: seq<Sight>, k: nat)
    requires UnitViews(Views(trace)) && k < |trace| && forall lock, n :: LockedOn(Views(trace), lock, n) ==> lock > k
    ensures Watch(trace[..k + 1]).track == NEW_TRACK
  {
    var short := trace[..k + 1];
    WatchFollows(short);
    FollowMeans(Views(short));
    assert forall m :: 0 <= m <= k ==> Views(short)[m] == Views(trace)[m];
    hide Watch, Follow, NearestAt, HasPath, Unit, CountTrue, OversFrom, PastFrom, StandsFrom, PathSeen, Nearest;
    if Watch(short).track.opportunity {
      var lock := Watch(short).track.lockStep;
      assert LocksAt(Views(trace), lock);
      LockedOnMeans(Views(trace), lock, ArgMin(Views(trace)[lock], |Views(trace)[lock].cells|));
    }
    NothingSeen(Views(short));
  }

  lemma {:induction false} NothingSeen(views: seq<View>)
    ensures (forall k :: 0 <= k < |views| ==> !HasPath(views[k])) ==> CountTrue(PathSeen(views)) == 0
  {
    hide HasPath;
    CountNone(PathSeen(views));
  }

  // ---- The first reset ----

  /** The stage a reset at step k falls into. */
  ghost predicate StageTold(views: seq<View>, k: nat, stage: Stage) {
    match stage
    case BeforeOpportunity => forall lock, n :: LockedOn(views, lock, n) ==> lock > k
    case BeforeFootOver => exists lock, n :: LockedOn(views, lock, n) && lock <= k && !SteppedOver(views, lock, n, k)
    case AfterFootOver =>
      exists lock, n ::
        LockedOn(views, lock, n) && lock <= k && SteppedOver(views, lock, n, k) && !Crossed(views, lock, n, k)
    case AfterRootCross =>
      exists lock, n ::
        LockedOn(views, lock, n) && lock <= k && SteppedOver(views, lock, n, k) && Crossed(views, lock, n, k)
  }

  lemma {:induction false} OneLock(views: seq<View>, lock: int, n: int, lock': int, n': int)
    requires UnitViews(views) && LockedOn(views, lock, n) && LockedOn(views, lock', n')
    ensures lock == lock' && n == n'
  {
    LockedOnMeans(views, lock, n);
    LockedOnMeans(views, lock', n');
    hide LockedOn, HasPath, Unit;
  }

  /** Main result: the record of a reset. It is that of the first termination, with its step, its reason, the stage told
      from the steps up to it, and whether a foot was over and the root beyond the obstacle by then. */
  lemma {:induction false} ResetTold(trace: seq<Sight>, k: nat)
    requires UnitViews(Views(trace)) && FirstDone(trace, k)
    ensures var e, views := Watch(trace), Views(trace);
            e.reset.Some? && e.reset.value.step == k && e.reset.value.reason == trace[k].reason &&
            (forall stage :: e.reset.value.stage == stage <==> StageTold(views, k, stage)) &&
            (e.reset.value.afterFootOver <==>
               exists lock, n :: LockedOn(views, lock, n) && lock <= k && SteppedOver(views, lock, n, k)) &&
            (e.reset.value.afterRootCrossed <==>
               exists lock, n :: LockedOn(views, lock, n) && lock <= k && Crossed(views, lock, n, k))
  {
    var views := Views(trace);
    ResetIsFirstDone(trace);
    hide Watch, LockedOn, SteppedOver, Crossed, Unit;
    var t := Watch(trace[..k + 1]).track;
    if lock, n :| LockedOn(views, lock, n) && lock <= k {
      FlagsTold(trace, k, lock, n);
      forall lock', n' | LockedOn(views, lock', n') ensures lock' == lock && n' == n {
        OneLock(views, lock, n, lock', n');
      }
      assert t.opportunity;
    } else {
      NoLockTold(trace, k);
    }
  }

  lemma {:induction false} NoResetTold(trace: seq<Sight>)
    ensures Watch(trace).reset.None? <==> forall k :: 0 <= k < |trace| ==> !trace[k].done
  {
    hide Watch;
    ResetIsFirstDone(trace);
  }

  // ---- Success ----

  /** The obstacle an environment locked on to was stepped over and left behind, and no small one was stepped on. */
  ghost predicate CleanlyCrossed(views: seq<View>) {
    exists lock, n :: LockedOn(views, lock, n) && Crossed(views, lock, n, |views| - 1) &&
                      SteppedOver(views, lock, n, |views| - 1) && !SteppedOn(views, lock, |views| - 1)
  }

  /** Main result: an environment counts as a success exactly when it crossed its obstacle cleanly, without contact and
      without any termination. */
  lemma {:induction false} SuccessTold(trace: seq<Sight>, contact: bool)
    requires UnitViews(Views(trace))
    ensures Succeeds(Watch(trace), contact) <==>
            !contact && (forall k :: 0 <= k < |trace| ==> !trace[k].done) && CleanlyCrossed(Views(trace))
  {
    var views := Views(trace);
    ResetIsFirstDone(trace);
    assert trace == [] ==> Watch(trace).track == NEW_TRACK;
    hide Watch, LockedOn, SteppedOver, Crossed, SteppedOn, Unit, FirstDone;
    if trace == [] {
      forall lock, n ensures !LockedOn(views, lock, n) {
        LockInViews(views, lock, n);
      }
    } else {
      var k := |trace| - 1;
      assert trace[..k + 1] == trace;
      if lock, n :| LockedOn(views, lock, n) {
        LockInViews(views, lock, n);
        FlagsTold(trace, k, lock, n);
        forall lock', n' | LockedOn(views, lock', n') ensures lock' == lock && n' == n {
          OneLock(views, lock, n, lock', n');
        }
      } else {
        NoLockTold(trace, k);
      }
    }
  }

  lemma {:induction false} LockInViews(views: seq<View>, lock: int, n: int)
    ensures LockedOn(views, lock, n) ==> 0 <= lock < |views|
  {
  }
}
