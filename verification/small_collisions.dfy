/** Which environments touched a small obstacle during a round, when first, and with which bodies. */
module SmallCollisions {
  import opened Common
  import opened Tensors

  /** One body's contact force magnitudes, one for each filtered obstacle. */
  type Forces = seq<real>

  /** One step's evidence: contact forces by environment and body, or a mask for the whole robot. */
  datatype Event =
    | Contact(forces: seq<seq<Forces>>, bodies: seq<string>)
    | Mask(hit: seq<bool>, body: string, force: Option<real>)

  datatype CollisionError = ShapeMismatch

  predicate Fits(e: Event, n: nat) {
    match e
    case Contact(forces, _) => |forces| == n
    case Mask(hit, _, _) => |hit| == n
  }

  /** The environments an event is about. */
  ghost function Width(e: Event): nat {
    if e.Contact? then |e.forces| else |e.hit|
  }

  predicate Exceeds(f: Forces, threshold: real) {
    exists j :: 0 <= j < |f| && f[j] > threshold
  }

  /** Some body of the environment is in contact. */
  predicate Hit(e: Event, threshold: real, env: nat) {
    match e
    case Contact(forces, _) =>
      env < |forces| && exists b :: 0 <= b < |forces[env]| && Exceeds(forces[env][b], threshold)
    case Mask(hit, _, _) => env < |hit| && hit[env]
  }

  /** The bodies in contact, as far as they have names. */
  function HitBodies(e: Event, threshold: real, env: nat): set<string> {
    match e
    case Contact(forces, bodies) =>
      if env < |forces| then
        set b | 0 <= b < |forces[env]| && b < |bodies| && Exceeds(forces[env][b], threshold) :: bodies[b]
      else {}
    case Mask(_, body, _) => {body}
  }

  // ---- What the records of an environment mean ----

  ghost predicate FirstHit(history: seq<Event>, threshold: real, env: nat, k: nat) {
    k < |history| && Hit(history[k], threshold, env) && forall j :: 0 <= j < k ==> !Hit(history[j], threshold, env)
  }

  ghost predicate TouchedBy(history: seq<Event>, threshold: real, env: nat, body: string) {
    exists k :: 0 <= k < |history| && Hit(history[k], threshold, env) && body in HitBodies(history[k], threshold, env)
  }

  /** An environment is marked, dated and given bodies together: the first step with a contact, and the bodies of all
      contacts. */
  ghost predicate Tells(history: seq<Event>, threshold: real, env: nat, collided: bool, first: Option<nat>,
                        bodies: Option<set<string>>) {
    (collided <==> exists k :: 0 <= k < |history| && Hit(history[k], threshold, env)) &&
    (collided <==> first.Some?) && (collided <==> bodies.Some?) &&
    (first.Some? ==> FirstHit(history, threshold, env, first.value)) &&
    (bodies.Some? ==> forall b :: b in bodies.value <==> TouchedBy(history, threshold, env, b))
  }

  /** The update of one environment's records. */
  function Marked(first: Option<nat>, step: nat): Option<nat> {
    if first.Some? then first else Some(step)
  }

  function Named(bodies: Option<set<string>>, more: set<string>): Option<set<string>> {
    Some(if bodies.Some? then bodies.value + more else more)
  }

  lemma {:induction false} TellsMore(
    history: seq<Event>, threshold: real, env: nat, collided: bool, first: Option<nat>, bodies: Option<set<string>>,
    e: Event)
    requires Tells(history, threshold, env, collided, first, bodies)
    ensures Hit(e, threshold, env) ==>
              Tells(history + [e], threshold, env, true, Marked(first, |history|),
                    Named(bodies, HitBodies(e, threshold, env)))
    ensures !Hit(e, threshold, env) ==> Tells(history + [e], threshold, env, collided, first, bodies)
  {
    hide Hit, HitBodies;
    var longer := history + [e];
    assert longer[|history|] == e && forall k :: 0 <= k < |history| ==> longer[k] == history[k];
    assert forall b :: TouchedBy(longer, threshold, env, b) <==>
                       TouchedBy(history, threshold, env, b) ||
                         (Hit(e, threshold, env) && b in HitBodies(e, threshold, env));
  }

  // ---- The largest force ----

  /** `max` over nested lists, from an earlier maximum on. */
  function LargestOf(f: Forces, m: real): (r: real)
    ensures r >= m && (forall x :: x in f ==> x <= r) && (r == m || r in f)
  {
    if f == [] then m else
      assert f == [f[0]] + f[1..];
      var rest := LargestOf(f[1..], m);
      Max(rest, f[0])
  }

  function LargestOfBodies(fs: seq<Forces>, m: real): (r: real)
    ensures r >= m && (forall f, x :: f in fs && x in f ==> x <= r) && (r == m || exists f :: f in fs && r in f)
  {
    if fs == [] then m else LargestOf(fs[0], LargestOfBodies(fs[1..], m))
  }

  function LargestOfEnvs(envs: seq<seq<Forces>>, m: real): (r: real)
    ensures r >= m && (forall fs, f, x :: fs in envs && f in fs && x in f ==> x <= r)
    ensures r == m || exists fs, f :: fs in envs && f in fs && r in f
  {
    if envs == [] then m else LargestOfBodies(envs[0], LargestOfEnvs(envs[1..], m))
  }

  function LargestAfter(e: Event, m: real): (r: real)
    ensures r >= m && (forall x :: Pressed(e, x) ==> x <= r) && (r == m || Pressed(e, r))
  {
    match e
    case Contact(forces, _) => LargestOfEnvs(forces, m)
    case Mask(_, _, force) => if force.Some? then Max(m, force.value) else m
  }

  /** The force occurs in the step. */
  ghost predicate Pressed(e: Event, x: real) {
    match e
    case Contact(forces, _) => exists fs, f :: fs in forces && f in fs && x in f
    case Mask(_, _, force) => force == Some(x)
  }

  /** The largest force of all steps, zero where there is none above. */
  ghost predicate IsLargest(history: seq<Event>, m: real) {
    m >= 0.0 && (forall e, x :: e in history && Pressed(e, x) ==> x <= m) &&
      (m == 0.0 || exists e :: e in history && Pressed(e, m))
  }

  lemma {:induction false} LargestGrows(history: seq<Event>, m: real, e: Event)
    requires IsLargest(history, m)
    ensures IsLargest(history + [e], LargestAfter(e, m))
  {
    hide Pressed;
    assert forall x :: x in history + [e] <==> x in history || x == e;
  }

  function Look<T>(m: map<nat, T>, i: nat): Option<T> {
    if i in m then Some(m[i]) else None
  }

  /** The environments in contact at some step. */
  ghost function ContactSeen(history: seq<Event>, threshold: real, n: nat): seq<bool> {
    seq(n, i requires 0 <= i < n => exists k :: 0 <= k < |history| && Hit(history[k], threshold, i))
  }

  /** Some force on the environment exceeds the threshold, or its place in the mask is set. */
  ghost predicate TouchedIn(e: Event, threshold: real, env: nat) {
    match e
    case Contact(forces, _) =>
      env < |forces| &&
      exists b, j :: 0 <= b < |forces[env]| && 0 <= j < |forces[env][b]| && forces[env][b][j] > threshold
    case Mask(hit, _, _) => env < |hit| && hit[env]
  }

  lemma {:induction false} HitIsTouched(e: Event, threshold: real, env: nat)
    ensures Hit(e, threshold, env) <==> TouchedIn(e, threshold, env)
  {
  }

  /** Main result: of contact events alone, some environment was in contact exactly when the largest force of the round
      exceeds the threshold. */
  lemma {:induction false} ContactExactlyWhenLargest(history: seq<Event>, threshold: real, m: real)
    requires threshold >= 0.0 && IsLargest(history, m) && forall e :: e in history ==> e.Contact?
    ensures m > threshold <==> exists k, env: nat :: 0 <= k < |history| && Hit(history[k], threshold, env)
  {
    if m > threshold {
      var e :| e in history && Pressed(e, m);
      var k :| 0 <= k < |history| && history[k] == e;
      var fs, f :| fs in e.forces && f in fs && m in f;
      var env: nat :| env < |e.forces| && e.forces[env] == fs;
      var b :| 0 <= b < |fs| && fs[b] == f;
      assert Exceeds(f, threshold);
      assert Hit(history[k], threshold, env);
    }
    if k, env: nat :| 0 <= k < |history| && Hit(history[k], threshold, env) {
      var e := history[k];
      var b :| 0 <= b < |e.forces[env]| && Exceeds(e.forces[env][b], threshold);
      var j :| 0 <= j < |e.forces[env][b]| && e.forces[env][b][j] > threshold;
      assert e in history && Pressed(e, e.forces[env][b][j]) by {
        assert e.forces[env] in e.forces && e.forces[env][b] in e.forces[env];
      }
    }
  }

  /** The bodies named are those with an exceeding force of their own, as far as names reach; a mask names its one
      body. */
  lemma {:induction false} NamedBodies(e: Event, threshold: real, env: nat, body: string)
    ensures body in HitBodies(e, threshold, env) <==>
            match e
            case Contact(forces, bodies) =>
              env < |forces| && exists b, j :: 0 <= b < |forces[env]| && b < |bodies| && bodies[b] == body &&
                                               0 <= j < |forces[env][b]| && forces[env][b][j] > threshold
            case Mask(_, name, _) => body == name
  {
  }

  /** The accumulator of a round. */
  class SmallCollisionRound {
    const n: nat
    const threshold: real
    var collided: seq<bool>
    var firstStep: map<nat, nat>
    var bodyNames: map<nat, set<string>>
    var forceMax: real
    ghost var history: seq<Event>

    ghost predicate TellsAt(past: seq<Event>, i: nat)
      requires |collided| == n && i < n
      reads this
    {
      Tells(past, threshold, i, collided[i], Look(firstStep, i), Look(bodyNames, i))
    }

    ghost predicate Valid()
      reads this
    {
      |collided| == n && IsLargest(history, forceMax) &&
      (forall i :: i in firstStep || i in bodyNames ==> i < n) && forall i :: 0 <= i < n ==> TellsAt(history, i)
    }

    constructor (n: nat, threshold: real)
      ensures Valid() && this.n == n && this.threshold == threshold && history == []
    {
      this.n, this.threshold := n, threshold;
      collided := seq(n, _ => false);
      firstStep, bodyNames, forceMax, history := map[], map[], 0.0, [];
    }

    /** The records of one environment found in contact. */
    method Mark(env: nat, step: nat, bodies: set<string>)
      requires |collided| == n && env < n
      modifies `collided, `firstStep, `bodyNames
      ensures collided == old(collided)[env := true]
      ensures firstStep == if env in old(firstStep) then old(firstStep) else old(firstStep)[env := step]
      ensures bodyNames ==
              old(bodyNames)[env := (if env in old(bodyNames) then old(bodyNames)[env] + bodies else bodies)]
    {
      if env !in firstStep {
        firstStep := firstStep[env := step];
      }
      collided := collided[env := true];
      bodyNames := bodyNames[env := if env in bodyNames then bodyNames[env] + bodies else bodies];
    }

    /** `update` and `update_contact_mask`, called once for each step. */
    method Update(step: nat, e: Event) returns (r: Result<(), CollisionError>)
      requires Valid() && step == |history|
      modifies this
      ensures Valid()
      ensures r == if Width(e) == n then Ok(()) else Err(ShapeMismatch)
      ensures history == if Width(e) == n then old(history) + [e] else old(history)
    {
      if !Fits(e, n) {
        return Err(ShapeMismatch);
      }
      hide Hit, HitBodies, IsLargest, LargestAfter, Fits, Tells;
      LargestGrows(history, forceMax, e);
      ghost var past := history;
      for env := 0 to n
        invariant history == past && forceMax == old(forceMax) && |collided| == n
        invariant forall i :: i in firstStep || i in bodyNames ==> i < n
        invariant forall i :: 0 <= i < env ==> TellsAt(past + [e], i)
        invariant forall i :: env <= i < n ==> TellsAt(past, i)
      {
        assert TellsAt(past, env);
        TellsMore(past, threshold, env, collided[env], Look(firstStep, env), Look(bodyNames, env), e);
        if Hit(e, threshold, env) {
          var bodies := HitBodies(e, threshold, env);
          label Before:
          Mark(env, step, bodies);
          forall i | 0 <= i < env ensures TellsAt(past + [e], i) {
            assert old@Before(TellsAt(past + [e], i));
          }
          forall i | env < i < n ensures TellsAt(past, i) {
            assert old@Before(TellsAt(past, i));
          }
        }
        assert TellsAt(past + [e], env);
      }
      label Done:
      forceMax := LargestAfter(e, forceMax);
      history := history + [e];
      forall i | 0 <= i < n ensures TellsAt(history, i) {
        assert old@Done(TellsAt(past + [e], i));
      }
      return Ok(());
    }

    /** `summary`: the number of environments in contact, when each was first, and the largest force. */
    method Summarize() returns (count: nat, first: map<nat, nat>, largest: real)
      requires Valid()
      ensures IsLargest(history, largest)
      ensures count == CountTrue(ContactSeen(history, threshold, n)) == |first|
      ensures forall i: nat :: i in first <==> i < n && ContactSeen(history, threshold, n)[i]
      ensures forall i :: i in first ==> FirstHit(history, threshold, i, first[i])
    {
      CollidedIsSeen();
      forall i: nat ensures i in firstStep <==> i < n && collided[i] {
        assert i < n ==> TellsAt(history, i);
      }
      MarkedAreCounted(collided, firstStep.Keys);
      assert |firstStep| == |firstStep.Keys|;
      forall i | i in firstStep ensures FirstHit(history, threshold, i, firstStep[i]) {
        assert TellsAt(history, i);
      }
      return CountTrue(collided), firstStep, forceMax;
    }

    lemma CollidedIsSeen()
      requires Valid()
      ensures collided == ContactSeen(history, threshold, n)
    {
      forall i | 0 <= i < n ensures collided[i] == ContactSeen(history, threshold, n)[i] {
        assert TellsAt(history, i);
      }
    }
  }
}
