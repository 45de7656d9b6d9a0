/** The gate that holds back scoring until the robot has been continuously near rest. */
module Settling {
  import opened Common

  /** The thresholds of a gate. */
  datatype Limits = Limits(minimumSteps: int, requiredSamples: int, maximumSteps: int, maxBaseSpeed: real,
                           maxContactSpeed: real)

  const DEFAULTS := Limits(100, 20, 600, 0.02, 0.04)

  /** What one physics step shows. */
  datatype Sample = Sample(headingSpeed: Float, rollingResidual: Float, lateralSlip: Float,
                           wheelContacts: int, baseContact: int, signalsFinite: bool)

  datatype SettlingError = DidNotConverge

  /** `abs(x) <= limit`, which no NaN and no infinity meets. */
  predicate Within(x: Float, limit: real) {
    x.Finite? && Abs(x.v) <= limit
  }

  predicate Stable(c: Limits, step: int, s: Sample) {
    step >= c.minimumSteps && s.signalsFinite && s.wheelContacts == 4 && s.baseContact == 0 &&
    Within(s.headingSpeed, c.maxBaseSpeed) && Within(s.rollingResidual, c.maxContactSpeed) &&
    Within(s.lateralSlip, c.maxContactSpeed)
  }

  /** The length of the run of stable samples that a trace, started at step 0, ends with. */
  function StableRun(c: Limits, trace: seq<Sample>): (n: nat)
    ensures n <= |trace|
  {
    if trace == [] then 0 else
      var k := |trace| - 1;
      if Stable(c, k, trace[k]) then StableRun(c, trace[..k]) + 1 else 0
  }

  /** The counter is the length of the longest stable suffix. */
  lemma {:induction false} StableRunIsLongestSuffix(c: Limits, trace: seq<Sample>, m: nat)
    requires m <= |trace|
    ensures m <= StableRun(c, trace) <==> forall k :: |trace| - m <= k < |trace| ==> Stable(c, k, trace[k])
  {
    if m > 0 {
      var n := |trace| - 1;
      StableRunIsLongestSuffix(c, trace[..n], m - 1);
      assert forall k :: 0 <= k < n ==> trace[..n][k] == trace[k];
    }
  }

  ghost predicate Between(x: Float, limit: real) {
    match x case Finite(v) => -limit <= v && v <= limit case NonFinite => false
  }

  /** All four wheels and nothing else touch the ground, and all speeds are within their limits. */
  ghost predicate AtRest(c: Limits, k: int, s: Sample) {
    k >= c.minimumSteps && s.signalsFinite && s.wheelContacts == 4 && s.baseContact == 0 &&
    Between(s.headingSpeed, c.maxBaseSpeed) && Between(s.rollingResidual, c.maxContactSpeed) &&
    Between(s.lateralSlip, c.maxContactSpeed)
  }

  lemma {:induction false} StableIsAtRest(c: Limits, k: int, s: Sample)
    ensures Stable(c, k, s) <==> AtRest(c, k, s)
  {
  }

  /** At each of the last `requiredSamples` samples up to step t the robot was at rest. */
  ghost predicate Rested(c: Limits, trace: seq<Sample>, t: nat)
    requires t < |trace|
  {
    t + 1 >= c.requiredSamples && forall k :: 0 <= k <= t && k > t - c.requiredSamples ==> AtRest(c, k, trace[k])
  }

  lemma {:induction false} RestedIsCounter(c: Limits, trace: seq<Sample>, t: nat)
    requires t < |trace|
    ensures Rested(c, trace, t) <==> StableRun(c, trace[..t + 1]) >= c.requiredSamples
  {
    var m := if c.requiredSamples < 0 then 0 else if c.requiredSamples > t + 1 then t + 1 else c.requiredSamples;
    StableRunIsLongestSuffix(c, trace[..t + 1], m);
    assert forall k :: 0 <= k <= t ==> trace[..t + 1][k] == trace[k];
    forall k | 0 <= k <= t ensures Stable(c, k, trace[k]) <==> AtRest(c, k, trace[k]) {
      StableIsAtRest(c, k, trace[k]);
    }
  }

  /** The gate neither opens nor gives up at step t. */
  ghost predicate Waits(c: Limits, trace: seq<Sample>, t: nat)
    requires t < |trace|
  {
    !Rested(c, trace, t) && t < c.maximumSteps
  }

  /** How the settling phase of a run ends. */
  datatype Phase = ReadyAt(step: nat) | FailedAt(step: nat) | StillSettling

  /** What the phase means: the first step after a rest, or the last step allowed. */
  ghost predicate IsOutcome(c: Limits, trace: seq<Sample>, p: Phase) {
    match p
    case ReadyAt(t) => t < |trace| && Rested(c, trace, t) && forall j: nat :: j < t ==> Waits(c, trace, j)
    case FailedAt(t) =>
      t < |trace| && t >= c.maximumSteps && !Rested(c, trace, t) &&
      forall j: nat :: j < t ==> Waits(c, trace, j)
    case StillSettling => forall j: nat :: j < |trace| ==> Waits(c, trace, j)
  }

  /** The meaning leaves no choice. */
  lemma {:induction false} OutcomeUnique(c: Limits, trace: seq<Sample>, p: Phase, q: Phase)
    requires IsOutcome(c, trace, p) && IsOutcome(c, trace, q)
    ensures p == q
  {
    if !p.StillSettling? && (q.StillSettling? || p.step < q.step) {
      ghost var early := Waits(c, trace, p.step);
    } else if !q.StillSettling? && (p.StillSettling? || q.step < p.step) {
      ghost var early := Waits(c, trace, q.step);
    }
  }

  /** The gate neither opens before the minimum and a full run of stable samples, nor leaves the decision open past the
      maximum. */
  lemma {:induction false} DecidesInTime(c: Limits, trace: seq<Sample>, p: Phase)
    requires IsOutcome(c, trace, p)
    ensures var last := if c.maximumSteps > 0 then c.maximumSteps else 0;
            (|trace| > last ==> !p.StillSettling?) && (p.ReadyAt? ==> p.step <= last) &&
              (p.FailedAt? ==> p.step == last)
    ensures p.ReadyAt? && c.requiredSamples > 0 ==> p.step >= c.minimumSteps + c.requiredSamples - 1
    ensures c.requiredSamples <= 0 && trace != [] ==> p == ReadyAt(0)
  {
    var last := if c.maximumSteps > 0 then c.maximumSteps else 0;
    if p.StillSettling? {
      if |trace| > last {
        ghost var late := Waits(c, trace, last);
      }
    } else if p.step > last {
      ghost var late := Waits(c, trace, last);
    }
    if p.ReadyAt? && c.requiredSamples > 0 {
      assert AtRest(c, p.step - c.requiredSamples + 1, trace[p.step - c.requiredSamples + 1]);
    }
    if c.requiredSamples <= 0 && trace != [] {
      assert Rested(c, trace, 0);
      OutcomeUnique(c, trace, p, ReadyAt(0));
    }
  }

  /** The earliest step at which a gate can open. */
  function Earliest(c: Limits): int {
    (if c.minimumSteps > 0 then c.minimumSteps else 0) + c.requiredSamples - 1
  }

  ghost predicate CanOpen(c: Limits) {
    exists trace, t: nat :: IsOutcome(c, trace, ReadyAt(t))
  }

  const AT_REST := Sample(Finite(0.0), Finite(0.0), Finite(0.0), 4, 0, true)

  /** A robot at rest from the start opens the gate at the earliest step. */
  lemma {:induction false} RestOpens(c: Limits)
    requires c.requiredSamples > 0 && c.maxBaseSpeed >= 0.0 && c.maxContactSpeed >= 0.0
    requires Earliest(c) <= 0 || Earliest(c) <= c.maximumSteps
    ensures IsOutcome(c, seq(Earliest(c) + 1, _ => AT_REST), ReadyAt(Earliest(c)))
  {
    var e := Earliest(c);
    var trace := seq(e + 1, _ => AT_REST);
    forall j: nat | j < e ensures Waits(c, trace, j) {
      if j + 1 >= c.requiredSamples {
        assert !AtRest(c, j + 1 - c.requiredSamples, trace[j + 1 - c.requiredSamples]);
      }
    }
  }

  /** Some trace opens the gate exactly when its limits leave room for a run of stable samples. */
  lemma {:induction false} CanOpenExactlyWhen(c: Limits)
    ensures CanOpen(c) <==>
            (c.requiredSamples <= 0 ||
             (c.maxBaseSpeed >= 0.0 && c.maxContactSpeed >= 0.0 && (Earliest(c) <= 0 || Earliest(c) <= c.maximumSteps)))
  {
    if trace, t: nat :| IsOutcome(c, trace, ReadyAt(t)) {
      if c.requiredSamples > 0 {
        DecidesInTime(c, trace, ReadyAt(t));
        assert AtRest(c, t, trace[t]);
      }
    }
    if c.requiredSamples <= 0 {
      assert Rested(c, [AT_REST], 0);
      assert IsOutcome(c, [AT_REST], ReadyAt(0));
    } else if c.maxBaseSpeed >= 0.0 && c.maxContactSpeed >= 0.0 && (Earliest(c) <= 0 || Earliest(c) <= c.maximumSteps) {
      RestOpens(c);
    }
  }

  /** With the shipped limits: never before step 119, and settled one way or the other by step 600. */
  lemma {:induction false} DefaultsWindow(trace: seq<Sample>, p: Phase)
    requires IsOutcome(DEFAULTS, trace, p)
    ensures p.ReadyAt? ==> 119 <= p.step <= 600
    ensures |trace| > 600 ==> !p.StillSettling?
    ensures CanOpen(DEFAULTS)
  {
    DecidesInTime(DEFAULTS, trace, p);
    CanOpenExactlyWhen(DEFAULTS);
  }

  const RESTLESS := AT_REST.(baseContact := 1)

  /** And no more than that: a robot at rest opens the gate at step 119, one that never rests keeps it closed until step
      600, and rest is at most 0.02 along the base and 0.04 at the contacts, from step 100 on. */
  lemma {:induction false} DefaultsAreTight(k: int, s: Sample)
    ensures IsOutcome(DEFAULTS, seq(120, _ => AT_REST), ReadyAt(119))
    ensures IsOutcome(DEFAULTS, seq(601, _ => RESTLESS), FailedAt(600))
    ensures AtRest(DEFAULTS, k, s) <==>
            k >= 100 && s.signalsFinite && s.wheelContacts == 4 && s.baseContact == 0 &&
            Between(s.headingSpeed, 0.02) &&
            Between(s.rollingResidual, 0.04) && Between(s.lateralSlip, 0.04)
  {
    RestOpens(DEFAULTS);
    var trace := seq(601, _ => RESTLESS);
    forall j: nat | j <= 600 ensures !Rested(DEFAULTS, trace, j) {
      if j >= 19 {
        assert !AtRest(DEFAULTS, j, trace[j]);
      }
    }
  }

  /** The stateful gate. */
  class SettlingGate {
    const limits: Limits
    var stableSamples: int

    constructor (limits: Limits)
      ensures this.limits == limits && stableSamples == 0
    {
      this.limits := limits;
      stableSamples := 0;
    }

    method Update(step: int, s: Sample) returns (r: Result<bool, SettlingError>)
      modifies this
      ensures stableSamples == if Stable(limits, step, s) then old(stableSamples) + 1 else 0
      ensures r == if stableSamples >= limits.requiredSamples then Ok(true)
                   else if step >= limits.maximumSteps then Err(DidNotConverge) else Ok(false)
    {
      var stable := Stable(limits, step, s);
      stableSamples := if stable then stableSamples + 1 else 0;
      if stableSamples >= limits.requiredSamples {
        return Ok(true);
      }
      if step >= limits.maximumSteps {
        return Err(DidNotConverge);
      }
      return Ok(false);
    }

    /** The settling phase of the driver: one update for each physics step, from step 0, until the gate opens or gives
        up. */
    method Settle(trace: seq<Sample>) returns (p: Phase)
      requires stableSamples == 0
      modifies this
      ensures IsOutcome(limits, trace, p)
    {
      for step := 0 to |trace|
        invariant stableSamples == StableRun(limits, trace[..step])
        invariant forall t: nat :: t < step ==> Waits(limits, trace, t)
      {
        assert trace[..step + 1][..step] == trace[..step];
        RestedIsCounter(limits, trace, step);
        var r := Update(step, trace[step]);
        if r.Err? {
          return FailedAt(step);
        }
        if r.value {
          return ReadyAt(step);
        }
      }
      assert trace[..|trace|] == trace;
      return StillSettling;
    }
  }
}
