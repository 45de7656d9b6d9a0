/** A round of the controlled-crossing evaluation: both accumulators, step by step, and the report they give. */
module CrossingRounds {
  import opened Common
  import opened CrossingReports
  import opened Crossing
  import opened CrossingTold
  import Collisions = SmallCollisions

  /** The report of a whole round is that of the environments it went through, and it conserves its counts. */
  method EvaluateRound(n: nat, speeds: seq<real>, laterals: seq<real>, threshold: real,
                       contacts: seq<Collisions.Event>, frames: seq<Frame>)
    returns (r: Result<Report, CrossingError>)
    requires |contacts| == |frames| && AllFit(frames, n)
    ensures r.Err? <==> |speeds| != n || |laterals| != n || exists e :: e in contacts && Collisions.Width(e) != n
    ensures r.Ok? ==>
              Reports(r.value, WatchAll(frames, n), Collisions.ContactSeen(contacts, threshold, n), speeds, laterals) &&
              Conserves(r.value, n)
    ensures r.Ok? && UnitFrames(frames) ==>
              ReportTold(r.value, frames, n, Collisions.ContactSeen(contacts, threshold, n), speeds, laterals)
  {
    if |speeds| != n || |laterals| != n {
      return Err(GroupsMustMatch);
    }
    hide EnvsOf, StepEnvs, WatchAll, Collisions.ContactSeen, ReportTold, UnitFrames, Conserves, Reports;
    var collisions := new Collisions.SmallCollisionRound(n, threshold);
    var crossings := new ControlledCrossing(speeds, laterals);
    assert frames[..0] == [] && contacts[..0] == [];
    for step := 0 to |frames|
      invariant crossings.Valid() && crossings.Envs() == WatchAll(frames[..step], n)
      invariant collisions.Valid() && collisions.history == contacts[..step]
      invariant forall e :: e in contacts[..step] ==> Collisions.Width(e) == n
    {
      WatchAllStep(frames, n, step);
      assert contacts[..step + 1] == contacts[..step] + [contacts[step]];
      var hit := collisions.Update(step, contacts[step]);
      if hit.Err? {
        assert contacts[step] in contacts;
        return Err(ForcesMustMatch);
      }
      crossings.ObserveStep(step, frames[step]);
    }
    assert frames[..|frames|] == frames && contacts[..|frames|] == contacts;
    collisions.CollidedIsSeen();
    r := crossings.Summarize(collisions.collided);
    ReportOfRound(r.value, frames, n, collisions.collided, speeds, laterals);
  }

  lemma {:induction false} ReportOfRound(r: Report, frames: seq<Frame>, n: nat, contact: seq<bool>, speeds: seq<real>,
                                         laterals: seq<real>)
    requires AllFit(frames, n) && |contact| == |speeds| == |laterals| == n
    requires Reports(r, WatchAll(frames, n), contact, speeds, laterals)
    ensures Conserves(r, n) && (UnitFrames(frames) ==> ReportTold(r, frames, n, contact, speeds, laterals))
  {
    hide *;
    WatchAllIsWatched(frames, n);
    ReportConserves(r, WatchAll(frames, n), contact, speeds, laterals);
    if UnitFrames(frames) {
      ReportIsTold(r, frames, n, contact, speeds, laterals);
    }
  }
}
