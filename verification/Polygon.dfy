/** A monitored zone: counting points in it and simulating ahead
    (`nav2_collision_monitor::Polygon`). */
module Zones {
  import opened Prelude
  import opened RealArithmetic
  import opened PointInPolygon
  import opened Kinematics

  datatype ActionType = DoNothing | Stop | Slowdown | Approach | Limit

  /** The collision points of each source, by source name. */
  type SourcePoints = map<string, seq<Point>>

  /** The points of the listed sources that delivered any, in order. */
  function Collected(names: seq<string>, points: SourcePoints): seq<Point> {
    if names == [] then []
    else
      var rest := Collected(names[..|names| - 1], points);
      var name := names[|names| - 1];
      if name in points then rest + points[name] else rest
  }

  datatype Polygon = Polygon(
    name: string, enabled: bool, actionType: ActionType, poly: seq<Point>,
    minPoints: int, slowdownRatio: real, linearLimit: real, angularLimit: real,
    timeBeforeCollision: real, simulationTimeStep: real, sourcesNames: seq<string>)
  {
    /** Enough points lie in the zone. */
    predicate Triggered(points: seq<Point>) { PointsInside(poly, points) >= minPoints }

    /** `getPointsInside` over the sources of this polygon. */
    method GetPointsInside(points: SourcePoints) returns (num: nat)
      ensures num == PointsInside(poly, Collected(sourcesNames, points))
    {
      num := 0;
      for i := 0 to |sourcesNames|
        invariant num == PointsInside(poly, Collected(sourcesNames[..i], points))
      {
        assert sourcesNames[..i + 1][..i] == sourcesNames[..i];
        var name := sourcesNames[i];
        if name in points {
          var n := PointInPolygon.GetPointsInside(poly, points[name]);
          PointsInsideConcat(poly, Collected(sourcesNames[..i], points), points[name]);
          num := num + n;
        }
      }
      assert sourcesNames[..|sourcesNames|] == sourcesNames;
    }

    /** The zone is hit after `k` simulated steps. */
    predicate HitAfter(trig: Trig, points: seq<Point>, vel: Velocity, k: nat) {
      Triggered(TransformedAll(trig, StateAfter(trig, simulationTimeStep, vel, k).0, points))
    }

    /** The simulated time of step `k` is still looked at. */
    predicate InHorizon(k: nat) { Times(k as real, simulationTimeStep) <= timeBeforeCollision }

    /** `time` is the answer of the simulation: 0 if the zone is hit already,
        else the time of the first step in the horizon whose end hits it, else -1. */
    ghost predicate FirstHit(trig: Trig, points: seq<Point>, vel: Velocity, time: real) {
      if Triggered(points) then time == 0.0
      else if exists k: nat :: HitInHorizon(trig, points, vel, k) then
        exists k: nat :: EarliestHit(trig, points, vel, k) && time == Times(k as real, simulationTimeStep)
      else time == -1.0
    }

    predicate HitInHorizon(trig: Trig, points: seq<Point>, vel: Velocity, k: nat) {
      InHorizon(k) && HitAfter(trig, points, vel, k + 1)
    }

    predicate EarliestHit(trig: Trig, points: seq<Point>, vel: Velocity, k: nat) {
      HitInHorizon(trig, points, vel, k) && forall j: nat :: j < k ==> !HitInHorizon(trig, points, vel, j)
    }

    lemma FirstHitUnique(trig: Trig, points: seq<Point>, vel: Velocity, a: real, b: real)
      requires FirstHit(trig, points, vel, a) && FirstHit(trig, points, vel, b)
      ensures a == b
    {
      hide Triggered, HitInHorizon, Times;
      if !Triggered(points) && exists k: nat :: HitInHorizon(trig, points, vel, k) {
        var k: nat :| EarliestHit(trig, points, vel, k) && a == Times(k as real, simulationTimeStep);
        var l: nat :| EarliestHit(trig, points, vel, l) && b == Times(l as real, simulationTimeStep);
        assert k == l;
      }
    }

    /** The time of the first hit, as a value. */
    ghost function CollisionTime(trig: Trig, points: seq<Point>, vel: Velocity): real {
      if exists t :: FirstHit(trig, points, vel, t) then var t :| FirstHit(trig, points, vel, t); t else -1.0
    }

    /** `getCollisionTime`. */
    method GetCollisionTime(trig: Trig, sources: SourcePoints, velocity: Velocity) returns (collisionTime: real)
      requires simulationTimeStep > 0.0
      ensures FirstHit(trig, Collected(sourcesNames, sources), velocity, collisionTime)
      ensures collisionTime == CollisionTime(trig, Collected(sourcesNames, sources), velocity)
    {
      collisionTime := Simulate(trig, sources, velocity);
      ghost var t :| FirstHit(trig, Collected(sourcesNames, sources), velocity, t)
        && t == CollisionTime(trig, Collected(sourcesNames, sources), velocity);
      FirstHitUnique(trig, Collected(sourcesNames, sources), velocity, t, collisionTime);
    }

    /** The static test and the simulation loop. */
    method Simulate(trig: Trig, sources: SourcePoints, velocity: Velocity) returns (collisionTime: real)
      requires simulationTimeStep > 0.0
      ensures FirstHit(trig, Collected(sourcesNames, sources), velocity, collisionTime)
    {
      hide Times, PointInPolygon.PointsInside, TransformedAll, Projected;
      var pose, vel := Pose(0.0, 0.0, 0.0), velocity;
      var collisionPoints := CollectPoints(sources);
      var already := PointInPolygon.GetPointsInside(poly, collisionPoints);
      if already >= minPoints {
        return 0.0;
      }
      var time := 0.0;
      ghost var k := 0;
      TimesZero(simulationTimeStep);
      while time <= timeBeforeCollision
        invariant time == Times(k as real, simulationTimeStep)
        invariant (pose, vel) == StateAfter(trig, simulationTimeStep, velocity, k)
        invariant forall j: nat :: j < k ==> !HitInHorizon(trig, collisionPoints, velocity, j)
        decreases StepsLeft(time)
      {
        pose, vel := ProjectState(trig, simulationTimeStep, pose, vel);
        assert StateAfter(trig, simulationTimeStep, velocity, k + 1) == (pose, vel);
        var size := |collisionPoints|;
        var pointsTransformed := new Point[size](i requires 0 <= i < size => collisionPoints[i]);
        assert pointsTransformed[..] == collisionPoints;
        TransformPoints(trig, pose, pointsTransformed);
        var hits := PointInPolygon.GetPointsInside(poly, pointsTransformed[..]);
        if hits >= minPoints {
          assert EarliestHit(trig, collisionPoints, velocity, k);
          return time;
        }
        NextTime(k, simulationTimeStep);
        StepsLeftFalls(time);
        time := time + simulationTimeStep;
        k := k + 1;
      }
      forall i: nat ensures !HitInHorizon(trig, collisionPoints, velocity, i) {
        if i >= k { TimesGrows(k, i, simulationTimeStep); }
      }
      collisionTime := -1.0;
    }

    /** Save all points of the sources of this polygon. */
    method CollectPoints(sources: SourcePoints) returns (points: seq<Point>)
      ensures points == Collected(sourcesNames, sources)
    {
      points := [];
      for i := 0 to |sourcesNames|
        invariant points == Collected(sourcesNames[..i], sources)
      {
        assert sourcesNames[..i + 1][..i] == sourcesNames[..i];
        if sourcesNames[i] in sources {
          points := points + sources[sourcesNames[i]];
        }
      }
      assert sourcesNames[..|sourcesNames|] == sourcesNames;
    }

    /** An upper bound on the steps left before the horizon. */
    ghost function StepsLeft(time: real): nat
      requires simulationTimeStep > 0.0
    {
      if time > timeBeforeCollision then 0
      else
        NonNegativeQuotient(timeBeforeCollision - time, simulationTimeStep);
        ((timeBeforeCollision - time) / simulationTimeStep).Floor + 1
    }

    lemma StepsLeftFalls(time: real)
      requires simulationTimeStep > 0.0 && time <= timeBeforeCollision
      ensures StepsLeft(time + simulationTimeStep) < StepsLeft(time)
    {
      NonNegativeQuotient(timeBeforeCollision - time, simulationTimeStep);
      RatioMinusOne(timeBeforeCollision - time, simulationTimeStep);
      assert timeBeforeCollision - (time + simulationTimeStep) == timeBeforeCollision - time - simulationTimeStep;
    }

    /** A collision time is never beyond the horizon, so the slow-down ratio of
        an approach lies between 0 and 1. */
    lemma FirstHitInHorizon(trig: Trig, points: seq<Point>, vel: Velocity, time: real)
      requires FirstHit(trig, points, vel, time) && timeBeforeCollision >= 0.0 && simulationTimeStep > 0.0
      ensures time == -1.0 || 0.0 <= time <= timeBeforeCollision
    {
      hide Triggered, HitAfter;
      if !Triggered(points) && exists k: nat :: HitInHorizon(trig, points, vel, k) {
        var k: nat :| EarliestHit(trig, points, vel, k) && time == Times(k as real, simulationTimeStep);
        TimesZero(simulationTimeStep);
        TimesGrows(0, k, simulationTimeStep);
        hide Times;
      }
    }

    /** Moving straight ahead, the zone is hit after `k` steps if and only if
        enough points, shifted back by the way gone in that time, are in it. */
    lemma HitStraight(trig: Trig, points: seq<Point>, vel: Velocity, k: nat)
      requires vel.tw == 0.0 && trig.cos(0.0) == 1.0 && trig.sin(0.0) == 0.0
      ensures var gone := Times(k as real, simulationTimeStep);
        HitAfter(trig, points, vel, k)
        <==> PointsInside(poly, ShiftedBack(points, Times(gone, vel.x), Times(gone, vel.y))) >= minPoints
    {
      StraightOn(trig, simulationTimeStep, vel, k);
      var gone := Times(k as real, simulationTimeStep);
      hide Times, StateAfter;
      forall i | 0 <= i < |points|
        ensures TransformedAll(trig, StateAfter(trig, simulationTimeStep, vel, k).0, points)[i]
             == ShiftedBack(points, Times(gone, vel.x), Times(gone, vel.y))[i]
      {
        SeenStraight(trig, Times(gone, vel.x), Times(gone, vel.y), points[i]);
      }
      assert TransformedAll(trig, StateAfter(trig, simulationTimeStep, vel, k).0, points)
          == ShiftedBack(points, Times(gone, vel.x), Times(gone, vel.y));
    }

    /** The answer for a straight command, in plain coordinates: 0 if enough points
        are in the zone, else the time of the first step, within the look-ahead,
        whose end brings enough of them into it, else -1. */
    lemma CollisionStraight(trig: Trig, points: seq<Point>, vel: Velocity, time: real)
      requires vel.tw == 0.0 && trig.cos(0.0) == 1.0 && trig.sin(0.0) == 0.0
      requires FirstHit(trig, points, vel, time)
      ensures PointsInside(poly, points) >= minPoints ==> time == 0.0
      ensures PointsInside(poly, points) < minPoints ==>
        if exists k: nat :: MeetsAhead(points, vel, k) then
          exists k: nat ::
            && MeetsAhead(points, vel, k) && (forall j: nat :: j < k ==> !MeetsAhead(points, vel, j))
            && time == Times(k as real, simulationTimeStep)
        else time == -1.0
    {
      hide PointInPolygon.PointsInside, HitAfter, MeetsAhead;
      forall k: nat ensures HitInHorizon(trig, points, vel, k) <==> MeetsAhead(points, vel, k) {
        MeetsIsHit(trig, points, vel, k);
      }
    }

    /** Step `k` begins within the look-ahead, and at its end enough points are in
        the zone when the robot has gone straight on. */
    predicate MeetsAhead(points: seq<Point>, vel: Velocity, k: nat) {
      var gone := Times((k + 1) as real, simulationTimeStep);
      && Times(k as real, simulationTimeStep) <= timeBeforeCollision
      && PointsInside(poly, ShiftedBack(points, Times(gone, vel.x), Times(gone, vel.y))) >= minPoints
    }

    lemma MeetsIsHit(trig: Trig, points: seq<Point>, vel: Velocity, k: nat)
      requires vel.tw == 0.0 && trig.cos(0.0) == 1.0 && trig.sin(0.0) == 0.0
      ensures HitInHorizon(trig, points, vel, k) <==> MeetsAhead(points, vel, k)
    {
      HitStraight(trig, points, vel, k + 1);
      hide HitAfter, PointInPolygon.PointsInside, Times;
    }
  }

  function ShiftedBack(points: seq<Point>, dx: real, dy: real): (r: seq<Point>)
    ensures |r| == |points|
  {
    seq(|points|, i requires 0 <= i < |points| => Point(points[i].x - dx, points[i].y - dy))
  }

  lemma NextTime(k: nat, a: real)
    ensures Times((k + 1) as real, a) == Times(k as real, a) + a
  {
  }

  lemma TimesGrows(k: nat, i: nat, a: real)
    requires k <= i && a > 0.0
    ensures Times(k as real, a) <= Times(i as real, a)
  {
    assert (i - k) as real * a >= 0.0;
    assert i as real * a == k as real * a + (i - k) as real * a;
  }

  lemma RatioMinusOne(a: real, d: real)
    requires d > 0.0
    ensures (a - d) / d == a / d - 1.0
  {
    var q, r := a / d, (a - d) / d;
    assert q * d == a && r * d == a - d;
    assert Times(r - (q - 1.0), d) == r * d - q * d + d == 0.0;
    TimesSign(r - (q - 1.0), d);
  }
}
