/** Planar motion of the robot (`kinematics.cpp`). */
module Kinematics {
  import opened Prelude
  import opened RealArithmetic
  import opened PointInPolygon

  datatype Pose = Pose(x: real, y: real, theta: real)

  datatype Velocity = Velocity(x: real, y: real, tw: real)

  /** `std::sin` and `std::cos`: any pair on the unit circle. */
  datatype Trig = Trig(sin: real -> real, cos: real -> real) {
    ghost predicate OnUnitCircle() { forall t :: Square(sin(t)) + Square(cos(t)) == 1.0 }
  }

  function Square(a: real): real { a * a }

  /** An offset in a frame turned by the angle of `c` and `s`. */
  function Turn(x: real, y: real, c: real, s: real): (real, real) { (x * c + y * s, -x * s + y * c) }

  /** A point seen from `pose`. */
  function Transformed(trig: Trig, pose: Pose, p: Point): Point {
    var (x, y) := Turn(p.x - pose.x, p.y - pose.y, trig.cos(pose.theta), trig.sin(pose.theta));
    Point(x, y)
  }

  function TransformedAll(trig: Trig, pose: Pose, points: seq<Point>): (r: seq<Point>)
    ensures |r| == |points|
  {
    seq(|points|, i requires 0 <= i < |points| => Transformed(trig, pose, points[i]))
  }

  /** `transformPoints`: rewrite the points in place. */
  method TransformPoints(trig: Trig, pose: Pose, points: array<Point>)
    modifies points
    ensures points[..] == TransformedAll(trig, pose, old(points[..]))
  {
    var cosTheta, sinTheta := trig.cos(pose.theta), trig.sin(pose.theta);
    for i := 0 to points.Length
      invariant forall k :: i <= k < points.Length ==> points[k] == old(points[k])
      invariant forall k :: 0 <= k < i ==> points[k] == Transformed(trig, pose, old(points[k]))
    {
      var mulX, mulY := points[i].x - pose.x, points[i].y - pose.y;
      points[i] := Point(mulX * cosTheta + mulY * sinTheta, -mulX * sinTheta + mulY * cosTheta);
    }
  }

  /** Move along the velocity and turn with it. */
  function Moved(dt: real, pose: Pose, vel: Velocity): Pose {
    Pose(pose.x + Times(vel.x, dt), pose.y + Times(vel.y, dt), pose.theta + Times(vel.tw, dt))
  }

  /** The velocity, turned by an angle. */
  function Turned(trig: Trig, theta: real, vel: Velocity): Velocity {
    var c, s := trig.cos(theta), trig.sin(theta);
    Velocity(vel.x * c - vel.y * s, vel.x * s + vel.y * c, vel.tw)
  }

  /** One simulation step: move along the velocity, then turn it. */
  function Projected(trig: Trig, dt: real, pose: Pose, vel: Velocity): (Pose, Velocity) {
    (Moved(dt, pose, vel), Turned(trig, Times(vel.tw, dt), vel))
  }

  /** `projectState`. */
  method ProjectState(trig: Trig, dt: real, pose0: Pose, velocity0: Velocity) returns (pose: Pose, velocity: Velocity)
    ensures (pose, velocity) == Projected(trig, dt, pose0, velocity0)
  {
    hide Turned, Times;
    var theta := Times(velocity0.tw, dt);
    pose := pose0.(x := pose0.x + Times(velocity0.x, dt));
    pose := pose.(y := pose.y + Times(velocity0.y, dt));
    pose := pose.(theta := pose.theta + theta);
    velocity := TurnVelocity(trig, theta, velocity0);
  }

  /** The velocity turned, as `projectState` does it. */
  method TurnVelocity(trig: Trig, theta: real, velocity0: Velocity) returns (velocity: Velocity)
    ensures velocity == Turned(trig, theta, velocity0)
  {
    var cosTheta, sinTheta := trig.cos(theta), trig.sin(theta);
    var velocityUpdX := velocity0.x * cosTheta - velocity0.y * sinTheta;
    var velocityUpdY := velocity0.x * sinTheta + velocity0.y * cosTheta;
    velocity := velocity0.(x := velocityUpdX, y := velocityUpdY);
  }

  /** The state after `k` steps from rest at the origin. */
  function StateAfter(trig: Trig, dt: real, vel: Velocity, k: nat): (Pose, Velocity) {
    if k == 0 then (Pose(0.0, 0.0, 0.0), vel)
    else var (pose, v) := StateAfter(trig, dt, vel, k - 1); Projected(trig, dt, pose, v)
  }

  // ----- what motion preserves ------------------------------------------------

  /** Rotating a pair keeps its length. */
  lemma RotationKeepsLength(x: real, y: real, c: real, s: real)
    requires Square(s) + Square(c) == 1.0
    ensures Square(x * c - y * s) + Square(x * s + y * c) == Square(x) + Square(y)
    ensures Square(x * c + y * s) + Square(-x * s + y * c) == Square(x) + Square(y)
  {
    RotationExpanded(x, y, c, s);
    RotationExpanded(x, y, c, -s);
    assert Square(-s) == Square(s);
    TimesOne(Square(x) + Square(y), Square(s) + Square(c));
  }

  lemma RotationExpanded(x: real, y: real, c: real, s: real)
    ensures Square(x * c - y * s) + Square(x * s + y * c) == Times(Square(x) + Square(y), Square(s) + Square(c))
  {
  }

  /** The simulated robot keeps its speed and its turning rate, and its heading
      grows by the same angle every step. */
  lemma {:induction false} SpeedKept(trig: Trig, dt: real, vel: Velocity, k: nat)
    requires trig.OnUnitCircle()
    ensures var (pose, v) := StateAfter(trig, dt, vel, k);
      && Square(v.x) + Square(v.y) == Square(vel.x) + Square(vel.y)
      && v.tw == vel.tw
      && pose.theta == Times(k as real, vel.tw * dt)
  {
    if k > 0 {
      SpeedKept(trig, dt, vel, k - 1);
      var (pose, v) := StateAfter(trig, dt, vel, k - 1);
      StepKeepsSpeed(trig, dt, pose, v);
      hide Square, Projected;
      OneMoreTime(k, vel.tw * dt);
    }
  }

  lemma StepKeepsSpeed(trig: Trig, dt: real, pose: Pose, vel: Velocity)
    requires trig.OnUnitCircle()
    ensures var (p, v) := Projected(trig, dt, pose, vel);
      Square(v.x) + Square(v.y) == Square(vel.x) + Square(vel.y) && v.tw == vel.tw
      && p.theta == pose.theta + vel.tw * dt
  {
    var theta := vel.tw * dt;
    assert Square(trig.sin(theta)) + Square(trig.cos(theta)) == 1.0;
    hide Square;
    RotationKeepsLength(vel.x, vel.y, trig.cos(theta), trig.sin(theta));
  }

  lemma OneMoreTime(k: nat, a: real)
    requires k > 0
    ensures Times(k as real, a) == Times((k - 1) as real, a) + a
  {
  }

  function Distance2(p: Point, q: Point): real { Square(p.x - q.x) + Square(p.y - q.y) }

  /** Looking from another pose keeps the distances between points. */
  lemma DistancesKept(trig: Trig, pose: Pose, p: Point, q: Point)
    requires trig.OnUnitCircle()
    ensures Distance2(Transformed(trig, pose, p), Transformed(trig, pose, q)) == Distance2(p, q)
  {
    var c, s := trig.cos(pose.theta), trig.sin(pose.theta);
    assert Square(s) + Square(c) == 1.0;
    TransformedDifference(trig, pose, p, q);
    TurnKeepsLength(p.x - q.x, p.y - q.y, c, s);
    hide Transformed, Square, Turn;
  }

  lemma TurnKeepsLength(x: real, y: real, c: real, s: real)
    requires Square(s) + Square(c) == 1.0
    ensures Square(Turn(x, y, c, s).0) + Square(Turn(x, y, c, s).1) == Square(x) + Square(y)
  {
    RotationKeepsLength(x, y, c, s);
    hide Square;
  }

  lemma TransformedDifference(trig: Trig, pose: Pose, p: Point, q: Point)
    ensures var a, b := Transformed(trig, pose, p), Transformed(trig, pose, q);
      (a.x - b.x, a.y - b.y) == Turn(p.x - q.x, p.y - q.y, trig.cos(pose.theta), trig.sin(pose.theta))
  {
    var c, s := trig.cos(pose.theta), trig.sin(pose.theta);
    TurnedDifference(p.x - pose.x, p.y - pose.y, q.x - pose.x, q.y - pose.y, c, s);
    hide Turn;
    assert (p.x - pose.x) - (q.x - pose.x) == p.x - q.x && (p.y - pose.y) - (q.y - pose.y) == p.y - q.y;
  }

  lemma TurnedDifference(px: real, py: real, qx: real, qy: real, c: real, s: real)
    ensures Turn(px - qx, py - qy, c, s)
         == (Turn(px, py, c, s).0 - Turn(qx, qy, c, s).0, Turn(px, py, c, s).1 - Turn(qx, qy, c, s).1)
  {
  }

  /** Rotating back and moving to the pose recovers the point. */
  lemma TransformUndone(trig: Trig, pose: Pose, p: Point)
    requires trig.OnUnitCircle()
    ensures var q := Transformed(trig, pose, p);
      var c, s := trig.cos(pose.theta), trig.sin(pose.theta);
      p == Point(pose.x + (q.x * c - q.y * s), pose.y + (q.x * s + q.y * c))
  {
    var c, s := trig.cos(pose.theta), trig.sin(pose.theta);
    assert Square(s) + Square(c) == 1.0;
    RotatedBack(p.x - pose.x, p.y - pose.y, c, s);
    TimesOne(p.x - pose.x, Square(s) + Square(c));
    TimesOne(p.y - pose.y, Square(s) + Square(c));
    hide Square, Times;
  }

  lemma RotatedBack(x: real, y: real, c: real, s: real)
    ensures (x * c + y * s) * c - (-x * s + y * c) * s == Times(x, Square(s) + Square(c))
    ensures (x * c + y * s) * s + (-x * s + y * c) * c == Times(y, Square(s) + Square(c))
  {
  }

  // ----- where the simulated robot is -----------------------------------------

  /** Each step moves the pose by the step's own velocity, and turns the velocity
      to the left by the angle turned in it: that is what the dot and the cross
      product of one velocity and the next say. */
  lemma StepInPlainTerms(trig: Trig, dt: real, vel: Velocity, k: nat)
    requires trig.OnUnitCircle()
    ensures var (pose, v) := StateAfter(trig, dt, vel, k);
      var (pose', v') := StateAfter(trig, dt, vel, k + 1);
      var theta, speed2 := vel.tw * dt, Square(vel.x) + Square(vel.y);
      && pose'.x == pose.x + Times(v.x, dt) && pose'.y == pose.y + Times(v.y, dt) && pose'.theta == pose.theta + theta
      && Times(v.x, v'.x) + Times(v.y, v'.y) == Times(speed2, trig.cos(theta))
      && Times(v.x, v'.y) - Times(v.y, v'.x) == Times(speed2, trig.sin(theta))
  {
    SpeedKept(trig, dt, vel, k);
    var (pose, v) := StateAfter(trig, dt, vel, k);
    assert StateAfter(trig, dt, vel, k + 1) == Projected(trig, dt, pose, v);
    OneStepPlain(trig, dt, pose, v);
    TimesIs(vel.tw, dt);
    hide StateAfter, Projected, Square, Trig.OnUnitCircle, Times;
  }

  lemma OneStepPlain(trig: Trig, dt: real, pose: Pose, v: Velocity)
    ensures var (pose', v') := Projected(trig, dt, pose, v);
      var theta, speed2 := Times(v.tw, dt), Square(v.x) + Square(v.y);
      && pose'.x == pose.x + Times(v.x, dt) && pose'.y == pose.y + Times(v.y, dt) && pose'.theta == pose.theta + theta
      && Times(v.x, v'.x) + Times(v.y, v'.y) == Times(speed2, trig.cos(theta))
      && Times(v.x, v'.y) - Times(v.y, v'.x) == Times(speed2, trig.sin(theta))
  {
    var theta := Times(v.tw, dt);
    DotAndCross(trig, theta, v);
    hide Turned, Times, Square;
  }

  lemma DotAndCross(trig: Trig, theta: real, v: Velocity)
    ensures var v' := Turned(trig, theta, v);
      && Times(v.x, v'.x) + Times(v.y, v'.y) == Times(Square(v.x) + Square(v.y), trig.cos(theta))
      && Times(v.x, v'.y) - Times(v.y, v'.x) == Times(Square(v.x) + Square(v.y), trig.sin(theta))
  {
    var c, s := trig.cos(theta), trig.sin(theta);
    assert v.x * (v.x * c - v.y * s) + v.y * (v.x * s + v.y * c) == v.x * v.x * c + v.y * v.y * c;
    assert v.x * (v.x * s + v.y * c) - v.y * (v.x * c - v.y * s) == v.x * v.x * s + v.y * v.y * s;
  }

  /** With no turn the robot goes straight on: after `k` steps it is where the
      velocity takes it in that time, and looks the same way. */
  lemma {:induction false} StraightOn(trig: Trig, dt: real, vel: Velocity, k: nat)
    requires vel.tw == 0.0 && trig.cos(0.0) == 1.0 && trig.sin(0.0) == 0.0
    ensures var time := Times(k as real, dt);
      StateAfter(trig, dt, vel, k) == (Pose(Times(time, vel.x), Times(time, vel.y), 0.0), vel)
  {
    TimesZero(vel.x);
    TimesZero(vel.y);
    TimesZero(dt);
    if k > 0 {
      StraightOn(trig, dt, vel, k - 1);
      OneStepStraight(trig, dt, vel);
      OneMoreTime(k, dt);
      var before := Times((k - 1) as real, dt);
      TimesAdds(before, dt, vel.x);
      TimesAdds(before, dt, vel.y);
    }
    hide Times, Turned;
  }

  lemma OneStepStraight(trig: Trig, dt: real, vel: Velocity)
    requires vel.tw == 0.0 && trig.cos(0.0) == 1.0 && trig.sin(0.0) == 0.0
    ensures Turned(trig, Times(vel.tw, dt), vel) == vel && Times(vel.tw, dt) == 0.0
    ensures Times(vel.x, dt) == Times(dt, vel.x) && Times(vel.y, dt) == Times(dt, vel.y)
  {
    TimesZero(dt);
    assert Times(vel.tw, dt) == 0.0;
  }

  /** From there a point is seen shifted back by the way gone. */
  lemma SeenStraight(trig: Trig, x: real, y: real, p: Point)
    requires trig.cos(0.0) == 1.0 && trig.sin(0.0) == 0.0
    ensures Transformed(trig, Pose(x, y, 0.0), p) == Point(p.x - x, p.y - y)
  {
  }

  /** The laws by which angles add up. */
  ghost predicate AddsAngles(trig: Trig) {
    && trig.cos(0.0) == 1.0 && trig.sin(0.0) == 0.0
    && forall a, b ::
         && trig.cos(a + b) == Times(trig.cos(a), trig.cos(b)) - Times(trig.sin(a), trig.sin(b))
         && trig.sin(a + b) == Times(trig.sin(a), trig.cos(b)) + Times(trig.cos(a), trig.sin(b))
  }

  /** A velocity seen by a robot with the given heading, in the frame it started in. */
  function Headed(trig: Trig, heading: real, vel: Velocity): Velocity {
    var c, s := trig.cos(heading), trig.sin(heading);
    Velocity(Times(vel.x, c) - Times(vel.y, s), Times(vel.x, s) + Times(vel.y, c), vel.tw)
  }

  /** The robot always moves as it is turned: its velocity is the commanded one,
      turned by its heading. */
  lemma {:induction false} VelocityFollowsHeading(trig: Trig, dt: real, vel: Velocity, k: nat)
    requires AddsAngles(trig)
    ensures var (pose, v) := StateAfter(trig, dt, vel, k); v == Headed(trig, pose.theta, vel)
  {
    hide AddsAngles, Times, Turned, Headed;
    if k == 0 {
      HeadedAtStart(trig, vel);
    } else {
      VelocityFollowsHeading(trig, dt, vel, k - 1);
      var (pose, v) := StateAfter(trig, dt, vel, k - 1);
      TurnsWithHeading(trig, pose.theta, Times(vel.tw, dt), vel);
      assert v.tw == vel.tw by { HeadedTurns(trig, pose.theta, vel); }
    }
  }

  lemma HeadedTurns(trig: Trig, heading: real, vel: Velocity)
    ensures Headed(trig, heading, vel).tw == vel.tw
  {
  }

  lemma HeadedAtStart(trig: Trig, vel: Velocity)
    requires AddsAngles(trig)
    ensures Headed(trig, 0.0, vel) == vel
  {
    assert trig.cos(0.0) == 1.0 && trig.sin(0.0) == 0.0;
    hide AddsAngles;
    TimesZero(vel.x); TimesZero(vel.y);
    TimesOne(vel.x, 1.0); TimesOne(vel.y, 1.0);
  }

  lemma TurnsWithHeading(trig: Trig, heading: real, theta: real, vel: Velocity)
    requires AddsAngles(trig)
    ensures Turned(trig, theta, Headed(trig, heading, vel)) == Headed(trig, heading + theta, vel)
  {
    assert trig.cos(heading + theta)
        == Times(trig.cos(heading), trig.cos(theta)) - Times(trig.sin(heading), trig.sin(theta));
    assert trig.sin(heading + theta)
        == Times(trig.sin(heading), trig.cos(theta)) + Times(trig.cos(heading), trig.sin(theta));
    TurnedTwice(vel.x, vel.y, trig.cos(heading), trig.sin(heading), trig.cos(theta), trig.sin(theta));
    hide AddsAngles;
  }

  lemma TurnedTwice(x: real, y: real, c: real, s: real, c': real, s': real)
    ensures (x * c - y * s) * c' - (x * s + y * c) * s' == x * (c * c' - s * s') - y * (s * c' + c * s')
    ensures (x * c - y * s) * s' + (x * s + y * c) * c' == x * (s * c' + c * s') + y * (c * c' - s * s')
  {
  }
}
