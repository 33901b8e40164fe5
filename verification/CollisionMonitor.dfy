/** The collision monitor node: deciding on a velocity and publishing it
    (`nav2_collision_monitor::CollisionMonitor`). */
module Monitor {
  import opened Prelude
  import opened RealArithmetic
  import opened PointInPolygon
  import opened Kinematics
  import opened Zones
  import opened SafetyFilter

  datatype Action = Action(actionType: ActionType, reqVel: Velocity, polygonName: string)

  datatype MaybePolygon = NoPolygon | APolygon(polygon: Polygon)

  /** A data source as one call of `process` meets it: what `getData` returns
      and the points it delivers. */
  datatype Source = Source(name: string, enabled: bool, valid: bool, points: seq<Point>, timeout: real) {
    predicate StopsRobot() { enabled && !valid && timeout != 0.0 }
  }

  const INVALID_SOURCE := "invalid source"

  /** What `notifyActionState` dereferences is there. */
  predicate NotifySafe(action: Action, cause: MaybePolygon) {
    && (action.actionType == Stop && action.polygonName != INVALID_SOURCE ==> cause.APolygon?)
    && (action.actionType in {Slowdown, Limit, Approach} ==> cause.APolygon?)
  }

  /** The zone blamed for an action is one that demanded it. */
  predicate Blamed(action: Action, cause: MaybePolygon, polygons: seq<Polygon>) {
    cause.APolygon? ==>
      && cause.polygon in polygons && cause.polygon.enabled
      && action.polygonName == cause.polygon.name && action.actionType == cause.polygon.actionType
  }

  /** The zone blamed is the one whose demand leaves the share `m`, less than all;
      there is one as soon as less than all of a command that moves is left. */
  ghost predicate BlamesDecider(trig: Trig, hypot: (real, real) -> real, points: SourcePoints, cmd: Velocity,
                                cause: MaybePolygon, m: real)
  {
    && (cause.APolygon? ==> m < 1.0 && DemandOf(trig, hypot, cause.polygon, points, cmd) == AtMost(m))
    && (m < 1.0 && !IsZero(cmd) ==> cause.APolygon?)
  }

  // ----- the publisher as a state machine ---------------------------------------

  /** What the publisher remembers: whether the worker is active, the last
      decision, when the robot stopped, and what has been published. */
  datatype PubState = PubState(active: bool, prev: Velocity, stopStamp: real, published: seq<Velocity>)

  /** A decided velocity at a time, or a change of the life cycle. */
  datatype Event = Activate | Deactivate | Decide(vel: Velocity, now: real)

  const NO_VELOCITY := Velocity(-1.0, -1.0, -1.0)

  /** A zero decision is kept quiet only when the one before it was zero too
      and the robot stopped more than `timeout` ago. */
  predicate Silent(s: PubState, vel: Velocity, now: real, timeout: real) {
    IsZero(vel) && IsZero(s.prev) && now - s.stopStamp > timeout
  }

  function Next(s: PubState, ev: Event, timeout: real): PubState {
    match ev
    case Activate => s.(active := true)
    case Deactivate => s.(active := false, prev := NO_VELOCITY)
    case Decide(vel, now) =>
      if !s.active then s
      else s.(
        prev := vel,
        stopStamp := if IsZero(vel) && !IsZero(s.prev) then now else s.stopStamp,
        published := if Silent(s, vel, now, timeout) then s.published else s.published + [vel])
  }

  function Run(s: PubState, evs: seq<Event>, timeout: real): PubState {
    if evs == [] then s else Next(Run(s, evs[..|evs| - 1], timeout), evs[|evs| - 1], timeout)
  }

  const START := PubState(false, NO_VELOCITY, 0.0, [])

  /** If the last decision was zero, so is the last message on the wire. */
  predicate SilenceIsSafe(s: PubState) {
    IsZero(s.prev) ==> s.published != [] && IsZero(s.published[|s.published| - 1])
  }

  lemma NextIsSafe(s: PubState, ev: Event, timeout: real)
    requires SilenceIsSafe(s)
    ensures SilenceIsSafe(Next(s, ev, timeout))
  {
  }

  /** Over every run of activations, deactivations and decisions: an active
      decision of zero leaves zero as the last published velocity, and an
      active decision that is not zero is published. */
  lemma {:induction false} SilentOnlyWhenStopped(evs: seq<Event>, stamp: real, timeout: real)
    ensures SilenceIsSafe(Run(START.(stopStamp := stamp), evs, timeout))
    ensures evs != [] && evs[|evs| - 1].Decide? && Run(START.(stopStamp := stamp), evs[..|evs| - 1], timeout).active ==>
      var s := Run(START.(stopStamp := stamp), evs, timeout);
      var vel := evs[|evs| - 1].vel;
      && s.published != []
      && (IsZero(vel) ==> IsZero(s.published[|s.published| - 1]))
      && (!IsZero(vel) ==> s.published == Run(START.(stopStamp := stamp), evs[..|evs| - 1], timeout).published + [vel])
  {
    if evs != [] {
      SilentOnlyWhenStopped(evs[..|evs| - 1], stamp, timeout);
      NextIsSafe(Run(START.(stopStamp := stamp), evs[..|evs| - 1], timeout), evs[|evs| - 1], timeout);
    }
  }

  /** The robot is stopped at `t0`, and decided to stay so at each of `times`. */
  function StayingStopped(t0: real, times: seq<real>): seq<Event> {
    if times == [] then [Decide(ZERO, t0)]
    else StayingStopped(t0, times[..|times| - 1]) + [Decide(ZERO, times[|times| - 1])]
  }

  /** One zero velocity for each of the times within the timeout of the stop. */
  function Repeats(t0: real, times: seq<real>, timeout: real): seq<Velocity> {
    if times == [] then []
    else
      var n := |times| - 1;
      Repeats(t0, times[..n], timeout) + if times[n] <= t0 + timeout then [ZERO] else []
  }

  /** A stop is published when it comes and repeated until the timeout has passed,
      and from then on nothing is published. */
  lemma {:induction false} StopIsRepeated(s: PubState, t0: real, times: seq<real>, timeout: real)
    requires s.active && !(s.prev.x == s.prev.y == s.prev.tw == 0.0)
    ensures var r := Run(s, StayingStopped(t0, times), timeout);
      r.active && r.prev == ZERO && r.stopStamp == t0
      && r.published == s.published + [ZERO] + Repeats(t0, times, timeout)
  {
    var n := |times| - 1;
    if times == [] {
      assert [Decide(ZERO, t0)][..0] == [];
    } else {
      StopIsRepeated(s, t0, times[..n], timeout);
      assert StayingStopped(t0, times)[..|StayingStopped(t0, times)| - 1] == StayingStopped(t0, times[..n]);
    }
  }

  /** Deactivating forgets: whatever was decided before, a zero velocity decided
      after the next activation is published, and in between nothing is. */
  lemma RestartPublishesStop(s: PubState, idle: Velocity, t0: real, t1: real, timeout: real)
    ensures var r := Run(s, [Deactivate, Decide(idle, t0), Activate, Decide(ZERO, t1)], timeout);
      r.active && r.published == s.published + [ZERO] && r.stopStamp == t1
  {
    var evs := [Deactivate, Decide(idle, t0), Activate, Decide(ZERO, t1)];
    assert evs[..4] == evs && evs[..1][..0] == [];
    forall k | 0 <= k < 4 ensures Run(s, evs[..k + 1], timeout) == Next(Run(s, evs[..k], timeout), evs[k], timeout) {
      assert evs[..k + 1][..k] == evs[..k];
    }
    var forgot := s.(active := false, prev := NO_VELOCITY);
    assert Run(s, evs[..0 + 1], timeout) == forgot;
    assert Run(s, evs[..1 + 1], timeout) == forgot;
    assert Run(s, evs[..2 + 1], timeout) == forgot.(active := true);
    assert Run(s, evs[..3 + 1], timeout) == Next(forgot.(active := true), evs[3], timeout);
  }

  // ----- the node ------------------------------------------------------------------

  class CollisionMonitor {
    const trig: Trig
    const hypot: (real, real) -> real
    const stopPubTimeout: real
    var enabled: bool
    var processActive: bool
    var polygons: seq<Polygon>
    var sources: seq<Source>
    var robotActionPrev: Action
    var stopStamp: real
    /** Every velocity published so far. */
    var published: seq<Velocity>

    constructor (trig: Trig, hypot: (real, real) -> real, stopPubTimeout: real, polygons: seq<Polygon>, stamp: real)
      requires IsHypot(hypot) && forall p :: p in polygons ==> WellSet(p)
      ensures Valid() && View() == START.(stopStamp := stamp)
      ensures this.trig == trig && this.hypot == hypot && this.stopPubTimeout == stopPubTimeout
      ensures this.polygons == polygons && enabled
    {
      this.trig, this.hypot, this.stopPubTimeout := trig, hypot, stopPubTimeout;
      this.polygons, sources := polygons, [];
      enabled, processActive := true, false;
      robotActionPrev := Action(DoNothing, NO_VELOCITY, "");
      stopStamp := stamp;
      published := [];
    }

    ghost predicate Valid()
      reads this
    {
      && IsHypot(hypot) && (forall p :: p in polygons ==> WellSet(p))
      && SilenceIsSafe(View())
    }

    function View(): PubState
      reads this
    {
      PubState(processActive, robotActionPrev.reqVel, stopStamp, published)
    }

    /** `on_activate`. */
    method OnActivate()
      requires Valid()
      modifies this`processActive
      ensures Valid() && View() == Next(old(View()), Activate, stopPubTimeout)
    {
      processActive := true;
    }

    /** `on_deactivate`. */
    method OnDeactivate()
      requires Valid()
      modifies this`processActive, this`robotActionPrev
      ensures Valid() && View() == Next(old(View()), Deactivate, stopPubTimeout)
    {
      processActive := false;
      robotActionPrev := Action(DoNothing, NO_VELOCITY, "");
    }

    /** The points gathered from the sources, up to the first one that stops
        the robot. */
    static function Gathered(sources: seq<Source>): SourcePoints {
      if sources == [] then map[]
      else
        var s := sources[|sources| - 1];
        var rest := Gathered(sources[..|sources| - 1]);
        var before := if s.name in rest then rest[s.name] else [];
        rest[s.name := if s.enabled then before + s.points else before]
    }

    static predicate SomeInvalid(sources: seq<Source>) { exists i :: 0 <= i < |sources| && sources[i].StopsRobot() }

    /** Collect the points of every source; an invalid one stops the robot. */
    method GatherPoints(cmdVelIn: Velocity) returns (points: SourcePoints, action: Action)
      ensures action ==
        if SomeInvalid(sources) then Action(Stop, ZERO, INVALID_SOURCE) else Action(DoNothing, cmdVelIn, "")
      ensures !SomeInvalid(sources) ==> points == Gathered(sources)
    {
      action := Action(DoNothing, cmdVelIn, "");
      points := map[];
      for i := 0 to |sources|
        invariant action == Action(DoNothing, cmdVelIn, "")
        invariant points == Gathered(sources[..i]) && !SomeInvalid(sources[..i])
      {
        assert sources[..i + 1][..i] == sources[..i];
        var source := sources[i];
        if source.name !in points {
          points := points[source.name := []];
        }
        if source.enabled {
          points := points[source.name := points[source.name] + source.points];
          if !source.valid && source.timeout != 0.0 {
            action := Action(Stop, ZERO, INVALID_SOURCE);
            assert sources[i].StopsRobot();
            return;
          }
        }
      }
      assert sources[..|sources|] == sources;
    }

    /** `processStopSlowdownLimit`. */
    method ProcessStopSlowdownLimit(polygon: Polygon, points: SourcePoints, velocity: Velocity, action0: Action)
      returns (action: Action, changed: bool)
      requires polygon.enabled && WellSet(polygon)
      requires polygon.actionType == Stop || polygon.actionType == Slowdown || polygon.actionType == Limit
      ensures Obeys(trig, hypot, polygon, points, velocity, action0, action, changed)
    {
      hide Collected, PointInPolygon.PointsInside, LimitRatio;
      action, changed := action0, false;
      if polygon.poly == [] {
        return;
      }
      var num := polygon.GetPointsInside(points);
      if num >= polygon.minPoints {
        if polygon.actionType == Stop {
          return Action(Stop, ZERO, polygon.name), true;
        } else if polygon.actionType == Slowdown {
          var safeVel := Scaled(velocity, polygon.slowdownRatio);
          if Less(safeVel, action.reqVel) {
            return Action(Slowdown, safeVel, polygon.name), true;
          }
        } else {
          var ratio := LimitRatioOf(polygon, velocity);
          var safeVel := Scaled(velocity, ratio);
          if Less(safeVel, action.reqVel) {
            return Action(Limit, safeVel, polygon.name), true;
          }
        }
      }
    }

    /** The most restrictive ratio of a limit zone. */
    method LimitRatioOf(polygon: Polygon, velocity: Velocity) returns (ratio: real)
      ensures ratio == LimitRatio(hypot, velocity, polygon.linearLimit, polygon.angularLimit)
    {
      var linearVel := hypot(velocity.x, velocity.y);
      ratio := 1.0;
      if linearVel != 0.0 {
        ratio := MinReal(ratio, polygon.linearLimit / linearVel);
      }
      if velocity.tw != 0.0 {
        ratio := MinReal(ratio, polygon.angularLimit / AbsReal(velocity.tw));
      }
      ratio := Clamp01(ratio);
    }

    /** `processApproach`. */
    method ProcessApproach(polygon: Polygon, points: SourcePoints, velocity: Velocity, action0: Action)
      returns (action: Action, changed: bool)
      requires polygon.enabled && WellSet(polygon) && polygon.actionType == Approach
      ensures Obeys(trig, hypot, polygon, points, velocity, action0, action, changed)
    {
      hide Collected, Polygon.CollisionTime;
      action, changed := action0, false;
      if polygon.poly == [] {
        return;
      }
      var collisionTime := polygon.GetCollisionTime(trig, points, velocity);
      if collisionTime >= 0.0 {
        var changeRatio := collisionTime / polygon.timeBeforeCollision;
        var safeVel := Scaled(velocity, changeRatio);
        if Less(safeVel, action.reqVel) {
          return Action(Approach, safeVel, polygon.name), true;
        }
      }
    }

    /** `notifyActionState` dereferences the blamed zone. */
    method NotifyActionState(action: Action, cause: MaybePolygon) returns (about: string)
      requires NotifySafe(action, cause)
      ensures about ==
        if action.actionType == DoNothing || (action.actionType == Stop && action.polygonName == INVALID_SOURCE)
        then "" else cause.polygon.name
    {
      about := "";
      if action.actionType == Stop {
        if action.polygonName != INVALID_SOURCE {
          about := cause.polygon.name;
        }
      } else if action.actionType != DoNothing {
        about := cause.polygon.name;
      }
    }

    /** The demands the zones make of a command, when the monitor is enabled. */
    ghost function Demands(cmd: Velocity): seq<Demand>
      reads this`polygons, this`sources
    {
      DemandsOf(trig, hypot, polygons, Gathered(sources), cmd)
    }

    /** The share of the command that may pass. */
    ghost function Share(cmd: Velocity): real
      reads this`polygons, this`sources, this`enabled
    {
      if SomeInvalid(sources) then 0.0 else if enabled then Tightest(1.0, Demands(cmd)) else 1.0
    }

    /** `publishVelocity`. */
    method PublishVelocity(robotAction: Action, now: real)
      modifies this`stopStamp, this`published
      ensures stopStamp ==
        if IsZero(robotAction.reqVel) && !IsZero(robotActionPrev.reqVel) then now else old(stopStamp)
      ensures published ==
        if Silent(old(View()), robotAction.reqVel, now, stopPubTimeout) then old(published)
        else old(published) + [robotAction.reqVel]
    {
      if IsZero(robotAction.reqVel) {
        if !IsZero(robotActionPrev.reqVel) {
          stopStamp := now;
        } else if now - stopStamp > stopPubTimeout {
          return;
        }
      }
      published := published + [robotAction.reqVel];
    }

    /** `process`: decide, report a change, publish, remember. */
    method Process(cmdVelIn: Velocity, now: real) returns (ghost decided: Velocity, ghost cause: MaybePolygon)
      requires Valid()
      modifies this`robotActionPrev, this`stopStamp, this`published
      ensures Valid()
      ensures View() == Next(old(View()), Decide(decided, now), stopPubTimeout)
      ensures processActive ==> decided == Scaled(cmdVelIn, Share(cmdVelIn)) && decided == robotActionPrev.reqVel
      ensures processActive ==> NotifySafe(robotActionPrev, cause) && Blamed(robotActionPrev, cause, polygons)
      ensures processActive && cause.APolygon? ==>
        Decides(trig, hypot, cause.polygon, sources, cmdVelIn, Share(cmdVelIn))
    {
      hide IsHypot, DemandsOf, Scaled, IsZero, WellSet, Decides, AllValid;
      decided, cause := cmdVelIn, NoPolygon;
      if !processActive {
        return;
      }
      var robotAction, actionPolygon := DecideAction(cmdVelIn);
      decided, cause := robotAction.reqVel, actionPolygon;
      if robotAction.polygonName != robotActionPrev.polygonName && enabled {
        var _ := NotifyActionState(robotAction, actionPolygon);
      }
      PublishVelocity(robotAction, now);
      robotActionPrev := robotAction;
    }

    /** No zone that makes a demand is ever overrun: what passes is not faster
        than that zone's own share of the command. */
    lemma NoZoneOverrun(cmd: Velocity, i: nat)
      requires Valid() && i < |polygons| && enabled
      ensures var d := DemandOf(trig, hypot, polygons[i], Gathered(sources), cmd);
        && 0.0 <= Share(cmd) <= 1.0
        && (d.AtMost? && !SomeInvalid(sources) ==>
              Share(cmd) <= d.ratio && !Less(Scaled(cmd, d.ratio), Scaled(cmd, Share(cmd))))
        && (SomeInvalid(sources) ==> IsZero(Scaled(cmd, Share(cmd))))
    {
      hide DemandOf, IsHypot;
      var demands := Demands(cmd);
      DemandsNonNegative(cmd);
      TightestNonNegative(1.0, demands);
      TightestIsLeast(1.0, demands);
      var d := DemandOf(trig, hypot, polygons[i], Gathered(sources), cmd);
      assert demands[i] == d && d in demands;
      hide Less, Scaled, IsZero, Tightest;
      if d.AtMost? { LessByRatio(cmd, d.ratio, Share(cmd)); }
      ZeroScaled(cmd, 0.0);
      assert IsZero(ZERO) by { ZeroIsZero(); }
    }

    /** What passes, zone by zone and in plain terms, with every source valid:
        nothing with enough points in a stop zone, no more than its share with
        enough of them in a slowdown zone, no more than both limits with enough of
        them in a limit zone, and no more than the time to the collision in
        proportion to the look-ahead for an approach zone. */
    lemma EveryZoneKept(cmd: Velocity, i: nat)
      requires Valid() && enabled && i < |polygons| && AllValid(sources)
      ensures 0.0 <= Share(cmd) <= 1.0 && KeepsTo(trig, hypot, polygons[i], sources, cmd, Share(cmd))
    {
      hide DemandOf, IsHypot, KeepsTo, Less, Scaled, IsZero;
      NoZoneOverrun(cmd, i);
      NoneInvalid(sources);
      var d := DemandOf(trig, hypot, polygons[i], Gathered(sources), cmd);
      assert polygons[i] in polygons;
      DemandKept(trig, hypot, polygons[i], sources, cmd, Share(cmd));
    }

    /** And no less than that: if not everything passes, what passes is exactly
        what some enabled zone, hit or approached, leaves; an invalid source lets
        nothing pass, and a monitor that is switched off everything. */
    lemma SomeZoneDecides(cmd: Velocity)
      requires Valid()
      ensures !AllValid(sources) ==> Share(cmd) == 0.0
      ensures AllValid(sources) && !enabled ==> Share(cmd) == 1.0
      ensures AllValid(sources) && enabled && Share(cmd) != 1.0 ==>
        exists i :: 0 <= i < |polygons| && Decides(trig, hypot, polygons[i], sources, cmd, Share(cmd))
    {
      hide DemandOf, IsHypot, Decides, WellSet;
      NoneInvalid(sources);
      var r := Share(cmd);
      if AllValid(sources) && enabled && r != 1.0 {
        TightestIsLeast(1.0, Demands(cmd));
        hide Tightest;
        var i :| 0 <= i < |polygons| && Demands(cmd)[i] == AtMost(r);
        assert polygons[i] in polygons;
        assert DemandOf(trig, hypot, polygons[i], Gathered(sources), cmd) == AtMost(r);
        DemandDecides(trig, hypot, polygons[i], sources, cmd, r);
      }
    }

    /** Two monitors with the same zones in another order (or repeated) pass
        the same share of every command. */
    static lemma OrderFree(a: CollisionMonitor, b: CollisionMonitor, cmd: Velocity)
      requires a.trig == b.trig && a.hypot == b.hypot && a.sources == b.sources && a.enabled == b.enabled
      requires forall p :: p in a.polygons <==> p in b.polygons
      ensures a.Share(cmd) == b.Share(cmd)
    {
      hide DemandOf;
      DemandsFollow(a, b, cmd);
      DemandsFollow(b, a, cmd);
      TightestOrderFree(1.0, a.Demands(cmd), b.Demands(cmd));
    }

    static lemma DemandsFollow(a: CollisionMonitor, b: CollisionMonitor, cmd: Velocity)
      requires a.trig == b.trig && a.hypot == b.hypot && a.sources == b.sources
      requires forall p :: p in a.polygons ==> p in b.polygons
      ensures forall d :: d in a.Demands(cmd) ==> d in b.Demands(cmd)
    {
      hide DemandOf;
      forall d | d in a.Demands(cmd) ensures d in b.Demands(cmd) {
        var i :| 0 <= i < |a.polygons| && a.Demands(cmd)[i] == d;
        assert a.polygons[i] in b.polygons;
        var j :| 0 <= j < |b.polygons| && b.polygons[j] == a.polygons[i];
        assert b.Demands(cmd)[j] == d;
      }
    }

    /** Decide on an action: fold the zones over the command. */
    method DecideAction(cmdVelIn: Velocity) returns (action: Action, cause: MaybePolygon)
      requires Valid()
      ensures action.reqVel == Scaled(cmdVelIn, Share(cmdVelIn))
      ensures NotifySafe(action, cause) && Blamed(action, cause, polygons)
      ensures cause.APolygon? ==>
        Decides(trig, hypot, cause.polygon, sources, cmdVelIn, Share(cmdVelIn)) && Share(cmdVelIn) < 1.0
      ensures AllValid(sources) && !IsZero(cmdVelIn) && Share(cmdVelIn) < 1.0 ==> cause.APolygon?
    {
      hide IsHypot, DemandOf, Scaled, IsZero, Decides, AllValid, BlamesDecider, WellSet;
      NoneInvalid(sources);
      cause := NoPolygon;
      var points;
      points, action := GatherPoints(cmdVelIn);
      ZeroScaled(cmdVelIn, 0.0);
      ghost var demands := Demands(cmdVelIn);
      DemandsNonNegative(cmdVelIn);
      assert BlamesDecider(trig, hypot, points, cmdVelIn, cause, Tightest(1.0, demands[..0])) by {
        NobodyToBlame(points, cmdVelIn, demands);
      }
      var k := 0;
      while k < |polygons|
        invariant 0 <= k <= |polygons|
        invariant NotifySafe(action, cause) && Blamed(action, cause, polygons)
        invariant SomeInvalid(sources) ==> action == Action(Stop, ZERO, INVALID_SOURCE)
        invariant !SomeInvalid(sources) && !enabled ==> action.reqVel == cmdVelIn
        invariant !SomeInvalid(sources) && enabled ==> action.reqVel == Scaled(cmdVelIn, Tightest(1.0, demands[..k]))
        invariant !SomeInvalid(sources) && enabled && action.actionType == Stop ==> Tightest(1.0, demands[..k]) == 0.0
        invariant SomeInvalid(sources) || !enabled ==> cause == NoPolygon
        invariant !SomeInvalid(sources) && enabled ==>
          BlamesDecider(trig, hypot, points, cmdVelIn, cause, Tightest(1.0, demands[..k]))
        invariant !SomeInvalid(sources) && enabled && cause.APolygon? ==>
          action.actionType == Stop || !IsZero(cmdVelIn)
      {
        var polygon := polygons[k];
        assert polygon in polygons;
        assert demands[..k + 1][..k] == demands[..k];
        assert demands[k] in demands;
        TightestNonNegative(1.0, demands[..k]);
        k := k + 1;
        if !polygon.enabled || !enabled {
          if !polygon.enabled { DisabledDemandsNothing(polygon, cmdVelIn); }
          continue;
        }
        if action.actionType == Stop {
          if !SomeInvalid(sources) { ZeroStays(1.0, demands, k - 1); }
          break;
        }
        action, cause := ApplyZone(polygon, points, cmdVelIn, action, cause, Tightest(1.0, demands[..k - 1]));
      }
      if k == |polygons| { assert demands[..k] == demands; }
      if !SomeInvalid(sources) && enabled {
        assert points == Gathered(sources);
        DeciderDecides(points, cmdVelIn, cause, Share(cmdVelIn));
      }
    }

    lemma NobodyToBlame(points: SourcePoints, cmd: Velocity, demands: seq<Demand>)
      ensures BlamesDecider(trig, hypot, points, cmd, NoPolygon, Tightest(1.0, demands[..0]))
    {
    }

    lemma DeciderDecides(points: SourcePoints, cmd: Velocity, cause: MaybePolygon, m: real)
      requires Valid() && BlamesDecider(trig, hypot, points, cmd, cause, m) && points == Gathered(sources)
      requires cause.APolygon? ==> cause.polygon in polygons
      ensures cause.APolygon? ==> m < 1.0 && Decides(trig, hypot, cause.polygon, sources, cmd, m)
      ensures m < 1.0 && !IsZero(cmd) ==> cause.APolygon?
    {
      hide DemandOf, Decides, IsHypot, IsZero, WellSet;
      if cause.APolygon? { DemandDecides(trig, hypot, cause.polygon, sources, cmd, m); }
    }

    lemma DisabledDemandsNothing(polygon: Polygon, cmd: Velocity)
      requires !polygon.enabled
      ensures DemandOf(trig, hypot, polygon, Gathered(sources), cmd) == Nothing
    {
    }

    /** One zone, by its type of action. */
    method ApplyZone(polygon: Polygon, points: SourcePoints, cmd: Velocity, action0: Action, cause0: MaybePolygon,
                     ghost m: real)
      returns (action: Action, cause: MaybePolygon)
      requires Valid() && polygon in polygons && polygon.enabled && m >= 0.0
      requires action0.reqVel == Scaled(cmd, m) && action0.actionType != Stop
      requires NotifySafe(action0, cause0) && Blamed(action0, cause0, polygons)
      requires m <= 1.0 && BlamesDecider(trig, hypot, points, cmd, cause0, m) && (cause0.APolygon? ==> !IsZero(cmd))
      ensures var d := DemandOf(trig, hypot, polygon, points, cmd);
        BlamesDecider(trig, hypot, points, cmd, cause, if d.AtMost? then MinReal(m, d.ratio) else m)
      ensures cause.APolygon? ==> action.actionType == Stop || !IsZero(cmd)
      ensures NotifySafe(action, cause) && Blamed(action, cause, polygons)
      ensures var d := DemandOf(trig, hypot, polygon, points, cmd);
        action.reqVel == Scaled(cmd, if d.AtMost? then MinReal(m, d.ratio) else m)
      ensures var d := DemandOf(trig, hypot, polygon, points, cmd);
        action.actionType == Stop ==> d == AtMost(0.0)
    {
      hide IsHypot, Scaled, IsZero, Less, Collected, LimitRatio, Polygon.CollisionTime, Polygon.Triggered;
      action, cause := action0, cause0;
      var at := polygon.actionType;
      var changed := false;
      DemandNonNegative(trig, hypot, polygon, points, cmd);
      if at == Stop || at == Slowdown || at == Limit {
        action, changed := ProcessStopSlowdownLimit(polygon, points, cmd, action);
      } else if at == Approach {
        action, changed := ProcessApproach(polygon, points, cmd, action);
      }
      if changed {
        cause := APolygon(polygon);
      }
      ghost var d := DemandOf(trig, hypot, polygon, points, cmd);
      if d.AtMost? {
        LessByRatio(cmd, d.ratio, m);
        ZeroScaled(cmd, d.ratio);
        ZeroScaled(cmd, m);
      }
    }

    lemma DemandsNonNegative(cmd: Velocity)
      requires Valid()
      ensures forall d :: d in Demands(cmd) && d.AtMost? ==> d.ratio >= 0.0
    {
      forall i | 0 <= i < |polygons| ensures var d := Demands(cmd)[i]; d.AtMost? ==> d.ratio >= 0.0 {
        DemandNonNegative(trig, hypot, polygons[i], Gathered(sources), cmd);
      }
    }
  }

  /** `action` is `action0`, tightened to the zone's demand if that is less;
      `changed` says whether the zone is now to blame. */
  ghost predicate Obeys(trig: Trig, hypot: (real, real) -> real, polygon: Polygon, points: SourcePoints, cmd: Velocity,
                        action0: Action, action: Action, changed: bool)
  {
    match DemandOf(trig, hypot, polygon, points, cmd)
    case Nothing => action == action0 && !changed
    case AtMost(r) =>
      if polygon.actionType == Stop || Less(Scaled(cmd, r), action0.reqVel)
      then changed && action == Action(polygon.actionType, Scaled(cmd, r), polygon.name)
      else action == action0 && !changed
  }

  lemma ZeroIsZero()
    ensures IsZero(ZERO)
  {
  }

  // ----- what a zone sees and asks for, in plain terms ------------------------------

  /** Every enabled source that can time out has delivered valid data. */
  predicate AllValid(sources: seq<Source>) {
    forall i :: 0 <= i < |sources| ==> sources[i].enabled && sources[i].timeout != 0.0 ==> sources[i].valid
  }

  lemma NoneInvalid(sources: seq<Source>)
    ensures CollisionMonitor.SomeInvalid(sources) <==> !AllValid(sources)
  {
  }

  /** The points of the enabled sources of one name, in order. */
  function PointsOf(name: string, sources: seq<Source>): seq<Point> {
    if sources == [] then []
    else
      var s := sources[|sources| - 1];
      PointsOf(name, sources[..|sources| - 1]) + if s.enabled && s.name == name then s.points else []
  }

  /** The points of the sources of these names, name by name. */
  function SeenBy(names: seq<string>, sources: seq<Source>): seq<Point> {
    if names == [] then [] else SeenBy(names[..|names| - 1], sources) + PointsOf(names[|names| - 1], sources)
  }

  lemma {:induction false} GatheredIs(name: string, sources: seq<Source>)
    ensures var g := CollisionMonitor.Gathered(sources);
      PointsOf(name, sources) == if name in g then g[name] else []
  {
    if sources != [] {
      GatheredIs(name, sources[..|sources| - 1]);
    }
  }

  /** What is gathered by name and collected for a zone are exactly those points. */
  lemma {:induction false} CollectedIsSeen(names: seq<string>, sources: seq<Source>)
    ensures Collected(names, CollisionMonitor.Gathered(sources)) == SeenBy(names, sources)
  {
    hide CollisionMonitor.Gathered, PointsOf;
    if names != [] {
      CollectedIsSeen(names[..|names| - 1], sources);
      GatheredIs(names[|names| - 1], sources);
    }
  }

  /** An enabled source of one of the names delivers the point. */
  predicate Delivers(s: Source, names: seq<string>, q: Point) { s.enabled && s.name in names && q in s.points }

  /** A zone sees exactly the points that its sources deliver. */
  lemma {:induction false} SeenMembers(names: seq<string>, sources: seq<Source>, q: Point)
    ensures q in SeenBy(names, sources) <==> exists i :: 0 <= i < |sources| && Delivers(sources[i], names, q)
  {
    hide Delivers, PointsOf;
    if names == [] {
      forall i | 0 <= i < |sources| ensures !Delivers(sources[i], names, q) { MoreNames(sources[i], names, q); }
    } else {
      var n := |names| - 1;
      SeenMembers(names[..n], sources, q);
      PointsOfMembers(names[n], sources, q);
      forall i | 0 <= i < |sources|
        ensures Delivers(sources[i], names, q)
          <==> Delivers(sources[i], names[..n], q) || Delivers(sources[i], [names[n]], q)
      {
        MoreNames(sources[i], names, q);
      }
    }
  }

  lemma MoreNames(s: Source, names: seq<string>, q: Point)
    ensures names == [] ==> !Delivers(s, names, q)
    ensures names != [] ==>
      var n := |names| - 1;
      Delivers(s, names, q) <==> Delivers(s, names[..n], q) || Delivers(s, [names[n]], q)
  {
    if names != [] {
      var n := |names| - 1;
      assert names == names[..n] + [names[n]];
    }
  }

  lemma {:induction false} PointsOfMembers(name: string, sources: seq<Source>, q: Point)
    ensures q in PointsOf(name, sources) <==> exists i :: 0 <= i < |sources| && Delivers(sources[i], [name], q)
  {
    if sources != [] {
      var n := |sources| - 1;
      PointsOfMembers(name, sources[..n], q);
      var s := sources[n];
      assert Delivers(s, [name], q) <==> s.enabled && s.name == name && q in s.points;
      hide Delivers;
      forall i | 0 <= i < n ensures Delivers(sources[..n][i], [name], q) <==> Delivers(sources[i], [name], q) { }
    }
  }

  /** Enough points of the zone's own sources lie in it. */
  predicate Hit(p: Polygon, sources: seq<Source>) {
    p.enabled && p.poly != [] && PointsInside(p.poly, SeenBy(p.sourcesNames, sources)) >= p.minPoints
  }

  /** The command runs into the zone after time `t`. */
  ghost predicate RunsInto(trig: Trig, p: Polygon, sources: seq<Source>, cmd: Velocity, t: real) {
    p.enabled && p.poly != [] && t >= 0.0 && p.FirstHit(trig, SeenBy(p.sourcesNames, sources), cmd, t)
  }

  /** The share `r` of the command keeps to the zone. */
  ghost predicate KeepsTo(trig: Trig, hypot: (real, real) -> real, p: Polygon, sources: seq<Source>, cmd: Velocity,
                          r: real)
  {
    && (p.actionType == Stop && Hit(p, sources) ==> r == 0.0)
    && (p.actionType == Slowdown && Hit(p, sources) ==> r <= p.slowdownRatio)
    && (p.actionType == Limit && Hit(p, sources) ==>
          Times(r, hypot(cmd.x, cmd.y)) <= p.linearLimit && Times(r, AbsReal(cmd.tw)) <= p.angularLimit)
    && (p.actionType == Approach && p.timeBeforeCollision > 0.0 ==>
          forall t :: RunsInto(trig, p, sources, cmd, t) ==> r <= t / p.timeBeforeCollision)
  }

  /** The zone leaves exactly the share `r` of the command. */
  ghost predicate Decides(trig: Trig, hypot: (real, real) -> real, p: Polygon, sources: seq<Source>, cmd: Velocity,
                          r: real)
  {
    || (p.actionType == Stop && Hit(p, sources) && r == 0.0)
    || (p.actionType == Slowdown && Hit(p, sources) && r == p.slowdownRatio)
    || (p.actionType == Limit && Hit(p, sources) && r < 1.0
        && (Times(r, hypot(cmd.x, cmd.y)) == p.linearLimit || Times(r, AbsReal(cmd.tw)) == p.angularLimit))
    || (p.actionType == Approach && p.timeBeforeCollision > 0.0
        && exists t :: RunsInto(trig, p, sources, cmd, t) && r == t / p.timeBeforeCollision)
  }

  lemma DemandKept(trig: Trig, hypot: (real, real) -> real, p: Polygon, sources: seq<Source>, cmd: Velocity, r: real)
    requires IsHypot(hypot) && WellSet(p) && r >= 0.0
    requires var d := DemandOf(trig, hypot, p, CollisionMonitor.Gathered(sources), cmd); d.AtMost? ==> r <= d.ratio
    ensures KeepsTo(trig, hypot, p, sources, cmd, r)
  {
    hide LimitRatio, IsHypot, Times, Collected, SeenBy, PointInPolygon.PointsInside, Polygon.FirstHit;
    var seen := SeenBy(p.sourcesNames, sources);
    CollectedIsSeen(p.sourcesNames, sources);
    if p.actionType == Limit && Hit(p, sources) {
      LimitLess(hypot, cmd, p.linearLimit, p.angularLimit, r);
    } else if p.actionType == Approach {
      forall t | RunsInto(trig, p, sources, cmd, t) ensures r <= t / p.timeBeforeCollision {
        p.FirstHitUnique(trig, seen, cmd, t, p.CollisionTime(trig, seen, cmd));
      }
    }
  }

  lemma LimitLess(hypot: (real, real) -> real, v: Velocity, linearLimit: real, angularLimit: real, r: real)
    requires IsHypot(hypot) && linearLimit >= 0.0 && angularLimit >= 0.0
    requires 0.0 <= r <= LimitRatio(hypot, v, linearLimit, angularLimit)
    ensures Times(r, hypot(v.x, v.y)) <= linearLimit && Times(r, AbsReal(v.tw)) <= angularLimit
  {
    LimitKeepsLimits(hypot, v, linearLimit, angularLimit);
    var top := LimitRatio(hypot, v, linearLimit, angularLimit);
    assert hypot(v.x, v.y) >= 0.0;
    hide LimitRatio, IsHypot, Times;
    TimesMonotone(hypot(v.x, v.y), r, top);
    TimesMonotone(AbsReal(v.tw), r, top);
  }

  lemma DemandDecides(trig: Trig, hypot: (real, real) -> real, p: Polygon, sources: seq<Source>, cmd: Velocity,
                      r: real)
    requires IsHypot(hypot) && WellSet(p) && r != 1.0
    requires DemandOf(trig, hypot, p, CollisionMonitor.Gathered(sources), cmd) == AtMost(r)
    ensures Decides(trig, hypot, p, sources, cmd, r)
  {
    hide LimitRatio, IsHypot, Times, Collected, SeenBy, PointInPolygon.PointsInside, Polygon.FirstHit;
    var seen := SeenBy(p.sourcesNames, sources);
    CollectedIsSeen(p.sourcesNames, sources);
    if p.actionType == Limit {
      LimitTakesNoMore(hypot, cmd, p.linearLimit, p.angularLimit);
    } else if p.actionType == Approach {
      var t := p.CollisionTime(trig, seen, cmd);
      assert RunsInto(trig, p, sources, cmd, t);
    }
  }
}
