/** The spin behaviour (`nav2_behaviors::Spin`): turning in place by a commanded
    angle while seeing only the wrapped yaw. */
module SpinBehavior {
  import opened Prelude
  import opened RealArithmetic

  /** `copysign`; the sign of zero counts as positive. */
  function CopySign(magnitude: real, sign: real): real {
    if sign >= 0.0 then AbsReal(magnitude) else -AbsReal(magnitude)
  }

  /** The change of yaw a cycle adds, with `pi` for half a turn. */
  function Unwrapped(pi: real, before: real, now: real): real {
    if AbsReal(now - before) > pi then CopySign(2.0 * pi - AbsReal(now - before), before) else now - before
  }

  /** The yaw accumulated over a run of observations. */
  function RelativeYaw(pi: real, yaws: seq<real>): real {
    if |yaws| <= 1 then 0.0
    else RelativeYaw(pi, yaws[..|yaws| - 1]) + Unwrapped(pi, yaws[|yaws| - 2], yaws[|yaws| - 1])
  }

  // ----- wrapped observations ---------------------------------------------------

  /** `k` full turns. */
  function Turns(pi: real, k: int): real { Times(2.0 * pi, k as real) }

  /** The yaw observed at a heading: the heading less some full turns. */
  predicate Observes(pi: real, yaw: real, heading: real, k: int) {
    -pi <= yaw <= pi && heading == yaw + Turns(pi, k)
  }

  lemma TurnsSubtract(pi: real, j: int, k: int)
    ensures Turns(pi, j) - Turns(pi, k) == Turns(pi, j - k)
    ensures Turns(pi, j) + Turns(pi, k) == Turns(pi, j + k)
  {
  }

  lemma FewTurns(pi: real, k: int)
    requires pi > 0.0
    ensures Turns(pi, 0) == 0.0 && Turns(pi, 1) == 2.0 * pi && Turns(pi, -1) == -2.0 * pi
    ensures k >= 2 ==> Turns(pi, k) >= 4.0 * pi
    ensures k <= -2 ==> Turns(pi, k) <= -4.0 * pi
  {
    if k >= 2 { TimesMonotone(2.0 * pi, 2.0, k as real); }
    if k <= -2 { TimesMonotone(2.0 * pi, k as real, -2.0); }
  }

  /** One cycle, for any rotation: what is added differs from the rotation by
      whole turns, is never more than half a turn, and is the rotation exactly
      when that is less than half a turn, or is half a turn seen in its own
      direction. */
  lemma UnwrappedStep(pi: real, y0: real, h0: real, k0: int, y1: real, h1: real, k1: int) returns (off: int)
    requires pi > 0.0 && Observes(pi, y0, h0, k0) && Observes(pi, y1, h1, k1)
    ensures Unwrapped(pi, y0, y1) == h1 - h0 + Turns(pi, off)
    ensures AbsReal(Unwrapped(pi, y0, y1)) <= pi
    ensures Unwrapped(pi, y0, y1) == h1 - h0 <==>
      AbsReal(h1 - h0) < pi || (AbsReal(h1 - h0) == pi && y1 - y0 == h1 - h0)
  {
    var m := k1 - k0;
    TurnsSubtract(pi, k1, k0);
    off := (if y1 - y0 > pi then -1 else if y1 - y0 < -pi then 1 else 0) - m;
    TurnsSubtract(pi, off + m, m);
    FewTurns(pi, off);
    FewTurns(pi, m);
    FewTurns(pi, off + m);
    hide Turns;
  }

  /** Over any run at all, the accumulated yaw is the net rotation up to whole turns. */
  lemma {:induction false} RelativeYawModuloTurns(pi: real, yaws: seq<real>, headings: seq<real>, turns: seq<int>)
    returns (off: int)
    requires pi > 0.0 && |yaws| == |headings| == |turns| > 0
    requires forall i :: 0 <= i < |yaws| ==> Observes(pi, yaws[i], headings[i], turns[i])
    ensures RelativeYaw(pi, yaws) == headings[|headings| - 1] - headings[0] + Turns(pi, off)
  {
    hide Observes, Unwrapped, Turns;
    var n := |yaws| - 1;
    if n == 0 {
      FewTurns(pi, 0);
      off := 0;
    } else {
      var before := RelativeYawModuloTurns(pi, yaws[..n], headings[..n], turns[..n]);
      var step := UnwrappedStep(pi, yaws[n - 1], headings[n - 1], turns[n - 1], yaws[n], headings[n], turns[n]);
      TurnsSubtract(pi, before, step);
      off := before + step;
    }
  }

  /** Between cycles the robot turns less than half a turn. */
  predicate Slow(pi: real, headings: seq<real>) {
    forall i :: 0 <= i < |headings| - 1 ==> AbsReal(headings[i + 1] - headings[i]) < pi
  }

  /** If it does, the accumulated yaw is exactly the net rotation, however many
      times the observed yaw has wrapped. */
  lemma {:induction false} RelativeYawIsRotation(pi: real, yaws: seq<real>, headings: seq<real>, turns: seq<int>)
    requires pi > 0.0 && |yaws| == |headings| == |turns| > 0 && Slow(pi, headings)
    requires forall i :: 0 <= i < |yaws| ==> Observes(pi, yaws[i], headings[i], turns[i])
    ensures RelativeYaw(pi, yaws) == headings[|headings| - 1] - headings[0]
  {
    hide Observes, Unwrapped, Turns, AbsReal;
    var n := |yaws| - 1;
    if n > 0 {
      RelativeYawIsRotation(pi, yaws[..n], headings[..n], turns[..n]);
      assert AbsReal(headings[n - 1 + 1] - headings[n - 1]) < pi;
      var _ := UnwrappedStep(pi, yaws[n - 1], headings[n - 1], turns[n - 1], yaws[n], headings[n], turns[n]);
    }
  }

  // ----- looking ahead --------------------------------------------------------------

  /** The angle swept after `k` cycles at a velocity. */
  function Swept(velocity: real, frequency: real, k: int): real
    requires frequency > 0.0
  {
    Times(velocity, k as real / frequency)
  }

  lemma SweptGrows(velocity: real, frequency: real, j: nat, k: nat)
    requires frequency > 0.0 && j <= k
    ensures AbsReal(Swept(velocity, frequency, j)) <= AbsReal(Swept(velocity, frequency, k))
  {
    var s, t := j as real / frequency, k as real / frequency;
    QuotientKeepsOrder(j as real, k as real, frequency);
    QuotientKeepsOrder(0.0, j as real, frequency);
    TimesMonotone(AbsReal(velocity), s, t);
    TimesMonotone(AbsReal(velocity), 0.0, s);
    TimesNegates(velocity, s);
    TimesNegates(velocity, t);
    assert Times(AbsReal(velocity), 0.0) == 0.0;
    hide Times;
  }

  lemma QuotientKeepsOrder(a: real, b: real, d: real)
    requires d > 0.0 && a <= b
    ensures a / d <= b / d
  {
    assert b / d - a / d == (b - a) / d;
  }

  /** Cycle `k` of the look-ahead is one the checker is asked about. */
  predicate Examined(relativeYaw: real, velocity: real, frequency: real, maxCycles: int, k: int)
    requires frequency > 0.0
  {
    0 <= k < maxCycles && AbsReal(relativeYaw) > AbsReal(Swept(velocity, frequency, k))
  }

  /** The checker passes every heading it is asked about. */
  ghost predicate ClearAhead(relativeYaw: real, velocity: real, theta: real, frequency: real, aheadTime: real,
                             free: real -> bool)
    requires frequency > 0.0
  {
    forall k :: Examined(relativeYaw, velocity, frequency, Truncate(frequency * aheadTime), k) ==>
      free(theta + Swept(velocity, frequency, k))
  }

  /** What that asks for, in plain terms: in cycle `k` the robot will have turned by
      its velocity times the time until then, in the direction of the velocity, and
      every such heading is free as long as that is less than the yaw already turned. */
  lemma HeadingsAhead(relativeYaw: real, velocity: real, theta: real, frequency: real, aheadTime: real,
                      free: real -> bool, k: nat)
    requires frequency > 0.0 && ClearAhead(relativeYaw, velocity, theta, frequency, aheadTime, free)
    requires k < Truncate(frequency * aheadTime)
    requires AbsReal(Times(velocity, k as real / frequency)) < AbsReal(relativeYaw)
    ensures free(theta + Times(velocity, k as real / frequency))
  {
    hide Times;
    assert Examined(relativeYaw, velocity, frequency, Truncate(frequency * aheadTime), k);
  }

  /** Conversely, what is not clear ahead is one of those headings. */
  lemma BlockedAhead(relativeYaw: real, velocity: real, theta: real, frequency: real, aheadTime: real,
                     free: real -> bool)
    returns (k: nat)
    requires frequency > 0.0 && !ClearAhead(relativeYaw, velocity, theta, frequency, aheadTime, free)
    ensures k < Truncate(frequency * aheadTime)
    ensures AbsReal(Times(velocity, k as real / frequency)) < AbsReal(relativeYaw)
    ensures !free(theta + Times(velocity, k as real / frequency))
  {
    hide Times;
    k :| Examined(relativeYaw, velocity, frequency, Truncate(frequency * aheadTime), k)
      && !free(theta + Swept(velocity, frequency, k));
  }

  /** `isCollisionFree`, with the collision checker's answer at each heading. */
  method IsCollisionFree(relativeYaw: real, velocity: real, theta: real, frequency: real, aheadTime: real,
                         free: real -> bool)
    returns (clear: bool)
    requires frequency > 0.0
    ensures clear <==> ClearAhead(relativeYaw, velocity, theta, frequency, aheadTime, free)
  {
    hide AbsReal, Swept, Truncate;
    var cycleCount := 0;
    var maxCycleCount := Truncate(frequency * aheadTime);
    while cycleCount < maxCycleCount
      invariant 0 <= cycleCount
      invariant forall k :: 0 <= k < cycleCount ==> free(theta + Swept(velocity, frequency, k))
    {
      var simPositionChange := Swept(velocity, frequency, cycleCount);
      var heading := theta + simPositionChange;
      cycleCount := cycleCount + 1;
      if AbsReal(relativeYaw) <= AbsReal(simPositionChange) {
        forall k | Examined(relativeYaw, velocity, frequency, maxCycleCount, k) ensures k < cycleCount - 1 {
          if k >= cycleCount - 1 { SweptGrows(velocity, frequency, cycleCount - 1, k); }
        }
        return true;
      }
      if !free(heading) {
        assert Examined(relativeYaw, velocity, frequency, maxCycleCount, cycleCount - 1);
        return false;
      }
    }
    return true;
  }

  /** The cut-off is the yaw already accumulated: the whole look-ahead is
      examined if and only if its last sweep is short of that yaw. */
  lemma FullyExaminedIff(relativeYaw: real, velocity: real, frequency: real, maxCycles: int)
    requires frequency > 0.0
    ensures (forall k :: 0 <= k < maxCycles ==> Examined(relativeYaw, velocity, frequency, maxCycles, k))
      <==> maxCycles <= 0 || AbsReal(relativeYaw) > AbsReal(Swept(velocity, frequency, maxCycles - 1))
  {
    ExaminedBeforeIff(relativeYaw, velocity, frequency, maxCycles, if maxCycles > 0 then maxCycles else 0);
    hide Examined, Swept;
  }

  lemma ExaminedBeforeIff(relativeYaw: real, velocity: real, frequency: real, maxCycles: int, n: nat)
    requires frequency > 0.0 && (n == 0 || n <= maxCycles)
    ensures (forall k :: 0 <= k < n ==> Examined(relativeYaw, velocity, frequency, maxCycles, k))
      <==> n == 0 || AbsReal(relativeYaw) > AbsReal(Swept(velocity, frequency, n - 1))
  {
    hide Swept;
    if n > 0 {
      forall k | 0 <= k < n
        ensures AbsReal(Swept(velocity, frequency, k)) <= AbsReal(Swept(velocity, frequency, n - 1))
      {
        SweptGrows(velocity, frequency, k, n - 1);
      }
      assert Examined(relativeYaw, velocity, frequency, maxCycles, n - 1)
        <==> AbsReal(relativeYaw) > AbsReal(Swept(velocity, frequency, n - 1));
    }
  }

  /** How many cycles of the look-ahead stay short of the yaw still to turn. */
  function CyclesShortOf(remaining: real, velocity: real, frequency: real, maxCycles: int): nat
    requires frequency > 0.0
    decreases maxCycles
  {
    if maxCycles <= 0 then 0
    else if AbsReal(Swept(velocity, frequency, maxCycles - 1)) < remaining then maxCycles
    else CyclesShortOf(remaining, velocity, frequency, maxCycles - 1)
  }

  lemma {:induction false} ShortCycles(remaining: real, velocity: real, frequency: real, maxCycles: int, k: int)
    requires frequency > 0.0
    ensures CyclesShortOf(remaining, velocity, frequency, maxCycles) <= if maxCycles > 0 then maxCycles else 0
    ensures 0 <= k < CyclesShortOf(remaining, velocity, frequency, maxCycles)
      <==> 0 <= k < maxCycles && AbsReal(Swept(velocity, frequency, k)) < remaining
    decreases maxCycles
  {
    hide Swept, AbsReal;
    if maxCycles > 0 {
      if 0 <= k < maxCycles { SweptGrows(velocity, frequency, k, maxCycles - 1); }
      ShortCycles(remaining, velocity, frequency, maxCycles - 1, k);
    }
  }

  /** The headings the robot will pass on the way to its goal are all examined
      if and only if the last of them is short of the yaw already turned. */
  lemma WayExaminedIff(relativeYaw: real, remaining: real, velocity: real, frequency: real, maxCycles: int)
    requires frequency > 0.0
    ensures var n := CyclesShortOf(remaining, velocity, frequency, maxCycles);
      (forall k :: 0 <= k < maxCycles && AbsReal(Swept(velocity, frequency, k)) < remaining ==>
         Examined(relativeYaw, velocity, frequency, maxCycles, k))
      <==> n == 0 || AbsReal(relativeYaw) > AbsReal(Swept(velocity, frequency, n - 1))
  {
    var n := CyclesShortOf(remaining, velocity, frequency, maxCycles);
    forall k: int
      ensures 0 <= k < n <==> 0 <= k < maxCycles && AbsReal(Swept(velocity, frequency, k)) < remaining
      ensures n == 0 || n <= maxCycles
    {
      ShortCycles(remaining, velocity, frequency, maxCycles, k);
    }
    ShortCycles(remaining, velocity, frequency, maxCycles, 0);
    ExaminedBeforeIff(relativeYaw, velocity, frequency, maxCycles, n);
    hide Examined, Swept, CyclesShortOf, AbsReal;
  }

  /** A look-ahead of any length examines nothing if and only if no yaw has been
      accumulated yet. */
  lemma NothingExaminedIff(relativeYaw: real, velocity: real, frequency: real, maxCycles: int)
    requires frequency > 0.0
    ensures (forall k :: !Examined(relativeYaw, velocity, frequency, maxCycles, k))
      <==> maxCycles <= 0 || relativeYaw == 0.0
  {
    assert Examined(relativeYaw, velocity, frequency, maxCycles, 0) <==> maxCycles > 0 && relativeYaw != 0.0;
  }

  /** From half way to the goal on, every heading on the way there is examined. */
  lemma WayExaminedPastHalf(cmdYaw: real, relativeYaw: real, velocity: real, frequency: real, maxCycles: int, k: int)
    requires frequency > 0.0 && AbsReal(relativeYaw) >= AbsReal(cmdYaw) - AbsReal(relativeYaw)
    requires 0 <= k < maxCycles && AbsReal(Swept(velocity, frequency, k)) < AbsReal(cmdYaw) - AbsReal(relativeYaw)
    ensures Examined(relativeYaw, velocity, frequency, maxCycles, k)
  {
  }

  // ----- the behaviour ------------------------------------------------------------------

  datatype SpinError = TfError | Timeout | CollisionAhead

  datatype Status = Running(velocity: real) | Succeeded | Failed(error: SpinError)

  const REMAINING_TOLERANCE := 0.000001

  /** The speed for what remains to be turned; `root` stands for `sqrt`. */
  function SpeedFor(root: real -> real, accLim: real, minVel: real, maxVel: real, remaining: real): (v: real)
    ensures v <= maxVel && (minVel <= maxVel ==> v >= minVel)
    ensures minVel <= root(2.0 * accLim * remaining) <= maxVel ==> v == root(2.0 * accLim * remaining)
  {
    MinReal(MaxReal(root(2.0 * accLim * remaining), minVel), maxVel)
  }

  class Spin {
    const pi: real
    const root: real -> real
    const minRotationalVel: real
    const maxRotationalVel: real
    const rotationalAccLim: real
    const frequency: real
    const aheadTime: real
    var prevYaw: real
    var relativeYaw: real
    var cmdYaw: real
    var timeAllowance: real
    var endTime: real
    /** The rotational velocities sent to the base. */
    var published: seq<real>
    /** The yaws observed since the run began. */
    ghost var yaws: seq<real>

    constructor (pi: real, root: real -> real, minVel: real, maxVel: real, accLim: real, frequency: real,
                 aheadTime: real)
      requires frequency > 0.0
      ensures Valid() && published == [] && yaws == []
      ensures this.pi == pi && minRotationalVel == minVel && maxRotationalVel == maxVel
    {
      this.pi, this.root, this.frequency, this.aheadTime := pi, root, frequency, aheadTime;
      minRotationalVel, maxRotationalVel, rotationalAccLim := minVel, maxVel, accLim;
      prevYaw, relativeYaw, cmdYaw, timeAllowance, endTime, published, yaws := 0.0, 0.0, 0.0, 0.0, 0.0, [], [];
    }

    /** Once a run has begun, the fields sum up the observations. */
    ghost predicate Valid()
      reads this
    {
      frequency > 0.0 && (yaws != [] ==> prevYaw == yaws[|yaws| - 1] && relativeYaw == RelativeYaw(pi, yaws))
    }

    /** `onRun`; without a pose nothing starts. */
    method OnRun(hasPose: bool, yaw: real, targetYaw: real, allowance: real, now: real) returns (ok: bool)
      requires Valid()
      modifies `prevYaw, `relativeYaw, `cmdYaw, `timeAllowance, `endTime, `yaws
      ensures Valid() && ok == hasPose
      ensures ok ==> yaws == [yaw] && relativeYaw == 0.0 && cmdYaw == targetYaw
      ensures ok ==> timeAllowance == allowance && endTime == now + allowance
      ensures !ok ==> unchanged(this)
    {
      if !hasPose {
        return false;
      }
      prevYaw := yaw;
      relativeYaw := 0.0;
      cmdYaw := targetYaw;
      timeAllowance := allowance;
      endTime := now + timeAllowance;
      yaws := [yaw];
      return true;
    }

    /** The yaw accumulation of `onCycleUpdate`. */
    method Accumulate(yaw: real)
      requires Valid() && yaws != []
      modifies `prevYaw, `relativeYaw, `yaws
      ensures Valid() && yaws == old(yaws) + [yaw]
    {
      var deltaYaw := yaw - prevYaw;
      if AbsReal(deltaYaw) > pi {
        deltaYaw := CopySign(2.0 * pi - AbsReal(deltaYaw), prevYaw);
      }
      relativeYaw := relativeYaw + deltaYaw;
      prevYaw := yaw;
      assert (yaws + [yaw])[..|yaws|] == yaws;
      yaws := yaws + [yaw];
    }

    /** `onCycleUpdate`. */
    method OnCycleUpdate(now: real, hasPose: bool, yaw: real, free: real -> bool) returns (status: Status)
      requires Valid() && yaws != []
      modifies `prevYaw, `relativeYaw, `published, `yaws
      ensures Valid()
      ensures status == Failed(Timeout) <==> now > endTime && timeAllowance > 0.0
      ensures status == Failed(TfError) <==> status != Failed(Timeout) && !hasPose
      ensures status in {Failed(Timeout), Failed(TfError)} ==> yaws == old(yaws) && relativeYaw == old(relativeYaw)
      ensures status !in {Failed(Timeout), Failed(TfError)} ==>
        && yaws == old(yaws) + [yaw]
        && (status == Succeeded <==> AbsReal(relativeYaw) > AbsReal(cmdYaw) - REMAINING_TOLERANCE)
      ensures published == old(published) + (match status
        case Running(velocity) => [velocity]
        case Failed(TfError) => []
        case _ => [0.0])
      ensures status.Running? ==>
        var remaining := AbsReal(cmdYaw) - AbsReal(relativeYaw);
        var speed := SpeedFor(root, rotationalAccLim, minRotationalVel, maxRotationalVel, remaining);
        && status.velocity == CopySign(speed, cmdYaw)
        && ClearAhead(relativeYaw, status.velocity, yaw, frequency, aheadTime, free)
      ensures status == Failed(CollisionAhead) ==>
        var remaining := AbsReal(cmdYaw) - AbsReal(relativeYaw);
        var speed := SpeedFor(root, rotationalAccLim, minRotationalVel, maxRotationalVel, remaining);
        var velocity := CopySign(speed, cmdYaw);
        !ClearAhead(relativeYaw, velocity, yaw, frequency, aheadTime, free)
    {
      hide SpeedFor, ClearAhead, RelativeYaw;
      var timeRemaining := endTime - now;
      if timeRemaining < 0.0 && timeAllowance > 0.0 {
        published := published + [0.0];
        return Failed(Timeout);
      }
      if !hasPose {
        return Failed(TfError);
      }
      Accumulate(yaw);
      var remainingYaw := AbsReal(cmdYaw) - AbsReal(relativeYaw);
      if remainingYaw < REMAINING_TOLERANCE {
        published := published + [0.0];
        return Succeeded;
      }
      var vel := SpeedFor(root, rotationalAccLim, minRotationalVel, maxRotationalVel, remainingYaw);
      vel := CopySign(vel, cmdYaw);
      var clear := IsCollisionFree(relativeYaw, vel, yaw, frequency, aheadTime, free);
      if !clear {
        published := published + [0.0];
        return Failed(CollisionAhead);
      }
      published := published + [vel];
      return Running(vel);
    }
  }

  /** A robot that has not turned yet is set going although the checker rejects
      every heading: the first look-ahead examines none of them. */
  method FirstCycleIgnoresCollisions(spin: Spin, yaw: real, targetYaw: real, allowance: real, start: real, now: real)
    returns (status: Status)
    requires spin.Valid() && spin.pi > 0.0 && AbsReal(targetYaw) >= REMAINING_TOLERANCE
    requires now <= start + allowance || allowance <= 0.0
    modifies spin
    ensures spin.Valid() && status.Running?
    ensures |spin.published| > 0 && spin.published[|spin.published| - 1] == status.velocity
  {
    hide SpeedFor, Swept, Truncate;
    var started := spin.OnRun(true, yaw, targetYaw, allowance, start);
    status := spin.OnCycleUpdate(now, true, yaw, _ => false);
    NoTurnNoYaw(spin.pi, yaw);
  }

  lemma NoTurnNoYaw(pi: real, yaw: real)
    requires pi > 0.0
    ensures RelativeYaw(pi, [yaw] + [yaw]) == 0.0
  {
    assert ([yaw] + [yaw])[..1] == [yaw];
  }

  /** A spin that succeeds has really turned: for any run of headings less than
      half a turn apart, the success test on the accumulated yaw is a test on
      the net rotation. */
  lemma SuccessIsRotation(pi: real, yaws: seq<real>, headings: seq<real>, turns: seq<int>, cmdYaw: real)
    requires pi > 0.0 && |yaws| == |headings| == |turns| > 0 && Slow(pi, headings)
    requires forall i :: 0 <= i < |yaws| ==> Observes(pi, yaws[i], headings[i], turns[i])
    ensures AbsReal(RelativeYaw(pi, yaws)) > AbsReal(cmdYaw) - REMAINING_TOLERANCE <==>
      AbsReal(headings[|headings| - 1] - headings[0]) > AbsReal(cmdYaw) - REMAINING_TOLERANCE
  {
    RelativeYawIsRotation(pi, yaws, headings, turns);
  }
}
