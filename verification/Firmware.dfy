/** The firmware's control loop as a state machine, and its auto-stop. */
module Firmware {
  import opened Prelude
  import opened PidControl
  import opened MotorOutput

  const AUTO_STOP_WINDOW := 3000
  const PID_RATE := 30
  const PID_PERIOD := 1000 / PID_RATE

  /** `millis()` counts in an `unsigned long` of 32 bits. */
  const WRAP := 0x1_0000_0000

  /** The reading of the clock at true time `t`. */
  function Stamp(t: nat): int { t % WRAP }

  /** Unsigned subtraction of two readings. */
  function Elapsed(now: int, stamp: int): int { (now - stamp) % WRAP }

  /** The subtraction gives the true time between two readings, across the
      wrap of the clock, exactly when that time fits the clock. */
  lemma ElapsedIsTrue(t0: nat, t: nat)
    requires t0 <= t
    ensures Elapsed(Stamp(t), Stamp(t0)) == t - t0 <==> t - t0 < WRAP
  {
    var a, b := t / WRAP, t0 / WRAP;
    assert t % WRAP - t0 % WRAP == (t - t0) - (a - b) * WRAP;
    ModShift(t - t0, a - b);
  }

  lemma ModShift(d: int, k: int)
    ensures (d - k * WRAP) % WRAP == d % WRAP
  {
    var q := (d - k * WRAP) / WRAP;
    var r := (d - k * WRAP) % WRAP;
    assert d == (q + k) * WRAP + r;
    DivModUnique(d, q + k, r);
  }

  lemma DivModUnique(d: int, q: int, r: int)
    requires d == q * WRAP + r && 0 <= r < WRAP
    ensures d % WRAP == r
  {
    var q', r' := d / WRAP, d % WRAP;
    assert (q - q') * WRAP == r' - r;
  }

  datatype AppState = AppState(
    leftPid: PidState, rightPid: PidState, leftMotor: Pins, rightMotor: Pins,
    leftCount: int, rightCount: int, lastPid: int, lastCommand: int)
  {
    /** Both outputs off and both controllers disabled. */
    predicate Halted() {
      leftMotor == STOPPED && rightMotor == STOPPED && !leftPid.enabled && !rightPid.enabled
    }

    /** What every run keeps. */
    predicate Sound() {
      && leftPid.ko != 0 && rightPid.ko != 0
      && leftPid.enabled == rightPid.enabled
      && leftMotor.Safe() && rightMotor.Safe()
    }

    function Reset(): AppState {
      this.(leftPid := leftPid.Cleared(leftCount), rightPid := rightPid.Cleared(rightCount))
    }

    function Enabled(on: bool): AppState {
      this.(leftPid := leftPid.(enabled := on), rightPid := rightPid.(enabled := on))
    }

    function Setpoints(left: int, right: int): AppState {
      this.(leftPid := leftPid.(setpoint := left), rightPid := rightPid.(setpoint := right))
    }

    function Driven(left: int, right: int): AppState {
      this.(leftMotor := PinsFor(left), rightMotor := PinsFor(right))
    }

    /** `adjust_motors_speed`. */
    function Adjusted(): AppState
      requires leftPid.ko != 0 && rightPid.ko != 0
    {
      var l, r := leftPid.Computed(leftCount), rightPid.Computed(rightCount);
      this.(leftPid := l, rightPid := r,
            leftMotor := if l.enabled then PinsFor(l.lastOutput) else leftMotor,
            rightMotor := if r.enabled then PinsFor(r.lastOutput) else rightMotor)
    }
  }

  /** One thing the loop does: execute a command, or one of its timed checks.
      `now` and `stamp` are the true times of the two clock readings. */
  datatype Step =
    | SetSpeed(left: int, right: int, now: nat)
    | SetPwm(left: int, right: int)
    | ResetEncoders
    | SetGains(kp: int, kd: int, ki: int, ko: int)
    | Other
    | EncoderMoved(leftTicks: int, rightTicks: int)
    | PidCheck(now: nat, stamp: nat)
    | StopCheck(now: nat, stamp: nat)
  {
    predicate Allowed() { SetGains? ==> ko != 0 }

    /** A command that may set the motors going. */
    predicate Motion() { SetPwm? || (SetSpeed? && (left != 0 || right != 0)) }

    /** A command that stamps the auto-stop timer. */
    predicate Stamps() { SetSpeed? }
  }

  function Next(s: AppState, step: Step): AppState
    requires s.leftPid.ko != 0 && s.rightPid.ko != 0 && step.Allowed()
  {
    match step
    case SetSpeed(left, right, now) =>
      var stamped := s.(lastCommand := Stamp(now));
      var switched :=
        if left == 0 && right == 0 then stamped.Driven(0, 0).Reset().Enabled(false) else stamped.Enabled(true);
      switched.Setpoints(TruncDiv(left, PID_RATE), TruncDiv(right, PID_RATE))
    case SetPwm(left, right) => s.Reset().Enabled(false).Driven(left, right)
    case ResetEncoders => s.(leftCount := 0, rightCount := 0).Reset()
    case SetGains(kp, kd, ki, ko) =>
      s.(leftPid := s.leftPid.(kp := kp, kd := kd, ki := ki, ko := ko),
         rightPid := s.rightPid.(kp := kp, kd := kd, ki := ki, ko := ko))
    case Other => s
    case EncoderMoved(l, r) => s.(leftCount := s.leftCount + l, rightCount := s.rightCount + r)
    case PidCheck(now, stamp) =>
      if Elapsed(Stamp(now), s.lastPid) > PID_PERIOD then s.(lastPid := Stamp(stamp)).Adjusted() else s
    case StopCheck(now, stamp) =>
      if Elapsed(Stamp(now), s.lastCommand) > AUTO_STOP_WINDOW
      then s.(lastCommand := Stamp(stamp)).Driven(0, 0).Enabled(false) else s
  }

  /** The gains stay usable, the controllers are switched together, and each
      motor is driven one way at most. */
  lemma NextKeepsSound(s: AppState, step: Step)
    requires s.Sound() && step.Allowed()
    ensures Next(s, step).Sound()
  {
    hide PidState.RawOutput, PidState.Free, PidState.Saturated, Elapsed, Stamp, TruncDiv;
  }

  function Run(s: AppState, steps: seq<Step>): (r: AppState)
    requires s.Sound() && forall t :: t in steps ==> t.Allowed()
    ensures r.Sound()
  {
    if steps == [] then s
    else
      assert steps[|steps| - 1] in steps;
      var before := Run(s, steps[..|steps| - 1]);
      NextKeepsSound(before, steps[|steps| - 1]);
      Next(before, steps[|steps| - 1])
  }

  lemma {:induction false} RunConcat(s: AppState, a: seq<Step>, b: seq<Step>)
    requires s.Sound() && (forall t :: t in a ==> t.Allowed()) && (forall t :: t in b ==> t.Allowed())
    ensures Run(s, a + b) == Run(Run(s, a), b)
  {
    hide Next;
    if b == [] {
      assert a + b == a;
    } else {
      assert (a + b)[..|a + b| - 1] == a + b[..|b| - 1];
      assert b[|b| - 1] in b;
      RunConcat(s, a, b[..|b| - 1]);
    }
  }

  // ----- which side does what --------------------------------------------------------

  /** The controller has forgotten everything and starts over from a count. */
  predicate StartsOver(p: PidState, count: int) {
    p.lastEncoderCount == count && p.setpoint == p.integralTerm == p.lastInput == p.lastOutput == 0
  }

  /** An open-loop command: each motor is driven by its own number, as far as a
      duty goes, and both controllers are off and start over from their own counts. */
  lemma PwmDrivesEach(s: AppState, left: int, right: int)
    requires s.Sound()
    ensures var r := Next(s, SetPwm(left, right));
      && r.leftMotor.Drive() == Max(-255, Min(255, left)) && r.rightMotor.Drive() == Max(-255, Min(255, right))
      && r.leftMotor.Safe() && r.rightMotor.Safe() && !r.leftPid.enabled && !r.rightPid.enabled
      && StartsOver(r.leftPid, s.leftCount) && StartsOver(r.rightPid, s.rightCount)
  {
    hide PinsFor, Min, Max;
  }

  /** A speed command: each controller is given its own number, in ticks for each
      of its periods, and is switched on unless both numbers are zero. */
  lemma SpeedSetsEach(s: AppState, left: int, right: int, now: nat)
    requires s.Sound()
    ensures var r := Next(s, SetSpeed(left, right, now));
      && r.leftPid.setpoint == TruncDiv(left, 30) && r.rightPid.setpoint == TruncDiv(right, 30)
      && r.leftPid.enabled == r.rightPid.enabled == (left != 0 || right != 0)
      && r.leftCount == s.leftCount && r.rightCount == s.rightCount && r.lastPid == s.lastPid
      && r.lastCommand == Stamp(now)
      && (left == 0 && right == 0 ==> StartsOver(r.leftPid, s.leftCount) && StartsOver(r.rightPid, s.rightCount))
  {
    hide PinsFor, TruncDiv, Stamp;
    ZeroDivided();
  }

  lemma ZeroDivided()
    ensures TruncDiv(0, 30) == 0
  {
  }

  /** Resetting the encoders: the counts are zero, and the controllers start over
      from there. */
  lemma ResetStartsOver(s: AppState)
    requires s.Sound()
    ensures var r := Next(s, ResetEncoders);
      && r.leftCount == r.rightCount == 0 && StartsOver(r.leftPid, 0) && StartsOver(r.rightPid, 0)
      && r.leftMotor == s.leftMotor && r.rightMotor == s.rightMotor
      && r.leftPid.enabled == s.leftPid.enabled && r.rightPid.enabled == s.rightPid.enabled
  {
  }

  /** A controller check that is not due does nothing. */
  lemma CheckNotDue(s: AppState, now: nat, stamp: nat)
    requires s.Sound() && Elapsed(Stamp(now), s.lastPid) <= 33
    ensures Next(s, PidCheck(now, stamp)) == s
  {
    hide Elapsed, Stamp;
  }

  /** A due controller check: each motor is driven by its own controller, and each
      controller is fed by its own encoder. */
  lemma DueCheckDrivesEach(s: AppState, now: nat, stamp: nat)
    requires s.Sound() && s.leftPid.enabled && Elapsed(Stamp(now), s.lastPid) > 33
    ensures var r := Next(s, PidCheck(now, stamp));
      && r.leftPid == s.leftPid.Computed(s.leftCount) && r.rightPid == s.rightPid.Computed(s.rightCount)
      && r.leftMotor.Drive() == Max(-255, Min(255, r.leftPid.lastOutput))
      && r.rightMotor.Drive() == Max(-255, Min(255, r.rightPid.lastOutput))
      && r.lastPid == Stamp(stamp) && r.leftCount == s.leftCount && r.rightCount == s.rightCount
  {
    hide PinsFor, Min, Max, Stamp, Elapsed;
    EnabledStays(s.leftPid, s.leftCount);
    EnabledStays(s.rightPid, s.rightCount);
    hide PidState.Computed;
  }

  lemma EnabledStays(p: PidState, count: int)
    requires p.ko != 0 && p.enabled
    ensures p.Computed(count).enabled
  {
  }

  // ----- the auto-stop ---------------------------------------------------------------

  lemma StoppedPins()
    ensures PinsFor(0) == STOPPED
  {
  }

  /** The stop branch, when taken, halts the robot and starts the window anew. */
  lemma StopCheckHalts(s: AppState, now: nat, stamp: nat)
    requires s.Sound() && Elapsed(Stamp(now), s.lastCommand) > AUTO_STOP_WINDOW
    ensures Next(s, StopCheck(now, stamp)).Halted()
    ensures Next(s, StopCheck(now, stamp)).lastCommand == Stamp(stamp)
  {
    StoppedPins();
    hide PidState.Computed, Elapsed, Stamp, TruncDiv, PinsFor, Pins.Safe, Pins.Drive, Min, Max;
  }

  /** A halted robot stays halted through anything but a motion command. */
  lemma HaltedStays(s: AppState, step: Step)
    requires s.Sound() && s.Halted() && step.Allowed() && !step.Motion()
    ensures Next(s, step).Halted()
  {
    hide PidState.RawOutput, PidState.Free, PidState.Saturated, Elapsed, Stamp, TruncDiv;
  }

  lemma {:induction false} HaltedThroughout(s: AppState, steps: seq<Step>)
    requires s.Sound() && s.Halted()
    requires forall t :: t in steps ==> t.Allowed() && !t.Motion()
    ensures Run(s, steps).Halted()
  {
    hide Next;
    if steps != [] {
      var n := |steps| - 1;
      assert steps[n] in steps;
      HaltedThroughout(s, steps[..n]);
      HaltedStays(Run(s, steps[..n]), steps[n]);
    }
  }

  /** While nothing stamps the timer and no stop check fires, the stamp stays. */
  lemma StampStays(s: AppState, step: Step)
    requires s.Sound() && step.Allowed() && !step.Stamps()
    ensures Next(s, step).lastCommand == s.lastCommand || Next(s, step).Halted()
  {
    hide Next, Elapsed, Stamp;
    if !step.StopCheck? {
      BetweenKeepsStamp(s, step);
    } else if Elapsed(Stamp(step.now), s.lastCommand) > AUTO_STOP_WINDOW {
      StopCheckHalts(s, step.now, step.stamp);
    } else {
      EarlyCheckDoesNothing(s, step.now, step.stamp);
    }
  }

  lemma ZeroSpeedHalts(s: AppState, step: Step)
    requires s.Sound() && step.Stamps() && !step.Motion()
    ensures Next(s, step).Halted()
  {
    hide PidState.RawOutput, PidState.Free, PidState.Saturated, Elapsed, Stamp, TruncDiv;
  }

  /** Either the timer still holds its stamp, or the robot is halted. */
  lemma {:induction false} StampedOrHalted(s: AppState, steps: seq<Step>)
    requires s.Sound() && forall t :: t in steps ==> t.Allowed() && !t.Motion()
    ensures Run(s, steps).lastCommand == s.lastCommand || Run(s, steps).Halted()
  {
    hide Next;
    if steps != [] {
      var n := |steps| - 1;
      assert steps[n] in steps;
      StampedOrHalted(s, steps[..n]);
      var before := Run(s, steps[..n]);
      if before.Halted() {
        HaltedStays(before, steps[n]);
      } else if steps[n].Stamps() {
        ZeroSpeedHalts(before, steps[n]);
      } else {
        StampStays(before, steps[n]);
      }
    }
  }

  /** The dead man's switch: if no motion command follows the one stamped at
      `t0`, then once a stop check reads the clock more than the window later
      (and within the clock's range), the robot is halted, and stays so until
      the next motion command. */
  lemma UnattendedMotorsStop(s: AppState, before: seq<Step>, now: nat, stamp: nat, after: seq<Step>, t0: nat)
    requires s.Sound() && s.lastCommand == Stamp(t0)
    requires forall t :: t in before ==> t.Allowed() && !t.Motion()
    requires forall t :: t in after ==> t.Allowed() && !t.Motion()
    requires AUTO_STOP_WINDOW < now - t0 < WRAP
    ensures Run(s, before + [StopCheck(now, stamp)] + after).Halted()
  {
    hide Next, Elapsed, Stamp;
    var check := [StopCheck(now, stamp)];
    RunConcat(s, before + check, after);
    RunConcat(s, before, check);
    StampedOrHalted(s, before);
    var mid := Run(s, before);
    OneStep(mid, check[0]);
    if mid.lastCommand == s.lastCommand {
      ElapsedIsTrue(t0, now);
      StopCheckHalts(mid, now, stamp);
    } else {
      HaltedStays(mid, check[0]);
    }
    HaltedThroughout(Run(mid, check), after);
  }

  lemma OneStep(s: AppState, step: Step)
    requires s.Sound() && step.Allowed()
    ensures Run(s, [step]) == Next(s, step)
  {
    assert [step][..0] == [];
    hide Next;
  }

  // ----- open-loop commands and the auto-stop ---------------------------------------

  /** A step between two stop checks that does not stamp the timer. */
  predicate Between(step: Step) { !step.Stamps() && !step.StopCheck? }

  /** Driven open loop: the controllers are off and a motor is on. */
  predicate OpenLoop(s: AppState) {
    !s.leftPid.enabled && !s.rightPid.enabled && (s.leftMotor != STOPPED || s.rightMotor != STOPPED)
  }

  lemma BetweenKeepsStamp(s: AppState, step: Step)
    requires s.Sound() && step.Allowed() && Between(step)
    ensures Next(s, step).lastCommand == s.lastCommand
  {
    hide PidState.Computed, Elapsed, Stamp, TruncDiv, PinsFor;
  }

  lemma {:induction false} StampStaysBetween(s: AppState, steps: seq<Step>)
    requires s.Sound() && forall t :: t in steps ==> t.Allowed() && Between(t)
    ensures Run(s, steps).lastCommand == s.lastCommand
  {
    hide Next;
    if steps != [] {
      var n := |steps| - 1;
      assert Between(steps[n]);
      StampStaysBetween(s, steps[..n]);
      BetweenKeepsStamp(Run(s, steps[..n]), steps[n]);
    }
  }

  lemma PwmDrives(s: AppState, left: int, right: int)
    requires s.Sound() && (left != 0 || right != 0)
    ensures OpenLoop(Next(s, SetPwm(left, right)))
  {
    NonZeroPins(left);
    NonZeroPins(right);
    hide PidState.Computed, Elapsed, Stamp, TruncDiv, PinsFor;
  }

  lemma NonZeroPins(speed: int)
    ensures PinsFor(speed) == STOPPED <==> speed == 0
  {
  }

  lemma QuietKeepsOpenLoop(s: AppState, step: Step)
    requires s.Sound() && OpenLoop(s) && step.Allowed() && Between(step) && !step.SetPwm?
    ensures OpenLoop(Next(s, step))
  {
    hide PidState.RawOutput, PidState.Free, PidState.Saturated, Elapsed, Stamp, TruncDiv, PinsFor;
  }

  lemma {:induction false} OpenLoopThroughout(s: AppState, steps: seq<Step>)
    requires s.Sound() && OpenLoop(s) && forall t :: t in steps ==> t.Allowed() && Between(t) && !t.SetPwm?
    ensures OpenLoop(Run(s, steps))
  {
    hide Next, OpenLoop;
    if steps != [] {
      var n := |steps| - 1;
      assert Between(steps[n]) && !steps[n].SetPwm?;
      OpenLoopThroughout(s, steps[..n]);
      QuietKeepsOpenLoop(Run(s, steps[..n]), steps[n]);
    }
  }

  lemma EarlyCheckDoesNothing(s: AppState, now: nat, stamp: nat)
    requires s.Sound() && Elapsed(Stamp(now), s.lastCommand) <= AUTO_STOP_WINDOW
    ensures Next(s, StopCheck(now, stamp)) == s
  {
  }

  /** The first check after an open-loop drive: whatever open-loop and other
      commands surround it, the check halts the robot if and only if the clock
      shows that the window has passed since the last stamp. */
  lemma FirstCheckAfterPwm(s: AppState, before: seq<Step>, left: int, right: int, after: seq<Step>,
                           now: nat, stamp: nat)
    requires s.Sound() && (left != 0 || right != 0)
    requires forall t :: t in before ==> t.Allowed() && Between(t)
    requires forall t :: t in after ==> t.Allowed() && Between(t) && !t.SetPwm?
    ensures Run(s, before + [SetPwm(left, right)] + after + [StopCheck(now, stamp)]).Halted()
      <==> Elapsed(Stamp(now), s.lastCommand) > AUTO_STOP_WINDOW
  {
    hide Next, Elapsed, Stamp, AppState.Halted;
    var pwm, check := SetPwm(left, right), StopCheck(now, stamp);
    var steps := before + [pwm] + after;
    RunConcat(s, before, [pwm]);
    RunConcat(s, before + [pwm], after);
    RunConcat(s, steps, [check]);
    OneStep(Run(s, before), pwm);
    PwmDrives(Run(s, before), left, right);
    OpenLoopThroughout(Run(s, before + [pwm]), after);
    StampStaysBetween(s, steps);
    var driven := Run(s, steps);
    OneStep(driven, check);
    if Elapsed(Stamp(now), s.lastCommand) > AUTO_STOP_WINDOW {
      StopCheckHalts(driven, now, stamp);
    } else {
      EarlyCheckDoesNothing(driven, now, stamp);
      OpenLoopIsNotHalted(driven);
    }
  }

  lemma OpenLoopIsNotHalted(s: AppState)
    requires OpenLoop(s)
    ensures !s.Halted()
  {
  }

  /** A step that leaves the timer alone: no speed command, and no check after
      the window that began at `t0`. */
  predicate Early(step: Step, t0: nat) {
    !step.Stamps() && (step.StopCheck? ==> t0 <= step.now <= t0 + AUTO_STOP_WINDOW)
  }

  /** A step between an open-loop command and a check at `now`: any command that
      does not drive, and any checks made meanwhile. */
  predicate Quiet(step: Step, t0: nat, now: nat) {
    !step.Stamps() && !step.SetPwm? && (step.StopCheck? ==> t0 <= step.now <= now)
  }

  /** Before `now`: still driven with the timer as it was stamped at `t0`, or
      halted by a check made after the window. */
  predicate DrivenOrCutOff(s: AppState, t0: nat, now: nat) {
    (OpenLoop(s) && s.lastCommand == Stamp(t0)) || (s.Halted() && now - t0 > AUTO_STOP_WINDOW)
  }

  lemma EarlyKeepsStamp(s: AppState, step: Step, t0: nat)
    requires s.Sound() && step.Allowed() && Early(step, t0) && s.lastCommand == Stamp(t0)
    ensures Next(s, step).lastCommand == Stamp(t0)
  {
    hide Next, Elapsed, Stamp;
    if step.StopCheck? {
      ElapsedIsTrue(t0, step.now);
      EarlyCheckDoesNothing(s, step.now, step.stamp);
    } else {
      BetweenKeepsStamp(s, step);
    }
  }

  lemma {:induction false} EarlyThroughout(s: AppState, steps: seq<Step>, t0: nat)
    requires s.Sound() && s.lastCommand == Stamp(t0) && forall t :: t in steps ==> t.Allowed() && Early(t, t0)
    ensures Run(s, steps).lastCommand == Stamp(t0)
  {
    hide Next, Stamp, Early;
    if steps != [] {
      var n := |steps| - 1;
      assert steps[n].Allowed() && Early(steps[n], t0);
      EarlyThroughout(s, steps[..n], t0);
      EarlyKeepsStamp(Run(s, steps[..n]), steps[n], t0);
    }
  }

  lemma QuietStep(s: AppState, step: Step, t0: nat, now: nat)
    requires s.Sound() && step.Allowed() && Quiet(step, t0, now) && now < t0 + WRAP && DrivenOrCutOff(s, t0, now)
    ensures DrivenOrCutOff(Next(s, step), t0, now)
  {
    hide Next, Elapsed, Stamp, OpenLoop, AppState.Halted;
    if s.Halted() && now - t0 > AUTO_STOP_WINDOW {
      HaltedStays(s, step);
    } else if !step.StopCheck? {
      BetweenKeepsStamp(s, step);
      QuietKeepsOpenLoop(s, step);
    } else {
      ElapsedIsTrue(t0, step.now);
      if step.now - t0 > AUTO_STOP_WINDOW {
        StopCheckHalts(s, step.now, step.stamp);
      } else {
        EarlyCheckDoesNothing(s, step.now, step.stamp);
      }
    }
  }

  lemma {:induction false} QuietThroughout(s: AppState, steps: seq<Step>, t0: nat, now: nat)
    requires s.Sound() && t0 <= now < t0 + WRAP && DrivenOrCutOff(s, t0, now)
    requires forall t :: t in steps ==> t.Allowed() && Quiet(t, t0, now)
    ensures DrivenOrCutOff(Run(s, steps), t0, now)
  {
    hide Next, DrivenOrCutOff, Quiet;
    if steps != [] {
      var n := |steps| - 1;
      assert steps[n].Allowed() && Quiet(steps[n], t0, now);
      QuietThroughout(s, steps[..n], t0, now);
      QuietStep(Run(s, steps[..n]), steps[n], t0, now);
    }
  }

  /** When an open-loop drive is cut off: through whatever open-loop commands and
      early checks before it, and whatever other commands and checks after it, a
      check finds or leaves the robot halted if and only if the window has
      passed since the timer was last stamped, by a speed command or by the
      auto-stop itself.  The drive's own time plays no part. */
  lemma PwmDoesNotRestartTimer(s: AppState, before: seq<Step>, left: int, right: int, after: seq<Step>,
                               t0: nat, now: nat, stamp: nat)
    requires s.Sound() && s.lastCommand == Stamp(t0) && (left != 0 || right != 0) && t0 <= now < t0 + WRAP
    requires forall t :: t in before ==> t.Allowed() && Early(t, t0)
    requires forall t :: t in after ==> t.Allowed() && Quiet(t, t0, now)
    ensures Run(s, before + [SetPwm(left, right)] + after + [StopCheck(now, stamp)]).Halted()
      <==> now - t0 > AUTO_STOP_WINDOW
  {
    hide Next, Elapsed, Stamp, AppState.Halted, OpenLoop, Early, Quiet;
    var pwm, check := SetPwm(left, right), StopCheck(now, stamp);
    assert Quiet(check, t0, now) by { LastCheckIsQuiet(t0, now, stamp); }
    RunConcat(s, before, [pwm]);
    RunConcat(s, before + [pwm], after);
    RunConcat(s, before + [pwm] + after, [check]);
    EarlyThroughout(s, before, t0);
    var start := Run(s, before);
    OneStep(start, pwm);
    PwmDrives(start, left, right);
    PwmKeepsStamp(start, left, right);
    QuietThroughout(Next(start, pwm), after, t0, now);
    var last := Run(s, before + [pwm] + after);
    OneStep(last, check);
    QuietStep(last, check, t0, now);
    LastCheckDecides(last, t0, now, stamp);
  }

  lemma LastCheckIsQuiet(t0: nat, now: nat, stamp: nat)
    requires t0 <= now
    ensures Quiet(StopCheck(now, stamp), t0, now)
  {
  }

  lemma PwmKeepsStamp(s: AppState, left: int, right: int)
    requires s.Sound()
    ensures Next(s, SetPwm(left, right)).lastCommand == s.lastCommand
  {
    BetweenKeepsStamp(s, SetPwm(left, right));
    hide Next;
  }

  lemma LastCheckDecides(s: AppState, t0: nat, now: nat, stamp: nat)
    requires s.Sound() && t0 <= now < t0 + WRAP && DrivenOrCutOff(s, t0, now)
    ensures Next(s, StopCheck(now, stamp)).Halted() <==> now - t0 > AUTO_STOP_WINDOW
  {
    hide Next, Elapsed, Stamp, OpenLoop, AppState.Halted;
    if s.Halted() && now - t0 > AUTO_STOP_WINDOW {
      HaltedStays(s, StopCheck(now, stamp));
    } else {
      ElapsedIsTrue(t0, now);
      OpenLoopIsNotHalted(s);
      if now - t0 > AUTO_STOP_WINDOW {
        StopCheckHalts(s, now, stamp);
      } else {
        EarlyCheckDoesNothing(s, now, stamp);
      }
    }
  }

  /** The documented auto-stop is to act when no command has come for the
      window.  For an open-loop command at `t1`, the timer having been stamped at
      `t0`, any later check finds or leaves the robot as documented if and only
      if it does not fall between the end of one window and the end of the other. */
  lemma AutoStopAsDocumentedIff(s: AppState, before: seq<Step>, left: int, right: int, after: seq<Step>,
                                t0: nat, t1: nat, now: nat, stamp: nat)
    requires s.Sound() && s.lastCommand == Stamp(t0) && (left != 0 || right != 0)
    requires t0 <= t1 <= now < t0 + WRAP
    requires forall t :: t in before ==> t.Allowed() && Early(t, t0)
    requires forall t :: t in after ==> t.Allowed() && Quiet(t, t0, now)
    ensures var halted := Run(s, before + [SetPwm(left, right)] + after + [StopCheck(now, stamp)]).Halted();
      (halted <==> now - t1 > AUTO_STOP_WINDOW) <==> !(now - t1 <= AUTO_STOP_WINDOW < now - t0)
  {
    PwmDoesNotRestartTimer(s, before, left, right, after, t0, now, stamp);
    hide Next, Run, Elapsed, Stamp, AppState.Halted;
  }
}
