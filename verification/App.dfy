/** The firmware application (`andino::App`): the shell's commands and the loop
    acting on the controllers, the motors and the encoders. */
module FirmwareApp {
  import opened Prelude
  import opened Decimal
  import opened CommandShell
  import opened HostProtocol
  import PidControl
  import opened MotorOutput
  import opened QuadratureEncoder
  import opened Firmware

  const READ_ANALOG := 0
  const READ_DIGITAL := 1
  const READ_ENCODERS := 2
  const RESET_ENCODERS := 3
  const SET_MOTORS_SPEED := 4
  const SET_MOTORS_PWM := 5
  const SET_PID_GAINS := 6
  const GET_IS_IMU_CONNECTED := 7
  const READ_ENCODERS_AND_IMU := 8

  /** The commands in the order `setup` registers them. */
  const COMMANDS: seq<Command> := [
    Command("a", READ_ANALOG), Command("d", READ_DIGITAL), Command("e", READ_ENCODERS),
    Command("r", RESET_ENCODERS), Command("m", SET_MOTORS_SPEED), Command("o", SET_MOTORS_PWM),
    Command("u", SET_PID_GAINS), Command("h", GET_IS_IMU_CONNECTED), Command("i", READ_ENCODERS_AND_IMU)]

  const PID_KP := 30
  const PID_KD := 10
  const PID_KI := 0
  const PID_KO := 10

  const OK_LINE := "OK\r\n"

  // ----- the gains of a "u" command ----------------------------------------------

  const GAINS_BUFFER := 20

  /** An argument holds no space, so cutting it at colons is cutting it at
      spaces once every colon is one. */
  function ColonsAsSpaces(s: string): string {
    if s == "" then "" else [if s[0] == ':' then ' ' else s[0]] + ColonsAsSpaces(s[1..])
  }

  /** The first four fields as integers; a missing field is zero. */
  function GainsOf(arg: string): (gains: seq<int>)
    ensures |gains| == 4
  {
    var fields := Tokens(ColonsAsSpaces(arg));
    seq(4, k requires 0 <= k < 4 => if k < |fields| then AtoI16(fields[k]) else 0)
  }

  /** The argument fits its buffer and leaves a divisor that is not zero. */
  predicate UsableGains(arg: string) { |arg| < GAINS_BUFFER && GainsOf(arg)[3] != 0 }

  lemma {:induction false} ColonFree(s: string)
    requires ':' !in s
    ensures ColonsAsSpaces(s) == s
  {
    if s != "" {
      ColonFree(s[1..]);
      assert s == [s[0]] + s[1..];
    }
  }

  lemma {:induction false} ColonsSplit(a: string, b: string)
    ensures ColonsAsSpaces(a + b) == ColonsAsSpaces(a) + ColonsAsSpaces(b)
  {
    if a == "" {
      assert a + b == b;
    } else {
      assert (a + b)[1..] == a[1..] + b;
      ColonsSplit(a[1..], b);
    }
  }

  lemma ColonBecomesSpace(rest: string)
    ensures ColonsAsSpaces(":" + rest) == " " + ColonsAsSpaces(rest)
  {
    assert (":" + rest)[1..] == rest;
  }

  /** The fields after the first one, once the first is known. */
  lemma FirstField(x: string, rest: string)
    requires x != "" && ' ' !in x && ':' !in x
    ensures Tokens(ColonsAsSpaces(x + (":" + rest))) == [x] + Tokens(ColonsAsSpaces(rest))
  {
    ColonFree(x);
    ColonsSplit(x, ":" + rest);
    ColonBecomesSpace(rest);
    FirstToken(x, " " + ColonsAsSpaces(rest));
    LeadingSpace(ColonsAsSpaces(rest));
    hide Tokens, ColonsAsSpaces;
  }

  /** Four gains as the command takes them, joined by colons. */
  function GainsText(kp: int, kd: int, ki: int, ko: int): string {
    ToString(kp) + (":" + (ToString(kd) + (":" + (ToString(ki) + (":" + ToString(ko))))))
  }

  /** The fields of four joined gains are what 16 bits leave of the gains. */
  lemma GainsSplit(kp: int, kd: int, ki: int, ko: int)
    ensures GainsOf(GainsText(kp, kd, ki, ko)) == [Int16(kp), Int16(kd), Int16(ki), Int16(ko)]
  {
    GainFields(kp, kd, ki, ko);
    AtoI16Printed(kp); AtoI16Printed(kd); AtoI16Printed(ki); AtoI16Printed(ko);
    hide ToString, AtoI16, Int16, Tokens, ColonsAsSpaces, GainsText;
  }

  lemma GainFields(kp: int, kd: int, ki: int, ko: int)
    ensures Tokens(ColonsAsSpaces(GainsText(kp, kd, ki, ko)))
         == [ToString(kp), ToString(kd), ToString(ki), ToString(ko)]
  {
    var p, d, i, o := ToString(kp), ToString(kd), ToString(ki), ToString(ko);
    ToStringShape(kp); ToStringShape(kd); ToStringShape(ki); ToStringShape(ko);
    hide ToString, Tokens, ColonsAsSpaces;
    FirstField(p, d + (":" + (i + (":" + o))));
    FirstField(d, i + (":" + o));
    FirstField(i, o);
    ColonFree(o);
    assert o + "" == o;
    FirstToken(o, "");
    NoTokens();
  }

  /** Four joined gains can be used if and only if their text fits the buffer
      it is copied to and the boards do not read the output gain as zero, which
      they do for every multiple of 65536. */
  lemma UsableGainsIff(kp: int, kd: int, ki: int, ko: int)
    ensures UsableGains(GainsText(kp, kd, ki, ko))
      <==> |ToString(kp)| + |ToString(kd)| + |ToString(ki)| + |ToString(ko)| + 3 < GAINS_BUFFER && ko % 0x1_0000 != 0
  {
    GainsSplit(kp, kd, ki, ko);
    Int16Zero(ko);
    hide GainsOf, ToString;
  }

  lemma Int16Zero(n: int)
    ensures Int16(n) == 0 <==> n % 0x1_0000 == 0
  {
  }

  /** The loop that reads the gains. */
  method ParseGains(arg: string) returns (gains: seq<int>)
    requires |arg| < GAINS_BUFFER
    ensures gains == GainsOf(arg)
  {
    hide Tokens, ColonsAsSpaces, AtoI16;
    gains := [0, 0, 0, 0];
    var fields := Tokens(ColonsAsSpaces(arg));
    var i := 0;
    while i < |fields| && i < 4
      invariant 0 <= i <= 4 && i <= |fields| && |gains| == 4
      invariant forall k :: 0 <= k < 4 ==> gains[k] == if k < i then AtoI16(fields[k]) else 0
    {
      gains := gains[i := AtoI16(fields[i])];
      i := i + 1;
    }
  }

  // ----- what a dispatched command does ---------------------------------------------

  /** The step a dispatched command takes, executed at true time `now`. */
  function StepOf(d: Dispatch, now: nat): Step {
    if !d.Call? then Other
    else if d.callback == SET_MOTORS_SPEED && |d.args| >= 3 then SetSpeed(AtoI16(d.args[1]), AtoI16(d.args[2]), now)
    else if d.callback == SET_MOTORS_PWM && |d.args| >= 3 then SetPwm(AtoI16(d.args[1]), AtoI16(d.args[2]))
    else if d.callback == RESET_ENCODERS then ResetEncoders
    else if d.callback == SET_PID_GAINS && |d.args| >= 2 then
      var g := GainsOf(d.args[1]);
      SetGains(g[0], g[1], g[2], g[3])
    else Other
  }

  predicate Usable(d: Dispatch) {
    d.Call? && d.callback == SET_PID_GAINS && |d.args| >= 2 ==> UsableGains(d.args[1])
  }

  function GainsReply(g: seq<int>): string
    requires |g| == 4
  {
    "PID Updated: " + ToString(g[0]) + " " + ToString(g[1]) + " " + ToString(g[2]) + " " + ToString(g[3])
    + "\r\n" + OK_LINE
  }

  /** What a command prints; the lines that carry sensor values are left out. */
  function ReplyTo(d: Dispatch, s: AppState): string {
    if d.Default? then "Unknown command.\r\n"
    else if d.NullName? then ""
    else if d.callback == READ_ENCODERS then EncoderReply(s.leftCount, s.rightCount)
    else if d.callback == RESET_ENCODERS then OK_LINE
    else if d.callback in {SET_MOTORS_SPEED, SET_MOTORS_PWM} && |d.args| >= 3 then OK_LINE
    else if d.callback == SET_PID_GAINS && |d.args| >= 2 then
      var g := GainsOf(d.args[1]);
      GainsReply(g)
    else ""
  }

  /** The steps of a list of commands; command `i` runs at time `clock(i)`. */
  function StepsOf(ds: seq<Dispatch>, clock: nat -> nat): (steps: seq<Step>)
    requires forall d :: d in ds ==> Usable(d)
    ensures |steps| == |ds| && forall t :: t in steps ==> t.Allowed()
  {
    if ds == [] then []
    else
      assert Usable(ds[|ds| - 1]);
      assert StepOf(ds[|ds| - 1], clock(|ds| - 1)).Allowed();
      StepsOf(ds[..|ds| - 1], clock) + [StepOf(ds[|ds| - 1], clock(|ds| - 1))]
  }

  /** Everything a list of commands prints. */
  function Replies(s: AppState, ds: seq<Dispatch>, clock: nat -> nat): string
    requires s.Sound() && forall d :: d in ds ==> Usable(d)
  {
    if ds == [] then ""
    else
      var n := |ds| - 1;
      Replies(s, ds[..n], clock) + ReplyTo(ds[n], Run(s, StepsOf(ds[..n], clock)))
  }

  // ----- from the host to the motors ---------------------------------------------------

  /** What a byte stream makes the shell execute. */
  function Executed(f: Framing, input: string): seq<Dispatch> {
    DispatchAll(COMMANDS, true, PutAll(f, input).done)
  }

  /** A message ends in the comparison of a null name exactly when it has no
      words: the empty message of the host's `SendEmptyMsg` is one. */
  lemma NullNameExactlyWhenBlank(message: string)
    ensures DispatchOf(COMMANDS, true, Arguments(message)) == [NullName] <==> Tokens(CString(message + [NUL])) == []
  {
    hide Tokens, CString;
    NullNameExactly(COMMANDS, Arguments(message));
  }

  lemma {:induction false} NullNameExactly(commands: seq<Command>, args: seq<string>)
    ensures DispatchOf(commands, true, args) == [NullName] <==> commands != [] && args == []
  {
    if commands != [] && args != [] {
      NullNameExactly(commands[1..], args);
    }
  }

  lemma SpeedIsDispatched(args: seq<string>)
    requires args != [] && args[0] == "m"
    ensures DispatchOf(COMMANDS, true, args) == [Call(SET_MOTORS_SPEED, args)]
  {
    var c := COMMANDS;
    SkipCommand(c, args);
    SkipCommand(c[1..], args);
    SkipCommand(c[2..], args);
    SkipCommand(c[3..], args);
    assert c[4..][0] == Command("m", SET_MOTORS_SPEED);
  }

  lemma PwmIsDispatched(args: seq<string>)
    requires args != [] && args[0] == "o"
    ensures DispatchOf(COMMANDS, true, args) == [Call(SET_MOTORS_PWM, args)]
  {
    var c := COMMANDS;
    SkipCommand(c, args);
    SkipCommand(c[1..], args);
    SkipCommand(c[2..], args);
    SkipCommand(c[3..], args);
    SkipCommand(c[4..], args);
    assert c[5..][0] == Command("o", SET_MOTORS_PWM);
  }

  lemma ResetIsDispatched(args: seq<string>)
    requires args != [] && args[0] == "r"
    ensures DispatchOf(COMMANDS, true, args) == [Call(RESET_ENCODERS, args)]
  {
    var c := COMMANDS;
    SkipCommand(c, args);
    SkipCommand(c[1..], args);
    SkipCommand(c[2..], args);
    assert c[3..][0] == Command("r", RESET_ENCODERS);
  }

  lemma EncodersAreDispatched(args: seq<string>)
    requires args != [] && args[0] == "e"
    ensures DispatchOf(COMMANDS, true, args) == [Call(READ_ENCODERS, args)]
  {
    var c := COMMANDS;
    SkipCommand(c, args);
    SkipCommand(c[1..], args);
    assert c[2..][0] == Command("e", READ_ENCODERS);
  }

  lemma SkipCommand(commands: seq<Command>, args: seq<string>)
    requires commands != [] && args != [] && args[0] != commands[0].name
    ensures DispatchOf(commands, true, args) == DispatchOf(commands[1..], true, args)
  {
  }

  lemma SingleMessage(m: string)
    ensures DispatchAll(COMMANDS, true, [m]) == DispatchOf(COMMANDS, true, Arguments(m))
  {
    assert [m][..0] == [];
    assert DispatchAll(COMMANDS, true, []) == [];
    hide DispatchOf, Arguments;
  }

  /** For all 32-bit speeds: the bytes the host writes make the firmware take
      exactly one step, with what 16 bits leave of the host's numbers.  They are
      the host's own numbers if and only if both fit. */
  lemma HostSpeedsArrive(a: int, b: int, clock: nat -> nat)
    requires -0x8000_0000 <= a < 0x8000_0000 && -0x8000_0000 <= b < 0x8000_0000
    ensures var ds := Executed(Framing("", []), SetMotorValues(a, b));
      && (forall d :: d in ds ==> Usable(d)) && StepsOf(ds, clock) == [SetSpeed(Int16(a), Int16(b), clock(0))]
      && (StepsOf(ds, clock) == [SetSpeed(a, b, clock(0))] <==> -0x8000 <= a < 0x8000 && -0x8000 <= b < 0x8000)
  {
    Int16Exactly(a);
    Int16Exactly(b);
    hide Int16;
    TwoNumbersAreDispatched('m', a, b);
    OneCommand(Call(SET_MOTORS_SPEED, Arguments(MotorMessage(a, b))), clock);
    hide StepsOf;
  }

  /** A speed command halts the robot if and only if it arrives as zeros, and it
      does so for all multiples of 65536. */
  lemma SpeedsHaltIff(s: AppState, a: int, b: int, clock: nat -> nat)
    requires s.Sound()
    requires -0x8000_0000 <= a < 0x8000_0000 && -0x8000_0000 <= b < 0x8000_0000
    ensures var ds := Executed(Framing("", []), SetMotorValues(a, b));
      && (forall d :: d in ds ==> Usable(d))
      && (Run(s, StepsOf(ds, clock)).Halted() <==> a % 0x1_0000 == 0 && b % 0x1_0000 == 0)
  {
    Int16Zero(a);
    Int16Zero(b);
    HostSpeedsArrive(a, b, clock);
    SpeedHaltsIff(s, Int16(a), Int16(b), clock(0));
    hide Int16, Executed, StepsOf, StepOf, SetMotorValues, Next, Run, AppState.Halted, AppState.Sound, Usable;
  }

  lemma SpeedHaltsIff(s: AppState, left: int, right: int, now: nat)
    requires s.Sound()
    ensures Run(s, [SetSpeed(left, right, now)]).Halted() <==> left == 0 && right == 0
  {
    hide Next, Run, AppState.Halted, AppState.Sound;
    var step := SetSpeed(left, right, now);
    OneStep(s, step);
    if step.Motion() { MotionSpeedEnables(s, step); } else { ZeroSpeedHalts(s, step); }
  }

  lemma MotionSpeedEnables(s: AppState, step: Step)
    requires s.Sound() && step.SetSpeed? && step.Motion()
    ensures !Next(s, step).Halted()
  {
    hide Stamp, PinsFor, TruncDiv;
  }

  /** Speeds of 65536 and 0 stop a robot that is running. */
  lemma WideSpeedStops(s: AppState, clock: nat -> nat)
    requires s.Sound()
    ensures var ds := Executed(Framing("", []), SetMotorValues(65536, 0));
      (forall d :: d in ds ==> Usable(d)) && Run(s, StepsOf(ds, clock)).Halted()
  {
    hide Executed, StepsOf, SetMotorValues, Next, Run, AppState.Halted, AppState.Sound, Usable;
    SpeedsHaltIff(s, 65536, 0, clock);
  }

  /** The two commands of two numbers: what is executed for one message. */
  lemma TwoNumbersAreDispatched(name: char, a: int, b: int)
    requires name in {'m', 'o'}
    requires -0x8000_0000 <= a < 0x8000_0000 && -0x8000_0000 <= b < 0x8000_0000
    ensures var args := Arguments(TwoNumbers(name, a, b));
      && Executed(Framing("", []), TwoNumbers(name, a, b) + [CR])
         == [Call(if name == 'm' then SET_MOTORS_SPEED else SET_MOTORS_PWM, args)]
      && |args| == 3 && AtoI16(args[1]) == Int16(a) && AtoI16(args[2]) == Int16(b)
  {
    hide DispatchOf, DispatchAll, PutAll, Arguments, TwoNumbers, AtoI, AtoI16, Int16;
    var m := TwoNumbers(name, a, b);
    TwoNumbersShape(name, a, b);
    PlainTextArrives(m, []);
    assert [] + [m] == [m];
    TwoNumbersArguments(name, a, b);
    if name == 'm' { SpeedIsDispatched(Arguments(m)); } else { PwmIsDispatched(Arguments(m)); }
    SingleMessage(m);
  }

  /** From the bytes to the motors, open loop: after the two numbers of an "o"
      message each motor is driven by its own number, as the boards read it. */
  lemma PwmArrivesAtMotors(s: AppState, a: int, b: int, clock: nat -> nat)
    requires s.Sound()
    requires -0x8000_0000 <= a < 0x8000_0000 && -0x8000_0000 <= b < 0x8000_0000
    ensures var ds := Executed(Framing("", []), TwoNumbers('o', a, b) + [CR]);
      && (forall d :: d in ds ==> Usable(d))
      && var r := Run(s, StepsOf(ds, clock));
         && r.leftMotor.Drive() == Max(-255, Min(255, Int16(a)))
         && r.rightMotor.Drive() == Max(-255, Min(255, Int16(b)))
         && !r.leftPid.enabled && !r.rightPid.enabled
  {
    hide Int16, AtoI16, Arguments, TwoNumbers, Executed, StepsOf, Run, Next, Min, Max, AppState.Sound;
    TwoNumbersAreDispatched('o', a, b);
    OneCommand(Call(SET_MOTORS_PWM, Arguments(TwoNumbers('o', a, b))), clock);
    OneStep(s, SetPwm(Int16(a), Int16(b)));
    PwmDrivesEach(s, Int16(a), Int16(b));
  }

  /** From the bytes to the controllers: after the bytes the host writes for two
      speeds each controller has its own number as setpoint, and the next check
      that is due computes each from its own encoder and drives its own motor. */
  lemma SpeedsArriveAtControllers(s: AppState, a: int, b: int, clock: nat -> nat, now: nat, stamp: nat)
    requires s.Sound()
    requires -0x8000_0000 <= a < 0x8000_0000 && -0x8000_0000 <= b < 0x8000_0000
    requires Int16(a) != 0 || Int16(b) != 0
    requires Elapsed(Stamp(now), s.lastPid) > 33
    ensures var ds := Executed(Framing("", []), SetMotorValues(a, b));
      && (forall d :: d in ds ==> Usable(d))
      && var r := Run(s, StepsOf(ds, clock));
         var r' := Next(r, PidCheck(now, stamp));
         && r.leftPid.enabled && r.rightPid.enabled
         && r.leftPid.setpoint == TruncDiv(Int16(a), 30) && r.rightPid.setpoint == TruncDiv(Int16(b), 30)
         && r'.leftPid == r.leftPid.Computed(s.leftCount) && r'.rightPid == r.rightPid.Computed(s.rightCount)
         && r'.leftMotor.Drive() == Max(-255, Min(255, r'.leftPid.lastOutput))
         && r'.rightMotor.Drive() == Max(-255, Min(255, r'.rightPid.lastOutput))
  {
    hide Int16, Executed, StepsOf, SetMotorValues, Run, Next, Min, Max, TruncDiv, Elapsed, Stamp;
    hide PidControl.PidState.Computed;
    HostSpeedsArrive(a, b, clock);
    OneStep(s, SetSpeed(Int16(a), Int16(b), clock(0)));
    SpeedSetsEach(s, Int16(a), Int16(b), clock(0));
    DueCheckDrivesEach(Run(s, [SetSpeed(Int16(a), Int16(b), clock(0))]), now, stamp);
  }

  lemma GainsAreDispatched(args: seq<string>)
    requires args != [] && args[0] == "u"
    ensures DispatchOf(COMMANDS, true, args) == [Call(SET_PID_GAINS, args)]
  {
    var c := COMMANDS;
    SkipCommand(c, args);
    SkipCommand(c[1..], args);
    SkipCommand(c[2..], args);
    SkipCommand(c[3..], args);
    SkipCommand(c[4..], args);
    SkipCommand(c[5..], args);
    assert c[6..][0] == Command("u", SET_PID_GAINS);
  }

  /** The text of the gains is one word of a plain message. */
  lemma GainsTextShape(kp: int, kd: int, ki: int, ko: int)
    ensures var arg := GainsText(kp, kd, ki, ko);
      arg != "" && ' ' !in arg && CR !in arg && LF !in arg && NUL !in arg
  {
    ToStringShape(kp); ToStringShape(kd); ToStringShape(ki); ToStringShape(ko);
    hide ToString;
  }

  lemma GainsArguments(arg: string)
    requires arg != "" && ' ' !in arg && NUL !in arg
    ensures Arguments("u " + arg) == ["u", arg]
  {
    CStringOfText("u " + arg);
    hide CString, Tokens;
    assert "u " + arg == "u" + (" " + arg);
    FirstToken("u", " " + arg);
    LeadingSpace(arg);
    assert arg + "" == arg;
    FirstToken(arg, "");
    NoTokens();
  }

  /** For all gains whose text fits the buffer: the "u" command makes the
      firmware take exactly one step, with what 16 bits leave of those gains, and
      it is usable if and only if they leave an output gain that is not zero. */
  lemma GainsArrive(kp: int, kd: int, ki: int, ko: int, clock: nat -> nat)
    requires |GainsText(kp, kd, ki, ko)| < GAINS_BUFFER
    ensures var ds := Executed(Framing("", []), "u " + GainsText(kp, kd, ki, ko) + [CR]);
      && ((forall d :: d in ds ==> Usable(d)) <==> ko % 0x1_0000 != 0)
      && (ko % 0x1_0000 != 0 ==> StepsOf(ds, clock) == [SetGains(Int16(kp), Int16(kd), Int16(ki), Int16(ko))])
  {
    hide DispatchOf, DispatchAll, PutAll, Arguments, GainsText, GainsOf;
    var arg := GainsText(kp, kd, ki, ko);
    GainsTextShape(kp, kd, ki, ko);
    PlainTextArrives("u " + arg, []);
    assert [] + ["u " + arg] == ["u " + arg];
    GainsArguments(arg);
    GainsAreDispatched(["u", arg]);
    SingleMessage("u " + arg);
    GainsSplit(kp, kd, ki, ko);
    Int16Zero(ko);
    hide Int16;
    var d := Call(SET_PID_GAINS, ["u", arg]);
    assert Executed(Framing("", []), "u " + arg + [CR]) == [d];
    assert d in [d] && (Usable(d) <==> Int16(ko) != 0);
    if Int16(ko) != 0 {
      OneCommand(d, clock);
    }
    hide StepsOf;
  }

  /** From the bytes to the controllers: both are given the four gains, each for
      the term it belongs to. */
  lemma GainsArriveAtControllers(s: AppState, kp: int, kd: int, ki: int, ko: int, clock: nat -> nat)
    requires s.Sound() && |GainsText(kp, kd, ki, ko)| < GAINS_BUFFER && ko % 0x1_0000 != 0
    ensures var ds := Executed(Framing("", []), "u " + GainsText(kp, kd, ki, ko) + [CR]);
      && (forall d :: d in ds ==> Usable(d))
      && var r := Run(s, StepsOf(ds, clock));
         forall p :: p in [r.leftPid, r.rightPid] ==>
           p.kp == Int16(kp) && p.kd == Int16(kd) && p.ki == Int16(ki) && p.ko == Int16(ko)
  {
    hide Int16, Executed, StepsOf, GainsText, Run, AppState.Sound;
    GainsArrive(kp, kd, ki, ko, clock);
    Int16Zero(ko);
    OneStep(s, SetGains(Int16(kp), Int16(kd), Int16(ki), Int16(ko)));
  }

  lemma OneCommand(d: Dispatch, clock: nat -> nat)
    requires Usable(d)
    ensures StepsOf([d], clock) == [StepOf(d, clock(0))]
    ensures forall s: AppState :: s.Sound() ==> Replies(s, [d], clock) == ReplyTo(d, s)
  {
    hide StepOf, ReplyTo, Usable;
    assert [d][..0] == [];
    assert StepsOf([], clock) == [];
    forall s: AppState | s.Sound() ensures Replies(s, [d], clock) == ReplyTo(d, s) {
      assert Replies(s, [], clock) == "" && Run(s, []) == s;
    }
  }

  /** The host's encoder request is answered with a line that the host parses
      back to the counts the firmware holds. */
  lemma HostReadsCounts(s: AppState, clock: nat -> nat)
    requires s.Sound()
    ensures var ds := Executed(Framing("", []), "e" + [CR]);
      (forall d :: d in ds ==> Usable(d)) && EncoderValues(Replies(s, ds, clock)) == (s.leftCount, s.rightCount)
  {
    PlainTextArrives("e", []);
    CStringOfText("e");
    assert "e" + "" == "e";
    FirstToken("e", "");
    NoTokens();
    var args := Arguments("e");
    assert args == ["e"];
    EncodersAreDispatched(args);
    assert [] + ["e"] == ["e"];
    SingleMessage("e");
    hide DispatchOf, DispatchAll, PutAll, Arguments;
    var d := Call(READ_ENCODERS, args);
    OneCommand(d, clock);
    EncoderReplyArrives(s.leftCount, s.rightCount);
  }

  /** From the bytes to the counts: after an "r" message both are zero, and the
      controllers start over from zero. */
  lemma ResetArrives(s: AppState, clock: nat -> nat)
    requires s.Sound()
    ensures var ds := Executed(Framing("", []), "r" + [CR]);
      && (forall d :: d in ds ==> Usable(d))
      && var r := Run(s, StepsOf(ds, clock));
         r.leftCount == r.rightCount == 0 && StartsOver(r.leftPid, 0) && StartsOver(r.rightPid, 0)
  {
    PlainTextArrives("r", []);
    CStringOfText("r");
    assert "r" + "" == "r";
    FirstToken("r", "");
    NoTokens();
    assert Arguments("r") == ["r"];
    ResetIsDispatched(["r"]);
    assert [] + ["r"] == ["r"];
    SingleMessage("r");
    hide DispatchOf, DispatchAll, PutAll, Arguments, Next, Run, AppState.Sound;
    OneCommand(Call(RESET_ENCODERS, ["r"]), clock);
    OneStep(s, ResetEncoders);
    ResetStartsOver(s);
  }

  /** The interrupts of one encoder. */
  method Interrupts(encoder: Encoder, readings: seq<Reading>)
    requires encoder.Valid()
    modifies encoder
    ensures encoder.Valid() && encoder.Current() == Last(old(encoder.Current()), readings)
    ensures encoder.count == old(encoder.count) + CountAfter(old(encoder.Current()), readings)
  {
    hide Delta;
    for i := 0 to |readings|
      invariant encoder.Valid() && encoder.Current() == Last(old(encoder.Current()), readings[..i])
      invariant encoder.count == old(encoder.count) + CountAfter(old(encoder.Current()), readings[..i])
    {
      assert readings[..i + 1][..i] == readings[..i];
      encoder.Callback(readings[i] % 2, readings[i] / 2);
    }
    assert readings[..|readings|] == readings;
  }

  lemma NamesFit(k: nat)
    requires k < |COMMANDS|
    ensures |COMMANDS[k].name| < COMMAND_NAME_LENGTH_MAX && NUL !in COMMANDS[k].name
  {
  }

  /** The shell's part of `setup`. */
  method SetUpShell(shell: Shell)
    requires shell.Valid() && shell.commands == []
    modifies shell`commands, shell`hasDefault
    ensures shell.Valid() && shell.commands == COMMANDS && shell.hasDefault
  {
    shell.SetDefaultCallback();
    for i := 0 to |COMMANDS|
      invariant shell.Valid() && shell.hasDefault && shell.commands == COMMANDS[..i]
    {
      NamesFit(i);
      shell.RegisterCommand(COMMANDS[i].name, COMMANDS[i].callback);
    }
  }

  // ----- the class --------------------------------------------------------------------

  class App {
    const leftPid: PidControl.Pid
    const rightPid: PidControl.Pid
    const leftMotor: Motor
    const rightMotor: Motor
    const leftEncoder: Encoder
    const rightEncoder: Encoder
    const shell: Shell
    var lastPidComputation: int
    var lastSetMotorsSpeedCmd: int
    /** What has been printed on the serial line. */
    var output: string

    /** The parts are made once, before the application. */
    constructor (leftPid: PidControl.Pid, rightPid: PidControl.Pid, leftMotor: Motor, rightMotor: Motor,
                 leftEncoder: Encoder, rightEncoder: Encoder, shell: Shell)
      ensures this.leftPid == leftPid && this.rightPid == rightPid && this.leftMotor == leftMotor
      ensures this.rightMotor == rightMotor && this.leftEncoder == leftEncoder
      ensures this.rightEncoder == rightEncoder && this.shell == shell
      ensures lastPidComputation == lastSetMotorsSpeedCmd == 0 && output == ""
    {
      this.leftPid, this.rightPid, this.leftMotor, this.rightMotor := leftPid, rightPid, leftMotor, rightMotor;
      this.leftEncoder, this.rightEncoder, this.shell := leftEncoder, rightEncoder, shell;
      lastPidComputation, lastSetMotorsSpeedCmd, output := 0, 0, "";
    }

    /** `setup`, on parts as they are made: the robot is halted. */
    method Setup()
      requires Separate() && shell.Valid() && shell.commands == []
      requires View().Halted() && View().leftPid.ko != 0 && View().rightPid.ko != 0
      modifies leftPid, rightPid, shell`commands, shell`hasDefault
      ensures Valid() && View() == old(View()).Reset() && View().Halted()
    {
      leftPid.DoReset(leftEncoder.Read());
      rightPid.DoReset(rightEncoder.Read());
      SetUpShell(shell);
    }

    /** No two parts are the same object. */
    ghost predicate Separate()
      reads this, leftEncoder, rightEncoder
    {
      && leftPid != rightPid && leftMotor != rightMotor && leftEncoder != rightEncoder
      && leftEncoder.Valid() && rightEncoder.Valid()
    }

    ghost predicate Valid()
      reads this, leftPid, rightPid, leftMotor, rightMotor, leftEncoder, rightEncoder, shell
    {
      && Separate() && shell.Valid()
      && shell.commands == COMMANDS && shell.hasDefault
      && View().Sound()
    }

    function View(): AppState
      reads this, leftPid, rightPid, leftMotor, rightMotor, leftEncoder, rightEncoder
    {
      AppState(leftPid.View(), rightPid.View(), leftMotor.View(), rightMotor.View(),
               leftEncoder.count, rightEncoder.count, lastPidComputation, lastSetMotorsSpeedCmd)
    }

    /** `adjust_motors_speed`. */
    method AdjustMotorsSpeed()
      requires Separate() && leftPid.ko != 0 && rightPid.ko != 0
      modifies leftPid, rightPid, leftMotor, rightMotor
      ensures View() == old(View()).Adjusted()
    {
      hide PidControl.PidState.RawOutput, PidControl.PidState.Free, PidControl.PidState.Saturated;
      hide PidControl.PidState.Error;
      var leftMotorSpeed := leftPid.DoCompute(leftEncoder.Read(), 0);
      var rightMotorSpeed := rightPid.DoCompute(rightEncoder.Read(), 0);
      if leftPid.enabled {
        leftMotor.SetSpeed(leftMotorSpeed);
      }
      if rightPid.enabled {
        rightMotor.SetSpeed(rightMotorSpeed);
      }
    }

    /** `stop_motors`. */
    method StopMotors()
      requires Separate()
      modifies leftPid, rightPid, leftMotor, rightMotor
      ensures View() == old(View()).Driven(0, 0).Enabled(false)
    {
      hide PinsFor, Min, Max;
      leftMotor.SetSpeed(0);
      rightMotor.SetSpeed(0);
      SetEnabled(false);
    }

    method ResetPids()
      requires Separate()
      modifies leftPid, rightPid
      ensures View() == old(View()).Reset()
    {
      leftPid.DoReset(leftEncoder.Read());
      rightPid.DoReset(rightEncoder.Read());
    }

    method SetEnabled(on: bool)
      requires Separate()
      modifies leftPid, rightPid
      ensures View() == old(View()).Enabled(on)
    {
      if on {
        leftPid.DoEnable();
        rightPid.DoEnable();
      } else {
        leftPid.DoDisable();
        rightPid.DoDisable();
      }
    }

    /** `cmd_set_motors_speed_cb` from where the speeds are known. */
    method CmdSetMotorsSpeed(left: int, right: int, now: nat)
      requires Valid()
      modifies `lastSetMotorsSpeedCmd, `output, leftPid, rightPid, leftMotor, rightMotor
      ensures View() == Next(old(View()), SetSpeed(left, right, now)) && output == old(output) + OK_LINE
    {
      hide Stamp, PinsFor, TruncDiv, Min, Max;
      lastSetMotorsSpeedCmd := Stamp(now);
      if left == 0 && right == 0 {
        leftMotor.SetSpeed(0);
        rightMotor.SetSpeed(0);
        ResetPids();
        SetEnabled(false);
      } else {
        SetEnabled(true);
      }
      leftPid.DoSetSetpoint(TruncDiv(left, PID_RATE));
      rightPid.DoSetSetpoint(TruncDiv(right, PID_RATE));
      output := output + OK_LINE;
    }

    /** `cmd_set_motors_pwm_cb` from where the duties are known. */
    method CmdSetMotorsPwm(left: int, right: int)
      requires Valid()
      modifies `output, leftPid, rightPid, leftMotor, rightMotor
      ensures View() == Next(old(View()), SetPwm(left, right)) && output == old(output) + OK_LINE
    {
      ResetPids();
      SetEnabled(false);
      leftMotor.SetSpeed(left);
      rightMotor.SetSpeed(right);
      output := output + OK_LINE;
    }

    /** `cmd_reset_encoders_cb`. */
    method CmdResetEncoders()
      requires Valid()
      modifies `output, leftEncoder`count, rightEncoder`count, leftPid, rightPid
      ensures View() == Next(old(View()), ResetEncoders) && output == old(output) + OK_LINE
    {
      leftEncoder.Reset();
      rightEncoder.Reset();
      ResetPids();
      output := output + OK_LINE;
    }

    /** `cmd_read_encoders_cb`. */
    method CmdReadEncoders()
      modifies `output
      ensures output == old(output) + EncoderReply(leftEncoder.count, rightEncoder.count)
    {
      hide ToString;
      ghost var x, y := ToString(leftEncoder.Read()), ToString(rightEncoder.Read());
      output := output + ToString(leftEncoder.Read());
      output := output + " ";
      output := output + (ToString(rightEncoder.Read()) + [CR, LF]);
      assert output == old(output) + (x + " " + y + [CR, LF]);
    }

    /** `cmd_set_pid_tuning_gains_cb`. */
    method CmdSetPidTuningGains(arg: string)
      requires Valid() && UsableGains(arg)
      modifies `output, leftPid, rightPid
      ensures var g := GainsOf(arg);
        && View() == Next(old(View()), SetGains(g[0], g[1], g[2], g[3]))
        && output == old(output) + GainsReply(g)
    {
      hide ToString;
      var g := ParseGains(arg);
      leftPid.DoSetTunings(g[0], g[1], g[2], g[3]);
      rightPid.DoSetTunings(g[0], g[1], g[2], g[3]);
      output := output + GainsReply(g);
    }

    /** One dispatched command. */
    method Execute(d: Dispatch, now: nat)
      requires Valid() && Usable(d)
      modifies `lastSetMotorsSpeedCmd, `output, leftPid, rightPid, leftMotor, rightMotor
      modifies leftEncoder`count, rightEncoder`count
      ensures Valid() && View() == Next(old(View()), StepOf(d, now))
      ensures output == old(output) + ReplyTo(d, old(View()))
    {
      hide AtoI16, GainsOf, EncoderReply, GainsReply;
      ghost var step := StepOf(d, now);
      assert step.Allowed();
      NextKeepsSound(View(), step);
      hide Next, AppState.Sound;
      match d {
        case Default(_) => output := output + "Unknown command.\r\n";
        case NullName =>
        case Call(callback, args) =>
          if callback == READ_ENCODERS {
            CmdReadEncoders();
          } else if callback == RESET_ENCODERS {
            CmdResetEncoders();
          } else if callback == SET_MOTORS_SPEED {
            if |args| >= 3 { CmdSetMotorsSpeed(AtoI16(args[1]), AtoI16(args[2]), now); }
          } else if callback == SET_MOTORS_PWM {
            if |args| >= 3 { CmdSetMotorsPwm(AtoI16(args[1]), AtoI16(args[2])); }
          } else if callback == SET_PID_GAINS {
            if |args| >= 2 { CmdSetPidTuningGains(args[1]); }
          }
      }
      assert step == Other ==> Next(old(View()), step) == old(View()) by { OtherDoesNothing(old(View())); }
    }

    /** The commands of one `process_input`, in order. */
    method ExecuteAll(ds: seq<Dispatch>, clock: nat -> nat)
      requires Valid() && forall d :: d in ds ==> Usable(d)
      modifies `lastSetMotorsSpeedCmd, `output, leftPid, rightPid, leftMotor, rightMotor
      modifies leftEncoder`count, rightEncoder`count
      ensures Valid() && View() == Run(old(View()), StepsOf(ds, clock))
      ensures output == old(output) + Replies(old(View()), ds, clock)
    {
      hide Next, StepOf, StepsOf, Replies, ReplyTo, AppState.Sound, Usable;
      assert StepsOf([], clock) == [] && Replies(View(), [], clock) == "" by { NothingToServe(View(), clock); }
      for i := 0 to |ds|
        invariant Valid()
        invariant View() == Run(old(View()), StepsOf(ds[..i], clock))
        invariant output == old(output) + Replies(old(View()), ds[..i], clock)
      {
        ServeOneMore(old(View()), ds, clock, i);
        Execute(ds[i], clock(i));
      }
      assert ds[..|ds|] == ds;
    }

    /** The rate check of `loop`, with the true times of its clock readings. */
    method CheckPids(now: nat, stamp: nat)
      requires Valid()
      modifies `lastPidComputation, leftPid, rightPid, leftMotor, rightMotor
      ensures Valid() && View() == Run(old(View()), [PidCheck(now, stamp)])
    {
      hide Stamp, Elapsed, AppState.Adjusted, Run;
      NextKeepsSound(View(), PidCheck(now, stamp));
      OneStep(View(), PidCheck(now, stamp));
      if Elapsed(Stamp(now), lastPidComputation) > PID_PERIOD {
        lastPidComputation := Stamp(stamp);
        AdjustMotorsSpeed();
      }
    }

    /** The auto-stop check of `loop`. */
    method CheckAutoStop(now: nat, stamp: nat)
      requires Valid()
      modifies `lastSetMotorsSpeedCmd, leftPid, rightPid, leftMotor, rightMotor
      ensures Valid() && View() == Run(old(View()), [StopCheck(now, stamp)])
    {
      hide Stamp, Elapsed, AppState.Driven, AppState.Enabled, Run;
      NextKeepsSound(View(), StopCheck(now, stamp));
      OneStep(View(), StopCheck(now, stamp));
      if Elapsed(Stamp(now), lastSetMotorsSpeedCmd) > AUTO_STOP_WINDOW {
        lastSetMotorsSpeedCmd := Stamp(stamp);
        StopMotors();
      }
    }

    /** The interrupts of both encoders, with the channel readings they find. */
    method EncodersMove(left: seq<Reading>, right: seq<Reading>)
      requires Valid()
      modifies leftEncoder, rightEncoder
      ensures Valid()
      ensures View() == Run(old(View()), [EncoderMoved(CountAfter(old(leftEncoder.Current()), left),
                                                       CountAfter(old(rightEncoder.Current()), right))])
      ensures leftEncoder.Current() == Last(old(leftEncoder.Current()), left)
      ensures rightEncoder.Current() == Last(old(rightEncoder.Current()), right)
    {
      hide Run, AppState.Sound, Delta;
      ghost var step := EncoderMoved(CountAfter(leftEncoder.Current(), left),
                                     CountAfter(rightEncoder.Current(), right));
      NextKeepsSound(View(), step);
      OneStep(View(), step);
      Interrupts(leftEncoder, left);
      Interrupts(rightEncoder, right);
    }

    /** `loop`: the bytes at hand are framed and dispatched, each command runs at
        the time the clock then shows, and the two timed checks follow. */
    method Loop(input: string, clock: nat -> nat, pidNow: nat, pidStamp: nat, stopNow: nat, stopStamp: nat)
      requires Valid()
      requires forall d :: d in Executed(Framing(shell.Text(), []), input) ==> Usable(d)
      modifies this, leftPid, rightPid, leftMotor, rightMotor, leftEncoder`count, rightEncoder`count
      modifies shell`messageIndex, shell`log, shell.messageBuffer
      ensures Valid() && shell.Text() == PutAll(Framing(old(shell.Text()), []), input).text
      ensures var ds := Executed(Framing(old(shell.Text()), []), input);
        && View() == Run(old(View()), StepsOf(ds, clock) + [PidCheck(pidNow, pidStamp), StopCheck(stopNow, stopStamp)])
        && output == old(output) + Replies(old(View()), ds, clock)
    {
      hide Next, PutAll, DispatchAll, StepsOf, Replies, Usable;
      var done := |shell.log|;
      ghost var ds := Executed(Framing(shell.Text(), []), input);
      ghost var s := View();
      shell.ProcessInput(input);
      assert shell.log[done..] == ds;
      ExecuteAll(shell.log[done..], clock);
      CheckPids(pidNow, pidStamp);
      CheckAutoStop(stopNow, stopStamp);
      TwoMore(s, StepsOf(ds, clock), PidCheck(pidNow, pidStamp), StopCheck(stopNow, stopStamp));
    }
  }

  /** The application as it is when the firmware starts: its parts are made
      with the constants, then set up, and the robot is halted. */
  method Start() returns (app: App)
    ensures fresh(app) && app.Valid() && app.shell.Text() == "" && app.output == ""
    ensures app.View() == STARTED && STARTED.Halted()
  {
    hide AppState.Reset, AppState.Sound;
    var leftPid := new PidControl.Pid(PID_KP, PID_KD, PID_KI, PID_KO, -MAX_SPEED, MAX_SPEED);
    var rightPid := new PidControl.Pid(PID_KP, PID_KD, PID_KI, PID_KO, -MAX_SPEED, MAX_SPEED);
    var leftMotor := new Motor();
    var rightMotor := new Motor();
    var leftEncoder := new Encoder();
    var rightEncoder := new Encoder();
    var shell := new Shell();
    app := new App(leftPid, rightPid, leftMotor, rightMotor, leftEncoder, rightEncoder, shell);
    assert app.View() == STARTED;
    ResetAtStart();
    app.Setup();
  }

  const PID_STARTED := PidControl.PidState(PID_KP, PID_KD, PID_KI, PID_KO, -MAX_SPEED, MAX_SPEED, false, 0, 0, 0, 0, 0)

  /** Both controllers off and cleared, both motors off, nothing counted. */
  const STARTED := AppState(PID_STARTED, PID_STARTED, STOPPED, STOPPED, 0, 0, 0, 0)

  /** The gains and limits the firmware starts with. */
  lemma GainsAtStart()
    ensures forall p :: p in [STARTED.leftPid, STARTED.rightPid] ==>
      p.kp == 30 && p.kd == 10 && p.ki == 0 && p.ko == 10 && p.outputMin == -255 && p.outputMax == 255 && !p.enabled
  {
  }

  lemma ResetAtStart()
    ensures STARTED.Reset() == STARTED
  {
  }

  lemma NothingToServe(s: AppState, clock: nat -> nat)
    requires s.Sound()
    ensures StepsOf([], clock) == [] && Replies(s, [], clock) == ""
  {
  }

  lemma OtherDoesNothing(s: AppState)
    requires s.Sound()
    ensures Next(s, Other) == s
  {
  }

  lemma TwoMore(s: AppState, steps: seq<Step>, x: Step, y: Step)
    requires s.Sound() && (forall t :: t in steps ==> t.Allowed()) && x.Allowed() && y.Allowed()
    ensures Run(s, steps + [x, y]) == Run(Run(Run(s, steps), [x]), [y])
  {
    hide Next, AppState.Sound, Run;
    assert steps + [x, y] == steps + [x] + [y];
    RunConcat(s, steps, [x]);
    RunConcat(s, steps + [x], [y]);
  }

  /** One more command in a list: one more step, one more reply. */
  lemma ServeOneMore(s: AppState, ds: seq<Dispatch>, clock: nat -> nat, i: nat)
    requires s.Sound() && (forall d :: d in ds ==> Usable(d)) && i < |ds|
    ensures Run(s, StepsOf(ds[..i + 1], clock)) == Next(Run(s, StepsOf(ds[..i], clock)), StepOf(ds[i], clock(i)))
    ensures Replies(s, ds[..i + 1], clock)
         == Replies(s, ds[..i], clock) + ReplyTo(ds[i], Run(s, StepsOf(ds[..i], clock)))
  {
    hide Next, StepOf, ReplyTo, Usable;
    assert ds[..i + 1][..i] == ds[..i];
    var before, step := StepsOf(ds[..i], clock), StepOf(ds[i], clock(i));
    assert StepsOf(ds[..i + 1], clock) == before + [step];
    assert (before + [step])[..i] == before;
  }
}
