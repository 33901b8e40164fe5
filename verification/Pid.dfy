/** The firmware's integer PID controller (`andino::Pid`). */
module PidControl {
  import opened Prelude

  /** The fields of a controller. */
  datatype PidState = PidState(
    kp: int, kd: int, ki: int, ko: int, outputMin: int, outputMax: int,
    enabled: bool, setpoint: int, integralTerm: int,
    lastEncoderCount: int, lastInput: int, lastOutput: int)
  {
    predicate WellSet() { ko != 0 && outputMin <= 0 <= outputMax }

    function Cleared(encoderCount: int): PidState {
      this.(setpoint := 0, integralTerm := 0, lastEncoderCount := encoderCount, lastInput := 0, lastOutput := 0)
    }

    function Input(encoderCount: int): int { encoderCount - lastEncoderCount }

    function Error(encoderCount: int): int { setpoint - Input(encoderCount) }

    /** The output before saturation. */
    function RawOutput(encoderCount: int): int
      requires ko != 0
    {
      TruncDiv(kp * Error(encoderCount) - kd * (Input(encoderCount) - lastInput) + integralTerm, ko) + lastOutput
    }

    function Saturated(output: int): int {
      if output >= outputMax then outputMax else if output <= outputMin then outputMin else output
    }

    /** The output met neither limit. */
    predicate Free(encoderCount: int)
      requires ko != 0
    {
      outputMin < RawOutput(encoderCount) < outputMax
    }

    /** The state after one computation. */
    function Computed(encoderCount: int): PidState
      requires ko != 0
    {
      if !enabled then (if lastInput != 0 then Cleared(encoderCount) else this)
      else this.(
        integralTerm := if Free(encoderCount) then integralTerm + ki * Error(encoderCount) else integralTerm,
        lastEncoderCount := encoderCount,
        lastInput := Input(encoderCount),
        lastOutput := Saturated(RawOutput(encoderCount)))
    }
  }

  // ----- runs -----------------------------------------------------------------

  datatype PidEvent =
    | Reset(count: int) | Enable | Disable | Compute(count: int)
    | SetSetpoint(setpoint: int) | SetTunings(kp: int, kd: int, ki: int, ko: int)
  {
    /** The output gain is divided by, so it must not be zero. */
    predicate Allowed() { SetTunings? ==> ko != 0 }
  }

  function Next(s: PidState, ev: PidEvent): PidState
    requires s.ko != 0 && ev.Allowed()
    ensures Next(s, ev).ko != 0
  {
    match ev
    case Reset(count) => s.Cleared(count)
    case Enable => s.(enabled := true)
    case Disable => s.(enabled := false)
    case Compute(count) => s.Computed(count)
    case SetSetpoint(setpoint) => s.(setpoint := setpoint)
    case SetTunings(kp, kd, ki, ko) => s.(kp := kp, kd := kd, ki := ki, ko := ko)
  }

  function Run(s: PidState, evs: seq<PidEvent>): (r: PidState)
    requires s.ko != 0 && forall ev :: ev in evs ==> ev.Allowed()
    ensures r.ko != 0
  {
    if evs == [] then s
    else
      assert evs[|evs| - 1] in evs;
      Next(Run(s, evs[..|evs| - 1]), evs[|evs| - 1])
  }

  /** Over every run the last output stays within the limits. */
  lemma {:induction false} OutputStaysInLimits(s: PidState, evs: seq<PidEvent>)
    requires s.WellSet() && s.outputMin <= s.lastOutput <= s.outputMax
    requires forall ev :: ev in evs ==> ev.Allowed()
    ensures var r := Run(s, evs); r.outputMin == s.outputMin <= r.lastOutput <= r.outputMax == s.outputMax
  {
    hide PidState.RawOutput, PidState.Free, PidState.Error, PidState.Input;
    if evs != [] {
      OutputStaysInLimits(s, evs[..|evs| - 1]);
    }
  }

  /** Event `i` of the run clears the controller. */
  predicate ClearsAt(s: PidState, evs: seq<PidEvent>, i: nat)
    requires s.ko != 0 && (forall ev :: ev in evs ==> ev.Allowed()) && i < |evs|
  {
    var before := Run(s, evs[..i]);
    evs[i].Reset? || (evs[i].Compute? && !before.enabled && before.lastInput != 0)
  }

  /** What event `i` adds to the integral: `ki` times the error of an enabled
      step whose output met no limit, and nothing otherwise. */
  function GainAt(s: PidState, evs: seq<PidEvent>, i: nat): int
    requires s.ko != 0 && (forall ev :: ev in evs ==> ev.Allowed()) && i < |evs|
  {
    var before := Run(s, evs[..i]);
    if evs[i].Compute? && before.enabled && before.Free(evs[i].count)
    then before.ki * before.Error(evs[i].count) else 0
  }

  function GainSum(s: PidState, evs: seq<PidEvent>, from: nat, upto: nat): int
    requires s.ko != 0 && (forall ev :: ev in evs ==> ev.Allowed()) && from <= upto <= |evs|
    decreases upto
  {
    if from == upto then 0 else GainSum(s, evs, from, upto - 1) + GainAt(s, evs, upto - 1)
  }

  lemma {:induction false} RunPrefix(s: PidState, evs: seq<PidEvent>, n: nat)
    requires s.ko != 0 && (forall ev :: ev in evs ==> ev.Allowed()) && n < |evs|
    ensures Run(s, evs[..n + 1]) == Next(Run(s, evs[..n]), evs[n])
  {
    assert evs[..n + 1][..n] == evs[..n];
  }

  /** Between two points of a run with no clearing in between, the integral
      grows by exactly the gains of the free steps. */
  lemma {:induction false} IntegralGrows(s: PidState, evs: seq<PidEvent>, from: nat, upto: nat)
    requires s.ko != 0 && (forall ev :: ev in evs ==> ev.Allowed()) && from <= upto <= |evs|
    requires forall i :: from <= i < upto ==> !ClearsAt(s, evs, i)
    ensures Run(s, evs[..upto]).integralTerm == Run(s, evs[..from]).integralTerm + GainSum(s, evs, from, upto)
    decreases upto
  {
    if upto != from {
      IntegralGrows(s, evs, from, upto - 1);
      RunPrefix(s, evs, upto - 1);
      assert !ClearsAt(s, evs, upto - 1);
      hide PidState.RawOutput, PidState.Saturated, PidState.Free, Run;
    }
  }

  /** Over every run: after a clearing event the integral is the sum of
      `ki * error` over exactly the enabled steps since then whose output was
      not cut off. */
  lemma IntegralIsSumOfFreeSteps(s: PidState, evs: seq<PidEvent>, cleared: nat)
    requires s.ko != 0 && (forall ev :: ev in evs ==> ev.Allowed()) && cleared < |evs|
    requires ClearsAt(s, evs, cleared) && forall i :: cleared < i < |evs| ==> !ClearsAt(s, evs, i)
    ensures Run(s, evs).integralTerm == GainSum(s, evs, cleared + 1, |evs|)
  {
    IntegralGrows(s, evs, cleared + 1, |evs|);
    RunPrefix(s, evs, cleared);
    assert evs[..|evs|] == evs;
    hide GainSum;
  }

  /** Steady state: on the setpoint for two steps, with no integral, the output
      does not move. */
  lemma SteadyStateHolds(s: PidState, count: int)
    requires s.WellSet() && s.enabled && s.outputMin <= s.lastOutput <= s.outputMax
    requires s.integralTerm == 0 && s.Error(count) == 0 && s.Input(count) == s.lastInput
    ensures s.Computed(count).lastOutput == s.lastOutput
  {
    assert s.kp * 0 == 0 && s.kd * 0 == 0;
  }

  /** With positive gains and no other terms, the output moves toward the
      setpoint, never away from it. */
  lemma OutputFollowsError(s: PidState, count: int)
    requires s.WellSet() && s.enabled && s.outputMin <= s.lastOutput <= s.outputMax
    requires s.kp >= 0 && s.ko > 0 && s.integralTerm == 0 && s.Input(count) == s.lastInput
    ensures s.Error(count) >= 0 ==> s.Computed(count).lastOutput >= s.lastOutput
    ensures s.Error(count) <= 0 ==> s.Computed(count).lastOutput <= s.lastOutput
  {
    var error := s.Error(count);
    assert s.kd * 0 == 0;
    if error >= 0 {
      ProductSign(s.kp, error);
    } else {
      ProductSign(s.kp, -error);
      assert s.kp * (-error) == -(s.kp * error);
    }
    TruncSign(s.kp * error, s.ko);
  }

  /** What one enabled step does, in plain terms.  The three terms drive the
      output by a number `q` of units of the output gain, rounded toward zero;
      the output moves by `q`, as far as its limits, and the integral grows if it
      met neither. */
  lemma StepInPlainTerms(s: PidState, count: int) returns (q: int)
    requires s.ko != 0 && s.enabled && s.outputMin <= s.outputMax
    ensures var input := count - s.lastEncoderCount;
      var error := s.setpoint - input;
      var drive := s.kp * error - s.kd * (input - s.lastInput) + s.integralTerm;
      var r := s.Computed(count);
      && Abs(s.ko * q) <= Abs(drive) && Abs(drive - s.ko * q) < Abs(s.ko)
      && r.lastOutput == Max(s.outputMin, Min(s.outputMax, s.lastOutput + q))
      && r.lastEncoderCount == count && r.lastInput == input && r.enabled && r.setpoint == s.setpoint
      && r.integralTerm == s.integralTerm
           + (if s.outputMin < s.lastOutput + q < s.outputMax then s.ki * error else 0)
  {
    var input := count - s.lastEncoderCount;
    var drive := s.kp * (s.setpoint - input) - s.kd * (input - s.lastInput) + s.integralTerm;
    TruncDivIs(drive, s.ko);
    q := TruncDiv(drive, s.ko);
    hide TruncDiv;
  }

  /** Between the limits the output follows all three terms to within one unit
      of the output gain. */
  lemma OutputFollowsTerms(s: PidState, count: int)
    requires s.ko != 0 && s.enabled && s.outputMin < s.Computed(count).lastOutput < s.outputMax
    ensures var input := count - s.lastEncoderCount;
      var drive := s.kp * (s.setpoint - input) - s.kd * (input - s.lastInput) + s.integralTerm;
      var moved := s.Computed(count).lastOutput - s.lastOutput;
      Abs(drive - s.ko * moved) < Abs(s.ko) && Abs(s.ko * moved) <= Abs(drive)
  {
    var q := StepInPlainTerms(s, count);
    hide PidState.Computed;
    assert s.Computed(count).lastOutput - s.lastOutput == q;
  }

  /** The derivative term damps: with no other term, an input that rises never
      raises the output, and one that falls never lowers it. */
  lemma DerivativeDamps(s: PidState, count: int)
    requires s.enabled && s.kp == 0 && s.integralTerm == 0 && s.kd >= 0 && s.ko > 0
    requires s.outputMin <= s.lastOutput <= s.outputMax
    ensures count - s.lastEncoderCount >= s.lastInput ==> s.Computed(count).lastOutput <= s.lastOutput
    ensures count - s.lastEncoderCount <= s.lastInput ==> s.Computed(count).lastOutput >= s.lastOutput
  {
    var q := StepInPlainTerms(s, count);
    hide PidState.Computed;
    var rise := count - s.lastEncoderCount - s.lastInput;
    assert s.kp * (s.setpoint - (count - s.lastEncoderCount)) == 0;
    if rise >= 0 {
      ProductSign(s.kd, rise);
    } else {
      ProductSign(s.kd, -rise);
      NegativeFactor(rise, s.kd);
    }
    QuotientSide(s.ko, q, -(s.kd * rise));
  }

  /** The integral term drives: with no other term the output moves to its side. */
  lemma IntegralDrives(s: PidState, count: int)
    requires s.enabled && s.kp == 0 && s.kd == 0 && s.ko > 0
    requires s.outputMin <= s.lastOutput <= s.outputMax
    ensures s.integralTerm >= 0 ==> s.Computed(count).lastOutput >= s.lastOutput
    ensures s.integralTerm <= 0 ==> s.Computed(count).lastOutput <= s.lastOutput
    ensures s.integralTerm >= s.ko && s.lastOutput < s.outputMax ==> s.Computed(count).lastOutput > s.lastOutput
    ensures s.integralTerm <= -s.ko && s.lastOutput > s.outputMin ==> s.Computed(count).lastOutput < s.lastOutput
  {
    var q := StepInPlainTerms(s, count);
    hide PidState.Computed;
    var input := count - s.lastEncoderCount;
    assert s.kp * (s.setpoint - input) == 0 && s.kd * (input - s.lastInput) == 0;
    QuotientSide(s.ko, q, s.integralTerm);
  }

  /** A quotient rounded toward zero has the sign of what is divided. */
  lemma QuotientSide(ko: int, q: int, n: int)
    requires ko > 0 && Abs(ko * q) <= Abs(n) && Abs(n - ko * q) < ko
    ensures (n >= 0 ==> q >= 0) && (n <= 0 ==> q <= 0)
    ensures (n >= ko ==> q > 0) && (n <= -ko ==> q < 0)
  {
    if q > 0 { ProductSign(ko, q - 1); } else if q < 0 { ProductSign(ko, -q - 1); NegativeFactor(q, ko); }
  }

  lemma ProductSign(a: int, b: int)
    requires a >= 0 && b >= 0
    ensures a * b >= 0
  {
  }

  lemma TruncSign(a: int, b: int)
    requires b > 0
    ensures a >= 0 ==> TruncDiv(a, b) >= 0
    ensures a <= 0 ==> TruncDiv(a, b) <= 0
  {
  }

  // ----- the class -----------------------------------------------------------------

  class Pid {
    var kp: int
    var kd: int
    var ki: int
    var ko: int
    var outputMin: int
    var outputMax: int
    var enabled: bool
    var setpoint: int
    var integralTerm: int
    var lastEncoderCount: int
    var lastInput: int
    var lastOutput: int

    constructor (kp: int, kd: int, ki: int, ko: int, outputMin: int, outputMax: int)
      ensures View() == PidState(kp, kd, ki, ko, outputMin, outputMax, false, 0, 0, 0, 0, 0)
    {
      this.kp, this.kd, this.ki, this.ko := kp, kd, ki, ko;
      this.outputMin, this.outputMax := outputMin, outputMax;
      enabled, setpoint, integralTerm, lastEncoderCount, lastInput, lastOutput := false, 0, 0, 0, 0, 0;
    }

    function View(): PidState
      reads this
    {
      PidState(kp, kd, ki, ko, outputMin, outputMax, enabled, setpoint,
               integralTerm, lastEncoderCount, lastInput, lastOutput)
    }

    /** `reset`. */
    method DoReset(encoderCount: int)
      modifies this
      ensures View() == old(View()).Cleared(encoderCount)
    {
      setpoint := 0;
      integralTerm := 0;
      lastEncoderCount := encoderCount;
      lastInput := 0;
      lastOutput := 0;
    }

    method DoEnable()
      modifies this
      ensures View() == old(View()).(enabled := true)
    {
      enabled := true;
    }

    method DoDisable()
      modifies this
      ensures View() == old(View()).(enabled := false)
    {
      enabled := false;
    }

    /** `compute`: the caller's output is only written when enabled. */
    method DoCompute(encoderCount: int, output0: int) returns (computedOutput: int)
      requires ko != 0
      modifies this
      ensures View() == old(View()).Computed(encoderCount)
      ensures computedOutput == if enabled then lastOutput else output0
    {
      computedOutput := output0;
      if !enabled {
        if lastInput != 0 {
          DoReset(encoderCount);
        }
        return;
      }
      var input := encoderCount - lastEncoderCount;
      var error := setpoint - input;
      var output := TruncDiv(kp * error - kd * (input - lastInput) + integralTerm, ko);
      output := output + lastOutput;
      if output >= outputMax {
        output := outputMax;
      } else if output <= outputMin {
        output := outputMin;
      } else {
        integralTerm := integralTerm + ki * error;
      }
      computedOutput := output;
      lastEncoderCount := encoderCount;
      lastInput := input;
      lastOutput := output;
    }

    /** `set_setpoint`. */
    method DoSetSetpoint(value: int)
      modifies this
      ensures View() == old(View()).(setpoint := value)
    {
      setpoint := value;
    }

    /** `set_tunings`. */
    method DoSetTunings(kp: int, kd: int, ki: int, ko: int)
      modifies this
      ensures View() == old(View()).(kp := kp, kd := kd, ki := ki, ko := ko)
    {
      this.kp, this.kd, this.ki, this.ko := kp, kd, ki, ko;
    }
  }
}
