/** Many turns of the firmware's loop, with the bytes, the clock readings and the
    encoder interrupts of each. */
module FirmwareTurns {
  import opened Prelude
  import opened Decimal
  import opened CommandShell
  import opened HostProtocol
  import opened QuadratureEncoder
  import opened Firmware
  import opened FirmwareApp

  /** What one call of `loop` meets: the channel readings of the interrupts since
      the last call, the bytes at hand, and the true times of its clock readings. */
  datatype Turn = Turn(left: seq<Reading>, right: seq<Reading>, input: string, clock: nat -> nat,
                       pidNow: nat, pidStamp: nat, stopNow: nat, stopStamp: nat)
  {
    function Checks(): seq<Step> { [PidCheck(pidNow, pidStamp), StopCheck(stopNow, stopStamp)] }
  }

  /** What the shell and the encoders keep between turns: the message under
      construction and the last channel readings. */
  datatype Waiting = Waiting(text: string, left: Reading, right: Reading) {
    function Executes(t: Turn): seq<Dispatch> { Executed(Framing(text, []), t.input) }

    function Moves(t: Turn): Step { EncoderMoved(CountAfter(left, t.left), CountAfter(right, t.right)) }

    function Then(t: Turn): Waiting {
      Waiting(PutAll(Framing(text, []), t.input).text, Last(left, t.left), Last(right, t.right))
    }

    function Steps(t: Turn): (steps: seq<Step>)
      requires forall d :: d in Executes(t) ==> Usable(d)
      ensures forall s :: s in steps ==> s.Allowed()
    {
      [Moves(t)] + StepsOf(Executes(t), t.clock) + t.Checks()
    }
  }

  /** All the bytes of the turns. */
  function Inputs(turns: seq<Turn>): string {
    if turns == [] then "" else Inputs(turns[..|turns| - 1]) + turns[|turns| - 1].input
  }

  function After(w: Waiting, turns: seq<Turn>): Waiting {
    if turns == [] then w else After(w, turns[..|turns| - 1]).Then(turns[|turns| - 1])
  }

  /** What the turns execute. */
  function ExecutedInAll(w: Waiting, turns: seq<Turn>): seq<Dispatch> {
    if turns == [] then []
    else
      var n := |turns| - 1;
      ExecutedInAll(w, turns[..n]) + After(w, turns[..n]).Executes(turns[n])
  }

  predicate UsableTurns(w: Waiting, turns: seq<Turn>) {
    forall d :: d in ExecutedInAll(w, turns) ==> Usable(d)
  }

  /** The steps of the turns: in each the encoders' moves, the commands, and the
      two timed checks. */
  function TurnSteps(w: Waiting, turns: seq<Turn>): (steps: seq<Step>)
    requires UsableTurns(w, turns)
    ensures forall s :: s in steps ==> s.Allowed()
  {
    if turns == [] then []
    else
      var n := |turns| - 1;
      UsableFront(w, turns);
      TurnSteps(w, turns[..n]) + After(w, turns[..n]).Steps(turns[n])
  }

  lemma UsableFront(w: Waiting, turns: seq<Turn>)
    requires turns != [] && UsableTurns(w, turns)
    ensures var n := |turns| - 1;
      UsableTurns(w, turns[..n]) && forall d :: d in After(w, turns[..n]).Executes(turns[n]) ==> Usable(d)
  {
    hide Usable, After, Waiting.Executes;
    var n := |turns| - 1;
    forall d | d in ExecutedInAll(w, turns[..n]) || d in After(w, turns[..n]).Executes(turns[n]) ensures Usable(d) {
      assert d in ExecutedInAll(w, turns);
    }
  }

  // ----- the bytes of the turns ----------------------------------------------------

  /** However the bytes are spread over the turns, the same commands are
      executed in the same order, each once, and the same text is left. */
  lemma {:induction false} TurnsExecuteAll(w: Waiting, turns: seq<Turn>)
    ensures ExecutedInAll(w, turns) == Executed(Framing(w.text, []), Inputs(turns))
    ensures After(w, turns).text == PutAll(Framing(w.text, []), Inputs(turns)).text
  {
    hide PutAll, DispatchAll;
    if turns == [] {
      NothingFed(Framing(w.text, []), COMMANDS, true);
      assert Joined([]) == "";
    } else {
      var n := |turns| - 1;
      TurnsExecuteAll(w, turns[..n]);
      var f := PutAll(Framing(w.text, []), Inputs(turns[..n]));
      PutAllSplits(Framing(w.text, []), Inputs(turns[..n]), turns[n].input);
      PutAllAppends(f.text, f.done, turns[n].input);
      DispatchAllConcat(COMMANDS, true, f.done, PutAll(Framing(f.text, []), turns[n].input).done);
    }
  }

  // ----- taking turns apart -----------------------------------------------------------

  lemma {:induction false} TurnsJoin(w: Waiting, a: seq<Turn>, b: seq<Turn>)
    ensures After(w, a + b) == After(After(w, a), b)
    ensures ExecutedInAll(w, a + b) == ExecutedInAll(w, a) + ExecutedInAll(After(w, a), b)
  {
    hide Waiting.Then, Waiting.Executes;
    if b == [] {
      assert a + b == a;
    } else {
      var n := |b| - 1;
      assert (a + b)[..|a| + n] == a + b[..n];
      TurnsJoin(w, a, b[..n]);
      Regroup(ExecutedInAll(w, a), ExecutedInAll(After(w, a), b[..n]), After(After(w, a), b[..n]).Executes(b[n]));
    }
  }

  lemma UsableParts(w: Waiting, a: seq<Turn>, b: seq<Turn>)
    requires UsableTurns(w, a + b)
    ensures UsableTurns(w, a) && UsableTurns(After(w, a), b)
  {
    hide After, ExecutedInAll, Usable;
    TurnsJoin(w, a, b);
    forall d | d in ExecutedInAll(w, a) || d in ExecutedInAll(After(w, a), b) ensures Usable(d) {
      assert d in ExecutedInAll(w, a + b);
    }
  }

  lemma {:induction false} TurnStepsJoin(w: Waiting, a: seq<Turn>, b: seq<Turn>)
    requires UsableTurns(w, a + b)
    ensures UsableTurns(w, a) && UsableTurns(After(w, a), b)
    ensures TurnSteps(w, a + b) == TurnSteps(w, a) + TurnSteps(After(w, a), b)
  {
    hide Waiting.Then, Waiting.Steps, Usable, ExecutedInAll;
    UsableParts(w, a, b);
    if b == [] {
      assert a + b == a;
    } else {
      var n := |b| - 1;
      assert (a + b)[..|a| + n] == a + b[..n];
      UsableFront(w, a + b);
      TurnStepsJoin(w, a, b[..n]);
      TurnsJoin(w, a, b[..n]);
      Regroup(TurnSteps(w, a), TurnSteps(After(w, a), b[..n]), After(After(w, a), b[..n]).Steps(b[n]));
    }
  }

  lemma OneTurn(w: Waiting, t: Turn)
    ensures After(w, [t]) == w.Then(t) && ExecutedInAll(w, [t]) == w.Executes(t)
    ensures UsableTurns(w, [t]) ==> TurnSteps(w, [t]) == w.Steps(t)
  {
    hide Waiting.Then, Waiting.Executes, Waiting.Steps, Usable;
    assert [t][..0] == [];
    assert After(w, []) == w && ExecutedInAll(w, []) == [];
    if UsableTurns(w, [t]) {
      assert TurnSteps(w, []) == [];
    }
  }

  /** The state of the parts when turn `k` begins. */
  function At(w: Waiting, turns: seq<Turn>, k: nat): Waiting
    requires k <= |turns|
  {
    After(w, turns[..k])
  }

  lemma Apart<T>(s: seq<T>, k: nat)
    requires k < |s|
    ensures s == s[..k] + ([s[k]] + s[k + 1..]) && s[..k + 1] == s[..k] + [s[k]]
  {
  }

  lemma CommandsApart(w: Waiting, turns: seq<Turn>, k: nat)
    requires k < |turns|
    ensures At(w, turns, k + 1) == At(w, turns, k).Then(turns[k])
    ensures ExecutedInAll(w, turns) == ExecutedInAll(w, turns[..k])
      + (At(w, turns, k).Executes(turns[k]) + ExecutedInAll(At(w, turns, k + 1), turns[k + 1..]))
  {
    hide After, ExecutedInAll, Waiting.Then, Waiting.Executes;
    Apart(turns, k);
    TurnsJoin(w, turns[..k], [turns[k]] + turns[k + 1..]);
    TurnsJoin(At(w, turns, k), [turns[k]], turns[k + 1..]);
    TurnsJoin(w, turns[..k], [turns[k]]);
    OneTurn(At(w, turns, k), turns[k]);
  }

  /** Turn `k` and what comes before and after it. */
  lemma TurnApart(w: Waiting, turns: seq<Turn>, k: nat)
    requires k < |turns| && UsableTurns(w, turns)
    ensures UsableTurns(w, turns[..k]) && UsableTurns(At(w, turns, k + 1), turns[k + 1..])
    ensures forall d :: d in At(w, turns, k).Executes(turns[k]) ==> Usable(d)
    ensures TurnSteps(w, turns) == TurnSteps(w, turns[..k])
      + (At(w, turns, k).Steps(turns[k]) + TurnSteps(At(w, turns, k + 1), turns[k + 1..]))
  {
    hide After, ExecutedInAll, TurnSteps, Waiting.Then, Waiting.Executes, Waiting.Steps, Usable;
    Apart(turns, k);
    CommandsApart(w, turns, k);
    TurnStepsJoin(w, turns[..k], [turns[k]] + turns[k + 1..]);
    TurnStepsJoin(At(w, turns, k), [turns[k]], turns[k + 1..]);
    OneTurn(At(w, turns, k), turns[k]);
  }

  /** What holds of the moves, the commands and the checks holds of every step. */
  lemma {:induction false} EveryStep(w: Waiting, turns: seq<Turn>, p: Step -> bool)
    requires UsableTurns(w, turns)
    requires forall l, r :: p(EncoderMoved(l, r))
    requires forall d, now :: d in ExecutedInAll(w, turns) ==> p(StepOf(d, now))
    requires forall k :: 0 <= k < |turns| ==>
      p(PidCheck(turns[k].pidNow, turns[k].pidStamp)) && p(StopCheck(turns[k].stopNow, turns[k].stopStamp))
    ensures forall s :: s in TurnSteps(w, turns) ==> p(s)
  {
    hide Waiting.Executes, StepOf, Usable, After;
    if turns != [] {
      var n := |turns| - 1;
      UsableFront(w, turns);
      EveryStep(w, turns[..n], p);
      var ds := After(w, turns[..n]).Executes(turns[n]);
      assert forall d :: d in ds ==> d in ExecutedInAll(w, turns);
      EveryCommand(ds, turns[n].clock, p);
      hide StepsOf;
    }
  }

  lemma {:induction false} EveryCommand(ds: seq<Dispatch>, clock: nat -> nat, p: Step -> bool)
    requires forall d :: d in ds ==> Usable(d)
    requires forall d, now :: d in ds ==> p(StepOf(d, now))
    ensures forall s :: s in StepsOf(ds, clock) ==> p(s)
  {
    hide StepOf, Usable;
    if ds != [] {
      EveryCommand(ds[..|ds| - 1], clock, p);
    }
  }

  // ----- one command among turns ---------------------------------------------------------

  /** The steps of turns that execute nothing. */
  function Idle(w: Waiting, turns: seq<Turn>): seq<Step> {
    if turns == [] then []
    else
      var n := |turns| - 1;
      Idle(w, turns[..n]) + ([After(w, turns[..n]).Moves(turns[n])] + turns[n].Checks())
  }

  lemma {:induction false} IdleTurns(w: Waiting, turns: seq<Turn>)
    requires ExecutedInAll(w, turns) == []
    ensures TurnSteps(w, turns) == Idle(w, turns)
  {
    hide Waiting.Executes, Waiting.Moves, Usable, After, Turn.Checks;
    if turns != [] {
      var n := |turns| - 1;
      IdleTurns(w, turns[..n]);
      assert StepsOf([], turns[n].clock) == [];
    }
  }

  lemma {:induction false} SomeTurnExecutes(w: Waiting, turns: seq<Turn>) returns (k: nat)
    requires ExecutedInAll(w, turns) != []
    ensures k < |turns| && At(w, turns, k).Executes(turns[k]) != []
  {
    hide Waiting.Executes, After;
    var n := |turns| - 1;
    k := n;
    if After(w, turns[..n]).Executes(turns[n]) == [] {
      k := SomeTurnExecutes(w, turns[..n]);
      assert turns[..n][..k] == turns[..k];
    }
  }

  /** One command in all the turns: it is executed in one of them, and the
      others only see the encoders move and make their checks. */
  lemma {:induction false} OneCommandInTurns(w: Waiting, turns: seq<Turn>, d: Dispatch) returns (k: nat)
    requires ExecutedInAll(w, turns) == [d] && Usable(d)
    ensures k < |turns| && At(w, turns, k).Executes(turns[k]) == [d]
    ensures TurnSteps(w, turns) == Idle(w, turns[..k])
      + ([At(w, turns, k).Moves(turns[k])] + [StepOf(d, turns[k].clock(0))] + turns[k].Checks()
         + Idle(At(w, turns, k + 1), turns[k + 1..]))
  {
    hide After, ExecutedInAll, TurnSteps, Waiting.Then, Waiting.Executes, StepOf, Usable, StepsOf;
    k := SomeTurnExecutes(w, turns);
    CommandsApart(w, turns, k);
    OnlyMiddle(ExecutedInAll(w, turns[..k]), At(w, turns, k).Executes(turns[k]),
               ExecutedInAll(At(w, turns, k + 1), turns[k + 1..]), d);
    TurnApart(w, turns, k);
    IdleTurns(w, turns[..k]);
    IdleTurns(At(w, turns, k + 1), turns[k + 1..]);
    OneCommand(d, turns[k].clock);
    hide Idle, At, Waiting.Moves, Turn.Checks;
  }

  lemma OnlyMiddle<T>(a: seq<T>, b: seq<T>, c: seq<T>, d: T)
    requires a + (b + c) == [d] && b != []
    ensures a == [] && b == [d] && c == []
  {
    assert |a| + |b| + |c| == |a + (b + c)| == 1;
    assert b[0] == (a + (b + c))[0];
  }

  /** For all 32-bit speeds, however the bytes the host writes are spread over
      turns of the loop: the firmware takes exactly one command step, with what 16
      bits leave of the host's numbers.  It has the host's own numbers if and only
      if both fit. */
  lemma {:induction false} HostSpeedsArriveInTurns(w: Waiting, a: int, b: int, turns: seq<Turn>) returns (k: nat)
    requires -0x8000_0000 <= a < 0x8000_0000 && -0x8000_0000 <= b < 0x8000_0000
    requires w.text == "" && Inputs(turns) == SetMotorValues(a, b)
    ensures UsableTurns(w, turns) && k < |turns|
    ensures TurnSteps(w, turns) == Idle(w, turns[..k])
      + ([At(w, turns, k).Moves(turns[k])] + [SetSpeed(Int16(a), Int16(b), turns[k].clock(0))] + turns[k].Checks()
         + Idle(At(w, turns, k + 1), turns[k + 1..]))
    ensures SetSpeed(Int16(a), Int16(b), turns[k].clock(0)) == SetSpeed(a, b, turns[k].clock(0))
      <==> -0x8000 <= a < 0x8000 && -0x8000 <= b < 0x8000
  {
    Int16Exactly(a);
    Int16Exactly(b);
    hide Int16, AtoI16, Executed, Arguments, TwoNumbers, TurnSteps, ExecutedInAll, After, Idle;
    hide Waiting.Moves, Turn.Checks;
    var d := Call(SET_MOTORS_SPEED, Arguments(MotorMessage(a, b)));
    TwoNumbersAreDispatched('m', a, b);
    TurnsExecuteAll(w, turns);
    k := OneCommandInTurns(w, turns, d);
  }

  // ----- the auto-stop over turns -----------------------------------------------------------

  /** No motion command is executed, and some turn makes its stop check more than
      the window (and less than the clock's range) after the last stamp. */
  ghost predicate LeftAlone(s: AppState, w: Waiting, turns: seq<Turn>) {
    && (forall d, now :: d in ExecutedInAll(w, turns) ==> !StepOf(d, now).Motion())
    && exists t0: nat, k: nat :: k < |turns| && s.lastCommand == Stamp(t0)
                              && AUTO_STOP_WINDOW < turns[k].stopNow - t0 < WRAP
  }

  /** A robot that is left alone is halted when the turns are over. */
  lemma {:induction false} UnattendedTurnsStop(s: AppState, w: Waiting, turns: seq<Turn>)
    requires s.Sound() && UsableTurns(w, turns) && LeftAlone(s, w, turns)
    ensures Run(s, TurnSteps(w, turns)).Halted()
  {
    hide Run, StepOf, TurnSteps, Usable, Stamp, AppState.Halted, AppState.Sound, ExecutedInAll;
    var t0: nat, k: nat :| k < |turns| && s.lastCommand == Stamp(t0)
                        && AUTO_STOP_WINDOW < turns[k].stopNow - t0 < WRAP;
    EveryStep(w, turns, (step: Step) => !step.Motion());
    var before, after := CheckApart(w, turns, k);
    var t := turns[k];
    CalmParts(TurnSteps(w, turns), before, StopCheck(t.stopNow, t.stopStamp), after);
    UnattendedMotorsStop(s, before, t.stopNow, t.stopStamp, after, t0);
  }

  /** The stop check of turn `k`, and the steps before and after it. */
  lemma {:induction false} CheckApart(w: Waiting, turns: seq<Turn>, k: nat)
    returns (before: seq<Step>, after: seq<Step>)
    requires k < |turns| && UsableTurns(w, turns)
    ensures TurnSteps(w, turns) == before + [StopCheck(turns[k].stopNow, turns[k].stopStamp)] + after
    ensures k == |turns| - 1 ==> after == []
  {
    TurnApart(w, turns, k);
    hide TurnSteps, Usable, At, Waiting.Moves, Waiting.Steps, StepsOf, Waiting.Executes, ExecutedInAll;
    var wk, t := At(w, turns, k), turns[k];
    var most := TurnEnds(wk, t);
    var front := TurnSteps(w, turns[..k]);
    before, after := front + most, TurnSteps(At(w, turns, k + 1), turns[k + 1..]);
    Regrouped(front, most, [StopCheck(t.stopNow, t.stopStamp)], after);
    if k == |turns| - 1 { NoSteps(At(w, turns, k + 1)); }
  }

  lemma TurnEnds(w: Waiting, t: Turn) returns (most: seq<Step>)
    requires forall d :: d in w.Executes(t) ==> Usable(d)
    ensures w.Steps(t) == most + [StopCheck(t.stopNow, t.stopStamp)]
  {
    hide StepsOf, Waiting.Executes, Waiting.Moves, Usable;
    var ran := [w.Moves(t)] + StepsOf(w.Executes(t), t.clock);
    most := ran + [PidCheck(t.pidNow, t.pidStamp)];
    assert t.Checks() == [PidCheck(t.pidNow, t.pidStamp)] + [StopCheck(t.stopNow, t.stopStamp)];
  }

  lemma NoSteps(w: Waiting)
    ensures UsableTurns(w, []) && TurnSteps(w, []) == [] && After(w, []) == w
  {
  }

  lemma Regrouped<T>(a: seq<T>, b: seq<T>, c: seq<T>, d: seq<T>)
    ensures a + ((b + c) + d) == (a + b) + c + d
  {
  }

  lemma CalmParts(steps: seq<Step>, before: seq<Step>, check: Step, after: seq<Step>)
    requires steps == before + [check] + after && forall t :: t in steps ==> t.Allowed() && !t.Motion()
    ensures forall t :: t in before ==> t.Allowed() && !t.Motion()
    ensures forall t :: t in after ==> t.Allowed() && !t.Motion()
  {
    forall t | t in before || t in after ensures t in steps { }
  }

  // ----- open-loop commands over turns --------------------------------------------------------

  lemma {:induction false} StepsOfJoin(a: seq<Dispatch>, b: seq<Dispatch>, clock: nat -> nat)
    requires forall d :: d in a + b ==> Usable(d)
    ensures (forall d :: d in a ==> Usable(d)) && forall d :: d in b ==> Usable(d)
    ensures StepsOf(a + b, clock) == StepsOf(a, clock) + StepsOf(b, (i: nat) => clock(|a| + i))
  {
    hide StepOf, Usable;
    assert forall d :: d in a ==> d in a + b;
    assert forall d :: d in b ==> d in a + b;
    if b == [] {
      assert a + b == a;
    } else {
      var n := |b| - 1;
      assert (a + b)[..|a| + n] == a + b[..n];
      StepsOfJoin(a, b[..n], clock);
    }
  }

  /** Before the open-loop command: no speed command, no check after the window. */
  ghost predicate EarlyTurns(ds: seq<Dispatch>, turns: seq<Turn>, t0: nat) {
    && (forall d, now :: d in ds ==> !StepOf(d, now).Stamps())
    && forall i :: 0 <= i < |turns| ==> t0 <= turns[i].stopNow <= t0 + AUTO_STOP_WINDOW
  }

  /** From the open-loop command on: no speed and no open-loop command, and the
      checks are made in the time up to `now`. */
  ghost predicate QuietTurns(ds: seq<Dispatch>, turns: seq<Turn>, t0: nat, now: nat) {
    && (forall d, at :: d in ds ==> !StepOf(d, at).Stamps() && !StepOf(d, at).SetPwm?)
    && forall i :: 0 <= i < |turns| ==> t0 <= turns[i].stopNow <= now
  }

  /** The commands of turn `k` before and after its command `j`. */
  function Earlier(w: Waiting, turns: seq<Turn>, k: nat, j: nat): seq<Dispatch>
    requires k < |turns| && j < |At(w, turns, k).Executes(turns[k])|
  {
    ExecutedInAll(w, turns[..k]) + At(w, turns, k).Executes(turns[k])[..j]
  }

  function Later(w: Waiting, turns: seq<Turn>, k: nat, j: nat): seq<Dispatch>
    requires k < |turns| && j < |At(w, turns, k).Executes(turns[k])|
  {
    At(w, turns, k).Executes(turns[k])[j + 1..] + ExecutedInAll(At(w, turns, k + 1), turns[k + 1..])
  }

  /** Command `j` of a list, and the steps before and after it. */
  lemma CommandInside(ds: seq<Dispatch>, j: nat, clock: nat -> nat) returns (later: nat -> nat)
    requires j < |ds| && forall d :: d in ds ==> Usable(d)
    ensures StepsOf(ds, clock) == StepsOf(ds[..j], clock) + [StepOf(ds[j], clock(j))] + StepsOf(ds[j + 1..], later)
  {
    hide StepOf, Usable;
    Apart(ds, j);
    assert ds == ds[..j + 1] + ds[j + 1..];
    StepsOfJoin(ds[..j + 1], ds[j + 1..], clock);
    assert ds[..j + 1][..j] == ds[..j];
    later := (i: nat) => clock(|ds[..j + 1]| + i);
  }

  lemma AllEarly(w: Waiting, turns: seq<Turn>, ds: seq<Dispatch>, move: Step, clock: nat -> nat, t0: nat)
    requires UsableTurns(w, turns) && move.EncoderMoved? && forall d :: d in ds ==> Usable(d)
    requires EarlyTurns(ExecutedInAll(w, turns) + ds, turns, t0)
    ensures forall t :: t in TurnSteps(w, turns) + ([move] + StepsOf(ds, clock)) ==> t.Allowed() && Early(t, t0)
  {
    hide TurnSteps, ExecutedInAll, StepOf, Usable, StepsOf;
    var all := ExecutedInAll(w, turns) + ds;
    forall d, now | d in ds || d in ExecutedInAll(w, turns) ensures Early(StepOf(d, now), t0) {
      assert d in all;
      CommandIsNoCheck(d, now);
    }
    EveryStep(w, turns, (t: Step) => Early(t, t0));
    EveryCommand(ds, clock, (t: Step) => Early(t, t0));
  }

  lemma AllQuiet(w: Waiting, turns: seq<Turn>, ds: seq<Dispatch>, first: Turn, clock: nat -> nat, t0: nat, now: nat)
    requires UsableTurns(w, turns) && forall d :: d in ds ==> Usable(d)
    requires QuietTurns(ds + ExecutedInAll(w, turns), [first] + turns, t0, now)
    ensures forall t :: t in StepsOf(ds, clock) + first.Checks() + TurnSteps(w, turns) ==>
      t.Allowed() && Quiet(t, t0, now)
  {
    hide TurnSteps, ExecutedInAll, StepOf, Usable, StepsOf;
    var all := ds + ExecutedInAll(w, turns);
    forall d, at | d in ds || d in ExecutedInAll(w, turns) ensures Quiet(StepOf(d, at), t0, now) {
      assert d in all;
      CommandIsNoCheck(d, at);
    }
    assert ([first] + turns)[0] == first;
    forall i | 0 <= i < |turns| ensures t0 <= turns[i].stopNow <= now {
      assert ([first] + turns)[i + 1] == turns[i];
    }
    EveryStep(w, turns, (t: Step) => Quiet(t, t0, now));
    EveryCommand(ds, clock, (t: Step) => Quiet(t, t0, now));
  }

  lemma CommandIsNoCheck(d: Dispatch, now: nat)
    ensures !StepOf(d, now).StopCheck?
  {
    hide AtoI16, GainsOf;
  }

  /** Command `j` of turn `k`, and the steps before and after it. */
  lemma {:induction false} CommandApart(w: Waiting, turns: seq<Turn>, k: nat, j: nat)
    returns (before: seq<Step>, rest: seq<Step>, later: nat -> nat)
    requires UsableTurns(w, turns) && k < |turns| && j < |At(w, turns, k).Executes(turns[k])|
    ensures UsableTurns(w, turns[..k]) && UsableTurns(At(w, turns, k + 1), turns[k + 1..])
    ensures forall d :: d in At(w, turns, k).Executes(turns[k]) ==> Usable(d)
    ensures var ds, t := At(w, turns, k).Executes(turns[k]), turns[k];
      && before == TurnSteps(w, turns[..k]) + ([At(w, turns, k).Moves(t)] + StepsOf(ds[..j], t.clock))
      && rest == StepsOf(ds[j + 1..], later) + t.Checks() + TurnSteps(At(w, turns, k + 1), turns[k + 1..])
      && TurnSteps(w, turns) == before + [StepOf(ds[j], t.clock(j))] + rest
  {
    TurnApart(w, turns, k);
    hide TurnSteps, At, Waiting.Executes, ExecutedInAll, Waiting.Moves, StepOf, StepsOf, Usable, Turn.Checks;
    var ds, t := At(w, turns, k).Executes(turns[k]), turns[k];
    later := CommandInside(ds, j, t.clock);
    var front, back := TurnSteps(w, turns[..k]), TurnSteps(At(w, turns, k + 1), turns[k + 1..]);
    var moves, one := [At(w, turns, k).Moves(t)], [StepOf(ds[j], t.clock(j))];
    before := front + (moves + StepsOf(ds[..j], t.clock));
    rest := StepsOf(ds[j + 1..], later) + t.Checks() + back;
    Regrouped5(front, moves, StepsOf(ds[..j], t.clock), one, StepsOf(ds[j + 1..], later), t.Checks(), back);
  }

  /** An open-loop command among turns: the steps before it leave the timer alone
      and the ones after it are quiet. */
  lemma {:induction false} PwmApart(w: Waiting, turns: seq<Turn>, k: nat, j: nat, t0: nat, now: nat)
    returns (before: seq<Step>, rest: seq<Step>)
    requires UsableTurns(w, turns) && k < |turns| && j < |At(w, turns, k).Executes(turns[k])|
    requires EarlyTurns(Earlier(w, turns, k, j), turns[..k], t0)
    requires QuietTurns(Later(w, turns, k, j), turns[k..], t0, now)
    ensures TurnSteps(w, turns)
      == before + [StepOf(At(w, turns, k).Executes(turns[k])[j], turns[k].clock(j))] + rest
    ensures rest != []
    ensures forall t :: t in before ==> t.Allowed() && Early(t, t0)
    ensures forall t :: t in rest ==> t.Allowed() && Quiet(t, t0, now)
  {
    hide TurnSteps, At, Waiting.Executes, ExecutedInAll, Waiting.Moves, EarlyTurns, QuietTurns, StepOf, StepsOf;
    hide Early, Quiet, Usable, UsableTurns;
    var later;
    before, rest, later := CommandApart(w, turns, k, j);
    var ds, t := At(w, turns, k).Executes(turns[k]), turns[k];
    assert turns[k..] == [t] + turns[k + 1..];
    MovesIsMove(At(w, turns, k), t);
    AllEarly(w, turns[..k], ds[..j], At(w, turns, k).Moves(t), t.clock, t0);
    AllQuiet(At(w, turns, k + 1), turns[k + 1..], ds[j + 1..], t, later, t0, now);
    assert |t.Checks()| == 2;
  }

  lemma MovesIsMove(w: Waiting, t: Turn)
    ensures w.Moves(t).EncoderMoved?
  {
  }

  lemma Regrouped5<T>(a: seq<T>, b: seq<T>, c: seq<T>, d: seq<T>, e: seq<T>, f: seq<T>, g: seq<T>)
    ensures a + (b + (c + d + e) + f + g) == a + (b + c) + d + (e + f + g)
  {
  }

  /** When an open-loop drive is cut off, over turns: command `j` of turn `k`
      drives the motors, the speed commands and the checks before it leave the
      timer as it was stamped at `t0`, and what follows neither stamps nor drives.
      The robot is halted when the turns are over if and only if the last check is
      made more than the window after `t0`, however long ago the drive began. */
  lemma {:induction false} PwmCutOffInTurns(s: AppState, w: Waiting, turns: seq<Turn>, k: nat, j: nat,
                                            left: int, right: int, t0: nat)
    requires s.Sound() && s.lastCommand == Stamp(t0) && UsableTurns(w, turns)
    requires k < |turns| && j < |At(w, turns, k).Executes(turns[k])|
    requires StepOf(At(w, turns, k).Executes(turns[k])[j], turns[k].clock(j)) == SetPwm(left, right)
    requires left != 0 || right != 0
    requires EarlyTurns(Earlier(w, turns, k, j), turns[..k], t0)
    requires QuietTurns(Later(w, turns, k, j), turns[k..], t0, turns[|turns| - 1].stopNow)
    requires t0 <= turns[|turns| - 1].stopNow < t0 + WRAP
    ensures Run(s, TurnSteps(w, turns)).Halted() <==> turns[|turns| - 1].stopNow - t0 > AUTO_STOP_WINDOW
  {
    hide TurnSteps, At, Waiting.Executes, ExecutedInAll, EarlyTurns, QuietTurns, StepOf, Run, AppState.Sound, Stamp;
    hide Early, Quiet, Usable, AppState.Halted;
    var now, stamp := turns[|turns| - 1].stopNow, turns[|turns| - 1].stopStamp;
    var before, rest := PwmApart(w, turns, k, j, t0, now);
    var all, none := CheckApart(w, turns, |turns| - 1);
    var after := rest[..|rest| - 1];
    SameEnd(before + [SetPwm(left, right)], rest, all, StopCheck(now, stamp));
    PwmDoesNotRestartTimer(s, before, left, right, after, t0, now, stamp);
  }

  lemma SameEnd<T>(a: seq<T>, b: seq<T>, c: seq<T>, d: T)
    requires a + b == c + [d] + [] && b != []
    ensures a + b == a + b[..|b| - 1] + [d]
  {
    assert (a + b)[|a + b| - 1] == d;
    assert b == b[..|b| - 1] + [b[|b| - 1]];
  }

  /** The host's two open-loop numbers, spread over turns in whatever way: with
      every check but the last within the window since `t0`, the last one decides
      by the time since `t0` alone. */
  lemma {:induction false} PwmMessageCutOff(s: AppState, w: Waiting, turns: seq<Turn>, a: int, b: int, t0: nat)
    requires s.Sound() && s.lastCommand == Stamp(t0)
    requires -0x8000_0000 <= a < 0x8000_0000 && -0x8000_0000 <= b < 0x8000_0000 && (Int16(a) != 0 || Int16(b) != 0)
    requires w.text == "" && Inputs(turns) == TwoNumbers('o', a, b) + [CR]
    requires forall i :: 0 <= i < |turns| - 1 ==> t0 <= turns[i].stopNow <= t0 + AUTO_STOP_WINDOW
    requires turns != [] ==> t0 <= turns[|turns| - 1].stopNow < t0 + WRAP
    requires forall i :: 0 <= i < |turns| ==> turns[i].stopNow <= turns[|turns| - 1].stopNow
    ensures turns != [] && UsableTurns(w, turns)
    ensures Run(s, TurnSteps(w, turns)).Halted() <==> turns[|turns| - 1].stopNow - t0 > AUTO_STOP_WINDOW
  {
    var d := Call(SET_MOTORS_PWM, Arguments(TwoNumbers('o', a, b)));
    hide TurnSteps, At, Waiting.Executes, ExecutedInAll, Run, AppState.Sound, Stamp, Usable, AppState.Halted;
    hide Int16, AtoI16, Arguments, TwoNumbers, After, Idle, Waiting.Moves, Turn.Checks, Executed;
    TwoNumbersAreDispatched('o', a, b);
    TurnsExecuteAll(w, turns);
    UsableCommand(d);
    var k := OneCommandInTurns(w, turns, d);
    CommandsApart(w, turns, k);
    OnlyMiddle(ExecutedInAll(w, turns[..k]), [d], ExecutedInAll(At(w, turns, k + 1), turns[k + 1..]), d);
    PwmCutOffInTurns(s, w, turns, k, 0, Int16(a), Int16(b), t0);
  }

  lemma UsableCommand(d: Dispatch)
    requires d.Call? && d.callback != SET_PID_GAINS
    ensures Usable(d)
  {
  }

  // ----- a drive cut off at once ----------------------------------------------------------

  /** The host drives open loop at 2899 ms, and the checks of this and the next two
      turns are made at 2900, 2950 and 3001 ms. */
  const CUT_OFF: seq<Turn> := [
    Turn([], [], TwoNumbers('o', 100, 100) + [CR], (i: nat) => 2899, 2900, 2900, 2900, 2900),
    Turn([], [], "", (i: nat) => 2949, 2950, 2950, 2950, 2950),
    Turn([], [], "", (i: nat) => 3000, 3001, 3001, 3001, 3001)]

  /** A robot that has just started is driven and then halted within 102 ms of the
      only command it was ever given. */
  lemma CutOffAtOnce()
    ensures var w := Waiting("", 0, 0);
      && UsableTurns(w, CUT_OFF[..2]) && !Run(STARTED, TurnSteps(w, CUT_OFF[..2])).Halted()
      && UsableTurns(w, CUT_OFF) && Run(STARTED, TurnSteps(w, CUT_OFF)).Halted()
  {
    var w := Waiting("", 0, 0);
    assert STARTED.lastCommand == Stamp(0) && STARTED.Sound();
    CutOffInputs();
    Int16Exactly(100);
    hide TwoNumbers, TurnSteps, UsableTurns, Run, AppState.Halted, Int16, Inputs;
    PwmMessageCutOff(STARTED, w, CUT_OFF[..2], 100, 100, 0);
    PwmMessageCutOff(STARTED, w, CUT_OFF, 100, 100, 0);
  }

  lemma CutOffInputs()
    ensures Inputs(CUT_OFF[..2]) == Inputs(CUT_OFF) == TwoNumbers('o', 100, 100) + [CR]
  {
    hide TwoNumbers;
    var turns := CUT_OFF;
    assert turns[..2][..1] == turns[..1] && turns[..1][..0] == [];
    assert Inputs(turns[..1]) == "" + turns[0].input;
  }

  // ----- many calls of `loop` ---------------------------------------------------------------

  ghost function WaitingIn(app: App): Waiting
    reads app, app.shell, app.shell.messageBuffer, app.leftEncoder, app.rightEncoder
    requires app.shell.Valid()
  {
    Waiting(app.shell.Text(), app.leftEncoder.Current(), app.rightEncoder.Current())
  }

  lemma NoTurns(s: AppState, w: Waiting)
    requires s.Sound()
    ensures After(w, []) == w && UsableTurns(w, []) && Run(s, TurnSteps(w, [])) == s
  {
    hide Next, AppState.Sound;
  }

  lemma OneMoreTurn(s: AppState, w: Waiting, turns: seq<Turn>, i: nat)
    requires i < |turns| && s.Sound() && UsableTurns(w, turns)
    ensures UsableTurns(w, turns[..i]) && UsableTurns(w, turns[..i + 1])
    ensures forall d :: d in After(w, turns[..i]).Executes(turns[i]) ==> Usable(d)
    ensures After(w, turns[..i + 1]) == After(w, turns[..i]).Then(turns[i])
    ensures Run(s, TurnSteps(w, turns[..i + 1]))
      == Run(Run(s, TurnSteps(w, turns[..i])), After(w, turns[..i]).Steps(turns[i]))
  {
    hide Waiting.Executes, Waiting.Then, Waiting.Steps, Usable, Next, AppState.Sound;
    assert turns == turns[..i + 1] + turns[i + 1..];
    UsableParts(w, turns[..i + 1], turns[i + 1..]);
    assert turns[..i + 1][..i] == turns[..i];
    UsableFront(w, turns[..i + 1]);
    RunConcat(s, TurnSteps(w, turns[..i]), After(w, turns[..i]).Steps(turns[i]));
    hide Run;
  }

  lemma TurnRun(s: AppState, w: Waiting, t: Turn)
    requires s.Sound() && forall d :: d in w.Executes(t) ==> Usable(d)
    ensures Run(s, w.Steps(t)) == Run(Run(s, [w.Moves(t)]), StepsOf(w.Executes(t), t.clock) + t.Checks())
  {
    hide Waiting.Executes, Usable, Next, AppState.Sound, StepsOf;
    Regroup([w.Moves(t)], StepsOf(w.Executes(t), t.clock), t.Checks());
    RunConcat(s, [w.Moves(t)], StepsOf(w.Executes(t), t.clock) + t.Checks());
    hide Run;
  }

  /** Many calls of `loop`, with the encoders moving before each. */
  method LoopAll(app: App, turns: seq<Turn>)
    requires app.Valid() && UsableTurns(WaitingIn(app), turns)
    modifies app, app.leftPid, app.rightPid, app.leftMotor, app.rightMotor, app.leftEncoder, app.rightEncoder
    modifies app.shell`messageIndex, app.shell`log, app.shell.messageBuffer
    ensures app.Valid() && WaitingIn(app) == After(old(WaitingIn(app)), turns)
    ensures app.View() == Run(old(app.View()), TurnSteps(old(WaitingIn(app)), turns))
    ensures LeftAlone(old(app.View()), old(WaitingIn(app)), turns) ==> app.View().Halted()
  {
    hide PutAll, Executed, StepsOf, Run, After, TurnSteps, UsableTurns, Usable, AppState.Sound, LeftAlone, Delta;
    ghost var w, s := WaitingIn(app), app.View();
    NoTurns(s, w);
    for i := 0 to |turns|
      invariant app.Valid() && WaitingIn(app) == After(w, turns[..i])
      invariant UsableTurns(w, turns[..i]) && app.View() == Run(s, TurnSteps(w, turns[..i]))
    {
      OneMoreTurn(s, w, turns, i);
      var t := turns[i];
      TurnRun(app.View(), After(w, turns[..i]), t);
      app.EncodersMove(t.left, t.right);
      app.Loop(t.input, t.clock, t.pidNow, t.pidStamp, t.stopNow, t.stopStamp);
    }
    assert turns[..|turns|] == turns;
    if LeftAlone(s, w, turns) { UnattendedTurnsStop(s, w, turns); }
  }
}
