/** The input state machine of Laboratorio2/programa1mp_dox.py: a duty
    cycle first, then a direction for the H bridge, then any number of duty
    updates. The once-a-second RPM and speed report is not modelled; only
    the `ready` flag that enables it is. */
module DutyMachine {
  import opened Options
  import opened Text
  import CaptureConsole

  /** The H-bridge inputs: not yet driven, forward (IN1 = 1, IN2 = 0) or
      reverse (IN1 = 0, IN2 = 1). */
  datatype Bridge = Idle | Forward | Reverse

  /** The levels written to IN1 and IN2 (lines 102-103, 108-109). */
  function Pins(b: Bridge): (r: (int, int))
    ensures b != Idle ==> r.0 + r.1 == 1
  {
    match b
    case Idle => (0, 0)
    case Forward => (1, 0)
    case Reverse => (0, 1)
  }

  /** `duty_cycle`, `direction_set`, `ready`, the bridge and the 16-bit
      level last written to ENA. */
  datatype Machine = Machine(duty: int, directionSet: bool, ready: bool, bridge: Bridge, level: nat)

  /** The state at start-up (lines 48-54): no duty yet (-1), no direction,
      not ready. */
  const Init: Machine := Machine(-1, false, false, Idle, 0)

  /** The message printed for a line. */
  datatype Reply =
    | DutyReceived
    | DutyUpdated
    | DutyOutOfRange
    | InputInvalid
    | DirectionForward
    | DirectionReverse
    | DirectionInvalid

  datatype Outcome = Outcome(next: Machine, reply: Reply)

  /** A duty line in either duty-reading state (lines 87-97, 118-127):
      `int` of the line, accepted in 0..100. */
  function ReadDuty(m: Machine, line: seq<char>, accepted: Reply): (o: Outcome)
    ensures o.reply == accepted || o.reply == InputInvalid || o.reply == DutyOutOfRange
    ensures o.next != m ==> o.reply == accepted && 0 <= o.next.duty <= 100
    ensures o.next.directionSet == m.directionSet && o.next.ready == m.ready && o.next.bridge == m.bridge
  {
    match PyInt(line)
    case None => Outcome(m, InputInvalid)
    case Some(v) =>
      if 0 <= v <= 100 then Outcome(m.(duty := v, level := CaptureConsole.DutyU16(v)), accepted)
      else Outcome(m, DutyOutOfRange)
  }

  /** One line typed on the console (lines 82-127), after `strip()`. */
  function Step(m: Machine, typed: seq<char>): (o: Outcome)
    ensures o.next.duty != m.duty ==> 0 <= o.next.duty <= 100
    ensures m.directionSet ==> o.next.bridge == m.bridge && o.next.directionSet
    ensures o.next.directionSet != m.directionSet ==> m.duty != -1 && o.next.ready
  {
    var line := Strip(typed);
    if m.duty == -1 then ReadDuty(m, line, DutyReceived)
    else if !m.directionSet then
      if line == "f" then
        Outcome(m.(bridge := Forward, directionSet := true, ready := true), DirectionForward)
      else if line == "r" then
        Outcome(m.(bridge := Reverse, directionSet := true, ready := true), DirectionReverse)
      else Outcome(m, DirectionInvalid)
    else ReadDuty(m, line, DutyUpdated)
  }

  /** What holds in every reachable state: `ready` and `direction_set` move
      together, the duty is -1 or a percentage, a direction is only chosen
      after a duty, the bridge is driven exactly when a direction is set,
      and the level on ENA is the one for the duty. */
  ghost predicate Inv(m: Machine)
  {
    && m.ready == m.directionSet
    && (m.duty == -1 || 0 <= m.duty <= 100)
    && (m.directionSet ==> m.duty != -1)
    && (m.directionSet <==> m.bridge != Idle)
    && m.level == (if m.duty == -1 then 0 else CaptureConsole.DutyU16(m.duty))
  }

  lemma InitInv()
    ensures Inv(Init)
  {
  }

  /** A duty line sets a percentage or changes nothing. */
  lemma ReadDutyCases(m: Machine, line: seq<char>, accepted: Reply)
    ensures var o := ReadDuty(m, line, accepted);
      && (o.reply == accepted <==> PyInt(line).Some? && 0 <= PyInt(line).value <= 100)
      && (o.reply == accepted ==>
            o.next == m.(duty := PyInt(line).value, level := CaptureConsole.DutyU16(PyInt(line).value)))
      && (o.reply != accepted ==> o.next == m)
    requires accepted != InputInvalid && accepted != DutyOutOfRange
  {
  }

  /** Every line keeps the invariant. */
  lemma StepInv(m: Machine, typed: seq<char>)
    requires Inv(m)
    ensures Inv(Step(m, typed).next)
  {
    var line := Strip(typed);
    if m.duty == -1 {
      ReadDutyCases(m, line, DutyReceived);
    } else if m.directionSet {
      ReadDutyCases(m, line, DutyUpdated);
    }
  }

  /** While no duty is set, only an integer in 0..100 is taken, and it
      becomes the duty; anything else leaves the machine as it was. */
  lemma AwaitingDuty(m: Machine, typed: seq<char>)
    requires m.duty == -1
    ensures var o := Step(m, typed); var p := PyInt(Strip(typed));
      && (o.next.duty != -1 <==> p.Some? && 0 <= p.value <= 100)
      && (o.next.duty != -1 ==> o.next.duty == p.value && o.reply == DutyReceived)
      && (o.next.duty == -1 ==> o.next == m)
  {
    ReadDutyCases(m, Strip(typed), DutyReceived);
  }

  /** With a duty and no direction, "f" and "r" choose the direction and
      make the machine ready together; any other line changes nothing. */
  lemma AwaitingDirection(m: Machine, typed: seq<char>)
    requires m.duty != -1 && !m.directionSet
    ensures var o := Step(m, typed); var line := Strip(typed);
      && (line == "f" ==> o.next == m.(bridge := Forward, directionSet := true, ready := true))
      && (line == "r" ==> o.next == m.(bridge := Reverse, directionSet := true, ready := true))
      && (line != "f" && line != "r" ==> o.next == m && o.reply == DirectionInvalid)
  {
  }

  /** Once running, the direction never changes; a valid integer updates
      the duty and anything else leaves it. */
  lemma Running(m: Machine, typed: seq<char>)
    requires m.duty != -1 && m.directionSet
    ensures var o := Step(m, typed); var p := PyInt(Strip(typed));
      && o.next.bridge == m.bridge && o.next.directionSet && o.next.ready == m.ready
      && (p.Some? && 0 <= p.value <= 100 ==> o.next.duty == p.value && o.reply == DutyUpdated)
      && (!(p.Some? && 0 <= p.value <= 100) ==> o.next == m)
  {
    ReadDutyCases(m, Strip(typed), DutyUpdated);
  }

  /** The state after a sequence of lines. */
  function Run(m: Machine, lines: seq<seq<char>>): Machine
    decreases |lines|
  {
    if |lines| == 0 then m else Run(Step(m, lines[0]).next, lines[1..])
  }

  /** Every state reached from start-up satisfies the invariant. */
  lemma {:induction false} RunInv(m: Machine, lines: seq<seq<char>>)
    requires Inv(m)
    ensures Inv(Run(m, lines))
    decreases |lines|
  {
    if |lines| > 0 {
      StepInv(m, lines[0]);
      RunInv(Step(m, lines[0]).next, lines[1..]);
    }
  }

  /** Progress is never undone: a duty once set stays set, and a direction
      once chosen is kept for good. */
  lemma {:induction false} RunMonotone(m: Machine, lines: seq<seq<char>>)
    requires Inv(m)
    ensures m.duty != -1 ==> Run(m, lines).duty != -1
    ensures m.directionSet ==> Run(m, lines).directionSet && Run(m, lines).bridge == m.bridge
    decreases |lines|
  {
    if |lines| > 0 {
      var n := Step(m, lines[0]).next;
      StepInv(m, lines[0]);
      if m.duty != -1 && m.directionSet {
        Running(m, lines[0]);
      } else if m.duty != -1 {
        AwaitingDirection(m, lines[0]);
      }
      RunMonotone(n, lines[1..]);
    }
  }

  /** Typing a duty and then "f" drives the motor forward at that duty. */
  lemma StartForward(v: nat)
    requires v <= 100
    ensures var m := Run(Init, [Decimal(v), "f"]);
      m.duty == v && m.ready && m.bridge == Forward && Pins(m.bridge) == (1, 0)
  {
    var d := Decimal(v);
    var m1 := Step(Init, d).next;
    assert m1.duty == v && !m1.directionSet by {
      DutyLine(v);
      AwaitingDuty(Init, d);
    }
    var f: seq<char> := "f";
    var m2 := Step(m1, f).next;
    assert m2 == m1.(bridge := Forward, directionSet := true, ready := true) by {
      StripFixed(f);
      AwaitingDirection(m1, f);
    }
    RunTwo(Init, d, f);
  }

  /** A numeral typed alone reads as its value. */
  lemma DutyLine(v: nat)
    ensures PyInt(Strip(Decimal(v))) == Some(v)
  {
    var d := Decimal(v);
    assert IsDigit(d[0]) && IsDigit(d[|d| - 1]);
    StripFixed(d);
    PyIntUnsigned(d, d);
    DecimalValue(v);
  }

  lemma RunTwo(m: Machine, a: seq<char>, b: seq<char>)
    ensures Run(m, [a, b]) == Step(Step(m, a).next, b).next
  {
    var lines := [a, b];
    assert lines[1..] == [b];
    assert Run(m, lines) == Run(Step(m, a).next, [b]);
  }
}
