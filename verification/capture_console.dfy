/** The console of Laboratorio2/programa4mp.py: PWM sets a clamped 16-bit
    duty, START runs an up/down sweep that is meant to end at 0 and records
    the duty of every sample into a bounded buffer, STOP switches the motor
    off. The encoder count, the timestamps, the RPM figures and the timing
    of the 500 ms report are not modelled. */
module CaptureConsole {
  import opened Options
  import opened Text
  import opened Sweep
  import opened Sampling

  /** `max_samples`. */
  const MaxSamples: nat := 5000

  /** Full scale of `duty_u16`. */
  const FullScale: nat := 65535

  /** `max(0, min(p, 100))`. */
  function Clamp(p: int): (r: int)
    ensures 0 <= r <= 100
    ensures 0 <= p <= 100 ==> r == p
    ensures p < 0 ==> r == 0
    ensures p > 100 ==> r == 100
  {
    if p < 0 then 0 else if p > 100 then 100 else p
  }

  function Abs(x: int): nat
  {
    if x < 0 then -x else x
  }

  /** The clamped percentage is the valid percentage closest to p. */
  lemma ClampNearest(p: int, q: int)
    requires 0 <= q <= 100
    ensures Abs(Clamp(p) - p) <= Abs(q - p)
  {
  }

  /** `int(p * 65535 / 100)` for a whole percentage: the float quotient is
      never within rounding distance of the next integer, so `int` gives
      the floor of the exact quotient. */
  function DutyU16(p: int): (r: nat)
    requires 0 <= p <= 100
    ensures r * 100 <= p * FullScale < r * 100 + 100
    ensures r <= FullScale
    ensures r == 0 <==> p == 0
    ensures p == 100 ==> r == FullScale
  {
    var x := p * FullScale;
    var r := x / 100;
    assert r * 100 <= x < r * 100 + 100 by {
      assert x == r * 100 + x % 100;
    }
    assert r <= FullScale by {
      MulMono(p, 100, FullScale);
      LessFromMul(r, FullScale + 1, 100);
    }
    assert p > 0 ==> r > 0 by {
      if p > 0 {
        MulMono(1, p, FullScale);
      }
    }
    r
  }

  /** A larger percentage never gives a smaller duty. */
  lemma DutyMonotone(p: int, q: int)
    requires 0 <= p <= q <= 100
    ensures DutyU16(p) <= DutyU16(q)
  {
    MulMono(p, q, FullScale);
    LessFromMul(DutyU16(p), DutyU16(q) + 1, 100);
  }

  /** `set_pwm(porcentaje)` (lines 46-51): the value stored in `pwm_duty`. */
  function SetPwm(p: int): (r: nat)
    ensures r <= FullScale
    ensures p <= 0 ==> r == 0
    ensures p >= 100 ==> r == FullScale
    ensures 0 <= p <= 100 ==> r * 100 <= p * FullScale < r * 100 + 100
  {
    DutyU16(Clamp(p))
  }

  /** The falling values the `while actual > 0` loop produces
      (lines 65-69): 100 - inc, 100 - 2*inc, ... while positive. */
  function Descent(inc: int): seq<int>
    requires 1 <= inc <= 100
  {
    PyRange(100 - inc, 0, -inc)
  }

  /** The loop itself, on an immutable list. */
  method FallingList(inc: int) returns (bajada: seq<int>)
    requires 1 <= inc <= 100
    ensures bajada == Descent(inc)
  {
    bajada := [];
    var actual := 100 - inc;
    while actual > 0
      invariant bajada + PyRange(actual, 0, -inc) == Descent(inc)
      decreases actual
    {
      var rest := PyRange(actual - inc, 0, -inc);
      assert PyRange(actual, 0, -inc) == [actual] + rest;
      MoveFront(bajada, actual, rest, Descent(inc));
      bajada := bajada + [actual];
      actual := actual - inc;
    }
    assert bajada + [] == bajada;
  }

  /** Every value of a descending range lies in (stop, start]. */
  lemma {:induction false} RangeBetween(start: int, stop: int, step: int)
    requires step < 0
    ensures forall k :: 0 <= k < |PyRange(start, stop, step)| ==> stop < PyRange(start, stop, step)[k] <= start
    decreases start - stop
  {
    if start > stop {
      RangeBetween(start + step, stop, step);
      var r := PyRange(start, stop, step);
      var t := PyRange(start + step, stop, step);
      assert r == [start] + t;
      forall k | 1 <= k < |r|
        ensures stop < r[k] <= start
      {
        assert r[k] == t[k - 1];
      }
    }
  }

  /** The descent is empty exactly for an increment of 100, and otherwise
      all of its values are positive. */
  lemma DescentShape(inc: int)
    requires 1 <= inc <= 100
    ensures |Descent(inc)| == 0 <==> inc == 100
    ensures forall k :: 0 <= k < |Descent(inc)| ==> 0 < Descent(inc)[k] <= 100 - inc
  {
    RangeBetween(100 - inc, 0, -inc);
  }

  /** The outcome of building `bajada`: the list, or the IndexError that
      `bajada[-1]` raises on an empty list. */
  datatype Built = Built(steps: seq<int>) | IndexError

  /** Lines 65-73 as written. The test `bajada[-1] != 0` runs before the
      test for the empty list, so an empty descent raises instead of
      becoming [0]. */
  function BajadaAsWritten(inc: int): Built
    requires 1 <= inc <= 100
  {
    var b := Descent(inc);
    if |b| == 0 then IndexError
    else if b[|b| - 1] != 0 then Built(b + [0])
    else if b == [] then Built([0])
    else Built(b)
  }

  /** START 100 crashes the list construction, and no other increment
      does. */
  lemma BajadaCrashesAt100(inc: int)
    requires 1 <= inc <= 100
    ensures BajadaAsWritten(inc) == IndexError <==> inc == 100
  {
    DescentShape(inc);
  }

  /** The `elif bajada == []` branch never decides the result: [0] alone is
      never built, and a descent that does not crash always gets a 0
      appended. */
  lemma ElifUnreachable(inc: int)
    requires 1 <= inc <= 100
    ensures BajadaAsWritten(inc) != Built([0])
    ensures inc < 100 ==> BajadaAsWritten(inc) == Built(Descent(inc) + [0])
  {
    DescentShape(inc);
  }

  /** The falling half as intended: the descent, closed with a 0 unless it
      already ends in one, and [0] when it is empty. */
  function Bajada(inc: int): seq<int>
    requires 1 <= inc <= 100
  {
    var b := Descent(inc);
    if |b| == 0 || b[|b| - 1] != 0 then b + [0] else b
  }

  /** The falling half starts below the peak, falls strictly, stays in
      0..100 and ends at 0, for every increment including 100. */
  lemma BajadaShape(inc: int)
    requires 1 <= inc <= 100
    ensures var b := Bajada(inc);
      && |b| > 0 && b[|b| - 1] == 0
      && (forall k :: 0 <= k < |b| ==> 0 <= b[k] <= 100 - inc)
      && (forall k :: 0 < k < |b| ==> b[k - 1] > b[k])
  {
    var d := Descent(inc);
    var b := Bajada(inc);
    DescentShape(inc);
    RangeDown(100 - inc, 0, -inc);
    assert b == d + [0];
    forall k | 0 < k < |b|
      ensures b[k - 1] > b[k]
    {
      if k < |d| {
        assert b[k - 1] == 100 - inc + (k - 1) * (-inc);
        assert b[k] == 100 - inc + k * (-inc);
      }
    }
  }

  /** Where the list does not crash, the intended list is the one built. */
  lemma BajadaAgrees(inc: int)
    requires 1 <= inc < 100
    ensures BajadaAsWritten(inc) == Built(Bajada(inc))
  {
    DescentShape(inc);
  }

  /** [0] when a is a non-negative multiple of inc, else []. */
  function ZeroIf(a: int, inc: int): seq<int>
    requires inc > 0
  {
    if a >= 0 && a % inc == 0 then [0] else []
  }

  /** A descending range to -1 is the one to 0, plus 0 itself when the
      start is a non-negative multiple of the step. */
  lemma {:induction false} DownToZero(a: int, inc: int)
    requires inc > 0
    ensures PyRange(a, -1, -inc) == PyRange(a, 0, -inc) + ZeroIf(a, inc)
    decreases a + 1
  {
    if a > 0 {
      var rest := PyRange(a - inc, 0, -inc);
      DownToZero(a - inc, inc);
      assert ZeroIf(a - inc, inc) == ZeroIf(a, inc) by {
        ModShift(a, inc);
        if a < inc {
          ModUnique(0, a, a, inc);
        }
      }
      assert PyRange(a, -1, -inc) == [a] + (rest + ZeroIf(a, inc));
      assert PyRange(a, 0, -inc) == [a] + rest;
      assert [a] + (rest + ZeroIf(a, inc)) == [a] + rest + ZeroIf(a, inc);
    } else if a == 0 {
      assert PyRange(a - inc, -1, -inc) == [];
    }
  }

  /** Against the falling half of Laboratorio2/programa3mp_dox.py: the
      same values, with a 0 added when the increment does not divide 100. */
  lemma BajadaVersusDownPhase(inc: int)
    requires 1 <= inc <= 100
    ensures Bajada(inc) == DownPhase(inc) + (if 100 % inc == 0 then [] else [0])
  {
    var d := Descent(inc);
    DownToZero(100 - inc, inc);
    DescentShape(inc);
    assert (100 - inc) % inc == 100 % inc by {
      ModShift(100, inc);
    }
    assert Bajada(inc) == d + [0];
    if 100 % inc == 0 {
      assert DownPhase(inc) == d + [0];
    } else {
      assert DownPhase(inc) == d + [];
    }
  }

  /** `step_pwm`, the duties of one capture as intended. */
  function StepPwm(inc: int): seq<int>
    requires 1 <= inc <= 100
  {
    UpPhase(inc) + Bajada(inc)
  }

  /** The capture sweep always returns the motor to 0, and every duty is a
      valid percentage. */
  lemma StepPwmShape(inc: int)
    requires 1 <= inc <= 100
    ensures var s := StepPwm(inc);
      && s[0] == 0 && s[|s| - 1] == 0
      && (forall k :: 0 <= k < |s| ==> 0 <= s[k] <= 100)
  {
    var s := StepPwm(inc);
    var u := UpPhase(inc);
    var b := Bajada(inc);
    UpWithin(inc);
    BajadaShape(inc);
    assert s[0] == u[0];
    assert s[|s| - 1] == b[|b| - 1];
    forall k | 0 <= k < |s|
      ensures 0 <= s[k] <= 100
    {
      if k < |u| {
        assert s[k] == u[k];
      } else {
        assert s[k] == b[k - |u|];
      }
    }
  }

  /** The rising half starts at 0 and stays within 0..100. */
  lemma UpWithin(inc: int)
    requires 1 <= inc <= 100
    ensures |UpPhase(inc)| > 0 && UpPhase(inc)[0] == 0
    ensures forall k :: 0 <= k < |UpPhase(inc)| ==> 0 <= UpPhase(inc)[k] <= 100
  {
    var u := UpPhase(inc);
    UpShape(inc);
    forall k | 0 <= k < |u|
      ensures 0 <= u[k] <= 100
    {
      MulMono(k, 100 / inc, inc);
    }
  }

  /** The state of the program between commands: `pwm_duty` (the 16-bit
      value last written), `sistema_activo`, `capturing`, `sample_index`
      and `pwm_buffer`, which no code ever clears. */
  datatype Console = Console(
    pwmDuty: nat,
    activo: bool,
    capturing: bool,
    sampleIndex: nat,
    buffer: seq<int>)

  /** The state at start-up (lines 14, 23-32). */
  const Boot: Console := Console(0, true, false, 0, [])

  /** The periodic report of `enviar_datos` is printed: the system is
      active, no capture is running (line 157) and the duty is not 0
      (line 106). */
  predicate Reports(c: Console)
  {
    c.activo && !c.capturing && c.pwmDuty != 0
  }

  /** One capture: the state after it, the percentages passed to
      `set_pwm` in order, and the buffer entries printed as CSV rows. */
  datatype Capture = Capture(next: Console, applied: seq<int>, printed: seq<int>, crashed: bool)

  /** `start_capture(incremento)` as written (lines 54-101). Step k offers
      `chances(k)` samples; a sample is kept while `sample_index` is below
      `max_samples`. The rows printed are read from the front of the
      buffer, which still holds the samples of every earlier capture. */
  function StartCaptureAsWritten(c: Console, inc: int, chances: nat -> nat): (r: Capture)
    requires 1 <= inc <= 100
    ensures r.crashed <==> inc == 100
    ensures r.crashed ==> r.next == c.(capturing := true, sampleIndex := 0) && r.applied == []
  {
    BajadaCrashesAt100(inc);
    var started := c.(capturing := true, sampleIndex := 0);
    match BajadaAsWritten(inc)
    case IndexError => Capture(started, [], [], true)
    case Built(b) =>
      var steps := UpPhase(inc) + b;
      var rows := Cap(Offered(steps, chances), MaxSamples);
      var buffer := c.buffer + rows;
      Capture(
        started.(pwmDuty := SetPwm(steps[|steps| - 1]), sampleIndex := |rows|,
                 buffer := buffer, capturing := false),
        steps, buffer[..|rows|], false)
  }

  /** The capture as intended: it never crashes, and it prints the rows it
      has just recorded. */
  function StartCapture(c: Console, inc: int, chances: nat -> nat): (r: Capture)
    requires 1 <= inc <= 100
    ensures !r.crashed && !r.next.capturing
    ensures r.next.buffer == c.buffer + r.printed
    ensures r.next.sampleIndex == |r.printed|
  {
    var steps := StepPwm(inc);
    var rows := Cap(Offered(steps, chances), MaxSamples);
    var buffer := c.buffer + rows;
    Capture(
      c.(pwmDuty := SetPwm(steps[|steps| - 1]), sampleIndex := |rows|,
         buffer := buffer, capturing := false),
      steps, buffer[|c.buffer|..], false)
  }

  /** The intended capture applies the whole sweep, prints exactly the
      samples of this capture, at most `max_samples` of them and all valid
      percentages, appends them to the buffer, and leaves the motor off
      with the report loop free to run again. */
  lemma PrintsNewRows(c: Console, inc: int, chances: nat -> nat)
    requires 1 <= inc <= 100
    ensures var r := StartCapture(c, inc, chances);
      && r.applied == StepPwm(inc)
      && r.printed == Cap(Offered(StepPwm(inc), chances), MaxSamples)
      && r.next.buffer == c.buffer + r.printed
      && r.next.sampleIndex == |r.printed| <= MaxSamples
      && (forall k :: 0 <= k < |r.printed| ==> 0 <= r.printed[k] <= 100)
      && r.next.pwmDuty == 0 && !r.next.capturing && r.next.activo == c.activo
  {
    var r := StartCapture(c, inc, chances);
    var steps := StepPwm(inc);
    var rows := Cap(Offered(steps, chances), MaxSamples);
    assert (c.buffer + rows)[|c.buffer|..] == rows;
    StepPwmShape(inc);
    OfferedValues(steps, chances);
    forall k | 0 <= k < |rows|
      ensures 0 <= rows[k] <= 100
    {
      var o := Offered(steps, chances);
      assert rows[k] == o[k] && o[k] in steps;
    }
  }

  /** Both versions agree whenever the as-written one does not crash and
      the buffer is still empty, that is, on the first capture. */
  lemma FirstCaptureAgrees(c: Console, inc: int, chances: nat -> nat)
    requires 1 <= inc < 100 && c.buffer == []
    ensures StartCaptureAsWritten(c, inc, chances) == StartCapture(c, inc, chances)
  {
    BajadaAgrees(inc);
    var rows := Cap(Offered(StepPwm(inc), chances), MaxSamples);
    assert (c.buffer + rows)[..|rows|] == (c.buffer + rows)[|c.buffer|..];
  }

  /** As written, the printed rows are the first entries of the whole
      buffer: on any capture after the first they are the previous
      capture's samples, not this one's. */
  lemma StaleRows(c: Console, inc: int, chances: nat -> nat)
    requires 1 <= inc < 100
    ensures var rows := Cap(Offered(StepPwm(inc), chances), MaxSamples);
      StartCaptureAsWritten(c, inc, chances).printed == (c.buffer + rows)[..|rows|]
  {
    BajadaAgrees(inc);
  }

  /** One sample per step. */
  function One(k: nat): nat
  {
    1
  }

  lemma {:induction false} OfferedOnce(duties: seq<int>)
    ensures Offered(duties, One) == duties
    decreases |duties|
  {
    if |duties| > 0 {
      var p := duties[..|duties| - 1];
      OfferedOnce(p);
      assert Rep(duties[|duties| - 1], 1) == [duties[|duties| - 1]];
      assert p + [duties[|duties| - 1]] == duties;
    }
  }

  /** START a then START b with one sample per step: the second capture
      applies b as its second duty but prints a there, the first
      capture's row (with a = 50 and b = 25 it prints 0, 50, ... after
      applying 0, 25, ...). */
  lemma StaleRowsExample(a: int, b: int)
    requires 1 <= a < 100 && 1 <= b < 100
    ensures var first := StartCaptureAsWritten(Boot, a, One);
      var second := StartCaptureAsWritten(first.next, b, One);
      && |second.applied| > 1 && second.applied[1] == b
      && |second.printed| > 1 && second.printed[1] == a
  {
    var sa := StepPwm(a);
    var sb := StepPwm(b);
    SecondStep(a);
    SecondStep(b);
    var first := StartCaptureAsWritten(Boot, a, One);
    OneSamplePerStep(Boot, a);
    assert first.next.buffer == sa;
    OneSamplePerStep(first.next, b);
    var second := StartCaptureAsWritten(first.next, b, One);
    assert second.printed == (sa + sb)[..|sb|];
    assert second.printed[1] == sa[1];
  }

  /** The second duty of a capture is the increment itself. */
  lemma SecondStep(inc: int)
    requires 1 <= inc < 100
    ensures |StepPwm(inc)| > 1 && StepPwm(inc)[1] == inc
    ensures |StepPwm(inc)| <= MaxSamples
  {
    UpShape(inc);
    assert 100 / inc >= 1 by {
      LessFromMul(0, 100 / inc + 1, inc);
    }
    StepPwmLength(inc);
  }

  /** With one sample per step, an as-written capture that does not crash
      records exactly its duties and prints the front of the buffer. */
  lemma OneSamplePerStep(c: Console, inc: int)
    requires 1 <= inc < 100
    ensures var r := StartCaptureAsWritten(c, inc, One);
      && r.applied == StepPwm(inc)
      && r.next.buffer == c.buffer + StepPwm(inc)
      && r.printed == (c.buffer + StepPwm(inc))[..|StepPwm(inc)|]
  {
    BajadaAgrees(inc);
    OfferedOnce(StepPwm(inc));
    StepPwmLength(inc);
  }

  /** A capture applies 2 * (100 / inc) + 1 duties when inc divides 100
      and one more, the added 0, otherwise: at most 201, reached at 1. */
  lemma StepPwmLength(inc: int)
    requires 1 <= inc <= 100
    ensures |StepPwm(inc)| == 2 * (100 / inc) + (if 100 % inc == 0 then 1 else 2)
    ensures |StepPwm(inc)| <= 201
  {
    UpShape(inc);
    BajadaVersusDownPhase(inc);
    DownShape(inc);
    if inc > 1 {
      assert 100 / inc <= 50;
    }
  }

  /** A reply printed for a command line. */
  datatype Reply =
    | Started
    | StartOutOfRange
    | StartInvalid
    | PwmSet
    | PwmOutOfRange
    | PwmInvalid
    | Stopped
    | Ignored
    | Unknown

  /** Python's `s[k:]`: empty when k is past the end. */
  function Tail(s: seq<char>, k: nat): (r: seq<char>)
    ensures k <= |s| ==> r == s[k..]
    ensures k > |s| ==> r == []
  {
    if k <= |s| then s[k..] else []
  }

  /** The state after one command line, the reply, the duties applied and
      the rows printed. */
  datatype Outcome = Outcome(next: Console, reply: Reply, applied: seq<int>, printed: seq<int>)

  /** The START branch (lines 126-134) on the text after "START ". */
  function StartCommand(c: Console, arg: seq<char>, chances: nat -> nat): (o: Outcome)
    ensures o.reply == Started || o.reply == StartOutOfRange || o.reply == StartInvalid
    ensures o.reply != Started ==> o.next == c && o.applied == [] && o.printed == []
  {
    match PyInt(arg)
    case None => Outcome(c, StartInvalid, [], [])
    case Some(v) =>
      if 0 < v <= 100 then
        var r := StartCapture(c, v, chances);
        Outcome(r.next, Started, r.applied, r.printed)
      else Outcome(c, StartOutOfRange, [], [])
  }

  /** The START branch as written: the IndexError of an increment of 100
      escapes `start_capture` and is caught by the bare `except` of lines
      133-134, which answers as for a malformed command and leaves the
      flags `start_capture` had already set. */
  function StartCommandAsWritten(c: Console, arg: seq<char>, chances: nat -> nat): (o: Outcome)
    ensures o.reply == StartInvalid <==> PyInt(arg).None? || PyInt(arg) == Some(100)
    ensures PyInt(arg) == Some(100) ==> o.next == c.(capturing := true, sampleIndex := 0) && o.applied == []
  {
    match PyInt(arg)
    case None => Outcome(c, StartInvalid, [], [])
    case Some(v) =>
      if 0 < v <= 100 then
        var r := StartCaptureAsWritten(c, v, chances);
        if r.crashed then Outcome(r.next, StartInvalid, [], [])
        else Outcome(r.next, Started, r.applied, r.printed)
      else Outcome(c, StartOutOfRange, [], [])
  }

  /** A line that strips to "START 100" is answered "Comando START
      inválido." with `capturing` left set, so the periodic report stays
      off; nothing is applied. */
  lemma StartHundredAnswersInvalid(c: Console, line: seq<char>, chances: nat -> nat)
    requires Strip(line) == "START 100"
    ensures "START" <= Strip(line)
    ensures var o := StartCommandAsWritten(c, Tail(Strip(line), 6), chances);
      && o.reply == StartInvalid && o.next.capturing && !Reports(o.next) && o.applied == []
  {
    var comando := Strip(line);
    var h := Decimal(100);
    assert Tail(comando, 6) == h && "START" <= comando by {
      HundredNumeral();
      assert comando[6..] == "100" && comando[..5] == "START";
    }
    PyIntDecimal(100, [], []);
    assert [] + h + [] == h;
    StartHundredSilences(c, h, chances);
  }

  /** The numeral of 100. */
  lemma HundredNumeral()
    ensures Decimal(100) == "100"
  {
    assert Decimal(100) == Decimal(10) + ['0'];
    assert Decimal(10) == Decimal(1) + ['0'];
  }

  /** An argument that reads as 100 is answered as invalid and leaves the
      report off. */
  lemma StartHundredSilences(c: Console, arg: seq<char>, chances: nat -> nat)
    requires PyInt(arg) == Some(100)
    ensures var o := StartCommandAsWritten(c, arg, chances);
      && o.reply == StartInvalid && o.next.capturing && !Reports(o.next) && o.applied == []
  {
  }

  /** The PWM branch (lines 136-144) on the text after "PWM ". */
  function PwmCommand(c: Console, arg: seq<char>): (o: Outcome)
    ensures o.reply == PwmSet || o.reply == PwmOutOfRange || o.reply == PwmInvalid
    ensures o.next == c.(pwmDuty := o.next.pwmDuty) && o.printed == []
    ensures o.reply != PwmSet ==> o.next == c && o.applied == []
  {
    match PyInt(arg)
    case None => Outcome(c, PwmInvalid, [], [])
    case Some(v) =>
      if 0 <= v <= 100 then Outcome(c.(pwmDuty := SetPwm(v)), PwmSet, [v], [])
      else Outcome(c, PwmOutOfRange, [], [])
  }

  /** One command of the main loop (lines 123-154) with the intended
      capture. The test for START and PWM is case-sensitive; only STOP is
      compared in upper case. */
  function Dispatch(c: Console, line: seq<char>, chances: nat -> nat): (o: Outcome)
    ensures o.printed != [] ==> o.reply == Started
    ensures o.next.activo != c.activo ==> o.reply == Stopped
  {
    var comando := Strip(line);
    if "START" <= comando then StartCommand(c, Tail(comando, 6), chances)
    else if "PWM" <= comando then PwmCommand(c, Tail(comando, 4))
    else if Upper(comando) == "STOP" then
      Outcome(c.(activo := false, pwmDuty := SetPwm(0)), Stopped, [0], [])
    else if comando == [] then Outcome(c, Ignored, [], [])
    else Outcome(c, Unknown, [], [])
  }

  /** Which reply a line gets: START runs a capture exactly when the text
      after "START " reads as an integer in 1..100, PWM sets the duty
      exactly when the text after "PWM " reads as one in 0..100, STOP is
      recognised in any case and switches the motor off, and only the blank
      line is ignored. */
  lemma DispatchReplies(c: Console, line: seq<char>, chances: nat -> nat)
    ensures var comando := Strip(line); var o := Dispatch(c, line, chances);
      var s := PyInt(Tail(comando, 6)); var p := PyInt(Tail(comando, 4));
      && (o.reply == Started <==> "START" <= comando && s.Some? && 0 < s.value <= 100)
      && (o.reply == PwmSet <==> !("START" <= comando) && "PWM" <= comando && p.Some? && 0 <= p.value <= 100)
      && (o.reply == Stopped <==> !("START" <= comando) && !("PWM" <= comando) && Upper(comando) == "STOP")
      && (o.reply == Ignored <==> comando == [])
      && (o.reply == Stopped ==> o.next == c.(activo := false, pwmDuty := 0) && o.applied == [0])
      && (o.reply != Started && o.reply != PwmSet && o.reply != Stopped ==> o.next == c && o.applied == [])
  {
    var comando := Strip(line);
    var o := Dispatch(c, line, chances);
    if "START" <= comando {
      assert o == StartCommand(c, Tail(comando, 6), chances);
      StartCommandReply(c, Tail(comando, 6), chances);
    } else if "PWM" <= comando {
      assert o == PwmCommand(c, Tail(comando, 4));
      PwmCommandReply(c, Tail(comando, 4));
    } else if comando == [] {
      assert Upper(comando) == [];
      assert o == Outcome(c, Ignored, [], []);
    } else if Upper(comando) == "STOP" {
      assert o.reply == Stopped;
    } else {
      assert o == Outcome(c, Unknown, [], []);
    }
  }

  /** The START branch replies Started exactly for a value in 1..100 and
      otherwise changes nothing. */
  lemma StartCommandReply(c: Console, arg: seq<char>, chances: nat -> nat)
    ensures var o := StartCommand(c, arg, chances);
      && (o.reply == Started <==> PyInt(arg).Some? && 0 < PyInt(arg).value <= 100)
      && (o.reply == Started || o.reply == StartOutOfRange || o.reply == StartInvalid)
      && (o.reply != Started ==> o.next == c && o.applied == [])
  {
  }

  /** The PWM branch replies PwmSet exactly for a value in 0..100 and
      otherwise changes nothing. */
  lemma PwmCommandReply(c: Console, arg: seq<char>)
    ensures var o := PwmCommand(c, arg);
      && (o.reply == PwmSet <==> PyInt(arg).Some? && 0 <= PyInt(arg).value <= 100)
      && (o.reply == PwmSet || o.reply == PwmOutOfRange || o.reply == PwmInvalid)
      && (o.reply != PwmSet ==> o.next == c && o.applied == [])
  {
  }

  /** The state between commands: no capture is in progress, the duty is a
      16-bit value, the sample index counts the rows of the last capture and
      the buffer holds valid percentages only. */
  ghost predicate Settled(c: Console)
  {
    && !c.capturing
    && c.pwmDuty <= FullScale
    && c.sampleIndex <= MaxSamples && c.sampleIndex <= |c.buffer|
    && forall k :: 0 <= k < |c.buffer| ==> 0 <= c.buffer[k] <= 100
  }

  /** A START command keeps the state settled and only appends to the
      buffer. */
  lemma StartCommandSettled(c: Console, arg: seq<char>, chances: nat -> nat)
    requires Settled(c)
    ensures var o := StartCommand(c, arg, chances);
      && Settled(o.next) && o.next.activo == c.activo && c.buffer <= o.next.buffer
      && (o.reply != Started ==> o.next == c)
  {
    var o := StartCommand(c, arg, chances);
    if o.reply == Started {
      var v := PyInt(arg).value;
      PrintsNewRows(c, v, chances);
      var n := o.next;
      assert n.buffer == c.buffer + o.printed;
      forall k | 0 <= k < |n.buffer|
        ensures 0 <= n.buffer[k] <= 100
      {
        if k >= |c.buffer| {
          assert n.buffer[k] == o.printed[k - |c.buffer|];
        }
      }
    }
  }

  /** Every command keeps the state settled; a command that is not a
      START leaves the buffer alone, a START only appends to it, and no
      command sets the system active again. */
  lemma DispatchSettled(c: Console, line: seq<char>, chances: nat -> nat)
    requires Settled(c)
    ensures Settled(Dispatch(c, line, chances).next)
    ensures Dispatch(c, line, chances).reply != Started ==> Dispatch(c, line, chances).next.buffer == c.buffer
    ensures c.buffer <= Dispatch(c, line, chances).next.buffer
    ensures Dispatch(c, line, chances).next.activo ==> c.activo
  {
    var comando := Strip(line);
    var o := Dispatch(c, line, chances);
    if "START" <= comando {
      StartCommandSettled(c, Tail(comando, 6), chances);
    } else if "PWM" <= comando {
      PwmCommandSettled(c, Tail(comando, 4));
    } else {
      assert o.next == c || o.next == c.(activo := false, pwmDuty := SetPwm(0));
    }
  }

  /** A PWM command changes at most the duty, to a 16-bit value. */
  lemma PwmCommandSettled(c: Console, arg: seq<char>)
    requires Settled(c)
    ensures var o := PwmCommand(c, arg);
      Settled(o.next) && o.reply != Started && o.next.buffer == c.buffer && o.next.activo == c.activo
  {
  }

  /** A stripped line that begins with PWM and carries a value in range
      sets the duty. */
  lemma DispatchPwmLine(c: Console, line: seq<char>, v: int, chances: nat -> nat)
    requires Strip(line) == line && !("START" <= line) && "PWM" <= line
    requires PyInt(Tail(line, 4)) == Some(v) && 0 <= v <= 100
    ensures Dispatch(c, line, chances) == Outcome(c.(pwmDuty := SetPwm(v)), PwmSet, [v], [])
  {
  }

  /** `PWM <v>` as typed sets the 16-bit duty of v. */
  lemma PwmSetsDuty(c: Console, v: nat, chances: nat -> nat)
    requires v <= 100
    ensures var o := Dispatch(c, "PWM " + Decimal(v), chances);
      o.reply == PwmSet && o.next == c.(pwmDuty := DutyU16(v)) && o.applied == [v]
  {
    PwmLineStripped(v);
    PwmLinePrefix(v);
    PwmLineValue(v);
    DispatchPwmLine(c, "PWM " + Decimal(v), v, chances);
  }

  lemma PwmLineStripped(v: nat)
    ensures Strip("PWM " + Decimal(v)) == "PWM " + Decimal(v)
  {
    var d := Decimal(v);
    var line := "PWM " + d;
    assert IsDigit(d[|d| - 1]) && line[0] == 'P' && line[|line| - 1] == d[|d| - 1];
    StripFixed(line);
  }

  lemma PwmLinePrefix(v: nat)
    ensures "PWM" <= "PWM " + Decimal(v) && !("START" <= "PWM " + Decimal(v))
  {
    var line := "PWM " + Decimal(v);
    assert line[..3] == "PWM" && line[0] == 'P';
  }

  lemma PwmLineValue(v: nat)
    ensures PyInt(Tail("PWM " + Decimal(v), 4)) == Some(v)
  {
    var d := Decimal(v);
    assert Tail("PWM " + d, 4) == d;
    PyIntDecimal(v, [], []);
    assert [] + d + [] == d;
  }

  /** The state after a sequence of command lines; the k-th line's capture
      sees `chances(k)`. */
  function Run(c: Console, lines: seq<seq<char>>, chances: nat -> nat -> nat): Console
    decreases |lines|
  {
    if |lines| == 0 then c
    else Run(Dispatch(c, lines[0], chances(0)).next, lines[1..], (k: nat) => chances(k + 1))
  }

  /** From start-up, the state stays settled whatever is typed, and once
      stopped the system never becomes active again. */
  lemma {:induction false} RunSettled(c: Console, lines: seq<seq<char>>, chances: nat -> nat -> nat)
    requires Settled(c)
    ensures Settled(Run(c, lines, chances))
    ensures !c.activo ==> !Run(c, lines, chances).activo
    decreases |lines|
  {
    if |lines| > 0 {
      DispatchSettled(c, lines[0], chances(0));
      RunSettled(Dispatch(c, lines[0], chances(0)).next, lines[1..], (k: nat) => chances(k + 1));
    }
  }

  /** The buffer only grows: the rows of earlier captures stay at its
      front. */
  lemma {:induction false} BufferGrows(c: Console, lines: seq<seq<char>>, chances: nat -> nat -> nat)
    requires Settled(c)
    ensures c.buffer <= Run(c, lines, chances).buffer
    decreases |lines|
  {
    if |lines| > 0 {
      var o := Dispatch(c, lines[0], chances(0));
      DispatchSettled(c, lines[0], chances(0));
      BufferGrows(o.next, lines[1..], (k: nat) => chances(k + 1));
    }
  }

  /** As written, START 100 is reported as an invalid command (the except
      clause of lines 133-134 catches the IndexError) and leaves
      `capturing` set: the periodic report stays off until a later capture
      completes. */
  lemma CrashSilencesReports(c: Console, chances: nat -> nat)
    ensures var r := StartCaptureAsWritten(c, 100, chances);
      r.crashed && r.next.capturing && !Reports(r.next) && r.applied == []
  {
  }
}
