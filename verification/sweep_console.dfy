/** The console of Laboratorio2/programa3mp_dox.py: commands are stripped
    and upper-cased, START runs the up/down sweep after a range check, PWM
    sets a duty, STOP switches the motor off. Encoder pulses, the RPM and
    speed figures and the 500 ms reporting are not modelled. */
module SweepConsole {
  import opened Text
  import opened Sweep

  /** The globals `pwm_actual`, `sistema_activo` and `capturando`. */
  datatype Console = Console(pwmActual: int, activo: bool, capturando: bool)

  /** The state at start-up (lines 33-35). */
  const Boot: Console := Console(0, true, false)

  /** A command and the duties it passes to `set_pwm`, in order. */
  datatype Outcome = Outcome(next: Console, applied: seq<int>)

  /** `start_capture(incremento_pwm)` (lines 91-131): an increment outside
      1..100 is rejected before anything changes; otherwise the whole sweep
      runs, the motor is switched off and `capturando` is cleared again. */
  function StartCapture(c: Console, inc: int): (r: Outcome)
    ensures !(1 <= inc <= 100) <==> r.applied == []
    ensures !(1 <= inc <= 100) ==> r.next == c
    ensures 1 <= inc <= 100 ==>
      && r.applied == Sequence(inc) + [0]
      && r.next == c.(pwmActual := 0, capturando := false)
  {
    if inc <= 0 || inc > 100 then Outcome(c, [])
    else Outcome(c.(pwmActual := 0, capturando := false), Sequence(inc) + [0])
  }

  /** A command line as the main loop reads it (lines 139-166). */
  datatype Command =
    | Start(inc: nat)
    | StartInvalid
    | Pwm(val: nat)
    | PwmOutOfRange
    | PwmInvalid
    | Stop
    | Unknown

  /** The text of the line after `strip().upper()`. */
  function Normal(line: seq<char>): (r: seq<char>)
    ensures |r| <= |line|
    ensures |r| > 0 ==> !IsSpace(r[0]) && !IsSpace(r[|r| - 1])
    ensures forall i :: 0 <= i < |r| ==> !('a' <= r[i] <= 'z')
  {
    var t := Strip(line);
    assert |t| <= |line| && (|t| > 0 ==> !IsSpace(t[0]) && !IsSpace(t[|t| - 1])) by {
      StripShape(line);
    }
    UpperEnds(t);
    Upper(t)
  }

  /** The line, once normalised, splits into exactly a word and an
      all-digit number: the shape lines 142 and 150 demand. */
  predicate WordAndNumber(line: seq<char>)
  {
    var partes := Split(Normal(line));
    |partes| == 2 && IsDigits(partes[1])
  }

  /** The number of a line with that shape. */
  function Number(line: seq<char>): nat
    requires WordAndNumber(line)
  {
    DigitsValue(Split(Normal(line))[1])
  }

  /** How the main loop (lines 139-166) reads a line: the command word is
      tested by prefix on the normalised line, START and PWM then need
      exactly one further token made of digits, and PWM also a value of at
      most 100. */
  function Parse(line: seq<char>): (r: Command)
    ensures r.Start? || r == StartInvalid <==> "START" <= Normal(line)
    ensures r.Pwm? || r == PwmOutOfRange || r == PwmInvalid <==> !("START" <= Normal(line)) && "PWM" <= Normal(line)
    ensures r.Start? <==> "START" <= Normal(line) && WordAndNumber(line)
    ensures r.Start? ==> r.inc == Number(line)
    ensures r.Pwm? <==> !("START" <= Normal(line)) && "PWM" <= Normal(line) && WordAndNumber(line) && Number(line) <= 100
    ensures r.Pwm? ==> r.val == Number(line)
    ensures r == PwmOutOfRange <==> !("START" <= Normal(line)) && "PWM" <= Normal(line) && WordAndNumber(line) && Number(line) > 100
    ensures r == Stop <==> Normal(line) == "STOP"
  {
    var c := Normal(line);
    if "START" <= c then
      var partes := Split(c);
      if |partes| == 2 && IsDigits(partes[1]) then Start(DigitsValue(partes[1])) else StartInvalid
    else if "PWM" <= c then
      var partes := Split(c);
      if |partes| == 2 && IsDigits(partes[1]) then
        var v := DigitsValue(partes[1]);
        if v <= 100 then Pwm(v) else PwmOutOfRange
      else PwmInvalid
    else if c == "STOP" then Stop
    else Unknown
  }

  /** One command of the main loop. The loop never exits: STOP only clears
      `sistema_activo`, which silences the periodic report. */
  function Step(c: Console, line: seq<char>): (r: Outcome)
    ensures Parse(line).Start? ==> r == StartCapture(c, Parse(line).inc)
    ensures Parse(line).Pwm? ==> r == Outcome(c.(pwmActual := Parse(line).val), [Parse(line).val])
    ensures Parse(line) == Stop ==> r == Outcome(c.(pwmActual := 0, activo := false), [0])
    ensures !Parse(line).Start? && !Parse(line).Pwm? && Parse(line) != Stop ==> r == Outcome(c, [])
  {
    match Parse(line)
    case Start(inc) => StartCapture(c, inc)
    case Pwm(v) => Outcome(c.(pwmActual := v), [v])
    case Stop => Outcome(c.(pwmActual := 0, activo := false), [0])
    case _ => Outcome(c, [])
  }

  /** The state after a sequence of command lines. */
  function Run(c: Console, lines: seq<seq<char>>): Console
    decreases |lines|
  {
    if |lines| == 0 then c else Run(Step(c, lines[0]).next, lines[1..])
  }

  /** Between commands the duty is a valid percentage and no capture is in
      progress, from start-up on. */
  ghost predicate Settled(c: Console)
  {
    0 <= c.pwmActual <= 100 && !c.capturando
  }

  lemma {:induction false} RunSettled(c: Console, lines: seq<seq<char>>)
    requires Settled(c)
    ensures Settled(Run(c, lines))
    decreases |lines|
  {
    if |lines| > 0 {
      RunSettled(Step(c, lines[0]).next, lines[1..]);
    }
  }

  /** Once stopped, the console stays stopped: no command sets
      `sistema_activo` again. */
  lemma {:induction false} StaysStopped(c: Console, lines: seq<seq<char>>)
    requires !c.activo
    ensures !Run(c, lines).activo
    decreases |lines|
  {
    if |lines| > 0 {
      StaysStopped(Step(c, lines[0]).next, lines[1..]);
    }
  }

  /** A command of two words as a person types it: blanks, a command
      word, at least one blank, an argument, blanks. */
  predicate Typed(pre: seq<char>, w: seq<char>, mid: seq<char>, x: seq<char>, post: seq<char>)
  {
    Blank(pre) && IsToken(w) && |mid| > 0 && Blank(mid) && IsToken(x) && Blank(post)
  }

  /** Any two-word line whose word starts with START in any case starts a
      sweep exactly when the argument is all digits, with their value
      (" start  030 " starts one of 30); otherwise it is invalid ("START -5",
      "START 3x"). */
  lemma ParseStart(pre: seq<char>, w: seq<char>, mid: seq<char>, x: seq<char>, post: seq<char>)
    requires Typed(pre, w, mid, x, post) && "START" <= Upper(w)
    ensures IsDigits(x) ==> Parse(pre + w + mid + x + post) == Start(DigitsValue(x))
    ensures !IsDigits(x) ==> Parse(pre + w + mid + x + post) == StartInvalid
  {
    TypedNormal(pre, w, mid, x, post);
    UpperToken(x);
    StartShape(pre + w + mid + x + post, Upper(w), Upper(x));
  }

  /** The same for PWM: digits up to 100 set the duty, a larger number is
      out of range, anything else is invalid. */
  lemma ParsePwm(pre: seq<char>, w: seq<char>, mid: seq<char>, x: seq<char>, post: seq<char>)
    requires Typed(pre, w, mid, x, post) && "PWM" <= Upper(w)
    ensures IsDigits(x) && DigitsValue(x) <= 100 ==> Parse(pre + w + mid + x + post) == Pwm(DigitsValue(x))
    ensures IsDigits(x) && DigitsValue(x) > 100 ==> Parse(pre + w + mid + x + post) == PwmOutOfRange
    ensures !IsDigits(x) ==> Parse(pre + w + mid + x + post) == PwmInvalid
  {
    TypedNormal(pre, w, mid, x, post);
    UpperToken(x);
    PwmShape(pre + w + mid + x + post, Upper(w), Upper(x));
  }

  /** A START or PWM word followed by two arguments is invalid, whatever
      they are: "START 30 40" starts nothing. */
  lemma ParseThreeWords(pre: seq<char>, w: seq<char>, m1: seq<char>, x: seq<char>, m2: seq<char>, y: seq<char>, post: seq<char>)
    requires Typed(pre, w, m1, x, []) && IsToken(y) && |m2| > 0 && Blank(m2) && Blank(post)
    ensures "START" <= Upper(w) ==> Parse(pre + w + m1 + x + m2 + y + post) == StartInvalid
    ensures "PWM" <= Upper(w) ==> Parse(pre + w + m1 + x + m2 + y + post) == PwmInvalid
  {
    var line := pre + w + m1 + x + m2 + y + post;
    ThreeNormal(pre, w, m1, x, m2, y, post);
    if "START" <= Upper(w) {
      StartPrefix(Normal(line), Upper(w));
    } else if "PWM" <= Upper(w) {
      PwmPrefix(Normal(line), Upper(w));
    }
  }

  /** Parse on a line whose normal form begins with a START word and
      splits into that word and one argument. */
  lemma StartShape(line: seq<char>, u: seq<char>, x: seq<char>)
    requires Split(Normal(line)) == [u, x]
    requires "START" <= u && u <= Normal(line)
    ensures IsDigits(x) ==> Parse(line) == Start(DigitsValue(x))
    ensures !IsDigits(x) ==> Parse(line) == StartInvalid
  {
    StartPrefix(Normal(line), u);
  }

  /** The same for a PWM word. */
  lemma PwmShape(line: seq<char>, u: seq<char>, x: seq<char>)
    requires Split(Normal(line)) == [u, x]
    requires "PWM" <= u && u <= Normal(line)
    ensures IsDigits(x) && DigitsValue(x) <= 100 ==> Parse(line) == Pwm(DigitsValue(x))
    ensures IsDigits(x) && DigitsValue(x) > 100 ==> Parse(line) == PwmOutOfRange
    ensures !IsDigits(x) ==> Parse(line) == PwmInvalid
  {
    PwmPrefix(Normal(line), u);
    if IsDigits(x) {
      assert WordAndNumber(line) && Number(line) == DigitsValue(x);
    } else {
      assert !WordAndNumber(line);
    }
  }

  lemma StartPrefix(n: seq<char>, u: seq<char>)
    requires "START" <= u && u <= n
    ensures "START" <= n
  {
    assert n[..5] == u[..5];
  }

  /** A text beginning with a PWM word begins with PWM and not START. */
  lemma PwmPrefix(n: seq<char>, u: seq<char>)
    requires "PWM" <= u && u <= n
    ensures "PWM" <= n && !("START" <= n)
  {
    assert n[0] == u[0] == 'P';
    assert n[..3] == u[..3];
  }

  /** A two-word line normalises to its upper-cased words with the blanks
      between them, and splits into those two words. */
  lemma TypedNormal(pre: seq<char>, w: seq<char>, mid: seq<char>, x: seq<char>, post: seq<char>)
    requires Typed(pre, w, mid, x, post)
    ensures Normal(pre + w + mid + x + post) == Upper(w) + mid + Upper(x)
    ensures Split(Normal(pre + w + mid + x + post)) == [Upper(w), Upper(x)]
    ensures Upper(w) <= Normal(pre + w + mid + x + post)
  {
    var line := pre + w + mid + x + post;
    var n := Upper(w) + mid + Upper(x);
    StripTwo(pre, w, mid, x, post);
    UpperTwo(w, mid, x);
    assert Normal(line) == n;
    SplitTwoWords(w, mid, x);
    FrontTwo(w, mid, x);
  }

  lemma StripTwo(pre: seq<char>, w: seq<char>, mid: seq<char>, x: seq<char>, post: seq<char>)
    requires Typed(pre, w, mid, x, post)
    ensures Strip(pre + w + mid + x + post) == w + mid + x
  {
    assert pre + w + mid + x + post == pre + w + (mid + x) + post;
    assert (mid + x)[|mid + x| - 1] == x[|x| - 1];
    StripWords(pre, w, mid + x, post);
  }

  lemma SplitTwoWords(w: seq<char>, mid: seq<char>, x: seq<char>)
    requires IsToken(w) && |mid| > 0 && Blank(mid) && IsToken(x)
    ensures Split(Upper(w) + mid + Upper(x)) == [Upper(w), Upper(x)]
  {
    UpperToken(w);
    UpperToken(x);
    SplitTwo(Upper(w), mid, Upper(x));
  }

  lemma FrontTwo(w: seq<char>, mid: seq<char>, x: seq<char>)
    ensures Upper(w) <= Upper(w) + mid + Upper(x)
  {
    FrontWord(Upper(w), mid + Upper(x));
    assert Upper(w) + mid + Upper(x) == Upper(w) + (mid + Upper(x));
  }

  /** Blanks around text that begins with a token w and ends in a
      non-blank are what strip removes. */
  lemma StripWords(pre: seq<char>, w: seq<char>, between: seq<char>, post: seq<char>)
    requires Blank(pre) && IsToken(w) && Blank(post)
    requires |between| > 0 && !IsSpace(between[|between| - 1])
    ensures Strip(pre + w + between + post) == w + between
  {
    var core := w + between;
    assert pre + w + between + post == pre + core + post;
    assert core[0] == w[0] && core[|core| - 1] == between[|between| - 1];
    StripAround(pre, core, post);
  }

  lemma UpperTwo(w: seq<char>, mid: seq<char>, x: seq<char>)
    requires Blank(mid)
    ensures Upper(w + mid + x) == Upper(w) + mid + Upper(x)
  {
    UpperConcat(w + mid, x);
    UpperConcat(w, mid);
    UpperBlank(mid);
  }

  lemma FrontWord(u: seq<char>, rest: seq<char>)
    ensures u <= u + rest
  {
    assert (u + rest)[..|u|] == u;
  }

  /** A three-word line splits into its three upper-cased words. */
  lemma ThreeNormal(pre: seq<char>, w: seq<char>, m1: seq<char>, x: seq<char>, m2: seq<char>, y: seq<char>, post: seq<char>)
    requires Typed(pre, w, m1, x, []) && IsToken(y) && |m2| > 0 && Blank(m2) && Blank(post)
    ensures |Split(Normal(pre + w + m1 + x + m2 + y + post))| == 3
    ensures Split(Normal(pre + w + m1 + x + m2 + y + post))[0] == Upper(w)
    ensures Upper(w) <= Normal(pre + w + m1 + x + m2 + y + post)
  {
    var line := pre + w + m1 + x + m2 + y + post;
    var n := Upper(w) + m1 + Upper(x) + m2 + Upper(y);
    StripThree(pre, w, m1, x, m2, y, post);
    UpperThree(w, m1, x, m2, y);
    assert Normal(line) == n;
    SplitThreeWords(w, m1, x, m2, y);
    FrontThree(Upper(w), m1, Upper(x), m2, Upper(y));
  }

  lemma StripThree(pre: seq<char>, w: seq<char>, m1: seq<char>, x: seq<char>, m2: seq<char>, y: seq<char>, post: seq<char>)
    requires Blank(pre) && IsToken(w) && IsToken(y) && Blank(post)
    ensures Strip(pre + w + m1 + x + m2 + y + post) == w + m1 + x + m2 + y
  {
    var core := w + m1 + x + m2 + y;
    assert pre + w + m1 + x + m2 + y + post == pre + core + post;
    assert core[0] == w[0] && core[|core| - 1] == y[|y| - 1];
    StripAround(pre, core, post);
  }

  lemma SplitThreeWords(w: seq<char>, m1: seq<char>, x: seq<char>, m2: seq<char>, y: seq<char>)
    requires IsToken(w) && IsToken(x) && IsToken(y)
    requires |m1| > 0 && Blank(m1) && |m2| > 0 && Blank(m2)
    ensures Split(Upper(w) + m1 + Upper(x) + m2 + Upper(y)) == [Upper(w), Upper(x), Upper(y)]
  {
    UpperToken(w);
    UpperToken(x);
    UpperToken(y);
    SplitThree(Upper(w), m1, Upper(x), m2, Upper(y));
  }

  lemma FrontThree(u: seq<char>, m1: seq<char>, x: seq<char>, m2: seq<char>, y: seq<char>)
    ensures u <= u + m1 + x + m2 + y
  {
    FrontWord(u, m1 + x + m2 + y);
    Assoc5(u, m1, x, m2, y);
  }

  lemma UpperThree(w: seq<char>, m1: seq<char>, x: seq<char>, m2: seq<char>, y: seq<char>)
    requires Blank(m1) && Blank(m2)
    ensures Upper(w + m1 + x + m2 + y) == Upper(w) + m1 + Upper(x) + m2 + Upper(y)
  {
    UpperConcat(w + m1 + x + m2, y);
    UpperConcat(w + m1 + x, m2);
    UpperTwo(w, m1, x);
    UpperBlank(m2);
  }

  /** The lines of the examples above, as typed. */
  lemma StartPadded()
    ensures Parse(" start  030 ") == Start(30)
  {
    var d := "030";
    assert DigitsValue(d) == 30 by {
      DigitsSnoc("0", '3');
      DigitsSnoc("03", '0');
      assert "0" + ['3'] == "03" && "03" + ['0'] == d;
    }
    assert " start  030 " == " " + "start" + "  " + d + " ";
    ParseStart(" ", "start", "  ", d, " ");
  }

  lemma StartNegative()
    ensures Parse("START -5") == StartInvalid
  {
    var x := "-5";
    assert !IsDigit(x[0]);
    assert "START -5" == [] + "START" + " " + x + [];
    ParseStart([], "START", " ", x, []);
  }

  lemma StartStray()
    ensures Parse("START 3x") == StartInvalid
  {
    var x := "3x";
    assert !IsDigit(x[1]);
    assert "START 3x" == [] + "START" + " " + x + [];
    ParseStart([], "START", " ", x, []);
  }

  lemma StartTwoNumbers()
    ensures Parse("START 30 40") == StartInvalid
  {
    var w, x, y: seq<char> := "START", "30", "40";
    var b: seq<char> := " ";
    assert Typed([], w, b, x, []) && IsToken(y) && Blank(b);
    assert "START" <= Upper(w) by {
      UpperFixed(w);
    }
    assert "START 30 40" == [] + w + b + x + b + y + [];
    ParseThreeWords([], w, b, x, b, y, []);
  }

  lemma PwmTooLarge()
    ensures Parse("PWM 101") == PwmOutOfRange
  {
    var d := "101";
    assert DigitsValue(d) == 101 by {
      DigitsSnoc("1", '0');
      DigitsSnoc("10", '1');
      assert "1" + ['0'] == "10" && "10" + ['1'] == d;
    }
    assert "PWM 101" == [] + "PWM" + " " + d + [];
    ParsePwm([], "PWM", " ", d, []);
  }

  /** A word without lower-case letters is its own upper case. */
  lemma UpperFixed(w: seq<char>)
    requires forall i :: 0 <= i < |w| ==> !('a' <= w[i] <= 'z')
    ensures Upper(w) == w
  {
  }

  /** A line whose normal form is STOP parses as Stop. */
  lemma ParseStopLine(line: seq<char>)
    requires Normal(line) == "STOP"
    ensures Parse(line) == Stop
  {
    var c := Normal(line);
    assert !("START" <= c) by {
      assert c[2] != "START"[2];
    }
    assert !("PWM" <= c) by {
      assert c[0] != "PWM"[0];
    }
  }

  /** Text without surrounding blanks or lower-case letters is its own
      normal form. */
  lemma NormalFixed(w: seq<char>)
    requires |w| > 0 ==> !IsSpace(w[0]) && !IsSpace(w[|w| - 1])
    requires forall i :: 0 <= i < |w| ==> !('a' <= w[i] <= 'z')
    ensures Normal(w) == w
  {
    StripFixed(w);
    UpperFixed(w);
  }

  lemma StopParses()
    ensures Parse("STOP") == Stop
  {
    var w: seq<char> := "STOP";
    NormalFixed(w);
    ParseStopLine(w);
  }

  /** STOP does not end the loop: a PWM command after it still drives the
      motor, although the periodic report stays off. */
  lemma CommandsAfterStop(c: Console, stop: seq<char>, pre: seq<char>, w: seq<char>, mid: seq<char>, d: seq<char>, post: seq<char>)
    requires Normal(stop) == "STOP"
    requires Typed(pre, w, mid, d, post) && "PWM" <= Upper(w) && IsDigits(d) && DigitsValue(d) <= 100
    ensures Run(c, [stop, pre + w + mid + d + post]).pwmActual == DigitsValue(d)
    ensures !Run(c, [stop, pre + w + mid + d + post]).activo
  {
    var pwm := pre + w + mid + d + post;
    ParseStopLine(stop);
    ParsePwm(pre, w, mid, d, post);
    var lines := [stop, pwm];
    var c1 := Step(c, stop).next;
    assert lines[1..] == [pwm];
    assert Run(c, lines) == Run(c1, [pwm]);
    assert Run(c1, [pwm]) == Run(Step(c1, pwm).next, []);
  }

  /** An increment of 0 is read as a number but rejected by the range
      check, leaving the console as it was. */
  lemma StartZeroRejected(c: Console, pre: seq<char>, w: seq<char>, mid: seq<char>, d: seq<char>, post: seq<char>)
    requires Typed(pre, w, mid, d, post) && "START" <= Upper(w) && IsDigits(d) && DigitsValue(d) == 0
    ensures Step(c, pre + w + mid + d + post) == Outcome(c, [])
  {
    ParseStart(pre, w, mid, d, post);
  }
}
