/** The command loop of the motor test rig in Laboratorio3/codigo4v5.c: the
    measurement mode chosen at start-up, the START/PWM/STOP commands, the
    up/down reaction sweep, the bounded sample buffer and the pulse counter
    of the rising-edge interrupt. Time is not modelled: how many 4 ms
    sampling chances a step of the sweep offers is a parameter. */
module MotorRig {
  import opened Options
  import opened Text
  import opened Sweep
  import opened Sampling

  /** `MAX_MUESTRAS`: capacity of the sample buffers. */
  const MaxSamples: nat := 5000

  /** `SENSOR_PIN`: the encoder input. */
  const SensorPin: nat := 10

  /** 2^32: `uint32_t` arithmetic wraps modulo this. */
  const U32: nat := 0x1_0000_0000

  /** The sampling loop of one sweep step (lines 154-166, 173-185): at each
      chance a sample of the current duty is recorded while `idx` is below
      MAX_MUESTRAS. The buffer `buf` is `pwmBuffer[0..idx)`. */
  method SampleStep(buf: seq<int>, duty: int, chances: nat, ghost offered: seq<int>)
    returns (buf': seq<int>)
    requires buf == Cap(offered, MaxSamples)
    ensures buf' == Cap(offered + Rep(duty, chances), MaxSamples)
    ensures |buf'| <= MaxSamples
  {
    buf' := buf;
    var c := 0;
    while c < chances
      invariant 0 <= c <= chances
      invariant buf' == Cap(offered + Rep(duty, c), MaxSamples)
    {
      CapSnoc(offered + Rep(duty, c), buf', duty, MaxSamples);
      assert offered + Rep(duty, c) + [duty] == offered + Rep(duty, c + 1);
      if |buf'| < MaxSamples {
        buf' := buf' + [duty];
      }
      c := c + 1;
    }
  }

  /** `captura_reaccion(paso)` (lines 140-191): the duties passed to
      `set_pwm_duty` in order, ending with the final 0, and the duties
      recorded in `pwmBuffer[0..idx)`. `chances(k)` is the number of 4 ms
      sampling chances during the k-th step. */
  method ReactionSweep(paso: int, chances: nat -> nat) returns (applied: seq<int>, samples: seq<int>)
    requires 0 < paso <= 100
    ensures applied == Sequence(paso) + [0]
    ensures samples == Cap(Offered(Sequence(paso), chances), MaxSamples)
    ensures |samples| <= MaxSamples
    ensures forall i :: 0 <= i < |samples| ==> 0 <= samples[i] <= 100
  {
    var up, upSamples := RisingSteps(paso, chances);
    var swept;
    swept, samples := FallingSteps(paso, chances, up, upSamples);
    applied := swept + [0];
    SequenceShape(paso);
    OfferedValues(Sequence(paso), chances);
    forall i | 0 <= i < |samples|
      ensures 0 <= samples[i] <= 100
    {
      var o := Offered(Sequence(paso), chances);
      assert samples[i] == o[i] && o[i] in Sequence(paso);
    }
  }

  /** The first loop of `captura_reaccion` (lines 149-167): duties 0, paso,
      2*paso, ... while at most 100. */
  method RisingSteps(paso: int, chances: nat -> nat) returns (applied: seq<int>, samples: seq<int>)
    requires 0 < paso <= 100
    ensures applied == UpPhase(paso)
    ensures samples == Cap(Offered(applied, chances), MaxSamples)
  {
    applied := [];
    samples := [];
    var i := 0;
    var pwm := 0;
    while pwm <= 100
      invariant 0 <= i && pwm == i * paso
      invariant applied + PyRange(pwm, 101, paso) == UpPhase(paso)
      invariant samples == Cap(Offered(applied, chances), MaxSamples)
      decreases 101 - pwm
    {
      if pwm > 100 {
        break;
      }
      var next := pwm + paso;
      samples := SampleStep(samples, pwm, chances(|applied|), Offered(applied, chances));
      OfferedSnoc(applied, pwm, chances);
      assert PyRange(pwm, 101, paso) == [pwm] + PyRange(next, 101, paso);
      MoveFront(applied, pwm, PyRange(next, 101, paso), UpPhase(paso));
      applied := applied + [pwm];
      i := i + 1;
      pwm := i * paso;
      assert pwm == next by {
        assert i * paso == (i - 1) * paso + paso;
      }
    }
  }

  /** The second loop of `captura_reaccion` (lines 169-186): duties
      100 - paso, 100 - 2*paso, ... while not below 0. */
  method FallingSteps(paso: int, chances: nat -> nat, up: seq<int>, upSamples: seq<int>)
    returns (applied: seq<int>, samples: seq<int>)
    requires 0 < paso <= 100
    requires up == UpPhase(paso) && upSamples == Cap(Offered(up, chances), MaxSamples)
    ensures applied == Sequence(paso)
    ensures samples == Cap(Offered(applied, chances), MaxSamples)
  {
    applied, samples := up, upSamples;
    var j := 100 - paso;
    while j >= 0
      invariant -paso <= j <= 100 - paso
      invariant applied + PyRange(j, -1, -paso) == Sequence(paso)
      invariant samples == Cap(Offered(applied, chances), MaxSamples)
      decreases j + paso
    {
      var rest := PyRange(j - paso, -1, -paso);
      assert PyRange(j, -1, -paso) == [j] + rest;
      samples := SampleStep(samples, j, chances(|applied|), Offered(applied, chances));
      OfferedSnoc(applied, j, chances);
      MoveFront(applied, j, rest, Sequence(paso));
      applied := applied + [j];
      j := j - paso;
    }
  }

  /** `captura_por_15s(val)` (lines 108-138): `val` is applied, samples of
      it are recorded at each 4 ms chance until the 15 s window closes or
      the buffer is full, then the motor is switched off. */
  method FixedCapture(val: int, chances: nat) returns (applied: seq<int>, samples: seq<int>)
    ensures applied == [val, 0]
    ensures samples == Rep(val, Min(chances, MaxSamples))
  {
    samples := [];
    var k := 0;
    while k < chances && |samples| < MaxSamples
      invariant 0 <= k <= chances
      invariant samples == Rep(val, k) && k <= MaxSamples
    {
      samples := samples + [val];
      k := k + 1;
    }
    applied := [val, 0];
  }

  /** What `fgets(buf, size, stdin)` may return on the pending input: a
      prefix of at most size - 1 characters with no newline before its
      last one, which stops short of both the size and the end of input
      only right after a newline. */
  predicate ReadsLine(input: seq<char>, size: nat, q: seq<char>)
  {
    && q <= input && |q| <= size - 1
    && (forall i :: 0 <= i < |q| - 1 ==> q[i] != '\n')
    && (|q| < size - 1 && |q| < |input| ==> |q| > 0 && q[|q| - 1] == '\n')
  }

  /** `fgets` on the pending input: characters up to and including the
      first newline, at most size - 1 of them, fewer only at the end of
      input. */
  function Fgets(input: seq<char>, size: nat): (r: seq<char>)
    requires size >= 1
    ensures r <= input && |r| <= size - 1
    ensures forall i :: 0 <= i < |r| - 1 ==> r[i] != '\n'
    ensures |r| < size - 1 && |r| < |input| ==> |r| > 0 && r[|r| - 1] == '\n'
    decreases size
  {
    if |input| == 0 || size == 1 then []
    else if input[0] == '\n' then ['\n']
    else [input[0]] + Fgets(input[1..], size - 1)
  }

  /** The three conditions pin the line down: any text that meets them is
      what `fgets` returns. */
  lemma FgetsUnique(input: seq<char>, size: nat, q: seq<char>)
    requires size >= 1 && ReadsLine(input, size, q)
    ensures q == Fgets(input, size)
  {
    var r := Fgets(input, size);
    SameLength(input, size, q, r);
    assert q == input[..|q|] && r == input[..|r|];
  }

  /** Two candidate lines have the same length: the shorter would end in
      a newline that the longer holds before its end. */
  lemma SameLength(input: seq<char>, size: nat, q: seq<char>, r: seq<char>)
    requires ReadsLine(input, size, q) && ReadsLine(input, size, r)
    ensures |q| == |r|
  {
    if |q| < |r| {
      NewlineAt(input, q, r);
    } else if |r| < |q| {
      NewlineAt(input, r, q);
    }
  }

  /** Two prefixes of the input agree where both are defined. */
  lemma NewlineAt(input: seq<char>, short: seq<char>, long: seq<char>)
    requires short <= input && long <= input && 0 < |short| < |long|
    ensures long[|short| - 1] == short[|short| - 1]
  {
  }

  /** `fgets` reads nothing beyond its size: the input past the first
      size - 1 characters does not change what it returns. */
  lemma FgetsWindow(input: seq<char>, size: nat, k: nat)
    requires size >= 1 && size - 1 <= k <= |input|
    ensures Fgets(input[..k], size) == Fgets(input, size)
  {
    var r := Fgets(input, size);
    assert r <= input[..k] by {
      assert input[..k][..|r|] == input[..|r|];
    }
    FgetsUnique(input[..k], size, r);
  }

  /** The measurement mode read at start-up (lines 237-239): `atoi` of at
      most three characters, forced to 0 outside 0..2. */
  function MeasurementMode(input: seq<char>): (modo: int)
    ensures 0 <= modo <= 2
    ensures 0 <= Atoi(Fgets(input, 4)) <= 2 ==> modo == Atoi(Fgets(input, 4))
    ensures !(0 <= Atoi(Fgets(input, 4)) <= 2) ==> modo == 0
  {
    var m := Atoi(Fgets(input, 4));
    if m < 0 || m > 2 then 0 else m
  }

  /** The mode depends on the first three characters only: a long first
      line is cut at the buffer of 4. */
  lemma ModeWindow(input: seq<char>)
    requires |input| >= 3
    ensures MeasurementMode(input) == MeasurementMode(input[..3])
  {
    FgetsWindow(input, 4, 3);
  }

  /** Typing a mode digit and Enter selects that mode. */
  lemma ModeTyped(m: nat, rest: seq<char>)
    requires m <= 2
    ensures MeasurementMode(Decimal(m) + ['\n'] + rest) == m
  {
    var input := Decimal(m) + ['\n'] + rest;
    assert Decimal(m) == [DigitChar(m)];
    assert Fgets(input, 4) == Decimal(m) + ['\n'] by {
      assert input[0] == DigitChar(m) && input[1] == '\n';
      assert input[1..][1..] == rest;
    }
    AtoiDecimal(m, [], ['\n']);
    assert [] + Decimal(m) + ['\n'] == Decimal(m) + ['\n'];
  }

  /** A command as `modo_interactivo` tells them apart (lines 197-217):
      by `strncmp` on the first 5, 3 or 4 characters, in that order. */
  datatype Command =
    | Start(paso: int)
    | Pwm(val: int)
    | Stop
    | Other

  /** The text from index k on, as `&comando[k]` reads it. A line shorter
      than k + 1 characters reads as empty. */
  function From(line: seq<char>, k: nat): (r: seq<char>)
    ensures |r| <= |line| && r == line[|line| - |r|..]
    ensures k <= |line| ==> |r| == |line| - k
  {
    if k <= |line| then line[k..] else []
  }

  /** The lines `modo_interactivo` reads as STOP. */
  predicate StopLine(line: seq<char>)
  {
    !("START" <= line) && !("PWM" <= line) && "STOP" <= line
  }

  function Classify(line: seq<char>): (c: Command)
    ensures c.Stop? <==> StopLine(line)
  {
    if "START" <= line then Start(Atoi(From(line, 6)))
    else if "PWM" <= line then Pwm(Atoi(From(line, 4)))
    else if "STOP" <= line then Stop
    else Other
  }

  /** `START <paso>` as typed, with its newline, is read back with its
      value. */
  lemma ClassifyStart(v: nat, rest: seq<char>)
    requires |rest| > 0 ==> !IsDigit(rest[0])
    ensures Classify("START " + Decimal(v) + rest) == Start(v)
  {
    var t := Decimal(v) + rest;
    assert "START " + Decimal(v) + rest == "START " + t;
    StartLine(t);
    AtoiFront(v, rest);
  }

  /** `PWM <val>` likewise. */
  lemma ClassifyPwm(v: nat, rest: seq<char>)
    requires |rest| > 0 ==> !IsDigit(rest[0])
    ensures Classify("PWM " + Decimal(v) + rest) == Pwm(v)
  {
    var t := Decimal(v) + rest;
    assert "PWM " + Decimal(v) + rest == "PWM " + t;
    PwmLine(t);
    AtoiFront(v, rest);
  }

  /** A line starting "START " carries `atoi` of the text after it. */
  lemma StartLine(t: seq<char>)
    ensures Classify("START " + t) == Start(Atoi(t))
  {
    var s := "START " + t;
    assert s[..5] == "START";
    assert From(s, 6) == t;
  }

  /** A line starting "PWM " carries `atoi` of the text after it. */
  lemma PwmLine(t: seq<char>)
    ensures Classify("PWM " + t) == Pwm(Atoi(t))
  {
    var s := "PWM " + t;
    assert s[0] == 'P' && s[..3] == "PWM";
    assert From(s, 4) == t;
  }

  /** The comparison is on a prefix only: any line beginning with STOP
      stops, and a bare "START" line asks for a step of 0. */
  lemma ClassifyPrefixes(rest: seq<char>)
    ensures Classify("STOP" + rest) == Stop
    ensures Classify("START\n") == Start(0)
  {
    var s := "STOP" + rest;
    assert s[0] == 'S' && s[3] == 'P' && s[..4] == "STOP";
    assert From("START\n", 6) == [];
  }

  /** The rig between commands: `pwm_actual`, `sistema_activo` and the
      recorded duties `pwmBuffer[0..idx)`. */
  datatype Rig = Rig(pwmActual: int, activo: bool, samples: seq<int>)

  /** One pass of the `modo_interactivo` loop body on the line `fgets`
      returned (lines 196-218). `chances` feeds a reaction sweep and
      `window` the fixed 15 s capture. */
  method Execute(rig: Rig, line: seq<char>, chances: nat -> nat, window: nat)
    returns (rig': Rig, applied: seq<int>)
    requires |rig.samples| <= MaxSamples
    ensures |rig'.samples| <= MaxSamples
    ensures Classify(line).Start? && 0 < Classify(line).paso <= 100 ==>
      applied == Sequence(Classify(line).paso) + [0] && rig'.pwmActual == 0 && rig'.activo == rig.activo
    ensures Classify(line).Pwm? && 0 <= Classify(line).val <= 100 ==>
      applied == [Classify(line).val, 0] && rig'.pwmActual == 0 && rig'.activo == rig.activo
    ensures Classify(line).Stop? ==> applied == [0] && rig' == rig.(pwmActual := 0, activo := false)
    // an out-of-range value and an unknown line change nothing
    ensures Classify(line).Start? && !(0 < Classify(line).paso <= 100) ==> rig' == rig && applied == []
    ensures Classify(line).Pwm? && !(0 <= Classify(line).val <= 100) ==> rig' == rig && applied == []
    ensures Classify(line).Other? ==> rig' == rig && applied == []
  {
    match Classify(line)
    case Start(paso) =>
      if 0 < paso <= 100 {
        var samples;
        applied, samples := ReactionSweep(paso, chances);
        rig' := rig.(pwmActual := 0, samples := samples);
      } else {
        rig', applied := rig, [];
      }
    case Pwm(val) =>
      if 0 <= val <= 100 {
        var samples;
        applied, samples := FixedCapture(val, window);
        rig' := rig.(pwmActual := 0, samples := samples);
      } else {
        rig', applied := rig, [];
      }
    case Stop =>
      rig', applied := rig.(pwmActual := 0, activo := false), [0];
    case Other =>
      rig', applied := rig, [];
  }

  /** The index of the first line that reads as STOP, or |lines| if none. */
  function FirstStop(lines: seq<seq<char>>): (k: nat)
    ensures k <= |lines|
    ensures k < |lines| ==> StopLine(lines[k])
    ensures forall i :: 0 <= i < k ==> !StopLine(lines[i])
  {
    if |lines| == 0 then 0
    else if StopLine(lines[0]) then 0
    else 1 + FirstStop(lines[1..])
  }

  /** `modo_interactivo` (lines 193-220) over the lines typed: it reads
      lines while `sistema_activo` holds, so it stops right after the first
      STOP and never sees the lines after it. `read` is how many lines it
      consumed; the chances of the k-th line's capture are `chances(k)`. */
  method Interactive(rig: Rig, lines: seq<seq<char>>, chances: nat -> nat -> nat, windows: nat -> nat)
    returns (rig': Rig, read: nat)
    requires |rig.samples| <= MaxSamples
    ensures |rig'.samples| <= MaxSamples
    ensures !rig.activo ==> read == 0 && rig' == rig
    ensures rig.activo ==> read == Min(FirstStop(lines) + 1, |lines|)
    ensures rig'.activo <==> rig.activo && FirstStop(lines) == |lines|
    ensures rig.activo && FirstStop(lines) < |lines| ==> rig'.pwmActual == 0
  {
    rig' := rig;
    read := 0;
    while rig'.activo && read < |lines|
      invariant read <= |lines| && |rig'.samples| <= MaxSamples
      invariant !rig.activo ==> read == 0 && rig' == rig
      invariant rig.activo ==> read <= FirstStop(lines) + 1
      invariant rig'.activo <==> rig.activo && read <= FirstStop(lines)
      invariant rig.activo && read == FirstStop(lines) + 1 ==> rig'.pwmActual == 0
    {
      rig' := Consume(rig', lines[read], chances(read), windows(read));
      read := read + 1;
    }
  }

  /** Execute as the loop of `modo_interactivo` sees it: only STOP clears
      `sistema_activo`, and it also switches the motor off. */
  method Consume(rig: Rig, line: seq<char>, chances: nat -> nat, window: nat) returns (rig': Rig)
    requires |rig.samples| <= MaxSamples
    ensures |rig'.samples| <= MaxSamples
    ensures rig'.activo == (rig.activo && !StopLine(line))
    ensures StopLine(line) ==> rig'.pwmActual == 0
  {
    var applied;
    rig', applied := Execute(rig, line, chances, window);
  }

  /** The rising-edge state of `gpio_callback`: `contador_local`,
      `tiempo_inicio` and `pulse_count`, all `uint32_t`. */
  datatype Sensor = Sensor(contadorLocal: nat, tiempoInicio: nat, pulseCount: nat)

  ghost predicate SensorOk(s: Sensor)
  {
    s.contadorLocal < 10 && s.tiempoInicio < U32 && s.pulseCount < U32
  }

  /** What one interrupt does: the new state and, at every tenth pulse in
      mode 1, the time `delta` the ten pulses took when it is positive (the
      value `rpm_irq` is computed from). */
  datatype Irq = Irq(next: Sensor, measured: Option<nat>)

  /** `gpio_callback` (lines 90-106); `ahora` is `time_us_32()`. */
  function GpioCallback(s: Sensor, modo: int, gpio: nat, rising: bool, ahora: nat): (r: Irq)
    requires SensorOk(s) && ahora < U32
    ensures SensorOk(r.next)
    ensures gpio != SensorPin || !rising || (modo != 1 && modo != 2) ==> r == Irq(s, None)
    ensures gpio == SensorPin && rising && modo == 1 ==>
      && r.next.pulseCount == s.pulseCount
      && r.next.contadorLocal == (s.contadorLocal + 1) % 10
      && r.next.tiempoInicio == (if s.contadorLocal == 0 then ahora else s.tiempoInicio)
      && (r.measured.Some? <==> s.contadorLocal == 9 && (ahora - s.tiempoInicio) % U32 > 0)
      && (r.measured.Some? ==> r.measured.value == (ahora - s.tiempoInicio) % U32)
    ensures gpio == SensorPin && rising && modo == 2 ==>
      r == Irq(s.(pulseCount := (s.pulseCount + 1) % U32), None)
  {
    if gpio == SensorPin && rising then
      if modo == 1 then
        var inicio := if s.contadorLocal == 0 then ahora else s.tiempoInicio;
        var c := s.contadorLocal + 1;
        if c >= 10 then
          var delta := (ahora - inicio) % U32;
          Irq(Sensor(0, inicio, s.pulseCount), if delta > 0 then Some(delta) else None)
        else
          Irq(Sensor(c, inicio, s.pulseCount), None)
      else if modo == 2 then
        Irq(s.(pulseCount := (s.pulseCount + 1) % U32), None)
      else
        Irq(s, None)
    else
      Irq(s, None)
  }

  /** The state after a run of mode-1 sensor pulses at the given times. */
  function Feed(s: Sensor, times: seq<nat>): (r: Sensor)
    requires SensorOk(s) && forall i :: 0 <= i < |times| ==> times[i] < U32
    ensures SensorOk(r)
    decreases |times|
  {
    if |times| == 0 then s
    else Feed(GpioCallback(s, 1, SensorPin, true, times[0]).next, times[1..])
  }

  /** From a counter already started, further pulses that stay below ten
      advance the counter one by one and keep the start time of the first
      pulse. */
  lemma {:induction false} FeedCounts(s: Sensor, times: seq<nat>)
    requires SensorOk(s) && forall i :: 0 <= i < |times| ==> times[i] < U32
    requires |times| + s.contadorLocal < 10 && s.contadorLocal > 0
    ensures Feed(s, times).contadorLocal == s.contadorLocal + |times|
    ensures Feed(s, times).tiempoInicio == s.tiempoInicio
    decreases |times|
  {
    if |times| > 0 {
      FeedCounts(GpioCallback(s, 1, SensorPin, true, times[0]).next, times[1..]);
    }
  }

  /** Ten pulses from a cleared counter: the counter is back at 0 and the
      tenth pulse measures the time since the first, modulo 2^32. */
  lemma TenPulses(s: Sensor, times: seq<nat>)
    requires SensorOk(s) && s.contadorLocal == 0
    requires |times| == 10 && forall i :: 0 <= i < 10 ==> times[i] < U32
    ensures Feed(s, times).contadorLocal == 0
    ensures var before := Feed(s, times[..9]);
      && before.contadorLocal == 9
      && before.tiempoInicio == times[0]
      && GpioCallback(before, 1, SensorPin, true, times[9]).measured ==
         (if (times[9] - times[0]) % U32 > 0 then Some((times[9] - times[0]) % U32) else None)
  {
    var first := GpioCallback(s, 1, SensorPin, true, times[0]).next;
    assert first.contadorLocal == 1 && first.tiempoInicio == times[0];
    FeedCounts(first, times[1..9]);
    assert times[..9][1..] == times[1..9];
    FeedSplit(s, times, 9);
  }

  lemma {:induction false} FeedSplit(s: Sensor, times: seq<nat>, k: nat)
    requires SensorOk(s) && forall i :: 0 <= i < |times| ==> times[i] < U32
    requires k <= |times|
    ensures Feed(s, times) == Feed(Feed(s, times[..k]), times[k..])
    decreases k
  {
    if k > 0 {
      var next := GpioCallback(s, 1, SensorPin, true, times[0]).next;
      assert times[..k][1..] == times[1..][..k - 1];
      assert times[k..] == times[1..][k - 1..];
      FeedSplit(next, times[1..], k - 1);
    }
  }
}
