/** The duty-cycle logic of Laboratorio3/codigo2v1.c: the up/down stepper
    shared by the alarm callback and the combined mode, the hardware PWM
    level, the software PWM high/low split with its 0..100..0 sweep, and the
    mode chosen from the first line typed on the console. */
module TrianglePwm {
  import Sweep

  /** 2^32: `uint32_t` arithmetic wraps modulo this. */
  const U32: nat := 0x1_0000_0000

  /** 2^16: the SDK's `pwm_set_wrap` and `pwm_set_chan_level` take
      `uint16_t`, so the 32-bit values passed are narrowed modulo this. */
  const U16: nat := 0x1_0000

  /** `PWM_FREQ`, 1 kHz. */
  const PwmFreq: nat := 1000

  /** Delay before the alarm fires again, in microseconds (line 98). */
  const RescheduleMicros: nat := 50000

  /** The globals `duty_cycle` and `increase`. */
  datatype Stepper = Stepper(duty: int, increase: bool)

  /** The state both timed modes start from (lines 104-105, 116-117). */
  const Start: Stepper := Stepper(0, true)

  /** The duty stays in 0..100, and the direction flag always points away
      from the end the duty is at. */
  ghost predicate Inv(s: Stepper)
  {
    && 0 <= s.duty <= 100
    && (s.increase ==> s.duty < 100)
    && (!s.increase ==> s.duty > 0)
  }

  /** One tick of the rule in `alarm_callback` (lines 90-96) and in the loop
      of `pwm_combinado` (lines 121-127). */
  function Step(s: Stepper): (r: Stepper)
    ensures r.duty == s.duty + 1 || r.duty == s.duty - 1
    ensures Inv(s) ==> Inv(r)
    ensures Inv(s) && r.increase != s.increase ==> r.duty == 0 || r.duty == 100
  {
    if s.increase then
      var d := s.duty + 1;
      Stepper(d, !(d >= 100))
    else
      var d := s.duty - 1;
      Stepper(d, d <= 0)
  }

  /** The state after k ticks from s. */
  function Run(s: Stepper, k: nat): Stepper
    decreases k
  {
    if k == 0 then s else Step(Run(s, k - 1))
  }

  /** Every state reached from Start keeps the invariant. */
  lemma {:induction false} RunKeepsInv(k: nat)
    ensures Inv(Run(Start, k))
    decreases k
  {
    if k > 0 {
      RunKeepsInv(k - 1);
    }
  }

  /** The states reached from Start trace a triangle: up 0..99 with the flag
      set, then down 100..1 with it cleared. */
  lemma {:induction false} RunShape(k: nat)
    requires k < 200
    ensures k < 100 ==> Run(Start, k) == Stepper(k, true)
    ensures 100 <= k ==> Run(Start, k) == Stepper(200 - k, false)
    decreases k
  {
    if k > 0 {
      RunShape(k - 1);
    }
  }

  /** After 200 ticks the stepper is back at Start, so the duty is a
      triangle wave with period 200 ticks (10 s at 50 ms per tick). */
  lemma Period()
    ensures Run(Start, 200) == Start
  {
    RunShape(199);
  }

  lemma {:induction false} RunAdd(s: Stepper, a: nat, b: nat)
    ensures Run(s, a + b) == Run(Run(s, a), b)
    decreases b
  {
    if b > 0 {
      RunAdd(s, a, b - 1);
    }
  }

  /** The triangle repeats forever. */
  lemma Periodic(k: nat)
    ensures Run(Start, k + 200) == Run(Start, k)
  {
    RunAdd(Start, 200, k);
    Period();
    RunAdd(Start, 0, k);
  }

  /** `pwm_wrap_global = clk_freq / freq_hz - 1` (line 43), in `uint32_t`:
      a clock slower than the PWM frequency wraps to 2^32 - 1. */
  function PwmWrap(clk: nat, freq: nat): (r: nat)
    requires clk < U32 && freq > 0
    ensures r < U32
    ensures clk >= freq ==> r + 1 == clk / freq
    ensures clk < freq ==> r == U32 - 1
  {
    (clk / freq - 1) % U32
  }

  /** `pwm_wrap_global * duty_percent / 100` (lines 45, 52): the product is
      taken in `uint32_t`, then divided. */
  function ChannelLevel(wrap: nat, duty: nat): (r: nat)
    requires wrap < U32 && duty < U32
    ensures r * 100 < U32
    ensures wrap * duty < U32 ==> r * 100 <= wrap * duty < r * 100 + 100
  {
    (wrap * duty) % U32 / 100
  }

  /** While wrap * 100 fits in 32 bits no product wraps: the level is the
      exact fraction duty/100 of the wrap value and never exceeds it. */
  lemma LevelExact(wrap: nat, duty: nat)
    requires wrap * 100 < U32 && duty <= 100
    ensures ChannelLevel(wrap, duty) == wrap * duty / 100
    ensures ChannelLevel(wrap, duty) <= wrap
  {
    var x := wrap * duty;
    assert 0 <= x <= wrap * 100 by {
      Sweep.MulMono(duty, 100, wrap);
    }
    assert x % U32 == x;
    var q := x / 100;
    assert q * 100 <= x < (wrap + 1) * 100 by {
      assert x == q * 100 + x % 100;
    }
    Sweep.LessFromMul(q, wrap + 1, 100);
  }

  /** With a 1 kHz PWM from any clock of at least 1 kHz the wrap value is
      below 2^32 / 1000, so the 32-bit level computed is exact and within
      the 32-bit wrap computed. */
  lemma LevelWithinWrap(clk: nat, duty: nat)
    requires PwmFreq <= clk < U32 && duty <= 100
    ensures ChannelLevel(PwmWrap(clk, PwmFreq), duty) == PwmWrap(clk, PwmFreq) * duty / 100
    ensures ChannelLevel(PwmWrap(clk, PwmFreq), duty) <= PwmWrap(clk, PwmFreq)
  {
    var w := PwmWrap(clk, PwmFreq);
    assert w < U32 / 1000;
    LevelExact(w, duty);
  }

  /** A `uint32_t` passed where a `uint16_t` is expected keeps its low 16
      bits. */
  function Uint16(x: nat): (r: nat)
    ensures r < U16
    ensures x < U16 ==> r == x
    ensures (x - r) % U16 == 0
  {
    x % U16
  }

  /** The TOP the slice counts to: the wrap of line 43, narrowed by
      `pwm_set_wrap` (line 44). */
  function WrittenTop(clk: nat): (r: nat)
    requires PwmFreq <= clk < U32
    ensures r < U16
  {
    Uint16(PwmWrap(clk, PwmFreq))
  }

  /** The compare level the channel holds for a duty: the level of lines 45
      and 52, narrowed by `pwm_set_chan_level`. */
  function WrittenLevel(clk: nat, duty: nat): (r: nat)
    requires PwmFreq <= clk < U32 && duty <= 100
    ensures r < U16
  {
    Uint16(ChannelLevel(PwmWrap(clk, PwmFreq), duty))
  }

  /** The TOP is the computed wrap exactly when the clock is below
      65.537 MHz; from there on the 16-bit narrowing changes it. */
  lemma TopKeptIff(clk: nat)
    requires PwmFreq <= clk < U32
    ensures WrittenTop(clk) == PwmWrap(clk, PwmFreq) <==> clk < 65_537_000
  {
    var w := PwmWrap(clk, PwmFreq);
    assert w + 1 == clk / PwmFreq;
    if clk < 65_537_000 {
      assert clk / PwmFreq <= 65_536;
    } else {
      assert clk / PwmFreq >= 65_537;
    }
  }

  /** Below 65.537 MHz nothing is narrowed: the channel holds the exact
      fraction duty/100 of the TOP, so the output is high for duty percent
      of each period. */
  lemma WrittenWithinTop(clk: nat, duty: nat)
    requires PwmFreq <= clk < 65_537_000 && duty <= 100
    ensures WrittenTop(clk) == PwmWrap(clk, PwmFreq)
    ensures WrittenLevel(clk, duty) == WrittenTop(clk) * duty / 100
    ensures WrittenLevel(clk, duty) <= WrittenTop(clk)
  {
    var w := PwmWrap(clk, PwmFreq);
    TopKeptIff(clk);
    LevelWithinWrap(clk, duty);
    assert ChannelLevel(w, duty) <= w < U16;
  }

  /** At the usual 125 MHz system clock the wrap 124999 does not fit in 16
      bits: the slice counts to 59463, duty 50 writes 62499, above that
      TOP (the output stays high), and duty 60 writes 9463. */
  lemma NarrowedAt125MHz()
    ensures PwmWrap(125_000_000, PwmFreq) == 124_999
    ensures WrittenTop(125_000_000) == 59_463
    ensures WrittenLevel(125_000_000, 50) == 62_499 > WrittenTop(125_000_000)
    ensures WrittenLevel(125_000_000, 60) == 9_463
  {
    assert PwmWrap(125_000_000, PwmFreq) == 124_999;
    assert ChannelLevel(124_999, 50) == 62_499;
    assert ChannelLevel(124_999, 60) == 74_999;
  }

  /** What one alarm firing does (lines 89-99): the next stepper state, the
      channel level written, and the delay until the next firing. */
  datatype AlarmEffect = AlarmEffect(next: Stepper, level: nat, rescheduleUs: nat)

  function AlarmCallback(s: Stepper, wrap: nat): (r: AlarmEffect)
    requires Inv(s) && wrap < U32
    ensures Inv(r.next) && r.next == Step(s)
    ensures r.rescheduleUs == RescheduleMicros
    ensures wrap * 100 < U32 ==> r.level == wrap * r.next.duty / 100 <= wrap
  {
    var next := Step(s);
    var level := ChannelLevel(wrap, next.duty);
    assert wrap * 100 < U32 ==> level == wrap * next.duty / 100 <= wrap by {
      if wrap * 100 < U32 {
        LevelExact(wrap, next.duty);
      }
    }
    AlarmEffect(next, level, RescheduleMicros)
  }

  /** The busy-wait split of one software PWM period (lines 63-65, 75-77). */
  datatype Split = Split(highUs: nat, lowUs: nat)

  function SplitPeriod(dc: nat): (r: Split)
    requires dc <= 100
    ensures r.highUs + r.lowUs == 1_000_000 / PwmFreq
    ensures r.highUs <= 1_000_000 / PwmFreq
    ensures r.highUs * 100 == dc * (1_000_000 / PwmFreq)
  {
    var period := 1_000_000 / PwmFreq;
    var high := (period * dc) % U32 / 100;
    Split(high, period - high)
  }

  /** The duty values `pwm_polling` applies in one turn of its outer loop
      (lines 61-84): 0 up to 100, then 100 down to 0, in steps of 1. */
  method PollingSweep() returns (dcs: seq<nat>)
    ensures |dcs| == 202
    ensures forall i :: 0 <= i <= 100 ==> dcs[i] == i
    ensures forall i :: 101 <= i < 202 ==> dcs[i] == 201 - i
  {
    dcs := [];
    var dc: int := 0;
    while dc <= 100
      invariant 0 <= dc <= 101
      invariant |dcs| == dc
      invariant forall i :: 0 <= i < dc ==> dcs[i] == i
    {
      dcs := dcs + [dc];
      dc := dc + 1;
    }
    dc := 100;
    while dc >= 0
      invariant -1 <= dc <= 100
      invariant |dcs| == 201 - dc
      invariant forall i :: 0 <= i <= 100 ==> dcs[i] == i
      invariant forall i :: 101 <= i < |dcs| ==> dcs[i] == 201 - i
    {
      dcs := dcs + [dc];
      dc := dc - 1;
    }
  }

  /** The polling sweep is the stepper's triangle with the peak and the
      trough each held for one extra period: its first 101 values are the
      duties of ticks 0..100 and its last 101 those of ticks 100..200. */
  lemma SweepFollowsStepper(dcs: seq<nat>)
    requires |dcs| == 202
    requires forall i :: 0 <= i <= 100 ==> dcs[i] == i
    requires forall i :: 101 <= i < 202 ==> dcs[i] == 201 - i
    ensures forall k :: 0 <= k <= 100 ==> dcs[k] == Run(Start, k).duty
    ensures forall k :: 100 <= k <= 200 ==> dcs[k + 1] == Run(Start, k).duty
  {
    forall k | 0 <= k <= 100
      ensures dcs[k] == Run(Start, k).duty
    {
      RunShape(k);
    }
    forall k | 100 <= k <= 200
      ensures dcs[k + 1] == Run(Start, k).duty
    {
      if k < 200 {
        RunShape(k);
      } else {
        Period();
      }
    }
  }

  predicate IsEnd(c: char)
  {
    c == '\r' || c == '\n'
  }

  /** The length of the first console line: the position of the first CR
      or LF, or the whole input when there is none. */
  function LineEnd(input: seq<char>): (r: nat)
    ensures r <= |input|
    ensures forall i :: 0 <= i < r ==> !IsEnd(input[i])
    ensures r < |input| ==> IsEnd(input[r])
  {
    if |input| == 0 || IsEnd(input[0]) then 0 else 1 + LineEnd(input[1..])
  }

  predicate HasEnd(input: seq<char>)
  {
    exists i :: 0 <= i < |input| && IsEnd(input[i])
  }

  function Min(a: int, b: int): int
  {
    if a <= b then a else b
  }

  /** The read loop of `main` (lines 144-155). Timeouts of `getchar_timeout_us`
      are not characters and do not appear in `input`. Reading stops at the
      first CR or LF; at most 9 characters are kept in the 10-byte `buf`.
      Without a line end the loop is still waiting (`ended` is false). */
  method ReadModeLine(input: seq<char>) returns (buf: seq<char>, ended: bool)
    ensures ended <==> HasEnd(input)
    ensures buf == input[..Min(LineEnd(input), 9)]
    ensures |buf| <= 9
  {
    buf := [];
    ended := false;
    var k := 0;
    while k < |input|
      invariant 0 <= k <= |input|
      invariant forall i :: 0 <= i < k ==> !IsEnd(input[i])
      invariant buf == input[..Min(k, 9)]
    {
      var c := input[k];
      if IsEnd(c) {
        ended := true;
        assert LineEnd(input) == k;
        return;
      }
      if |buf| < 9 {
        assert input[..k + 1] == input[..k] + [c];
        buf := buf + [c];
      }
      k := k + 1;
    }
    assert LineEnd(input) == k;
  }

  /** The mode chosen on line 157: '0', '1' or '2' as the first character
      selects that mode; anything else, the empty line included, selects 0. */
  function SelectMode(buf: seq<char>): (modo: int)
    ensures 0 <= modo <= 2
    ensures modo == 1 <==> |buf| > 0 && buf[0] == '1'
    ensures modo == 2 <==> |buf| > 0 && buf[0] == '2'
  {
    if |buf| > 0 && (buf[0] == '0' || buf[0] == '1' || buf[0] == '2') then
      (buf[0] as int) - ('0' as int)
    else
      0
  }
}
