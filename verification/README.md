# Graceful permutations and motor-lab consoles, in Dafny

This project models the computing core of a set of digital-electronics lab
programs and proves properties of that model.

**Graceful-permutation counter (`Laboratorio1/programa.c`).** A permutation
of 1..n is graceful when its consecutive absolute differences are pairwise
distinct and all lie in 1..n-1. The program counts them by a pruned,
time-bounded backtracking search.
- Module `Graceful` defines the predicate and the finite set of graceful
  permutations. It also proves the counting facts the search relies on.
- Module `Search` models `backtrack` and `contar_permutaciones_graciles`
  as methods. The arrays `perm`, `usado` and `diferencias` and the globals
  `contador` and `tiempo_agotado` are threaded through as values.
  - Without a timeout, the count is proved to be exactly the number of
    graceful permutations.
  - With a timeout, the count is a lower bound.
  - Reading the performance counter becomes an oracle `expired(k)`, which
    answers the k-th "has the deadline passed?" question.
- Module `GracefulMain` models `factorial` as unsigned 64-bit arithmetic,
  the time arithmetic, and `main` after argument parsing.

**Duty-cycle stepper and software PWM (`Laboratorio3/codigo2v1.c`),**
module `TrianglePwm`: the up/down step rule, its invariant, and the 200-tick
period. It also covers:
- the 32-bit channel level and the busy-wait high/low split;
- the 0..100..0 polling sweep;
- reading and selecting the mode from the first console line.

**Motor test rig (`Laboratorio3/codigo4v5.c`),** module `MotorRig`:
- the measurement mode read at start-up;
- the `strncmp`/`atoi` command dispatch and the loop that ends at STOP;
- the reaction sweep and the bounded sample buffer;
- the mode-1 pulse counter of the rising-edge interrupt.

**Python consoles (`Laboratorio2`):**
- Module `SweepConsole` models `programa3mp_dox.py`: START/PWM/STOP parsing
  after `strip().upper()`, and the range-checked sweep.
- Module `CaptureConsole` models `programa4mp.py`:
  - the clamped 16-bit duty;
  - the hand-built falling half and the capture into an uncleared buffer;
  - the command dispatch.
- Module `DutyMachine` models `programa1mp_dox.py`, the input state machine:
  duty first, then direction, then running.

**Shared modules:**
- `Sweep`: Python's `range` and the shared up/down sweep.
- `Sampling`: sampling into a bounded buffer.
- `Text`: `str.strip`, `str.upper`, `str.split`, `int(...)` and C's `atoi`.
- `Options`: an option type.

Time is never modelled. Wherever the source waits on a clock, the number of
sampling chances a step offers, or the answer of the deadline check, is a
parameter.

Where the source's own description and its code differ, the model follows
the code:
- Only n == 1 is short-circuited. For n == 0 the search runs and counts the
  empty permutation, so it returns 1.
- Both orientations of a graceful permutation are counted: 2 for n = 2 and
  4 for n = 3, as `Graceful.GracefulTwo` and `Graceful.GracefulThree` show.
- The group count printed by `main` is `factorial(n - 1)` in 64-bit unsigned
  arithmetic. The range check admits n up to 50, and from n = 22 the product
  wraps modulo 2^64, as `GracefulMain.FactorialWrapsAt21` shows.

## Model

| member | source | states |
|---|---|---|
| `Graceful.InGracefulSet` | Laboratorio1/programa.c:37-45 | a sequence is in the finite set of graceful permutations of 1..n exactly when it is a graceful permutation: entries in 1..n without repeats, gaps in 1..n-1 pairwise distinct |
| `Graceful.ExtendIff` | Laboratorio1/programa.c:38-44 | appending v to a valid prefix keeps it valid exactly when v is unused and, after the first position, its gap to the last entry lies in 1..n-1 and is not yet used: the pruning tests lose no solution and admit no non-solution |
| `Graceful.PrefixIsPartial` | Laboratorio1/programa.c:39-43 | every prefix of a graceful permutation passes all the pruning tests |
| `Graceful.FullCompletions` | Laboratorio1/programa.c:32-34 | a valid prefix of full length n has exactly one graceful completion, itself, which the base case counts once |
| `Graceful.DeadCompletions` | Laboratorio1/programa.c:41-42 | an invalid prefix has no graceful completion, so skipping it loses nothing |
| `Graceful.BelowStep` | Laboratorio1/programa.c:37-58 | trying candidate m adds exactly the completions that place m next, disjoint from those of the smaller candidates |
| `Graceful.BelowLast` | Laboratorio1/programa.c:37 | the candidates 1..n together cover every completion of a prefix |
| `Graceful.GracefulZero` | Laboratorio1/programa.c:32-34 | for n = 0 the only graceful permutation is the empty one |
| `Graceful.GracefulTwo` | Laboratorio1/programa.c:37-45 | for n = 2 both [1, 2] and [2, 1] are graceful, two in all |
| `Graceful.GracefulThree` | Laboratorio1/programa.c:37-45 | for n = 3 exactly the four non-monotone permutations are graceful |
| `Search.FreshFrame` | Laboratorio1/programa.c:65-70 | the cleared `usado` (size n+1) and `diferencias` (size n) arrays describe the empty prefix |
| `Search.Place` | Laboratorio1/programa.c:44-48 | marking v used and, after the first position, its gap used moves the flags from prefix s to s + [v] |
| `Search.GapPositive` | Laboratorio1/programa.c:38-41 | an unused candidate always differs from the last placed value, so the `diff < 1` test never fires |
| `Search.Reject` | Laboratorio1/programa.c:38-43 | a candidate rejected by the used or gap tests begins no graceful completion, so skipping it leaves the count unchanged |
| `Search.Accept` | Laboratorio1/programa.c:38-48 | a candidate passing the tests extends the valid prefix and adds exactly its completions to the count |
| `Search.Unmark` | Laboratorio1/programa.c:53-56 | clearing a flag set from false restores the array |
| `Search.Backtrack` | Laboratorio1/programa.c:23-59 | the clock is read first, and an expired deadline returns with nothing placed and the count unchanged. The placed prefix is never written. The count rises by at most the number of completions of the prefix, and by exactly that number without a timeout, in which case both flag arrays are restored. The timeout flag is sticky, and a deadline that never expires never sets it |
| `Search.Expand` | Laboratorio1/programa.c:37-58 | the candidate loop counts each completion of the prefix once and returns right after a descent that timed out |
| `Search.Descend` | Laboratorio1/programa.c:44-56 | marking, recursing and unmarking one candidate adds its completions and, without a timeout, leaves the flags as found. On a timeout the undo is skipped and the arrays describe a deeper prefix |
| `Search.CountGraceful` | Laboratorio1/programa.c:62-80 | returns 1 for n == 1 without reading the clock. Otherwise it returns the new counter, which is at most the number of graceful permutations and equal to it without a timeout, and 0 when the deadline has already passed. The timeout flag is never cleared |
| `Search.GracefulOne` | Laboratorio1/programa.c:63 | the n == 1 shortcut agrees with the definition: [1] is the only graceful permutation of size 1 |
| `GracefulMain.Factorial` | Laboratorio1/programa.c:14-20 | the loop computes the exact factorial reduced modulo 2^64 |
| `GracefulMain.FactorialExactUpTo20` | Laboratorio1/programa.c:14-20 | up to 20 the factorial fits in 64 bits, so the wrapped value is exact |
| `GracefulMain.FactorialWrapsAt21` | Laboratorio1/programa.c:90-99 | 21! exceeds 2^64, so for the admitted n from 22 to 50 the printed group count is wrapped |
| `GracefulMain.LimitMicros` | Laboratorio1/programa.c:97 | the budget is minutes * 60 * 10^6 when the 32-bit product minutes * 60 does not overflow, and otherwise undefined |
| `GracefulMain.ElapsedMicros` | Laboratorio1/programa.c:26 | elapsed microseconds is the floor of ticks * 10^6 / frequency, computed exactly (see "Left out" for the 64-bit product) |
| `GracefulMain.TimeUpInTicks` | Laboratorio1/programa.c:26-28 | time is up exactly when ticks * 10^6 >= limit * frequency |
| `GracefulMain.TimeUpMonotone` | Laboratorio1/programa.c:26-28 | once the deadline has passed, every later counter reading also finds it passed |
| `GracefulMain.NoBudgetExpires` | Laboratorio1/programa.c:28 | a budget of zero minutes or less is spent at the first check |
| `GracefulMain.TimeUp` | Laboratorio1/programa.c:26-28 | definition of the time-out test; see `TimeUpInTicks` (the test in ticks) and `TimeUpMonotone` (once up, it stays up) |
| `GracefulMain.Program` | Laboratorio1/programa.c:87-100 | n outside 0..50 is rejected. Otherwise the count is at most the number of graceful permutations, and exactly that without a timeout. The group count is (n-1)! modulo 2^64, exact up to n = 21. A spent budget yields 0 except for n == 1 |
| `TrianglePwm.Step` | Laboratorio3/codigo2v1.c:90-96 | each tick changes the duty by exactly 1 and keeps the stepper invariant: the duty stays in 0..100 and the direction points away from the end it is at. The direction flips only at 0 or 100 |
| `TrianglePwm.RunKeepsInv` | Laboratorio3/codigo2v1.c:90-105 | every state reached from (0, rising) satisfies the invariant |
| `TrianglePwm.RunShape` | Laboratorio3/codigo2v1.c:90-96 | from (0, rising), tick k < 100 is at duty k rising and tick k in 100..199 is at 200 - k falling |
| `TrianglePwm.Period` | Laboratorio3/codigo2v1.c:90-96 | 200 ticks bring the stepper back to (0, rising) |
| `TrianglePwm.Periodic` | Laboratorio3/codigo2v1.c:116-127 | the duty is a triangle wave with period 200 ticks |
| `TrianglePwm.Run` | Laboratorio3/codigo2v1.c:89-106 | definition: the duty after k alarm ticks; see `RunKeepsInv`, `RunShape`, `Period` and `Periodic` |
| `TrianglePwm.PwmWrap` | Laboratorio3/codigo2v1.c:43 | the wrap is clock / frequency - 1 in 32 bits, and wraps to 2^32 - 1 for a clock slower than the frequency |
| `TrianglePwm.LevelExact` | Laboratorio3/codigo2v1.c:45-52 | while wrap * 100 fits in 32 bits the level is the exact fraction duty/100 of the wrap and never exceeds it |
| `TrianglePwm.LevelWithinWrap` | Laboratorio3/codigo2v1.c:43-52 | at 1 kHz from any 32-bit clock of at least 1 kHz the 32-bit level computed is exact and within the 32-bit wrap computed, before the SDK narrows either (see `WrittenWithinTop`) |
| `TrianglePwm.ChannelLevel` | Laboratorio3/codigo2v1.c:45-52 | the 32-bit level computed, times 100, stays below 2^32; when the product wrap * duty fits in 32 bits the level is its quotient by 100; see `LevelExact`, `LevelWithinWrap` |
| `TrianglePwm.Uint16` | Laboratorio3/codigo2v1.c:44-52 | a 32-bit value passed as `uint16_t` is below 2^16, unchanged when it fits, and equal to the original modulo 2^16 |
| `TrianglePwm.WrittenTop` | Laboratorio3/codigo2v1.c:43-44 | the TOP `pwm_set_wrap` stores is a 16-bit value; see `TopKeptIff` |
| `TrianglePwm.WrittenLevel` | Laboratorio3/codigo2v1.c:45-52 | the level `pwm_set_chan_level` stores is a 16-bit value; see `WrittenWithinTop`, `NarrowedAt125MHz` |
| `TrianglePwm.TopKeptIff` | Laboratorio3/codigo2v1.c:43-44 | the TOP stored equals the computed wrap if and only if the clock is below 65.537 MHz |
| `TrianglePwm.WrittenWithinTop` | Laboratorio3/codigo2v1.c:43-52 | below 65.537 MHz the stored TOP is the wrap and the stored level is exactly duty/100 of it, never above it |
| `TrianglePwm.NarrowedAt125MHz` | Laboratorio3/codigo2v1.c:43-52 | at 125 MHz the wrap 124999 is stored as TOP 59463, duty 50 stores 62499 (above TOP, output always high) and duty 60 stores 9463 |
| `TrianglePwm.AlarmCallback` | Laboratorio3/codigo2v1.c:89-99 | one firing applies the step rule, computes the 32-bit level of the new duty and reschedules after 50000 microseconds |
| `TrianglePwm.SplitPeriod` | Laboratorio3/codigo2v1.c:63-65 | the high and low times add up to the 1000-microsecond period, and the high time is the duty's share of it |
| `TrianglePwm.PollingSweep` | Laboratorio3/codigo2v1.c:61-84 | one turn of the polling loop applies 0..100 and then 100..0, 202 values |
| `TrianglePwm.SweepFollowsStepper` | Laboratorio3/codigo2v1.c:61-96 | the polling sweep visits the stepper's duties in order, with 100 and 0 held for one extra period |
| `TrianglePwm.LineEnd` | Laboratorio3/codigo2v1.c:147-149 | the first line ends at the first CR or LF, or at the end of the input |
| `TrianglePwm.ReadModeLine` | Laboratorio3/codigo2v1.c:144-155 | reading stops at the first CR or LF and keeps at most 9 characters of the line. Without a line end it is still waiting |
| `TrianglePwm.SelectMode` | Laboratorio3/codigo2v1.c:157-161 | the mode is always 0, 1 or 2. A first character '1' or '2' selects that mode, and anything else, empty input included, selects 0 |
| `Sweep.RangeUp` | Laboratorio2/programa3mp_dox.py:110 | an ascending `range` is the progression from start that stops at the first term reaching stop |
| `Sweep.RangeDown` | Laboratorio2/programa3mp_dox.py:111 | a descending `range` likewise |
| `Sweep.UpShape` | Laboratorio2/programa3mp_dox.py:110 | the rising half is 0, inc, 2*inc, ... and ends at the largest multiple of inc not above 100 |
| `Sweep.DownShape` | Laboratorio2/programa3mp_dox.py:111 | the falling half is 100 - inc, 100 - 2*inc, ...: 100 / inc values, the last one 100 mod inc |
| `Sweep.SequenceShape` | Laboratorio2/programa3mp_dox.py:110-111 | the sweep has 2*(100/inc) + 1 values, all in 0..100. It starts at 0, rises strictly, then falls strictly from below its peak |
| `Sweep.SequenceEnd` | Laboratorio2/programa3mp_dox.py:111 | the sweep ends at 100 mod inc, so it returns to 0 exactly when inc divides 100 |
| `Sweep.SequenceThirty` | Laboratorio2/programa3mp_dox.py:110-111 | for inc = 30 the sweep is 0, 30, 60, 90, 70, 40, 10 |
| `Sweep.PyRange` | Laboratorio2/programa3mp_dox.py:110-111 | definition of Python's `range`; see `RangeUp` and `RangeDown` (length, members and order for either step sign) |
| `Sweep.UpPhase` | Laboratorio2/programa3mp_dox.py:110 | definition of the rising half; see `UpShape` |
| `Sweep.DownPhase` | Laboratorio2/programa3mp_dox.py:111 | definition of the falling half; see `DownShape` |
| `Sweep.Sequence` | Laboratorio2/programa3mp_dox.py:110-111 | definition of the full duty sequence; see `SequenceShape` and `SequenceEnd` |
| `Sampling.Cap` | Laboratorio3/codigo4v5.c:157-163 | the recorded samples are a prefix of those offered, at most the capacity, and all of them when they fit |
| `Sampling.OfferedValues` | Laboratorio3/codigo4v5.c:160 | every recorded duty is one of the duties applied |
| `Sampling.CapSnoc` | Laboratorio3/codigo4v5.c:176-183 | recording one more sample while there is room keeps the buffer the capped prefix of the longer list, and once it is full nothing changes |
| `Sampling.Offered` | Laboratorio3/codigo4v5.c:154-163 | definition: each applied duty repeated once per sampling chance of its step; see `OfferedValues` and `Cap` |
| `MotorRig.SampleStep` | Laboratorio3/codigo4v5.c:154-166 | a step's sampling appends the step's duty at each chance while `idx` is below 5000 |
| `MotorRig.ReactionSweep` | Laboratorio3/codigo4v5.c:140-191 | the sweep applies the up/down sequence and then 0. It records the capped list of offered samples, at most 5000 of them, all in 0..100 |
| `MotorRig.RisingSteps` | Laboratorio3/codigo4v5.c:149-167 | the first loop applies 0, paso, 2*paso, ... while at most 100 |
| `MotorRig.FallingSteps` | Laboratorio3/codigo4v5.c:169-186 | the second loop applies 100 - paso, 100 - 2*paso, ... while not below 0, completing the sweep |
| `MotorRig.FixedCapture` | Laboratorio3/codigo4v5.c:108-138 | the fixed capture applies the value and then 0, and records the value once per chance, at most 5000 times |
| `MotorRig.Fgets` | Laboratorio3/codigo4v5.c:237 | `fgets` returns a prefix of the input of at most size - 1 characters, with no newline before its last character, and it stops short of both the size and the end of input only right after a newline |
| `MotorRig.FgetsUnique` | Laboratorio3/codigo4v5.c:237 | those three conditions determine the line: any text meeting them is exactly what `fgets` returns |
| `MotorRig.FgetsWindow` | Laboratorio3/codigo4v5.c:237 | input beyond the first size - 1 characters never changes what `fgets` returns |
| `MotorRig.MeasurementMode` | Laboratorio3/codigo4v5.c:237-239 | the mode is `atoi` of the first line when in 0..2, and 0 otherwise |
| `MotorRig.ModeTyped` | Laboratorio3/codigo4v5.c:237-239 | typing a digit 0..2 and Enter selects that mode |
| `MotorRig.ModeWindow` | Laboratorio3/codigo4v5.c:237-239 | with the 4-character buffer the mode depends on the first three characters of input only |
| `MotorRig.Classify` | Laboratorio3/codigo4v5.c:197-217 | a line reads as STOP exactly when it begins with STOP and with neither START nor PWM |
| `MotorRig.StartLine` | Laboratorio3/codigo4v5.c:197-198 | a line beginning "START " carries `atoi` of the text after it |
| `MotorRig.PwmLine` | Laboratorio3/codigo4v5.c:204-205 | a line beginning "PWM " carries `atoi` of the text after it |
| `MotorRig.ClassifyStart` | Laboratorio3/codigo4v5.c:197-200 | `START <n>` as typed, newline included, is read back with step n |
| `MotorRig.ClassifyPwm` | Laboratorio3/codigo4v5.c:204-208 | `PWM <n>` as typed is read back with value n |
| `MotorRig.ClassifyPrefixes` | Laboratorio3/codigo4v5.c:197-213 | only a prefix is compared: any line beginning STOP stops, and a bare START asks for step 0 |
| `MotorRig.From` | Laboratorio3/codigo4v5.c:198-205 | the text at `&comando[k]`: a suffix of the line, of length \|line\| - k when k is within the line (see the Left out line) |
| `MotorRig.StopLine` | Laboratorio3/codigo4v5.c:197-217 | definition of a line that stops the rig; `Classify` states a line classifies as Stop exactly when this holds |
| `MotorRig.Execute` | Laboratorio3/codigo4v5.c:196-218 | a START with step in 1..100 runs the sweep and a PWM in 0..100 runs the fixed capture, each leaving the motor at 0. STOP sets the duty to 0 and clears `sistema_activo`. Out-of-range values and other lines change nothing. The buffer never exceeds 5000 |
| `MotorRig.FirstStop` | Laboratorio3/codigo4v5.c:213 | the index of the first line read as STOP, or the number of lines if there is none |
| `MotorRig.Consume` | Laboratorio3/codigo4v5.c:195-217 | one pass of the loop clears `sistema_activo` exactly on a STOP line, which also switches the motor off |
| `MotorRig.Interactive` | Laboratorio3/codigo4v5.c:193-220 | the loop reads up to and including the first STOP and never sees later lines. It stays active exactly when there is no STOP, and a STOP leaves the motor off |
| `MotorRig.GpioCallback` | Laboratorio3/codigo4v5.c:90-106 | only rising edges on pin 10 in modes 1 and 2 change state. Mode 1 counts pulses modulo 10, takes the start time at the first and measures the 32-bit time difference at the tenth, if positive. Mode 2 increments `pulse_count` modulo 2^32 |
| `MotorRig.FeedCounts` | Laboratorio3/codigo4v5.c:94-95 | pulses after the first advance the counter one by one and keep the start time |
| `MotorRig.TenPulses` | Laboratorio3/codigo4v5.c:93-101 | ten pulses from a cleared counter clear it again. The tenth measures the time since the first, modulo 2^32 |
| `SweepConsole.StartCapture` | Laboratorio2/programa3mp_dox.py:91-131 | an increment outside 1..100 is rejected before anything changes. Otherwise the sweep and a final 0 are applied and `capturando` is cleared again |
| `SweepConsole.Parse` | Laboratorio2/programa3mp_dox.py:139-166 | after strip and upper, the command word is told by prefix: START before PWM, and STOP only as the whole line. START is accepted exactly when the line splits into two tokens and the second is all digits, with that value. PWM is accepted under the same condition and value at most 100, is out of range exactly when the value exceeds 100, and is invalid otherwise |
| `SweepConsole.Step` | Laboratorio2/programa3mp_dox.py:139-166 | START runs the capture, PWM sets and applies the value, STOP applies 0 and clears `sistema_activo`, and anything else changes nothing |
| `SweepConsole.RunSettled` | Laboratorio2/programa3mp_dox.py:100-131 | between commands the duty is always in 0..100 and no capture is in progress |
| `SweepConsole.StaysStopped` | Laboratorio2/programa3mp_dox.py:160-163 | no command sets `sistema_activo` again |
| `SweepConsole.ParseStart` | Laboratorio2/programa3mp_dox.py:139-147 | a typed line of blanks, a word beginning START in any case, blanks, one argument and blanks starts a sweep of the argument's value exactly when the argument is all digits, leading zeros included, and is invalid otherwise |
| `SweepConsole.ParsePwm` | Laboratorio2/programa3mp_dox.py:139-158 | the same typed line with a word beginning PWM in any case sets the duty for digits up to 100, is out of range for digits above 100 and is invalid for any other argument |
| `SweepConsole.ParseThreeWords` | Laboratorio2/programa3mp_dox.py:141-147 | a START or PWM word followed by two arguments is invalid whatever the arguments are |
| `SweepConsole.StartPadded` | Laboratorio2/programa3mp_dox.py:139-145 | " start  030 " starts a sweep with increment 30 |
| `SweepConsole.StartNegative` | Laboratorio2/programa3mp_dox.py:142-147 | "START -5" is invalid, as `isdigit` rejects the sign |
| `SweepConsole.StartStray` | Laboratorio2/programa3mp_dox.py:142-147 | "START 3x" is invalid |
| `SweepConsole.StartTwoNumbers` | Laboratorio2/programa3mp_dox.py:142-147 | "START 30 40" is invalid |
| `SweepConsole.PwmTooLarge` | Laboratorio2/programa3mp_dox.py:150-156 | "PWM 101" is out of range |
| `SweepConsole.ParseStopLine` | Laboratorio2/programa3mp_dox.py:160 | a line whose normal form is STOP parses as STOP |
| `SweepConsole.StopParses` | Laboratorio2/programa3mp_dox.py:160 | "STOP" itself parses as STOP |
| `SweepConsole.CommandsAfterStop` | Laboratorio2/programa3mp_dox.py:136-163 | STOP does not end the loop: any typed PWM line with a value up to 100 after it still sets the duty while reporting stays off |
| `SweepConsole.StartZeroRejected` | Laboratorio2/programa3mp_dox.py:102-104 | any typed START line whose digits read as 0 ("START 0", "start 000") passes `isdigit` but is rejected by the range check with no change |
| `SweepConsole.Normal` | Laboratorio2/programa3mp_dox.py:139 | the line after strip and upper case is no longer than the line, neither starts nor ends with whitespace and has no lower-case letter |
| `SweepConsole.Run` | Laboratorio2/programa3mp_dox.py:136-166 | definition: the console after a sequence of lines; see `RunSettled` and `StaysStopped` |
| `Text.TrimLeft` | Laboratorio2/programa4mp.py:124 | the result is a suffix with no leading whitespace, and everything removed is whitespace |
| `Text.TrimRight` | Laboratorio2/programa4mp.py:124 | the result is a prefix with no trailing whitespace, and everything removed is whitespace |
| `Text.StripShape` | Laboratorio2/programa4mp.py:124 | `strip` returns the infix left after removing whitespace from both ends, and it has no whitespace at either end |
| `Text.StripIdempotent` | Laboratorio2/programa1mp_dox.py:83 | stripping twice is stripping once |
| `Text.Upper` | Laboratorio2/programa3mp_dox.py:139 | `upper` maps each character to its upper case and keeps the length |
| `Text.UpperKeeps` | Laboratorio2/programa3mp_dox.py:139 | upper case keeps whitespace in place, leaves digit strings unchanged and is idempotent |
| `Text.Split` | Laboratorio2/programa3mp_dox.py:142 | `split` yields non-empty tokens without whitespace |
| `Text.SplitJoin` | Laboratorio2/programa3mp_dox.py:142-143 | tokens joined by single spaces split back into the same tokens |
| `Text.DecimalValue` | Laboratorio2/programa3mp_dox.py:143-144 | the value of the numeral of v is v |
| `Text.ValueDecimal` | Laboratorio2/programa3mp_dox.py:143-144 | a numeral without leading zeros is the numeral of its value |
| `Text.PyIntDecimal` | Laboratorio2/programa4mp.py:128 | `int` reads back the numeral of v, whatever whitespace surrounds it |
| `Text.PyIntNegative` | Laboratorio2/programa4mp.py:128 | `int` reads back a minus sign and a numeral as the negative value |
| `Text.AtoiDecimal` | Laboratorio3/codigo4v5.c:198 | `atoi` skips leading whitespace, reads a numeral and stops at the first non-digit |
| `Text.AtoiNegative` | Laboratorio3/codigo4v5.c:205 | `atoi` reads a minus sign and a numeral as the negative value |
| `Text.AtoiNoDigits` | Laboratorio3/codigo4v5.c:198 | text that has neither a sign nor a digit after its leading whitespace reads as 0 |
| `Text.Strip` | Laboratorio2/programa4mp.py:124 | definition of `str.strip()`; see `StripShape` and `StripIdempotent` |
| `Text.PyInt` | Laboratorio2/programa4mp.py:128 | definition of Python's `int(text)`; see `PyIntDecimal` and `PyIntNegative` (and the Left out line) |
| `Text.Atoi` | Laboratorio3/codigo4v5.c:198-205 | definition of C's `atoi`; see `AtoiDecimal`, `AtoiNegative` and `AtoiNoDigits` |
| `Text.UpperEnds` | Laboratorio2/programa3mp_dox.py:139 | upper-cased text keeps non-blank ends and has no lower-case letter left |
| `Text.SplitSpaced` | Laboratorio2/programa3mp_dox.py:142 | a token followed by a blank splits off as the first word, whatever follows |
| `CaptureConsole.Clamp` | Laboratorio2/programa4mp.py:48 | the result is always in 0..100, the identity on 0..100, 0 below and 100 above |
| `CaptureConsole.ClampNearest` | Laboratorio2/programa4mp.py:48 | the clamped value is the valid percentage closest to the input |
| `CaptureConsole.DutyU16` | Laboratorio2/programa4mp.py:49 | the duty is the floor of p * 65535 / 100: at most 65535, 0 only for 0, and 65535 for 100 |
| `CaptureConsole.DutyMonotone` | Laboratorio2/programa4mp.py:49 | a larger percentage never gives a smaller 16-bit duty |
| `CaptureConsole.SetPwm` | Laboratorio2/programa4mp.py:46-51 | the duty written is within 0..65535, 0 for any percentage at or below 0, full scale for any at or above 100, and in between the floor of p * 65535 / 100 |
| `CaptureConsole.FallingList` | Laboratorio2/programa4mp.py:65-69 | the `while actual > 0` loop builds 100 - inc, 100 - 2*inc, ... while positive |
| `CaptureConsole.DescentShape` | Laboratorio2/programa4mp.py:66-69 | the loop builds nothing exactly for an increment of 100, and otherwise only positive values |
| `CaptureConsole.Descent` | Laboratorio2/programa4mp.py:65-69 | definition of the while loop's list; see `DescentShape` and `FallingList` |
| `CaptureConsole.BajadaAsWritten` | Laboratorio2/programa4mp.py:65-73 | definition of the falling half as written, including the crash on an empty list; see `BajadaCrashesAt100` and `ElifUnreachable` |
| `CaptureConsole.Bajada` | Laboratorio2/programa4mp.py:65-73 | definition of the falling half as intended; see `BajadaShape`, `BajadaAgrees` and `BajadaVersusDownPhase` |
| `CaptureConsole.BajadaCrashesAt100` | Laboratorio2/programa4mp.py:70 | `bajada[-1]` raises IndexError exactly when the increment is 100 |
| `CaptureConsole.ElifUnreachable` | Laboratorio2/programa4mp.py:70-73 | the `elif bajada == []` branch never decides the result. A list that does not crash always gets one 0 appended |
| `CaptureConsole.BajadaShape` | Laboratorio2/programa4mp.py:64-73 | the intended falling half is non-empty, falls strictly, stays within 0..100 - inc and ends at 0, for every increment including 100 |
| `CaptureConsole.BajadaAgrees` | Laboratorio2/programa4mp.py:65-73 | where the code does not crash it builds the intended falling half |
| `CaptureConsole.BajadaVersusDownPhase` | Laboratorio2/programa4mp.py:62-75 | the falling half is that of programa3mp_dox.py plus a final 0 when the increment does not divide 100 |
| `CaptureConsole.UpWithin` | Laboratorio2/programa4mp.py:62 | `subida` starts at 0 and stays within 0..100 |
| `CaptureConsole.StepPwmShape` | Laboratorio2/programa4mp.py:75 | `step_pwm` starts and ends at 0, and every duty is in 0..100 |
| `CaptureConsole.StepPwmLength` | Laboratorio2/programa4mp.py:62-75 | a capture applies 2 * (100 / inc) + 1 duties when inc divides 100 and one more otherwise, so at most 201, reached at an increment of 1 |
| `CaptureConsole.StepPwm` | Laboratorio2/programa4mp.py:62-75 | definition of the duties one capture applies; see `StepPwmShape` and `StepPwmLength` |
| `CaptureConsole.StartCapture` | Laboratorio2/programa4mp.py:54-101 | a capture never crashes in the corrected model, ends with `capturing` cleared, appends exactly the printed rows to the buffer and leaves the sample index at their number; see `PrintsNewRows` |
| `CaptureConsole.StartCaptureAsWritten` | Laboratorio2/programa4mp.py:54-101 | the capture crashes exactly for increment 100, leaving `capturing` set and nothing applied |
| `CaptureConsole.PrintsNewRows` | Laboratorio2/programa4mp.py:77-101 | the intended capture applies the whole sweep and prints exactly the samples it recorded, at most 5000, all valid percentages. It appends them to the buffer and ends with the motor off and `capturing` cleared |
| `CaptureConsole.FirstCaptureAgrees` | Laboratorio2/programa4mp.py:54-101 | on the first capture, with an increment below 100, the code as written and the intended capture agree |
| `CaptureConsole.StaleRows` | Laboratorio2/programa4mp.py:97-98 | as written, the rows printed are the first entries of the whole buffer, not this capture's samples |
| `CaptureConsole.StaleRowsExample` | Laboratorio2/programa4mp.py:97-98 | with one sample per step, START a then START b prints a where b was applied |
| `CaptureConsole.OneSamplePerStep` | Laboratorio2/programa4mp.py:89-98 | with one sample per step the capture records exactly its duties and prints the front of the buffer |
| `CaptureConsole.Tail` | Laboratorio2/programa4mp.py:128 | `s[k:]` is the suffix from k, or empty past the end |
| `CaptureConsole.StartCommandReply` | Laboratorio2/programa4mp.py:127-134 | START replies Started exactly for `int` of the argument in 1..100, and otherwise changes nothing |
| `CaptureConsole.PwmCommandReply` | Laboratorio2/programa4mp.py:137-144 | PWM replies PwmSet exactly for `int` of the argument in 0..100, and otherwise changes nothing |
| `CaptureConsole.DispatchReplies` | Laboratorio2/programa4mp.py:123-154 | after `strip`: START and PWM are tested case-sensitively and in that order, STOP case-insensitively, and the blank line is ignored. STOP clears `sistema_activo` and applies 0. Every rejected line changes nothing |
| `CaptureConsole.StartCommandSettled` | Laboratorio2/programa4mp.py:126-134 | a START keeps the console settled and only appends to the buffer |
| `CaptureConsole.PwmCommandSettled` | Laboratorio2/programa4mp.py:136-144 | a PWM changes at most the duty, to a 16-bit value |
| `CaptureConsole.DispatchSettled` | Laboratorio2/programa4mp.py:123-154 | every command keeps the console settled: no capture running, duty at most 65535, sample index at most 5000, buffer of valid percentages. Only START touches the buffer, by appending, and nothing sets the system active again |
| `CaptureConsole.DispatchPwmLine` | Laboratorio2/programa4mp.py:136-140 | a stripped PWM line with a value in range sets the duty and applies that value |
| `CaptureConsole.PwmSetsDuty` | Laboratorio2/programa4mp.py:136-140 | `PWM <v>` as typed sets the 16-bit duty of v |
| `CaptureConsole.RunSettled` | Laboratorio2/programa4mp.py:121-154 | from any settled state, whatever is typed, the console stays settled, and once stopped it stays stopped |
| `CaptureConsole.BufferGrows` | Laboratorio2/programa4mp.py:89-93 | `pwm_buffer` only grows: the rows of earlier captures stay at its front |
| `CaptureConsole.StartCommand` | Laboratorio2/programa4mp.py:126-134 | the reply is started, out of range or invalid, and a refused START changes nothing, applies and prints nothing; see `StartCommandReply`, `StartCommandSettled` |
| `CaptureConsole.PwmCommand` | Laboratorio2/programa4mp.py:136-144 | the reply is set, out of range or invalid; only the duty may change, nothing is printed, and a refused PWM changes nothing; see `PwmCommandReply`, `PwmCommandSettled` |
| `CaptureConsole.Dispatch` | Laboratorio2/programa4mp.py:121-154 | only a capture prints rows and only STOP changes whether the system is active; see `DispatchReplies`, `DispatchSettled` |
| `CaptureConsole.Run` | Laboratorio2/programa4mp.py:121-154 | definition: the console after a sequence of lines; see `RunSettled` and `BufferGrows` |
| `CaptureConsole.CrashSilencesReports` | Laboratorio2/programa4mp.py:126-134 | as written, START 100 crashes with `capturing` still set, so the periodic report is off |
| `CaptureConsole.StartCommandAsWritten` | Laboratorio2/programa4mp.py:126-134 | as written, the START branch answers "Comando START inválido." exactly when the argument is not an integer or reads as 100, and for 100 leaves `capturing` set with nothing applied |
| `CaptureConsole.StartHundredSilences` | Laboratorio2/programa4mp.py:126-134 | an argument reading as 100 gets the invalid-command answer and leaves the periodic report off |
| `CaptureConsole.StartHundredAnswersInvalid` | Laboratorio2/programa4mp.py:124-134 | a line that strips to "START 100" takes the START branch, is answered "Comando START inválido.", leaves `capturing` set and applies nothing |
| `DutyMachine.Pins` | Laboratorio2/programa1mp_dox.py:100-112 | a chosen direction drives exactly one of IN1 and IN2 |
| `DutyMachine.InitInv` | Laboratorio2/programa1mp_dox.py:48-54 | the start-up state satisfies the invariant |
| `DutyMachine.ReadDutyCases` | Laboratorio2/programa1mp_dox.py:86-97 | a duty line is accepted exactly when `int` gives a value in 0..100, which then becomes the duty and its 16-bit level. Otherwise nothing changes |
| `DutyMachine.ReadDuty` | Laboratorio2/programa1mp_dox.py:87-97 | the reply is the accepting one, invalid input or out of range; the state changes only on acceptance, then to a duty within 0..100, and direction, readiness and bridge never change; see `ReadDutyCases` |
| `DutyMachine.Step` | Laboratorio2/programa1mp_dox.py:82-127 | a changed duty is within 0..100; once a direction is set it stays set and the bridge keeps its pins; a direction is set only after a duty was read, and then the machine is ready; see `StepInv`, `AwaitingDuty`, `AwaitingDirection`, `Running` |
| `DutyMachine.StepInv` | Laboratorio2/programa1mp_dox.py:82-127 | every line keeps the invariant: `ready` equals `direction_set`, the duty is -1 or in 0..100, a direction only follows a duty, and the bridge is driven exactly when a direction is set |
| `DutyMachine.AwaitingDuty` | Laboratorio2/programa1mp_dox.py:86-97 | while no duty is set, only an integer in 0..100 sets it, and anything else leaves the machine unchanged |
| `DutyMachine.AwaitingDirection` | Laboratorio2/programa1mp_dox.py:100-114 | "f" and "r" choose the direction and set `direction_set` and `ready` together, and any other line changes nothing |
| `DutyMachine.Running` | Laboratorio2/programa1mp_dox.py:117-127 | once running, the direction never changes. A valid integer updates the duty and anything else changes nothing |
| `DutyMachine.RunInv` | Laboratorio2/programa1mp_dox.py:80-127 | every state reached satisfies the invariant |
| `DutyMachine.RunMonotone` | Laboratorio2/programa1mp_dox.py:86-127 | a duty once set is never reset to -1, and a chosen direction is kept for good |
| `DutyMachine.Run` | Laboratorio2/programa1mp_dox.py:80-127 | definition: the machine after a sequence of lines; see `RunInv` and `RunMonotone` |
| `DutyMachine.StartForward` | Laboratorio2/programa1mp_dox.py:86-106 | typing a duty and then "f" drives the motor forward at that duty |
| `DutyMachine.DutyLine` | Laboratorio2/programa1mp_dox.py:83-88 | a numeral typed alone reads as its value |

## Left out

- Clocks, sleeps and busy waits are not modelled. `QueryPerformanceCounter`, `time_us_32`, `ticks_ms` and the 2 s, 4 ms, 50 ms and 500 ms windows all become parameters: a deadline oracle, or the number of sampling chances per step.
- Encoder speed figures are not modelled, because they are floating point. This covers `medir_rpm`, `calcular_rpm`, `calcular_velocidad`, the RPM and km/h formulas, and `rpm_irq`. `MotorRig.GpioCallback` returns the measured time difference instead of the RPM value.
- The float duty scaling `int(p * 65535 / 100)` is modelled as the exact floor. For whole percentages 0..100 the float quotient is never within rounding distance of the next integer. In `codigo4v5.c` the float level `pwm_wrap * porcentaje / 100.0f` is not modelled; only `pwm_actual` is.
- Interrupt concurrency is not modelled. The interrupt handlers are modelled as sequential steps, and `pulse_count` in the Python programs is not modelled at all.
- Printing, CSV formatting, timestamps and the RPM buffers are not modelled. Captures are followed through the duty values they apply, record and print.
- `SweepConsole.Step` does not model the 16-bit duty scaling of `set_pwm` in programa3mp_dox.py, only the percentage stored in `pwm_actual`.
- `CaptureConsole.Reports` models the `enviar_datos` guard: the duty is not 0, the system is active and no capture is running. It carries no contract, because the pulse counts that guard protects are not modelled.
- The 500 ms report loops of the consoles are not modelled. Neither is the once-a-second RPM report of programa1mp_dox.py; only its `ready` flag is.
- `CaptureConsole.Dispatch` uses the intended capture. The as-written START 100 path is modelled separately by `CaptureConsole.StartCaptureAsWritten` and `CaptureConsole.CrashSilencesReports`.
- `Text.PyInt` does not model all of Python's `int`. It skips the Unicode whitespace and digits beyond ASCII and the underscores that `int` also accepts; the consoles are typed in ASCII.
- `Text.Atoi` returns the unbounded value. The overflow of C's `atoi`, which is undefined behaviour, is not modelled.
- `Search.CountGraceful` keeps `contador` unbounded. A possible overflow of the 32-bit `int` counter is not modelled.
- `GracefulMain.Program` reports the 32-bit overflow of `tiempo * 60` as a separate outcome, because in C it is undefined behaviour.
- Argument parsing in programa.c is not modelled: `argc` and the `atoi` of `argv`. Neither is the `%llu` conversion given an `int` on line 112.
- The arrays of programa.c are immutable sequences threaded through the recursion, not heap arrays. `malloc` and `free` become fresh sequences per call.
- `MotorRig.Fgets` models the returned line only, not the input left behind. A command longer than 31 characters would be read as several lines.
- `MotorRig.From`: a line "START" or "PWM" with no newline at the end of input makes `&comando[6]` or `&comando[4]` in codigo4v5.c (lines 198 and 205) point past the terminating NUL into uninitialised bytes of `comando[32]`. The model reads an empty text there, so `atoi` gives 0; the C result is undefined.
- `GracefulMain.ElapsedMicros` computes `(actual - comienzo) * 1000000` exactly. In programa.c line 26 the product is signed 64-bit and overflows once the tick difference exceeds 2^63 / 10^6, about 10.7 days at a 10 MHz counter, while `LimitMicros` admits budgets of many years. The model does not represent that overflow.
- The `capturando` flag of codigo4v5.c is written but never read, so it is not modelled.
- `TrianglePwm.ChannelLevel` and `TrianglePwm.LevelWithinWrap` state the 32-bit values computed at lines 43, 45 and 52, not what the slice holds. The SDK's `pwm_set_wrap` and `pwm_set_chan_level` take `uint16_t`, so both values are narrowed modulo 2^16. `TrianglePwm.WrittenTop` and `TrianglePwm.WrittenLevel` model that narrowing, and it changes nothing only below 65.537 MHz (`TopKeptIff`). The system clock itself comes from `clock_get_hz` and is a parameter of the model.
- In codigo2v1.c, GPIO writes and setting the direction pins are not modelled, and neither are the infinite outer loops beyond one turn or one tick at a time.
- programamp.py and programa1mp.py repeat the state machine of programa1mp_dox.py with blocking input. The machine is modelled once, from programa1mp_dox.py.
- programa3mp_dox.py does not parse as Python: the `///<` trailers on lines 18-36 are not valid syntax. The model follows the evident intent of `start_capture` and of the command parser.
- The register-map library and the other lab scripts are not modelled. They contain no logic beyond hardware access, float arithmetic or fixed lists.

## Findings

| source | as written | input that shows it | evidently intended | confidence | as-written member | corrected member |
|---|---|---|---|---|---|---|
| Laboratorio2/programa4mp.py:70-73 | `bajada[-1]` is read before the empty case is tested. For an increment of 100 the `while actual > 0` loop builds nothing, the index raises IndexError, and the bare `except` of lines 133-134 answers "Comando START inválido." with `capturing` left True, so the periodic report stops. The `elif bajada == []` branch can never run | `START 100`, which passes the check `0 < valor <= 100` | test for the empty list first, so that increment 100 sweeps 0, 100, 0 | not executed | `CaptureConsole.BajadaCrashesAt100`, `CaptureConsole.StartHundredAnswersInvalid` | `CaptureConsole.BajadaShape` |
| Laboratorio2/programa4mp.py:97-98 | the rows printed are `pwm_buffer[0..sample_index)`. `sample_index` is reset for each capture but the buffers never are, so every capture after the first prints the first capture's rows | `START 50` then `START 25`, with one sample per step: the second capture applies 0, 25, ... and prints 0, 50, ... | print the rows this capture recorded, the last `sample_index` entries | not executed | `CaptureConsole.StaleRowsExample` | `CaptureConsole.PrintsNewRows` |
