/** The up-then-down duty sweep of the capture routines: Python's
    `range(start, stop, step)` and the sequence built from two ranges,
    0, inc, 2*inc, ... up to 100 and then 100 - inc, 100 - 2*inc, ... down
    to 0. The C loops of `captura_reaccion` apply the same values. */
module Sweep {

  /** Python's `range(start, stop, step)` as a list (step 0 raises in
      Python and is excluded). */
  function PyRange(start: int, stop: int, step: int): seq<int>
    requires step != 0
    decreases if step > 0 then stop - start else start - stop
  {
    if step > 0 then
      (if start < stop then [start] + PyRange(start + step, stop, step) else [])
    else
      (if start > stop then [start] + PyRange(start + step, stop, step) else [])
  }

  /** An ascending range is the arithmetic progression from start that
      stops at the first term reaching stop. */
  lemma {:induction false} RangeUp(start: int, stop: int, step: int)
    requires step > 0
    ensures var r := PyRange(start, stop, step);
      && (forall k :: 0 <= k < |r| ==> r[k] == start + k * step)
      && start + |r| * step >= stop
      && (|r| > 0 ==> start + (|r| - 1) * step < stop)
    decreases stop - start
  {
    var r := PyRange(start, stop, step);
    if start < stop {
      var t := PyRange(start + step, stop, step);
      RangeUp(start + step, stop, step);
      assert r == [start] + t;
      forall k | 1 <= k < |r|
        ensures r[k] == start + k * step
      {
        assert r[k] == t[k - 1] == start + step + (k - 1) * step;
      }
      assert start + |r| * step == start + step + |t| * step;
    }
  }

  /** A descending range, likewise. */
  lemma {:induction false} RangeDown(start: int, stop: int, step: int)
    requires step < 0
    ensures var r := PyRange(start, stop, step);
      && (forall k :: 0 <= k < |r| ==> r[k] == start + k * step)
      && start + |r| * step <= stop
      && (|r| > 0 ==> start + (|r| - 1) * step > stop)
    decreases start - stop
  {
    var r := PyRange(start, stop, step);
    if start > stop {
      var t := PyRange(start + step, stop, step);
      RangeDown(start + step, stop, step);
      assert r == [start] + t;
      forall k | 1 <= k < |r|
        ensures r[k] == start + k * step
      {
        assert r[k] == t[k - 1] == start + step + (k - 1) * step;
      }
      assert start + |r| * step == start + step + |t| * step;
    }
  }

  /** q is the quotient of x by d when q*d <= x < (q+1)*d. */
  lemma DivUnique(q: int, x: int, d: int)
    requires d > 0 && q * d <= x < (q + 1) * d
    ensures q == x / d
  {
    var q' := x / d;
    assert q' * d <= x < (q' + 1) * d by {
      assert x == q' * d + x % d && 0 <= x % d < d;
    }
    LessFromMul(q', q + 1, d);
    LessFromMul(q, q' + 1, d);
  }

  /** r is the remainder of x by d when x = q*d + r with 0 <= r < d. */
  lemma ModUnique(q: int, r: int, x: int, d: int)
    requires d > 0 && x == q * d + r && 0 <= r < d
    ensures x % d == r
  {
    assert (q + 1) * d == q * d + d;
    DivUnique(q, x, d);
    assert x == x / d * d + x % d;
  }

  /** Subtracting the divisor keeps the remainder. */
  lemma ModShift(a: int, d: int)
    requires d > 0
    ensures (a - d) % d == a % d
  {
    var q := a / d;
    assert a == q * d + a % d;
    assert a - d == (q - 1) * d + a % d;
    ModUnique(q - 1, a % d, a - d, d);
  }

  /** Multiplying by a non-negative factor keeps the order. */
  lemma MulMono(a: int, b: int, c: int)
    requires a <= b && 0 <= c
    ensures a * c <= b * c
  {
    assert b * c == a * c + (b - a) * c;
  }

  /** A positive factor can be cancelled from a strict inequality. */
  lemma LessFromMul(a: int, b: int, c: int)
    requires c > 0 && a * c < b * c
    ensures a < b
  {
    if b <= a {
      MulMono(b, a, c);
    }
  }

  /** Moving the head of the remaining values to the end of the done part
      keeps their concatenation. */
  lemma MoveFront(done: seq<int>, x: int, rest: seq<int>, whole: seq<int>)
    requires done + ([x] + rest) == whole
    ensures done + [x] + rest == whole
  {
    assert done + [x] + rest == done + ([x] + rest);
  }

  /** The rising half, `range(0, 101, inc)`. */
  function UpPhase(inc: int): seq<int>
    requires 1 <= inc <= 100
  {
    PyRange(0, 101, inc)
  }

  /** The falling half, `range(100 - inc, -1, -inc)`. */
  function DownPhase(inc: int): seq<int>
    requires 1 <= inc <= 100
  {
    PyRange(100 - inc, -1, -inc)
  }

  /** The whole sweep. */
  function Sequence(inc: int): seq<int>
    requires 1 <= inc <= 100
  {
    UpPhase(inc) + DownPhase(inc)
  }

  /** The rising half is 0, inc, 2*inc, ... up to the largest multiple of
      inc not above 100. */
  lemma UpShape(inc: int)
    requires 1 <= inc <= 100
    ensures |UpPhase(inc)| == 100 / inc + 1
    ensures forall k :: 0 <= k < |UpPhase(inc)| ==> UpPhase(inc)[k] == k * inc
    ensures UpPhase(inc)[|UpPhase(inc)| - 1] == 100 / inc * inc
  {
    var r := UpPhase(inc);
    RangeUp(0, 101, inc);
    assert |r| > 0;
    DivUnique(|r| - 1, 100, inc);
  }

  /** The falling half is 100 - inc, 100 - 2*inc, ... while not below 0;
      it has 100/inc entries and its last one is 100 mod inc. */
  lemma DownShape(inc: int)
    requires 1 <= inc <= 100
    ensures |DownPhase(inc)| == 100 / inc
    ensures forall k :: 0 <= k < |DownPhase(inc)| ==> DownPhase(inc)[k] == 100 - (k + 1) * inc
    ensures DownPhase(inc)[|DownPhase(inc)| - 1] == 100 % inc
  {
    DownElems(inc);
    DownLength(inc);
    var r := DownPhase(inc);
    assert r[|r| - 1] == 100 % inc by {
      assert r[|r| - 1] == 100 - |r| * inc;
      assert 100 / inc * inc + 100 % inc == 100;
    }
  }

  lemma DownElems(inc: int)
    requires 1 <= inc <= 100
    ensures forall k :: 0 <= k < |DownPhase(inc)| ==> DownPhase(inc)[k] == 100 - (k + 1) * inc
  {
    var r := DownPhase(inc);
    RangeDown(100 - inc, -1, -inc);
    forall k | 0 <= k < |r|
      ensures r[k] == 100 - (k + 1) * inc
    {
      assert r[k] == 100 - inc + k * (-inc);
      assert k * (-inc) == -(k * inc) && (k + 1) * inc == k * inc + inc;
    }
  }

  lemma DownLength(inc: int)
    requires 1 <= inc <= 100
    ensures |DownPhase(inc)| == 100 / inc
  {
    var r := DownPhase(inc);
    var n := |r|;
    RangeDown(100 - inc, -1, -inc);
    assert n * inc <= 100 < (n + 1) * inc by {
      assert 100 - inc + n * (-inc) <= -1;
      assert n > 0;
      assert 100 - inc + (n - 1) * (-inc) > -1;
      assert n * (-inc) == -(n * inc) && (n - 1) * (-inc) == -(n * inc) + inc;
      assert (n + 1) * inc == n * inc + inc;
    }
    DivUnique(n, 100, inc);
  }

  /** Every value of the sweep is a valid duty in 0..100; the sweep has
      2*(100/inc) + 1 entries, starts at 0, rises strictly, then falls
      strictly from below its peak, so the peak is applied once. */
  lemma SequenceShape(inc: int)
    requires 1 <= inc <= 100
    ensures var s := Sequence(inc); var u := |UpPhase(inc)|;
      && |s| == 2 * (100 / inc) + 1
      && s[0] == 0
      && (forall k :: 0 <= k < |s| ==> 0 <= s[k] <= 100)
      && (forall k :: 0 < k < u ==> s[k - 1] < s[k])
      && (forall k :: u <= k < |s| ==> s[k - 1] > s[k])
  {
    var up := UpPhase(inc);
    var down := DownPhase(inc);
    var s := Sequence(inc);
    UpShape(inc);
    DownShape(inc);
    var q := 100 / inc;
    assert q * inc <= 100;
    forall k | 0 <= k < |up|
      ensures 0 <= s[k] <= 100
    {
      assert s[k] == k * inc;
      MulMono(k, q, inc);
    }
    forall k | |up| <= k < |s|
      ensures 0 <= s[k] <= 100 && s[k - 1] > s[k]
    {
      var j := k - |up|;
      assert s[k] == down[j] == 100 - (j + 1) * inc;
      MulMono(j + 1, q, inc);
      if j > 0 {
        assert s[k - 1] == 100 - j * inc;
      } else {
        assert s[k - 1] == q * inc;
        assert 100 - q * inc == 100 % inc < inc;
      }
    }
    forall k | 0 < k < |up|
      ensures s[k - 1] < s[k]
    {
      assert s[k - 1] == (k - 1) * inc;
    }
  }

  /** The sweep returns to 0 exactly when inc divides 100; otherwise it
      stops at 100 mod inc. */
  lemma SequenceEnd(inc: int)
    requires 1 <= inc <= 100
    ensures Sequence(inc)[|Sequence(inc)| - 1] == 100 % inc
    ensures Sequence(inc)[|Sequence(inc)| - 1] == 0 <==> 100 % inc == 0
  {
    DownShape(inc);
    var s := Sequence(inc);
    assert s[|s| - 1] == DownPhase(inc)[|DownPhase(inc)| - 1];
  }

  /** Steps of 30 stop short of 0: the falling half is 70, 40, 10. */
  lemma SequenceThirty()
    ensures Sequence(30) == [0, 30, 60, 90, 70, 40, 10]
  {
    assert UpPhase(30) == [0, 30, 60, 90];
    assert DownPhase(30) == [70, 40, 10];
  }
}
