/** The arithmetic around the search in Laboratorio1/programa.c: the
    reported group count, the time budget in microseconds, the deadline
    test against the performance counter, and the range check in `main`. */
module GracefulMain {
  import opened Graceful
  import opened Search
  import opened Options

  /** 2^64: `unsigned long long` arithmetic wraps modulo this. */
  const U64: nat := 0x1_0000_0000_0000_0000

  /** The exact factorial: 1 for k <= 1, k * (k-1)! otherwise. */
  function Fact(k: int): nat
    decreases k
  {
    if k <= 1 then 1 else k * Fact(k - 1)
  }

  /** Reducing a factor modulo 2^64 first does not change the product modulo 2^64. */
  lemma MulMod(a: nat, b: nat)
    ensures (a % U64) * b % U64 == a * b % U64
  {
    var q := a / U64;
    var r := a % U64;
    assert a * b == (q * b) * U64 + r * b;
  }

  /** `factorial(n)` (lines 14-20): the product 2 * 3 * ... * n in
      `unsigned long long`, so the exact factorial reduced modulo 2^64. */
  method Factorial(n: int) returns (resultado: nat)
    ensures resultado == Fact(n) % U64
    ensures resultado < U64
  {
    resultado := 1;
    var i := 2;
    while i <= n
      invariant 2 <= i
      invariant i <= n + 1 || i == 2
      invariant resultado == Fact(i - 1) % U64
    {
      MulMod(Fact(i - 1), i);
      resultado := resultado * i % U64;
      i := i + 1;
    }
  }

  /** The factorials up to 21!, one unfolding at a time. */
  lemma FactTable()
    ensures Fact(20) == 2432902008176640000
    ensures Fact(21) == 51090942171709440000
  {
    assert Fact(2) == 2;
    assert Fact(3) == 6;
    assert Fact(4) == 24;
    assert Fact(5) == 120;
    assert Fact(6) == 720;
    assert Fact(7) == 5040;
    assert Fact(8) == 40320;
    assert Fact(9) == 362880;
    assert Fact(10) == 3628800;
    assert Fact(11) == 39916800;
    assert Fact(12) == 479001600;
    assert Fact(13) == 6227020800;
    assert Fact(14) == 87178291200;
    assert Fact(15) == 1307674368000;
    assert Fact(16) == 20922789888000;
    assert Fact(17) == 355687428096000;
    assert Fact(18) == 6402373705728000;
    assert Fact(19) == 121645100408832000;
    assert Fact(20) == 2432902008176640000;
    assert Fact(21) == 51090942171709440000;
  }

  lemma {:induction false} FactMonotone(a: int, b: int)
    requires a <= b
    ensures Fact(a) <= Fact(b)
    decreases b - a
  {
    if a < b {
      FactMonotone(a, b - 1);
    }
  }

  /** Up to 20 the factorial fits in 64 bits, so the wrapped product is exact. */
  lemma FactorialExactUpTo20(k: int)
    requires k <= 20
    ensures Fact(k) < U64
    ensures Fact(k) % U64 == Fact(k)
  {
    FactMonotone(k, 20);
    FactTable();
  }

  /** 21! exceeds 2^64: for n from 22 to 50, which the range check of line 90
      admits, `factorial(n - 1)` reports a wrapped value. */
  lemma FactorialWrapsAt21()
    ensures Fact(21) >= U64
    ensures Fact(21) % U64 != Fact(21)
  {
    FactTable();
  }

  /** The time budget in microseconds, `tiempo * 60 * 1000000LL` (line 97).
      The first product is taken in 32-bit `int`; when it overflows the C
      behaviour is undefined, which the model reports as None. */
  function LimitMicros(tiempo: int): (r: Option<int>)
    ensures r.Some? <==> -0x8000_0000 <= tiempo * 60 < 0x8000_0000
    ensures r.Some? ==> r.value == tiempo * 60_000_000
    ensures r.Some? ==> -0x8000_0000_0000_0000 <= r.value < 0x8000_0000_0000_0000
  {
    var minutes60 := tiempo * 60;
    if -0x8000_0000 <= minutes60 < 0x8000_0000 then Some(minutes60 * 1_000_000) else None
  }

  /** Elapsed microseconds, `ticks * 1000000LL / frecuencia` (lines 26, 104),
      for a non-negative tick difference and a positive counter frequency. */
  function ElapsedMicros(ticks: nat, frecuencia: nat): (r: nat)
    requires frecuencia > 0
    ensures r * frecuencia <= ticks * 1_000_000 < (r + 1) * frecuencia
  {
    ticks * 1_000_000 / frecuencia
  }

  /** The deadline test of line 28. */
  predicate TimeUp(ticks: nat, frecuencia: nat, limite: int)
    requires frecuencia > 0
  {
    ElapsedMicros(ticks, frecuencia) >= limite
  }

  /** In counter ticks: time is up exactly when ticks * 10^6 >= limit * frequency. */
  lemma TimeUpInTicks(ticks: nat, frecuencia: nat, limite: int)
    requires frecuencia > 0
    ensures TimeUp(ticks, frecuencia, limite) <==> ticks * 1_000_000 >= limite * frecuencia
  {
    var e := ElapsedMicros(ticks, frecuencia);
    if e >= limite {
      MulLe(limite, e, frecuencia);
    } else {
      MulLe(e + 1, limite, frecuencia);
    }
  }

  lemma MulLe(a: int, b: int, c: nat)
    requires a <= b
    ensures a * c <= b * c
  {
  }

  /** Once the deadline has passed it stays passed: the test is monotone in
      the counter reading. */
  lemma TimeUpMonotone(t1: nat, t2: nat, frecuencia: nat, limite: int)
    requires frecuencia > 0 && t1 <= t2
    ensures TimeUp(t1, frecuencia, limite) ==> TimeUp(t2, frecuencia, limite)
  {
    TimeUpInTicks(t1, frecuencia, limite);
    TimeUpInTicks(t2, frecuencia, limite);
    MulLe(t1, t2, 1_000_000);
  }

  /** A budget of zero minutes or less is already spent at the first check. */
  lemma NoBudgetExpires(tiempo: int, ticks: nat, frecuencia: nat)
    requires frecuencia > 0 && tiempo <= 0 && LimitMicros(tiempo).Some?
    ensures TimeUp(ticks, frecuencia, LimitMicros(tiempo).value)
  {
  }

  /** What `main` prints, as a value. */
  datatype Report =
    | OutOfRange
    | BudgetOverflow
    | Finished(count: nat, timedOut: bool, groups: nat)

  /** `main` (lines 82-116) after argument parsing: the range check of
      line 90, the budget of line 97, the group count of line 99 and the
      search of line 100. `ticks(k)` is the counter difference from
      `comienzo` observed at the k-th deadline check. */
  method Program(n: int, tiempo: int, frecuencia: nat, ticks: nat -> nat) returns (r: Report)
    requires frecuencia > 0
    ensures (n < 0 || n > 50) <==> r == OutOfRange
    ensures r.Finished? ==> 0 <= n <= 50 && r.count <= |GracefulSet(n)|
    ensures r.Finished? && !r.timedOut ==> r.count == |GracefulSet(n)|
    ensures r.Finished? ==> r.groups == (if n > 1 then Fact(n - 1) % U64 else 1)
    ensures r.Finished? && n <= 21 ==> r.groups == Fact(n - 1)
    // a budget of zero minutes finds nothing, except for the n == 1 shortcut
    ensures r.Finished? && tiempo <= 0 && n != 1 ==> r.count == 0 && r.timedOut
    ensures r.Finished? && n == 1 ==> r.count == 1 && !r.timedOut
  {
    if n < 0 || n > 50 {
      return OutOfRange;
    }
    var limite := LimitMicros(tiempo);
    if limite.None? {
      return BudgetOverflow;
    }
    var groups := 1;
    if n > 1 {
      groups := Factorial(n - 1);
      if n <= 21 {
        FactorialExactUpTo20(n - 1);
      }
    }
    var expired := (k: nat) => TimeUp(ticks(k), frecuencia, limite.value);
    if tiempo <= 0 {
      NoBudgetExpires(tiempo, ticks(0), frecuencia);
    }
    var count, session := CountGraceful(n, expired, Session(0, false, 0));
    r := Finished(count, session.agotado, groups);
  }
}
