/** The time-bounded backtracking counter of Laboratorio1/programa.c.

    The three heap arrays `perm`, `usado` and `diferencias` are threaded
    through the recursion as sequences: each call receives their current
    contents and returns the contents it leaves behind. The globals
    `contador` and `tiempo_agotado` are threaded the same way. Reading the
    performance counter is replaced by an oracle `expired` that answers the
    k-th "has the deadline passed?" question; `queries` counts the questions
    asked so far. */
module Search {
  import opened Graceful

  /** The arrays describe the prefix s: `usado[v]` iff v is placed, and
      `diferencias[d]` iff d is a difference between consecutive placed values. */
  ghost predicate Tracks(n: nat, s: seq<int>, usado: seq<bool>, diferencias: seq<bool>)
  {
    && |usado| == n + 1
    && |diferencias| == n
    && (forall v :: 0 <= v <= n ==> (usado[v] <==> v in s))
    && (forall d :: 0 <= d < n ==> (diferencias[d] <==> d in GapSet(s)))
  }

  /** The frame invariant on entry to `backtrack(pos)`: the first pos
      entries of perm form a valid search state and the two flag arrays
      describe it. */
  ghost predicate Frame(n: nat, perm: seq<int>, usado: seq<bool>, diferencias: seq<bool>, pos: nat)
  {
    && |perm| == n
    && pos <= n
    && Partial(n, perm[..pos])
    && Tracks(n, perm[..pos], usado, diferencias)
  }

  /** The global state of programa.c that survives across calls. */
  datatype Session = Session(contador: nat, agotado: bool, queries: nat)

  /** Fresh flag arrays describe the empty prefix. */
  lemma FreshFrame(n: nat)
    ensures Frame(n, seq(n, _ => 0), seq(n + 1, _ => false), seq(n, _ => false), 0)
  {
  }

  /** Placing v at position |s| (lines 44, 47-48) moves the flags to s + [v]. */
  lemma Place(n: nat, s: seq<int>, usado: seq<bool>, diferencias: seq<bool>, v: int)
    requires Tracks(n, s, usado, diferencias) && 1 <= v <= n && v !in s
    requires |s| >= 1 ==> Dist(v, s[|s| - 1]) < n
    ensures |s| == 0 ==> Tracks(n, s + [v], usado[v := true], diferencias)
    ensures |s| >= 1 ==> Tracks(n, s + [v], usado[v := true], diferencias[Dist(v, s[|s| - 1]) := true])
  {
    if |s| >= 1 {
      GapSetSnoc(s, v);
    }
  }

  /** A value that is not used differs from the last placed value, so the
      `diff < 1` test of line 41 never fires. */
  lemma GapPositive(n: nat, s: seq<int>, usado: seq<bool>, diferencias: seq<bool>, v: int)
    requires Tracks(n, s, usado, diferencias) && |s| >= 1 && 0 <= v <= n && !usado[v]
    ensures Dist(v, s[|s| - 1]) >= 1
  {
    assert s[|s| - 1] in s;
  }

  /** A candidate the tests of lines 38 and 41 reject starts no graceful
      permutation, so skipping it loses nothing from the count. */
  lemma Reject(n: nat, s: seq<int>, usado: seq<bool>, diferencias: seq<bool>, v: int)
    requires Partial(n, s) && |s| < n && Tracks(n, s, usado, diferencias) && 1 <= v <= n
    requires usado[v] || (|s| >= 1 && (Dist(v, s[|s| - 1]) >= n || diferencias[Dist(v, s[|s| - 1])]))
    ensures |Below(n, s, v + 1)| == |Below(n, s, v)|
  {
    BelowStep(n, s, v);
    ExtendIff(n, s, v);
    DeadCompletions(n, s + [v]);
  }

  /** A candidate that passes the tests extends the search state, and the
      flags after placing it (lines 44, 47-48) describe the longer prefix. */
  lemma Accept(n: nat, s: seq<int>, usado: seq<bool>, diferencias: seq<bool>, v: int)
    requires Partial(n, s) && |s| < n && Tracks(n, s, usado, diferencias) && 1 <= v <= n
    requires !usado[v]
    requires |s| >= 1 ==> Dist(v, s[|s| - 1]) < n && !diferencias[Dist(v, s[|s| - 1])]
    ensures Partial(n, s + [v])
    ensures |s| == 0 ==> Tracks(n, s + [v], usado[v := true], diferencias)
    ensures |s| >= 1 ==> Tracks(n, s + [v], usado[v := true], diferencias[Dist(v, s[|s| - 1]) := true])
    ensures |Below(n, s, v + 1)| == |Below(n, s, v)| + |Completions(n, s + [v])|
  {
    BelowStep(n, s, v);
    if |s| >= 1 {
      GapPositive(n, s, usado, diferencias, v);
    }
    ExtendIff(n, s, v);
    Place(n, s, usado, diferencias, v);
  }

  /** Writing slot pos extends the prefix perm[..pos] by one entry. */
  lemma WriteSlot(perm: seq<int>, pos: nat, v: int)
    requires pos < |perm|
    ensures perm[pos := v][..pos + 1] == perm[..pos] + [v]
  {
  }

  /** A prefix fixed up to pos + 1 is fixed up to pos as well. */
  lemma ShorterPrefix(perm: seq<int>, pos: nat, t: seq<int>)
    requires pos < |perm| && perm[..pos + 1] == t
    ensures perm[..pos] == t[..pos]
    ensures pos >= 1 ==> perm[pos - 1] == t[pos - 1]
  {
    assert perm[..pos] == perm[..pos + 1][..pos];
  }

  /** Clearing a flag that was set from false restores the array (lines 53, 55). */
  lemma Unmark(flags: seq<bool>, i: nat)
    requires i < |flags| && !flags[i]
    ensures flags[i := true][i := false] == flags
  {
  }

  /** `backtrack(perm, usado, diferencias, n, pos)` (lines 23-59): the
      deadline check, the base case, then the candidate loop in Expand. */
  method Backtrack(n: nat, perm: seq<int>, usado: seq<bool>, diferencias: seq<bool>, pos: nat,
                   contador: nat, agotado: bool, expired: nat -> bool, queries: nat)
    returns (perm': seq<int>, usado': seq<bool>, diferencias': seq<bool>,
             contador': nat, agotado': bool, queries': nat, ghost stop: nat)
    requires Frame(n, perm, usado, diferencias, pos)
    // the deeper recursion never writes the placed prefix
    ensures |perm'| == n && perm'[..pos] == perm[..pos]
    // the arrays are left describing some prefix at least as deep as pos
    ensures pos <= stop <= n && Frame(n, perm', usado', diferencias', stop)
    // place/undo symmetry: a normal return restores both flag arrays
    ensures !agotado' ==> stop == pos && usado' == usado && diferencias' == diferencias
    // the flag is sticky and the counter only grows
    ensures agotado ==> agotado'
    ensures contador <= contador' <= contador + |Completions(n, perm[..pos])|
    // without a timeout every graceful completion of the prefix is counted once
    ensures !agotado' ==> contador' == contador + |Completions(n, perm[..pos])|
    ensures !agotado && (forall k :: queries <= k ==> !expired(k)) ==> !agotado'
    // the clock is read first, before the base case
    ensures queries < queries'
    ensures expired(queries) ==>
      agotado' && contador' == contador && queries' == queries + 1 &&
      perm' == perm && usado' == usado && diferencias' == diferencias
    decreases n - pos, 2
  {
    queries' := queries + 1;
    if expired(queries) {
      return perm, usado, diferencias, contador, true, queries', pos;
    }
    if pos == n {
      FullCompletions(n, perm[..pos]);
      return perm, usado, diferencias, contador + 1, agotado, queries', pos;
    }
    perm', usado', diferencias', contador', agotado', queries', stop :=
      Expand(n, perm, usado, diferencias, pos, contador, agotado, expired, queries');
  }

  /** The candidate loop of lines 37-58 at a depth pos < n: try 1..n in
      increasing order, skip the ones lines 38 and 41 reject, descend into
      the others, and return as soon as a descent comes back timed out. */
  method Expand(n: nat, perm: seq<int>, usado: seq<bool>, diferencias: seq<bool>, pos: nat,
                contador: nat, agotado: bool, expired: nat -> bool, queries: nat)
    returns (perm': seq<int>, usado': seq<bool>, diferencias': seq<bool>,
             contador': nat, agotado': bool, queries': nat, ghost stop: nat)
    requires Frame(n, perm, usado, diferencias, pos) && pos < n
    ensures |perm'| == n && perm'[..pos] == perm[..pos]
    ensures pos <= stop <= n && Frame(n, perm', usado', diferencias', stop)
    ensures !agotado' ==> stop == pos && usado' == usado && diferencias' == diferencias
    ensures agotado ==> agotado'
    ensures contador <= contador' <= contador + |Completions(n, perm[..pos])|
    ensures !agotado' ==> contador' == contador + |Completions(n, perm[..pos])|
    ensures !agotado && (forall k :: queries <= k ==> !expired(k)) ==> !agotado'
    ensures queries <= queries'
    decreases n - pos, 1
  {
    ghost var s := perm[..pos];
    perm', usado', diferencias', contador', agotado', queries', stop :=
      perm, usado, diferencias, contador, agotado, queries, pos;
    BelowFirst(n, s);
    var num := 1;
    while num <= n
      invariant 1 <= num <= n + 1
      invariant |perm'| == n && perm'[..pos] == s
      invariant usado' == usado && diferencias' == diferencias && agotado' == agotado && stop == pos
      invariant contador' == contador + (if agotado then 0 else |Below(n, s, num)|)
      invariant queries <= queries'
      decreases n + 1 - num
    {
      if usado'[num] {
        Reject(n, s, usado, diferencias, num);
        num := num + 1;
        continue;
      }
      if pos > 0 {
        var diff := Dist(num, perm'[pos - 1]);
        if diff < 1 || diff >= n || diferencias'[diff] {
          GapPositive(n, s, usado, diferencias, num);
          Reject(n, s, usado, diferencias, num);
          num := num + 1;
          continue;
        }
      }
      Accept(n, s, usado, diferencias, num);
      ghost var childStop;
      perm', usado', diferencias', contador', agotado', queries', childStop :=
        Descend(n, perm', usado', diferencias', pos, num, contador', agotado', expired, queries');
      if agotado' {
        BelowBound(n, s, num + 1);
        stop := childStop;
        return;
      }
      num := num + 1;
    }
    BelowLast(n, s);
  }

  /** Lines 44-56 for a candidate num that passed the tests: mark the
      difference and the value, place num at pos, recurse, and undo the
      marks unless the deadline was reached (line 51). */
  method Descend(n: nat, perm: seq<int>, usado: seq<bool>, diferencias: seq<bool>, pos: nat, num: int,
                 contador: nat, agotado: bool, expired: nat -> bool, queries: nat)
    returns (perm': seq<int>, usado': seq<bool>, diferencias': seq<bool>,
             contador': nat, agotado': bool, queries': nat, ghost stop: nat)
    requires Frame(n, perm, usado, diferencias, pos) && pos < n && 1 <= num <= n
    requires !usado[num]
    requires pos >= 1 ==> Dist(num, perm[pos - 1]) < n && !diferencias[Dist(num, perm[pos - 1])]
    ensures |perm'| == n && perm'[..pos] == perm[..pos]
    ensures pos <= stop <= n && Frame(n, perm', usado', diferencias', stop)
    // a normal return undoes the placement exactly
    ensures !agotado' ==> stop == pos && usado' == usado && diferencias' == diferencias
    // the timeout path returns with num still placed at pos
    ensures agotado' ==> pos < stop && perm'[pos] == num
    ensures agotado ==> agotado'
    ensures contador <= contador' <= contador + |Completions(n, perm[..pos] + [num])|
    ensures !agotado' ==> contador' == contador + |Completions(n, perm[..pos] + [num])|
    ensures !agotado && (forall k :: queries <= k ==> !expired(k)) ==> !agotado'
    ensures queries < queries'
    decreases n - pos, 0
  {
    ghost var s := perm[..pos];
    Accept(n, s, usado, diferencias, num);
    diferencias' := diferencias;
    if pos > 0 {
      diferencias' := diferencias'[Dist(num, perm[pos - 1]) := true];
    }
    WriteSlot(perm, pos, num);
    perm' := perm[pos := num];
    usado' := usado[num := true];
    ghost var usadoIn, diferenciasIn := usado', diferencias';
    perm', usado', diferencias', contador', agotado', queries', stop :=
      Backtrack(n, perm', usado', diferencias', pos + 1, contador, agotado, expired, queries);
    ShorterPrefix(perm', pos, s + [num]);
    if agotado' {
      return;
    }
    assert usado' == usadoIn && diferencias' == diferenciasIn;
    usado' := usado'[num := false];
    Unmark(usado, num);
    if pos > 0 {
      assert perm'[pos - 1] == s[pos - 1];
      Unmark(diferencias, Dist(num, s[pos - 1]));
      diferencias' := diferencias'[Dist(num, perm'[pos - 1]) := false];
    }
    stop := pos;
  }

  /** `contar_permutaciones_graciles(n)` (lines 62-80), with the globals it
      reads and writes carried in `session`. */
  method CountGraceful(n: nat, expired: nat -> bool, session: Session) returns (r: nat, session': Session)
    // n == 1 is answered before any clock read and leaves the globals alone
    ensures n == 1 ==> r == 1 && session' == session
    ensures n != 1 ==> r == session'.contador && session'.queries > session.queries
    // the timeout flag is never cleared
    ensures session.agotado ==> session'.agotado
    // the result is a lower bound, and exact when no timeout was observed
    ensures r <= |GracefulSet(n)|
    ensures !session'.agotado ==> r == |GracefulSet(n)|
    ensures !session.agotado && (forall k :: session.queries <= k ==> !expired(k)) ==> !session'.agotado
    // an expired deadline at the first check yields 0 for every n but 1
    ensures n != 1 && expired(session.queries) ==> r == 0 && session'.agotado
  {
    if n == 1 {
      GracefulOne();
      return 1, session;
    }
    var perm := seq(n, _ => 0);
    var usado := seq(n + 1, _ => false);
    var diferencias := seq(n, _ => false);
    FreshFrame(n);
    CompletionsOfEmpty(n);
    assert perm[..0] == [];
    var perm', usado', diferencias', contador, agotado, queries, stop :=
      Backtrack(n, perm, usado, diferencias, 0, 0, session.agotado, expired, session.queries);
    r := contador;
    session' := Session(contador, agotado, queries);
  }

  /** The shortcut for n == 1 agrees with the definition: [1] is the only
      graceful permutation of size 1. */
  lemma GracefulOne()
    ensures GracefulSet(1) == {[1]}
  {
    InGracefulSet(1, [1]);
    forall p | p in GracefulSet(1)
      ensures p == [1]
    {
      assert IsGraceful(1, p);
      assert p[0] == 1;
    }
  }
}
