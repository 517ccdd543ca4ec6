/** Pure definition of graceful permutations and the counting facts the
    backtracking search relies on.

    A permutation p of 1..n is graceful when its consecutive absolute
    differences |p[k] - p[k-1]| all lie in 1..n-1 and are pairwise distinct.
    Both orientations of a permutation are counted separately. */
module Graceful {

  /** |a - b|, the value `abs(num - perm[pos - 1])` computes. */
  function Dist(a: int, b: int): nat
  {
    if a >= b then a - b else b - a
  }

  /** The k-th consecutive difference of s, |s[k] - s[k-1]|. */
  function Gap(s: seq<int>, k: int): nat
    requires 1 <= k < |s|
  {
    Dist(s[k], s[k - 1])
  }

  /** Every entry of s is one of 1..n and no entry repeats. */
  ghost predicate DistinctIn(n: int, s: seq<int>)
  {
    && (forall i :: 0 <= i < |s| ==> 1 <= s[i] <= n)
    && (forall i, j :: 0 <= i < j < |s| ==> s[i] != s[j])
  }

  /** Consecutive absolute differences of s lie in 1..n-1 and are pairwise distinct. */
  ghost predicate GracefulGaps(n: int, s: seq<int>)
  {
    && (forall k :: 1 <= k < |s| ==> 1 <= Gap(s, k) <= n - 1)
    && (forall k, l :: 1 <= k < l < |s| ==> Gap(s, k) != Gap(s, l))
  }

  /** p is a graceful permutation of 1..n. */
  ghost predicate IsGraceful(n: int, p: seq<int>)
  {
    |p| == n && DistinctIn(n, p) && GracefulGaps(n, p)
  }

  /** s can still be the start of a graceful permutation of 1..n as far as
      its own entries are concerned: the state of the search at depth |s|. */
  ghost predicate Partial(n: int, s: seq<int>)
  {
    |s| <= n && DistinctIn(n, s) && GracefulGaps(n, s)
  }

  /** The set of differences already used by the prefix s. */
  ghost function GapSet(s: seq<int>): set<nat>
  {
    set k | 1 <= k < |s| :: Gap(s, k)
  }

  /** All sequences of length len over 1..n: the finite universe that
      graceful permutations are drawn from. */
  ghost function Words(len: nat, n: int): set<seq<int>>
  {
    if len == 0 then {[]}
    else set w, v | w in Words(len - 1, n) && 1 <= v <= n :: w + [v]
  }

  /** The graceful permutations of 1..n. */
  ghost function GracefulSet(n: nat): set<seq<int>>
  {
    set p | p in Words(n, n) && IsGraceful(n, p)
  }

  /** The graceful permutations of 1..n that begin with s. */
  ghost function Completions(n: nat, s: seq<int>): set<seq<int>>
  {
    set p | p in GracefulSet(n) && s <= p
  }

  /** The completions of s whose next entry (the one at position |s|) is below m. */
  ghost function Below(n: nat, s: seq<int>, m: int): set<seq<int>>
  {
    set p | p in Completions(n, s) && |s| < |p| && p[|s|] < m
  }

  lemma {:induction false} InWords(len: nat, n: int, p: seq<int>)
    requires |p| == len
    requires forall i :: 0 <= i < len ==> 1 <= p[i] <= n
    ensures p in Words(len, n)
    decreases len
  {
    if len > 0 {
      var w := p[..len - 1];
      InWords(len - 1, n, w);
      assert p == w + [p[len - 1]];
    }
  }

  /** A graceful permutation is exactly a member of GracefulSet. */
  lemma InGracefulSet(n: nat, p: seq<int>)
    ensures p in GracefulSet(n) <==> IsGraceful(n, p)
  {
    if IsGraceful(n, p) {
      InWords(n, n, p);
    }
  }

  /** Every prefix of a graceful permutation is a valid search state. */
  lemma PrefixIsPartial(n: nat, s: seq<int>, p: seq<int>)
    requires IsGraceful(n, p) && s <= p
    ensures Partial(n, s)
  {
    assert forall i :: 0 <= i < |s| ==> s[i] == p[i];
    assert forall k :: 1 <= k < |s| ==> Gap(s, k) == Gap(p, k);
  }

  /** The differences of s + [v] are those of s plus the new last one. */
  lemma GapSetSnoc(s: seq<int>, v: int)
    requires |s| >= 1
    ensures GapSet(s + [v]) == GapSet(s) + {Dist(v, s[|s| - 1])}
  {
    var t := s + [v];
    assert forall k :: 1 <= k < |s| ==> Gap(t, k) == Gap(s, k);
    assert Gap(t, |s|) == Dist(v, s[|s| - 1]);
  }

  /** The prefix s + [v] is a valid search state exactly when v passes the
      tests the search applies: v is unused, and (unless s is empty) the new
      difference lies in 1..n-1 and is not yet used. */
  lemma ExtendIff(n: nat, s: seq<int>, v: int)
    requires Partial(n, s) && |s| < n && 1 <= v <= n
    ensures Partial(n, s + [v]) <==>
      && v !in s
      && (|s| >= 1 ==> 1 <= Dist(v, s[|s| - 1]) < n && Dist(v, s[|s| - 1]) !in GapSet(s))
  {
    var t := s + [v];
    assert forall i :: 0 <= i < |s| ==> t[i] == s[i];
    assert forall k :: 1 <= k < |s| ==> Gap(t, k) == Gap(s, k);
    if v in s {
      var i :| 0 <= i < |s| && s[i] == v;
      assert t[i] == t[|s|];
    }
    if |s| >= 1 {
      var g := Dist(v, s[|s| - 1]);
      assert Gap(t, |s|) == g;
      if g in GapSet(s) {
        var k :| 1 <= k < |s| && Gap(s, k) == g;
        assert Gap(t, k) == Gap(t, |s|);
      }
      if v !in s && 1 <= g < n && g !in GapSet(s) {
        forall k, l | 1 <= k < l < |t|
          ensures Gap(t, k) != Gap(t, l)
        {
          if l == |s| {
            assert Gap(s, k) in GapSet(s);
          }
        }
      }
    }
  }

  /** A search state of full length n has exactly one completion: itself. */
  lemma FullCompletions(n: nat, s: seq<int>)
    requires Partial(n, s) && |s| == n
    ensures Completions(n, s) == {s}
  {
    InGracefulSet(n, s);
    forall p | p in Completions(n, s)
      ensures p == s
    {
      assert |p| == n;
    }
  }

  /** No graceful permutation begins with an invalid search state. */
  lemma DeadCompletions(n: nat, s: seq<int>)
    requires !Partial(n, s)
    ensures Completions(n, s) == {}
  {
    forall p | p in Completions(n, s)
      ensures false
    {
      PrefixIsPartial(n, s, p);
    }
  }

  lemma BelowFirst(n: nat, s: seq<int>)
    requires Partial(n, s)
    ensures Below(n, s, 1) == {}
  {
    forall p | p in Completions(n, s) && |s| < |p|
      ensures 1 <= p[|s|]
    {
      assert IsGraceful(n, p);
    }
  }

  lemma BelowLast(n: nat, s: seq<int>)
    requires Partial(n, s) && |s| < n
    ensures Below(n, s, n + 1) == Completions(n, s)
  {
    forall p | p in Completions(n, s)
      ensures p in Below(n, s, n + 1)
    {
      assert IsGraceful(n, p);
      assert p[|s|] <= n;
    }
  }

  /** Trying candidate m splits off exactly the completions that place m next. */
  lemma BelowStep(n: nat, s: seq<int>, m: int)
    requires |s| < n
    ensures Below(n, s, m + 1) == Below(n, s, m) + Completions(n, s + [m])
    ensures Below(n, s, m) !! Completions(n, s + [m])
    ensures |Below(n, s, m + 1)| == |Below(n, s, m)| + |Completions(n, s + [m])|
  {
    var t := s + [m];
    forall p | p in Completions(n, t)
      ensures p in Below(n, s, m + 1) && p !in Below(n, s, m)
    {
      assert p[|s|] == t[|s|];
      assert s <= p by {
        assert forall i :: 0 <= i < |s| ==> p[i] == t[i] == s[i];
      }
    }
    forall p | p in Below(n, s, m + 1) && p !in Below(n, s, m)
      ensures p in Completions(n, t)
    {
      assert p[..|s| + 1] == t;
    }
  }

  /** Every Below set is part of the completions. */
  lemma BelowBound(n: nat, s: seq<int>, m: int)
    ensures |Below(n, s, m)| <= |Completions(n, s)|
  {
    assert Below(n, s, m) <= Completions(n, s);
    SubsetCard(Below(n, s, m), Completions(n, s));
  }

  lemma {:induction false} SubsetCard<T>(a: set<T>, b: set<T>)
    requires a <= b
    ensures |a| <= |b|
    decreases |b|
  {
    if a != {} {
      var x :| x in a;
      SubsetCard(a - {x}, b - {x});
    }
  }

  /** The empty prefix is completed by every graceful permutation. */
  lemma CompletionsOfEmpty(n: nat)
    ensures Completions(n, []) == GracefulSet(n)
  {
  }

  /** Size 0: the empty permutation is graceful. */
  lemma GracefulZero()
    ensures GracefulSet(0) == {[]}
  {
    InGracefulSet(0, []);
  }

  /** Size 2: both orientations of the single difference 1 are counted. */
  lemma GracefulTwo()
    ensures GracefulSet(2) == {[1, 2], [2, 1]}
    ensures |GracefulSet(2)| == 2
  {
    GracefulPair(1, 2);
    GracefulPair(2, 1);
    forall p | p in GracefulSet(2)
      ensures p in {[1, 2], [2, 1]}
    {
      InGracefulSet(2, p);
      GracefulTwoShape(p);
    }
  }

  /** Two distinct values of 1..2 form a graceful permutation. */
  lemma GracefulPair(a: int, b: int)
    requires 1 <= a <= 2 && 1 <= b <= 2 && a != b
    ensures [a, b] in GracefulSet(2)
  {
    var p := [a, b];
    assert Gap(p, 1) == 1;
    assert IsGraceful(2, p);
    InGracefulSet(2, p);
  }

  lemma GracefulTwoShape(p: seq<int>)
    requires IsGraceful(2, p)
    ensures p in {[1, 2], [2, 1]}
  {
    assert p == [p[0], p[1]];
    assert p[0] != p[1];
  }

  /** Size 3: the monotone orders repeat the difference 1; the other four
      permutations are graceful. */
  lemma GracefulThree()
    ensures GracefulSet(3) == {[1, 3, 2], [2, 1, 3], [2, 3, 1], [3, 1, 2]}
    ensures |GracefulSet(3)| == 4
  {
    var g := {[1, 3, 2], [2, 1, 3], [2, 3, 1], [3, 1, 2]};
    GracefulThreeMember([1, 3, 2]);
    GracefulThreeMember([2, 1, 3]);
    GracefulThreeMember([2, 3, 1]);
    GracefulThreeMember([3, 1, 2]);
    forall p | p in GracefulSet(3)
      ensures p in g
    {
      InGracefulSet(3, p);
      GracefulThreeShape(p);
    }
  }

  lemma GracefulThreeMember(p: seq<int>)
    requires p in {[1, 3, 2], [2, 1, 3], [2, 3, 1], [3, 1, 2]}
    ensures p in GracefulSet(3)
  {
    assert |p| == 3 && p == [p[0], p[1], p[2]];
    GracefulTriple(p[0], p[1], p[2]);
  }

  /** Three distinct values of 1..3 with unequal differences form a
      graceful permutation. */
  lemma GracefulTriple(a: int, b: int, c: int)
    requires 1 <= a <= 3 && 1 <= b <= 3 && 1 <= c <= 3
    requires a != b && b != c && a != c && Dist(b, a) != Dist(c, b)
    ensures [a, b, c] in GracefulSet(3)
  {
    var p := [a, b, c];
    assert Gap(p, 1) == Dist(b, a) && Gap(p, 2) == Dist(c, b);
    assert IsGraceful(3, p);
    InGracefulSet(3, p);
  }

  lemma GracefulThreeShape(p: seq<int>)
    requires IsGraceful(3, p)
    ensures p in {[1, 3, 2], [2, 1, 3], [2, 3, 1], [3, 1, 2]}
  {
    assert p == [p[0], p[1], p[2]];
    assert Gap(p, 1) != Gap(p, 2);
    assert p[0] != p[1] && p[1] != p[2] && p[0] != p[2];
  }
}
