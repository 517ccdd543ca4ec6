/** Sampling into a bounded buffer: each step of a capture offers a number
    of sampling chances, and a sample is kept only while the buffer has
    room. Shared by the C and the Python capture routines. */
module Sampling {

  function Min(a: int, b: int): int
  {
    if a <= b then a else b
  }

  /** The first m entries of s, or all of s when it is shorter. */
  function Cap(s: seq<int>, m: nat): (r: seq<int>)
    ensures |r| <= m && r <= s
    ensures |s| <= m ==> r == s
  {
    s[..Min(|s|, m)]
  }

  /** c copies of d. */
  function Rep(d: int, c: nat): (r: seq<int>)
    ensures |r| == c
    ensures forall i :: 0 <= i < c ==> r[i] == d
  {
    if c == 0 then [] else Rep(d, c - 1) + [d]
  }

  /** Every sampling chance of a sweep, in order: the k-th duty repeated as
      many times as its step offers chances. */
  function Offered(duties: seq<int>, chances: nat -> nat): seq<int>
  {
    if |duties| == 0 then []
    else Offered(duties[..|duties| - 1], chances) + Rep(duties[|duties| - 1], chances(|duties| - 1))
  }

  /** Every recorded value is one of the duties applied. */
  lemma {:induction false} OfferedValues(duties: seq<int>, chances: nat -> nat)
    ensures forall i :: 0 <= i < |Offered(duties, chances)| ==> Offered(duties, chances)[i] in duties
    decreases |duties|
  {
    if |duties| > 0 {
      var p := duties[..|duties| - 1];
      OfferedValues(p, chances);
      var o := Offered(duties, chances);
      forall i | 0 <= i < |o|
        ensures o[i] in duties
      {
        if i < |Offered(p, chances)| {
          assert o[i] == Offered(p, chances)[i] && o[i] in p;
        } else {
          assert o[i] == duties[|duties| - 1];
        }
      }
    }
  }

  /** Recording one more sample into a buffer that already holds the first
      m of `offered` keeps it the first m of the longer list. */
  lemma CapSnoc(offered: seq<int>, buf: seq<int>, d: int, m: nat)
    requires buf == Cap(offered, m)
    ensures |buf| < m ==> buf + [d] == Cap(offered + [d], m)
    ensures |buf| >= m ==> buf == Cap(offered + [d], m)
  {
    if |buf| >= m {
      assert (offered + [d])[..m] == offered[..m];
    } else {
      assert offered + [d] == buf + [d];
    }
  }

  /** Offering one more step appends that step's chances. */
  lemma OfferedSnoc(duties: seq<int>, d: int, chances: nat -> nat)
    ensures Offered(duties + [d], chances) == Offered(duties, chances) + Rep(d, chances(|duties|))
  {
    assert (duties + [d])[..|duties|] == duties;
  }
}
