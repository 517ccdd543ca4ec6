/** The string handling the console programs rely on: Python's
    `str.strip`, `str.upper`, `str.split`, `str.isdigit` and `int(...)`,
    and C's `atoi`, on ASCII text. */
module Text {
  import opened Options

  /** The ASCII whitespace both `str.strip` and C's `isspace` skip. */
  predicate IsSpace(c: char)
  {
    c == ' ' || c == '\t' || c == '\n' || c == '\r' || c == '\U{B}' || c == '\U{C}'
  }

  /** Text made of whitespace only (possibly none). */
  predicate Blank(s: seq<char>)
  {
    forall i :: 0 <= i < |s| ==> IsSpace(s[i])
  }

  predicate IsDigit(c: char)
  {
    '0' <= c <= '9'
  }

  /** `str.isdigit()`: non-empty and made of digits only. */
  predicate IsDigits(s: seq<char>)
  {
    |s| > 0 && forall i :: 0 <= i < |s| ==> IsDigit(s[i])
  }

  function DigitValue(c: char): nat
    requires IsDigit(c)
  {
    (c as int) - ('0' as int)
  }

  function DigitChar(d: nat): char
    requires d < 10
  {
    (('0' as int) + d) as char
  }

  /** The leading whitespace of s removed. */
  function TrimLeft(s: seq<char>): (r: seq<char>)
    ensures |r| <= |s| && r == s[|s| - |r|..]
    ensures |r| > 0 ==> !IsSpace(r[0])
    ensures forall i :: 0 <= i < |s| - |r| ==> IsSpace(s[i])
  {
    if |s| > 0 && IsSpace(s[0]) then TrimLeft(s[1..]) else s
  }

  /** The trailing whitespace of s removed. */
  function TrimRight(s: seq<char>): (r: seq<char>)
    ensures |r| <= |s| && r == s[..|r|]
    ensures |r| > 0 ==> !IsSpace(r[|r| - 1])
    ensures forall i :: |r| <= i < |s| ==> IsSpace(s[i])
  {
    if |s| > 0 && IsSpace(s[|s| - 1]) then TrimRight(s[..|s| - 1]) else s
  }

  /** `str.strip()`. */
  function Strip(s: seq<char>): seq<char>
  {
    TrimRight(TrimLeft(s))
  }

  /** Strip removes exactly the whitespace at both ends: the result is the
      infix of s after its leading whitespace that neither starts nor ends
      with whitespace, and everything cut off around it is whitespace. */
  lemma StripShape(s: seq<char>)
    ensures var i := |s| - |TrimLeft(s)|;
      && i + |Strip(s)| <= |s|
      && Strip(s) == s[i..i + |Strip(s)|]
      && (forall k :: 0 <= k < i ==> IsSpace(s[k]))
      && (forall k :: i + |Strip(s)| <= k < |s| ==> IsSpace(s[k]))
    ensures |Strip(s)| > 0 ==> !IsSpace(Strip(s)[0]) && !IsSpace(Strip(s)[|Strip(s)| - 1])
  {
    StripInfix(s);
    StripTail(s);
    StripEnds(s);
  }

  lemma StripInfix(s: seq<char>)
    ensures var i := |s| - |TrimLeft(s)|;
      i + |Strip(s)| <= |s| && Strip(s) == s[i..i + |Strip(s)|]
  {
    var t := TrimLeft(s);
    var r := TrimRight(t);
    var i := |s| - |t|;
    assert t == s[i..] && r == t[..|r|];
  }

  lemma StripTail(s: seq<char>)
    ensures var i := |s| - |TrimLeft(s)|;
      forall k :: i + |Strip(s)| <= k < |s| ==> IsSpace(s[k])
  {
    var t := TrimLeft(s);
    SuffixSpaces(s, t, TrimRight(t));
  }

  /** Whitespace at the end of a suffix t of s is whitespace of s. */
  lemma SuffixSpaces(s: seq<char>, t: seq<char>, r: seq<char>)
    requires |r| <= |t| <= |s| && t == s[|s| - |t|..]
    requires forall j :: |r| <= j < |t| ==> IsSpace(t[j])
    ensures forall k :: |s| - |t| + |r| <= k < |s| ==> IsSpace(s[k])
  {
    var i := |s| - |t|;
    forall k | i + |r| <= k < |s|
      ensures IsSpace(s[k])
    {
      assert s[k] == t[k - i];
    }
  }

  lemma StripEnds(s: seq<char>)
    ensures |Strip(s)| > 0 ==> !IsSpace(Strip(s)[0]) && !IsSpace(Strip(s)[|Strip(s)| - 1])
  {
    var t := TrimLeft(s);
    var r := TrimRight(t);
    assert t == s[|s| - |t|..] && r == t[..|r|];
    if |r| > 0 {
      assert r[0] == t[0];
    }
  }

  /** A string without whitespace at either end is its own strip. */
  lemma StripFixed(s: seq<char>)
    requires |s| > 0 ==> !IsSpace(s[0]) && !IsSpace(s[|s| - 1])
    ensures Strip(s) == s
  {
  }

  /** Stripping twice is stripping once. */
  lemma StripIdempotent(s: seq<char>)
    ensures Strip(Strip(s)) == Strip(s)
  {
    StripEnds(s);
    StripFixed(Strip(s));
  }

  /** ASCII `str.upper` on one character. */
  function UpperChar(c: char): char
  {
    if 'a' <= c <= 'z' then ((c as int) - 32) as char else c
  }

  /** `str.upper()` on ASCII text. */
  function Upper(s: seq<char>): (r: seq<char>)
    ensures |r| == |s|
    ensures forall i :: 0 <= i < |s| ==> r[i] == UpperChar(s[i])
  {
    if |s| == 0 then [] else [UpperChar(s[0])] + Upper(s[1..])
  }

  /** Upper case leaves whitespace and digits where they are and is
      idempotent. */
  lemma UpperKeeps(s: seq<char>)
    ensures forall i :: 0 <= i < |s| ==> (IsSpace(Upper(s)[i]) <==> IsSpace(s[i]))
    ensures IsDigits(s) ==> Upper(s) == s
    ensures Upper(Upper(s)) == Upper(s)
  {
  }

  /** Upper-cased text has no lower-case letter left and starts and ends
      with whitespace exactly when the original did. */
  lemma UpperEnds(s: seq<char>)
    requires |s| > 0 ==> !IsSpace(s[0]) && !IsSpace(s[|s| - 1])
    ensures |Upper(s)| > 0 ==> !IsSpace(Upper(s)[0]) && !IsSpace(Upper(s)[|s| - 1])
    ensures forall i :: 0 <= i < |Upper(s)| ==> !('a' <= Upper(s)[i] <= 'z')
  {
  }

  /** Upper case works character by character, so it distributes over
      concatenation, leaves blanks alone and keeps tokens tokens and digit
      strings digit strings. */
  lemma {:induction false} UpperConcat(a: seq<char>, b: seq<char>)
    ensures Upper(a + b) == Upper(a) + Upper(b)
    decreases |a|
  {
    if |a| > 0 {
      assert (a + b)[0] == a[0] && (a + b)[1..] == a[1..] + b;
      UpperConcat(a[1..], b);
    } else {
      assert a + b == b;
    }
  }

  lemma UpperBlank(b: seq<char>)
    requires Blank(b)
    ensures Upper(b) == b
  {
    forall i | 0 <= i < |b|
      ensures Upper(b)[i] == b[i]
    {
      assert IsSpace(b[i]);
    }
  }

  lemma UpperToken(w: seq<char>)
    requires IsToken(w)
    ensures IsToken(Upper(w))
    ensures IsDigits(Upper(w)) <==> IsDigits(w)
    ensures IsDigits(w) ==> Upper(w) == w
  {
    forall i | 0 <= i < |w|
      ensures !IsSpace(Upper(w)[i])
      ensures IsDigit(Upper(w)[i]) <==> IsDigit(w[i])
    {
      assert !IsSpace(w[i]);
    }
    UpperKeeps(w);
  }

  /** The longest prefix of s without whitespace. */
  function Word(s: seq<char>): (r: seq<char>)
    ensures r <= s
    ensures forall i :: 0 <= i < |r| ==> !IsSpace(r[i])
    ensures |r| < |s| ==> IsSpace(s[|r|])
  {
    if |s| == 0 || IsSpace(s[0]) then [] else [s[0]] + Word(s[1..])
  }

  /** A token without whitespace. */
  predicate IsToken(w: seq<char>)
  {
    |w| > 0 && forall i :: 0 <= i < |w| ==> !IsSpace(w[i])
  }

  /** `str.split()` with no separator: the maximal runs of non-whitespace. */
  function Split(s: seq<char>): (r: seq<seq<char>>)
    ensures forall k :: 0 <= k < |r| ==> IsToken(r[k])
    decreases |s|
  {
    var t := TrimLeft(s);
    if |t| == 0 then []
    else
      var w := Word(t);
      [w] + Split(t[|w|..])
  }

  /** The tokens joined with one space between each two. */
  function Join(ws: seq<seq<char>>): seq<char>
  {
    if |ws| == 0 then []
    else if |ws| == 1 then ws[0]
    else ws[0] + [' '] + Join(ws[1..])
  }

  lemma WordOfToken(w: seq<char>, rest: seq<char>)
    requires IsToken(w)
    requires |rest| > 0 ==> IsSpace(rest[0])
    ensures Word(w + rest) == w
    decreases |w|
  {
    if |w| > 1 {
      assert (w + rest)[1..] == w[1..] + rest;
      WordOfToken(w[1..], rest);
    } else {
      assert (w + rest)[1..] == rest;
    }
  }

  /** Splitting undoes joining: tokens joined by single spaces split back
      into the same tokens. */
  lemma {:induction false} SplitJoin(ws: seq<seq<char>>)
    requires forall k :: 0 <= k < |ws| ==> IsToken(ws[k])
    ensures Split(Join(ws)) == ws
    decreases |ws|
  {
    if |ws| == 1 {
      assert Join(ws) == ws[0];
      SplitOne(ws[0]);
    } else if |ws| > 1 {
      assert IsToken(ws[0]);
      assert Join(ws) == ws[0] + [' '] + Join(ws[1..]);
      SplitSpaced(ws[0], Join(ws[1..]));
      SplitJoin(ws[1..]);
      assert [ws[0]] + ws[1..] == ws;
    }
  }

  /** A token followed by one blank splits off on its own. */
  lemma SplitSpaced(w: seq<char>, tail: seq<char>)
    requires IsToken(w)
    ensures Split(w + [' '] + tail) == [w] + Split(tail)
  {
    var rest := [' '] + tail;
    assert w + [' '] + tail == w + rest;
    SplitToken(w, rest);
    SplitSpace(tail);
  }

  /** One blank in front changes nothing in the split. */
  lemma SplitSpace(x: seq<char>)
    ensures Split([' '] + x) == Split(x)
  {
    assert ([' '] + x)[1..] == x;
    assert TrimLeft([' '] + x) == TrimLeft(x);
  }

  /** Any run of whitespace in front changes nothing in the split. */
  lemma {:induction false} SplitBlank(b: seq<char>, x: seq<char>)
    requires Blank(b)
    ensures TrimLeft(b + x) == TrimLeft(x)
    ensures Split(b + x) == Split(x)
    decreases |b|
  {
    if |b| > 0 {
      assert (b + x)[0] == b[0];
      assert (b + x)[1..] == b[1..] + x;
      SplitBlank(b[1..], x);
    } else {
      assert b + x == x;
    }
  }

  /** Two tokens with any non-empty run of whitespace between them split
      into exactly those two tokens. */
  lemma SplitTwo(a: seq<char>, mid: seq<char>, d: seq<char>)
    requires IsToken(a) && IsToken(d) && |mid| > 0 && Blank(mid)
    ensures Split(a + mid + d) == [a, d]
  {
    var rest := mid + d;
    assert a + mid + d == a + rest;
    assert Split(a + rest) == [a] + Split(rest) by {
      SplitToken(a, rest);
    }
    assert Split(rest) == [d] by {
      SplitBlank(mid, d);
      SplitOne(d);
    }
  }

  /** A token followed by a blank, or by nothing, is split off first. */
  lemma SplitToken(a: seq<char>, rest: seq<char>)
    requires IsToken(a) && (|rest| > 0 ==> IsSpace(rest[0]))
    ensures Split(a + rest) == [a] + Split(rest)
  {
    var s := a + rest;
    assert s[0] == a[0];
    assert TrimLeft(s) == s;
    WordOfToken(a, rest);
    assert s[|a|..] == rest;
  }

  /** Three tokens with runs of whitespace between them split into exactly
      those three tokens. */
  lemma SplitThree(a: seq<char>, m1: seq<char>, x: seq<char>, m2: seq<char>, y: seq<char>)
    requires IsToken(a) && IsToken(x) && IsToken(y)
    requires |m1| > 0 && Blank(m1) && |m2| > 0 && Blank(m2)
    ensures Split(a + m1 + x + m2 + y) == [a, x, y]
  {
    var rest := m1 + (x + m2 + y);
    Assoc5(a, m1, x, m2, y);
    SplitBlankTwo(m1, x, m2, y);
    assert rest[0] == m1[0];
    SplitToken(a, rest);
  }

  lemma Assoc5(a: seq<char>, b: seq<char>, c: seq<char>, d: seq<char>, e: seq<char>)
    ensures a + b + c + d + e == a + (b + (c + d + e))
  {
  }

  /** Blanks, then two tokens with blanks between them. */
  lemma SplitBlankTwo(m1: seq<char>, x: seq<char>, m2: seq<char>, y: seq<char>)
    requires IsToken(x) && IsToken(y)
    requires |m1| > 0 && Blank(m1) && |m2| > 0 && Blank(m2)
    ensures Split(m1 + (x + m2 + y)) == [x, y]
  {
    SplitBlank(m1, x + m2 + y);
    SplitTwo(x, m2, y);
  }

  /** A single token splits into itself. */
  lemma SplitOne(d: seq<char>)
    requires IsToken(d)
    ensures Split(d) == [d]
  {
    SplitToken(d, []);
    assert d + [] == d;
  }

  lemma SplitFront(s: seq<char>)
    requires |s| > 0 && TrimLeft(s) == s
    ensures Split(s) == [Word(s)] + Split(s[|Word(s)|..])
  {
  }

  lemma JoinStart(ws: seq<seq<char>>)
    requires |ws| > 0 && forall k :: 0 <= k < |ws| ==> IsToken(ws[k])
    ensures |Join(ws)| > 0 && !IsSpace(Join(ws)[0])
    ensures TrimLeft(Join(ws)) == Join(ws)
  {
    if |ws| > 1 {
      assert Join(ws)[0] == ws[0][0];
    }
  }

  /** The value of a digit string, most significant digit first. */
  function DigitsValue(s: seq<char>): nat
    requires forall i :: 0 <= i < |s| ==> IsDigit(s[i])
  {
    if |s| == 0 then 0 else DigitsValue(s[..|s| - 1]) * 10 + DigitValue(s[|s| - 1])
  }

  /** Appending a digit multiplies the value by ten and adds the digit. */
  lemma DigitsSnoc(s: seq<char>, c: char)
    requires forall i :: 0 <= i < |s| ==> IsDigit(s[i])
    requires IsDigit(c)
    ensures DigitsValue(s + [c]) == DigitsValue(s) * 10 + DigitValue(c)
  {
    assert (s + [c])[..|s|] == s;
  }

  /** The decimal numeral of v, without leading zeros. */
  function Decimal(v: nat): (r: seq<char>)
    ensures IsDigits(r)
    ensures |r| > 1 ==> r[0] != '0'
  {
    if v < 10 then [DigitChar(v)] else Decimal(v / 10) + [DigitChar(v % 10)]
  }

  /** Reading back a numeral gives the number. */
  lemma {:induction false} DecimalValue(v: nat)
    ensures DigitsValue(Decimal(v)) == v
  {
    if v >= 10 {
      DecimalValue(v / 10);
      var r := Decimal(v);
      assert r[..|r| - 1] == Decimal(v / 10);
    }
  }

  /** Writing out the value of a numeral without leading zeros gives the
      numeral back. */
  lemma {:induction false} ValueDecimal(s: seq<char>)
    requires IsDigits(s) && (|s| > 1 ==> s[0] != '0')
    ensures Decimal(DigitsValue(s)) == s
    decreases |s|
  {
    if |s| > 1 {
      var p := s[..|s| - 1];
      assert p[0] == s[0];
      ValueDecimal(p);
      var d := DigitValue(s[|s| - 1]);
      LeadingValue(p);
      assert DigitsValue(s) / 10 == DigitsValue(p) && DigitsValue(s) % 10 == d;
      assert DigitChar(d) == s[|s| - 1];
    } else {
      assert DigitChar(DigitValue(s[0])) == s[0];
    }
  }

  /** A numeral that does not start with 0 has a positive value. */
  lemma {:induction false} LeadingValue(s: seq<char>)
    requires IsDigits(s) && s[0] != '0'
    ensures DigitsValue(s) > 0
    decreases |s|
  {
    if |s| > 1 {
      LeadingValue(s[..|s| - 1]);
    }
  }

  /** Python's `int(text)` on ASCII text: surrounding whitespace is
      ignored, one optional sign, then at least one digit; anything else
      raises ValueError, modelled as None. */
  function PyInt(text: seq<char>): (r: Option<int>)
  {
    var t := Strip(text);
    if |t| > 0 && (t[0] == '+' || t[0] == '-') then
      (if IsDigits(t[1..]) then
         Some(if t[0] == '-' then -(DigitsValue(t[1..]) as int) else DigitsValue(t[1..]))
       else None)
    else if IsDigits(t) then Some(DigitsValue(t))
    else None
  }

  /** `int` reads back what `str(v)` writes, whatever whitespace
      surrounds it. */
  lemma PyIntDecimal(v: nat, pre: seq<char>, post: seq<char>)
    requires forall i :: 0 <= i < |pre| ==> IsSpace(pre[i])
    requires forall i :: 0 <= i < |post| ==> IsSpace(post[i])
    ensures PyInt(pre + Decimal(v) + post) == Some(v)
  {
    var d := Decimal(v);
    assert IsDigit(d[0]) && IsDigit(d[|d| - 1]);
    StripAround(pre, d, post);
    DecimalValue(v);
    PyIntUnsigned(pre + d + post, d);
  }

  lemma PyIntUnsigned(x: seq<char>, t: seq<char>)
    requires Strip(x) == t && IsDigits(t)
    ensures PyInt(x) == Some(DigitsValue(t))
  {
    assert t[0] != '+' && t[0] != '-' by {
      assert IsDigit(t[0]);
    }
  }

  /** The same for a negative number written with a minus sign. */
  lemma PyIntNegative(v: nat, pre: seq<char>, post: seq<char>)
    requires forall i :: 0 <= i < |pre| ==> IsSpace(pre[i])
    requires forall i :: 0 <= i < |post| ==> IsSpace(post[i])
    ensures PyInt(pre + ['-'] + Decimal(v) + post) == Some(-(v as int))
  {
    NegativeStrip(v, pre, post);
    NegativeDigits(v);
    PyIntSigned(pre + ['-'] + Decimal(v) + post, ['-'] + Decimal(v));
  }

  lemma NegativeStrip(v: nat, pre: seq<char>, post: seq<char>)
    requires forall i :: 0 <= i < |pre| ==> IsSpace(pre[i])
    requires forall i :: 0 <= i < |post| ==> IsSpace(post[i])
    ensures Strip(pre + ['-'] + Decimal(v) + post) == ['-'] + Decimal(v)
  {
    var core := ['-'] + Decimal(v);
    assert pre + ['-'] + Decimal(v) + post == pre + core + post;
    StripAround(pre, core, post);
  }

  lemma NegativeDigits(v: nat)
    ensures (['-'] + Decimal(v))[1..] == Decimal(v)
    ensures DigitsValue(Decimal(v)) == v
  {
    DecimalValue(v);
  }

  lemma PyIntSigned(x: seq<char>, t: seq<char>)
    requires Strip(x) == t && |t| > 0 && t[0] == '-' && IsDigits(t[1..])
    ensures PyInt(x) == Some(-(DigitsValue(t[1..]) as int))
  {
  }

  lemma StripAround(pre: seq<char>, core: seq<char>, post: seq<char>)
    requires |core| > 0 && !IsSpace(core[0]) && !IsSpace(core[|core| - 1])
    requires forall i :: 0 <= i < |pre| ==> IsSpace(pre[i])
    requires forall i :: 0 <= i < |post| ==> IsSpace(post[i])
    ensures Strip(pre + core + post) == core
  {
    assert pre + core + post == pre + (core + post);
    TrimLeftPrefix(pre, core + post);
    TrimRightSuffix(core, post);
  }

  /** C's `isdigit`-prefix of s. */
  function DigitRun(s: seq<char>): (r: seq<char>)
    ensures r <= s
    ensures forall i :: 0 <= i < |r| ==> IsDigit(r[i])
    ensures |r| < |s| ==> !IsDigit(s[|r|])
  {
    if |s| == 0 || !IsDigit(s[0]) then [] else [s[0]] + DigitRun(s[1..])
  }

  /** C's `atoi`: leading whitespace skipped, one optional sign, then the
      longest run of digits; 0 when there is none. */
  function Atoi(s: seq<char>): int
  {
    var t := TrimLeft(s);
    if |t| > 0 && (t[0] == '+' || t[0] == '-') then
      var v: int := DigitsValue(DigitRun(t[1..]));
      if t[0] == '-' then -v else v
    else
      DigitsValue(DigitRun(t))
  }

  /** `atoi` reads the numeral at the front of a line and stops at the first
      non-digit, such as the newline `fgets` keeps. */
  lemma AtoiDecimal(v: nat, pre: seq<char>, post: seq<char>)
    requires forall i :: 0 <= i < |pre| ==> IsSpace(pre[i])
    requires |post| > 0 ==> !IsDigit(post[0])
    ensures Atoi(pre + Decimal(v) + post) == v
  {
    DecimalValue(v);
    AtoiPadded(pre, Decimal(v), post);
  }

  /** `atoi` skips leading whitespace before a digit run. */
  lemma AtoiPadded(pre: seq<char>, d: seq<char>, post: seq<char>)
    requires forall i :: 0 <= i < |pre| ==> IsSpace(pre[i])
    requires IsDigits(d)
    requires |post| > 0 ==> !IsDigit(post[0])
    ensures Atoi(pre + d + post) == DigitsValue(d)
  {
    var rest := d + post;
    assert rest[0] == d[0] && IsDigit(d[0]);
    assert TrimLeft(pre + d + post) == rest by {
      Assoc(pre, d, post);
      TrimLeftPrefix(pre, rest);
    }
    DigitRunOf(d, post);
    AtoiUnsigned(pre + d + post, d);
  }

  /** A numeral at the very front is read back by `atoi`. */
  lemma AtoiFront(v: nat, post: seq<char>)
    requires |post| > 0 ==> !IsDigit(post[0])
    ensures Atoi(Decimal(v) + post) == v
  {
    DecimalValue(v);
    AtoiDigits(Decimal(v), post);
  }

  /** `atoi` of a digit run followed by a non-digit is the run's value. */
  lemma AtoiDigits(d: seq<char>, post: seq<char>)
    requires IsDigits(d)
    requires |post| > 0 ==> !IsDigit(post[0])
    ensures Atoi(d + post) == DigitsValue(d)
  {
    var t := d + post;
    assert TrimLeft(t) == t by {
      assert t[0] == d[0] && IsDigit(d[0]);
    }
    DigitRunOf(d, post);
    AtoiUnsigned(t, d);
  }

  /** The same for a negative numeral. */
  lemma AtoiNegative(v: nat, pre: seq<char>, post: seq<char>)
    requires forall i :: 0 <= i < |pre| ==> IsSpace(pre[i])
    requires |post| > 0 ==> !IsDigit(post[0])
    ensures Atoi(pre + ['-'] + Decimal(v) + post) == -(v as int)
  {
    var d := Decimal(v);
    var rest := ['-'] + (d + post);
    assert TrimLeft(pre + ['-'] + d + post) == rest by {
      Regroup(pre, ['-'], d, post);
      TrimLeftPrefix(pre, rest);
    }
    assert DigitRun(rest[1..]) == d by {
      assert rest[1..] == d + post;
      DigitRunOf(d, post);
    }
    assert DigitsValue(d) == v by {
      DecimalValue(v);
    }
    assert rest[0] == '-';
    AtoiMinus(pre + ['-'] + d + post, d);
  }

  /** Text whose trimmed form starts with a digit reads as its digit run. */
  lemma AtoiUnsigned(s: seq<char>, d: seq<char>)
    requires |TrimLeft(s)| > 0 && IsDigit(TrimLeft(s)[0])
    requires DigitRun(TrimLeft(s)) == d
    ensures Atoi(s) == DigitsValue(d)
  {
  }

  /** Text whose trimmed form starts with a minus reads as the negated
      digit run after it. */
  lemma AtoiMinus(s: seq<char>, d: seq<char>)
    requires |TrimLeft(s)| > 0 && TrimLeft(s)[0] == '-'
    requires DigitRun(TrimLeft(s)[1..]) == d
    ensures Atoi(s) == -(DigitsValue(d) as int)
  {
  }

  lemma Assoc(a: seq<char>, b: seq<char>, c: seq<char>)
    ensures a + b + c == a + (b + c)
  {
  }

  lemma Regroup(a: seq<char>, b: seq<char>, c: seq<char>, d: seq<char>)
    ensures a + b + c + d == a + (b + (c + d))
  {
  }

  /** Leading whitespace in front of a non-blank text is exactly what
      TrimLeft removes. */
  lemma {:induction false} TrimLeftPrefix(pre: seq<char>, rest: seq<char>)
    requires forall i :: 0 <= i < |pre| ==> IsSpace(pre[i])
    requires |rest| > 0 && !IsSpace(rest[0])
    ensures TrimLeft(pre + rest) == rest
    decreases |pre|
  {
    if |pre| > 0 {
      assert (pre + rest)[0] == pre[0];
      assert (pre + rest)[1..] == pre[1..] + rest;
      TrimLeftPrefix(pre[1..], rest);
    } else {
      assert pre + rest == rest;
    }
  }

  /** Trailing whitespace after a text that ends in a non-blank is exactly
      what TrimRight removes. */
  lemma {:induction false} TrimRightSuffix(core: seq<char>, post: seq<char>)
    requires |core| > 0 && !IsSpace(core[|core| - 1])
    requires forall i :: 0 <= i < |post| ==> IsSpace(post[i])
    ensures TrimRight(core + post) == core
    decreases |post|
  {
    if |post| > 0 {
      var s := core + post;
      assert s[|s| - 1] == post[|post| - 1];
      assert s[..|s| - 1] == core + post[..|post| - 1];
      TrimRightSuffix(core, post[..|post| - 1]);
    } else {
      assert core + post == core;
    }
  }

  lemma {:induction false} DigitRunOf(d: seq<char>, post: seq<char>)
    requires forall i :: 0 <= i < |d| ==> IsDigit(d[i])
    requires |post| > 0 ==> !IsDigit(post[0])
    ensures DigitRun(d + post) == d
    decreases |d|
  {
    if |d| > 0 {
      assert (d + post)[1..] == d[1..] + post;
      DigitRunOf(d[1..], post);
    } else {
      assert d + post == post;
    }
  }

  /** Text that does not start with a sign or a digit after its leading
      whitespace reads as 0. */
  lemma AtoiNoDigits(s: seq<char>)
    requires var t := TrimLeft(s); |t| == 0 || (!IsDigit(t[0]) && t[0] != '+' && t[0] != '-')
    ensures Atoi(s) == 0
  {
  }
}
