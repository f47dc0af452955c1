/** The handful of Python string operations the model needs: `in` on strings,
    `lower`, `strip`, `join`, `str(int)`, `<` on `str` and `sorted(set(...))`. */
module Text {

  // ---------------------------------------------------------------------------
  // Substrings
  // ---------------------------------------------------------------------------

  predicate IsPrefix(p: string, s: string) {
    |p| <= |s| && s[..|p|] == p
  }

  /** Python's `p in s` for two strings, computed by scanning. */
  predicate Contains(s: string, p: string)
    decreases |s|
  {
    IsPrefix(p, s) || (|s| > 0 && Contains(s[1..], p))
  }

  /** `p` occurs in `s` starting at index `i`. */
  ghost predicate OccursAt(s: string, p: string, i: int) {
    0 <= i && i + |p| <= |s| && s[i..i + |p|] == p
  }

  /** The scanning definition agrees with "there is an index where `p` occurs". */
  lemma {:induction false} ContainsIffOccurs(s: string, p: string)
    ensures Contains(s, p) <==> exists i :: OccursAt(s, p, i)
    decreases |s|
  {
    if IsPrefix(p, s) {
      assert OccursAt(s, p, 0);
    } else if |s| > 0 {
      ContainsIffOccurs(s[1..], p);
      if Contains(s[1..], p) {
        var i :| OccursAt(s[1..], p, i);
        assert s[1..][i..i + |p|] == s[i + 1..i + 1 + |p|];
        assert OccursAt(s, p, i + 1);
      }
      if exists i :: OccursAt(s, p, i) {
        var i :| OccursAt(s, p, i);
        assert i != 0;
        assert s[i..i + |p|] == s[1..][i - 1..i - 1 + |p|];
        assert OccursAt(s[1..], p, i - 1);
      }
    }
  }

  /** Containment is transitive: a piece of a piece of `s` is a piece of `s`. */
  lemma ContainsTransitive(s: string, t: string, p: string)
    requires Contains(s, t) && Contains(t, p)
    ensures Contains(s, p)
  {
    ContainsIffOccurs(s, t);
    ContainsIffOccurs(t, p);
    var i :| OccursAt(s, t, i);
    var j :| OccursAt(t, p, j);
    forall m | 0 <= m < |p|
      ensures s[i + j + m] == p[m]
    {
      assert s[i + j + m] == s[i..i + |t|][j + m] == t[j + m];
      assert t[j + m] == t[j..j + |p|][m];
    }
    assert s[i + j..i + j + |p|] == p;
    ContainsIffOccurs(s, p);
    assert OccursAt(s, p, i + j);
  }

  /** A string contains every piece it is assembled around. */
  lemma {:induction false} ContainsInfix(a: string, p: string, b: string)
    ensures Contains(a + p + b, p)
    decreases |a|
  {
    if |a| == 0 {
      assert a + p + b == p + b;
      assert (p + b)[..|p|] == p;
    } else {
      ContainsInfix(a[1..], p, b);
      assert (a + p + b)[1..] == a[1..] + p + b;
    }
  }

  /** Containment survives putting text in front. */
  lemma {:induction false} ContainsAfterPrefix(a: string, t: string, p: string)
    requires Contains(t, p)
    ensures Contains(a + t, p)
    decreases |a|
  {
    if |a| > 0 {
      ContainsAfterPrefix(a[1..], t, p);
      assert (a + t)[1..] == a[1..] + t;
    } else {
      assert a + t == t;
    }
  }

  /** Containment survives putting text behind. */
  lemma {:induction false} ContainsBeforeSuffix(t: string, b: string, p: string)
    requires Contains(t, p)
    ensures Contains(t + b, p)
    decreases |t|
  {
    if IsPrefix(p, t) {
      assert (t + b)[..|p|] == t[..|p|];
    } else {
      ContainsBeforeSuffix(t[1..], b, p);
      assert (t + b)[1..] == t[1..] + b;
    }
  }

  // ---------------------------------------------------------------------------
  // Case and whitespace
  // ---------------------------------------------------------------------------

  function LowerChar(c: char): char {
    if 'A' <= c <= 'Z' then (c as int + 32) as char else c
  }

  /** `str.lower()`, on the ASCII letters. */
  function Lower(s: string): (r: string)
    ensures |r| == |s|
    ensures forall i :: 0 <= i < |s| ==> r[i] == LowerChar(s[i])
  {
    seq(|s|, i requires 0 <= i < |s| => LowerChar(s[i]))
  }

  /** The characters `str.strip()` removes: exactly those for which Python's
      `str.isspace()` holds. */
  predicate IsSpace(c: char) {
    var n := c as int;
    (9 <= n <= 13) || (28 <= n <= 32) || n == 0x85 || n == 0xA0 || n == 0x1680
    || (0x2000 <= n <= 0x200A) || n == 0x2028 || n == 0x2029 || n == 0x202F
    || n == 0x205F || n == 0x3000
  }

  ghost predicate AllSpace(s: string) {
    forall i :: 0 <= i < |s| ==> IsSpace(s[i])
  }

  /** `str.lstrip()`: the suffix left after dropping leading whitespace. */
  function StripLeft(s: string): (r: string)
    ensures |r| <= |s| && r == s[|s| - |r|..]
    ensures AllSpace(s[..|s| - |r|])
    ensures |r| > 0 ==> !IsSpace(r[0])
    decreases |s|
  {
    if |s| > 0 && IsSpace(s[0]) then StripLeft(s[1..]) else s
  }

  /** `str.rstrip()`: the prefix left after dropping trailing whitespace. */
  function StripRight(s: string): (r: string)
    ensures |r| <= |s| && r == s[..|r|]
    ensures AllSpace(s[|r|..])
    ensures |r| > 0 ==> !IsSpace(r[|r| - 1])
    decreases |s|
  {
    if |s| > 0 && IsSpace(s[|s| - 1]) then StripRight(s[..|s| - 1]) else s
  }

  /** `str.strip()`. */
  function Strip(s: string): string {
    StripRight(StripLeft(s))
  }

  lemma {:induction false} StripLeftKeepsContains(s: string, p: string)
    requires |p| > 0 && !IsSpace(p[0])
    ensures Contains(StripLeft(s), p) <==> Contains(s, p)
    decreases |s|
  {
    if |s| > 0 && IsSpace(s[0]) {
      StripLeftKeepsContains(s[1..], p);
      if |p| <= |s| {
        assert s[..|p|][0] == s[0];
      }
      assert !IsPrefix(p, s);
    }
  }

  lemma {:induction false} ContainsDropLast(s: string, c: char, p: string)
    requires |p| > 0 && p[|p| - 1] != c
    ensures Contains(s + [c], p) <==> Contains(s, p)
    decreases |s|
  {
    if |s| == 0 {
      assert s + [c] == [c];
      assert [c][1..] == [];
      assert !IsPrefix(p, []);
      assert !IsPrefix(p, [c]) by {
        if |p| == 1 {
          assert [c][..1] == [c];
        }
      }
    } else {
      ContainsDropLast(s[1..], c, p);
      assert (s + [c])[1..] == s[1..] + [c];
      assert IsPrefix(p, s + [c]) <==> IsPrefix(p, s) by {
        if |p| <= |s| {
          assert (s + [c])[..|p|] == s[..|p|];
        } else if |p| == |s| + 1 {
          assert (s + [c])[..|p|] == s + [c];
          assert (s + [c])[|p| - 1] == c;
        }
      }
    }
  }

  lemma {:induction false} StripRightKeepsContains(s: string, p: string)
    requires |p| > 0 && !IsSpace(p[|p| - 1])
    ensures Contains(StripRight(s), p) <==> Contains(s, p)
    decreases |s|
  {
    if |s| > 0 && IsSpace(s[|s| - 1]) {
      var t := s[..|s| - 1];
      StripRightKeepsContains(t, p);
      assert s == t + [s[|s| - 1]];
      ContainsDropLast(t, s[|s| - 1], p);
    }
  }

  /** Stripping never changes whether a pattern without outer whitespace occurs. */
  lemma StripKeepsContains(s: string, p: string)
    requires |p| > 0 && !IsSpace(p[0]) && !IsSpace(p[|p| - 1])
    ensures Contains(Strip(s), p) <==> Contains(s, p)
  {
    StripLeftKeepsContains(s, p);
    StripRightKeepsContains(StripLeft(s), p);
  }

  // ---------------------------------------------------------------------------
  // Joining
  // ---------------------------------------------------------------------------

  /** `sep.join(xs)`. */
  function Join(sep: string, xs: seq<string>): string
    decreases |xs|
  {
    if |xs| == 0 then ""
    else if |xs| == 1 then xs[0]
    else xs[0] + sep + Join(sep, xs[1..])
  }

  /** Every joined piece appears in the joined string. */
  lemma {:induction false} JoinContainsEach(sep: string, xs: seq<string>, i: nat)
    requires i < |xs|
    ensures Contains(Join(sep, xs), xs[i])
    decreases |xs|
  {
    if |xs| == 1 {
      ContainsInfix("", xs[0], "");
      assert "" + xs[0] + "" == xs[0];
    } else if i == 0 {
      ContainsInfix("", xs[0], sep + Join(sep, xs[1..]));
      assert "" + xs[0] + (sep + Join(sep, xs[1..])) == Join(sep, xs);
    } else {
      JoinContainsEach(sep, xs[1..], i - 1);
      ContainsAfterPrefix(xs[0] + sep, Join(sep, xs[1..]), xs[i]);
    }
  }

  /** All joined pieces at once. */
  lemma JoinContainsAll(sep: string, xs: seq<string>)
    ensures forall i :: 0 <= i < |xs| ==> Contains(Join(sep, xs), xs[i])
  {
    forall i | 0 <= i < |xs|
      ensures Contains(Join(sep, xs), xs[i])
    {
      JoinContainsEach(sep, xs, i);
    }
  }

  // ---------------------------------------------------------------------------
  // Decimal rendering of integers (`str(n)` for a Python int)
  // ---------------------------------------------------------------------------

  predicate IsDigit(c: char) {
    '0' <= c <= '9'
  }

  function DigitChar(d: int): char
    requires 0 <= d < 10
  {
    ('0' as int + d) as char
  }

  function DigitValue(c: char): nat {
    if IsDigit(c) then c as int - '0' as int else 0
  }

  function NatToString(n: nat): (r: string)
    ensures |r| > 0
    ensures forall i :: 0 <= i < |r| ==> IsDigit(r[i])
    decreases n
  {
    if n < 10 then [DigitChar(n)] else NatToString(n / 10) + [DigitChar(n % 10)]
  }

  /** `str(i)`: optional minus sign, then the decimal digits. */
  function IntToString(i: int): string {
    if i < 0 then "-" + NatToString(-i) else NatToString(i)
  }

  /** `int(s)` on what `IntToString` produces. */
  function ParseNat(s: string): nat
    decreases |s|
  {
    if |s| == 0 then 0 else ParseNat(s[..|s| - 1]) * 10 + DigitValue(s[|s| - 1])
  }

  function ParseInt(s: string): int {
    if |s| > 0 && s[0] == '-' then -(ParseNat(s[1..]) as int) else ParseNat(s)
  }

  lemma {:induction false} ParseNatRoundTrip(n: nat)
    ensures ParseNat(NatToString(n)) == n
    decreases n
  {
    if n >= 10 {
      ParseNatRoundTrip(n / 10);
      var s := NatToString(n);
      assert s[..|s| - 1] == NatToString(n / 10);
    }
  }

  /** Reading back a rendered integer gives the integer. */
  lemma IntRoundTrip(i: int)
    ensures ParseInt(IntToString(i)) == i
  {
    if i < 0 {
      ParseNatRoundTrip(-i);
      assert IntToString(i)[1..] == NatToString(-i);
    } else {
      ParseNatRoundTrip(i);
      assert IsDigit(NatToString(i)[0]);
    }
  }

  /** Distinct integers render to distinct strings. */
  lemma IntToStringInjective(a: int, b: int)
    ensures IntToString(a) == IntToString(b) <==> a == b
  {
    IntRoundTrip(a);
    IntRoundTrip(b);
  }

  // ---------------------------------------------------------------------------
  // Ordering of strings and `sorted(set(xs))`
  // ---------------------------------------------------------------------------

  /** Python's `<` on `str`: compare code point by code point; a proper prefix
      comes first. */
  predicate Less(a: string, b: string)
    decreases |a|
  {
    |b| > 0 && (|a| == 0 || a[0] < b[0] || (a[0] == b[0] && Less(a[1..], b[1..])))
  }

  lemma {:induction false} LessIrreflexive(a: string)
    ensures !Less(a, a)
    decreases |a|
  {
    if |a| > 0 {
      LessIrreflexive(a[1..]);
    }
  }

  lemma {:induction false} LessAsymmetric(a: string, b: string)
    ensures !(Less(a, b) && Less(b, a))
    decreases |a|
  {
    if |a| > 0 && |b| > 0 {
      LessAsymmetric(a[1..], b[1..]);
    }
  }

  lemma {:induction false} LessTransitive(a: string, b: string, c: string)
    requires Less(a, b) && Less(b, c)
    ensures Less(a, c)
    decreases |a|
  {
    if |a| > 0 && a[0] == b[0] && b[0] == c[0] {
      LessTransitive(a[1..], b[1..], c[1..]);
    }
  }

  lemma {:induction false} LessTotal(a: string, b: string)
    requires a != b
    ensures Less(a, b) || Less(b, a)
    decreases |a|
  {
    if |a| > 0 && |b| > 0 && a[0] == b[0] {
      assert a == [a[0]] + a[1..];
      assert b == [b[0]] + b[1..];
      LessTotal(a[1..], b[1..]);
    }
  }

  ghost predicate StrictlySorted(xs: seq<string>) {
    forall i, j :: 0 <= i < j < |xs| ==> Less(xs[i], xs[j])
  }

  /** Inserts `x` into a strictly sorted list unless it is already there. */
  function Insert(x: string, xs: seq<string>): (r: seq<string>)
    requires StrictlySorted(xs)
    ensures StrictlySorted(r)
    ensures forall y :: y in r <==> y in xs || y == x
    decreases |xs|
  {
    if |xs| == 0 then [x]
    else if x == xs[0] then xs
    else if Less(x, xs[0]) then
      LessBelowHead(x, xs);
      [x] + xs
    else
      LessTotal(x, xs[0]);
      var rest := Insert(x, xs[1..]);
      HeadBelowRest(xs, rest, x);
      [xs[0]] + rest
  }

  lemma LessBelowHead(x: string, xs: seq<string>)
    requires StrictlySorted(xs) && |xs| > 0 && Less(x, xs[0])
    ensures forall j :: 0 <= j < |xs| ==> Less(x, xs[j])
  {
    forall j | 0 < j < |xs|
      ensures Less(x, xs[j])
    {
      LessTransitive(x, xs[0], xs[j]);
    }
  }

  lemma HeadBelowRest(xs: seq<string>, rest: seq<string>, x: string)
    requires StrictlySorted(xs) && |xs| > 0 && Less(xs[0], x)
    requires forall y :: y in rest <==> y in xs[1..] || y == x
    ensures forall j :: 0 <= j < |rest| ==> Less(xs[0], rest[j])
  {
    forall j | 0 <= j < |rest|
      ensures Less(xs[0], rest[j])
    {
      assert rest[j] in rest;
      if rest[j] != x {
        assert rest[j] in xs[1..];
        var k :| 0 <= k < |xs[1..]| && xs[1..][k] == rest[j];
        assert xs[k + 1] == rest[j];
      }
    }
  }

  /** `sorted(set(xs))`: every distinct element of `xs` once, in ascending order. */
  function SortedSet(xs: seq<string>): (r: seq<string>)
    ensures StrictlySorted(r)
    ensures forall y :: y in r <==> y in xs
    decreases |xs|
  {
    if |xs| == 0 then []
    else
      assert xs == xs[..|xs| - 1] + [xs[|xs| - 1]];
      Insert(xs[|xs| - 1], SortedSet(xs[..|xs| - 1]))
  }

  lemma SortedHeadIsLeast(a: seq<string>, y: string)
    requires StrictlySorted(a) && |a| > 0
    ensures y in a && y != a[0] ==> Less(a[0], y)
  {
  }

  lemma SortedTail(a: seq<string>)
    requires StrictlySorted(a) && |a| > 0
    ensures StrictlySorted(a[1..])
    ensures forall y :: y in a[1..] <==> y in a && y != a[0]
  {
    LessIrreflexive(a[0]);
    assert a == [a[0]] + a[1..];
  }

  /** A strictly sorted list is determined by its elements: whatever the
      insertion order, `SortedSet` yields the one ascending listing. */
  lemma {:induction false} SortedUnique(a: seq<string>, b: seq<string>)
    requires StrictlySorted(a) && StrictlySorted(b)
    requires forall y :: y in a <==> y in b
    ensures a == b
    decreases |a|
  {
    assert |b| > 0 ==> b[0] in b;
    assert |a| > 0 ==> a[0] in a;
    if |a| > 0 {
      SortedHeadIsLeast(a, b[0]);
      SortedHeadIsLeast(b, a[0]);
      LessAsymmetric(a[0], b[0]);
      assert a[0] == b[0];
      SortedTail(a);
      SortedTail(b);
      SortedUnique(a[1..], b[1..]);
      assert a == [a[0]] + a[1..];
      assert b == [b[0]] + b[1..];
    }
  }
}
