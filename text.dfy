/**
 * The pieces of Python's string and number handling that the three programs lean on:
 * `str(n)`, `int(s)` for base 10, `re.findall(r'\d+', s)`, `sub in s`, `str.lower()`.
 * Only the ASCII part of each is modelled (Python also accepts other Unicode digits and
 * whitespace).
 */
module Text {
  import opened Base

  predicate IsDigit(c: char) { '0' <= c <= '9' }

  predicate AllDigits(s: string) { forall i :: 0 <= i < |s| ==> IsDigit(s[i]) }

  predicate NoDigits(s: string) { forall i :: 0 <= i < |s| ==> !IsDigit(s[i]) }

  function DigitValue(c: char): (d: nat)
    requires IsDigit(c)
    ensures d < 10
  {
    c as int - '0' as int
  }

  function DigitChar(d: nat): (c: char)
    requires d < 10
    ensures IsDigit(c) && DigitValue(c) == d
  {
    ('0' as int + d) as char
  }

  function Pow10(n: nat): (p: nat)
    ensures p >= 1
  {
    if n == 0 then 1 else 10 * Pow10(n - 1)
  }

  /** The number a run of decimal digits denotes, most significant digit first. */
  function DecimalValue(s: string): nat
    requires AllDigits(s)
  {
    if s == [] then 0 else 10 * DecimalValue(s[..|s| - 1]) + DigitValue(s[|s| - 1])
  }

  /** Python's `str(n)` for a non-negative integer: digits with no leading zero. */
  function NatToDecimal(n: nat): (s: string)
    ensures |s| > 0 && AllDigits(s)
    ensures s[0] == '0' ==> n == 0 && |s| == 1
  {
    if n < 10 then [DigitChar(n)] else NatToDecimal(n / 10) + [DigitChar(n % 10)]
  }

  /** Python's `str(n)` for any integer. */
  function IntToDecimal(n: int): (s: string)
    ensures n >= 0 ==> s == NatToDecimal(n)
    ensures n < 0 ==> s == "-" + NatToDecimal(-n)
  {
    if n < 0 then "-" + NatToDecimal(-n) else NatToDecimal(n)
  }

  /** Reading back what `str` printed gives the number again. */
  lemma {:induction false} DecimalRoundTrip(n: nat)
    ensures DecimalValue(NatToDecimal(n)) == n
  {
    if n >= 10 {
      var s := NatToDecimal(n);
      assert s[..|s| - 1] == NatToDecimal(n / 10);
      DecimalRoundTrip(n / 10);
    }
  }

  /** A digit string that does not start with '0' (or is "0") is what `str` prints for its value. */
  lemma {:induction false} CanonicalDecimal(d: string)
    requires |d| > 0 && AllDigits(d)
    requires d[0] != '0' || |d| == 1
    ensures NatToDecimal(DecimalValue(d)) == d
  {
    if |d| == 1 {
      assert d == [DigitChar(DigitValue(d[0]))];
    } else {
      var p := d[..|d| - 1];
      assert p[0] == d[0];
      CanonicalDecimal(p);
      PositiveValue(p);
      var n := DecimalValue(d);
      assert n / 10 == DecimalValue(p) && n % 10 == DigitValue(d[|d| - 1]);
      assert d == p + [DigitChar(n % 10)];
    }
  }

  lemma {:induction false} PositiveValue(d: string)
    requires |d| > 0 && AllDigits(d) && d[0] != '0'
    ensures DecimalValue(d) > 0
  {
    if |d| > 1 {
      var p := d[..|d| - 1];
      assert p[0] == d[0];
      PositiveValue(p);
    }
  }

  /** A digit string of length k denotes a number below 10^k. */
  lemma {:induction false} DecimalBound(d: string)
    requires AllDigits(d)
    ensures DecimalValue(d) < Pow10(|d|)
  {
    if d != [] {
      DecimalBound(d[..|d| - 1]);
    }
  }

  // ---------------------------------------------------------------------------
  // int(s)

  /** The ASCII characters that `str.strip()` and the regex class `\s` treat as whitespace. */
  predicate IsSpace(c: char) {
    c == ' ' || '\t' <= c <= '\r' || 28 <= c as int <= 31
  }

  /** The first index at or after `i` that does not hold whitespace. */
  function SkipSpaces(s: string, i: nat): (k: nat)
    requires i <= |s|
    ensures i <= k <= |s|
    ensures forall m :: i <= m < k ==> IsSpace(s[m])
    ensures k < |s| ==> !IsSpace(s[k])
    decreases |s| - i
  {
    if i < |s| && IsSpace(s[i]) then SkipSpaces(s, i + 1) else i
  }

  /** The least index down to `lo` from `j` such that only whitespace follows it before `j`. */
  function SkipSpacesBack(s: string, lo: nat, j: nat): (k: nat)
    requires lo <= j <= |s|
    ensures lo <= k <= j
    ensures forall m :: k <= m < j ==> IsSpace(s[m])
    ensures k > lo ==> !IsSpace(s[k - 1])
  {
    if j > lo && IsSpace(s[j - 1]) then SkipSpacesBack(s, lo, j - 1) else j
  }

  predicate AllSpace(s: string) { forall i :: 0 <= i < |s| ==> IsSpace(s[i]) }

  /** `s` is `r` with only whitespace before and after it. */
  predicate Padded(s: string, r: string) {
    exists a :: 0 <= a <= |s| && PaddedAt(s, r, a)
  }

  /** `r` sits at index `a` of `s` with only whitespace before and after it. */
  predicate PaddedAt(s: string, r: string, a: int) {
    0 <= a <= |s| - |r| && s[a..a + |r|] == r && AllSpace(s[..a]) && AllSpace(s[a + |r|..])
  }

  /** Text that neither starts nor ends with whitespace. */
  predicate Trimmed(r: string) {
    r == [] || (!IsSpace(r[0]) && !IsSpace(r[|r| - 1]))
  }

  /** `s.strip()`: leading and trailing whitespace removed. */
  function Strip(s: string): (r: string)
    ensures |r| <= |s|
    ensures |r| == |s| ==> r == s
  {
    var a := SkipSpaces(s, 0);
    s[a..SkipSpacesBack(s, a, |s|)]
  }

  /** What `strip()` returns neither starts nor ends with whitespace and has only whitespace around it. */
  lemma StripShape(s: string)
    ensures Trimmed(Strip(s)) && Padded(s, Strip(s))
  {
    var a := SkipSpaces(s, 0);
    var b := SkipSpacesBack(s, a, |s|);
    assert AllSpace(s[..a]) by {
      forall i | 0 <= i < a ensures IsSpace(s[..a][i]) { assert s[..a][i] == s[i]; }
    }
    assert AllSpace(s[b..]) by {
      forall i | 0 <= i < |s| - b ensures IsSpace(s[b..][i]) { assert s[b..][i] == s[b + i]; }
    }
    assert s[a..b] == s[a..a + (b - a)];
    assert PaddedAt(s, s[a..b], a);
  }

  lemma SpaceConcat(a: string, b: string)
    requires AllSpace(a) && AllSpace(b)
    ensures AllSpace(a + b)
  {
    forall i | 0 <= i < |a + b| ensures IsSpace((a + b)[i]) {
      if i >= |a| { assert (a + b)[i] == b[i - |a|]; }
    }
  }

  /** Whatever whitespace surrounds a trimmed text, `strip` gives back exactly that text. */
  lemma StripPadded(x: string, r: string, y: string)
    requires AllSpace(x) && AllSpace(y) && Trimmed(r)
    ensures Strip(x + r + y) == r
  {
    var s := x + r + y;
    Seams(x, r, y);
    var a := SkipSpaces(s, 0);
    if r == [] {
      assert AllSpace(s);
      assert a == |s|;
    } else {
      assert s[|x|] == r[0];
      assert a == |x|;
      var b := SkipSpacesBack(s, a, |s|);
      assert s[|x| + |r| - 1] == r[|r| - 1];
      assert b == |x| + |r|;
    }
  }

  /** `int` ignores whitespace around its argument. */
  lemma PyIntPadded(w1: string, t: string, w2: string)
    requires AllSpace(w1) && AllSpace(w2)
    ensures Strip(w1 + t + w2) == Strip(t) && PyInt(w1 + t + w2) == PyInt(t)
  {
    var r := Strip(t);
    StripShape(t);
    var u, v := PaddingOf(t, r);
    SpaceConcat(w1, u);
    SpaceConcat(v, w2);
    Regroup(w1, u, r, v, w2);
    StripPadded(w1 + u, r, v + w2);
  }

  /** The whitespace on either side of `r` in `s`. */
  lemma PaddingOf(s: string, r: string) returns (u: string, v: string)
    requires Padded(s, r)
    ensures AllSpace(u) && AllSpace(v) && s == u + r + v
  {
    var a :| 0 <= a <= |s| && PaddedAt(s, r, a);
    assert a + |r| <= |s|;
    u, v := s[..a], s[a + |r|..];
    assert s == u + s[a..a + |r|] + v;
  }

  lemma Regroup(w1: string, u: string, r: string, v: string, w2: string)
    ensures w1 + (u + r + v) + w2 == (w1 + u) + r + (v + w2)
  {
  }

  /** Digits in which single underscores may separate groups, as `int()` accepts them. */
  predicate Grouped(u: string) {
    && |u| > 0
    && IsDigit(u[0])
    && IsDigit(u[|u| - 1])
    && (forall i :: 0 <= i < |u| ==> IsDigit(u[i]) || u[i] == '_')
    && NoDoubleUnderscore(u)
  }

  predicate NoDoubleUnderscore(u: string) {
    |u| < 2 || (!(u[0] == '_' && u[1] == '_') && NoDoubleUnderscore(u[1..]))
  }

  /** The digits of `u` with every underscore dropped. */
  function Ungroup(u: string): (r: string)
    ensures |r| <= |u|
    ensures (forall i :: 0 <= i < |u| ==> IsDigit(u[i]) || u[i] == '_') ==> AllDigits(r)
    ensures AllDigits(u) ==> r == u
  {
    if u == [] then []
    else if u[0] == '_' then Ungroup(u[1..])
    else [u[0]] + Ungroup(u[1..])
  }

  function GroupedValue(u: string): nat
    requires Grouped(u)
  {
    DecimalValue(Ungroup(u))
  }

  /** An optional sign followed by grouped digits, read as the integer it denotes. */
  function IntLiteral(t: string): Option<int> {
    if |t| > 0 && (t[0] == '+' || t[0] == '-') then
      if Grouped(t[1..]) then
        var v: int := GroupedValue(t[1..]);
        Some(if t[0] == '-' then -v else v)
      else None
    else if Grouped(t) then Some(GroupedValue(t))
    else None
  }

  /**
   * Python's `int(s)` in base 10: surrounding whitespace is ignored, then an optional
   * sign and grouped digits; anything else raises ValueError, modelled as None.
   */
  function PyInt(s: string): Option<int> {
    IntLiteral(Strip(s))
  }

  /** `int(str(n)) == n`. */
  lemma {:induction false} PyIntRoundTrip(n: int)
    ensures PyInt(IntToDecimal(n)) == Some(n)
  {
    var m: nat := if n < 0 then -n else n;
    DecimalRoundTrip(m);
    if n < 0 {
      PyIntOfNegativeDigits(IntToDecimal(n), NatToDecimal(m));
    } else {
      PyIntOfDigits(NatToDecimal(m));
    }
  }

  /** `int` reads a plain run of digits as its value. */
  lemma {:induction false} PyIntOfDigits(d: string)
    requires |d| > 0 && AllDigits(d)
    ensures PyInt(d) == Some(DecimalValue(d))
  {
    DigitsAreGrouped(d);
    NoSpaceStrip(d);
    UnsignedLiteral(d);
  }

  /** `int` reads a minus sign and a run of digits as the negated value. */
  lemma {:induction false} PyIntOfNegativeDigits(s: string, d: string)
    requires |d| > 0 && AllDigits(d) && s == "-" + d
    ensures PyInt(s) == Some(-(DecimalValue(d) as int))
  {
    assert s[1..] == d;
    DigitsAreGrouped(s[1..]);
    forall i | 0 <= i < |s| ensures IsDigit(s[i]) || s[i] == '-' {
      if i > 0 { assert s[i] == s[1..][i - 1]; }
    }
    NoSpaceStrip(s);
    NegativeLiteral(s);
  }

  lemma UnsignedLiteral(t: string)
    requires Strip(t) == t && Grouped(t)
    ensures PyInt(t) == Some(GroupedValue(t))
  {
    PyIntOfStripped(t);
    UnsignedLiteralValue(t);
  }

  lemma UnsignedLiteralValue(t: string)
    requires Grouped(t)
    ensures IntLiteral(t) == Some(GroupedValue(t))
  {
  }

  lemma NegativeLiteralValue(t: string)
    requires |t| > 0 && t[0] == '-' && Grouped(t[1..])
    ensures IntLiteral(t) == Some(-(GroupedValue(t[1..]) as int))
  {
  }

  lemma NegativeLiteral(t: string)
    requires Strip(t) == t && |t| > 0 && t[0] == '-' && Grouped(t[1..])
    ensures PyInt(t) == Some(-(GroupedValue(t[1..]) as int))
  {
    PyIntOfStripped(t);
    NegativeLiteralValue(t);
  }

  lemma PyIntOfStripped(t: string)
    requires Strip(t) == t
    ensures PyInt(t) == IntLiteral(t)
  {
  }

  lemma {:induction false} DigitsAreGrouped(d: string)
    requires |d| > 0 && AllDigits(d)
    ensures Grouped(d) && GroupedValue(d) == DecimalValue(d)
  {
    NoUnderscoreInDigits(d);
  }

  lemma {:induction false} NoUnderscoreInDigits(d: string)
    requires AllDigits(d)
    ensures NoDoubleUnderscore(d)
  {
    if |d| >= 2 { NoUnderscoreInDigits(d[1..]); }
  }

  lemma {:induction false} NoSpaceStrip(s: string)
    requires forall i :: 0 <= i < |s| ==> IsDigit(s[i]) || s[i] == '-'
    ensures Strip(s) == s
  {
  }

  /** A digit string of length k, read by `int`, below which 10^k bounds the value. */
  lemma {:induction false} GroupedBound(u: string)
    requires Grouped(u)
    ensures GroupedValue(u) < Pow10(|u|)
    ensures GroupedValue(u) >= Pow10(|u| - 1) ==> AllDigits(u)
  {
    var r := Ungroup(u);
    DecimalBound(r);
    PowMonotone(|r|, |u|);
    if GroupedValue(u) >= Pow10(|u| - 1) && !AllDigits(u) {
      var i :| 0 <= i < |u| && !IsDigit(u[i]);
      UngroupShorter(u, i);
      PowMonotone(|r|, |u| - 1);
    }
  }

  lemma {:induction false} PowMonotone(a: nat, b: nat)
    requires a <= b
    ensures Pow10(a) <= Pow10(b)
  {
    if a < b { PowMonotone(a, b - 1); }
  }

  lemma {:induction false} UngroupShorter(u: string, i: nat)
    requires i < |u| && u[i] == '_'
    ensures |Ungroup(u)| < |u|
  {
    if i > 0 { UngroupShorter(u[1..], i - 1); }
  }

  /**
   * At most three characters that `int` reads as a number of three digits are exactly
   * those three digits: no sign, whitespace or underscore can take part.
   */
  lemma {:induction false} ThreeDigitCode(t: string, c: int)
    requires |t| <= 3 && 100 <= c
    ensures PyInt(t) == Some(c) <==> t == NatToDecimal(c)
  {
    if t == NatToDecimal(c) {
      PyIntRoundTrip(c);
    }
    if PyInt(t) == Some(c) {
      var s := Strip(t);
      LiteralOfThreeDigits(s, c);
    }
  }

  /** A literal of at most three characters denoting at least 100 is three plain digits. */
  lemma {:induction false} LiteralOfThreeDigits(s: string, c: int)
    requires |s| <= 3 && 100 <= c && IntLiteral(s) == Some(c)
    ensures s == NatToDecimal(c)
  {
    if |s| > 0 && (s[0] == '+' || s[0] == '-') {
      GroupedBound(s[1..]);
      assert false;
    }
    GroupedBound(s);
    assert |s| == 3;
    assert Pow10(|s| - 1) == 100;
    assert AllDigits(s);
    assert Ungroup(s) == s;
    assert DecimalValue(s) == c;
    assert s[0] != '0' by {
      if s[0] == '0' {
        LeadingZeroBound(s);
        assert false;
      }
    }
    CanonicalDecimal(s);
  }

  lemma LeadingZeroBound(s: string)
    requires |s| == 3 && AllDigits(s) && s[0] == '0'
    ensures DecimalValue(s) < 100
  {
    var p := s[..2];
    assert p[..1][..0] == [];
    assert DecimalValue(p[..1]) == 0;
    assert DecimalValue(p) < 10;
    assert s[..|s| - 1] == p;
  }

  // ---------------------------------------------------------------------------
  // re.findall(r'\d+', s)

  /** Length of the run of digits that `s` starts with. */
  function LeadingDigits(s: string): (k: nat)
    ensures k <= |s| && AllDigits(s[..k])
    ensures k < |s| ==> !IsDigit(s[k])
  {
    if s != [] && IsDigit(s[0]) then 1 + LeadingDigits(s[1..]) else 0
  }

  /** Every maximal run of digits in `s`, left to right, as `re.findall(r'\d+', s)` lists them. */
  function DigitRuns(s: string): (runs: seq<string>)
    ensures forall j :: 0 <= j < |runs| ==> |runs[j]| > 0 && AllDigits(runs[j])
    decreases |s|
  {
    if s == [] then []
    else if !IsDigit(s[0]) then DigitRuns(s[1..])
    else
      var k := LeadingDigits(s);
      [s[..k]] + DigitRuns(s[k..])
  }

  lemma {:induction false} LeadingDigitsIs(s: string, k: nat)
    requires k <= |s| && AllDigits(s[..k])
    requires k < |s| ==> !IsDigit(s[k])
    ensures LeadingDigits(s) == k
  {
    if k > 0 {
      assert s[..k][0] == s[0];
      assert s[1..][..k - 1] == s[..k][1..];
      LeadingDigitsIs(s[1..], k - 1);
    }
  }

  /** Text without digits contributes no run. */
  lemma {:induction false} DigitRunsNone(s: string)
    requires NoDigits(s)
    ensures DigitRuns(s) == []
  {
    if s != [] { DigitRunsNone(s[1..]); }
  }

  /** Runs do not merge across a boundary that has a non-digit on one side. */
  lemma {:induction false} DigitRunsAppend(a: string, b: string)
    requires a == [] || b == [] || !IsDigit(a[|a| - 1]) || !IsDigit(b[0])
    ensures DigitRuns(a + b) == DigitRuns(a) + DigitRuns(b)
  {
    if a == [] {
      assert a + b == b;
    } else if !IsDigit(a[0]) {
      assert (a + b)[1..] == a[1..] + b;
      DigitRunsAppend(a[1..], b);
    } else {
      var k := LeadingDigits(a);
      LeadingOfAppend(a, b);
      if k < |a| {
        assert a[k..][|a| - k - 1] == a[|a| - 1];
      }
      DigitRunsAppend(a[k..], b);
    }
  }

  /** The leading run of `a + b` is that of `a` when the boundary has a non-digit on one side. */
  lemma LeadingOfAppend(a: string, b: string)
    requires a != [] && IsDigit(a[0])
    requires b == [] || !IsDigit(a[|a| - 1]) || !IsDigit(b[0])
    ensures var k := LeadingDigits(a);
      LeadingDigits(a + b) == k && (a + b)[..k] == a[..k] && (a + b)[k..] == a[k..] + b
  {
    var k := LeadingDigits(a);
    assert (a + b)[..k] == a[..k];
    if k < |a| {
      assert (a + b)[k] == a[k];
    } else if b != [] {
      assert a[..k][|a| - 1] == a[|a| - 1];
      assert (a + b)[k] == b[0];
    }
    LeadingDigitsIs(a + b, k);
    assert (a + b)[k..] == a[k..] + b;
  }

  /** A number printed by `str` is found as one run. */
  lemma {:induction false} DigitRunsOfDecimal(n: nat)
    ensures DigitRuns(NatToDecimal(n)) == [NatToDecimal(n)]
  {
    var d := NatToDecimal(n);
    assert d[..|d|] == d;
    LeadingDigitsIs(d, |d|);
    assert d[|d|..] == [];
    assert IsDigit(d[0]);
  }

  // ---------------------------------------------------------------------------
  // Substrings

  predicate StartsWith(s: string, p: string) { |p| <= |s| && s[..|p|] == p }

  predicate EndsWith(s: string, p: string) { |p| <= |s| && s[|s| - |p|..] == p }

  predicate OccursAt(s: string, p: string, i: int) {
    0 <= i && i + |p| <= |s| && s[i..i + |p|] == p
  }

  /** Python's `p in s`, and `re.search` of a literal pattern. */
  function Contains(s: string, p: string): (r: bool)
    ensures r <==> exists i :: OccursAt(s, p, i)
  {
    if StartsWith(s, p) then
      assert OccursAt(s, p, 0);
      true
    else if s == [] then false
    else
      var r := Contains(s[1..], p);
      forall i | OccursAt(s[1..], p, i) ensures OccursAt(s, p, i + 1) {
        assert s[1..][i..i + |p|] == s[i + 1..i + 1 + |p|];
      }
      forall i | OccursAt(s, p, i) && i > 0 ensures OccursAt(s[1..], p, i - 1) {
        assert s[1..][i - 1..i - 1 + |p|] == s[i..i + |p|];
      }
      r
  }

  /** What `Contains` finds inside a piece is found in every string holding that piece. */
  lemma {:induction false} ContainsInside(a: string, s: string, b: string, p: string)
    requires Contains(s, p)
    ensures Contains(a + s + b, p)
  {
    var i :| OccursAt(s, p, i);
    assert (a + s + b)[|a| + i..|a| + i + |p|] == s[i..i + |p|];
    assert OccursAt(a + s + b, p, |a| + i);
  }

  /** Where the three pieces of `a + b + c` sit. */
  lemma Seams(a: string, b: string, c: string)
    ensures var s := a + b + c;
      s[..|a|] == a && s[|a|..|a| + |b|] == b && s[|a| + |b|..] == c
  {
  }

  /** An occurrence inside a slice is an occurrence in the whole string, shifted by the slice's start. */
  lemma OccursInSlice(s: string, a: nat, b: nat, p: string, j: int)
    requires a <= b <= |s| && OccursAt(s[a..b], p, j)
    ensures OccursAt(s, p, a + j)
  {
    forall k | 0 <= k < |p| ensures s[a + j..a + j + |p|][k] == p[k] {
      assert s[a..b][j..j + |p|][k] == s[a + j + k];
    }
  }

  function LowerChar(c: char): char {
    if 'A' <= c <= 'Z' then (c as int + 32) as char else c
  }

  /** `s.lower()` on ASCII letters. */
  function Lower(s: string): (r: string)
    ensures |r| == |s| && forall i :: 0 <= i < |s| ==> r[i] == LowerChar(s[i])
    ensures forall i :: 0 <= i < |r| ==> !('A' <= r[i] <= 'Z')
  {
    seq(|s|, i requires 0 <= i < |s| => LowerChar(s[i]))
  }
}
