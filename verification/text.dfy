/** Decimal numerals as Java's `String.format` writes them for the `%d` and
    `%02d` conversions, and the parsing that reads them back. Splitting a
    string at a separator character is here too: the time label is made of
    numerals joined by ':' and '/'. */
module Text {
  import opened Wrappers

  predicate IsDigit(c: char) {
    '0' <= c <= '9'
  }

  predicate AllDigits(s: string) {
    forall i :: 0 <= i < |s| ==> IsDigit(s[i])
  }

  /** The characters a `%d` or `%02d` conversion can produce. */
  predicate IsNumeralChar(c: char) {
    IsDigit(c) || c == '-'
  }

  predicate AllNumeralChars(s: string) {
    forall i :: 0 <= i < |s| ==> IsNumeralChar(s[i])
  }

  function DigitValue(c: char): (d: nat)
    requires IsDigit(c)
    ensures d < 10
  {
    c as int - '0' as int
  }

  function DigitChar(d: nat): (c: char)
    requires d < 10
    ensures IsDigit(c) && DigitValue(c) == d
  {
    ('0' as int + d) as char
  }

  /** The decimal digits of n, most significant first, without leading zeros. */
  function NatToString(n: nat): (r: string)
    ensures 1 <= |r| && AllDigits(r)
    ensures n < 10 <==> |r| == 1
    ensures r[0] == '0' ==> n == 0  // no leading zero
    decreases n
  {
    if n < 10 then [DigitChar(n)] else NatToString(n / 10) + [DigitChar(n % 10)]
  }

  /** The number a string of decimal digits denotes. */
  function DigitsValue(s: string): nat
    requires AllDigits(s)
  {
    if s == [] then 0 else DigitsValue(s[..|s| - 1]) * 10 + DigitValue(s[|s| - 1])
  }

  lemma {:induction false} DigitsValueOfNatToString(n: nat)
    ensures DigitsValue(NatToString(n)) == n
    decreases n
  {
    if n >= 10 {
      var r := NatToString(n);
      assert r[..|r| - 1] == NatToString(n / 10);
      DigitsValueOfNatToString(n / 10);
    }
  }

  /** Java's `%d`: a minus sign for negative values, then the digits. */
  function IntToString(n: int): (r: string)
    ensures 1 <= |r| && AllNumeralChars(r)
    ensures r[0] == '-' <==> n < 0
  {
    if n < 0 then "-" + NatToString(-n) else NatToString(n)
  }

  /** Java's `%02d`: zero-padded to a width of two. The minus sign counts
      toward the width, so a negative value is never padded. */
  function Pad2(n: int): (r: string)
    ensures 2 <= |r| && AllNumeralChars(r)
    ensures n < 0 || 10 <= n ==> r == IntToString(n)
    ensures 0 <= n < 10 ==> r == ['0', DigitChar(n)]
    ensures r[0] == '0' ==> 0 <= n < 10  // only a single digit is padded
  {
    if 0 <= n < 10 then "0" + NatToString(n) else IntToString(n)
  }

  /** Reads a numeral written by `%d` or `%02d` (leading zeros allowed). */
  function ParseInt(s: string): Option<int> {
    if 2 <= |s| && s[0] == '-' && AllDigits(s[1..]) then
      var magnitude: int := DigitsValue(s[1..]);
      Some(-magnitude)
    else if 1 <= |s| && AllDigits(s) then Some(DigitsValue(s))
    else None
  }

  lemma ParseDigits(d: string)
    requires 1 <= |d| && AllDigits(d)
    ensures ParseInt(d) == Some(DigitsValue(d))
  {
    assert IsDigit(d[0]);
  }

  lemma ParseNegative(d: string)
    requires 1 <= |d| && AllDigits(d)
    ensures ParseInt("-" + d) == Some(-(DigitsValue(d) as int))
  {
    var s := "-" + d;
    assert s[0] == '-' && s[1..] == d;
  }

  lemma IntToStringRoundTrip(n: int)
    ensures ParseInt(IntToString(n)) == Some(n)
  {
    if n < 0 {
      assert IntToString(n) == "-" + NatToString(-n);
      ParseNegative(NatToString(-n));
      DigitsValueOfNatToString(-n);
    } else {
      assert IntToString(n) == NatToString(n);
      ParseDigits(NatToString(n));
      DigitsValueOfNatToString(n);
    }
  }

  lemma Pad2RoundTrip(n: int)
    ensures ParseInt(Pad2(n)) == Some(n)
  {
    if 0 <= n < 10 {
      var r := Pad2(n);
      assert r == ['0', DigitChar(n)];
      assert r[..|r| - 1] == "0";
      assert DigitsValue(r[..|r| - 1]) == 0;
      ParseDigits(r);
    } else {
      IntToStringRoundTrip(n);
    }
  }

  /** The pieces of s between occurrences of sep, in order; always at least one. */
  function Split(s: string, sep: char): (parts: seq<string>)
    ensures 1 <= |parts|
    decreases |s|
  {
    if s == [] then [[]]
    else
      var rest := Split(s[1..], sep);
      if s[0] == sep then [[]] + rest else [[s[0]] + rest[0]] + rest[1..]
  }

  lemma {:induction false} SplitWithout(a: string, sep: char)
    requires sep !in a
    ensures Split(a, sep) == [a]
    decreases |a|
  {
    if a != [] {
      SplitWithout(a[1..], sep);
      assert [a[0]] + a[1..] == a;
    }
  }

  lemma {:induction false} SplitAfter(a: string, sep: char, b: string)
    requires sep !in a
    ensures Split(a + [sep] + b, sep) == [a] + Split(b, sep)
    decreases |a|
  {
    var s := a + [sep] + b;
    if a == [] {
      assert s[0] == sep && s[1..] == b;
    } else {
      assert s[0] == a[0] && s[1..] == a[1..] + [sep] + b;
      SplitAfter(a[1..], sep, b);
      assert [a[0]] + a[1..] == a;
    }
  }

  lemma NumeralHasNo(s: string, sep: char)
    requires AllNumeralChars(s) && !IsNumeralChar(sep)
    ensures sep !in s
  {
  }
}
