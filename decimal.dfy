/** Decimal text of integers, as JavaScript's template literal `${n}` writes an
    integral number of magnitude below 2^53 (beyond the safe integers
    JavaScript writes rounded digits padded with zeros, and from 10^21 on it
    uses exponent form), and a reader that scans it back. */
module Decimal {

  datatype Option<+T> = None | Some(value: T)

  predicate IsDigit(c: char) {
    '0' <= c <= '9'
  }

  predicate AllDigits(s: string) {
    forall i :: 0 <= i < |s| ==> IsDigit(s[i])
  }

  function DigitChar(d: nat): (c: char)
    requires d < 10
    ensures IsDigit(c) && c as int - '0' as int == d
  {
    ('0' as int + d) as char
  }

  /** Shortest decimal digits of `n`: no leading zero except for zero itself. */
  function NatToString(n: nat): (s: string)
    ensures |s| > 0 && AllDigits(s)
    ensures s[0] == '0' <==> n == 0
    decreases n
  {
    if n < 10 then [DigitChar(n)] else NatToString(n / 10) + [DigitChar(n % 10)]
  }

  /** `${n}` for an integral number of magnitude below 2^53: a minus sign in
      front of a negative one, then all the digits. */
  function IntToString(n: int): (s: string)
    ensures |s| > 0
    ensures s[0] == '-' <==> n < 0
    ensures n >= 0 ==> AllDigits(s)
    ensures n < 0 ==> AllDigits(s[1..]) && |s| > 1
  {
    if n < 0 then "-" + NatToString(-n) else NatToString(n)
  }

  /** The value of a string of decimal digits, most significant first. */
  function DigitsValue(s: string): nat
    requires AllDigits(s)
  {
    if s == [] then 0 else DigitsValue(s[..|s| - 1]) * 10 + (s[|s| - 1] as int - '0' as int)
  }

  /** The length of the longest prefix of `s` made of digits. */
  function SpanDigits(s: string): (k: nat)
    ensures k <= |s|
    ensures AllDigits(s[..k])
    ensures k < |s| ==> !IsDigit(s[k])
  {
    if s == [] || !IsDigit(s[0]) then 0
    else
      var k := 1 + SpanDigits(s[1..]);
      assert s[..k] == [s[0]] + s[1..][..k - 1];
      k
  }

  /** Reads an optionally negative decimal integer at the front of `s` and
      returns it with the text that follows it. */
  function ParseInt(s: string): Option<(int, string)> {
    if |s| > 0 && s[0] == '-' then
      var k := SpanDigits(s[1..]);
      var magnitude: int := DigitsValue(s[1..][..k]);
      if k == 0 then None else Some((-magnitude, s[1..][k..]))
    else
      var k := SpanDigits(s);
      if k == 0 then None else Some((DigitsValue(s[..k]), s[k..]))
  }

  lemma {:induction false} NatToStringRoundTrip(n: nat)
    ensures DigitsValue(NatToString(n)) == n
    decreases n
  {
    if n >= 10 {
      var s := NatToString(n);
      assert s[..|s| - 1] == NatToString(n / 10);
      NatToStringRoundTrip(n / 10);
    }
  }

  /** Reading back the decimal text of `n` gives `n` and stops at the first
      character after it, provided that character is not a digit. */
  lemma ParseIntOf(n: int, t: string)
    requires t == [] || !IsDigit(t[0])
    ensures ParseInt(IntToString(n) + t) == Some((n, t))
  {
    if n < 0 {
      ParseNegativeOf(-n, t);
    } else {
      ParseNaturalOf(n, t);
    }
  }

  lemma ParseNaturalOf(n: nat, t: string)
    requires t == [] || !IsDigit(t[0])
    ensures ParseInt(NatToString(n) + t) == Some((n, t))
  {
    var d := NatToString(n);
    var s := d + t;
    SpanPrefix(d, t);
    assert s[..|d|] == d;
    NatToStringRoundTrip(n);
  }

  lemma ParseNegativeOf(m: nat, t: string)
    requires m > 0
    requires t == [] || !IsDigit(t[0])
    ensures ParseInt("-" + NatToString(m) + t) == Some((-(m as int), t))
  {
    var d := NatToString(m);
    var s := "-" + d + t;
    assert s[1..] == d + t;
    SpanPrefix(d, t);
    assert s[1..][..|d|] == d;
    NatToStringRoundTrip(m);
  }

  lemma SpanPrefix(d: string, t: string)
    requires |d| > 0 && AllDigits(d)
    requires t == [] || !IsDigit(t[0])
    ensures SpanDigits(d + t) == |d| && (d + t)[|d|..] == t
  {
  }
}
