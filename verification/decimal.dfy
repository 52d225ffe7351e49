/** PHP's conversion of an integer to its decimal string (used when an auto id is built as
    `autoIdPrefix . counter`), together with its inverse. The round trip is what makes ids
    drawn from distinct counter values distinct. */
module Decimal {

  predicate IsDigit(ch: char) {
    '0' <= ch <= '9'
  }

  function DigitChar(d: nat): (ch: char)
    requires d < 10
    ensures IsDigit(ch)
  {
    "0123456789"[d]
  }

  function DigitValue(ch: char): (d: nat)
    requires IsDigit(ch)
    ensures d < 10
  {
    (ch as int - '0' as int) as nat
  }

  lemma DigitRoundTrip(d: nat)
    requires d < 10
    ensures DigitValue(DigitChar(d)) == d
  {
    assert "0123456789"[0] == '0' && "0123456789"[1] == '1' && "0123456789"[2] == '2';
    assert "0123456789"[3] == '3' && "0123456789"[4] == '4' && "0123456789"[5] == '5';
    assert "0123456789"[6] == '6' && "0123456789"[7] == '7' && "0123456789"[8] == '8';
    assert "0123456789"[9] == '9';
  }

  /** Decimal digits of a natural number, most significant first, without leading zeros. */
  function NatToString(n: nat): (s: string)
    ensures |s| > 0
    ensures forall i :: 0 <= i < |s| ==> IsDigit(s[i])
    decreases n
  {
    if n < 10 then [DigitChar(n)] else NatToString(n / 10) + [DigitChar(n % 10)]
  }

  /** PHP's `(string)$n` for an int: a leading '-' for negative values. */
  function IntToString(i: int): (s: string)
    ensures |s| > 0
    ensures (s[0] == '-') <==> i < 0
    ensures IsIntString(s)
  {
    if i < 0 then "-" + NatToString(-i) else NatToString(i)
  }

  /** The value of a string of decimal digits. */
  function ParseNat(s: string): nat
    requires forall i :: 0 <= i < |s| ==> IsDigit(s[i])
    decreases |s|
  {
    if |s| == 0 then 0 else ParseNat(s[..|s| - 1]) * 10 + DigitValue(s[|s| - 1])
  }

  /** The strings IntToString can produce: an optional '-' followed by digits. */
  predicate IsIntString(s: string) {
    && |s| > 0
    && (s[0] == '-' ==> forall i :: 1 <= i < |s| ==> IsDigit(s[i]))
    && (s[0] != '-' ==> forall i :: 0 <= i < |s| ==> IsDigit(s[i]))
  }

  /** The inverse of IntToString on its range. */
  function ParseInt(s: string): int
    requires IsIntString(s)
  {
    if s[0] == '-' then 0 - ParseNat(s[1..]) as int else ParseNat(s)
  }

  lemma {:induction false} NatRoundTrip(n: nat)
    ensures ParseNat(NatToString(n)) == n
    decreases n
  {
    if n < 10 {
      DigitRoundTrip(n);
      assert NatToString(n)[..0] == [];
    } else {
      var s := NatToString(n);
      assert s[..|s| - 1] == NatToString(n / 10);
      assert s[|s| - 1] == DigitChar(n % 10);
      NatRoundTrip(n / 10);
      DigitRoundTrip(n % 10);
    }
  }

  /** A negative integer prints as '-' and the digits of its magnitude. */
  lemma NegativeRoundTrip(n: nat)
    requires n > 0
    ensures ParseInt("-" + NatToString(n)) == -(n as int)
  {
    var t := NatToString(n);
    var s := "-" + t;
    assert s[0] == '-';
    assert s[1..] == t;
    NatRoundTrip(n);
  }

  /** A non-negative integer prints as its digits alone, with no sign. */
  lemma NonNegativeRoundTrip(n: nat)
    ensures ParseInt(NatToString(n)) == n
  {
    var s := NatToString(n);
    assert IsDigit(s[0]);
    NatRoundTrip(n);
  }

  /** Printing then parsing gives back the integer. */
  lemma IntRoundTrip(i: int)
    ensures ParseInt(IntToString(i)) == i
  {
    if i < 0 {
      var n: nat := -i;
      assert IntToString(i) == "-" + NatToString(n);
      NegativeRoundTrip(n);
    } else {
      var n: nat := i;
      assert IntToString(i) == NatToString(n);
      NonNegativeRoundTrip(n);
    }
  }

  /** Distinct integers print differently. */
  lemma IntToStringInjective(a: int, b: int)
    requires IntToString(a) == IntToString(b)
    ensures a == b
  {
    IntRoundTrip(a);
    IntRoundTrip(b);
  }
}
