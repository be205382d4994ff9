/**
 * PHP's `(string) $int` cast: the shortest decimal rendering of an
 * integer, with a leading '-' for negatives and no leading zeros; and the
 * reading back that makes it a round trip.
 */
module Decimal {

  function DigitChar(d: nat): (c: char)
    requires d < 10
    ensures '0' <= c <= '9'
  {
    ('0' as int + d) as char
  }

  function DigitValue(c: char): nat
  {
    if '0' <= c <= '9' then (c as int - '0' as int) else 0
  }

  predicate IsDigit(c: char)
  {
    '0' <= c <= '9'
  }

  /** Decimal digits of a natural number, most significant first. */
  function NatToDigits(n: nat): (s: string)
    ensures |s| > 0
    ensures forall i :: 0 <= i < |s| ==> IsDigit(s[i])
    ensures s[0] == '0' ==> n == 0 && s == "0"
    decreases n
  {
    if n < 10 then [DigitChar(n)] else NatToDigits(n / 10) + [DigitChar(n % 10)]
  }

  /** The value of a string of decimal digits. */
  function DigitsToNat(s: string): nat
  {
    if |s| == 0 then 0 else DigitsToNat(s[..|s| - 1]) * 10 + DigitValue(s[|s| - 1])
  }

  /** `(string) $n`. */
  function IntToDecimal(n: int): string
  {
    if n < 0 then "-" + NatToDigits(-n) else NatToDigits(n)
  }

  /**
   * The shape `(string) $n` gives: an optional '-', then a non-empty run of
   * digits with no leading zero; "0" itself carries no sign.
   */
  predicate Canonical(s: string)
  {
    var digits := if |s| > 0 && s[0] == '-' then s[1..] else s;
    && |digits| > 0
    && (forall i :: 0 <= i < |digits| ==> IsDigit(digits[i]))
    && (digits[0] == '0' ==> digits == "0" && digits == s)
  }

  /** Reads a rendering produced by `IntToDecimal` back. */
  function DecimalToInt(s: string): int
  {
    if |s| > 0 && s[0] == '-' then -(DigitsToNat(s[1..]) as int) else DigitsToNat(s)
  }

  lemma DigitRoundTrip(d: nat)
    requires d < 10
    ensures DigitValue(DigitChar(d)) == d
  {
  }

  lemma {:induction false} NatDigitsRoundTrip(n: nat)
    ensures DigitsToNat(NatToDigits(n)) == n
    decreases n
  {
    if n < 10 {
      DigitRoundTrip(n);
    } else {
      var s := NatToDigits(n);
      NatDigitsRoundTrip(n / 10);
      DigitRoundTrip(n % 10);
      assert s[..|s| - 1] == NatToDigits(n / 10);
    }
  }

  /** The decimal rendering reads back to the integer it renders. */
  lemma {:induction false} DecimalRoundTrip(n: int)
    ensures DecimalToInt(IntToDecimal(n)) == n
  {
    if n < 0 {
      NegativeRoundTrip(n);
    } else {
      NonNegativeRoundTrip(n);
    }
  }

  lemma NegativeRoundTrip(n: int)
    requires n < 0
    ensures DecimalToInt(IntToDecimal(n)) == n
  {
    var m: nat := -n;
    var s := IntToDecimal(n);
    assert s == "-" + NatToDigits(m);
    assert |s| > 0 && s[0] == '-';
    assert s[1..] == NatToDigits(m);
    assert DigitsToNat(NatToDigits(m)) == m by {
      NatDigitsRoundTrip(m);
    }
  }

  lemma NonNegativeRoundTrip(n: nat)
    ensures DecimalToInt(IntToDecimal(n)) == n
  {
    var s := NatToDigits(n);
    assert IntToDecimal(n) == s;
    assert IsDigit(s[0]);
    NatDigitsRoundTrip(n);
  }

  /**
   * The rendering is canonical: a '-' exactly for negatives, then a
   * non-empty run of digits with no leading zero unless the value is zero.
   */
  lemma DecimalCanonical(n: int)
    ensures Canonical(IntToDecimal(n))
    ensures var s := IntToDecimal(n); |s| > 0 && s[0] == '-' <==> n < 0
  {
    if n < 0 {
      assert IntToDecimal(n)[1..] == NatToDigits(-n);
    }
  }

  /** A canonical run of digits is the rendering of its own value. */
  lemma {:induction false} DigitsRoundTrip(t: string)
    requires |t| > 0
    requires forall i :: 0 <= i < |t| ==> IsDigit(t[i])
    requires t[0] == '0' ==> t == "0"
    ensures NatToDigits(DigitsToNat(t)) == t
    decreases |t|
  {
    var p := t[..|t| - 1];
    if |t| > 1 {
      assert p[0] == t[0];
      DigitsRoundTrip(p);
      assert DigitsToNat(p) != 0;
      assert [DigitChar(DigitValue(t[|t| - 1]))] == [t[|t| - 1]];
      assert t == p + [t[|t| - 1]];
    } else {
      assert p == [];
    }
  }

  /**
   * The other direction of the round trip: a canonical string is exactly
   * the rendering of the integer it reads as, so each integer has one
   * canonical rendering.
   */
  lemma {:induction false} CanonicalRoundTrip(s: string)
    requires Canonical(s)
    ensures IntToDecimal(DecimalToInt(s)) == s
  {
    if s[0] == '-' {
      var digits := s[1..];
      DigitsRoundTrip(digits);
      assert DigitsToNat(digits) != 0;
      assert s == "-" + digits;
    } else {
      DigitsRoundTrip(s);
    }
  }
}
