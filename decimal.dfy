/**
 * Decimal digit strings: the value a string of ASCII digits denotes, and the
 * canonical rendering of a natural number (Rust's `Display` for integers,
 * which `to_string` uses).
 */
module Decimal {

  predicate IsDigit(c: char) {
    '0' <= c <= '9'
  }

  function DigitValue(c: char): (d: nat)
    requires IsDigit(c)
    ensures d < 10
  {
    (c as int) - ('0' as int)
  }

  function DigitChar(d: nat): (c: char)
    requires d < 10
    ensures IsDigit(c) && DigitValue(c) == d
  {
    (('0' as int) + d) as char
  }

  predicate AllDigits(s: string) {
    forall i :: 0 <= i < |s| ==> IsDigit(s[i])
  }

  /** The number a digit string denotes, most significant digit first; "" denotes 0. */
  function DecimalValue(s: string): nat
    requires AllDigits(s)
  {
    if s == [] then 0 else DecimalValue(s[..|s| - 1]) * 10 + DigitValue(s[|s| - 1])
  }

  /** The canonical rendering of `n`: no sign, no leading zero. */
  function DecimalString(n: nat): (s: string)
    ensures s != [] && AllDigits(s)
    ensures s[0] == '0' ==> n == 0
    ensures n < 10 <==> |s| == 1
  {
    if n < 10 then [DigitChar(n)] else DecimalString(n / 10) + [DigitChar(n % 10)]
  }

  function Pow10(k: nat): (p: nat)
    ensures p >= 1
  {
    if k == 0 then 1 else 10 * Pow10(k - 1)
  }

  lemma AllDigitsConcat(p: string, q: string)
    requires AllDigits(p) && AllDigits(q)
    ensures AllDigits(p + q)
  {
  }

  /** Appending one digit multiplies the value by ten and adds the digit. */
  lemma {:induction false} DecimalValueSnoc(p: string, c: char)
    requires AllDigits(p) && IsDigit(c)
    ensures AllDigits(p + [c])
    ensures DecimalValue(p + [c]) == DecimalValue(p) * 10 + DigitValue(c)
  {
    assert (p + [c])[..|p + [c]| - 1] == p;
  }

  /** Appending digits never makes the value smaller. */
  lemma {:induction false} DecimalValueGrows(p: string, q: string)
    requires AllDigits(p) && AllDigits(q)
    ensures AllDigits(p + q) && DecimalValue(p + q) >= DecimalValue(p)
    decreases |q|
  {
    AllDigitsConcat(p, q);
    if q != [] {
      var q' := q[..|q| - 1];
      assert (p + q)[..|p + q| - 1] == p + q';
      DecimalValueGrows(p, q');
    } else {
      assert p + q == p;
    }
  }

  /** A string of zeros denotes 0, and leading zeros do not change the value. */
  lemma {:induction false} LeadingZeros(z: string, s: string)
    requires forall i :: 0 <= i < |z| ==> z[i] == '0'
    requires AllDigits(s)
    ensures AllDigits(z + s) && DecimalValue(z + s) == DecimalValue(s)
    decreases |s|
  {
    AllDigitsConcat(z, s);
    if s == [] {
      assert z + s == z;
      ZerosDenoteZero(z);
    } else {
      var s' := s[..|s| - 1];
      assert (z + s)[..|z + s| - 1] == z + s';
      LeadingZeros(z, s');
    }
  }

  lemma {:induction false} ZerosDenoteZero(z: string)
    requires forall i :: 0 <= i < |z| ==> z[i] == '0'
    ensures AllDigits(z) && DecimalValue(z) == 0
    decreases |z|
  {
    if z != [] {
      ZerosDenoteZero(z[..|z| - 1]);
    }
  }

  /** Reading back the rendering of `n` gives `n`. */
  lemma {:induction false} DecimalRoundTrip(n: nat)
    ensures DecimalValue(DecimalString(n)) == n
    decreases n
  {
    if n >= 10 {
      DecimalRoundTrip(n / 10);
      DecimalValueSnoc(DecimalString(n / 10), DigitChar(n % 10));
    }
  }

  /**
   * Rendering the value of a digit string without a superfluous leading zero
   * gives the string back: `DecimalString` and `DecimalValue` are inverse
   * bijections between naturals and canonical digit strings.
   */
  lemma {:induction false} CanonicalRoundTrip(s: string)
    requires s != [] && AllDigits(s)
    requires s[0] == '0' ==> |s| == 1
    ensures DecimalString(DecimalValue(s)) == s
    decreases |s|
  {
    var p, c := s[..|s| - 1], s[|s| - 1];
    assert s == p + [c];
    DecimalValueSnoc(p, c);
    if p != [] {
      assert p[0] == s[0];
      DecimalValueGrows(p[..1], p[1..]);
      assert p[..1] + p[1..] == p;
      assert DecimalValue(p[..1]) == DigitValue(p[0]) by {
        assert p[..1][..0] == [];
      }
      CanonicalRoundTrip(p);
      var n := DecimalValue(s);
      assert n / 10 == DecimalValue(p) && n % 10 == DigitValue(c);
    }
  }

  /** A number with k digits renders to exactly k characters. */
  lemma {:induction false} DecimalStringLength(n: nat, k: nat)
    requires 1 <= k && n < Pow10(k)
    requires k == 1 || Pow10(k - 1) <= n
    ensures |DecimalString(n)| == k
    decreases k
  {
    if k > 1 {
      assert Pow10(k) == 10 * Pow10(k - 1);
      var q := n / 10;
      assert n == 10 * q + n % 10;
      if k > 2 {
        assert Pow10(k - 1) == 10 * Pow10(k - 2);
      }
      DecimalStringLength(q, k - 1);
    }
  }
}
