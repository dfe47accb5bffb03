/**
 * Rust's `FromStr` for `u8` and `i32` in radix 10 (what `str::parse` calls).
 *
 * The algorithm: an empty string fails; a lone sign fails; one leading '+'
 * is skipped, and for a signed type one leading '-' makes the number
 * negative; every remaining character must be an ASCII digit; digits are
 * consumed left to right into an accumulator with checked arithmetic, and
 * the parse fails as soon as the accumulator leaves the type's range.
 * Which error kind a failure carries is not modelled: the only caller
 * discards it.
 */
module FromStr {
  import opened Prelude
  import opened Decimal

  /**
   * The digit loop: `acc * 10 + digit` with overflow checked at every step
   * (`checked_mul` then `checked_add`, or `checked_sub` for a negative
   * number, which is the same as checking the magnitude against `bound`).
   */
  function Accumulate(acc: nat, digits: string, bound: nat): (r: Option<nat>)
    requires acc <= bound
    ensures r.Some? ==> acc <= r.value <= bound
    decreases |digits|
  {
    if digits == [] then Some(acc)
    else if !IsDigit(digits[0]) then None
    else
      var next := acc * 10 + DigitValue(digits[0]);
      if next > bound then None else Accumulate(next, digits[1..], bound)
  }

  /** `u8::from_str`: a '-' is not a sign for an unsigned type. */
  function ParseU8(s: string): (r: Option<u8>)
  {
    if s == [] then None
    else if (s[0] == '+' || s[0] == '-') && |s| == 1 then None
    else
      var digits := if s[0] == '+' then s[1..] else s;
      match Accumulate(0, digits, U8_MAX)
      case None => None
      case Some(n) => Some(n as u8)
  }

  /** `i32::from_str`: a '-' negates, with magnitude up to 2^31. */
  function ParseI32(s: string): (r: Option<i32>)
  {
    if s == [] then None
    else if (s[0] == '+' || s[0] == '-') && |s| == 1 then None
    else if s[0] == '-' then
      match Accumulate(0, s[1..], I32_MIN_MAGNITUDE)
      case None => None
      case Some(n) => Some((-(n as int)) as i32)
    else
      var digits := if s[0] == '+' then s[1..] else s;
      match Accumulate(0, digits, I32_MAX)
      case None => None
      case Some(n) => Some(n as i32)
  }

  // ---------------------------------------------------------------------------
  // Declarative description of the strings each parse accepts

  /** `s` without one leading '+', if it has one. */
  function StripPlus(s: string): string {
    if s != [] && s[0] == '+' then s[1..] else s
  }

  predicate IsNegative(s: string) {
    s != [] && s[0] == '-'
  }

  /** `s` without one leading sign character, if it has one. */
  function StripSign(s: string): string {
    if IsNegative(s) then s[1..] else StripPlus(s)
  }

  /** A `u8` literal: an optional '+', then at least one digit, denoting at most 255. */
  predicate IsU8Literal(s: string) {
    var d := StripPlus(s);
    d != [] && AllDigits(d) && DecimalValue(d) <= U8_MAX
  }

  function U8LiteralValue(s: string): nat
    requires IsU8Literal(s)
  {
    DecimalValue(StripPlus(s))
  }

  /** An `i32` literal: an optional sign, then at least one digit, denoting a value in range. */
  predicate IsI32Literal(s: string) {
    var d := StripSign(s);
    d != [] && AllDigits(d) &&
    DecimalValue(d) <= (if IsNegative(s) then I32_MIN_MAGNITUDE else I32_MAX)
  }

  function I32LiteralValue(s: string): int
    requires IsI32Literal(s)
  {
    var m: int := DecimalValue(StripSign(s));
    if IsNegative(s) then -m else m
  }

  // ---------------------------------------------------------------------------
  // The algorithm meets the description

  /**
   * With the digits of `p` already consumed, the loop succeeds on `rest`
   * exactly when `rest` is all digits and `p + rest` denotes a value within
   * `bound`, and then yields that value.
   */
  lemma {:induction false} AccumulateMeetsValue(p: string, rest: string, bound: nat)
    requires AllDigits(p) && DecimalValue(p) <= bound
    ensures AllDigits(rest) ==> AllDigits(p + rest)
    ensures Accumulate(DecimalValue(p), rest, bound) ==
            if AllDigits(rest) && DecimalValue(p + rest) <= bound
            then Some(DecimalValue(p + rest)) else None
    decreases |rest|
  {
    if AllDigits(rest) {
      AllDigitsConcat(p, rest);
    }
    if rest == [] {
      assert p + rest == p;
    } else if !IsDigit(rest[0]) {
      assert !AllDigits(rest);
    } else {
      var c := rest[0];
      var p' := p + [c];
      DecimalValueSnoc(p, c);
      assert p + rest == p' + rest[1..];
      assert AllDigits(rest) <==> AllDigits(rest[1..]);
      if DecimalValue(p') > bound {
        if AllDigits(rest) {
          DecimalValueGrows(p', rest[1..]);
        }
      } else {
        AccumulateMeetsValue(p', rest[1..], bound);
      }
    }
  }

  /** Starting from an empty accumulator: the loop computes the value of an all-digit string within `bound`. */
  lemma AccumulateFromZero(digits: string, bound: nat)
    ensures Accumulate(0, digits, bound) ==
            if AllDigits(digits) && DecimalValue(digits) <= bound
            then Some(DecimalValue(digits)) else None
  {
    AccumulateMeetsValue([], digits, bound);
    assert [] + digits == digits;
  }

  /** `u8::from_str` accepts exactly the `u8` literals, with their value. */
  lemma ParseU8Meets(s: string)
    ensures ParseU8(s).Some? <==> IsU8Literal(s)
    ensures ParseU8(s).Some? ==> ParseU8(s).value as int == U8LiteralValue(s)
  {
    if s != [] {
      AccumulateFromZero(if s[0] == '+' then s[1..] else s, U8_MAX);
    }
  }

  /** `i32::from_str` accepts exactly the `i32` literals, with their value. */
  lemma ParseI32Meets(s: string)
    ensures ParseI32(s).Some? <==> IsI32Literal(s)
    ensures ParseI32(s).Some? ==> ParseI32(s).value as int == I32LiteralValue(s)
  {
    if s != [] {
      if s[0] == '-' {
        AccumulateFromZero(s[1..], I32_MIN_MAGNITUDE);
      } else {
        AccumulateFromZero(if s[0] == '+' then s[1..] else s, I32_MAX);
      }
    }
  }

  /** The rendering of a value of `u8` parses back to it. */
  lemma ParseU8RoundTrip(v: u8)
    ensures ParseU8(DecimalString(v as nat)) == Some(v)
  {
    var s := DecimalString(v as nat);
    DecimalRoundTrip(v as nat);
    ParseU8Meets(s);
    assert StripPlus(s) == s;
  }
}
