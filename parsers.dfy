/**
 * The validator for the numeric command-line arguments (pad count, keys per
 * pad): parse as `u8`, tell "too large" from "not a number" by re-parsing as
 * `i32`, then classify the value as zero, 1..=100 or above 100.
 */
module Parsers {
  import opened Prelude
  import opened Decimal
  import opened FromStr

  const ZERO_MESSAGE: string := "Number of pads cannot be zero"
  const RANGE_MESSAGE: string := "Number of pads must be between 1 and 100"
  const TOO_LARGE_MESSAGE: string := "Number too large, must be between 1 and 100"

  function NotANumberMessage(s: string): string {
    "'" + s + "' is not a valid number"
  }

  /**
   * `parse_int_arg`. Its five outcomes, in terms of which literal `s` is:
   * a `u8` literal of value 0, of value 1..=100, of value 101..=255; an
   * `i32` literal that is no `u8` literal; neither.
   */
  function ParseIntArg(s: string): (r: Result<u8, string>)
    ensures r.Ok? ==> 1 <= r.value <= 100 && IsU8Literal(s) && U8LiteralValue(s) == r.value as int
    ensures IsU8Literal(s) && U8LiteralValue(s) == 0 ==> r == Err(ZERO_MESSAGE)
    ensures IsU8Literal(s) && 1 <= U8LiteralValue(s) <= 100 ==> r == Ok(U8LiteralValue(s) as u8)
    ensures IsU8Literal(s) && U8LiteralValue(s) > 100 ==> r == Err(RANGE_MESSAGE)
    ensures !IsU8Literal(s) && IsI32Literal(s) ==> r == Err(TOO_LARGE_MESSAGE)
    ensures !IsU8Literal(s) && !IsI32Literal(s) ==> r == Err(NotANumberMessage(s))
  {
    ParseU8Meets(s);
    ParseI32Meets(s);
    match ParseU8(s)
    case None =>
      if ParseI32(s).Some? then Err(TOO_LARGE_MESSAGE) else Err(NotANumberMessage(s))
    case Some(value) =>
      if value == 0 then Err(ZERO_MESSAGE)
      else if value <= 100 then Ok(value)
      else Err(RANGE_MESSAGE)
  }

  /** The four error messages differ from one another, whatever the input: each outcome is told apart. */
  lemma MessagesDistinct(s: string)
    ensures ZERO_MESSAGE != RANGE_MESSAGE && ZERO_MESSAGE != TOO_LARGE_MESSAGE
    ensures RANGE_MESSAGE != TOO_LARGE_MESSAGE
    ensures NotANumberMessage(s) !in {ZERO_MESSAGE, RANGE_MESSAGE, TOO_LARGE_MESSAGE}
  {
    assert NotANumberMessage(s)[0] == '\'';
    assert ZERO_MESSAGE[15] != RANGE_MESSAGE[15];
    assert ZERO_MESSAGE[7] != TOO_LARGE_MESSAGE[7];
    assert RANGE_MESSAGE[7] != TOO_LARGE_MESSAGE[7];
  }

  /** The outcome for the canonical rendering of any natural number. */
  lemma {:induction false} ParseIntArgOfRendering(n: nat)
    ensures ParseIntArg(DecimalString(n)) ==
            if n == 0 then Err(ZERO_MESSAGE)
            else if n <= 100 then Ok(n as u8)
            else if n <= U8_MAX then Err(RANGE_MESSAGE)
            else if n <= I32_MAX then Err(TOO_LARGE_MESSAGE)
            else Err(NotANumberMessage(DecimalString(n)))
  {
    var s := DecimalString(n);
    DecimalRoundTrip(n);
    assert StripPlus(s) == s && StripSign(s) == s;
  }

  /**
   * The outcome for a minus sign followed by the rendering of a natural
   * number: never a `u8`, so "too large" while it fits `i32`, even for "-0".
   */
  lemma {:induction false} ParseIntArgOfNegative(n: nat)
    ensures ParseIntArg("-" + DecimalString(n)) ==
            if n <= I32_MIN_MAGNITUDE then Err(TOO_LARGE_MESSAGE)
            else Err(NotANumberMessage("-" + DecimalString(n)))
  {
    var s := "-" + DecimalString(n);
    DecimalRoundTrip(n);
    assert StripPlus(s) == s && !AllDigits(s);
    assert StripSign(s) == DecimalString(n);
  }

  /** Leading zeros and one '+' do not change the outcome for values that fit `u8`. */
  lemma {:induction false} ParseIntArgIgnoresPadding(z: string, n: nat)
    requires forall i :: 0 <= i < |z| ==> z[i] == '0'
    requires n <= U8_MAX
    ensures ParseIntArg("+" + z + DecimalString(n)) == ParseIntArg(DecimalString(n))
    ensures ParseIntArg(z + DecimalString(n)) == ParseIntArg(DecimalString(n))
  {
    var d := DecimalString(n);
    DecimalRoundTrip(n);
    LeadingZeros(z, d);
    assert StripPlus("+" + z + d) == z + d;
    assert z + d != [] && (z + d)[0] != '+';
    ParseIntArgOfRendering(n);
  }

  /** The five cases of `test_parse_int_arg`. */
  lemma ParseIntArgUnitTest()
    ensures ParseIntArg("10") == Ok(10)
    ensures ParseIntArg("0") == Err(ZERO_MESSAGE)
    ensures ParseIntArg("101") == Err(RANGE_MESSAGE)
    ensures ParseIntArg("abc") == Err(NotANumberMessage("abc"))
    ensures ParseIntArg("1000") == Err(TOO_LARGE_MESSAGE)
  {
    RenderingCase(10, "10");
    RenderingCase(0, "0");
    RenderingCase(101, "101");
    RenderingCase(1000, "1000");
    assert !IsDigit("abc"[0]);
  }

  /** Signs: "-5" and "-0" are "too large", a lone sign and "" are not numbers, "+7" is accepted. */
  lemma ParseIntArgSignExamples()
    ensures ParseIntArg("-5") == Err(TOO_LARGE_MESSAGE)
    ensures ParseIntArg("-0") == Err(TOO_LARGE_MESSAGE)
    ensures ParseIntArg("+7") == Ok(7)
    ensures ParseIntArg("-") == Err(NotANumberMessage("-"))
    ensures ParseIntArg("") == Err(NotANumberMessage(""))
  {
    assert DecimalString(5) == "5" && DecimalString(0) == "0";
    ParseIntArgOfNegative(5);
    ParseIntArgOfNegative(0);
    assert "-" + "5" == "-5" && "-" + "0" == "-0";
    assert DecimalString(7) == "7";
    ParseIntArgIgnoresPadding([], 7);
    assert "+" + [] + "7" == "+7";
    ParseIntArgOfRendering(7);
  }

  lemma RenderingCase(n: nat, s: string)
    requires DecimalString(n) == s
    ensures ParseIntArg(s) ==
            if n == 0 then Err(ZERO_MESSAGE)
            else if n <= 100 then Ok(n as u8)
            else if n <= U8_MAX then Err(RANGE_MESSAGE)
            else if n <= I32_MAX then Err(TOO_LARGE_MESSAGE)
            else Err(NotANumberMessage(s))
  {
    ParseIntArgOfRendering(n);
  }
}
