/**
 * The .NET `ToString()` renderings the decoder applies to decoded
 * primitives (Loader/Loader/Loader.cs:313-331) and to array indices
 * (Loader/Loader/Loader.cs:463): invariant-culture decimal text for
 * integers and "True"/"False" for booleans.
 */
module Rendering {

  /** The decimal digit character of d. */
  function Digit(d: nat): (c: char)
    requires d < 10
    ensures '0' <= c <= '9'
  {
    ('0' as int + d) as char
  }

  /** The value of a decimal digit character. */
  function DigitValue(c: char): nat
  {
    if '0' <= c <= '9' then c as int - '0' as int else 0
  }

  /** Decimal text of a natural number, most significant digit first, no leading zeros. */
  function DecimalText(n: nat): (text: string)
    ensures |text| >= 1
    ensures forall i :: 0 <= i < |text| ==> '0' <= text[i] <= '9'
  {
    if n < 10 then [Digit(n)] else DecimalText(n / 10) + [Digit(n % 10)]
  }

  /** Reads decimal digits back into a number: the inverse of DecimalText. */
  function ParseDecimal(text: string): nat
  {
    if text == [] then 0
    else ParseDecimal(text[..|text| - 1]) * 10 + DigitValue(text[|text| - 1])
  }

  /** Parsing the decimal text of n gives n. */
  lemma {:induction false} DecimalRoundTrip(n: nat)
    ensures ParseDecimal(DecimalText(n)) == n
  {
    var text := DecimalText(n);
    if n >= 10 {
      DecimalRoundTrip(n / 10);
      assert text[..|text| - 1] == DecimalText(n / 10);
    }
  }

  /** Distinct numbers have distinct decimal texts (array keys never collide). */
  lemma DecimalTextInjective(m: nat, n: nat)
    ensures DecimalText(m) == DecimalText(n) ==> m == n
  {
    DecimalRoundTrip(m);
    DecimalRoundTrip(n);
  }

  /** `Int32.ToString()` / `Int16.ToString()`: a leading '-' for negatives. */
  function IntText(i: int): (text: string)
    ensures |text| >= 1
    ensures text[0] == '-' <==> i < 0
  {
    if i < 0 then "-" + DecimalText(-i) else DecimalText(i)
  }

  /** Reads the text of IntText back. */
  function ParseInt(text: string): int
  {
    if |text| > 0 && text[0] == '-' then 0 - ParseDecimal(text[1..]) else ParseDecimal(text)
  }

  /** Parsing the text of i gives i. */
  lemma IntRoundTrip(i: int)
    ensures ParseInt(IntText(i)) == i
  {
    if i < 0 {
      assert IntText(i)[1..] == DecimalText(-i);
      DecimalRoundTrip(-i);
    } else {
      DecimalRoundTrip(i);
    }
  }

  /** `Boolean.ToString()`. */
  function BoolText(b: bool): (text: string)
    ensures text == "True" || text == "False"
    ensures b <==> text == "True"
  {
    if b then "True" else "False"
  }
}
