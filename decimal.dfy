/**
 * The two conversions between numbers and text the seed codec relies on:
 * JavaScript's decimal rendering of an integer inside a template literal, and
 * `Number(c) || 0` applied to a one-character string.
 */
module Decimal {

  predicate IsDigit(c: char) { '0' <= c <= '9' }

  predicate AllDigits(s: string) { forall i | 0 <= i < |s| :: IsDigit(s[i]) }

  /** The decimal digit character for a value 0..9. */
  function DigitChar(v: int): (c: char)
    requires 0 <= v <= 9
    ensures IsDigit(c)
  {
    ('0' as int + v) as char
  }

  /** The value 0..9 a decimal digit character stands for. */
  function CharDigit(c: char): (v: int)
    requires IsDigit(c)
    ensures 0 <= v <= 9
  {
    c as int - '0' as int
  }

  lemma DigitCharInverse(v: int)
    requires 0 <= v <= 9
    ensures CharDigit(DigitChar(v)) == v
  {
  }

  /** Decimal text of a natural number: digits only, no leading zero. */
  function NatText(n: nat): (r: string)
    ensures |r| >= 1 && AllDigits(r)
    ensures |r| == 1 <==> n <= 9
    ensures r[0] == '0' ==> n == 0
  {
    if n <= 9 then [DigitChar(n)] else NatText(n / 10) + [DigitChar(n % 10)]
  }

  /**
   * `${n}` for an integer `n`: a minus sign before the digits when it is negative.
   * Exactly the values 0..9 take a single character.
   */
  function DecimalText(n: int): (r: string)
    ensures |r| >= 1
    ensures |r| == 1 <==> 0 <= n <= 9
    ensures 0 <= n <= 9 ==> r == [DigitChar(n)]
    ensures n < 0 ==> r[0] == '-' && AllDigits(r[1..])
    ensures n >= 0 ==> AllDigits(r)
  {
    if n < 0 then "-" + NatText(-n) else NatText(n)
  }

  /** The number a string of decimal digits reads as. */
  function DigitsValue(s: string): nat
    requires AllDigits(s)
  {
    if s == [] then 0 else DigitsValue(s[..|s| - 1]) * 10 + CharDigit(s[|s| - 1])
  }

  /** The integer an optionally signed decimal text reads as. */
  function TextValue(s: string): int
    requires |s| >= 1
    requires s[0] == '-' ==> AllDigits(s[1..])
    requires s[0] != '-' ==> AllDigits(s)
  {
    if s[0] == '-' then -(DigitsValue(s[1..]) as int) else DigitsValue(s)
  }

  /** Reading back the decimal text of a natural number gives the number. */
  lemma {:induction false} NatTextValue(n: nat)
    ensures DigitsValue(NatText(n)) == n
  {
    if n > 9 {
      var r := NatText(n);
      assert r[..|r| - 1] == NatText(n / 10);
      NatTextValue(n / 10);
    }
  }

  /** The decimal text of every integer reads back as that integer. */
  lemma DecimalTextValue(n: int)
    ensures TextValue(DecimalText(n)) == n
  {
    if n < 0 {
      NatTextValue(-n);
      assert DecimalText(n)[1..] == NatText(-n);
    } else {
      NatTextValue(n);
    }
  }

  /** What `Number(x)` or `values[index]` can be here: a number, NaN, or undefined. */
  datatype JsValue = Num(v: int) | NaN | Undefined

  /** The white-space and line-terminator code points that `Number` reads as 0 on their own. */
  predicate IsJsWhitespace(c: char)
  {
    c == '\t' || c == '\n' || c == '\U{B}' || c == '\U{C}' || c == '\r' || c == ' '
    || c == '\U{A0}' || c == '\U{1680}' || ('\U{2000}' <= c <= '\U{200A}')
    || c == '\U{2028}' || c == '\U{2029}' || c == '\U{202F}' || c == '\U{205F}'
    || c == '\U{3000}' || c == '\U{FEFF}'
  }

  /** `Number(c)` for a one-character string `c`. */
  function NumberOfChar(c: char): (r: JsValue)
    ensures r.Num? <==> IsDigit(c) || IsJsWhitespace(c)
    ensures r.Num? ==> 0 <= r.v <= 9
    ensures !r.Num? ==> r == NaN
  {
    if IsDigit(c) then Num(CharDigit(c))
    else if IsJsWhitespace(c) then Num(0)
    else NaN
  }

  /** `x || 0` for a number-or-undefined `x`: NaN and undefined are falsy and give 0. */
  function OrZero(x: JsValue): int
  {
    match x
    case Num(v) => v
    case NaN => 0
    case Undefined => 0
  }

  /**
   * `Number(c) || 0`: a digit gives its value and every other character gives 0,
   * so the result is always a single decimal digit.
   */
  function DigitVal(c: char): (r: int)
    ensures 0 <= r <= 9
    ensures IsDigit(c) ==> DigitChar(r) == c
    ensures !IsDigit(c) ==> r == 0
  {
    OrZero(NumberOfChar(c))
  }
}
