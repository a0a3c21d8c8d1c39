/**
 * The few pieces of JavaScript runtime behaviour that the build wrapper and
 * the edge responder rely on: strings as sequences of UTF-16 code units,
 * optional values (`null` versus a number), and the decimal rendering of a
 * non-negative integer inside a template literal.
 */
module JsRuntime {

  /** One UTF-16 code unit: what a JavaScript string's `length`, indexing
      and `slice` count. */
  newtype CodeUnit = x: int | 0 <= x < 0x1_0000

  /** A JavaScript string value. */
  type JsString = seq<CodeUnit>

  /** A value that may be absent (`null` in the source). */
  datatype Option<T> = None | Some(value: T)

  /** True when every character is an ASCII character. */
  predicate IsAscii(s: string) {
    forall i :: 0 <= i < |s| ==> s[i] as int < 0x80
  }

  /** The string value of an ASCII literal: one code unit per character,
      equal to the character's code point. */
  function Ascii(s: string): (r: JsString)
    requires IsAscii(s)
    ensures |r| == |s|
    ensures forall i :: 0 <= i < |s| ==> r[i] as int == s[i] as int
  {
    seq(|s|, i requires 0 <= i < |s| => s[i] as int as CodeUnit)
  }

  const Zero: CodeUnit := 0x30

  predicate IsDigit(u: CodeUnit) {
    Zero <= u <= Zero + 9
  }

  predicate AllDigits(s: JsString) {
    forall i :: 0 <= i < |s| ==> IsDigit(s[i])
  }

  /** The code unit of the decimal digit `d`. */
  function DigitUnit(d: nat): (u: CodeUnit)
    requires d < 10
    ensures IsDigit(u) && (u - Zero) as int == d
  {
    (Zero as int + d) as CodeUnit
  }

  /** The string a template literal `${n}` produces for a non-negative
      integer number: its shortest decimal form, without leading zeros. */
  function ToDecimal(n: nat): (r: JsString)
    ensures |r| >= 1 && AllDigits(r)
    ensures r[0] == Zero <==> n == 0
    ensures r[0] == Zero ==> |r| == 1
    decreases n
  {
    if n < 10 then [DigitUnit(n)] else ToDecimal(n / 10) + [DigitUnit(n % 10)]
  }

  /** The number a string of decimal digits denotes; the reading partner of
      ToDecimal. */
  function DecimalValue(s: JsString): nat
    requires AllDigits(s)
  {
    if s == [] then 0
    else 10 * DecimalValue(s[..|s| - 1]) + (s[|s| - 1] - Zero) as int
  }

  /** Reading back the rendering of `n` gives `n`. */
  lemma {:induction false} DecimalRoundTrip(n: nat)
    ensures DecimalValue(ToDecimal(n)) == n
    decreases n
  {
    var r := ToDecimal(n);
    if n < 10 {
      assert r[..|r| - 1] == [];
    } else {
      DecimalRoundTrip(n / 10);
      assert r[..|r| - 1] == ToDecimal(n / 10);
    }
  }

  /** Distinct counts are rendered differently. */
  lemma ToDecimalInjective(m: nat, n: nat)
    requires ToDecimal(m) == ToDecimal(n)
    ensures m == n
  {
    DecimalRoundTrip(m);
    DecimalRoundTrip(n);
  }
}
