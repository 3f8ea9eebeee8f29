/**
 The bounded decimal text of application/ibkr_cash_observations.py: a decimal is printed
 without an exponent, exactly, and reading the print and printing it again changes nothing.
 */
module CashDecimals {
  import opened Wrappers
  import opened DecimalText
  import opened Arith

  const MAX_DIGITS := 4096

  /** A finite decimal: sign, coefficient and exponent, as the decimal type keeps them. */
  datatype Dec = Dec(negative: bool, coefficient: nat, exponent: int)

  /** A captured value: an object of no usable type, or the text of one, native or of a number. */
  datatype Raw = Unusable | Native(text: string) | Number(text: string)

  /** The decimal type's own reader of texts; None for what is not a finite number. */
  type Parser = string -> Option<Dec>

  /** The reader keeps sign, digits and scale of plain fixed-point texts. */
  ghost predicate ReadsFixedPoint(parse: Parser) {
    forall s :: Accepts(s) ==> parse(s) == Some(PlainDec(s))
  }

  function PlainDec(s: string): Dec
    requires Accepts(s)
  {
    var p := Split(s);
    Dec(p.negative, Digits(p.whole + p.fraction), -(|p.fraction| as int))
  }

  function Positive(i: int): nat { if i > 0 then i else 0 }

  predicate Bounded(d: Dec) { |Str(d.coefficient)| + AbsInt(d.exponent) <= MAX_DIGITS }

  function Shift(n: nat, e: nat): nat { n * Pow10(e) }

  function Print(d: Dec): string {
    Signed(d.negative, FixedPoint(Shift(d.coefficient, Positive(d.exponent)), Positive(-d.exponent)))
  }

  function DecimalOf(parse: Parser, raw: Raw): Option<Dec> {
    if raw.Unusable? then None else parse(raw.text)
  }

  function DecText(parse: Parser, raw: Raw): Option<string> {
    match DecimalOf(parse, raw)
    case None => None
    case Some(d) => if Bounded(d) then Some(Print(d)) else None
  }

  function WithSign(negative: bool, n: nat): int { if negative then -(n as int) else n }

  /** The number a decimal stands for. */
  function NumberOf(d: Dec): real {
    var n := WithSign(d.negative, d.coefficient) as real;
    if d.exponent >= 0 then n * Pow10(d.exponent) as real else n / Pow10(-d.exponent) as real
  }

  /** The decimal that is printed: digits behind the point only. */
  function Plain(d: Dec): Dec {
    Dec(d.negative, Shift(d.coefficient, Positive(d.exponent)), -(Positive(-d.exponent) as int))
  }

  predicate Writes(s: string, d: Dec) { Accepts(s) && PlainDec(s) == d }

  /** The print is a plain text of the same digits and scale, and of the same number. */
  lemma PrintIsExact(d: Dec)
    ensures Writes(Print(d), Plain(d)) && NumberOf(Plain(d)) == NumberOf(d)
  {
    var n, scale := Shift(d.coefficient, Positive(d.exponent)), Positive(-d.exponent);
    PrintIsWritten(d, n, scale);
    hide *;
    PrintedNumber(d, n, scale);
    PlainNumber(d.negative, n, scale);
    PlainParts(d, n, scale);
  }

  lemma PlainParts(d: Dec, n: nat, scale: nat)
    requires n == Shift(d.coefficient, Positive(d.exponent)) && scale == Positive(-d.exponent)
    ensures Plain(d) == Dec(d.negative, n, -(scale as int))
    ensures Print(d) == Signed(d.negative, FixedPoint(n, scale))
  {
    hide FixedPoint, Signed, Pow10;
  }

  lemma PrintIsWritten(d: Dec, n: nat, scale: nat)
    requires n == Shift(d.coefficient, Positive(d.exponent)) && scale == Positive(-d.exponent)
    ensures Writes(Print(d), Plain(d))
  {
    PlainParts(d, n, scale);
    hide *;
    PrintedTextReadsBack(d.negative, n, scale);
    TextIsWritten(Signed(d.negative, FixedPoint(n, scale)), d.negative, n, scale);
  }

  lemma TextIsWritten(s: string, negative: bool, n: nat, scale: nat)
    requires Accepts(s) && Scale(s) == scale && Split(s).negative == negative
    requires Mantissa(s) == (if negative then -(n as int) else n)
    ensures Writes(s, Dec(negative, n, -(scale as int)))
  {
    hide Accepts, Split;
    MantissaIsPlain(s);
  }

  lemma PlainNumber(negative: bool, n: nat, scale: nat)
    ensures NumberOf(Dec(negative, n, -(scale as int))) == WithSign(negative, n) as real / Pow10(scale) as real
  {
    if scale == 0 { assert Pow10(0) == 1; }
  }

  lemma MantissaIsPlain(s: string)
    requires Accepts(s)
    ensures var d := PlainDec(s);
            && Mantissa(s) == (if d.negative then -(d.coefficient as int) else d.coefficient)
            && d.exponent == -(Scale(s) as int) && d.negative == Split(s).negative
  {
  }

  lemma PrintedNumber(d: Dec, n: nat, scale: nat)
    requires n == Shift(d.coefficient, Positive(d.exponent)) && scale == Positive(-d.exponent)
    ensures WithSign(d.negative, n) as real / Pow10(scale) as real == NumberOf(d)
  {
    ShiftedNumber(d.negative, d.coefficient, Positive(d.exponent));
    PlainNumber(d.negative, n, scale);
    NoShift(d.coefficient);
    hide Pow10, Shift, WithSign;
    if d.exponent < 0 { assert n == d.coefficient; }
  }

  lemma NoShift(n: nat)
    ensures Shift(n, 0) == n && Pow10(0) == 1
  {
  }

  lemma ShiftedNumber(negative: bool, n: nat, e: nat)
    ensures WithSign(negative, Shift(n, e)) as real == WithSign(negative, n) as real * Pow10(e) as real
  {
    var x, y := n as real, Pow10(e) as real;
    assert Shift(n, e) as real == x * y;
    assert -(x * y) == -x * y;
  }

  lemma {:induction false} LengthOfShifted(n: nat, e: nat)
    requires n > 0
    ensures n * Pow10(e) > 0 && |Str(n * Pow10(e))| == |Str(n)| + e
  {
    if e == 0 {
      assert n * 1 == n;
    } else {
      LengthOfShifted(n, e - 1);
      TenTimes(n, Pow10(e - 1));
      OneMoreZero(n * Pow10(e - 1));
    }
  }

  lemma OneMoreZero(m: nat)
    requires m > 0
    ensures |Str(10 * m)| == |Str(m)| + 1
  {
    assert (10 * m) / 10 == m;
  }

  /** Printing does not lengthen a decimal beyond the bound. */
  lemma PrintStaysBounded(d: Dec)
    requires Bounded(d)
    ensures Bounded(Plain(d))
  {
    if d.exponent > 0 {
      if d.coefficient > 0 {
        LengthOfShifted(d.coefficient, d.exponent);
      } else {
        assert 0 * Pow10(d.exponent) == 0;
      }
    } else {
      assert Pow10(0) == 1;
      assert d.coefficient * 1 == d.coefficient;
    }
  }

  lemma PrintingPlainAgain(d: Dec)
    ensures Print(Plain(d)) == Print(d)
  {
    NoShift(Shift(d.coefficient, Positive(d.exponent)));
    hide FixedPoint, Shift;
  }

  /** A value once written as a text is written as the same text again, and denotes the same number. */
  lemma TextSurvivesReprojection(parse: Parser, raw: Raw)
    requires ReadsFixedPoint(parse) && DecText(parse, raw).Some?
    ensures var text := DecText(parse, raw).value;
            && DecText(parse, Native(text)) == Some(text)
            && parse(text).Some? && NumberOf(parse(text).value) == NumberOf(DecimalOf(parse, raw).value)
  {
    hide *;
    DecTextSays(parse, raw);
    var d := DecimalOf(parse, raw).value;
    PrintIsExact(d);
    PrintStaysBounded(d);
    PrintingPlainAgain(d);
    ReadsWritten(parse, Print(d), Plain(d));
    DecTextSays(parse, Native(Print(d)));
    NativeIsParsed(parse, Print(d));
  }

  lemma DecTextSays(parse: Parser, raw: Raw)
    ensures DecText(parse, raw).Some? <==> DecimalOf(parse, raw).Some? && Bounded(DecimalOf(parse, raw).value)
    ensures DecText(parse, raw).Some? ==> DecText(parse, raw).value == Print(DecimalOf(parse, raw).value)
  {
    hide Print, Bounded;
  }

  lemma NativeIsParsed(parse: Parser, text: string)
    ensures DecimalOf(parse, Native(text)) == parse(text)
  {
  }

  lemma ReadsWritten(parse: Parser, s: string, d: Dec)
    requires ReadsFixedPoint(parse) && Writes(s, d)
    ensures parse(s) == Some(d)
  {
    hide Accepts;
  }
}
