/** The NAV change of application/ibkr_period_return.py: exact decimal text in, exact decimal text out. */
module PeriodReturn {
  import opened DecimalText
  import opened Wrappers
  import opened Arith

  const MAX_TEXT := 64

  datatype Components = Components(
    startingValue: string, endingValue: string, depositsWithdrawals: string,
    internalCashTransfers: string, assetTransfers: string, linkingAdjustments: string)

  predicate IsNumber(s: string) { |s| <= MAX_TEXT && Accepts(s) }

  predicate AllNumbers(c: Components) {
    && IsNumber(c.startingValue) && IsNumber(c.endingValue) && IsNumber(c.depositsWithdrawals)
    && IsNumber(c.internalCashTransfers) && IsNumber(c.assetTransfers) && IsNumber(c.linkingAdjustments)
  }

  /** The ambiguous transfer components are all zero. */
  predicate Unambiguous(c: Components)
    requires AllNumbers(c)
  {
    Value(c.internalCashTransfers) == 0.0 && Value(c.assetTransfers) == 0.0 && Value(c.linkingAdjustments) == 0.0
  }

  function Change(c: Components): real
    requires AllNumbers(c)
  {
    Value(c.endingValue) - Value(c.startingValue) - Value(c.depositsWithdrawals)
  }

  /** The longest fraction among all six components. */
  function LongestFraction(c: Components): nat {
    MaxNat(MaxNat(MaxNat(Scale(c.startingValue), Scale(c.endingValue)),
                  MaxNat(Scale(c.depositsWithdrawals), Scale(c.internalCashTransfers))),
        MaxNat(Scale(c.assetTransfers), Scale(c.linkingAdjustments)))
  }

  /** The digits of the scaled amount, padded, with the point put back and the sign of the amount in front. */
  function Printed(amount: real, scale: nat): string {
    var scaled := amount * Pow10(scale) as real;
    Signed(amount < 0.0, FixedPoint(AbsInt(scaled.Floor), scale))
  }

  function NavChangeText(c: Components): Option<string> {
    if !AllNumbers(c) || !Unambiguous(c) then None
    else
      var text := Printed(Change(c), LongestFraction(c));
      if |text| > MAX_TEXT then None else Some(text)
  }

  /** The change as a multiple of the smallest printed unit. */
  ghost function Units(c: Components): int
    requires AllNumbers(c)
  {
    var scale := LongestFraction(c);
    Mantissa(c.endingValue) * Pow10(scale - Scale(c.endingValue))
    - Mantissa(c.startingValue) * Pow10(scale - Scale(c.startingValue))
    - Mantissa(c.depositsWithdrawals) * Pow10(scale - Scale(c.depositsWithdrawals))
  }

  /** Scaling by ten to the longest fraction length always gives an integer: nothing is rounded away. */
  lemma ScaledChangeIsInteger(c: Components)
    requires AllNumbers(c)
    ensures Change(c) * Pow10(LongestFraction(c)) as real == Units(c) as real
  {
    hide Accepts, Mantissa, Scale, Value, Pow10;
    var scale := LongestFraction(c);
    ScaledIsInteger(c.endingValue, scale);
    ScaledIsInteger(c.startingValue, scale);
    ScaledIsInteger(c.depositsWithdrawals, scale);
    Distributes(Value(c.endingValue), Value(c.startingValue), Value(c.depositsWithdrawals), Pow10(scale) as real);
  }

  lemma Distributes(x: real, y: real, z: real, p: real)
    ensures (x - y - z) * p == x * p - y * p - z * p
  {
  }

  lemma ScalingKeepsSign(x: real, p: real, n: int)
    requires p > 0.0 && x * p == n as real
    ensures x < 0.0 <==> n < 0
    ensures x == n as real / p
  {
    if x >= 0.0 { assert x * p >= 0.0; } else { assert x * p < 0.0; }
    assert (x * p) / p == x;
  }

  lemma PrintedUnits(amount: real, scale: nat, n: int)
    requires amount * Pow10(scale) as real == n as real
    ensures Printed(amount, scale) == Signed(n < 0, FixedPoint(AbsInt(n), scale))
    ensures amount < 0.0 <==> n < 0
    ensures amount == n as real / Pow10(scale) as real
  {
    hide Pow10, FixedPoint;
    ScalingKeepsSign(amount, Pow10(scale) as real, n);
  }

  lemma PrintedIsExact(amount: real, scale: nat, n: int)
    requires amount * Pow10(scale) as real == n as real
    ensures var t := Printed(amount, scale);
            Accepts(t) && Scale(t) == scale && Value(t) == amount && (Split(t).negative <==> amount < 0.0)
  {
    hide Accepts, Mantissa, Scale, Split, Pow10, FixedPoint, Printed;
    PrintedUnits(amount, scale, n);
    PrintedTextReadsBack(n < 0, AbsInt(n), scale);
  }

  function Texts(c: Components): seq<string> {
    [c.startingValue, c.endingValue, c.depositsWithdrawals, c.internalCashTransfers, c.assetTransfers,
     c.linkingAdjustments]
  }

  /** The longest fraction is one of the six, and no other is longer. */
  lemma LongestIsLongest(c: Components)
    ensures var texts := Texts(c);
            && (forall i :: 0 <= i < 6 ==> Scale(texts[i]) <= LongestFraction(c))
            && exists i :: 0 <= i < 6 && Scale(texts[i]) == LongestFraction(c)
  {
    hide Scale;
    var texts := Texts(c);
    assert texts[0] == c.startingValue && texts[1] == c.endingValue && texts[2] == c.depositsWithdrawals;
    assert texts[3] == c.internalCashTransfers && texts[4] == c.assetTransfers && texts[5] == c.linkingAdjustments;
  }

  /**
   The published text is accepted by the module's own grammar, keeps the longest
   fraction, is negative exactly when the change is, and reads back as exactly
   ending minus starting minus deposits and withdrawals.
   */
  lemma NavChangeIsExact(c: Components)
    requires NavChangeText(c).Some?
    ensures forall i :: 0 <= i < 6 ==> Accepts(Texts(c)[i])
    ensures var t, change := NavChangeText(c).value,
                             Value(c.endingValue) - Value(c.startingValue) - Value(c.depositsWithdrawals);
            && Accepts(t) && |t| <= 64 && Scale(t) == LongestFraction(c) && Value(t) == change
            && (Split(t).negative <==> change < 0.0)
  {
    hide Accepts, Mantissa, Scale, Split, Pow10, Printed, Value;
    ScaledChangeIsInteger(c);
    PrintedIsExact(Change(c), LongestFraction(c), Units(c));
  }

  /** Nothing is published exactly when a component is no number, a transfer is not zero, or the text is too long. */
  lemma NavChangeIsWithheldExactly(c: Components)
    ensures NavChangeText(c) == None <==>
              || !AllNumbers(c) || Value(c.internalCashTransfers) != 0.0
              || Value(c.assetTransfers) != 0.0 || Value(c.linkingAdjustments) != 0.0
              || |Signed(Units(c) < 0, FixedPoint(AbsInt(Units(c)), LongestFraction(c)))| > 64
  {
    hide Accepts, Mantissa, Scale, Pow10, FixedPoint, Value, Printed;
    if AllNumbers(c) && Unambiguous(c) {
      ScaledChangeIsInteger(c);
      PrintedUnits(Change(c), LongestFraction(c), Units(c));
    }
  }

  /** Every component must be a text of the grammar, of at most 64 characters. */
  lemma NumbersExactly(c: Components)
    ensures AllNumbers(c) <==> forall i :: 0 <= i < 6 ==> |Texts(c)[i]| <= 64 && Accepts(Texts(c)[i])
  {
    hide Accepts;
    var texts := Texts(c);
    assert texts[0] == c.startingValue && texts[1] == c.endingValue && texts[2] == c.depositsWithdrawals;
    assert texts[3] == c.internalCashTransfers && texts[4] == c.assetTransfers && texts[5] == c.linkingAdjustments;
  }
}
