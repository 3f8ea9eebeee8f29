/**
 Canonical decimal texts of application/ibkr_flex_executions.py: trailing zeros are
 stripped textually, and the result identifies the number.
 */
module FlexNumbers {
  import opened DecimalText

  const MAX_TEXT := 64
  const MAX_WHOLE := 12
  const MAX_AMOUNT_FRACTION := 8
  const MAX_FEE_FRACTION := 18

  predicate AmountOk(s: string) { |s| <= MAX_TEXT && AcceptsWithin(s, MAX_WHOLE, MAX_AMOUNT_FRACTION) }

  predicate FeeOk(s: string) { |s| <= MAX_TEXT && AcceptsWithin(s, MAX_WHOLE, MAX_FEE_FRACTION) }

  /** Amounts have at most 12 digits before the point and 8 after it, fees at most 18 after it. */
  lemma NumbersExactly(s: string)
    ensures AmountOk(s) <==>
              |s| <= 64 && exists negative, whole, fraction ::
                             Written(s, negative, whole, fraction) && |whole| <= 12 && |fraction| <= 8
    ensures FeeOk(s) <==>
              |s| <= 64 && exists negative, whole, fraction ::
                             Written(s, negative, whole, fraction) && |whole| <= 12 && |fraction| <= 18
  {
    GrammarExactly(s, 12, 8);
    GrammarExactly(s, 12, 18);
    hide Written, AcceptsWithin;
  }

  function RStrip(s: string, c: char): string {
    if |s| > 0 && s[|s| - 1] == c then RStrip(s[..|s| - 1], c) else s
  }

  function Canonical(s: string): string
    requires Accepts(s)
  {
    if Value(s) == 0.0 then "0"
    else if '.' in s then RStrip(RStrip(s, '0'), '.')
    else s
  }

  // ---------- what the stripping does ----------

  lemma {:induction false} RStripSplits(s: string, c: char) returns (k: nat)
    ensures k <= |s| && RStrip(s, c) == s[..|s| - k]
    ensures forall i :: |s| - k <= i < |s| ==> s[i] == c
    ensures |RStrip(s, c)| > 0 ==> RStrip(s, c)[|RStrip(s, c)| - 1] != c
  {
    if |s| > 0 && s[|s| - 1] == c {
      var j := RStripSplits(s[..|s| - 1], c);
      assert s[..|s| - 1][..|s| - 1 - j] == s[..|s| - (j + 1)];
      k := j + 1;
    } else {
      assert s[..|s|] == s;
      k := 0;
    }
  }

  lemma {:induction false} RStripJoined(a: string, b: string, c: char)
    ensures RStrip(a + b, c) == if RStrip(b, c) == "" then RStrip(a, c) else a + RStrip(b, c)
  {
    if b == "" {
      assert a + b == a;
    } else if b[|b| - 1] == c {
      assert (a + b)[..|a + b| - 1] == a + b[..|b| - 1];
      RStripJoined(a, b[..|b| - 1], c);
    }
  }

  /** The parts of a text without the trailing zeros of its fraction. */
  function Trim(p: Parts): Parts {
    var fraction := RStrip(p.fraction, '0');
    p.(dot := |fraction| > 0, fraction := fraction)
  }

  lemma DotInside(s: string)
    requires Accepts(s)
    ensures '.' in s <==> Split(s).dot
  {
    var p := Split(s);
    JoinOfSplit(s);
    if p.dot {
      assert s[|Sign(p) + p.whole|] == '.';
    } else {
      assert s == Sign(p) + p.whole;
    }
  }

  /** Stripping zeros and then a dot from a text with a point leaves its trimmed parts. */
  lemma StripsToTrimmed(front: string, fraction: string)
    requires |front| > 0 && IsDigit(front[|front| - 1])
    ensures RStrip(RStrip(front + "." + fraction, '0'), '.')
         == front + (if RStrip(fraction, '0') == "" then "" else "." + RStrip(fraction, '0'))
    requires AllDigits(fraction)
  {
    var f := RStrip(fraction, '0');
    Regroup(front, ".", fraction);
    RStripJoined(".", fraction, '0');
    RStripJoined(front, "." + fraction, '0');
    if |f| == 0 {
      StripsLast(front, '.');
    } else {
      LastOfStripped(fraction, '0');
      hide AllDigits, RStrip;
      assert (front + ("." + f))[|front + ("." + f)| - 1] == f[|f| - 1];
      NothingToStrip(front + ("." + f), '.');
    }
  }

  lemma NothingToStrip(s: string, c: char)
    requires |s| > 0 && s[|s| - 1] != c
    ensures RStrip(s, c) == s
  {
  }

  lemma StripsLast(front: string, c: char)
    requires |front| > 0 && front[|front| - 1] != c
    ensures RStrip(front + [c], c) == front
  {
    assert (front + [c])[..|front|] == front;
    NothingToStrip(front, c);
  }

  lemma LastOfStripped(s: string, c: char)
    requires AllDigits(s) && |RStrip(s, c)| > 0
    ensures RStrip(s, c)[|RStrip(s, c)| - 1] != '.'
  {
    var k := RStripSplits(s, c);
  }

  /** An accepted text, cut at its point. */
  lemma TextAtPoint(s: string) returns (front: string)
    requires Accepts(s)
    ensures var p := Split(s);
            && front == Sign(p) + p.whole
            && s == (if p.dot then front + "." + p.fraction else front)
            && |front| > 0 && IsDigit(front[|front| - 1]) && AllDigits(p.fraction)
            && (p.dot <==> |p.fraction| > 0)
  {
    var p := Split(s);
    JoinOfSplit(s);
    hide Split;
    LastDigitOfWhole(p.whole);
    hide AllDigits;
    front := Sign(p) + p.whole;
    assert front[|front| - 1] == p.whole[|p.whole| - 1];
    Regroup(front, ".", p.fraction);
    Regroup(Sign(p), p.whole, Tail(p));
  }

  lemma LastDigitOfWhole(w: string)
    requires WholeOk(w)
    ensures |w| >= 1 && IsDigit(w[|w| - 1])
  {
  }

  lemma CanonicalIsTrimmed(s: string)
    requires Accepts(s) && Value(s) != 0.0
    ensures Canonical(s) == Join(Trim(Split(s)))
  {
    DotInside(s);
    var front := TextAtPoint(s);
    hide Accepts, Split, Value, RStrip, AllDigits;
    var p := Split(s);
    Regroup(Sign(p), p.whole, Tail(Trim(p)));
    if p.dot {
      StripsToTrimmed(front, p.fraction);
    } else {
      var k := RStripSplits("", '0');
    }
  }

  /** Trimming keeps the grammar and the number. */
  lemma TrimKeepsNumber(s: string)
    requires Accepts(s)
    ensures var t := Join(Trim(Split(s)));
            && Accepts(t) && Value(t) == Value(s) && Split(t) == Trim(Split(s))
  {
    hide Split, RStrip, Digits, Pow10, AllDigits;
    var p, q := Split(s), Trim(Split(s));
    var k := RStripSplits(p.fraction, '0');
    AllDigitsCut(p.fraction, |q.fraction|);
    SplitOfJoin(q);
    ZeroTail(p.fraction, k);
    AllDigitsJoin(p.whole, q.fraction);
    TrimmedDigits(p.whole, q.fraction, k);
    SameQuotient(Mantissa(Join(q)), Pow10(|q.fraction|), Pow10(k), Mantissa(s), Pow10(|p.fraction|));
  }

  lemma TrimmedDigits(whole: string, kept: string, k: nat)
    requires AllDigits(whole + kept)
    ensures AllDigits(whole + (kept + Zeros(k)))
    ensures Digits(whole + (kept + Zeros(k))) == Digits(whole + kept) * Pow10(k)
    ensures Pow10(|kept + Zeros(k)|) == Pow10(|kept|) * Pow10(k)
  {
    hide AllDigits, Digits, Pow10;
    Regroup(whole, kept, Zeros(k));
    DigitsThenZeros(whole + kept, k);
    Pow10Adds(|kept|, k);
  }

  lemma AllDigitsJoin(a: string, b: string)
    requires AllDigits(a) && AllDigits(b)
    ensures AllDigits(a + b)
  {
  }

  lemma DigitsThenZeros(s: string, k: nat)
    requires AllDigits(s)
    ensures AllDigits(s + Zeros(k)) && Digits(s + Zeros(k)) == Digits(s) * Pow10(k)
  {
    DigitsJoin(s, Zeros(k));
    DigitsOfZeros(k);
  }

  lemma SameQuotient(m: int, d: nat, e: nat, n: int, f: nat)
    requires d >= 1 && e >= 1 && n == m * e && f == d * e
    ensures f >= 1 && m as real / d as real == n as real / f as real
  {
    var x, y, z := m as real, d as real, e as real;
    assert n as real == x * z && f as real == y * z;
    assert (x * z) / (y * z) == x / y;
  }

  lemma ZeroTail(s: string, k: nat)
    requires k <= |s| && forall i :: |s| - k <= i < |s| ==> s[i] == '0'
    ensures s == s[..|s| - k] + Zeros(k)
  {
  }

  // ---------- uniqueness ----------

  lemma {:induction false} DigitsBound(s: string)
    requires AllDigits(s)
    ensures Digits(s) < Pow10(|s|)
    ensures |s| > 0 && s[0] != '0' ==> Digits(s) >= Pow10(|s| - 1)
  {
    if |s| > 0 {
      DigitsBound(s[..|s| - 1]);
      if |s| == 1 { assert s[..0] == ""; }
    }
  }

  lemma {:induction false} DigitsAreInjective(a: string, b: string)
    requires AllDigits(a) && AllDigits(b) && |a| == |b| && Digits(a) == Digits(b)
    ensures a == b
  {
    if |a| > 0 {
      DigitsAreInjective(a[..|a| - 1], b[..|b| - 1]);
      assert a == a[..|a| - 1] + [a[|a| - 1]] && b == b[..|b| - 1] + [b[|b| - 1]];
    }
  }

  lemma {:induction false} Pow10IsMonotone(a: nat, b: nat)
    requires a <= b
    ensures Pow10(a) <= Pow10(b)
  {
    if a < b { Pow10IsMonotone(a, b - 1); }
  }

  lemma NotShorter(a: string, b: string)
    requires AllDigits(a) && AllDigits(b) && Digits(a) == Digits(b)
    requires |b| >= 1 && b[0] != '0'
    ensures |b| <= |a|
  {
    hide *;
    DigitsBound(a);
    DigitsBound(b);
    if |a| < |b| { Pow10IsMonotone(|a|, |b| - 1); }
  }

  lemma WholeNotShorter(w1: string, f1: string, w2: string, f2: string)
    requires |w1| >= 1 && |f1| == |f2| && (|w2| <= 1 || w2[0] != '0')
    requires AllDigits(w1 + f1) && AllDigits(w2 + f2) && Digits(w1 + f1) == Digits(w2 + f2)
    ensures |w2| <= |w1|
  {
    hide *;
    if |w2| > 1 {
      assert (w2 + f2)[0] == w2[0];
      NotShorter(w1 + f1, w2 + f2);
    }
  }

  /** Equal numbers with equally long fractions have equally long, hence equal, digits. */
  lemma SameDigits(w1: string, f1: string, w2: string, f2: string)
    requires WholeOk(w1) && WholeOk(w2) && |f1| == |f2|
    requires AllDigits(w1 + f1) && AllDigits(w2 + f2) && Digits(w1 + f1) == Digits(w2 + f2)
    ensures w1 == w2 && f1 == f2
  {
    hide AllDigits, Digits;
    WholeNotShorter(w1, f1, w2, f2);
    WholeNotShorter(w2, f2, w1, f1);
    DigitsAreInjective(w1 + f1, w2 + f2);
    assert w1 == (w1 + f1)[..|w1|] && w2 == (w2 + f2)[..|w2|];
    assert f1 == (w1 + f1)[|w1|..] && f2 == (w2 + f2)[|w2|..];
  }

  /** No trailing zero in the fraction, and one text for zero. */
  predicate Normal(s: string) {
    && Accepts(s)
    && (|Split(s).fraction| > 0 ==> Split(s).fraction[|Split(s).fraction| - 1] != '0')
    && (Value(s) == 0.0 ==> s == "0")
  }

  lemma CanonicalIsNormal(s: string)
    requires Accepts(s)
    ensures Normal(Canonical(s)) && Value(Canonical(s)) == Value(s)
  {
    if Value(s) == 0.0 {
      ZeroText();
    } else {
      hide Accepts, Split, Value, RStrip, Canonical;
      CanonicalIsTrimmed(s);
      TrimKeepsNumber(s);
      var k := RStripSplits(Split(s).fraction, '0');
    }
  }

  lemma ZeroText()
    ensures Normal("0") && Value("0") == 0.0
  {
    SplitOfJoin(Parts(false, "0", false, ""));
    assert Join(Parts(false, "0", false, "")) == "0";
    assert "0" + "" == "0" && "0"[..0] == "";
  }

  lemma CrossMultiply(m: int, d: nat, n: int, e: nat)
    requires d >= 1 && e >= 1 && m as real / d as real == n as real / e as real
    ensures m * e == n * d
  {
    var q := m as real / d as real;
    assert q * d as real == m as real && q * e as real == n as real;
    assert (m * e) as real == m as real * e as real == q * d as real * e as real;
    assert (n * d) as real == n as real * d as real == q * e as real * d as real;
  }

  /** A longer fraction with the same number would end in zero. */
  lemma LongerFractionEndsInZero(a: string, b: string)
    requires Accepts(a) && Accepts(b) && Value(a) == Value(b) && Scale(a) < Scale(b)
    ensures |Split(b).fraction| > 0 && Split(b).fraction[|Split(b).fraction| - 1] == '0'
  {
    hide *;
    ValueIsQuotient(a);
    ValueIsQuotient(b);
    CrossMultiply(Mantissa(a), Pow10(Scale(a)), Mantissa(b), Pow10(Scale(b)));
    EndsInZero(Mantissa(a), Mantissa(b), Scale(a), Scale(b));
    MantissaEndsAsFraction(b);
  }

  lemma ValueIsQuotient(s: string)
    requires Accepts(s)
    ensures Value(s) == Mantissa(s) as real / Pow10(Scale(s)) as real
  {
    hide Accepts, Mantissa, Scale, Pow10;
  }

  /** A mantissa divisible by ten comes from a fraction whose last digit is zero. */
  lemma MantissaEndsAsFraction(s: string)
    requires Accepts(s) && Scale(s) > 0
    requires Mantissa(s) % 10 == 0 && (-Mantissa(s)) % 10 == 0
    ensures |Split(s).fraction| > 0 && Split(s).fraction[|Split(s).fraction| - 1] == '0'
  {
    hide Split, Digits;
    var p := Split(s);
    LastDigit(p.whole, p.fraction);
  }

  lemma EndsInZero(m: int, n: int, f: nat, g: nat)
    requires f < g && m * Pow10(g) == n * Pow10(f)
    ensures n % 10 == 0 && (-n) % 10 == 0
  {
    hide Pow10;
    IsTenfold(m, n, f, g - f - 1);
    TenfoldEnds(n, m * Pow10(g - f - 1));
  }

  lemma TenfoldEnds(n: int, r: int)
    requires n == 10 * r
    ensures n % 10 == 0 && (-n) % 10 == 0
  {
    NoRemainder(n, r, n / 10, n % 10);
    NoRemainder(-n, -r, -n / 10, -n % 10);
  }

  lemma NoRemainder(n: int, r: int, q: int, t: int)
    requires n == 10 * r == 10 * q + t && 0 <= t < 10
    ensures t == 0
  {
  }

  lemma IsTenfold(m: int, n: int, f: nat, h: nat)
    requires m * Pow10(f + (h + 1)) == n * Pow10(f)
    ensures n == 10 * (m * Pow10(h))
  {
    Pow10Step(h);
    hide Pow10;
    Pow10Adds(f, h + 1);
    Cancel(m, Pow10(h + 1), n, Pow10(f));
    TenOut(m, Pow10(h));
  }

  lemma Pow10Step(h: nat)
    ensures Pow10(h + 1) == 10 * Pow10(h)
  {
  }

  lemma TenOut(m: int, p: nat)
    ensures m * (10 * p) == 10 * (m * p)
  {
  }

  lemma Cancel(m: int, e: nat, n: int, d: nat)
    requires d >= 1 && m * (d * e) == n * d
    ensures m * e == n
  {
    assert (m * e - n) * d == 0;
  }

  lemma LastDigit(whole: string, fraction: string)
    requires AllDigits(whole + fraction) && |fraction| > 0 && IsDigit(fraction[|fraction| - 1])
    ensures Digits(whole + fraction) % 10 == DigitValue(fraction[|fraction| - 1])
  {
    hide AllDigits;
    var all := whole + fraction;
    assert all[|all| - 1] == fraction[|fraction| - 1];
    DigitsModTen(all);
  }

  lemma DigitsModTen(s: string)
    requires AllDigits(s) && |s| > 0
    ensures Digits(s) % 10 == DigitValue(s[|s| - 1])
  {
  }

  lemma NormalTextsAreUnique(a: string, b: string)
    requires Normal(a) && Normal(b) && Value(a) == Value(b)
    ensures a == b
  {
    hide Accepts, Split, Mantissa, Pow10, Value;
    if Scale(a) < Scale(b) { LongerFractionEndsInZero(a, b); }
    if Scale(b) < Scale(a) { LongerFractionEndsInZero(b, a); }
    if Value(a) != 0.0 {
      CrossMultiplied(a, b);
      SameMantissaSameText(a, b);
    }
  }

  lemma CrossMultiplied(a: string, b: string)
    requires Accepts(a) && Accepts(b) && Value(a) == Value(b) && Scale(a) == Scale(b)
    ensures Mantissa(a) == Mantissa(b) && (Value(a) != 0.0 ==> Mantissa(a) != 0)
  {
    hide Accepts, Mantissa, Pow10, Scale;
    CrossMultiply(Mantissa(a), Pow10(Scale(a)), Mantissa(b), Pow10(Scale(b)));
    Cancel(Mantissa(a), 1, Mantissa(b), Pow10(Scale(a)));
  }

  lemma SameMantissaSameText(a: string, b: string)
    requires Accepts(a) && Accepts(b) && Scale(a) == Scale(b) && Mantissa(a) == Mantissa(b) != 0
    ensures a == b
  {
    hide Split, Digits;
    var p, q := Split(a), Split(b);
    SameDigits(p.whole, p.fraction, q.whole, q.fraction);
    JoinOfSplit(a);
    JoinOfSplit(b);
  }

  /** Canonical texts are equal exactly when the numbers are. */
  lemma CanonicalIdentifiesNumbers(a: string, b: string)
    requires (AmountOk(a) || FeeOk(a)) && (AmountOk(b) || FeeOk(b))
    ensures Canonical(a) == Canonical(b) <==> Value(a) == Value(b)
  {
    hide Canonical, Value, Normal, Accepts;
    CanonicalIsNormal(a);
    CanonicalIsNormal(b);
    if Value(a) == Value(b) { NormalTextsAreUnique(Canonical(a), Canonical(b)); }
  }

  /** Canonicalising again changes nothing. */
  lemma CanonicalIsIdempotent(s: string)
    requires AmountOk(s) || FeeOk(s)
    ensures Accepts(Canonical(s)) && Canonical(Canonical(s)) == Canonical(s)
  {
    hide Canonical, Value, Normal;
    CanonicalIsNormal(s);
    assert Accepts(Canonical(s)) by { NormalIsAccepted(Canonical(s)); }
    CanonicalIsNormal(Canonical(s));
    NormalTextsAreUnique(Canonical(Canonical(s)), Canonical(s));
  }

  lemma NormalIsAccepted(s: string)
    requires Normal(s)
    ensures Accepts(s)
  {
  }
}
