/**
 Fixed-point decimal texts: the grammar -?(0|[1-9][0-9]*)(.[0-9]+)?, the number a text
 stands for, and the text of a scaled integer.
 */
module DecimalText {

  predicate IsDigit(c: char) { '0' <= c <= '9' }

  predicate AllDigits(s: string) { forall i :: 0 <= i < |s| ==> IsDigit(s[i]) }

  function DigitValue(c: char): nat
    requires IsDigit(c)
  {
    c as int - '0' as int
  }

  function DigitChar(d: nat): (c: char)
    requires d < 10
    ensures IsDigit(c) && DigitValue(c) == d
  {
    "0123456789"[d]
  }

  function Pow10(n: nat): (p: nat)
    ensures p >= 1
  {
    if n == 0 then 1 else 10 * Pow10(n - 1)
  }

  /** The number a digit string writes. */
  function Digits(s: string): nat
    requires AllDigits(s)
  {
    if s == "" then 0 else 10 * Digits(s[..|s| - 1]) + DigitValue(s[|s| - 1])
  }

  /** The shortest decimal digits of n. */
  function Str(n: nat): (s: string)
    ensures AllDigits(s) && |s| >= 1
  {
    if n < 10 then [DigitChar(n)] else Str(n / 10) + [DigitChar(n % 10)]
  }

  function Zeros(n: nat): (s: string)
    ensures |s| == n && AllDigits(s) && forall i :: 0 <= i < n ==> s[i] == '0'
  {
    seq(n, _ => '0')
  }

  /** Pad on the left with zeros up to the given width. */
  function ZFill(s: string, width: nat): string {
    if |s| >= width then s else Zeros(width - |s|) + s
  }

  // ---------- the grammar ----------

  datatype Parts = Parts(negative: bool, whole: string, dot: bool, fraction: string)

  /** The position of the first dot, or the length. */
  function DotAt(s: string): (i: nat)
    ensures i <= |s| && '.' !in s[..i] && (i < |s| ==> s[i] == '.')
  {
    if s == "" || s[0] == '.' then 0
    else
      var i := DotAt(s[1..]);
      assert s[..i + 1] == [s[0]] + s[1..][..i];
      i + 1
  }

  function Unsigned(s: string): string { if |s| > 0 && s[0] == '-' then s[1..] else s }

  function Split(s: string): Parts {
    var u := Unsigned(s);
    var i := DotAt(u);
    Parts(|s| > 0 && s[0] == '-', u[..i], i < |u|, if i < |u| then u[i + 1..] else "")
  }

  predicate WholeOk(s: string) { |s| > 0 && AllDigits(s) && (|s| == 1 || s[0] != '0') }

  predicate Accepts(s: string) {
    var p := Split(s);
    WholeOk(p.whole) && AllDigits(p.fraction) && (p.dot <==> |p.fraction| > 0)
  }

  /** The same grammar with bounded lengths. */
  predicate AcceptsWithin(s: string, maxWhole: nat, maxFraction: nat) {
    Accepts(s) && |Split(s).whole| <= maxWhole && |Split(s).fraction| <= maxFraction
  }

  function Sign(p: Parts): string { if p.negative then "-" else "" }

  function Tail(p: Parts): string { if p.dot then "." + p.fraction else "" }

  function Join(p: Parts): string { Sign(p) + (p.whole + Tail(p)) }

  function Scale(s: string): nat { |Split(s).fraction| }

  /** All digits of an accepted text, as one signed integer. */
  function Mantissa(s: string): int
    requires Accepts(s)
  {
    var p := Split(s);
    if p.negative then -(Digits(p.whole + p.fraction) as int) else Digits(p.whole + p.fraction)
  }

  /** The exact number an accepted text stands for. */
  function Value(s: string): real
    requires Accepts(s)
  {
    Mantissa(s) as real / Pow10(Scale(s)) as real
  }

  // ---------- splitting and joining ----------

  lemma {:induction false} DotAtJoined(w: string, rest: string)
    requires '.' !in w && (rest == "" || rest[0] == '.')
    ensures DotAt(w + rest) == |w|
  {
    if w == "" {
      assert w + rest == rest;
    } else {
      assert (w + rest)[1..] == w[1..] + rest;
      DotAtJoined(w[1..], rest);
    }
  }

  lemma SplitOfJoin(p: Parts)
    requires AllDigits(p.whole) && |p.whole| > 0 && AllDigits(p.fraction) && (p.dot <==> |p.fraction| > 0)
    ensures Split(Join(p)) == p
  {
    var body := p.whole + Tail(p);
    assert p.whole[0] != '-';
    UnsignedOfSigned(p.negative, body);
    DotAtJoined(p.whole, Tail(p));
    hide AllDigits;
    assert body[..|p.whole|] == p.whole;
    if p.dot { assert body[|p.whole| + 1..] == p.fraction; }
  }

  lemma UnsignedOfSigned(negative: bool, body: string)
    requires |body| > 0 && body[0] != '-'
    ensures var s := (if negative then "-" else "") + body;
            Unsigned(s) == body && ((s != "" && s[0] == '-') <==> negative)
  {
    if !negative { assert "" + body == body; }
  }

  lemma CutAtDot(u: string, i: nat)
    requires i <= |u|
    ensures i == |u| ==> u == u[..i]
    ensures i < |u| && u[i] == '.' ==> u == u[..i] + ("." + u[i + 1..])
  {
  }

  lemma JoinOfSplit(s: string)
    ensures Join(Split(s)) == s
  {
    hide DotAt;
    CutAtDot(Unsigned(s), DotAt(Unsigned(s)));
    assert s == Sign(Split(s)) + Unsigned(s);
  }

  /** The text is a sign or none, a whole part without a leading zero, and a dot with digits or neither. */
  ghost predicate Written(s: string, negative: bool, whole: string, fraction: string) {
    && s == (if negative then "-" else "") + (whole + (if fraction == "" then "" else "." + fraction))
    && (whole == "0" || (whole != "" && '1' <= whole[0] <= '9'))
    && (forall i :: 0 <= i < |whole| ==> '0' <= whole[i] <= '9')
    && (forall i :: 0 <= i < |fraction| ==> '0' <= fraction[i] <= '9')
  }

  /** Exactly the texts of the grammar are accepted, within exactly these lengths. */
  lemma GrammarExactly(s: string, maxWhole: nat, maxFraction: nat)
    ensures AcceptsWithin(s, maxWhole, maxFraction) <==>
              exists negative, whole, fraction ::
                Written(s, negative, whole, fraction) && |whole| <= maxWhole && |fraction| <= maxFraction
  {
    if AcceptsWithin(s, maxWhole, maxFraction) {
      WrittenAsSplit(s);
    }
    if negative, whole, fraction :|
      Written(s, negative, whole, fraction) && |whole| <= maxWhole && |fraction| <= maxFraction
    {
      WrittenIsAccepted(s, negative, whole, fraction);
    }
  }

  lemma WrittenAsSplit(s: string)
    requires Accepts(s)
    ensures var p := Split(s); Written(s, p.negative, p.whole, p.fraction)
  {
    JoinOfSplit(s);
    hide Split;
  }

  lemma WrittenIsAccepted(s: string, negative: bool, whole: string, fraction: string)
    requires Written(s, negative, whole, fraction)
    ensures Accepts(s) && Split(s) == Parts(negative, whole, fraction != "", fraction)
  {
    SplitOfJoin(Parts(negative, whole, fraction != "", fraction));
    hide Split;
  }

  // ---------- digits ----------

  lemma TenTimes(x: nat, p: nat)
    ensures 10 * (x * p) == x * (10 * p) == (10 * p) * x
  {
  }

  lemma {:induction false} DigitsJoin(a: string, b: string)
    requires AllDigits(a) && AllDigits(b)
    ensures AllDigits(a + b) && Digits(a + b) == Digits(a) * Pow10(|b|) + Digits(b)
  {
    if b == "" {
      assert a + b == a;
    } else {
      var front := b[..|b| - 1];
      assert (a + b)[..|a + b| - 1] == a + front;
      DigitsJoin(a, front);
      assert Digits(a + b) == 10 * Digits(a + front) + DigitValue(b[|b| - 1]);
      TenTimes(Digits(a), Pow10(|front|));
    }
  }

  lemma {:induction false} DigitsOfZeros(n: nat)
    ensures Digits(Zeros(n)) == 0
  {
    if n > 0 {
      assert Zeros(n)[..n - 1] == Zeros(n - 1);
      DigitsOfZeros(n - 1);
    }
  }

  lemma {:induction false} DigitsOfStr(n: nat)
    ensures Digits(Str(n)) == n
    ensures n > 0 ==> Str(n)[0] != '0'
    ensures n < 10 ==> |Str(n)| == 1
  {
    if n < 10 {
      assert Str(n)[..0] == "";
    } else {
      DigitsOfStr(n / 10);
      assert Str(n)[..|Str(n)| - 1] == Str(n / 10);
    }
  }

  lemma DigitsOfPadded(n: nat, width: nat)
    ensures AllDigits(ZFill(Str(n), width)) && Digits(ZFill(Str(n), width)) == n
  {
    DigitsOfStr(n);
    if |Str(n)| < width {
      DigitsJoin(Zeros(width - |Str(n)|), Str(n));
      DigitsOfZeros(width - |Str(n)|);
      assert 0 * Pow10(|Str(n)|) == 0;
    }
  }

  // ---------- printing ----------

  /** The digits of n with `scale` of them behind the point, as both printers of this repository build it. */
  function FixedPoint(n: nat, scale: nat): string {
    var digits := ZFill(Str(n), scale + 1);
    if scale == 0 then digits else digits[..|digits| - scale] + "." + digits[|digits| - scale..]
  }

  function Signed(negative: bool, s: string): string { if negative then "-" + s else s }

  /** Printing a scaled integer gives an accepted text without superfluous zeros in front, and reads back exactly. */
  lemma PrintedTextReadsBack(negative: bool, n: nat, scale: nat)
    ensures var s := Signed(negative, FixedPoint(n, scale));
            && Accepts(s) && Scale(s) == scale && Split(s).negative == negative
            && Mantissa(s) == (if negative then -(n as int) else n)
  {
    var p := PrintedParts(negative, n, scale);
    SplitOfJoin(p);
    DigitsOfPadded(n, scale + 1);
    assert p.whole + p.fraction == ZFill(Str(n), scale + 1);
  }

  lemma PrintedParts(negative: bool, n: nat, scale: nat) returns (p: Parts)
    ensures Signed(negative, FixedPoint(n, scale)) == Join(p)
    ensures WholeOk(p.whole) && AllDigits(p.fraction) && |p.fraction| == scale
    ensures p.negative == negative && (p.dot <==> scale > 0)
    ensures p.whole + p.fraction == ZFill(Str(n), scale + 1)
  {
    var digits := ZFill(Str(n), scale + 1);
    DigitsOfPadded(n, scale + 1);
    PaddedWholeOk(n, scale);
    p := CutParts(negative, digits, scale);
  }

  lemma CutParts(negative: bool, digits: string, scale: nat) returns (p: Parts)
    requires |digits| > scale && AllDigits(digits)
    ensures p == Parts(negative, digits[..|digits| - scale], scale > 0, digits[|digits| - scale..])
    ensures p.whole + p.fraction == digits && AllDigits(p.fraction)
    ensures Join(p) == Signed(negative, if scale == 0 then digits else p.whole + "." + p.fraction)
  {
    p := Parts(negative, digits[..|digits| - scale], scale > 0, digits[|digits| - scale..]);
    AllDigitsCut(digits, |digits| - scale);
    hide AllDigits, Join, Signed;
    if scale == 0 {
      NothingAfter(digits);
      SignInFront(p, digits);
    } else {
      Regroup(p.whole, ".", p.fraction);
      SignInFront(p, p.whole + "." + p.fraction);
    }
  }

  lemma AllDigitsCut(s: string, n: nat)
    requires AllDigits(s) && n <= |s|
    ensures AllDigits(s[..n]) && AllDigits(s[n..])
  {
  }

  lemma Regroup(a: string, b: string, c: string)
    ensures a + (b + c) == (a + b) + c
  {
  }

  lemma NothingAfter(digits: string)
    ensures digits[..|digits|] + "" == digits && digits[..|digits|] + digits[|digits|..] == digits
  {
  }

  lemma SignInFront(p: Parts, body: string)
    requires p.whole + Tail(p) == body
    ensures Join(p) == Signed(p.negative, body)
  {
    assert "" + body == body;
  }

  lemma PaddedWholeOk(n: nat, scale: nat)
    ensures var digits := ZFill(Str(n), scale + 1); WholeOk(digits[..|digits| - scale])
  {
    DigitsOfStr(n);
    var digits := ZFill(Str(n), scale + 1);
    if |Str(n)| >= scale + 1 {
      if n == 0 { assert digits == "0"; }
    } else {
      assert digits[..|digits| - scale] == "0";
    }
  }

  // ---------- numbers ----------

  lemma {:induction false} Pow10Adds(a: nat, b: nat)
    ensures Pow10(a + b) == Pow10(a) * Pow10(b)
  {
    if a > 0 {
      Pow10Adds(a - 1, b);
      TenTimes(Pow10(b), Pow10(a - 1));
    }
  }

  /** A text with no more than `scale` fraction digits stands for an integer after scaling. */
  lemma ScaledIsInteger(s: string, scale: nat)
    requires Accepts(s) && Scale(s) <= scale
    ensures Value(s) * Pow10(scale) as real == (Mantissa(s) * Pow10(scale - Scale(s))) as real
  {
    hide Accepts, Mantissa, Scale, Pow10;
    Pow10Adds(Scale(s), scale - Scale(s));
    ScaleReal(Mantissa(s), Pow10(Scale(s)), Pow10(scale - Scale(s)));
  }

  lemma ScaleReal(m: int, d: nat, e: nat)
    requires d >= 1
    ensures (m as real / d as real) * (d * e) as real == (m * e) as real
  {
    var x, y, z := m as real, d as real, e as real;
    assert (d * e) as real == y * z;
    assert (m * e) as real == x * z;
    assert (x / y) * (y * z) == ((x / y) * y) * z;
  }
}
