/** Absolute values and bounds, products of reals, and rounding down to a multiple of a step. */
module Arith {

  function AbsInt(n: int): nat { if n < 0 then -n else n }

  function MaxNat(a: nat, b: nat): nat { if a < b then b else a }

  function AbsReal(x: real): real { if x < 0.0 then -x else x }

  function MinReal(x: real, y: real): real { if x < y then x else y }

  function MaxReal(x: real, y: real): real { if x < y then y else x }

  function Mul(a: real, b: real): real { a * b }

  lemma MulAdds(a: real, b: real, c: real, d: real)
    requires c == a + b
    ensures Mul(c, d) == Mul(a, d) + Mul(b, d)
  {
  }

  lemma MulSign(a: real, b: real)
    requires b > 0.0
    ensures a > 0.0 <==> Mul(a, b) > 0.0
    ensures a == 0.0 <==> Mul(a, b) == 0.0
    ensures Mul(1.0, b) == b
  {
  }

  lemma MulMonotone(a: real, b: real, d: real)
    requires d > 0.0
    ensures a <= b <==> Mul(a, d) <= Mul(b, d)
  {
    hide Mul;
    MulAdds(a, b - a, b, d);
    MulSign(b - a, d);
  }

  lemma MulQuotient(q: real, step: real)
    requires step != 0.0
    ensures Mul(q / step, step) == q
  {
  }

  function Times(k: int, step: real): real { Mul(k as real, step) }

  /** The greatest multiple of `step` not above `q`. */
  function FloorToStep(q: real, step: real): (r: real)
    requires step > 0.0
    ensures r <= q < r + step
    ensures exists k :: r == Times(k, step)
  {
    FloorBounds(q / step, step);
    MulQuotient(q, step);
    Times((q / step).Floor, step)
  }

  lemma FloorBounds(x: real, step: real)
    requires step > 0.0
    ensures Times(x.Floor, step) <= Mul(x, step) < Times(x.Floor, step) + step
  {
    hide Mul;
    var k := x.Floor as real;
    MulSign(k + 1.0 - x, step);
    MulSign(x - k, step);
    MulAdds(k, 1.0, k + 1.0, step);
    MulAdds(x, k + 1.0 - x, k + 1.0, step);
    MulAdds(k, x - k, x, step);
  }

  lemma QuotientIsMonotone(p: real, q: real, d: real)
    requires d > 0.0 && p <= q
    ensures p / d <= q / d
  {
    hide Mul;
    MulQuotient(p, d);
    MulQuotient(q, d);
    MulMonotone(p / d, q / d, d);
  }

  lemma FloorIsMonotone(p: real, q: real, step: real)
    requires step > 0.0 && p <= q
    ensures FloorToStep(p, step) <= FloorToStep(q, step)
  {
    QuotientIsMonotone(p, q, step);
    TimesIsMonotone((p / step).Floor, (q / step).Floor, step);
  }

  lemma TimesIsMonotone(i: int, j: int, step: real)
    requires step > 0.0 && i <= j
    ensures Times(i, step) <= Times(j, step)
  {
    hide Mul;
    MulMonotone(i as real, j as real, step);
  }

  /** A quantity rounded down from what `value` buys at `price` costs no more than `value`. */
  lemma FlooredCost(value: real, price: real, step: real)
    requires step > 0.0 && price > 0.0
    ensures Mul(FloorToStep(value / price, step), price) <= value
  {
    hide Mul;
    MulQuotient(value, price);
    MulMonotone(FloorToStep(value / price, step), value / price, price);
  }

  /** More money never buys less. */
  lemma FlooredCostIsMonotone(v: real, w: real, price: real, step: real)
    requires step > 0.0 && price > 0.0 && v <= w
    ensures FloorToStep(v / price, step) <= FloorToStep(w / price, step)
    ensures Mul(FloorToStep(v / price, step), price) <= Mul(FloorToStep(w / price, step), price)
  {
    hide Mul;
    QuotientIsMonotone(v, w, price);
    FloorIsMonotone(v / price, w / price, step);
    MulMonotone(FloorToStep(v / price, step), FloorToStep(w / price, step), price);
  }
}
