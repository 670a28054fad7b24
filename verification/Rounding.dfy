/** Rounding half to even, as `Decimal.quantize` does (roundTiesToEven, section 4.3.1 of IEEE 754-2008). */
module Rounding {

  function HalfEven(x: real): int
  {
    var f := x.Floor;
    var d := x - f as real;
    if d < 0.5 then f
    else if d > 0.5 then f + 1
    else if f % 2 == 0 then f
    else f + 1
  }

  ghost predicate Nearest(x: real, k: int)
  {
    var d := x - k as real;
    -0.5 < d < 0.5 || ((d == 0.5 || d == -0.5) && k % 2 == 0)
  }

  /** The rounded value is the one nearest integer, the even one on a tie. */
  lemma HalfEvenIsNearest(x: real, k: int)
    ensures k == HalfEven(x) <==> Nearest(x, k)
  {
    var f := x.Floor;
    assert f as real <= x < f as real + 1.0;
    if Nearest(x, k) {
      assert k == f || k == f + 1;
    }
  }

  /** Rounding respects order and sign. */
  lemma HalfEvenMonotone(x: real, y: real)
    requires x <= y
    ensures HalfEven(x) <= HalfEven(y)
  {
    HalfEvenIsNearest(x, HalfEven(x));
    HalfEvenIsNearest(y, HalfEven(y));
  }

  lemma HalfEvenOdd(x: real)
    ensures HalfEven(-x) == -HalfEven(x)
  {
    HalfEvenIsNearest(x, HalfEven(x));
    HalfEvenIsNearest(-x, -HalfEven(x));
  }

  /** `quantize(Decimal("0.01"))`, in hundredths. */
  function Cents(x: real): int
  {
    HalfEven(x * 100.0)
  }

  /** Rounding a difference and differencing roundings disagree by at most one hundredth. */
  lemma DifferenceWithinCent(a: real, b: real)
    ensures -1 <= Cents(a - b) - (Cents(a) - Cents(b)) <= 1
  {
    HalfEvenIsNearest(a * 100.0, Cents(a));
    HalfEvenIsNearest(b * 100.0, Cents(b));
    HalfEvenIsNearest((a - b) * 100.0, Cents(a - b));
  }

  /** The bound is attained. */
  lemma DifferenceMayBeOff()
    ensures Cents(0.010 - 0.005) == 0 && Cents(0.010) - Cents(0.005) == 1
  {
    HalfEvenIsNearest(0.5, 0);
    HalfEvenIsNearest(1.0, 1);
  }
}
