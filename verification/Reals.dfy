/** Rates, and facts of field arithmetic that the calculators share, one at a time. */
module Reals {

  /** What `_rate` accepts by default. */
  /** The bounds a rate is refused for. */
  predicate OutOfRange(r: real)
  {
    r < 0.0 || r > 1.0
  }

  predicate IsRate(r: real)
  {
    0.0 <= r <= 1.0
  }

  lemma ProductNonNegative(x: real, y: real)
    requires x >= 0.0 && y >= 0.0
    ensures x * y >= 0.0
  {
  }

  lemma ProductPositive(x: real, y: real)
    requires x > 0.0 && y > 0.0
    ensures x * y > 0.0
  {
  }

  lemma ProductZero(x: real, y: real)
    ensures x * y == 0.0 <==> x == 0.0 || y == 0.0
  {
    if x != 0.0 && y != 0.0 {
      var p, q := if x > 0.0 then x else -x, if y > 0.0 then y else -y;
      ProductPositive(p, q);
      assert p * q == x * y || p * q == -(x * y);
    }
  }

  lemma Associate(x: real, y: real, z: real)
    ensures x * (y * z) == (x * y) * z
  {
  }

  lemma Rearrange(x: real, y: real, z: real)
    ensures (x * y) * z == (x * z) * y
  {
  }

  lemma Distribute(x: real, y: real, z: real)
    ensures x * y + x * z == x * (y + z)
  {
  }

  lemma CancelFactor(x: real, y: real, z: real)
    requires z != 0.0 && x * z == y * z
    ensures x == y
  {
    assert (x - y) * z == 0.0;
  }

  lemma CancelOrder(x: real, y: real, z: real)
    requires z > 0.0 && x * z <= y * z
    ensures x <= y
  {
    if x > y {
      ProductPositive(x - y, z);
    }
  }

  lemma OrderFromProducts(r: real, s: real, p: real, q: real)
    requires s >= 0.0 && 0.0 < p <= q && s * q <= r * p
    ensures s <= r
  {
    ProductNonNegative(s, q - p);
    assert s * q == s * p + s * (q - p);
    CancelOrder(s, r, p);
  }

  lemma StrictOrderFromProducts(r: real, s: real, x: real, y: real)
    requires r > 0.0 && s > 0.0 && 0.0 < x < y && r * x == 1.0 && s * y == 1.0
    ensures s < r
  {
    ProductPositive(r, s);
    ProductPositive(r * s, y - x);
    assert r * s * y == r * (s * y);
    assert r * s * x == s * (r * x);
    Distribute(r * s, y, -x);
  }

  lemma QuotientTimes(x: real, y: real)
    requires y != 0.0
    ensures (x / y) * y == x
  {
  }

  lemma ScaledQuotient(x: real, y: real, s: real)
    requires s != 0.0
    ensures (x * y) / s == (x / s) * y
  {
    QuotientTimes(x, s);
    QuotientTimes(x * y, s);
    Rearrange(x / s, y, s);
    CancelFactor((x * y) / s, (x / s) * y, s);
  }

  lemma TimesReciprocal(x: real, p: real)
    requires p != 0.0
    ensures x * (1.0 / p) == x / p
  {
    ScaledQuotient(1.0, x, p);
  }

  lemma QuotientNonNegative(x: real, p: real)
    requires x >= 0.0 && p > 0.0
    ensures x / p >= 0.0
  {
  }

  /** Smaller numerator over a larger positive denominator. */
  lemma QuotientFalls(x: real, y: real, p: real, q: real)
    requires 0.0 <= y <= x && 0.0 < p <= q
    ensures y / q <= x / p
  {
    QuotientNonNegative(y, q);
    assert (x / p) * p == x && (y / q) * q == y;
    OrderFromProducts(x / p, y / q, p, q);
  }

  lemma ReciprocalPositive(x: real)
    requires x > 0.0
    ensures 1.0 / x > 0.0
  {
  }

  lemma ReciprocalOrder(x: real, y: real)
    requires 0.0 < x < y
    ensures 0.0 < 1.0 / y < 1.0 / x
  {
    ReciprocalPositive(x);
    ReciprocalPositive(y);
    QuotientTimes(1.0, x);
    QuotientTimes(1.0, y);
    StrictOrderFromProducts(1.0 / x, 1.0 / y, x, y);
  }

  lemma Factored(x: real, y: real, z: real, w: real)
    ensures x * y * z - x * w == x * (y * z - w)
  {
    assert x * y * z == x * (y * z);
  }
}
