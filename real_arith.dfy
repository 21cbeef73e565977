/**
 * Small facts about `real` products and quotients that the scaling and
 * similarity proofs use. Each is stated over distinct variables (a product
 * x * y rather than a square x * x), which the solver handles reliably;
 * callers instantiate them with repeated arguments where they need squares.
 */
module RealArith {

  lemma QuotientNonNegative(x: real, y: real)
    requires x >= 0.0 && y > 0.0
    ensures x / y >= 0.0
  {
    assert x / y * y == x;
  }

  lemma UnitQuotient(a: real, b: real)
    requires 0.0 <= a <= b && b > 0.0
    ensures 0.0 <= a / b <= 1.0
  {
    assert a / b * b == a;
  }

  lemma MonotoneQuotient(a: real, a': real, b: real)
    requires a <= a' && b > 0.0
    ensures a / b <= a' / b
  {
    assert a / b * b == a;
    assert a' / b * b == a';
  }

  lemma ProductPositive(x: real, y: real, p: real)
    requires x > 0.0 && y > 0.0 && p == x * y
    ensures p > 0.0
  {
  }

  lemma SelfQuotient(d: real)
    requires d != 0.0
    ensures d / d == 1.0
  {
  }

  lemma ProductPositivePlus(x: real, y: real, r: real)
    requires x > 0.0 && y > 0.0 && r >= 0.0
    ensures x * y + r > 0.0
  {
  }

  lemma ProductLess(a: real, b: real, c: real, d: real)
    requires 0.0 <= a < b && 0.0 <= c < d
    ensures a * c < b * d
  {
  }

  lemma ProductOfQuotients(x: real, y: real, z: real, w: real)
    requires y != 0.0 && w != 0.0
    ensures (x / y) * (z / w) == (x * z) / (y * w)
  {
  }

  /** A square plus a non-negative number is non-negative, and 0 only when both are 0. */
  lemma SquarePlusZero(x: real, r: real)
    requires r >= 0.0
    ensures x * x + r >= 0.0
    ensures x * x + r == 0.0 <==> x == 0.0 && r == 0.0
  {
    if x > 0.0 {
      ProductPositivePlus(x, x, r);
    } else if x < 0.0 {
      ProductPositivePlus(-x, -x, r);
      assert (-x) * (-x) == x * x;
    }
  }

  lemma SquareNonZero(n: real)
    requires n != 0.0
    ensures n * n > 0.0
  {
    SquarePlusZero(n, 0.0);
  }

  /** Squaring keeps the order of non-negative numbers. */
  lemma SquareLess(x: real, y: real)
    requires 0.0 <= x < y
    ensures x * x < y * y
  {
    ProductLess(x, y, x, y);
  }

  lemma ProductRearrange(a: real, b: real, c: real, d: real, p: real, q: real)
    requires p == a * c && q == b * d
    ensures (a * b) * (c * d) == p * q
  {
  }

  /** d/p and d/q have the same sign when p and q are positive, so their product is non-negative. */
  lemma QuotientsSameSign(d: real, p: real, q: real)
    requires p > 0.0 && q > 0.0
    ensures (d / p) * (d / q) >= 0.0
  {
    if d >= 0.0 {
      QuotientNonNegative(d, p);
      QuotientNonNegative(d, q);
    } else {
      QuotientNonNegative(-d, p);
      QuotientNonNegative(-d, q);
      assert (d / p) * (d / q) == ((-d) / p) * ((-d) / q);
    }
  }
}
