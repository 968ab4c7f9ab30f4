/** Small facts about products of reals. Each takes the product as an
    argument `p` so that callers can hand over whatever expression they
    have in hand; the solver proves them from the ordered-field axioms. */
module RealArith {
  lemma MulPositive(a: real, b: real, p: real)
    requires a > 0.0 && b > 0.0 && p == a * b
    ensures p > 0.0
  {
  }

  lemma SquarePositive(x: real, p: real)
    requires x != 0.0 && p == x * x
    ensures p > 0.0
  {
    if x < 0.0 {
      MulPositive(-x, -x, p);
    } else {
      MulPositive(x, x, p);
    }
  }

  lemma SquareNonNegative(x: real, p: real)
    requires p == x * x
    ensures p >= 0.0
  {
    if x != 0.0 {
      SquarePositive(x, p);
    }
  }

  lemma SumOfSquaresPositive(x: real, y: real, p: real)
    requires x != 0.0 || y != 0.0
    requires p == x * x + y * y
    ensures p > 0.0
  {
    var a, b := x * x, y * y;
    SquareNonNegative(x, a);
    SquareNonNegative(y, b);
    if x != 0.0 {
      SquarePositive(x, a);
    } else {
      SquarePositive(y, b);
    }
  }

  lemma CastMul(a: int, b: int)
    ensures (a * b) as real == a as real * b as real
  {
  }

  lemma CancelPositive(a: real, b: real, d: real)
    requires d > 0.0
    ensures a * d <= b * d ==> a <= b
    ensures a * d < b * d ==> a < b
  {
  }

  lemma DivMulBack(x: real, d: real)
    requires d != 0.0
    ensures (x / d) * d == x
  {
  }

  /** The floor of y is the one integer q with q <= y < q + 1. */
  lemma FloorUnique(y: real, q: int)
    requires q as real <= y < q as real + 1.0
    ensures y.Floor == q
  {
  }

  /** A non-zero factor can be cancelled from both sides. */
  lemma CancelNonZero(a: real, b: real, d: real)
    requires d != 0.0 && a * d == b * d
    ensures a == b
  {
    assert (a - b) * d == 0.0;
  }

  /** A product is negative exactly when its factors have opposite signs. */
  lemma NegativeProduct(a: real, b: real, p: real)
    requires b != 0.0 && p == a * b
    ensures p < 0.0 <==> (a < 0.0 && b > 0.0) || (a > 0.0 && b < 0.0)
  {
    if a > 0.0 && b > 0.0 {
      MulPositive(a, b, p);
    } else if a < 0.0 && b < 0.0 {
      MulPositive(-a, -b, p);
    } else if a > 0.0 && b < 0.0 {
      MulPositive(a, -b, -p);
    } else if a < 0.0 && b > 0.0 {
      MulPositive(-a, b, -p);
    }
  }
}
