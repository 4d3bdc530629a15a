/** Facts of real arithmetic the game and lottery proofs share. Each one is
    a single nonlinear step, kept apart so that the proofs that use it stay
    linear. */
module RealArith {
  lemma MulNonNegative(x: real, y: real)
    requires x >= 0.0 && y >= 0.0
    ensures x * y >= 0.0
  {
  }

  lemma MulPositive(x: real, y: real)
    requires x > 0.0 && y > 0.0
    ensures x * y > 0.0
  {
  }

  lemma MulNonPositive(x: real, y: real)
    requires x <= 0.0 && y >= 0.0
    ensures x * y <= 0.0
  {
  }

  lemma MulAtLeast(x: real, y: real)
    requires x >= 1.0 && y >= 0.0
    ensures x * y >= y
  {
  }

  lemma Distribute(a: nat, b: nat, w: real)
    ensures a as real * w + b as real * w == (a + b) as real * w
  {
  }

  /** A quotient of two positive reals, the first the smaller, lies
      strictly between 0 and 1. */
  lemma QuotientBounds(a: real, b: real)
    requires 0.0 < a < b
    ensures 0.0 < a / b < 1.0
  {
    var q := a / b;
    assert q * b == a;
    assert 0.0 < q by {
      if q <= 0.0 {
        MulNonPositive(q, b);
        assert false;
      }
    }
    assert q < 1.0 by {
      if q >= 1.0 {
        MulAtLeast(q, b);
        assert false;
      }
    }
  }

  /** Scaling a non-negative total by a factor within [lo, hi] gives a value
      within [lo, hi] times the total. */
  lemma ScaledBetween(total: real, x: real, lo: real, hi: real)
    requires total >= 0.0 && lo <= x <= hi
    ensures lo * total <= total * x <= hi * total
  {
    MulNonNegative(total, x - lo);
    MulNonNegative(total, hi - x);
  }
}
