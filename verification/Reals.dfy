/** Exact real arithmetic shared by the limiter, generator and kinematics models. */
module Reals {

  function Min(a: real, b: real): real { if a <= b then a else b }

  function Max(a: real, b: real): real { if a >= b then a else b }

  function Abs(a: real): real { if a >= 0.0 then a else -a }

  // What the models need of the square root: a non-negative function that
  // squares back to its argument wherever the argument is non-negative.
  ghost predicate IsSquareRoot(sqrt: real -> real) {
    forall x: real :: x >= 0.0 ==> sqrt(x) >= 0.0 && sqrt(x) * sqrt(x) == x
  }

  lemma ProductNonNegative(a: real, b: real)
    requires (a >= 0.0 && b >= 0.0) || (a <= 0.0 && b <= 0.0)
    ensures a * b >= 0.0
  {
  }

  lemma ProductPositive(a: real, b: real)
    requires (a > 0.0 && b > 0.0) || (a < 0.0 && b < 0.0)
    ensures a * b > 0.0
  {
  }

  lemma SquareNonNegative(a: real)
    ensures a * a >= 0.0
  {
  }

  lemma SquareOrder(a: real, b: real)
    requires b >= 0.0 && a * a <= b * b
    ensures a <= b
  {
    assert (a - b) * (a + b) == a * a - b * b;
    if a > b {
      ProductPositive(a - b, a + b);
    }
  }

  lemma ScaleOrder(f: real, a: real, b: real)
    requires f >= 0.0 && a <= b
    ensures f * a <= f * b
  {
    ProductNonNegative(f, b - a);
  }

  lemma CancelFactor(f: real, a: real, b: real)
    requires f > 0.0 && f * a <= f * b
    ensures a <= b
  {
    assert f * (a - b) == f * a - f * b;
    if a > b {
      ProductPositive(f, a - b);
    }
  }

  lemma CancelEqual(f: real, a: real, b: real)
    requires f > 0.0 && f * a == f * b
    ensures a == b
  {
    CancelFactor(f, a, b);
    CancelFactor(f, b, a);
  }

  lemma SquareOfProduct(a: real, b: real)
    ensures (a * b) * (a * b) == (a * a) * (b * b)
  {
  }

  lemma SquareOfSum(a: real, b: real, t: real)
    ensures (a + b * t) * (a + b * t) == a * a + 2.0 * t * (b * a) + t * t * (b * b)
  {
  }
}
