/**
 Real-number helpers shared by the geometry modules: the `EPSILON` tolerance,
 absolute value, square roots, and sign facts about products.

 The ray tracer calls the C library's `sqrt`. Dafny's `real` has no square
 root, so every operation that needs one receives it as a parameter `sqrt`
 and requires `IsSquareRoot(sqrt)`.
 */
module RealMath {

  /** The tolerance the ray tracer uses for barycentric and face tests. */
  const Epsilon: real := 0.01

  function Abs(x: real): (r: real)
    ensures r >= 0.0
    ensures r == x || r == -x
  {
    if x < 0.0 then -x else x
  }

  /** `s` is the non-negative square root of `x`. */
  predicate IsRootOf(x: real, s: real) {
    0.0 <= s && s * s == x
  }

  /** `sqrt` returns the non-negative square root of every non-negative real. */
  ghost predicate IsSquareRoot(sqrt: real -> real) {
    forall x :: 0.0 <= x ==> IsRootOf(x, sqrt(x))
  }

  /**
   Plain multiplication. Sign facts about products are stated on `Mul` so that
   they stay usable as linear facts in later proofs.
   */
  function Mul(a: real, b: real): real {
    a * b
  }

  lemma MulPositive(a: real, b: real)
    requires a > 0.0 && b > 0.0
    ensures Mul(a, b) > 0.0
  {
  }

  /** The square of a non-zero real is positive. */
  lemma SquarePositive(a: real)
    requires a != 0.0
    ensures Mul(a, a) > 0.0
  {
    if a > 0.0 {
      MulPositive(a, a);
    } else {
      MulPositive(-a, -a);
      assert Mul(-a, -a) == Mul(a, a);
    }
  }

  lemma SquareNonNegative(a: real)
    ensures Mul(a, a) >= 0.0
  {
    if a != 0.0 {
      SquarePositive(a);
    }
  }

  /** Squaring is strictly increasing on the non-negative reals. */
  lemma SquareMonotone(a: real, b: real)
    requires 0.0 <= a < b
    ensures Mul(a, a) < Mul(b, b)
  {
    assert Mul(b - a, b + a) == Mul(b, b) - Mul(a, a);
    MulPositive(b - a, b + a);
  }

  /** Non-negative square roots are unique. */
  lemma RootUnique(x: real, s: real, s': real)
    requires IsRootOf(x, s) && IsRootOf(x, s')
    ensures s == s'
  {
    if s < s' {
      SquareMonotone(s, s');
    } else if s' < s {
      SquareMonotone(s', s);
    }
  }

  lemma SqrtZero(sqrt: real -> real)
    requires IsSquareRoot(sqrt)
    ensures sqrt(0.0) == 0.0
  {
    assert IsRootOf(0.0, sqrt(0.0));
    RootUnique(0.0, sqrt(0.0), 0.0);
  }

  lemma SqrtOne(sqrt: real -> real)
    requires IsSquareRoot(sqrt)
    ensures sqrt(1.0) == 1.0
  {
    assert IsRootOf(1.0, sqrt(1.0));
    RootUnique(1.0, sqrt(1.0), 1.0);
  }

  /** The root of a positive number is positive. */
  lemma SqrtPositive(sqrt: real -> real, x: real)
    requires IsSquareRoot(sqrt) && 0.0 < x
    ensures 0.0 < sqrt(x)
  {
    assert IsRootOf(x, sqrt(x));
  }

  /** A non-zero product of two reals has non-zero factors, and conversely. */
  lemma MulNonZero(a: real, b: real)
    requires a != 0.0 && b != 0.0
    ensures Mul(a, b) != 0.0
  {
    if a > 0.0 && b > 0.0 {
      MulPositive(a, b);
    } else if a > 0.0 {
      MulPositive(a, -b);
      assert Mul(a, -b) == -Mul(a, b);
    } else if b > 0.0 {
      MulPositive(-a, b);
      assert Mul(-a, b) == -Mul(a, b);
    } else {
      MulPositive(-a, -b);
      assert Mul(-a, -b) == Mul(a, b);
    }
  }

  /** A non-zero factor can be cancelled from both sides. */
  lemma CancelFactor(d: real, x: real, y: real)
    requires d != 0.0 && x * d == y * d
    ensures x == y
  {
    if x != y {
      MulNonZero(x - y, d);
    }
  }

  /** `x / d` is the unique `q` with `q d == x`. */
  lemma DivideExact(x: real, d: real, q: real)
    requires d != 0.0 && x == q * d
    ensures x / d == q
  {
    CancelFactor(d, x / d, q);
  }
}
