/**
 Vector algebra of the ray tracer's `Point` class: a point or direction in
 3-D space with componentwise add/subtract, scaling, cross and dot products,
 magnitude, and a normalisation that leaves the zero vector unchanged.

 The source allocates a fresh `Point` for every result; here a `Point` is an
 immutable value, so `copy` is the identity and is not modelled separately.
 */
module Vectors {
  import opened RealMath

  datatype Point = Point(x: real, y: real, z: real)

  /** `Point()`: the default constructor builds the origin. */
  function Origin(): (o: Point)
    ensures o.x == 0.0 && o.y == 0.0 && o.z == 0.0
  {
    Point(0.0, 0.0, 0.0)
  }

  function Add(p: Point, q: Point): Point {
    Point(p.x + q.x, p.y + q.y, p.z + q.z)
  }

  function Subtract(p: Point, q: Point): Point {
    Point(p.x - q.x, p.y - q.y, p.z - q.z)
  }

  /** `p.multiply(scalar)`: every coordinate scaled by `scalar`. */
  function Multiply(p: Point, scalar: real): Point {
    Point(p.x * scalar, p.y * scalar, p.z * scalar)
  }

  function Cross(p: Point, q: Point): Point {
    Point(p.y * q.z - p.z * q.y, p.z * q.x - p.x * q.z, p.x * q.y - p.y * q.x)
  }

  function Dot(p: Point, q: Point): real {
    p.x * q.x + p.y * q.y + p.z * q.z
  }

  /** The squared length of `p` is never negative and is positive away from the origin. */
  lemma DotSelf(p: Point)
    ensures Dot(p, p) >= 0.0
    ensures p != Origin() ==> Dot(p, p) > 0.0
  {
    SquareNonNegative(p.x);
    SquareNonNegative(p.y);
    SquareNonNegative(p.z);
    if p.x != 0.0 {
      SquarePositive(p.x);
    } else if p.y != 0.0 {
      SquarePositive(p.y);
    } else if p.z != 0.0 {
      SquarePositive(p.z);
    }
  }

  /** `p.magnitude()`: the Euclidean length of `p`, zero exactly at the origin. */
  function Magnitude(p: Point, sqrt: real -> real): (m: real)
    requires IsSquareRoot(sqrt)
    ensures m >= 0.0 && m * m == Dot(p, p)
    ensures m == 0.0 <==> p == Origin()
  {
    RootOfDotSelf(p, sqrt);
    sqrt(Dot(p, p))
  }

  lemma RootOfDotSelf(p: Point, sqrt: real -> real)
    requires IsSquareRoot(sqrt)
    ensures IsRootOf(Dot(p, p), sqrt(Dot(p, p)))
    ensures sqrt(Dot(p, p)) == 0.0 <==> p == Origin()
  {
    DotSelf(p);
    assert IsRootOf(Dot(p, p), sqrt(Dot(p, p)));
    if p == Origin() {
      assert Dot(p, p) == 0.0;
      SqrtZero(sqrt);
    } else {
      SqrtPositive(sqrt, Dot(p, p));
    }
  }

  /**
   `p.normalize()` as defined next to the class: divides by the length unless the
   length is zero, in which case the vector is left as it is. A non-zero vector
   becomes a unit vector pointing the same way.
   */
  function Normalize(p: Point, sqrt: real -> real): (r: Point)
    requires IsSquareRoot(sqrt)
    ensures p == Origin() ==> r == p
    ensures p != Origin() ==> Dot(r, r) == 1.0 && Magnitude(r, sqrt) == 1.0
    ensures p != Origin() ==> exists k :: 0.0 < k && r == Multiply(p, k)
  {
    var length := Magnitude(p, sqrt);
    if length == 0.0 then p
    else
      var r := Point(p.x / length, p.y / length, p.z / length);
      assert r == Multiply(p, 1.0 / length);
      InverseScaleIsUnit(p, length);
      SqrtOne(sqrt);
      r
  }

  /** A non-zero vector's normalisation is a positive multiple of it. */
  lemma NormalizeFactor(p: Point, sqrt: real -> real) returns (k: real)
    requires IsSquareRoot(sqrt) && p != Origin()
    ensures 0.0 < k && Normalize(p, sqrt) == Multiply(p, k)
  {
    var r := Normalize(p, sqrt);
    k :| 0.0 < k && r == Multiply(p, k);
  }

  /** A vector that is already normalised is left as it is. */
  lemma NormalizeIdempotent(p: Point, sqrt: real -> real)
    requires IsSquareRoot(sqrt)
    ensures Normalize(Normalize(p, sqrt), sqrt) == Normalize(p, sqrt)
  {
    var q := Normalize(p, sqrt);
    if p != Origin() {
      assert Magnitude(q, sqrt) == 1.0;
      assert q != Origin();
      assert Normalize(q, sqrt) == Point(q.x / 1.0, q.y / 1.0, q.z / 1.0);
    }
  }

  /** Scaling `p` by the inverse of its length gives a vector of squared length one. */
  lemma InverseScaleIsUnit(p: Point, length: real)
    requires length > 0.0 && length * length == Dot(p, p)
    ensures Dot(Multiply(p, 1.0 / length), Multiply(p, 1.0 / length)) == 1.0
  {
    var k := 1.0 / length;
    DotMultiply(p, k, Multiply(p, k));
    DotMultiplyRight(p, p, k);
    assert Mul(k, length) == 1.0;
    assert Mul(k, k) * Dot(p, p) == Mul(k, length) * Mul(k, length);
  }

  /** Scaling the first argument scales the dot product. */
  lemma DotMultiply(p: Point, k: real, q: Point)
    ensures Dot(Multiply(p, k), q) == k * Dot(p, q)
  {
  }

  /** Scaling the second argument scales the dot product. */
  lemma DotMultiplyRight(p: Point, q: Point, k: real)
    ensures Dot(p, Multiply(q, k)) == k * Dot(p, q)
  {
  }

  /** `cross(p, q)` is orthogonal to both of its arguments. */
  lemma CrossOrthogonal(p: Point, q: Point)
    ensures Dot(Cross(p, q), p) == 0.0
    ensures Dot(Cross(p, q), q) == 0.0
  {
  }

  /** The dot product is linear in its second argument. */
  lemma DotLinear(n: Point, u: Point, v: Point, k: real, m: real)
    ensures Dot(n, Add(Multiply(u, k), Multiply(v, m))) == k * Dot(n, u) + m * Dot(n, v)
  {
  }

  /**
   The second copy of `normalize`, which divides by the length without
   checking it: it needs a non-zero vector, and then agrees with the guarded
   version and yields a unit vector.
   */
  function NormalizeUnguarded(p: Point, sqrt: real -> real): (r: Point)
    requires IsSquareRoot(sqrt) && p != Origin()
    ensures Dot(r, r) == 1.0
    ensures r == Normalize(p, sqrt)
  {
    var length := Magnitude(p, sqrt);
    var r := Point(p.x / length, p.y / length, p.z / length);
    assert r == Normalize(p, sqrt);
    r
  }

  /** Adding and then subtracting the same vector gives back the first. */
  lemma SubtractUndoesAdd(p: Point, q: Point)
    ensures Subtract(Add(p, q), q) == p
    ensures Add(Subtract(p, q), q) == p
  {
  }

  /** Scaling by one changes nothing and scaling by zero gives the origin. */
  lemma MultiplyUnitAndZero(p: Point)
    ensures Multiply(p, 1.0) == p
    ensures Multiply(p, 0.0) == Origin()
  {
  }

  /** Swapping the factors of a cross product negates it. */
  lemma CrossAntiCommutative(p: Point, q: Point)
    ensures Cross(q, p) == Multiply(Cross(p, q), -1.0)
    ensures Cross(p, p) == Origin()
  {
  }

  /** The dot product is symmetric. */
  lemma DotSymmetric(p: Point, q: Point)
    ensures Dot(p, q) == Dot(q, p)
  {
  }
}
