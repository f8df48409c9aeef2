/**
 `Triangle`: a triangle given by its vertices `a`, `b`, `c`. A ray meets it
 where `start + t dir == a + beta (b - a) + gamma (c - a)`; the three unknowns
 are found with Cramer's rule, and the hit is accepted within an `Epsilon`
 tolerance on the barycentric coordinates.
 */
module Triangles {
  import opened RealMath
  import opened Vectors
  import opened Determinants
  import opened Rays

  datatype Triangle = Triangle(a: Point, b: Point, c: Point)

  /** `beta`, `gamma` and `t` solve `a - start == beta (a - b) + gamma (a - c) + t dir`. */
  predicate Solves(tri: Triangle, ray: Ray, beta: real, gamma: real, t: real) {
    Subtract(tri.a, ray.start)
      == Combination(Subtract(tri.a, tri.b), Subtract(tri.a, tri.c), ray.dir, beta, gamma, t)
  }

  /** The acceptance test on the solved unknowns. */
  predicate Accepts(beta: real, gamma: real, t: real) {
    beta >= -Epsilon && gamma >= -Epsilon && beta + gamma <= 1.0 + Epsilon && t > 0.0
  }

  /** Reference meaning of a hit: some barycentric coordinates solve the system and pass the test. */
  ghost predicate TriangleHitAt(tri: Triangle, ray: Ray, t: real) {
    exists beta, gamma :: Solves(tri, ray, beta, gamma, t) && Accepts(beta, gamma, t)
  }

  /** The determinant of the system's matrix (`aDet`). */
  function SystemDet(tri: Triangle, ray: Ray): real {
    Determinant(Columns(Subtract(tri.a, tri.b), Subtract(tri.a, tri.c), ray.dir))
  }

  /**
   `triangle.calcIntersection(ray)`. The source divides by `aDet` without a
   check; a zero `aDet` is a miss here (see the README).
   */
  function TriangleIntersect(tri: Triangle, ray: Ray): (t: real)
    ensures t == NoHit || (t > 0.0 && TriangleHitAt(tri, ray, t))
    ensures SystemDet(tri, ray) == 0.0 ==> t == NoHit
    ensures forall s :: SystemDet(tri, ray) != 0.0 && TriangleHitAt(tri, ray, s) ==> t == s
  {
    var ab, ac, toStart := Subtract(tri.a, tri.b), Subtract(tri.a, tri.c), Subtract(tri.a, ray.start);
    var aDet := Determinant(Columns(ab, ac, ray.dir));
    if aDet == 0.0 then NoHit
    else
      var beta := Determinant(Columns(toStart, ac, ray.dir)) / aDet;
      var gamma := Determinant(Columns(ab, toStart, ray.dir)) / aDet;
      var t := Determinant(Columns(ab, ac, toStart)) / aDet;
      CramerSolves(tri, ray);
      CramerUnique(tri, ray);
      if beta >= -Epsilon && gamma >= -Epsilon && beta + gamma <= 1.0 + Epsilon && t > 0.0 then t
      else NoHit
  }

  /** With a non-zero `aDet` the quotients computed by the source solve the system. */
  lemma CramerSolves(tri: Triangle, ray: Ray)
    requires SystemDet(tri, ray) != 0.0
    ensures
      var ab, ac, toStart := Subtract(tri.a, tri.b), Subtract(tri.a, tri.c), Subtract(tri.a, ray.start);
      var aDet := SystemDet(tri, ray);
      Solves(tri, ray, Determinant(Columns(toStart, ac, ray.dir)) / aDet,
                       Determinant(Columns(ab, toStart, ray.dir)) / aDet,
                       Determinant(Columns(ab, ac, toStart)) / aDet)
  {
    var ab, ac, toStart := Subtract(tri.a, tri.b), Subtract(tri.a, tri.c), Subtract(tri.a, ray.start);
    var d := SystemDet(tri, ray);
    DeterminantOfColumns(ab, ac, ray.dir);
    DeterminantOfColumns(toStart, ac, ray.dir);
    DeterminantOfColumns(ab, toStart, ray.dir);
    DeterminantOfColumns(ab, ac, toStart);
    CramerIdentity(ab, ac, ray.dir, toStart);
    CombinationScaled(ab, ac, ray.dir, Triple(toStart, ac, ray.dir), Triple(ab, toStart, ray.dir), Triple(ab, ac, toStart), d, toStart);
  }

  /** Dividing every coefficient by `d` divides the combination by `d`. */
  lemma CombinationScaled(c0: Point, c1: Point, c2: Point, u: real, v: real, w: real, d: real, r: Point)
    requires d != 0.0 && Combination(c0, c1, c2, u, v, w) == Multiply(r, d)
    ensures Combination(c0, c1, c2, u / d, v / d, w / d) == r
  {
    QuotientsTimes(u, v, w, d);
    CombinationOfQuotients(c0, c1, c2, u, v, w, d, r, u / d, v / d, w / d);
  }

  /** Coefficients `qu`, `qv`, `qw` with `qu d == u`, ... combine the columns into `r`. */
  lemma CombinationOfQuotients(c0: Point, c1: Point, c2: Point, u: real, v: real, w: real, d: real, r: Point,
                               qu: real, qv: real, qw: real)
    requires d != 0.0 && Combination(c0, c1, c2, u, v, w) == Multiply(r, d)
    requires qu * d == u && qv * d == v && qw * d == w
    ensures Combination(c0, c1, c2, qu, qv, qw) == r
  {
    CombinationRows(c0, c1, c2, u, v, w, d, r);
    CancelRow(c0.x, c1.x, c2.x, u, v, w, d, r.x, qu, qv, qw);
    CancelRow(c0.y, c1.y, c2.y, u, v, w, d, r.y, qu, qv, qw);
    CancelRow(c0.z, c1.z, c2.z, u, v, w, d, r.z, qu, qv, qw);
    CombinationFromRows(c0, c1, c2, qu, qv, qw, r);
  }

  lemma CombinationRows(c0: Point, c1: Point, c2: Point, u: real, v: real, w: real, d: real, r: Point)
    requires Combination(c0, c1, c2, u, v, w) == Multiply(r, d)
    ensures c0.x * u + c1.x * v + c2.x * w == r.x * d
    ensures c0.y * u + c1.y * v + c2.y * w == r.y * d
    ensures c0.z * u + c1.z * v + c2.z * w == r.z * d
  {
  }

  lemma CombinationFromRows(c0: Point, c1: Point, c2: Point, u: real, v: real, w: real, r: Point)
    requires c0.x * u + c1.x * v + c2.x * w == r.x
    requires c0.y * u + c1.y * v + c2.y * w == r.y
    requires c0.z * u + c1.z * v + c2.z * w == r.z
    ensures Combination(c0, c1, c2, u, v, w) == r
  {
  }

  lemma QuotientsTimes(u: real, v: real, w: real, d: real)
    requires d != 0.0
    ensures (u / d) * d == u && (v / d) * d == v && (w / d) * d == w
  {
  }

  /** One row of a combination scaled by `d`, with the factor cancelled. */
  lemma CancelRow(a: real, b: real, c: real, u: real, v: real, w: real, d: real, x: real,
                  qu: real, qv: real, qw: real)
    requires d != 0.0 && a * u + b * v + c * w == x * d
    requires qu * d == u && qv * d == v && qw * d == w
    ensures a * qu + b * qv + c * qw == x
  {
    assert (a * qu + b * qv + c * qw) * d == x * d;
    CancelFactor(d, a * qu + b * qv + c * qw, x);
  }

  /** With a non-zero `aDet` every solution of the system is the one the source computes. */
  lemma CramerUnique(tri: Triangle, ray: Ray)
    requires SystemDet(tri, ray) != 0.0
    ensures forall beta, gamma, t :: Solves(tri, ray, beta, gamma, t) ==>
      var ab, ac, toStart := Subtract(tri.a, tri.b), Subtract(tri.a, tri.c), Subtract(tri.a, ray.start);
      var aDet := SystemDet(tri, ray);
      && beta == Determinant(Columns(toStart, ac, ray.dir)) / aDet
      && gamma == Determinant(Columns(ab, toStart, ray.dir)) / aDet
      && t == Determinant(Columns(ab, ac, toStart)) / aDet
  {
    var ab, ac, toStart := Subtract(tri.a, tri.b), Subtract(tri.a, tri.c), Subtract(tri.a, ray.start);
    var d := SystemDet(tri, ray);
    DeterminantOfColumns(ab, ac, ray.dir);
    DeterminantOfColumns(toStart, ac, ray.dir);
    DeterminantOfColumns(ab, toStart, ray.dir);
    DeterminantOfColumns(ab, ac, toStart);
    forall beta, gamma, t | Solves(tri, ray, beta, gamma, t)
      ensures beta == Determinant(Columns(toStart, ac, ray.dir)) / d
      ensures gamma == Determinant(Columns(ab, toStart, ray.dir)) / d
      ensures t == Determinant(Columns(ab, ac, toStart)) / d
    {
      assert toStart == Combination(ab, ac, ray.dir, beta, gamma, t);
      SolutionIsQuotient(ab, ac, ray.dir, toStart, beta, gamma, t);
    }
  }

  /**
   When `r == u c0 + v c1 + w c2` and the columns' triple product `d` is not
   zero, each coefficient is the triple product with its column replaced by
   `r`, divided by `d`.
   */
  lemma SolutionIsQuotient(c0: Point, c1: Point, c2: Point, r: Point, u: real, v: real, w: real)
    requires Triple(c0, c1, c2) != 0.0 && r == Combination(c0, c1, c2, u, v, w)
    ensures u == Triple(r, c1, c2) / Triple(c0, c1, c2)
    ensures v == Triple(c0, r, c2) / Triple(c0, c1, c2)
    ensures w == Triple(c0, c1, r) / Triple(c0, c1, c2)
  {
    TripleLinear(c0, c1, c2, u, v, w);
    ExactQuotients(Triple(r, c1, c2), Triple(c0, r, c2), Triple(c0, c1, r), Triple(c0, c1, c2), u, v, w);
  }

  lemma ExactQuotients(x: real, y: real, z: real, d: real, u: real, v: real, w: real)
    requires d != 0.0 && x == u * d && y == v * d && z == w * d
    ensures x / d == u && y / d == v && z / d == w
  {
    DivideExact(x, d, u);
    DivideExact(y, d, v);
    DivideExact(z, d, w);
  }

  /** `triangle.getNormal()`: the normalised cross product of the edges `a - b` and `a - c`. */
  function TriangleNormal(tri: Triangle, sqrt: real -> real): Point
    requires IsSquareRoot(sqrt)
  {
    Normalize(Cross(Subtract(tri.a, tri.b), Subtract(tri.a, tri.c)), sqrt)
  }

  /**
   A triangle's normal is perpendicular to both edges, and it is a unit vector
   unless the triangle is degenerate, in which case it is the zero vector.
   */
  lemma TriangleNormalPerpendicular(tri: Triangle, sqrt: real -> real)
    requires IsSquareRoot(sqrt)
    ensures var n := TriangleNormal(tri, sqrt);
      && Dot(n, Subtract(tri.a, tri.b)) == 0.0 && Dot(n, Subtract(tri.a, tri.c)) == 0.0
      && (n == Origin() <==> Cross(Subtract(tri.a, tri.b), Subtract(tri.a, tri.c)) == Origin())
      && (n != Origin() ==> Dot(n, n) == 1.0)
  {
    NormalPerpendicular(Subtract(tri.a, tri.b), Subtract(tri.a, tri.c), sqrt);
  }

  /** Normalising a cross product keeps it perpendicular to both factors. */
  lemma NormalPerpendicular(p: Point, q: Point, sqrt: real -> real)
    requires IsSquareRoot(sqrt)
    ensures var n := Normalize(Cross(p, q), sqrt); Dot(n, p) == 0.0 && Dot(n, q) == 0.0
  {
    var cr := Cross(p, q);
    CrossOrthogonal(p, q);
    if cr != Origin() {
      var n := Normalize(cr, sqrt);
      assert exists k :: 0.0 < k && n == Multiply(cr, k);
      var k :| 0.0 < k && n == Multiply(cr, k);
      DotMultiply(cr, k, p);
      DotMultiply(cr, k, q);
    }
  }

  /** A point where the ray hits the triangle lies in the triangle's plane. */
  lemma HitOnPlane(tri: Triangle, ray: Ray, t: real, sqrt: real -> real)
    requires IsSquareRoot(sqrt) && TriangleHitAt(tri, ray, t)
    ensures Dot(TriangleNormal(tri, sqrt), Subtract(GetPoint(ray, t), tri.a)) == 0.0
  {
    var beta, gamma :| Solves(tri, ray, beta, gamma, t) && Accepts(beta, gamma, t);
    TriangleNormalPerpendicular(tri, sqrt);
    InPlane(tri.a, ray.start, ray.dir, Subtract(tri.a, tri.b), Subtract(tri.a, tri.c), beta, gamma, t,
            TriangleNormal(tri, sqrt));
  }

  /**
   When `a - start == beta ab + gamma ac + t dir`, the point `t` along the ray
   differs from `a` by a combination of `ab` and `ac`, so a vector
   perpendicular to both is perpendicular to that difference.
   */
  lemma InPlane(a: Point, start: Point, dir: Point, ab: Point, ac: Point, beta: real, gamma: real, t: real, n: Point)
    requires Subtract(a, start) == Combination(ab, ac, dir, beta, gamma, t)
    requires Dot(n, ab) == 0.0 && Dot(n, ac) == 0.0
    ensures Dot(n, Subtract(Add(start, Multiply(dir, t)), a)) == 0.0
  {
    assert Subtract(Add(start, Multiply(dir, t)), a) == Add(Multiply(ab, -beta), Multiply(ac, -gamma));
    DotLinear(n, ab, ac, -beta, -gamma);
  }
}
