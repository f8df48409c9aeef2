/**
 `Sphere`: intersection by the quadratic formula with `a = 1` (the ray's
 direction is assumed to be a unit vector), and a normal that is produced only
 for points within `Epsilon` of the surface, measured on the squared distance.
 */
module Spheres {
  import opened RealMath
  import opened Options
  import opened Vectors
  import opened Rays

  datatype Sphere = Sphere(center: Point, radius: real)

  /** `p` is exactly on the sphere's surface. */
  predicate OnSphere(sphere: Sphere, p: Point) {
    var d := Subtract(p, sphere.center);
    Dot(d, d) == sphere.radius * sphere.radius
  }

  /**
   The last four branches of the test: no hit when both roots are negative,
   otherwise the smaller non-negative root.
   */
  function SelectRoot(t1: real, t2: real): (t: real)
    ensures t1 < 0.0 && t2 < 0.0 ==> t == NoHit
    ensures t1 >= 0.0 || t2 >= 0.0 ==> 0.0 <= t && (t == t1 || t == t2)
    ensures t1 >= 0.0 || t2 >= 0.0 ==> (t1 >= 0.0 ==> t <= t1) && (t2 >= 0.0 ==> t <= t2)
  {
    if t1 < 0.0 && t2 < 0.0 then NoHit
    else if t1 < 0.0 then t2
    else if t2 < 0.0 then t1
    else if t1 <= t2 then t1
    else t2
  }

  /** `b` and `c` of the quadratic `t^2 + b t + c` (the source's `a` is the constant 1). */
  function LinearCoefficient(sphere: Sphere, ray: Ray): real {
    2.0 * Dot(ray.dir, Subtract(ray.start, sphere.center))
  }

  function ConstantCoefficient(sphere: Sphere, ray: Ray): real {
    var toStart := Subtract(ray.start, sphere.center);
    Dot(toStart, toStart) - sphere.radius * sphere.radius
  }

  /**
   `sphere.handleIntersecttion(ray)`. For a unit direction the result is a
   miss exactly when the ray meets the sphere at no `t >= 0`, and otherwise the
   least such `t`.
   */
  function SphereIntersect(sphere: Sphere, ray: Ray, sqrt: real -> real): (t: real)
    requires IsSquareRoot(sqrt)
    ensures t == NoHit || t >= 0.0
    ensures Dot(ray.dir, ray.dir) == 1.0 && t != NoHit ==> OnSphere(sphere, GetPoint(ray, t))
    ensures Dot(ray.dir, ray.dir) == 1.0 ==>
      forall s :: 0.0 <= s && OnSphere(sphere, GetPoint(ray, s)) ==> t != NoHit && t <= s
  {
    var a := 1.0;
    var b := LinearCoefficient(sphere, ray);
    var c := ConstantCoefficient(sphere, ray);
    var discriminant := b * b - 4.0 * a * c;
    if discriminant < 0.0 then
      NoRealRoot(sphere, ray);
      NoHit
    else
      var t1 := (-b + sqrt(discriminant)) / (2.0 * a);
      var t2 := (-b - sqrt(discriminant)) / (2.0 * a);
      RootsAreHits(sphere, ray, sqrt(discriminant));
      SelectRoot(t1, t2)
  }

  /** Along a unit direction, the squared distance to the sphere minus `r^2` is `t^2 + b t + c`. */
  lemma OnSphereQuadratic(sphere: Sphere, ray: Ray, t: real)
    requires Dot(ray.dir, ray.dir) == 1.0
    ensures var d := Subtract(GetPoint(ray, t), sphere.center);
      Dot(d, d) - sphere.radius * sphere.radius
        == t * t + LinearCoefficient(sphere, ray) * t + ConstantCoefficient(sphere, ray)
  {
    ExpandDistance(sphere, ray, t);
  }

  lemma ExpandDistance(sphere: Sphere, ray: Ray, t: real)
    ensures var d := Subtract(GetPoint(ray, t), sphere.center);
      Dot(d, d) - sphere.radius * sphere.radius
        == Mul(Mul(t, t), Dot(ray.dir, ray.dir)) + LinearCoefficient(sphere, ray) * t
           + ConstantCoefficient(sphere, ray)
  {
  }

  /** With a negative discriminant no point of a unit-direction ray is on the sphere. */
  lemma NoRealRoot(sphere: Sphere, ray: Ray)
    requires
      var b := LinearCoefficient(sphere, ray);
      b * b - 4.0 * ConstantCoefficient(sphere, ray) < 0.0
    ensures Dot(ray.dir, ray.dir) == 1.0 ==> forall s :: !OnSphere(sphere, GetPoint(ray, s))
  {
    if Dot(ray.dir, ray.dir) == 1.0 {
      forall s
        ensures !OnSphere(sphere, GetPoint(ray, s))
      {
        OnSphereQuadratic(sphere, ray, s);
        QuadraticPositive(LinearCoefficient(sphere, ray), ConstantCoefficient(sphere, ray), s);
      }
    }
  }

  lemma QuadraticPositive(b: real, c: real, s: real)
    requires b * b - 4.0 * c < 0.0
    ensures s * s + b * s + c > 0.0
  {
    SquareNonNegative(2.0 * s + b);
  }

  /**
   With a non-negative discriminant whose root is `q`, the points of a
   unit-direction ray on the sphere are exactly those at the two roots.
   */
  lemma RootsAreHits(sphere: Sphere, ray: Ray, q: real)
    requires
      var b := LinearCoefficient(sphere, ray);
      IsRootOf(b * b - 4.0 * ConstantCoefficient(sphere, ray), q)
    ensures Dot(ray.dir, ray.dir) == 1.0 ==>
      var b := LinearCoefficient(sphere, ray);
      forall s :: OnSphere(sphere, GetPoint(ray, s)) <==> s == (-b + q) / (2.0 * 1.0) || s == (-b - q) / (2.0 * 1.0)
  {
    var b := LinearCoefficient(sphere, ray);
    var c := ConstantCoefficient(sphere, ray);
    if Dot(ray.dir, ray.dir) == 1.0 {
      forall s
        ensures OnSphere(sphere, GetPoint(ray, s)) <==> s == (-b + q) / (2.0 * 1.0) || s == (-b - q) / (2.0 * 1.0)
      {
        OnSphereAt(sphere, ray, q, s);
      }
    }
  }

  /** One `t` of a unit-direction ray: it is on the sphere exactly when it is one of the two roots. */
  lemma OnSphereAt(sphere: Sphere, ray: Ray, q: real, t: real)
    requires Dot(ray.dir, ray.dir) == 1.0
    requires var b := LinearCoefficient(sphere, ray);
      q * q == b * b - 4.0 * ConstantCoefficient(sphere, ray)
    ensures var b := LinearCoefficient(sphere, ray);
      OnSphere(sphere, GetPoint(ray, t)) <==> t == (-b + q) / (2.0 * 1.0) || t == (-b - q) / (2.0 * 1.0)
  {
    OnSphereQuadratic(sphere, ray, t);
    var d := Subtract(GetPoint(ray, t), sphere.center);
    DifferenceRoots(Dot(d, d), sphere.radius * sphere.radius,
                    LinearCoefficient(sphere, ray), ConstantCoefficient(sphere, ray), q, t);
  }

  /** `x == y` exactly at the roots when `x - y` is the quadratic `t^2 + b t + c` with discriminant `q^2`. */
  lemma DifferenceRoots(x: real, y: real, b: real, c: real, q: real, t: real)
    requires x - y == t * t + b * t + c && q * q == b * b - 4.0 * c
    ensures x == y <==> t == (-b + q) / (2.0 * 1.0) || t == (-b - q) / (2.0 * 1.0)
  {
    QuadraticRoots(b, c, q, t);
  }

  /** With `q^2` the discriminant, `s` is a root of `s^2 + b s + c` exactly when it is one of the two quotients. */
  lemma QuadraticRoots(b: real, c: real, q: real, s: real)
    requires q * q == b * b - 4.0 * c
    ensures s * s + b * s + c == 0.0 <==> s == (-b + q) / (2.0 * 1.0) || s == (-b - q) / (2.0 * 1.0)
  {
    QuadraticFactors(b, c, q, s);
    if s != (-b + q) / 2.0 && s != (-b - q) / 2.0 {
      MulNonZero(s - (-b + q) / 2.0, s - (-b - q) / 2.0);
    }
  }

  lemma QuadraticFactors(b: real, c: real, q: real, s: real)
    requires q * q == b * b - 4.0 * c
    ensures Mul(s - (-b + q) / 2.0, s - (-b - q) / 2.0) == s * s + b * s + c
  {
  }

  /**
   `sphere.getNormal(p)`: for a point whose squared distance from the centre is
   within `Epsilon` of `r^2`, the normalised vector from the centre to the point;
   otherwise no normal.
   */
  function SphereNormal(sphere: Sphere, p: Point, sqrt: real -> real): (n: Option<Point>)
    requires IsSquareRoot(sqrt)
    ensures var d := Subtract(p, sphere.center);
      n.Some? <==> Abs(Dot(d, d) - sphere.radius * sphere.radius) < Epsilon
    ensures var d := Subtract(p, sphere.center);
      n.Some? && d != Origin() ==> Dot(n.value, n.value) == 1.0 && exists k :: 0.0 < k && n.value == Multiply(d, k)
  {
    var centerToP := Subtract(p, sphere.center);
    if Abs(Dot(centerToP, centerToP) - sphere.radius * sphere.radius) < Epsilon then
      Some(Normalize(centerToP, sqrt))
    else
      None
  }

  /** Every hit found for a unit-direction ray is close enough to the surface to get a normal. */
  lemma SphereHitHasNormal(sphere: Sphere, ray: Ray, sqrt: real -> real)
    requires IsSquareRoot(sqrt) && Dot(ray.dir, ray.dir) == 1.0
    requires SphereIntersect(sphere, ray, sqrt) != NoHit
    ensures var p := GetPoint(ray, SphereIntersect(sphere, ray, sqrt));
      SphereNormal(sphere, p, sqrt).Some?
  {
  }
}
