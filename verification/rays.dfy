/**
 `Ray`: a start point and a direction. The constructor normalises the
 direction (so it is a unit vector, or the zero vector when given zero) and
 sets the ray's colour to white.
 */
module Rays {
  import opened RealMath
  import opened Vectors
  import Colors

  /** What every intersection routine returns when the ray misses. */
  const NoHit: real := -1.0

  datatype Ray = Ray(start: Point, dir: Point, color: Colors.Color)

  /** `new Ray(start, dir)`. */
  function MakeRay(start: Point, dir: Point, sqrt: real -> real): (ray: Ray)
    requires IsSquareRoot(sqrt)
    ensures ray.start == start && ray.color == Colors.Color(1.0, 1.0, 1.0)
    ensures dir == Origin() ==> ray.dir == Origin()
    ensures dir != Origin() ==> Dot(ray.dir, ray.dir) == 1.0
    ensures dir != Origin() ==> exists k :: 0.0 < k && ray.dir == Multiply(dir, k)
  {
    Ray(start, Normalize(dir, sqrt), Colors.Color(1.0, 1.0, 1.0))
  }

  /** `ray.getPoint(t)`: the point `t` units along the ray. */
  function GetPoint(ray: Ray, t: real): Point {
    Add(ray.start, Multiply(ray.dir, t))
  }

  /** The ray leaves from its start, and along a unit direction `t` measures distance. */
  lemma GetPointDistance(ray: Ray, t: real)
    ensures GetPoint(ray, 0.0) == ray.start
    ensures Subtract(GetPoint(ray, t), ray.start) == Multiply(ray.dir, t)
    ensures Dot(ray.dir, ray.dir) == 1.0 ==>
      Dot(Subtract(GetPoint(ray, t), ray.start), Subtract(GetPoint(ray, t), ray.start)) == t * t
  {
    var d := Subtract(GetPoint(ray, t), ray.start);
    assert d == Multiply(ray.dir, t);
    DotMultiply(ray.dir, t, Multiply(ray.dir, t));
    DotMultiplyRight(ray.dir, ray.dir, t);
  }

  /** Rebuilding a ray from its own start and direction gives the same ray. */
  lemma MakeRayIdempotent(start: Point, dir: Point, sqrt: real -> real)
    requires IsSquareRoot(sqrt)
    ensures var ray := MakeRay(start, dir, sqrt); MakeRay(ray.start, ray.dir, sqrt) == ray
  {
    NormalizeIdempotent(dir, sqrt);
  }
}
