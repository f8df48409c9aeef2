/**
 `Rect`: an axis-aligned rectangle given by two opposite corners. Which plane
 it lies in is decided by the coordinate the corners share, checked in the
 order z, x, y; the ray is intersected with that plane and the hit is kept
 when it lies within the corners on the other two axes.
 */
module Rects {
  import opened Options
  import opened Vectors
  import opened Rays

  datatype Rect = Rect(corner1: Point, corner2: Point)

  datatype Axis = AxisX | AxisY | AxisZ

  function Coord(p: Point, axis: Axis): real {
    match axis
    case AxisX => p.x
    case AxisY => p.y
    case AxisZ => p.z
  }

  /** The axis normal to the rectangle's plane, or `None` when the corners share no coordinate. */
  function PlaneAxis(rect: Rect): (axis: Option<Axis>)
    ensures axis.Some? ==> Coord(rect.corner1, axis.value) == Coord(rect.corner2, axis.value)
    ensures axis.None? <==>
      rect.corner1.x != rect.corner2.x && rect.corner1.y != rect.corner2.y && rect.corner1.z != rect.corner2.z
    ensures rect.corner1.z == rect.corner2.z ==> axis == Some(AxisZ)
    ensures axis == Some(AxisX) ==> rect.corner1.z != rect.corner2.z
    ensures axis == Some(AxisY) ==> rect.corner1.z != rect.corner2.z && rect.corner1.x != rect.corner2.x
  {
    if rect.corner1.z == rect.corner2.z then Some(AxisZ)
    else if rect.corner1.x == rect.corner2.x then Some(AxisX)
    else if rect.corner1.y == rect.corner2.y then Some(AxisY)
    else None
  }

  predicate Between(lo: real, v: real, hi: real) {
    lo <= v <= hi
  }

  /** `p` lies between the corners on the two axes other than `axis`. */
  predicate Within(p: Point, rect: Rect, axis: Axis) {
    var c1, c2 := rect.corner1, rect.corner2;
    match axis
    case AxisZ => Between(c1.x, p.x, c2.x) && Between(c1.y, p.y, c2.y)
    case AxisX => Between(c1.z, p.z, c2.z) && Between(c1.y, p.y, c2.y)
    case AxisY => Between(c1.x, p.x, c2.x) && Between(c1.z, p.z, c2.z)
  }

  /**
   Reference meaning of a hit: `t` is not negative and the ray's point at `t`
   lies in the rectangle's plane and within its corners.
   */
  predicate RectHitAt(rect: Rect, ray: Ray, t: real) {
    && 0.0 <= t
    && PlaneAxis(rect).Some?
    && Coord(GetPoint(ray, t), PlaneAxis(rect).value) == Coord(rect.corner1, PlaneAxis(rect).value)
    && Within(GetPoint(ray, t), rect, PlaneAxis(rect).value)
  }

  /** Moving along the ray changes one coordinate by the matching direction component. */
  lemma CoordGetPoint(ray: Ray, t: real, axis: Axis)
    ensures Coord(GetPoint(ray, t), axis) == Coord(ray.start, axis) + Coord(ray.dir, axis) * t
  {
  }

  /** One branch of the intersection test: the plane normal to `axis`. */
  function PlaneIntersect(rect: Rect, ray: Ray, axis: Axis): real {
    if Coord(ray.dir, axis) == 0.0 then NoHit
    else
      var t := (Coord(rect.corner1, axis) - Coord(ray.start, axis)) / Coord(ray.dir, axis);
      if t < 0.0 then NoHit
      else if Within(GetPoint(ray, t), rect, axis) then t
      else NoHit
  }

  /**
   `rect.calcIntersection(ray)`: no hit when the corners share no coordinate or
   the ray runs parallel to the plane; otherwise the unique parameter at which
   the ray meets the plane, when that is not negative and lies within the corners.
   */
  function RectIntersect(rect: Rect, ray: Ray): (t: real)
    ensures t == NoHit || RectHitAt(rect, ray, t)
    ensures PlaneAxis(rect).None? ==> t == NoHit
    ensures PlaneAxis(rect).Some? && Coord(ray.dir, PlaneAxis(rect).value) == 0.0 ==> t == NoHit
    ensures forall s :: RectHitAt(rect, ray, s) && Coord(ray.dir, PlaneAxis(rect).value) != 0.0 ==> t == s
  {
    match PlaneAxis(rect)
    case None => NoHit
    case Some(axis) =>
      PlaneIntersectSound(rect, ray, axis);
      PlaneIntersect(rect, ray, axis)
  }

  lemma PlaneIntersectSound(rect: Rect, ray: Ray, axis: Axis)
    requires PlaneAxis(rect) == Some(axis)
    ensures var t := PlaneIntersect(rect, ray, axis); t == NoHit || RectHitAt(rect, ray, t)
    ensures forall s :: RectHitAt(rect, ray, s) && Coord(ray.dir, axis) != 0.0 ==>
      PlaneIntersect(rect, ray, axis) == s
  {
    var d := Coord(ray.dir, axis);
    if d != 0.0 {
      var t := (Coord(rect.corner1, axis) - Coord(ray.start, axis)) / d;
      CoordGetPoint(ray, t, axis);
      forall s | RectHitAt(rect, ray, s)
        ensures s == t
      {
        CoordGetPoint(ray, s, axis);
      }
    }
  }
}
