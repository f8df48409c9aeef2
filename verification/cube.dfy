/**
 `Cube`: an axis-aligned cube given by its bottom-left-front corner and side.
 Its intersection is the least positive `t` over six face rectangles; its
 normal is chosen by testing the point against six `Epsilon`-wide bands around
 the face planes in a fixed order.
 */
module Cubes {
  import opened RealMath
  import opened Options
  import opened Vectors
  import opened Rays
  import opened Rects
  import opened NearestHit

  datatype Cube = Cube(bottomLeftFront: Point, side: real)

  /** The six rectangles the source builds: bottom, left, back, right, front, top. */
  function Faces(cube: Cube): (faces: seq<Rect>)
    ensures |faces| == 6
  {
    var o, s := cube.bottomLeftFront, cube.side;
    [ Rect(Point(o.x, o.y, o.z), Point(o.x + s, o.y + s, o.z)),
      Rect(Point(o.x, o.y, o.z), Point(o.x, o.y + s, o.z + s)),
      Rect(Point(o.x, o.y, o.z), Point(o.x + s, o.y, o.z + s)),
      Rect(Point(o.x + s, o.y, o.z), Point(o.x + s, o.y + s, o.z + s)),
      Rect(Point(o.x, o.y + s, o.z), Point(o.x + s, o.y + s, o.z + s)),
      Rect(Point(o.x, o.y, o.z + s), Point(o.x + s, o.y + s, o.z + s)) ]
  }

  /** The `t` each face reports for the ray, in order. */
  function FaceTimes(rects: seq<Rect>, ray: Ray): (ts: seq<real>)
    ensures |ts| == |rects|
    ensures forall i :: 0 <= i < |rects| ==> ts[i] == RectIntersect(rects[i], ray)
  {
    seq(|rects|, i requires 0 <= i < |rects| => RectIntersect(rects[i], ray))
  }

  /**
   `cube.handleIntersecttion(ray)`: a miss exactly when no face reports a
   positive `t`; otherwise a positive `t` at which the ray hits some face, and
   no face reports a smaller positive one.
   */
  function CubeIntersect(cube: Cube, ray: Ray): (t: real)
    ensures t == NoHit <==> forall i :: 0 <= i < 6 ==> RectIntersect(Faces(cube)[i], ray) <= 0.0
    ensures t != NoHit ==> t > 0.0 && exists i :: 0 <= i < 6 && RectIntersect(Faces(cube)[i], ray) == t
    ensures t != NoHit ==> forall i :: 0 <= i < 6 && RectIntersect(Faces(cube)[i], ray) > 0.0 ==>
      t <= RectIntersect(Faces(cube)[i], ray)
  {
    var ts := FaceTimes(Faces(cube), ray);
    var t := MinPositive(ts);
    assert t != NoHit ==> exists i :: 0 <= i < 6 && ts[i] == t;
    t
  }

  /** `p` is within `Epsilon` of the plane where coordinate `axis` equals `v`. */
  predicate NearPlane(p: Point, axis: Axis, v: real) {
    v - Epsilon <= Coord(p, axis) <= v + Epsilon
  }

  /** `p` is within `Epsilon` of one of the six face planes. */
  predicate NearSomeFace(cube: Cube, p: Point) {
    var o, s := cube.bottomLeftFront, cube.side;
    || NearPlane(p, AxisZ, o.z) || NearPlane(p, AxisZ, o.z + s)
    || NearPlane(p, AxisX, o.x) || NearPlane(p, AxisX, o.x + s)
    || NearPlane(p, AxisY, o.y) || NearPlane(p, AxisY, o.y + s)
  }

  /** The outward unit normals of the six faces. */
  predicate IsAxisNormal(n: Point) {
    n in {Point(0.0, 0.0, -1.0), Point(0.0, 0.0, 1.0), Point(-1.0, 0.0, 0.0),
          Point(1.0, 0.0, 0.0), Point(0.0, -1.0, 0.0), Point(0.0, 1.0, 0.0)}
  }

  /**
   `cube.getNormal(p)`: the bands are tried bottom, top, left, right, back,
   front; the first one containing `p` gives the unit normal pointing away
   from the cube through that face. A point in no band gets none.
   */
  function CubeNormal(cube: Cube, p: Point): (n: Option<Point>)
    ensures n.Some? <==> NearSomeFace(cube, p)
    ensures n.Some? ==> IsAxisNormal(n.value) && Dot(n.value, n.value) == 1.0
    ensures var o, s := cube.bottomLeftFront, cube.side;
      var bottom, top := NearPlane(p, AxisZ, o.z), NearPlane(p, AxisZ, o.z + s);
      var left, right := NearPlane(p, AxisX, o.x), NearPlane(p, AxisX, o.x + s);
      var back, front := NearPlane(p, AxisY, o.y), NearPlane(p, AxisY, o.y + s);
      && (bottom ==> n == Some(Point(0.0, 0.0, -1.0)))
      && (!bottom && top ==> n == Some(Point(0.0, 0.0, 1.0)))
      && (!bottom && !top && left ==> n == Some(Point(-1.0, 0.0, 0.0)))
      && (!bottom && !top && !left && right ==> n == Some(Point(1.0, 0.0, 0.0)))
      && (!bottom && !top && !left && !right && back ==> n == Some(Point(0.0, -1.0, 0.0)))
      && (!bottom && !top && !left && !right && !back && front ==> n == Some(Point(0.0, 1.0, 0.0)))
  {
    var o, s := cube.bottomLeftFront, cube.side;
    if NearPlane(p, AxisZ, o.z) then Some(Point(0.0, 0.0, -1.0))
    else if NearPlane(p, AxisZ, o.z + s) then Some(Point(0.0, 0.0, 1.0))
    else if NearPlane(p, AxisX, o.x) then Some(Point(-1.0, 0.0, 0.0))
    else if NearPlane(p, AxisX, o.x + s) then Some(Point(1.0, 0.0, 0.0))
    else if NearPlane(p, AxisY, o.y) then Some(Point(0.0, -1.0, 0.0))
    else if NearPlane(p, AxisY, o.y + s) then Some(Point(0.0, 1.0, 0.0))
    else None
  }

  /** Every point where the ray hits the cube gets a normal. */
  lemma CubeHitHasNormal(cube: Cube, ray: Ray)
    requires CubeIntersect(cube, ray) != NoHit
    ensures CubeNormal(cube, GetPoint(ray, CubeIntersect(cube, ray))).Some?
  {
    var t := CubeIntersect(cube, ray);
    var i :| 0 <= i < 6 && RectIntersect(Faces(cube)[i], ray) == t;
    var face := Faces(cube)[i];
    assert RectHitAt(face, ray, t);
    var axis := PlaneAxis(face).value;
    FaceCornerOnCubePlanes(cube, i, axis);
  }

  /** The first corner of every face lies on one of the cube's six face planes, whatever the axis. */
  lemma FaceCornerOnCubePlanes(cube: Cube, i: nat, axis: Axis)
    requires i < 6
    ensures var o, s, c := cube.bottomLeftFront, cube.side, Coord(Faces(cube)[i].corner1, axis);
      || (axis == AxisZ && (c == o.z || c == o.z + s))
      || (axis == AxisX && (c == o.x || c == o.x + s))
      || (axis == AxisY && (c == o.y || c == o.y + s))
  {
  }
}
