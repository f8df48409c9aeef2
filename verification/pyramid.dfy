/**
 `Pyramid`: a square pyramid standing on `lowest`, its base corners at
 distance `width / sqrt(2)` from `lowest` along the x and y axes, its apex
 `height` above. The four side triangles and the base rectangle are built
 lazily, on the first intersection or normal query, and cached on the object;
 every query therefore returns the pyramid with its cache filled in.
 */
module Pyramids {
  import opened RealMath
  import opened Options
  import opened Vectors
  import opened Rays
  import opened Rects
  import opened Triangles
  import opened NearestHit

  /** `sideTriangles` and `bottomRect` are the cache; a new pyramid has neither. */
  datatype Pyramid = Pyramid(lowest: Point, width: real, height: real,
                             sideTriangles: seq<Triangle>, bottomRect: Option<Rect>)

  function NewPyramid(lowest: Point, width: real, height: real): Pyramid {
    Pyramid(lowest, width, height, [], None)
  }

  /** The test at the top of `calculateAllSides`. */
  predicate Built(p: Pyramid) {
    |p.sideTriangles| > 0 && p.bottomRect.Some?
  }

  /** Half the base diagonal: `width / sqrt(2)`. */
  function HalfDiagonal(p: Pyramid, sqrt: real -> real): real
    requires IsSquareRoot(sqrt)
  {
    SqrtPositive(sqrt, 2.0);
    p.width / sqrt(2.0)
  }

  /** A base corner: `lowest` moved by `dx` along x and `dy` along y. */
  function BaseCorner(lowest: Point, dx: real, dy: real): Point {
    Add(lowest, Point(dx, dy, 0.0))
  }

  /**
   The four sides of a pyramid standing on `lowest` whose base corners are `w`
   away from it and whose apex is `h` above it: each a base edge and the apex,
   going round through `bottom1 = +x`, `bottom2 = +y`, `bottom3 = -x`,
   `bottom4 = -y`.
   */
  function SidesAt(lowest: Point, w: real, h: real): seq<Triangle> {
    var b1, b2, b3, b4 := BaseCorner(lowest, w, 0.0), BaseCorner(lowest, 0.0, w),
                          BaseCorner(lowest, -w, 0.0), BaseCorner(lowest, 0.0, -w);
    var top := Add(lowest, Point(0.0, 0.0, h));
    [Triangle(b1, b2, top), Triangle(b2, b3, top), Triangle(b3, b4, top), Triangle(b4, b1, top)]
  }

  function Sides(p: Pyramid, sqrt: real -> real): seq<Triangle>
    requires IsSquareRoot(sqrt)
  {
    SidesAt(p.lowest, HalfDiagonal(p, sqrt), p.height)
  }

  /** The base as the source builds it: the rectangle with corners `bottom3` and `bottom1`. */
  function Base(p: Pyramid, sqrt: real -> real): Rect
    requires IsSquareRoot(sqrt)
  {
    var w := HalfDiagonal(p, sqrt);
    Rect(BaseCorner(p.lowest, -w, 0.0), BaseCorner(p.lowest, w, 0.0))
  }

  /**
   `calculateAllSides()`: nothing happens once the cache is built; otherwise the
   four sides are appended to the side list and the base is set. The shape
   itself never changes.
   */
  function CalculateAllSides(p: Pyramid, sqrt: real -> real): (q: Pyramid)
    requires IsSquareRoot(sqrt)
    ensures Built(q)
    ensures q.lowest == p.lowest && q.width == p.width && q.height == p.height
    ensures Built(p) ==> q == p
    ensures !Built(p) ==> q.sideTriangles == p.sideTriangles + Sides(p, sqrt) && q.bottomRect == Some(Base(p, sqrt))
  {
    if Built(p) then p
    else p.(sideTriangles := p.sideTriangles + Sides(p, sqrt), bottomRect := Some(Base(p, sqrt)))
  }

  /** Building the cache twice is the same as building it once. */
  lemma CalculateAllSidesIdempotent(p: Pyramid, sqrt: real -> real)
    requires IsSquareRoot(sqrt)
    ensures CalculateAllSides(CalculateAllSides(p, sqrt), sqrt) == CalculateAllSides(p, sqrt)
  {
  }

  /** A new pyramid's cache holds exactly its four sides and its base once built. */
  lemma NewPyramidSides(lowest: Point, width: real, height: real, sqrt: real -> real)
    requires IsSquareRoot(sqrt)
    ensures var p := NewPyramid(lowest, width, height);
      var q := CalculateAllSides(p, sqrt);
      q.sideTriangles == Sides(p, sqrt) && |q.sideTriangles| == 4 && q.bottomRect == Some(Base(p, sqrt))
  {
  }

  /**
   The base rectangle's corners share both y and z, so it is intersected as a
   rectangle in the plane `z = lowest.z` whose y-extent is the single value
   `lowest.y`: a ray can hit the base only along that line.
   */
  lemma BaseIsSegment(p: Pyramid, ray: Ray, sqrt: real -> real)
    requires IsSquareRoot(sqrt)
    ensures PlaneAxis(Base(p, sqrt)) == Some(AxisZ)
    ensures var t := RectIntersect(Base(p, sqrt), ray);
      t != NoHit ==> GetPoint(ray, t).y == p.lowest.y && GetPoint(ray, t).z == p.lowest.z
  {
  }

  /** The `t` each side reports for the ray, in order. */
  function SideTimes(sides: seq<Triangle>, ray: Ray): (ts: seq<real>)
    ensures |ts| == |sides|
    ensures forall i :: 0 <= i < |sides| ==> ts[i] == TriangleIntersect(sides[i], ray)
  {
    seq(|sides|, i requires 0 <= i < |sides| => TriangleIntersect(sides[i], ray))
  }

  /** Every `t` the pyramid looks at: one per cached side, then the base's. */
  function FaceTimes(p: Pyramid, ray: Ray): seq<real>
    requires Built(p)
  {
    SideTimes(p.sideTriangles, ray) + [RectIntersect(p.bottomRect.value, ray)]
  }

  /**
   `pyramid.handleIntersecttion(ray)`: builds the cache, runs the loop over the
   sides and one more step for the base. The result is a miss exactly when no
   face reports a positive `t`, and otherwise the least positive `t` reported.
   */
  function PyramidIntersect(p: Pyramid, ray: Ray, sqrt: real -> real): (res: (real, Pyramid))
    requires IsSquareRoot(sqrt)
    ensures res.1 == CalculateAllSides(p, sqrt)
    ensures var ts := FaceTimes(res.1, ray);
      res.0 == NoHit <==> forall i :: 0 <= i < |ts| ==> ts[i] <= 0.0
    ensures var ts := FaceTimes(res.1, ray);
      res.0 != NoHit ==> res.0 > 0.0 && res.0 in ts && forall i :: 0 <= i < |ts| && ts[i] > 0.0 ==> res.0 <= ts[i]
  {
    var q := CalculateAllSides(p, sqrt);
    var tMin := FoldMin(NoHit, SideTimes(q.sideTriangles, ray));
    var t := RectIntersect(q.bottomRect.value, ray);
    FoldMinAppend(NoHit, SideTimes(q.sideTriangles, ray), t);
    (Step(tMin, t), q)
  }

  /** The normal of each side, in order. */
  function SideNormals(sides: seq<Triangle>, sqrt: real -> real): (normals: seq<Point>)
    requires IsSquareRoot(sqrt)
    ensures |normals| == |sides|
    ensures forall i :: 0 <= i < |sides| ==> normals[i] == TriangleNormal(sides[i], sqrt)
  {
    seq(|sides|, i requires 0 <= i < |sides| => TriangleNormal(sides[i], sqrt))
  }

  /** What the normal loop compares with `Epsilon`, side by side: `normal . (p - a)`. */
  function SideDots(sides: seq<Triangle>, p: Point, sqrt: real -> real): (dots: seq<real>)
    requires IsSquareRoot(sqrt)
    ensures |dots| == |sides|
    ensures forall i :: 0 <= i < |sides| ==> dots[i] == Dot(SideNormals(sides, sqrt)[i], Subtract(p, sides[i].a))
  {
    var normals := SideNormals(sides, sqrt);
    seq(|sides|, i requires 0 <= i < |sides| => Dot(normals[i], Subtract(p, sides[i].a)))
  }

  /**
   The loop over the sides in `getNormal`, from side `i` on: the index of the
   first side whose value in `dots` passes `accept`, or `|dots|` when none does.
   */
  function FirstAccepted(dots: seq<real>, i: nat, accept: real -> bool): (k: nat)
    requires i <= |dots|
    ensures i <= k <= |dots|
    ensures k < |dots| ==> accept(dots[k])
    ensures forall j :: i <= j < k ==> !accept(dots[j])
    decreases |dots| - i
  {
    if i == |dots| then i
    else if accept(dots[i]) then i
    else FirstAccepted(dots, i + 1, accept)
  }

  /** The source's test on a side's `dot`. */
  predicate BelowEpsilon(d: real) {
    d < Epsilon
  }

  /** The test the comment in the source describes: the point is within `Epsilon` of the plane. */
  predicate NearZero(d: real) {
    Abs(d) < Epsilon
  }

  /**
   `n` is what a loop over the sides returns when it keeps the first side whose
   `dot` passes `accept`: that side's normal, or none when no side passes.
   */
  predicate FirstAcceptedNormal(n: Option<Point>, normals: seq<Point>, dots: seq<real>, accept: real -> bool)
    requires |normals| == |dots|
  {
    && (n.None? <==> forall i :: 0 <= i < |dots| ==> !accept(dots[i]))
    && (n.Some? ==> exists i :: 0 <= i < |dots| && n == Some(normals[i]) && accept(dots[i])
                                && forall j :: 0 <= j < i ==> !accept(dots[j]))
  }

  /** The loop over the sides in `getNormal`, given each side's normal and `dot`. */
  function SelectNormal(normals: seq<Point>, dots: seq<real>, accept: real -> bool): (n: Option<Point>)
    requires |normals| == |dots|
    ensures FirstAcceptedNormal(n, normals, dots, accept)
  {
    var k := FirstAccepted(dots, 0, accept);
    if k < |dots| then Some(normals[k]) else None
  }

  /**
   `pyramid.getNormal(p)` as written: `-z` for a point at the base's height;
   otherwise the normal of the first side with `normal . (p - a) < EPSILON`,
   with no absolute value. Every side's normal points outward, so a point of
   the pyramid has a non-positive `dot` against any side and the loop stops at
   the first side even for a point of another side (see
   `AsWrittenAnswersFirstSide`).
   */
  function PyramidNormalAsWritten(p: Pyramid, point: Point, sqrt: real -> real): (res: (Option<Point>, Pyramid))
    requires IsSquareRoot(sqrt)
    ensures res.1 == CalculateAllSides(p, sqrt)
    ensures point.z == p.lowest.z ==> res.0 == Some(Point(0.0, 0.0, -1.0))
    ensures var sides := res.1.sideTriangles;
      point.z != p.lowest.z ==> FirstAcceptedNormal(res.0, SideNormals(sides, sqrt), SideDots(sides, point, sqrt), BelowEpsilon)
  {
    var q := CalculateAllSides(p, sqrt);
    if point.z == p.lowest.z then (Some(Point(0.0, 0.0, -1.0)), q)
    else (SelectNormal(SideNormals(q.sideTriangles, sqrt), SideDots(q.sideTriangles, point, sqrt), BelowEpsilon), q)
  }

  /**
   `pyramid.getNormal(p)` with the test its comment describes, "is the point on
   this side": `|normal . (p - a)| < EPSILON`. A side's normal is returned only
   for a point within `Epsilon` of that side's plane, and no normal when the
   point is near no side's plane and not at the base's height.
   */
  function PyramidNormal(p: Pyramid, point: Point, sqrt: real -> real): (res: (Option<Point>, Pyramid))
    requires IsSquareRoot(sqrt)
    ensures res.1 == CalculateAllSides(p, sqrt)
    ensures point.z == p.lowest.z ==> res.0 == Some(Point(0.0, 0.0, -1.0))
    ensures var sides := res.1.sideTriangles;
      point.z != p.lowest.z ==> FirstAcceptedNormal(res.0, SideNormals(sides, sqrt), SideDots(sides, point, sqrt), NearZero)
  {
    var q := CalculateAllSides(p, sqrt);
    if point.z == p.lowest.z then (Some(Point(0.0, 0.0, -1.0)), q)
    else (SelectNormal(SideNormals(q.sideTriangles, sqrt), SideDots(q.sideTriangles, point, sqrt), NearZero), q)
  }

  /**
   The cache is empty, or holds exactly this pyramid's four sides and base:
   the states a pyramid passes through in the ray tracer.
   */
  predicate CacheMatches(p: Pyramid, sqrt: real -> real)
    requires IsSquareRoot(sqrt)
  {
    p.sideTriangles == [] || (p.sideTriangles == Sides(p, sqrt) && p.bottomRect == Some(Base(p, sqrt)))
  }

  /** From either of those states the built cache holds the four sides and the base. */
  lemma CalculateAllSidesMatches(p: Pyramid, sqrt: real -> real)
    requires IsSquareRoot(sqrt) && CacheMatches(p, sqrt)
    ensures var q := CalculateAllSides(p, sqrt);
      q.sideTriangles == Sides(p, sqrt) && q.bottomRect == Some(Base(p, sqrt)) && CacheMatches(q, sqrt)
  {
  }

  /**
   Every point where a ray hits the pyramid gets a normal from the corrected
   test: a side's hit lies in that side's plane, so its `dot` is zero, and a
   hit on the base is at the base's height.
   */
  lemma PyramidHitHasNormal(p: Pyramid, ray: Ray, sqrt: real -> real)
    requires IsSquareRoot(sqrt) && CacheMatches(p, sqrt)
    requires PyramidIntersect(p, ray, sqrt).0 != NoHit
    ensures PyramidNormal(p, GetPoint(ray, PyramidIntersect(p, ray, sqrt).0), sqrt).0.Some?
  {
    HitSelected(p, ray, sqrt, NearZero);
  }

  /**
   The as-written test also gives every hit a normal, since a zero `dot` is
   below `Epsilon`; it may be the normal of the wrong side (see
   `AsWrittenAnswersFirstSide`).
   */
  lemma AsWrittenHitHasNormal(p: Pyramid, ray: Ray, sqrt: real -> real)
    requires IsSquareRoot(sqrt) && CacheMatches(p, sqrt)
    requires PyramidIntersect(p, ray, sqrt).0 != NoHit
    ensures PyramidNormalAsWritten(p, GetPoint(ray, PyramidIntersect(p, ray, sqrt).0), sqrt).0.Some?
  {
    HitSelected(p, ray, sqrt, BelowEpsilon);
  }

  /**
   Above the base's height, a hit point has a side whose `dot` is zero, so a
   side test that accepts zero selects some side.
   */
  lemma HitSelected(p: Pyramid, ray: Ray, sqrt: real -> real, accept: real -> bool)
    requires IsSquareRoot(sqrt) && CacheMatches(p, sqrt) && accept(0.0)
    requires PyramidIntersect(p, ray, sqrt).0 != NoHit
    ensures var point := GetPoint(ray, PyramidIntersect(p, ray, sqrt).0);
      var sides := CalculateAllSides(p, sqrt).sideTriangles;
      point.z != p.lowest.z ==> SelectNormal(SideNormals(sides, sqrt), SideDots(sides, point, sqrt), accept).Some?
  {
    var q := CalculateAllSides(p, sqrt);
    CalculateAllSidesMatches(p, sqrt);
    var t := PyramidIntersect(p, ray, sqrt).0;
    var ts := FaceTimes(q, ray);
    var i :| 0 <= i < |ts| && ts[i] == t;
    if GetPoint(ray, t).z != p.lowest.z {
      if i < |q.sideTriangles| {
        assert TriangleHitAt(q.sideTriangles[i], ray, t);
        SideHitSelected(q.sideTriangles, i, ray, t, sqrt, accept);
      } else {
        BaseIsSegment(p, ray, sqrt);
        assert false;
      }
    }
  }

  /** A hit on side `i` has a zero `dot` against that side, so some side passes a test that accepts zero. */
  lemma SideHitSelected(sides: seq<Triangle>, i: int, ray: Ray, t: real, sqrt: real -> real, accept: real -> bool)
    requires IsSquareRoot(sqrt) && 0 <= i < |sides| && TriangleHitAt(sides[i], ray, t) && accept(0.0)
    ensures SelectNormal(SideNormals(sides, sqrt), SideDots(sides, GetPoint(ray, t), sqrt), accept).Some?
  {
    HitOnPlane(sides[i], ray, t, sqrt);
    assert SideDots(sides, GetPoint(ray, t), sqrt)[i] == 0.0;
  }

  /** The centroid of a triangle: a point of its plane, inside it. */
  function Centroid(tri: Triangle): Point {
    Point((tri.a.x + tri.b.x + tri.c.x) / 3.0, (tri.a.y + tri.b.y + tri.c.y) / 3.0, (tri.a.z + tri.b.z + tri.c.z) / 3.0)
  }

  /**
   The as-written normal test answers with the first side for a point of the
   third side. Take a new pyramid with positive width and height, and the
   centroid of its side `(bottom3, bottom4, top)`. That point lies on the third
   side's plane, but its `dot` against the first side is negative, so the loop
   stops there. The first side's normal has a positive x component and the
   third side's a negative one, so the answer is not the normal of the face
   that was hit.
   */
  lemma AsWrittenAnswersFirstSide(lowest: Point, width: real, height: real, sqrt: real -> real)
    requires IsSquareRoot(sqrt) && width > 0.0 && height > 0.0
    ensures var p := NewPyramid(lowest, width, height);
      var sides := Sides(p, sqrt);
      var c := Centroid(sides[2]);
      && PyramidNormalAsWritten(p, c, sqrt).0 == Some(TriangleNormal(sides[0], sqrt))
      && Dot(TriangleNormal(sides[2], sqrt), Subtract(c, sides[2].a)) == 0.0
      && TriangleNormal(sides[0], sqrt).x > 0.0
      && TriangleNormal(sides[2], sqrt).x < 0.0
  {
    var p := NewPyramid(lowest, width, height);
    SqrtPositive(sqrt, 2.0);
    var w := HalfDiagonal(p, sqrt);
    CentroidOfThirdSide(lowest, w, height, sqrt);
    var sides := Sides(p, sqrt);
    assert CalculateAllSides(p, sqrt).sideTriangles == sides;
    AsWrittenStopsAtFirst(p, Centroid(sides[2]), sqrt);
  }

  /**
   For any positive `w` and `h`, the centroid of the third side is on that
   side's plane and strictly inside the first side's half-space, and the two
   sides' normals point in opposite x directions.
   */
  lemma CentroidOfThirdSide(lowest: Point, w: real, h: real, sqrt: real -> real)
    requires IsSquareRoot(sqrt) && w > 0.0 && h > 0.0
    ensures var sides := SidesAt(lowest, w, h);
      var c := Centroid(sides[2]);
      && Dot(TriangleNormal(sides[0], sqrt), Subtract(c, sides[0].a)) < 0.0
      && Dot(TriangleNormal(sides[2], sqrt), Subtract(c, sides[2].a)) == 0.0
      && TriangleNormal(sides[0], sqrt).x > 0.0
      && TriangleNormal(sides[2], sqrt).x < 0.0
  {
    var sides := SidesAt(lowest, w, h);
    var c := Centroid(sides[2]);
    SideZeroCross(lowest, w, h);
    SideTwoCross(lowest, w, h);
    CentroidOffsets(lowest, w, h);
    CentroidSigns(w, h);
    NormalSigns(sides[0], Subtract(c, sides[0].a), sqrt);
    NormalSigns(sides[2], Subtract(c, sides[2].a), sqrt);
  }

  /** The signs of the quantities the counterexample depends on. */
  lemma CentroidSigns(w: real, h: real)
    requires w > 0.0 && h > 0.0
    ensures Mul(w, h) > 0.0
    ensures Dot(Point(Mul(w, h), Mul(w, h), Mul(w, w)), Point(-(4.0 / 3.0) * w, -w / 3.0, h / 3.0)) < 0.0
    ensures Dot(Point(-Mul(w, h), -Mul(w, h), Mul(w, w)), Point((2.0 / 3.0) * w, -w / 3.0, h / 3.0)) == 0.0
  {
    MulPositive(w, h);
    MulPositive(w, w);
    MulPositive(Mul(w, w), h);
    assert Dot(Point(Mul(w, h), Mul(w, h), Mul(w, w)), Point(-(4.0 / 3.0) * w, -w / 3.0, h / 3.0))
        == -(4.0 / 3.0) * Mul(Mul(w, w), h);
  }

  /**
   A triangle's normal is a positive multiple of its edges' cross product, so
   it keeps the sign of every component and of every dot product.
   */
  lemma NormalSigns(tri: Triangle, d: Point, sqrt: real -> real)
    requires IsSquareRoot(sqrt)
    ensures var e := Cross(Subtract(tri.a, tri.b), Subtract(tri.a, tri.c)); var n := TriangleNormal(tri, sqrt);
      && (e.x > 0.0 ==> n.x > 0.0)
      && (e.x < 0.0 ==> n.x < 0.0)
      && (Dot(e, d) < 0.0 ==> Dot(n, d) < 0.0)
      && (Dot(e, d) == 0.0 ==> Dot(n, d) == 0.0)
  {
    NormalizedSigns(Cross(Subtract(tri.a, tri.b), Subtract(tri.a, tri.c)), d, sqrt);
  }

  /** Normalising keeps the sign of the first component and of a dot product. */
  lemma NormalizedSigns(e: Point, d: Point, sqrt: real -> real)
    requires IsSquareRoot(sqrt)
    ensures var n := Normalize(e, sqrt);
      && (e.x > 0.0 ==> n.x > 0.0)
      && (e.x < 0.0 ==> n.x < 0.0)
      && (Dot(e, d) < 0.0 ==> Dot(n, d) < 0.0)
      && (Dot(e, d) == 0.0 ==> Dot(n, d) == 0.0)
  {
    var n := Normalize(e, sqrt);
    if e == Origin() {
      assert n == e;
    } else {
      var k := NormalizeFactor(e, sqrt);
      ScaledSigns(e, k, n, d);
    }
  }

  /** A positive multiple keeps the sign of the first component and of a dot product. */
  lemma ScaledSigns(e: Point, k: real, n: Point, d: Point)
    requires 0.0 < k && n == Multiply(e, k)
    ensures e.x > 0.0 ==> n.x > 0.0
    ensures e.x < 0.0 ==> n.x < 0.0
    ensures Dot(e, d) < 0.0 ==> Dot(n, d) < 0.0
    ensures Dot(e, d) == 0.0 ==> Dot(n, d) == 0.0
  {
    DotMultiply(e, k, d);
    if e.x > 0.0 {
      MulPositive(e.x, k);
    } else if e.x < 0.0 {
      MulPositive(-e.x, k);
    }
    if Dot(e, d) < 0.0 {
      MulPositive(k, -Dot(e, d));
    }
  }

  /** When the point is above the base and the first side's `dot` is below `Epsilon`, the first side answers. */
  lemma AsWrittenStopsAtFirst(p: Pyramid, point: Point, sqrt: real -> real)
    requires IsSquareRoot(sqrt) && point.z != p.lowest.z
    requires var sides := CalculateAllSides(p, sqrt).sideTriangles;
      |sides| > 0 && Dot(TriangleNormal(sides[0], sqrt), Subtract(point, sides[0].a)) < Epsilon
    ensures PyramidNormalAsWritten(p, point, sqrt).0 == Some(TriangleNormal(CalculateAllSides(p, sqrt).sideTriangles[0], sqrt))
  {
    FirstSideAnswers(CalculateAllSides(p, sqrt).sideTriangles, point, sqrt);
  }

  lemma FirstSideAnswers(sides: seq<Triangle>, point: Point, sqrt: real -> real)
    requires IsSquareRoot(sqrt)
    requires |sides| > 0 && Dot(TriangleNormal(sides[0], sqrt), Subtract(point, sides[0].a)) < Epsilon
    ensures SelectNormal(SideNormals(sides, sqrt), SideDots(sides, point, sqrt), BelowEpsilon)
         == Some(TriangleNormal(sides[0], sqrt))
  {
    var dots := SideDots(sides, point, sqrt);
    assert BelowEpsilon(dots[0]);
  }

  /** The cross product of the first side's edges. */
  lemma SideZeroCross(lowest: Point, w: real, h: real)
    ensures var side := SidesAt(lowest, w, h)[0];
      Cross(Subtract(side.a, side.b), Subtract(side.a, side.c)) == Point(Mul(w, h), Mul(w, h), Mul(w, w))
  {
  }

  /** The cross product of the third side's edges. */
  lemma SideTwoCross(lowest: Point, w: real, h: real)
    ensures var side := SidesAt(lowest, w, h)[2];
      Cross(Subtract(side.a, side.b), Subtract(side.a, side.c)) == Point(-Mul(w, h), -Mul(w, h), Mul(w, w))
  {
  }

  /** Where the third side's centroid lies relative to `bottom1` and `bottom3`. */
  lemma CentroidOffsets(lowest: Point, w: real, h: real)
    ensures var sides := SidesAt(lowest, w, h);
      var c := Centroid(sides[2]);
      && Subtract(c, sides[0].a) == Point(-(4.0 / 3.0) * w, -w / 3.0, h / 3.0)
      && Subtract(c, sides[2].a) == Point((2.0 / 3.0) * w, -w / 3.0, h / 3.0)
      && c.z == lowest.z + h / 3.0
  {
  }
}
