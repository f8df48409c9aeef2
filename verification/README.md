# Ray–geometry core of a small C++ ray tracer, modelled in Dafny

The ray tracer renders a scene of checkerboard floor, spheres, cubes and square
pyramids. This project models its geometry layer:

- the 3×3 `determinant`;
- the `Point` vector algebra, in both of its copies (the guarded `normalize` of
  `1805093_def.hpp` and the unguarded one of `1805093_point.h`);
- `Color` arithmetic;
- `Ray` construction and `getPoint`;
- the closed-form intersection tests of `Rect` and `Triangle`;
- `handleIntersecttion` and `getNormal` of `Board`, `Sphere`, `Cube` and
  `Pyramid`, including the pyramid's build-once cache of side triangles;
- `Object`'s defaults, `recIntersection`, and the virtual dispatch of the two
  queries, with the pyramid's normal test as written and, separately, with it
  corrected (see "Findings").

Everything is computed over Dafny's exact `real`. The C library's `sqrt` is a
parameter `sqrt: real -> real` that every operation needing it receives
together with the requirement `IsSquareRoot(sqrt)`: `sqrt(x)` is non-negative
and squares to `x` for every `x >= 0`. An intersection that misses returns the
source's sentinel `-1` (`Rays.NoHit`). A normal that the source returns as
`NULL` is `None` of an `Option`. Objects are immutable values, so a query on a
pyramid returns the pyramid with its cache filled in alongside the answer.

Modules follow the source's classes:

| file | module | models |
|---|---|---|
| real_math.dfy | `RealMath` | `EPSILON`, `abs`, `sqrt` as a parameter, sign facts |
| vectors.dfy | `Vectors` | `Point` and both copies of its operations |
| determinant.dfy | `Determinants` | `determinant`, plus Cramer's rule |
| colors.dfy | `Colors` | `Color` |
| rays.dfy | `Rays` | `Ray`, the `-1` sentinel |
| rect.dfy | `Rects` | `Rect::calcIntersection` |
| triangle.dfy | `Triangles` | `Triangle::calcIntersection`, `Triangle::getNormal` |
| min_positive.dfy | `NearestHit` | the `tMin` loop shared by `Cube` and `Pyramid` |
| board.dfy | `Boards` | `Board` |
| sphere.dfy | `Spheres` | `Sphere` |
| cube.dfy | `Cubes` | `Cube` |
| pyramid.dfy | `Pyramids` | `Pyramid`, with the as-written and the corrected `getNormal` |
| objects.dfy | `Objects` | `Object`, `LightCoefficients`, dispatch over the four shapes, as written and corrected |
| option.dfy | `Options` | `Option<T>` |

Several details differ from the usual textbook formulation of these tests; the
model follows the code:

- The sphere test rejects only a negative discriminant (def.hpp:706). A zero
  discriminant is a tangent hit.
- The triangle test accepts any `t > 0` (def.hpp:361), not `t > EPSILON`.
- Parallel rays are detected by an exact `== 0` test (def.hpp:390 and its
  siblings), not within a tolerance.
- The rectangle test accepts `t == 0`, since only `t < 0` is rejected.

## Model

| member | source | states |
|---|---|---|
| Determinants.Determinant | Assignment-RayTracer/src/1805093_def.hpp:11-17 | the cyclic-index loop over row 0 equals the textbook cofactor expansion `a00(a11a22−a12a21) − a01(a10a22−a12a20) + a02(a10a21−a11a20)` |
| Determinants.DeterminantOfColumns | Assignment-RayTracer/src/1805093_def.hpp:11-17 | the determinant of a matrix given by three column vectors is their scalar triple product `c0 · (c1 × c2)` |
| Determinants.TripleLinear | Assignment-RayTracer/src/1805093_def.hpp:11-17 | replacing one column by `u c0 + v c1 + w c2` multiplies the determinant by that column's coefficient |
| Determinants.CramerIdentity | Assignment-RayTracer/src/1805093_def.hpp:337-359 | Cramer's rule: the three determinants with one column replaced by `r` combine the columns into `r` times the system's determinant |
| Vectors.Origin | Assignment-RayTracer/src/1805093_def.hpp:199-204 | the default `Point()` is the origin |
| Vectors.DotSelf | Assignment-RayTracer/src/1805093_def.hpp:260-263 | `p · p` is non-negative, and positive for every vector other than the origin |
| Vectors.Magnitude | Assignment-RayTracer/src/1805093_def.hpp:265-268 | the magnitude is non-negative, squares to `p · p`, and is zero exactly at the origin |
| Vectors.Normalize | Assignment-RayTracer/src/1805093_def.hpp:218-226 | a zero vector is left unchanged; any other vector becomes a unit vector that is a positive multiple of the input |
| Vectors.NormalizeIdempotent | Assignment-RayTracer/src/1805093_def.hpp:218-226 | normalising a normalised vector changes nothing |
| Vectors.InverseScaleIsUnit | Assignment-RayTracer/src/1805093_def.hpp:218-226 | dividing a vector by its length gives squared length one |
| Vectors.CrossOrthogonal | Assignment-RayTracer/src/1805093_def.hpp:252-258 | `p × q` is orthogonal to both `p` and `q` |
| Vectors.DotMultiply | Assignment-RayTracer/src/1805093_def.hpp:244-263 | scaling the first factor of a dot product scales the product |
| Vectors.DotLinear | Assignment-RayTracer/src/1805093_def.hpp:228-263 | the dot product is linear in its second factor over sums of scaled vectors |
| Vectors.NormalizeUnguarded | Assignment-RayTracer/src/1805093_point.h:13-18 | the copy without a zero guard needs a non-zero vector; it then gives a unit vector and agrees with the guarded `normalize` |
| Vectors.SubtractUndoesAdd | Assignment-RayTracer/src/1805093_point.h:20-32 | `(p + q) − q == p` and `(p − q) + q == p` |
| Vectors.MultiplyUnitAndZero | Assignment-RayTracer/src/1805093_point.h:34-39 | `multiply(1)` leaves a point unchanged and `multiply(0)` gives the origin |
| Vectors.CrossAntiCommutative | Assignment-RayTracer/src/1805093_point.h:41-46 | `q × p == −(p × q)` and `p × p` is the origin |
| Vectors.DotSymmetric | Assignment-RayTracer/src/1805093_point.h:48-50 | `p · q == q · p` |
| Colors.AddLaws | Assignment-RayTracer/src/1805093_def.hpp:272-300 | black is the identity of colour addition, which is commutative and associative |
| Colors.ScaleLaws | Assignment-RayTracer/src/1805093_def.hpp:286-300 | scaling by one is the identity, by zero gives black, scalings compose and distribute over addition |
| Rays.MakeRay | Assignment-RayTracer/src/1805093_def.hpp:309-315 | the constructor keeps the start, sets the colour to white, and makes the direction a unit positive multiple of the given one, or leaves a zero direction zero |
| Rays.MakeRayIdempotent | Assignment-RayTracer/src/1805093_def.hpp:309-315 | rebuilding a ray from its own start and direction gives the same ray |
| Rays.GetPointDistance | Assignment-RayTracer/src/1805093_def.hpp:317-320 | `getPoint(0)` is the start, `getPoint(t) − start == t · dir`, and along a unit direction `t` is the distance travelled |
| Rects.PlaneAxis | Assignment-RayTracer/src/1805093_def.hpp:387-436 | the chosen axis is one on which the corners agree, and there is none exactly when they agree on no coordinate; z is tried first, then x, then y, so equal z gives z and x is chosen only when z differs, y only when z and x differ |
| Rects.RectIntersect | Assignment-RayTracer/src/1805093_def.hpp:382-437 | −1, or a `t >= 0` whose point is in the rectangle's plane and within its corners; −1 when the corners share no coordinate or the ray is parallel to the plane; otherwise the only such `t` |
| Rects.PlaneIntersectSound | Assignment-RayTracer/src/1805093_def.hpp:387-433 | one branch of the test is sound, and unique among the parameters where a non-parallel ray meets the rectangle |
| Rects.CoordGetPoint | Assignment-RayTracer/src/1805093_def.hpp:317-320 | along the ray each coordinate changes by the matching direction component times `t` |
| Triangles.TriangleIntersect | Assignment-RayTracer/src/1805093_def.hpp:337-365 | −1, or a `t > 0` for which barycentric coordinates solving the system pass the `EPSILON` test; −1 when the system's determinant is zero; otherwise equal to every `t` that passes the test |
| Triangles.CramerSolves | Assignment-RayTracer/src/1805093_def.hpp:352-359 | with a non-zero determinant the three quotients solve `a − start == β(a − b) + γ(a − c) + t·dir` |
| Triangles.CramerUnique | Assignment-RayTracer/src/1805093_def.hpp:352-359 | with a non-zero determinant every solution of the system equals those quotients |
| Triangles.TriangleNormalPerpendicular | Assignment-RayTracer/src/1805093_def.hpp:367-372 | the normal is perpendicular to both edges `a − b` and `a − c`; it is a unit vector unless the edges are parallel, when it is zero |
| Triangles.HitOnPlane | Assignment-RayTracer/src/1805093_def.hpp:337-372 | a point where a ray hits the triangle has zero `dot` against the triangle's normal relative to `a` |
| NearestHit.FoldMin | Assignment-RayTracer/src/1805093_def.hpp:548-554 | the loop keeps −1 exactly when no `t` is positive, otherwise it keeps a positive value from the input no larger than any positive `t` |
| NearestHit.MinPositive | Assignment-RayTracer/src/1805093_def.hpp:799-809 | from `tMin = -1`: −1 exactly when no `t` is positive, otherwise the least positive `t` |
| NearestHit.FoldMinAppend | Assignment-RayTracer/src/1805093_def.hpp:548-561 | one more loop step after the loop equals the loop over the longer sequence |
| Boards.BoardIntersect | Assignment-RayTracer/src/1805093_def.hpp:464-470 | −1 or a `t >= 0` on the floor within ±100 tiles; −1 for a ray parallel to the floor; otherwise every such hit |
| Boards.BoardNormalPerpendicular | Assignment-RayTracer/src/1805093_def.hpp:472-475 | the board's normal is a unit vector perpendicular to the segment between any two board hits |
| Spheres.SelectRoot | Assignment-RayTracer/src/1805093_def.hpp:711-718 | −1 when both roots are negative, otherwise the smaller non-negative root |
| Spheres.SphereIntersect | Assignment-RayTracer/src/1805093_def.hpp:699-719 | −1 or `t >= 0`; for a unit direction, a found `t` is on the sphere and no point of the sphere at a non-negative `s` is missed or closer |
| Spheres.NoRealRoot | Assignment-RayTracer/src/1805093_def.hpp:705-707 | for a unit direction, a negative discriminant means no point of the ray is on the sphere |
| Spheres.RootsAreHits | Assignment-RayTracer/src/1805093_def.hpp:709-710 | for a unit direction, the points of the ray on the sphere are exactly those at the two roots |
| Spheres.SphereNormal | Assignment-RayTracer/src/1805093_def.hpp:721-732 | a normal exactly when the squared distance is within `EPSILON` of `r²`; then a unit positive multiple of the centre-to-point vector |
| Spheres.SphereHitHasNormal | Assignment-RayTracer/src/1805093_def.hpp:699-732 | every hit found for a unit direction gets a normal |
| Cubes.CubeIntersect | Assignment-RayTracer/src/1805093_def.hpp:787-810 | −1 exactly when no face reports a positive `t`; otherwise a positive face `t` no larger than any other positive face `t` |
| Cubes.CubeNormal | Assignment-RayTracer/src/1805093_def.hpp:812-835 | a normal exactly when the point is within `EPSILON` of one of the six face planes; the bands are tried in the order bottom, top, left, right, back, front, and the first one containing the point gives its face's axis unit normal (−z, +z, −x, +x, −y, +y) |
| Cubes.CubeHitHasNormal | Assignment-RayTracer/src/1805093_def.hpp:787-835 | every hit on the cube gets a normal |
| Cubes.FaceCornerOnCubePlanes | Assignment-RayTracer/src/1805093_def.hpp:791-796 | each face rectangle lies in one of the cube's six face planes |
| Pyramids.CalculateAllSides | Assignment-RayTracer/src/1805093_def.hpp:479-498 | afterwards the cache is built and the shape unchanged; a built cache is left alone; otherwise the four sides are appended and the base set |
| Pyramids.CalculateAllSidesIdempotent | Assignment-RayTracer/src/1805093_def.hpp:479-482 | building the cache a second time changes nothing |
| Pyramids.NewPyramidSides | Assignment-RayTracer/src/1805093_def.hpp:479-498 | a fresh pyramid's cache holds exactly its four sides and its base |
| Pyramids.CalculateAllSidesMatches | Assignment-RayTracer/src/1805093_def.hpp:479-498 | from an empty or correctly built cache, building gives the four sides and the base |
| Pyramids.BaseIsSegment | Assignment-RayTracer/src/1805093_def.hpp:495 | the base `Rect(bottom3, bottom1)` is intersected as a rectangle in the plane `z = lowest.z`, and any hit on it has `y == lowest.y` |
| Pyramids.PyramidIntersect | Assignment-RayTracer/src/1805093_def.hpp:540-562 | builds the cache; −1 exactly when no side or the base reports a positive `t`; otherwise the least positive `t` among them |
| Pyramids.FirstAccepted | Assignment-RayTracer/src/1805093_def.hpp:573-583 | the index of the first side whose value passes the test, or the count of sides when none does |
| Pyramids.SelectNormal | Assignment-RayTracer/src/1805093_def.hpp:573-585 | no normal exactly when no side passes; otherwise the normal of a side that passes with no earlier side passing |
| Pyramids.PyramidNormalAsWritten | Assignment-RayTracer/src/1805093_def.hpp:564-586 | as written: builds the cache; `−z` at the base's height; otherwise the normal of the first side whose `dot < EPSILON` |
| Pyramids.AsWrittenAnswersFirstSide | Assignment-RayTracer/src/1805093_def.hpp:579 | for any pyramid with positive width and height, the centroid of the third side lies on that side's plane, yet the as-written test answers with the first side's normal, which points the other way in x |
| Pyramids.PyramidNormal | Assignment-RayTracer/src/1805093_def.hpp:564-586 | corrected: as above, but a side's normal is returned only when `|dot| < EPSILON`, i.e. the point is near that side's plane |
| Pyramids.PyramidHitHasNormal | Assignment-RayTracer/src/1805093_def.hpp:540-586 | with the corrected test, every point where a ray hits the pyramid gets a normal |
| Pyramids.AsWrittenHitHasNormal | Assignment-RayTracer/src/1805093_def.hpp:540-586 | with the test as written, every point where a ray hits the pyramid also gets a normal, though possibly the wrong side's |
| Pyramids.HitSelected | Assignment-RayTracer/src/1805093_def.hpp:548-583 | above the base's height a hit lies on some side's plane, so any side test that accepts a zero `dot` selects a side |
| Objects.NewObject | Assignment-RayTracer/src/1805093_def.hpp:178-183 | a new object is black, with zero light coefficients and zero shininess |
| Objects.HandleIntersection | Assignment-RayTracer/src/1805093_def.hpp:92 | every shape answers −1 or a non-negative `t`; only a pyramid changes, by building its cache |
| Objects.HandleIntersectionStable | Assignment-RayTracer/src/1805093_def.hpp:92 | asking again with the object returned gives the same answer and the same object |
| Objects.RecIntersection | Assignment-RayTracer/src/1805093_def.hpp:185-195 | a negative `t` becomes −1 and a non-negative `t` is passed through |
| Objects.RecIntersectionIgnoresLevel | Assignment-RayTracer/src/1805093_def.hpp:185-195 | the recursion level never changes the result, which is the shape's own answer |
| Objects.GetNormal | Assignment-RayTracer/src/1805093_def.hpp:93 | dispatches to each shape's `getNormal`, the pyramid's as written; only a pyramid changes, by building its cache; the board's and the cube's normals are unit vectors |
| Objects.GetNormalCorrected | Assignment-RayTracer/src/1805093_def.hpp:564-586 | the same dispatch with the pyramid's side test corrected; it agrees with `GetNormal` on every other shape and at the pyramid's base height |
| Objects.HitHasNormal | Assignment-RayTracer/src/1805093_def.hpp:464-835 | wherever any shape reports a hit, it also has a normal, from both the as-written and the corrected dispatch (the sphere given a unit direction, the pyramid given a consistent cache) |

## Left out

- Every `draw()` method, `drawTriangle`, `Sphere::getSide` and `Sphere::drawSide`: OpenGL drawing and mesh generation with floating-point trigonometry.
- `1805093_main.cpp` (window setup, camera movement, key handlers), `1805093_utils.hpp` (reading the scene file) and the video script: user interface and I/O.
- The `LightSource` constructors: they only store their arguments and have no logic.
- Heap management: `new`, `delete`, the destructors and the comma-operator `delete a, b, ...`. Values are immutable here.
- `Point::copy` and `Color::copy`: the identity on immutable values.
- IEEE-754 rounding, infinities and NaN. Everything is exact over `real`, and `sqrt` is exact.
- Triangles.TriangleIntersect: a zero `aDet` is modelled as a miss. The source divides by zero there. Under IEEE the quotients are then infinite or NaN, and every such combination fails one of the four comparisons, so the source also returns −1.
- Boards.BoardIntersect: `100*width` and `100*height` are `int` products in the source; 32-bit overflow for widths above about 21 million is not modelled.
- Spheres.SphereIntersect: states that found roots lie on the sphere, and that no hit is missed, only for a unit direction. The source fixes `a = 1`, which is correct only then; for other directions the result is still −1 or non-negative.
- Objects.GetNormal: states unit length only for the board and the cube. A sphere's normal is a unit vector except at the centre, as `Spheres.SphereNormal` states. A pyramid side's normal is a unit vector unless the side is degenerate, as `Triangles.TriangleNormalPerpendicular` states.
- Objects.HitHasNormal: needs a unit direction for the sphere, which every ray built by `Ray`'s constructor from a non-zero direction has, and an empty or correctly built cache for the pyramid.
- `Object::objectType` is a free string; what the scene reader writes there is not modelled.

## Findings

| source | as written | input that shows it | evidently intended | confidence | as-written member | corrected member |
|---|---|---|---|---|---|---|
| Assignment-RayTracer/src/1805093_def.hpp:579 | `Pyramid::getNormal` returns the first side's normal when `dot < EPSILON`, with no absolute value, where `dot` is the side's normal dotted with `p − a` | a new pyramid with positive width and height, and `p` the centroid of its third side `(bottom3, bottom4, top)`: `p` is on the third side's plane, but its `dot` against the first side is negative, so the first side's normal (positive x) is returned instead of the third's (negative x) | the comment above the test says it checks whether the point is on the side, i.e. `abs(dot) < EPSILON` | not executed | Pyramids.AsWrittenAnswersFirstSide | Pyramids.PyramidNormal |
