/**
 `Object`: the common part of every scene object (its type name, colour, light
 coefficients and shininess) and the dispatch of the intersection and normal
 queries to the concrete shape. The C++ class hierarchy becomes a `Shape`
 datatype with one constructor per subclass.
 */
module Objects {
  import opened RealMath
  import opened Options
  import opened Vectors
  import Colors
  import opened Rays
  import opened Boards
  import opened Pyramids
  import opened Spheres
  import opened Cubes

  /** `LightCoefficients`: four plain numbers. */
  datatype LightCoefficients = LightCoefficients(ambient: real, diffuse: real, specular: real, reflection: real)

  /** The concrete subclass of an object, with its own fields. */
  datatype Shape =
    | BoardShape(board: Board)
    | PyramidShape(pyramid: Pyramid)
    | SphereShape(sphere: Sphere)
    | CubeShape(cube: Cube)

  datatype Object = Object(objectType: string, color: Colors.Color, lightCoefficients: LightCoefficients,
                           shininess: real, shape: Shape)

  /**
   `Object()`: black, all light coefficients zero, shininess zero, and the
   type name left empty.
   */
  function NewObject(shape: Shape): (obj: Object)
    ensures obj.shape == shape && obj.objectType == ""
    ensures obj.color == Colors.Black() && obj.shininess == 0.0
    ensures obj.lightCoefficients.ambient == 0.0 && obj.lightCoefficients.diffuse == 0.0
    ensures obj.lightCoefficients.specular == 0.0 && obj.lightCoefficients.reflection == 0.0
  {
    Object("", Colors.Black(), LightCoefficients(0.0, 0.0, 0.0, 0.0), 0.0, shape)
  }

  /** `obj'` is `obj` with, at most, its pyramid's cache built. */
  predicate SameObject(obj: Object, obj': Object, sqrt: real -> real)
    requires IsSquareRoot(sqrt)
  {
    && obj'.objectType == obj.objectType && obj'.color == obj.color
    && obj'.lightCoefficients == obj.lightCoefficients && obj'.shininess == obj.shininess
    && (if obj.shape.PyramidShape? then obj'.shape == PyramidShape(CalculateAllSides(obj.shape.pyramid, sqrt))
        else obj'.shape == obj.shape)
  }

  /**
   The virtual `handleIntersecttion(ray)`, dispatched on the shape. Every
   shape answers a miss or a non-negative `t`; only a pyramid changes, by
   building its cache.
   */
  function HandleIntersection(obj: Object, ray: Ray, sqrt: real -> real): (res: (real, Object))
    requires IsSquareRoot(sqrt)
    ensures res.0 == NoHit || res.0 >= 0.0
    ensures SameObject(obj, res.1, sqrt)
  {
    match obj.shape
    case BoardShape(board) => (BoardIntersect(board, ray), obj)
    case PyramidShape(pyramid) =>
      var (t, pyramid') := PyramidIntersect(pyramid, ray, sqrt);
      (t, obj.(shape := PyramidShape(pyramid')))
    case SphereShape(sphere) => (SphereIntersect(sphere, ray, sqrt), obj)
    case CubeShape(cube) => (CubeIntersect(cube, ray), obj)
  }

  /** Asking again, with the object the first query returned, gives the same answer and changes nothing. */
  lemma HandleIntersectionStable(obj: Object, ray: Ray, sqrt: real -> real)
    requires IsSquareRoot(sqrt)
    ensures var (t, obj') := HandleIntersection(obj, ray, sqrt);
      HandleIntersection(obj', ray, sqrt) == (t, obj')
  {
    if obj.shape.PyramidShape? {
      CalculateAllSidesIdempotent(obj.shape.pyramid, sqrt);
    }
  }

  /**
   `obj.recIntersection(ray, recLevel)`: a negative `t` becomes `-1`, and any
   other `t` is passed through whatever the level; the level test has no
   effect, since both of its branches return `t`.
   */
  function RecIntersection(obj: Object, ray: Ray, recLevel: int, sqrt: real -> real): (res: (real, Object))
    requires IsSquareRoot(sqrt)
    ensures var (t, obj') := HandleIntersection(obj, ray, sqrt);
      && (t < 0.0 ==> res.0 == NoHit)
      && (t >= 0.0 ==> res.0 == t)
      && res.1 == obj'
  {
    var (t, obj') := HandleIntersection(obj, ray, sqrt);
    if t < 0.0 then (NoHit, obj')
    else if recLevel == 0 then (t, obj')
    else (t, obj')
  }

  /** The recursion level never changes the result. */
  lemma RecIntersectionIgnoresLevel(obj: Object, ray: Ray, level: int, level': int, sqrt: real -> real)
    requires IsSquareRoot(sqrt)
    ensures RecIntersection(obj, ray, level, sqrt) == RecIntersection(obj, ray, level', sqrt)
    ensures RecIntersection(obj, ray, level, sqrt) == HandleIntersection(obj, ray, sqrt)
  {
  }

  /**
   The virtual `getNormal(p)`, dispatched on the shape. A pyramid answers with
   its side test as written and returns itself with its cache built.
   */
  function GetNormal(obj: Object, p: Point, sqrt: real -> real): (res: (Option<Point>, Object))
    requires IsSquareRoot(sqrt)
    ensures SameObject(obj, res.1, sqrt)
    ensures res.0.Some? && !obj.shape.PyramidShape? && !obj.shape.SphereShape? ==> Dot(res.0.value, res.0.value) == 1.0
  {
    match obj.shape
    case BoardShape(board) => (BoardNormal(board, p), obj)
    case PyramidShape(pyramid) =>
      var (n, pyramid') := PyramidNormalAsWritten(pyramid, p, sqrt);
      (n, obj.(shape := PyramidShape(pyramid')))
    case SphereShape(sphere) => (SphereNormal(sphere, p, sqrt), obj)
    case CubeShape(cube) => (CubeNormal(cube, p), obj)
  }

  /**
   `getNormal(p)` with the pyramid's side test corrected to
   `|normal . (p - a)| < EPSILON`; every other shape answers as in `GetNormal`.
   */
  function GetNormalCorrected(obj: Object, p: Point, sqrt: real -> real): (res: (Option<Point>, Object))
    requires IsSquareRoot(sqrt)
    ensures SameObject(obj, res.1, sqrt)
    ensures !obj.shape.PyramidShape? ==> res == GetNormal(obj, p, sqrt)
    ensures obj.shape.PyramidShape? && p.z == obj.shape.pyramid.lowest.z ==> res.0 == GetNormal(obj, p, sqrt).0
  {
    match obj.shape
    case PyramidShape(pyramid) =>
      var (n, pyramid') := PyramidNormal(pyramid, p, sqrt);
      (n, obj.(shape := PyramidShape(pyramid')))
    case _ => GetNormal(obj, p, sqrt)
  }

  /**
   The ray tracer asks for the normal where an intersection was found; every
   shape then has one, with the pyramid's side test as written or corrected.
   A sphere needs the unit direction its intersection test assumes, and a
   pyramid a cache that is empty or built from its own fields.
   */
  lemma HitHasNormal(obj: Object, ray: Ray, sqrt: real -> real)
    requires IsSquareRoot(sqrt)
    requires obj.shape.SphereShape? ==> Dot(ray.dir, ray.dir) == 1.0
    requires obj.shape.PyramidShape? ==> CacheMatches(obj.shape.pyramid, sqrt)
    requires HandleIntersection(obj, ray, sqrt).0 != NoHit
    ensures var t := HandleIntersection(obj, ray, sqrt).0;
      GetNormal(obj, GetPoint(ray, t), sqrt).0.Some? && GetNormalCorrected(obj, GetPoint(ray, t), sqrt).0.Some?
  {
    match obj.shape
    case BoardShape(_) =>
    case PyramidShape(pyramid) =>
      AsWrittenHitHasNormal(pyramid, ray, sqrt);
      PyramidHitHasNormal(pyramid, ray, sqrt);
    case SphereShape(sphere) => SphereHitHasNormal(sphere, ray, sqrt);
    case CubeShape(cube) => CubeHitHasNormal(cube, ray);
  }
}
