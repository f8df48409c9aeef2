/**
 `Board`: the checkerboard floor. Its intersection test is one rectangle in
 the plane `z = 0` spanning `-100 * width .. 100 * width` by
 `-100 * height .. 100 * height`; its normal is always `+z`.
 */
module Boards {
  import opened Options
  import opened Vectors
  import opened Rays
  import opened Rects

  /** `width` and `height` are `int` fields in the source. */
  datatype Board = Board(width: int, height: int)

  function BoardRect(board: Board): Rect {
    Rect(Point((-100 * board.width) as real, (-100 * board.height) as real, 0.0),
         Point((100 * board.width) as real, (100 * board.height) as real, 0.0))
  }

  /** The ray's point at `t` lies on the floor, inside the board's extent. */
  predicate OnBoard(board: Board, ray: Ray, t: real) {
    var p := GetPoint(ray, t);
    && p.z == 0.0
    && Between((-100 * board.width) as real, p.x, (100 * board.width) as real)
    && Between((-100 * board.height) as real, p.y, (100 * board.height) as real)
  }

  /**
   `board.handleIntersecttion(ray)`: a miss, or a non-negative `t` whose point is
   on the board; a ray that is not parallel to the floor and meets the board at
   some non-negative `s` gets exactly that `s`.
   */
  function BoardIntersect(board: Board, ray: Ray): (t: real)
    ensures t == NoHit || (t >= 0.0 && OnBoard(board, ray, t))
    ensures ray.dir.z == 0.0 ==> t == NoHit
    ensures forall s :: 0.0 <= s && OnBoard(board, ray, s) && ray.dir.z != 0.0 ==> t == s
  {
    var rect := BoardRect(board);
    assert PlaneAxis(rect) == Some(AxisZ);
    assert forall s :: 0.0 <= s && OnBoard(board, ray, s) ==> RectHitAt(rect, ray, s);
    RectIntersect(rect, ray)
  }

  /** `board.getNormal(p)`: the unit vector `+z`, whatever the point. */
  function BoardNormal(board: Board, p: Point): Option<Point> {
    Some(Point(0.0, 0.0, 1.0))
  }

  /** The board's normal is a unit vector perpendicular to the segment between any two hits. */
  lemma BoardNormalPerpendicular(board: Board, ray: Ray, ray': Ray, t: real, t': real, p: Point)
    requires OnBoard(board, ray, t) && OnBoard(board, ray', t')
    ensures BoardNormal(board, p).Some?
    ensures var n := BoardNormal(board, p).value;
      Dot(n, n) == 1.0 && Dot(n, Subtract(GetPoint(ray, t), GetPoint(ray', t'))) == 0.0
  {
  }
}
