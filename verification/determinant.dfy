/**
 `determinant(a)` of the ray tracer: a 3x3 determinant computed by a loop
 over the columns of row 0, with the two other rows indexed cyclically.
 */
module Determinants {
  import opened Vectors

  /** `double a[3][3]`: three rows of three entries. */
  type Matrix3 = m: seq<seq<real>> | |m| == 3 && |m[0]| == 3 && |m[1]| == 3 && |m[2]| == 3
    witness [[0.0, 0.0, 0.0], [0.0, 0.0, 0.0], [0.0, 0.0, 0.0]]

  /** The loop body's contribution for column `i` of row 0. */
  function Term(a: Matrix3, i: nat): real
    requires i < 3
  {
    a[0][i] * (a[1][(i + 1) % 3] * a[2][(i + 2) % 3] - a[1][(i + 2) % 3] * a[2][(i + 1) % 3])
  }

  /** The accumulator `det` after the first `n` iterations of the loop. */
  function CyclicSum(a: Matrix3, n: nat): real
    requires n <= 3
  {
    if n == 0 then 0.0 else CyclicSum(a, n - 1) + Term(a, n - 1)
  }

  /** The textbook cofactor expansion along row 0. */
  function Cofactor(a: Matrix3): real {
    a[0][0] * (a[1][1] * a[2][2] - a[1][2] * a[2][1])
    - a[0][1] * (a[1][0] * a[2][2] - a[1][2] * a[2][0])
    + a[0][2] * (a[1][0] * a[2][1] - a[1][1] * a[2][0])
  }

  /** The loop's result, which equals the cofactor expansion. */
  function Determinant(a: Matrix3): (det: real)
    ensures det == Cofactor(a)
  {
    assert CyclicSum(a, 1) == Term(a, 0);
    assert CyclicSum(a, 2) == Term(a, 0) + Term(a, 1);
    assert CyclicSum(a, 3) == Term(a, 0) + Term(a, 1) + Term(a, 2);
    CyclicSum(a, 3)
  }

  /** The matrix whose columns are `c0`, `c1`, `c2`, written row by row. */
  function Columns(c0: Point, c1: Point, c2: Point): Matrix3 {
    [[c0.x, c1.x, c2.x], [c0.y, c1.y, c2.y], [c0.z, c1.z, c2.z]]
  }

  /** The scalar triple product `c0 . (c1 x c2)`. */
  function Triple(c0: Point, c1: Point, c2: Point): real {
    Dot(c0, Cross(c1, c2))
  }

  /** The determinant of a matrix given by its columns is their triple product. */
  lemma DeterminantOfColumns(c0: Point, c1: Point, c2: Point)
    ensures Determinant(Columns(c0, c1, c2)) == Triple(c0, c1, c2)
  {
  }

  /** `u c0 + v c1 + w c2`. */
  function Combination(c0: Point, c1: Point, c2: Point, u: real, v: real, w: real): Point {
    Add(Add(Multiply(c0, u), Multiply(c1, v)), Multiply(c2, w))
  }

  /** The triple product written out over the nine coordinates of its three vectors. */
  function Det9(ux: real, uy: real, uz: real, vx: real, vy: real, vz: real, wx: real, wy: real, wz: real): real {
    ux * (vy * wz - vz * wy) + uy * (vz * wx - vx * wz) + uz * (vx * wy - vy * wx)
  }

  /** One coordinate of Cramer's rule, over plain reals. */
  lemma CramerRow(ux: real, uy: real, uz: real, vx: real, vy: real, vz: real,
                  wx: real, wy: real, wz: real, ex: real, ey: real, ez: real)
    ensures Det9(ex, ey, ez, vx, vy, vz, wx, wy, wz) * ux
          + Det9(ux, uy, uz, ex, ey, ez, wx, wy, wz) * vx
          + Det9(ux, uy, uz, vx, vy, vz, ex, ey, ez) * wx
         == Det9(ux, uy, uz, vx, vy, vz, wx, wy, wz) * ex
  {
    // every product expanded into monomials; the `ey` and `ez` monomials cancel
    assert Det9(ex, ey, ez, vx, vy, vz, wx, wy, wz) * ux
        == ux * ex * vy * wz - ux * ex * vz * wy + ux * ey * vz * wx - ux * ey * vx * wz + ux * ez * vx * wy - ux * ez * vy * wx;
    assert Det9(ux, uy, uz, ex, ey, ez, wx, wy, wz) * vx
        == vx * ux * ey * wz - vx * ux * ez * wy + vx * uy * ez * wx - vx * uy * ex * wz + vx * uz * ex * wy - vx * uz * ey * wx;
    assert Det9(ux, uy, uz, vx, vy, vz, ex, ey, ez) * wx
        == wx * ux * vy * ez - wx * ux * vz * ey + wx * uy * vz * ex - wx * uy * vx * ez + wx * uz * vx * ey - wx * uz * vy * ex;
    assert Det9(ux, uy, uz, vx, vy, vz, wx, wy, wz) * ex
        == ex * ux * vy * wz - ex * ux * vz * wy + ex * uy * vz * wx - ex * uy * vx * wz + ex * uz * vx * wy - ex * uz * vy * wx;
  }

  /** The triple product is linear in its first vector, over plain reals. */
  lemma LinearRow(ux: real, uy: real, uz: real, vx: real, vy: real, vz: real,
                  wx: real, wy: real, wz: real, a: real, b: real, c: real)
    ensures Det9(a * ux + b * vx + c * wx, a * uy + b * vy + c * wy, a * uz + b * vz + c * wz,
                 vx, vy, vz, wx, wy, wz)
         == a * Det9(ux, uy, uz, vx, vy, vz, wx, wy, wz)
  {
    // expanded into monomials, the ones with `b` and `c` cancel in pairs
    assert Det9(a * ux + b * vx + c * wx, a * uy + b * vy + c * wy, a * uz + b * vz + c * wz,
                vx, vy, vz, wx, wy, wz)
        == a * ux * vy * wz - a * ux * vz * wy + b * vx * vy * wz - b * vx * vz * wy + c * wx * vy * wz - c * wx * vz * wy
         + a * uy * vz * wx - a * uy * vx * wz + b * vy * vz * wx - b * vy * vx * wz + c * wy * vz * wx - c * wy * vx * wz
         + a * uz * vx * wy - a * uz * vy * wx + b * vz * vx * wy - b * vz * vy * wx + c * wz * vx * wy - c * wz * vy * wx;
    assert a * Det9(ux, uy, uz, vx, vy, vz, wx, wy, wz)
        == a * ux * vy * wz - a * ux * vz * wy + a * uy * vz * wx - a * uy * vx * wz + a * uz * vx * wy - a * uz * vy * wx;
  }

  lemma TripleIsDet9(c0: Point, c1: Point, c2: Point)
    ensures Triple(c0, c1, c2) == Det9(c0.x, c0.y, c0.z, c1.x, c1.y, c1.z, c2.x, c2.y, c2.z)
  {
  }

  /** Rotating the three vectors leaves the triple product unchanged. */
  lemma TripleCyclic(c0: Point, c1: Point, c2: Point)
    ensures Triple(c0, c1, c2) == Triple(c1, c2, c0)
  {
  }

  /** The combination of `c0`, `c1`, `c2` with `u`, `v`, `w` is linear in the first place. */
  lemma TripleLinearFirst(c0: Point, c1: Point, c2: Point, u: real, v: real, w: real)
    ensures Triple(Combination(c0, c1, c2, u, v, w), c1, c2) == u * Triple(c0, c1, c2)
  {
    var e := Combination(c0, c1, c2, u, v, w);
    assert e.x == u * c0.x + v * c1.x + w * c2.x;
    assert e.y == u * c0.y + v * c1.y + w * c2.y;
    assert e.z == u * c0.z + v * c1.z + w * c2.z;
    TripleIsDet9(e, c1, c2);
    TripleIsDet9(c0, c1, c2);
    LinearRow(c0.x, c0.y, c0.z, c1.x, c1.y, c1.z, c2.x, c2.y, c2.z, u, v, w);
  }

  /**
   Replacing one column of a matrix by a combination of all three scales the
   determinant by that column's coefficient.
   */
  lemma TripleLinear(c0: Point, c1: Point, c2: Point, u: real, v: real, w: real)
    ensures Triple(Combination(c0, c1, c2, u, v, w), c1, c2) == u * Triple(c0, c1, c2)
    ensures Triple(c0, Combination(c0, c1, c2, u, v, w), c2) == v * Triple(c0, c1, c2)
    ensures Triple(c0, c1, Combination(c0, c1, c2, u, v, w)) == w * Triple(c0, c1, c2)
  {
    var e := Combination(c0, c1, c2, u, v, w);
    TripleLinearFirst(c0, c1, c2, u, v, w);
    assert e == Combination(c1, c2, c0, v, w, u);
    TripleLinearFirst(c1, c2, c0, v, w, u);
    TripleCyclic(c0, e, c2);
    TripleCyclic(c0, c1, c2);
    assert e == Combination(c2, c0, c1, w, u, v);
    TripleLinearFirst(c2, c0, c1, w, u, v);
    TripleCyclic(c0, c1, e);
    TripleCyclic(c1, e, c0);
    TripleCyclic(c2, c0, c1);
  }

  /**
   Cramer's rule: the three determinants with one column replaced by `r`
   combine the columns into `r` scaled by the determinant of the matrix.
   */
  lemma CramerIdentity(c0: Point, c1: Point, c2: Point, r: Point)
    ensures Combination(c0, c1, c2, Triple(r, c1, c2), Triple(c0, r, c2), Triple(c0, c1, r))
         == Multiply(r, Triple(c0, c1, c2))
  {
    CramerRow(c0.x, c0.y, c0.z, c1.x, c1.y, c1.z, c2.x, c2.y, c2.z, r.x, r.y, r.z);
    CramerRow(c0.y, c0.z, c0.x, c1.y, c1.z, c1.x, c2.y, c2.z, c2.x, r.y, r.z, r.x);
    CramerRow(c0.z, c0.x, c0.y, c1.z, c1.x, c1.y, c2.z, c2.x, c2.y, r.z, r.x, r.y);
  }
}
