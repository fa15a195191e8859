/** Squares of the 8x8 board and the integer vectors that name them.

    A `Vector` is any pair of integers; only the pairs in `Board` are squares
    of the board. Move rules freely produce vectors outside it.
 */
module Geometry {

  /** Number of files (and ranks) of the board. */
  const Size: int := 8

  /** The 64 squares of the board. */
  ghost const Board: set<Vector> := set x: int, y: int | 0 <= x < Size && 0 <= y < Size :: Vector(x, y)

  /** An immutable pair of coordinates. Two vectors are the same value exactly
      when both coordinates match. */
  datatype Vector = Vector(x: int, y: int) {

    /** The vector displaced by (dx, dy); the receiver is left as it is. */
    function Add(dx: int, dy: int): (r: Vector)
      ensures r.x - x == dx && r.y - y == dy
    {
      Vector(x + dx, y + dy)
    }

    /** Displacement by another vector, which is displacement by its coordinates
        and does not depend on which of the two vectors is the receiver. */
    function AddVec(other: Vector): (r: Vector)
      ensures r == Add(other.x, other.y)
      ensures r == other.Add(x, y)
    {
      Add(other.x, other.y)
    }

    /** Coordinate-wise comparison, which coincides with value equality. */
    function Equals(other: Vector): (r: bool)
      ensures r <==> this == other
    {
      x == other.x && y == other.y
    }
  }

  /** Whether `v` names a square of the board. */
  function InBounds(v: Vector): (b: bool)
    ensures b <==> v in Board
  {
    assert v.x >= 0 && v.x < Size && v.y >= 0 && v.y < Size ==> v == Vector(v.x, v.y);
    0 <= v.x && v.x < Size && 0 <= v.y && v.y < Size
  }

  /** Absolute value. */
  function Abs(a: int): nat
  {
    if a < 0 then -a else a
  }

  /** The square `k` steps of (dx, dy) away from `from`. */
  function Along(from: Vector, dx: int, dy: int, k: int): Vector
  {
    Vector(from.x + k * dx, from.y + k * dy)
  }

  /** `k` steps after a first step are `k + 1` steps from the start. */
  lemma AlongShift(from: Vector, dx: int, dy: int, k: int)
    ensures Along(from.Add(dx, dy), dx, dy, k) == Along(from, dx, dy, k + 1)
  {
    assert (k + 1) * dx == k * dx + dx;
    assert (k + 1) * dy == k * dy + dy;
  }

  /** The board is convex: a square on a line between two board squares is a
      board square. */
  lemma BoardConvex(from: Vector, dx: int, dy: int, i: int, j: int, k: int)
    requires i <= j <= k
    requires InBounds(Along(from, dx, dy, i)) && InBounds(Along(from, dx, dy, k))
    ensures InBounds(Along(from, dx, dy, j))
  {
    CoordinateBetween(from.x, dx, i, j, k);
    CoordinateBetween(from.y, dy, i, j, k);
  }

  /** One coordinate of `BoardConvex`. */
  lemma CoordinateBetween(p: int, d: int, i: int, j: int, k: int)
    requires i <= j <= k
    requires 0 <= p + i * d < Size && 0 <= p + k * d < Size
    ensures 0 <= p + j * d < Size
  {
    if d >= 0 {
      MulMonotone(i, j, d);
      MulMonotone(j, k, d);
    } else {
      MulMonotone(i, j, -d);
      MulMonotone(j, k, -d);
    }
  }

  lemma MulMonotone(a: int, b: int, c: int)
    requires a <= b && 0 <= c
    ensures a * c <= b * c
  {
    assert b * c - a * c == (b - a) * c;
  }

  /** Distinct step counts along a non-zero direction reach distinct squares. */
  lemma AlongInjective(from: Vector, dx: int, dy: int, j: int, k: int)
    requires dx != 0 || dy != 0
    requires Along(from, dx, dy, j) == Along(from, dx, dy, k)
    ensures j == k
  {
    assert (j - k) * dx == 0 && (j - k) * dy == 0;
  }
}
