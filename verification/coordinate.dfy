/** Grid positions of the pipe maze and their vector arithmetic
    (day_10/part_1/src/coordinate.rs).  `x` grows eastward, `y` southward. */
module Coordinates {

  datatype Coordinate = Coordinate(x: int, y: int)

  /** A displacement `(dx, dy)`. */
  datatype Offset = Offset(dx: int, dy: int)

  /** `a.relative_to(b)`: the offset that leads from `b` to `a`. */
  function RelativeTo(a: Coordinate, b: Coordinate): (r: Offset)
    ensures MoveTo(b, r) == a
    ensures r == Offset(0, 0) <==> a == b
  {
    Offset(a.x - b.x, a.y - b.y)
  }

  /** `c.move_to(d)`: `c` translated by `d`. */
  function MoveTo(c: Coordinate, d: Offset): Coordinate {
    Coordinate(c.x + d.dx, c.y + d.dy)
  }

  /** Moving from `b` by the offset of `a` relative to `b` arrives at `a`. */
  lemma MoveToRelative(a: Coordinate, b: Coordinate)
    ensures MoveTo(b, RelativeTo(a, b)) == a
  {
  }

  /** Moving by an offset and measuring back from the origin recovers the offset. */
  lemma RelativeToMoved(c: Coordinate, d: Offset)
    ensures RelativeTo(MoveTo(c, d), c) == d
  {
  }

  /** A cell relative to itself is the zero offset. */
  lemma RelativeToSelf(c: Coordinate)
    ensures RelativeTo(c, c) == Offset(0, 0)
  {
  }

  /** Swapping the two cells negates the offset. */
  lemma RelativeToAntisymmetric(a: Coordinate, b: Coordinate)
    ensures RelativeTo(a, b) == Offset(-RelativeTo(b, a).dx, -RelativeTo(b, a).dy)
  {
  }
}
