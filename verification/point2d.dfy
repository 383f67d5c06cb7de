/** Two-dimensional points and vectors over the reals. */
module Point2d {

  datatype Point2D = Point2D(x: real, y: real)

  /** `Point2D + Point2D`; subtracting `b` again recovers `a`. */
  function Add(a: Point2D, b: Point2D): (r: Point2D)
    ensures Sub(r, b) == a
  {
    Point2D(a.x + b.x, a.y + b.y)
  }

  /** `Point2D - Point2D`; adding `b` again recovers `a`. */
  function Sub(a: Point2D, b: Point2D): (r: Point2D)
    ensures Point2D(r.x + b.x, r.y + b.y) == a
  {
    Point2D(a.x - b.x, a.y - b.y)
  }

  /** `Point2D * f32`: scaling by one is the identity, by zero the origin. */
  function Mul(a: Point2D, s: real): (r: Point2D)
    ensures s == 1.0 ==> r == a
    ensures s == 0.0 ==> r == Point2D(0.0, 0.0)
  {
    Point2D(a.x * s, a.y * s)
  }

  /** `Point2D / f32`; the model excludes the IEEE division by zero. */
  function Div(a: Point2D, s: real): (r: Point2D)
    requires s != 0.0
    ensures Point2D(r.x * s, r.y * s) == a
  {
    Point2D(a.x / s, a.y / s)
  }

  /** A nonzero scale is undone by `Div`. */
  lemma DivUndoesMul(a: Point2D, s: real)
    requires s != 0.0
    ensures Div(Mul(a, s), s) == a
  {
  }

  /** `dot2`: zero against the origin. */
  function Dot2(a: Point2D, b: Point2D): (d: real)
    ensures a == Point2D(0.0, 0.0) || b == Point2D(0.0, 0.0) ==> d == 0.0
  {
    a.x * b.x + a.y * b.y
  }

  /** The clockwise quarter turn `(x, y) -> (y, -x)`: the counter-clockwise
      turn `(x, y) -> (-y, x)` undoes it. */
  function Perp(v: Point2D): (r: Point2D)
    ensures Point2D(-r.y, r.x) == v
  {
    Point2D(v.y, -v.x)
  }

  /** A vector is orthogonal to its perpendicular. */
  lemma PerpOrthogonal(v: Point2D)
    ensures Dot2(v, Perp(v)) == 0.0
  {
  }

  lemma Dot2Symmetric(a: Point2D, b: Point2D)
    ensures Dot2(a, b) == Dot2(b, a)
  {
  }

  /** Two quarter turns are a half turn. */
  lemma PerpTwiceNegates(v: Point2D)
    ensures Perp(Perp(v)) == Point2D(-v.x, -v.y)
  {
  }

  /** A quarter turn preserves the dot product. */
  lemma PerpPreservesDot(u: Point2D, v: Point2D)
    ensures Dot2(Perp(u), Perp(v)) == Dot2(u, v)
  {
  }
}
