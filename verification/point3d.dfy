/** Three-dimensional points and vectors over the reals. */
module Point3d {
  import opened Numeric
  import opened Squares

  datatype Point3D = Point3D(x: real, y: real, z: real)

  const Zero: Point3D := Point3D(0.0, 0.0, 0.0)

  /** `Point3D + Point3D`; subtracting `b` again recovers `a`. */
  function Add(a: Point3D, b: Point3D): (r: Point3D)
    ensures Sub(r, b) == a
  {
    Point3D(a.x + b.x, a.y + b.y, a.z + b.z)
  }

  /** `Point3D + f32`: the scalar is added to every component. */
  function AddScalar(a: Point3D, s: real): (r: Point3D)
    ensures r == Add(a, Point3D(s, s, s))
  {
    Point3D(a.x + s, a.y + s, a.z + s)
  }

  /** `a += rhs`, as the value `a` holds afterwards. */
  function AddAssign(a: Point3D, rhs: Point3D): (r: Point3D)
    ensures r == Add(a, rhs)
  {
    var a1 := a.(x := a.x + rhs.x);
    var a2 := a1.(y := a1.y + rhs.y);
    a2.(z := a2.z + rhs.z)
  }

  /** `Point3D - Point3D`; adding `b` again recovers `a`. */
  function Sub(a: Point3D, b: Point3D): (r: Point3D)
    ensures Point3D(r.x + b.x, r.y + b.y, r.z + b.z) == a
  {
    Point3D(a.x - b.x, a.y - b.y, a.z - b.z)
  }

  /** `a -= rhs`, as the value `a` holds afterwards. */
  function SubAssign(a: Point3D, rhs: Point3D): (r: Point3D)
    ensures r == Sub(a, rhs)
  {
    var a1 := a.(x := a.x - rhs.x);
    var a2 := a1.(y := a1.y - rhs.y);
    a2.(z := a2.z - rhs.z)
  }

  /** `Point3D * f32`: scaling by one is the identity, by zero the origin. */
  function Mul(a: Point3D, s: real): (r: Point3D)
    ensures s == 1.0 ==> r == a
    ensures s == 0.0 ==> r == Zero
  {
    Point3D(a.x * s, a.y * s, a.z * s)
  }

  /** `Point3D / f32`; the model excludes the IEEE division by zero. */
  function Div(a: Point3D, s: real): (r: Point3D)
    requires s != 0.0
    ensures Point3D(r.x * s, r.y * s, r.z * s) == a
  {
    Point3D(a.x / s, a.y / s, a.z / s)
  }

  /** `f32 / Point3D`: the scalar divided by each component. */
  function ScalarDiv(s: real, p: Point3D): (r: Point3D)
    requires p.x != 0.0 && p.y != 0.0 && p.z != 0.0
    ensures r.x * p.x == s && r.y * p.y == s && r.z * p.z == s
  {
    Point3D(s / p.x, s / p.y, s / p.z)
  }

  /** A nonzero scale is undone by `Div`. */
  lemma DivUndoesMul(a: Point3D, s: real)
    requires s != 0.0
    ensures Div(Mul(a, s), s) == a
  {
  }

  /** `dot3`: zero against the zero vector. */
  function Dot3(a: Point3D, b: Point3D): (d: real)
    ensures a == Zero || b == Zero ==> d == 0.0
  {
    a.x * b.x + a.y * b.y + a.z * b.z
  }

  /** `normalize`: divides by the length unless that length is zero. */
  function Normalize(v: Point3D, m: Math): (n: Point3D)
    ensures v == Zero ==> n == Zero
  {
    var length := m.sqrt(Dot3(v, v));
    if length != 0.0 then
      assert v == Zero ==> Div(v, length) == Point3D(0.0 / length, 0.0 / length, 0.0 / length);
      Div(v, length)
    else v
  }

  lemma Dot3Symmetric(a: Point3D, b: Point3D)
    ensures Dot3(a, b) == Dot3(b, a)
  {
  }

  lemma Dot3SelfNonNegative(v: Point3D)
    ensures Dot3(v, v) >= 0.0
    ensures v != Zero ==> Dot3(v, v) > 0.0
  {
    SquareNonNegative(v.x, v.x * v.x);
    SquareNonNegative(v.y, v.y * v.y);
    SquareNonNegative(v.z, v.z * v.z);
    if v != Zero {
      SumOfSquaresPositive(v.x, v.y, v.z, Dot3(v, v));
    }
  }

  /** The dot product scales with either argument. */
  lemma Dot3Scale(a: Point3D, b: Point3D, s: real)
    ensures Dot3(Mul(a, s), b) == s * Dot3(a, b)
  {
  }

  /** The dot product distributes over a sum in its second argument. */
  lemma Dot3Additive(r: Point3D, u: Point3D, v: Point3D)
    ensures Dot3(r, Add(u, v)) == Dot3(r, u) + Dot3(r, v)
  {
    assert Add(u, v) == Point3D(u.x + v.x, u.y + v.y, u.z + v.z);
  }

  /** Scaling the second argument scales the dot product. */
  lemma Dot3ScaleRight(r: Point3D, u: Point3D, s: real)
    ensures Dot3(r, Mul(u, s)) == Dot3(r, u) * s
  {
    assert Mul(u, s) == Point3D(u.x * s, u.y * s, u.z * s);
  }

  /** Given a genuine square root, a nonzero vector normalizes to unit length. */
  lemma NormalizeUnit(v: Point3D, m: Math)
    requires SqrtLaw(m)
    requires v != Zero
    ensures Dot3(Normalize(v, m), Normalize(v, m)) == 1.0
  {
    var d := Dot3(v, v);
    Dot3SelfNonNegative(v);
    var len := m.sqrt(d);
    assert len * len == d && len > 0.0;
    var n := Div(v, len);
    assert Mul(n, len) == v;
    calc {
      Dot3(n, n) * (len * len);
      { Dot3Scale(n, n, len); Dot3Scale(n, Mul(n, len), len); Dot3Symmetric(n, Mul(n, len)); }
      Dot3(Mul(n, len), Mul(n, len));
      d;
      1.0 * (len * len);
    }
    assert Normalize(v, m) == n;
  }
}
