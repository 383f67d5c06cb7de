/** Lambert-style shading of one pixel, and the lane-by-lane quad version
    that applies it to the four lanes of a 2x2 quad. */
module Shading {
  import opened Numeric
  import opened Point3d
  import opened Screen

  /** The light intensity: the cosine between the unit normal and the unit
      light direction, mapped from [-1, 1] to [0, 1]. */
  function Intensity(normal: Point3D, light: Point3D, m: Math): (k: real)
    ensures normal == Zero || light == Zero ==> k == 0.5
  {
    ShiftToUnit(Dot3(Normalize(normal, m), Normalize(light, m)))
  }

  /** `(d + 1) * 0.5`: maps [-1, 1] onto [0, 1], with 0 in the middle. */
  function ShiftToUnit(d: real): (k: real)
    ensures d == 0.0 ==> k == 0.5
  {
    (d + 1.0) * 0.5
  }

  /** `shade_pixel`: the colour channels are scaled by the intensity and cast
      back to bytes; alpha passes through. */
  function ShadePixel(r: u8, g: u8, b: u8, a: u8, normal: Point3D, light: Point3D, m: Math): (c: Color)
    ensures c.3 == a
  {
    var intensity := Intensity(normal, light, m);
    (CastU8(r as real * intensity), CastU8(g as real * intensity), CastU8(b as real * intensity), a)
  }

  /** A normalised vector is a unit vector, or zero when the input is zero. */
  lemma NormalizedLength(v: Point3D, m: Math)
    requires SqrtLaw(m)
    ensures Dot3(Normalize(v, m), Normalize(v, m)) == 1.0 || Normalize(v, m) == Zero
  {
    if v != Zero {
      NormalizeUnit(v, m);
    }
  }

  /** `|u.v| <= 1` for vectors of length at most one. */
  lemma DotOfShortVectors(u: Point3D, v: Point3D)
    requires Dot3(u, u) <= 1.0 && Dot3(v, v) <= 1.0
    ensures -1.0 <= Dot3(u, v) <= 1.0
  {
    var d, s := Sub(u, v), Add(u, v);
    Dot3SelfNonNegative(d);
    Dot3SelfNonNegative(s);
    Dot3Expansion(u, v);
  }

  /** `(a + b)^2` and `(a - b)^2` for one component. */
  lemma SquareExpansion(a: real, b: real)
    ensures (a + b) * (a + b) == a * a + b * b + 2.0 * (a * b)
    ensures (a - b) * (a - b) == a * a + b * b - 2.0 * (a * b)
  {
  }

  /** `|u + v|^2` and `|u - v|^2` in terms of `|u|^2`, `|v|^2` and `u.v`. */
  lemma Dot3Expansion(u: Point3D, v: Point3D)
    ensures Dot3(Add(u, v), Add(u, v)) == Dot3(u, u) + Dot3(v, v) + 2.0 * Dot3(u, v)
    ensures Dot3(Sub(u, v), Sub(u, v)) == Dot3(u, u) + Dot3(v, v) - 2.0 * Dot3(u, v)
  {
    SquareExpansion(u.x, v.x);
    SquareExpansion(u.y, v.y);
    SquareExpansion(u.z, v.z);
  }

  /** The intensity lies in [0, 1]. */
  lemma IntensityBounded(normal: Point3D, light: Point3D, m: Math)
    requires SqrtLaw(m)
    ensures 0.0 <= Intensity(normal, light, m) <= 1.0
  {
    NormalizedLength(normal, m);
    NormalizedLength(light, m);
    DotOfShortVectors(Normalize(normal, m), Normalize(light, m));
  }

  /** Scaling a byte value by a factor in [0, 1] keeps it in [0, value]. */
  lemma ScaleDown(x: real, k: real, d: real)
    requires x >= 0.0 && 0.0 <= k <= 1.0 && d == x * k
    ensures 0.0 <= d <= x
  {
    assert x * (1.0 - k) >= 0.0;
  }

  /** Shading never brightens: each colour channel is at most its input. */
  lemma ShadeDarkens(r: u8, g: u8, b: u8, a: u8, normal: Point3D, light: Point3D, m: Math)
    requires SqrtLaw(m)
    ensures var c := ShadePixel(r, g, b, a, normal, light, m);
      c.0 <= r && c.1 <= g && c.2 <= b
  {
    var k := Intensity(normal, light, m);
    IntensityBounded(normal, light, m);
    ScaleDown(r as real, k, r as real * k);
    ScaleDown(g as real, k, g as real * k);
    ScaleDown(b as real, k, b as real * k);
  }

  /** A surface facing straight into the light keeps its colour. */
  lemma FacingLightKeepsColor(r: u8, g: u8, b: u8, a: u8, normal: Point3D, m: Math)
    requires SqrtLaw(m) && normal != Zero
    ensures ShadePixel(r, g, b, a, normal, normal, m) == (r, g, b, a)
  {
    var n := Normalize(normal, m);
    NormalizeUnit(normal, m);
    var k := Intensity(normal, normal, m);
    assert k == (Dot3(n, n) + 1.0) * 0.5 == 1.0;
    assert CastU8(r as real * k) == r by { assert r as real * k == r as real; }
    assert CastU8(g as real * k) == g by { assert g as real * k == g as real; }
    assert CastU8(b as real * k) == b by { assert b as real * k == b as real; }
  }

  function Neg(v: Point3D): Point3D {
    Point3D(-v.x, -v.y, -v.z)
  }

  /** The dot product with the opposite vector is the negated dot product. */
  lemma Dot3Neg(v: Point3D)
    ensures Dot3(v, Neg(v)) == -Dot3(v, v)
  {
    assert Neg(v) == Mul(v, -1.0);
    Dot3ScaleRight(v, v, -1.0);
  }

  /** A surface facing straight away from the light turns black, alpha aside. */
  lemma FacingAwayIsBlack(r: u8, g: u8, b: u8, a: u8, normal: Point3D, m: Math)
    requires SqrtLaw(m) && normal != Zero
    ensures ShadePixel(r, g, b, a, normal, Neg(normal), m) == (0, 0, 0, a)
  {
    var n := Normalize(normal, m);
    NormalizeUnit(normal, m);
    NormalizeNeg(normal, m);
    Dot3Neg(n);
    var k := Intensity(normal, Neg(normal), m);
    assert k == 0.0;
    assert r as real * k == 0.0 && g as real * k == 0.0 && b as real * k == 0.0;
  }

  /** Normalising the opposite vector gives the opposite unit vector. */
  lemma NormalizeNeg(v: Point3D, m: Math)
    ensures Normalize(Neg(v), m) == Neg(Normalize(v, m))
  {
    assert Dot3(Neg(v), Neg(v)) == Dot3(v, v);
    var len := m.sqrt(Dot3(v, v));
    if len != 0.0 {
      assert (-v.x) / len == -(v.x / len);
      assert (-v.y) / len == -(v.y / len);
      assert (-v.z) / len == -(v.z / len);
    }
  }

  /** `shade_quad_test`: each lane's colour, cast from `f32` to a byte, is
      shaded with that lane's normal by `shade_pixel`. */
  method ShadeQuadTest(r: seq<real>, g: seq<real>, b: seq<real>, a: seq<real>, normal: seq<Point3D>, light: Point3D, m: Math)
    returns (rr: seq<u8>, gg: seq<u8>, bb: seq<u8>, aa: seq<u8>)
    requires |r| == 4 && |g| == 4 && |b| == 4 && |a| == 4 && |normal| == 4
    ensures |rr| == 4 && |gg| == 4 && |bb| == 4 && |aa| == 4
    ensures forall lane :: 0 <= lane < 4 ==>
      (rr[lane], gg[lane], bb[lane], aa[lane])
      == ShadePixel(CastU8(r[lane]), CastU8(g[lane]), CastU8(b[lane]), CastU8(a[lane]), normal[lane], light, m)
  {
    rr, gg, bb, aa := [0, 0, 0, 0], [0, 0, 0, 0], [0, 0, 0, 0], [0, 0, 0, 0];
    var lane := 0;
    while lane < 4
      invariant 0 <= lane <= 4
      invariant |rr| == 4 && |gg| == 4 && |bb| == 4 && |aa| == 4
      invariant forall i :: 0 <= i < lane ==>
        (rr[i], gg[i], bb[i], aa[i])
        == ShadePixel(CastU8(r[i]), CastU8(g[i]), CastU8(b[i]), CastU8(a[i]), normal[i], light, m)
    {
      var c := ShadePixel(CastU8(r[lane]), CastU8(g[lane]), CastU8(b[lane]), CastU8(a[lane]), normal[lane], light, m);
      rr := rr[lane := c.0];
      gg := gg[lane := c.1];
      bb := bb[lane := c.2];
      aa := aa[lane := c.3];
      lane := lane + 1;
    }
  }
}
