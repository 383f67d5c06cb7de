/** Edge functions, the inside test with barycentric weights, and the
    perspective projection of a vertex. */
module Geometry {
  import opened Wrappers
  import opened Numeric
  import opened Point2d
  import opened Point3d
  import opened Transform
  import opened Squares

  /** `signed_triangle_area`: half the cross product of `t2 - t1` and `p - t1`,
      positive when `p` lies clockwise of the edge in screen coordinates. */
  function SignedTriangleArea(t1: Point2D, t2: Point2D, p: Point2D): (area: real)
    ensures area == ((p.x - t1.x) * (t2.y - t1.y) - (p.y - t1.y) * (t2.x - t1.x)) / 2.0
  {
    Dot2(Point2d.Sub(p, t1), Perp(Point2d.Sub(t2, t1))) / 2.0
  }

  /** The result of `point_in_triangle`: the returned flag and the weights
      it writes, which are absent when the total area is zero (the source
      divides by it). */
  datatype Hit = Hit(inside: bool, weights: Option<Point3D>)

  /** `point_in_triangle`. */
  function PointInTriangle(a: Point2D, b: Point2D, c: Point2D, p: Point2D): (h: Hit)
    ensures h.inside <==> SignedTriangleArea(a, b, c) > 0.0
                          && SignedTriangleArea(a, b, p) >= 0.0
                          && SignedTriangleArea(b, c, p) >= 0.0
                          && SignedTriangleArea(c, a, p) >= 0.0
    ensures h.weights.None? <==> SignedTriangleArea(a, b, c) == 0.0
    ensures h.weights.Some? ==> h.weights.value.x + h.weights.value.y + h.weights.value.z == 1.0
  {
    var areaAB := SignedTriangleArea(a, b, p);
    var areaBC := SignedTriangleArea(b, c, p);
    var areaCA := SignedTriangleArea(c, a, p);
    var inTri := areaAB >= 0.0 && areaBC >= 0.0 && areaCA >= 0.0;
    var totalArea := areaAB + areaBC + areaCA;
    SubAreasSum(a, b, c, p);
    var weights :=
      if totalArea == 0.0 then None
      else var inv := 1.0 / totalArea;
        Some(Point3D(areaBC * inv, areaCA * inv, areaAB * inv));
    Hit(inTri && totalArea > 0.0, weights)
  }

  /** Swapping the edge's endpoints negates the area. */
  lemma AreaAntisymmetric(t1: Point2D, t2: Point2D, p: Point2D)
    ensures SignedTriangleArea(t2, t1, p) == -SignedTriangleArea(t1, t2, p)
  {
  }

  /** Rotating the three points leaves the area unchanged. */
  lemma AreaCyclic(t1: Point2D, t2: Point2D, p: Point2D)
    ensures SignedTriangleArea(t2, p, t1) == SignedTriangleArea(t1, t2, p)
  {
  }

  /** A point on the edge's line, such as either endpoint, has area zero. */
  lemma AreaZeroAtEndpoints(t1: Point2D, t2: Point2D)
    ensures SignedTriangleArea(t1, t2, t1) == 0.0
    ensures SignedTriangleArea(t1, t2, t2) == 0.0
  {
  }

  /** The three sub-areas of any point add up to the triangle's own area. */
  lemma SubAreasSum(a: Point2D, b: Point2D, c: Point2D, p: Point2D)
    ensures SignedTriangleArea(a, b, p) + SignedTriangleArea(b, c, p) + SignedTriangleArea(c, a, p)
         == SignedTriangleArea(a, b, c)
  {
  }

  /** The weights reproduce the point: they are its barycentric coordinates. */
  lemma WeightsReconstructPoint(a: Point2D, b: Point2D, c: Point2D, p: Point2D)
    requires PointInTriangle(a, b, c, p).weights.Some?
    ensures var w := PointInTriangle(a, b, c, p).weights.value;
      w.x * a.x + w.y * b.x + w.z * c.x == p.x && w.x * a.y + w.y * b.y + w.z * c.y == p.y
  {
  }

  /** Inside points have every weight in [0, 1]. */
  lemma InsideWeightsBounded(a: Point2D, b: Point2D, c: Point2D, p: Point2D)
    requires PointInTriangle(a, b, c, p).inside
    ensures var w := PointInTriangle(a, b, c, p).weights.value;
      0.0 <= w.x <= 1.0 && 0.0 <= w.y <= 1.0 && 0.0 <= w.z <= 1.0
  {
    var ab, bc, ca := SignedTriangleArea(a, b, p), SignedTriangleArea(b, c, p), SignedTriangleArea(c, a, p);
    SubAreasSum(a, b, c, p);
    var inv := 1.0 / (ab + bc + ca);
    var w := PointInTriangle(a, b, c, p).weights.value;
    assert w == Point3D(bc * inv, ca * inv, ab * inv);
    SharesBounded(ab, bc, ca, inv);
  }

  /** Three non-negative parts, each divided by their positive sum, lie in [0, 1]. */
  lemma SharesBounded(ab: real, bc: real, ca: real, inv: real)
    requires ab >= 0.0 && bc >= 0.0 && ca >= 0.0 && ab + bc + ca > 0.0
    requires inv == 1.0 / (ab + bc + ca)
    ensures 0.0 <= bc * inv <= 1.0 && 0.0 <= ca * inv <= 1.0 && 0.0 <= ab * inv <= 1.0
  {
    var s := ab + bc + ca;
    assert s * inv == 1.0;
    ShareBounded(bc, s, inv);
    ShareBounded(ca, s, inv);
    ShareBounded(ab, s, inv);
  }

  /** A part `x` of a positive whole `s`, times `1 / s`, lies in [0, 1]. */
  lemma ShareBounded(x: real, s: real, inv: real)
    requires 0.0 <= x <= s && s * inv == 1.0
    ensures 0.0 <= x * inv <= 1.0
  {
    assert inv > 0.0;
    if x > 0.0 {
      ProductPositive(x, inv, x * inv);
    }
    if x < s {
      ProductPositive(s - x, inv, (s - x) * inv);
    }
  }

  /** A degenerate triangle contains no point. */
  lemma DegenerateContainsNothing(a: Point2D, b: Point2D, c: Point2D, p: Point2D)
    requires SignedTriangleArea(a, b, c) == 0.0
    ensures !PointInTriangle(a, b, c, p).inside
  {
  }

  /** The point with barycentric coordinates `(u, v, w)`, `u + v + w = 1`. */
  function Combine(a: Point2D, b: Point2D, c: Point2D, u: real, v: real, w: real): Point2D {
    Point2D(u * a.x + v * b.x + w * c.x, u * a.y + v * b.y + w * c.y)
  }

  /** The sub-area opposite a vertex is that vertex's coordinate times the whole area. */
  lemma CombinationSubAreas(a: Point2D, b: Point2D, c: Point2D, u: real, v: real, w: real)
    requires u + v + w == 1.0
    ensures var p, area := Combine(a, b, c, u, v, w), SignedTriangleArea(a, b, c);
      && SignedTriangleArea(b, c, p) == u * area
      && SignedTriangleArea(c, a, p) == v * area
      && SignedTriangleArea(a, b, p) == w * area
  {
  }

  /** In a triangle of positive area, a point is inside exactly when its
      barycentric coordinates are all non-negative, and the weights the
      test reports are those coordinates. */
  lemma InsideIffCoordinatesNonNegative(a: Point2D, b: Point2D, c: Point2D, u: real, v: real, w: real)
    requires u + v + w == 1.0
    requires SignedTriangleArea(a, b, c) > 0.0
    ensures var h := PointInTriangle(a, b, c, Combine(a, b, c, u, v, w));
      && (h.inside <==> u >= 0.0 && v >= 0.0 && w >= 0.0)
      && h.weights == Some(Point3D(u, v, w))
  {
    var p, area := Combine(a, b, c, u, v, w), SignedTriangleArea(a, b, c);
    CombinationSubAreas(a, b, c, u, v, w);
    SubAreasSum(a, b, c, p);
    ScaledByPositive(u, area, SignedTriangleArea(b, c, p));
    ScaledByPositive(v, area, SignedTriangleArea(c, a, p));
    ScaledByPositive(w, area, SignedTriangleArea(a, b, p));
    var total := SignedTriangleArea(a, b, p) + SignedTriangleArea(b, c, p) + SignedTriangleArea(c, a, p);
    assert total == area;
    var inv := 1.0 / total;
    var h := PointInTriangle(a, b, c, p);
    assert h.weights.Some?;
    assert h.weights.value.x == SignedTriangleArea(b, c, p) * inv == u;
    assert h.weights.value.y == SignedTriangleArea(c, a, p) * inv == v;
    assert h.weights.value.z == SignedTriangleArea(a, b, p) * inv == w;
  }

  /** Scaling by a positive factor keeps the sign and can be undone. */
  lemma ScaledByPositive(x: real, k: real, d: real)
    requires d == x * k
    requires k > 0.0
    ensures d >= 0.0 <==> x >= 0.0
    ensures d * (1.0 / k) == x
  {
    if x > 0.0 {
      ProductPositive(x, k, d);
    } else if x < 0.0 {
      ProductPositive(-x, k, -d);
    }
  }

  /** `vertex_to_screen`: the vertex in world space, projected with the
      vertical field of view `fov` onto a screen of `resolution` pixels.
      The result is absent where the source divides by zero: a zero view
      height or a vertex at depth zero. */
  function VertexToScreen(vertex: Point3D, t: Transform, resolution: Point2D, fov: real, m: Math): (r: Option<Point3D>)
    ensures var world, viewHeight := ToWorldPoint(t, vertex, m), m.tan(fov / 2.0) * 2.0;
      && (r.None? <==> viewHeight == 0.0 || world.z == 0.0)
      && (r.Some? ==>
            && r.value.z == world.z
            && (r.value.x - resolution.x / 2.0) * (viewHeight * world.z) == world.x * resolution.y
            && (r.value.y - resolution.y / 2.0) * (viewHeight * world.z) == world.y * resolution.y)
  {
    var vertexWorld := ToWorldPoint(t, vertex, m);
    var worldHeight := m.tan(fov / 2.0) * 2.0;
    if worldHeight == 0.0 || vertexWorld.z == 0.0 then None
    else
      var pixelsPerWorldUnit := resolution.y / worldHeight / vertexWorld.z;
      var pixelOffset := Point2D(vertexWorld.x * pixelsPerWorldUnit, vertexWorld.y * pixelsPerWorldUnit);
      var vertexScreen := Point2d.Add(Point2d.Div(resolution, 2.0), pixelOffset);
      Some(Point3D(vertexScreen.x, vertexScreen.y, vertexWorld.z))
  }

  /** The inverse of the projection: a screen point and its depth back to world space. */
  function Unproject(screen: Point3D, resolution: Point2D, viewHeight: real): (world: Point3D)
    requires resolution.y != 0.0
    ensures world.z == screen.z
  {
    var unitsPerPixel := viewHeight * screen.z / resolution.y;
    Point3D((screen.x - resolution.x / 2.0) * unitsPerPixel,
            (screen.y - resolution.y / 2.0) * unitsPerPixel,
            screen.z)
  }

  /** Unprojecting a projected vertex recovers its world position. */
  lemma UnprojectInvertsProjection(vertex: Point3D, t: Transform, resolution: Point2D, fov: real, m: Math)
    requires resolution.y != 0.0
    requires m.tan(fov / 2.0) * 2.0 != 0.0 && ToWorldPoint(t, vertex, m).z != 0.0
    ensures VertexToScreen(vertex, t, resolution, fov, m).Some?
    ensures Unproject(VertexToScreen(vertex, t, resolution, fov, m).value, resolution, m.tan(fov / 2.0) * 2.0)
         == ToWorldPoint(t, vertex, m)
  {
    var world, viewHeight := ToWorldPoint(t, vertex, m), m.tan(fov / 2.0) * 2.0;
    UnprojectSolves(VertexToScreen(vertex, t, resolution, fov, m).value, resolution, viewHeight, world);
  }

  /** `Unproject` returns the point whose projection equations the screen point solves. */
  lemma UnprojectSolves(screen: Point3D, resolution: Point2D, viewHeight: real, world: Point3D)
    requires resolution.y != 0.0 && screen.z == world.z
    requires (screen.x - resolution.x / 2.0) * (viewHeight * world.z) == world.x * resolution.y
    requires (screen.y - resolution.y / 2.0) * (viewHeight * world.z) == world.y * resolution.y
    ensures Unproject(screen, resolution, viewHeight) == world
  {
    var p := viewHeight * screen.z;
    Rescale(screen.x - resolution.x / 2.0, p, resolution.y, world.x);
    Rescale(screen.y - resolution.y / 2.0, p, resolution.y, world.y);
  }

  /** From `a * p == c * q` with `q != 0`, scaling `a` by `p / q` gives `c`. */
  lemma Rescale(a: real, p: real, q: real, c: real)
    requires q != 0.0 && a * p == c * q
    ensures a * (p / q) == c
  {
    calc {
      a * (p / q);
      (a * p) / q;
      (c * q) / q;
      c;
    }
  }
}
