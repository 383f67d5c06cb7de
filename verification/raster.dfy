/** The per-frame integer logic of the render loop: each projected
    triangle's bounding box rounded out to even coordinates, the 2x2 quads
    a tile walks inside that box, and the depth test that decides which
    lanes of a quad are written. */
module Raster {
  import opened Numeric
  import opened Point2d
  import opened Point3d
  import opened Rectangle
  import opened Triangle
  import opened Screen
  import opened Geometry

  // ---------------------------------------------------------------------
  // Bounding boxes

  function Min3(a: real, b: real, c: real): (m: real)
    ensures m <= a && m <= b && m <= c
    ensures m == a || m == b || m == c
  {
    var ab := if b < a then b else a;
    if c < ab then c else ab
  }

  function Max3(a: real, b: real, c: real): (m: real)
    ensures m >= a && m >= b && m >= c
    ensures m == a || m == b || m == c
  {
    var ab := if b > a then b else a;
    if c > ab then c else ab
  }

  /** `(v as u32).clamp(0, size - 1)` for an already rounded `v`; the
      `size - 1` underflows unless `size >= 1`. */
  function ClampToScreen(v: int, size: u32): (c: u32)
    requires size >= 1
    ensures c <= size - 1
    ensures 0 <= v <= size - 1 ==> c == v
    ensures v < 0 ==> c == 0
    ensures v > size - 1 ==> c == size - 1
  {
    var s := SaturateU32(v);
    if s > size - 1 then size - 1 else s
  }

  /** The even start of a box along one axis: the floor of the smallest
      coordinate, clamped to the screen, with its low bit cleared. */
  function BoxStart(lo: real, size: u32): (s: u32)
    requires size >= 1
    ensures s % 2 == 0
    ensures s <= ClampToScreen(lo.Floor, size) <= s + 1
  {
    ClearLowBit(ClampToScreen(lo.Floor, size))
  }

  /** The even end (exclusive) of a box along one axis: one past the
      clamped ceiling of the largest coordinate, with its low bit cleared. */
  function BoxEnd(hi: real, size: u32): (e: u32)
    requires size >= 1
    ensures e % 2 == 0
    ensures ClampToScreen(Ceil(hi), size) <= e <= ClampToScreen(Ceil(hi), size) + 1
    ensures e <= size
  {
    ClearLowBit(ClampToScreen(Ceil(hi), size) + 1)
  }

  /** The projection step's result for one triangle: the projected corners
      `sa`, `sb`, `sc`, the source triangle's texture coordinates and
      normals, and the even bounding box. */
  function ScreenTriangle(tri: Triangle3D, sa: Point3D, sb: Point3D, sc: Point3D, width: u32, height: u32): (r: Triangle3D)
    requires width >= 1 && height >= 1
    ensures r.a == sa && r.b == sb && r.c == sc
    ensures r.ta == tri.ta && r.tb == tri.tb && r.tc == tri.tc
    ensures r.na == tri.na && r.nb == tri.nb && r.nc == tri.nc
    ensures r.bbStartX % 2 == 0 && r.bbStartY % 2 == 0 && r.bbEndX % 2 == 0 && r.bbEndY % 2 == 0
    ensures r.bbStartX <= r.bbEndX <= width && r.bbStartY <= r.bbEndY <= height
  {
    var minX, maxX := Min3(sa.x, sb.x, sc.x), Max3(sa.x, sb.x, sc.x);
    var minY, maxY := Min3(sa.y, sb.y, sc.y), Max3(sa.y, sb.y, sc.y);
    BoxOrdered(minX, maxX, width);
    BoxOrdered(minY, maxY, height);
    Triangle3D(sa, sb, sc, tri.ta, tri.tb, tri.tc, tri.na, tri.nb, tri.nc,
               BoxStart(minX, width), BoxStart(minY, height), BoxEnd(maxX, width), BoxEnd(maxY, height))
  }

  /** A box never ends before it starts. */
  lemma BoxOrdered(lo: real, hi: real, size: u32)
    requires size >= 1 && lo <= hi
    ensures BoxStart(lo, size) <= BoxEnd(hi, size)
  {
    assert lo.Floor <= Ceil(hi);
  }

  /** On an axis of even size, every pixel whose centre lies within the
      coordinate range is inside the box. The even size matters: on an odd
      axis the last pixel can fall outside (see `OddSizeMissesLastPixel`). */
  lemma BoxCoversCentres(lo: real, hi: real, size: u32, p: nat)
    requires size >= 1 && size % 2 == 0
    requires p < size
    requires lo <= p as real + 0.5 <= hi
    ensures BoxStart(lo, size) <= p < BoxEnd(hi, size)
  {
    assert lo.Floor <= p;
    assert p < Ceil(hi);
  }

  /** Why the screen must have even dimensions: on an axis of three pixels,
      the last pixel's centre 2.5 lies in [2, 3], yet the box ends at 2. */
  lemma OddSizeMissesLastPixel()
    ensures 2.0 <= 2.5 <= 3.0 && BoxEnd(3.0, 3) == 2
  {
    assert Ceil(3.0) == 3;
    assert ClampToScreen(3, 3) == 2;
    assert ClearLowBit(3) == 2;
  }

  /** A point inside the triangle lies between the smallest and largest
      corner coordinates. */
  lemma InsideWithinExtent(a: Point2D, b: Point2D, c: Point2D, p: Point2D)
    requires PointInTriangle(a, b, c, p).inside
    ensures Min3(a.x, b.x, c.x) <= p.x <= Max3(a.x, b.x, c.x)
    ensures Min3(a.y, b.y, c.y) <= p.y <= Max3(a.y, b.y, c.y)
  {
    var w := PointInTriangle(a, b, c, p).weights.value;
    WeightsReconstructPoint(a, b, c, p);
    InsideWeightsBounded(a, b, c, p);
    ConvexWithin(a.x, b.x, c.x, w.x, w.y, w.z, p.x);
    ConvexWithin(a.y, b.y, c.y, w.x, w.y, w.z, p.y);
  }

  /** A convex combination lies between the smallest and largest value. */
  lemma ConvexWithin(a: real, b: real, c: real, u: real, v: real, w: real, q: real)
    requires u >= 0.0 && v >= 0.0 && w >= 0.0 && u + v + w == 1.0
    requires q == u * a + v * b + w * c
    ensures Min3(a, b, c) <= q <= Max3(a, b, c)
  {
    var lo, hi := Min3(a, b, c), Max3(a, b, c);
    ScaleBetween(u, a, lo, hi, u * a);
    ScaleBetween(v, b, lo, hi, v * b);
    ScaleBetween(w, c, lo, hi, w * c);
    assert u * lo + v * lo + w * lo == (u + v + w) * lo;
    assert u * hi + v * hi + w * hi == (u + v + w) * hi;
  }

  lemma ScaleBetween(k: real, x: real, lo: real, hi: real, d: real)
    requires k >= 0.0 && lo <= x <= hi && d == k * x
    ensures k * lo <= d <= k * hi
  {
    assert k * (x - lo) >= 0.0 && k * (hi - x) >= 0.0 by {
      NonNegativeProduct(k, x - lo);
      NonNegativeProduct(k, hi - x);
    }
  }

  lemma NonNegativeProduct(k: real, x: real)
    requires k >= 0.0 && x >= 0.0
    ensures k * x >= 0.0
  {
  }

  /** Every pixel whose centre the inside test accepts lies in the
      triangle's bounding box, on a screen of even width and height. */
  lemma BoundingBoxCoversTriangle(tri: Triangle3D, sa: Point3D, sb: Point3D, sc: Point3D, width: u32, height: u32, px: nat, py: nat)
    requires width >= 1 && height >= 1 && width % 2 == 0 && height % 2 == 0
    requires px < width && py < height
    requires PointInTriangle(Point2D(sa.x, sa.y), Point2D(sb.x, sb.y), Point2D(sc.x, sc.y),
                             Point2D(px as real + 0.5, py as real + 0.5)).inside
    ensures var r := ScreenTriangle(tri, sa, sb, sc, width, height);
      r.bbStartX <= px < r.bbEndX && r.bbStartY <= py < r.bbEndY
  {
    InsideWithinExtent(Point2D(sa.x, sa.y), Point2D(sb.x, sb.y), Point2D(sc.x, sc.y), Point2D(px as real + 0.5, py as real + 0.5));
    BoxCoversCentres(Min3(sa.x, sb.x, sc.x), Max3(sa.x, sb.x, sc.x), width, px);
    BoxCoversCentres(Min3(sa.y, sb.y, sc.y), Max3(sa.y, sb.y, sc.y), height, py);
  }

  // ---------------------------------------------------------------------
  // The quads a tile walks

  /** `(lo..hi).step_by(2)`. */
  function StepRange(lo: nat, hi: nat): (r: seq<nat>)
    ensures |r| == if lo < hi then (hi - lo + 1) / 2 else 0
    ensures forall i :: 0 <= i < |r| ==> r[i] == lo + 2 * i && r[i] < hi
    decreases hi - lo
  {
    if lo < hi then [lo] + StepRange(lo + 2, hi) else []
  }

  /** The range visits exactly the values from `lo` below `hi` at an even
      distance from `lo`. */
  lemma StepRangeMembers(lo: nat, hi: nat, v: nat)
    ensures v in StepRange(lo, hi) <==> lo <= v < hi && (v - lo) % 2 == 0
  {
    var r := StepRange(lo, hi);
    if lo <= v < hi && (v - lo) % 2 == 0 {
      var i := (v - lo) / 2;
      assert r[i] == v;
    }
  }

  function MaxNat(a: nat, b: nat): nat {
    if a < b then b else a
  }

  function MinNat(a: nat, b: nat): nat {
    if a < b then a else b
  }

  /** The quad rows a tile visits for a triangle: its box clipped to the
      tile, every second row from the first one in both. */
  function QuadRows(tri: Triangle3D, rect: Rect): (ys: seq<nat>)
    ensures forall y: nat :: y in ys <==>
      && tri.bbStartY <= y < tri.bbEndY && rect.minY <= y < rect.maxY
      && (y - MaxNat(tri.bbStartY, rect.minY)) % 2 == 0
  {
    var lo, hi := MaxNat(tri.bbStartY, rect.minY), MinNat(tri.bbEndY, rect.maxY);
    forall y: nat ensures y in StepRange(lo, hi) <==> lo <= y < hi && (y - lo) % 2 == 0 {
      StepRangeMembers(lo, hi, y);
    }
    StepRange(lo, hi)
  }

  /** The quad columns a tile visits for a triangle, likewise. */
  function QuadColumns(tri: Triangle3D, rect: Rect): (xs: seq<nat>)
    ensures forall x: nat :: x in xs <==>
      && tri.bbStartX <= x < tri.bbEndX && rect.minX <= x < rect.maxX
      && (x - MaxNat(tri.bbStartX, rect.minX)) % 2 == 0
  {
    var lo, hi := MaxNat(tri.bbStartX, rect.minX), MinNat(tri.bbEndX, rect.maxX);
    forall x: nat ensures x in StepRange(lo, hi) <==> lo <= x < hi && (x - lo) % 2 == 0 {
      StepRangeMembers(lo, hi, x);
    }
    StepRange(lo, hi)
  }

  /** Every visited quad origin lies in both the triangle's box and the
      tile, so its tile-local coordinates neither underflow nor reach the
      tile's size. */
  lemma QuadOriginInTile(tri: Triangle3D, rect: Rect, x: nat, y: nat)
    requires rect.minX <= rect.maxX && rect.minY <= rect.maxY
    requires x in QuadColumns(tri, rect) && y in QuadRows(tri, rect)
    ensures tri.bbStartX <= x < tri.bbEndX && tri.bbStartY <= y < tri.bbEndY
    ensures rect.minX <= x < rect.maxX && rect.minY <= y < rect.maxY
    ensures x - rect.minX < Width(rect) && y - rect.minY < Height(rect)
  {
    StepRangeMembers(MaxNat(tri.bbStartX, rect.minX), MinNat(tri.bbEndX, rect.maxX), x);
    StepRangeMembers(MaxNat(tri.bbStartY, rect.minY), MinNat(tri.bbEndY, rect.maxY), y);
  }

  /** With an even box and a tile with even bounds, the whole 2x2 block of
      every visited quad lies in the box and in the tile. */
  lemma QuadBlockInTile(tri: Triangle3D, rect: Rect, x: nat, y: nat)
    requires rect.minX <= rect.maxX && rect.minY <= rect.maxY
    requires tri.bbStartX % 2 == 0 && tri.bbEndX % 2 == 0 && tri.bbStartY % 2 == 0 && tri.bbEndY % 2 == 0
    requires rect.minX % 2 == 0 && rect.maxX % 2 == 0 && rect.minY % 2 == 0 && rect.maxY % 2 == 0
    requires x in QuadColumns(tri, rect) && y in QuadRows(tri, rect)
    ensures x + 1 < tri.bbEndX && x + 1 < rect.maxX
    ensures y + 1 < tri.bbEndY && y + 1 < rect.maxY
  {
    QuadAxisInBounds(tri.bbStartX, rect.minX, tri.bbEndX, rect.maxX, x);
    QuadAxisInBounds(tri.bbStartY, rect.minY, tri.bbEndY, rect.maxY, y);
  }

  /** One axis of `QuadBlockInTile`: a visited even coordinate is at least
      two below both even ends. */
  lemma QuadAxisInBounds(start1: nat, start2: nat, end1: nat, end2: nat, v: nat)
    requires start1 % 2 == 0 && start2 % 2 == 0 && end1 % 2 == 0 && end2 % 2 == 0
    requires v in StepRange(MaxNat(start1, start2), MinNat(end1, end2))
    ensures v + 1 < end1 && v + 1 < end2
  {
    var lo := MaxNat(start1, start2);
    StepRangeMembers(lo, MinNat(end1, end2), v);
    EvenFromEvenStart(lo, v);
    EvenBelowEven(v, end1);
    EvenBelowEven(v, end2);
  }

  lemma EvenFromEvenStart(s: nat, v: nat)
    requires s % 2 == 0 && s <= v && (v - s) % 2 == 0
    ensures v % 2 == 0
  {
  }

  /** An even number below an even bound is at least two below it. */
  lemma EvenBelowEven(v: nat, e: nat)
    requires v % 2 == 0 && e % 2 == 0 && v < e
    ensures v + 1 < e
  {
    assert v == 2 * (v / 2) && e == 2 * (e / 2);
  }

  // ---------------------------------------------------------------------
  // The depth test

  /** One value per lane of a 2x2 quad: lanes 0 and 1 are the top row,
      lanes 2 and 3 the bottom row. */
  datatype Quad<T> = Quad(l0: T, l1: T, l2: T, l3: T)

  function Lane<T>(q: Quad<T>, i: nat): T
    requires i < 4
  {
    if i == 0 then q.l0 else if i == 1 then q.l1 else if i == 2 then q.l2 else q.l3
  }

  /** The pixel of lane `i` of the quad at `(x, y)`. */
  function LaneColumn(x: nat, i: nat): nat requires i < 4 { x + i % 2 }

  function LaneRow(y: nat, i: nat): nat requires i < 4 { y + i / 2 }

  /** The sample points of a quad: the centres of its four pixels. */
  function SamplePoints(x: nat, y: nat): (q: Quad<Point2D>)
    ensures forall i :: 0 <= i < 4 ==>
      Lane(q, i) == Point2D(LaneColumn(x, i) as real + 0.5, LaneRow(y, i) as real + 0.5)
  {
    Quad(Point2D(x as real + 0.5, y as real + 0.5), Point2D(x as real + 1.5, y as real + 0.5),
         Point2D(x as real + 0.5, y as real + 1.5), Point2D(x as real + 1.5, y as real + 1.5))
  }

  /** `quad & depth.simd_lt(buf_depths)`. */
  function PassMask(inside: Quad<bool>, depth: Quad<Depth>, stored: Quad<Depth>): (m: Quad<bool>)
    ensures forall i :: 0 <= i < 4 ==> (Lane(m, i) <==> Lane(inside, i) && Nearer(Lane(depth, i), Lane(stored, i)))
  {
    Quad(inside.l0 && Nearer(depth.l0, stored.l0), inside.l1 && Nearer(depth.l1, stored.l1),
         inside.l2 && Nearer(depth.l2, stored.l2), inside.l3 && Nearer(depth.l3, stored.l3))
  }

  function Any(m: Quad<bool>): bool {
    m.l0 || m.l1 || m.l2 || m.l3
  }

  /** A lane passes iff it is inside the triangle and strictly nearer than
      the stored depth; on a tie the stored value wins, so of two triangles
      at the same depth the one drawn first keeps the pixel. */
  lemma PassMaskLanes(inside: Quad<bool>, depth: Quad<Depth>, stored: Quad<Depth>, i: nat)
    requires i < 4
    ensures Lane(PassMask(inside, depth, stored), i) <==> Lane(inside, i) && Nearer(Lane(depth, i), Lane(stored, i))
    ensures Lane(depth, i) == Lane(stored, i) ==> !Lane(PassMask(inside, depth, stored), i)
    ensures Lane(depth, i) == Infinity ==> !Lane(PassMask(inside, depth, stored), i)
  {
  }

  /** The quad helpers the render loop calls for tile-local coordinates. They
      read and write the tile's buffers; what they do with them is left open. */
  datatype QuadOps = QuadOps(
    getDepthQuad: (ScreenSpace, nat, nat) -> Quad<Depth>,
    setDepthQuad: (ScreenSpace, nat, nat, Quad<Depth>, Quad<bool>) -> seq<Depth>,
    setPixelQuad: (ScreenSpace, nat, nat, Quad<Color>, Quad<bool>) -> seq<u8>)

  /** Per quad origin in screen coordinates: the inside mask, the
      interpolated depth, and the shaded colour of the four lanes. */
  datatype Fragments = Fragments(
    inside: (nat, nat) -> Quad<bool>,
    depth: (nat, nat) -> Quad<Depth>,
    color: (nat, nat) -> Quad<Color>)

  /** The body of the inner raster loop for the quad at screen `(x, y)`: a
      quad with no passing lane is skipped, otherwise depth and colour are
      written under the same mask. */
  function QuadStep(ops: QuadOps, frags: Fragments, tile: ScreenSpace, rect: Rect, x: nat, y: nat): (r: ScreenSpace)
    requires rect.minX <= x < rect.maxX && rect.minY <= y < rect.maxY
    ensures r.rect == tile.rect && r.width == tile.width && r.height == tile.height
    ensures var mask := PassMask(frags.inside(x, y), frags.depth(x, y),
                                 ops.getDepthQuad(tile, x - rect.minX, y - rect.minY));
      && (!Any(mask) ==> r == tile)
      && (Any(mask) ==>
            && r.depth == ops.setDepthQuad(tile, x - rect.minX, y - rect.minY, frags.depth(x, y), mask)
            && r.rgba == ops.setPixelQuad(tile.(depth := r.depth), x - rect.minX, y - rect.minY, frags.color(x, y), mask))
  {
    var lx, ly := x - rect.minX, y - rect.minY;
    var mask := PassMask(frags.inside(x, y), frags.depth(x, y), ops.getDepthQuad(tile, lx, ly));
    if !Any(mask) then tile
    else
      var withDepth := tile.(depth := ops.setDepthQuad(tile, lx, ly, frags.depth(x, y), mask));
      withDepth.(rgba := ops.setPixelQuad(withDepth, lx, ly, frags.color(x, y), mask))
  }

  /** The inner loop over one quad row, as a fold; the tile keeps its
      rectangle and size. */
  function RasterRow(ops: QuadOps, frags: Fragments, tile: ScreenSpace, rect: Rect, xs: seq<nat>, y: nat): (r: ScreenSpace)
    requires rect.minY <= y < rect.maxY
    requires forall i :: 0 <= i < |xs| ==> rect.minX <= xs[i] < rect.maxX
    ensures r.rect == tile.rect && r.width == tile.width && r.height == tile.height
    decreases |xs|
  {
    if |xs| == 0 then tile
    else RasterRow(ops, frags, QuadStep(ops, frags, tile, rect, xs[0], y), rect, xs[1..], y)
  }

  /** The two nested loops over a triangle's quads in one tile, as a fold;
      the tile keeps its rectangle and size. */
  function RasterRows(ops: QuadOps, frags: Fragments, tile: ScreenSpace, rect: Rect, xs: seq<nat>, ys: seq<nat>): (r: ScreenSpace)
    requires forall i :: 0 <= i < |ys| ==> rect.minY <= ys[i] < rect.maxY
    requires forall i :: 0 <= i < |xs| ==> rect.minX <= xs[i] < rect.maxX
    ensures r.rect == tile.rect && r.width == tile.width && r.height == tile.height
    decreases |ys|
  {
    if |ys| == 0 then tile
    else RasterRows(ops, frags, RasterRow(ops, frags, tile, rect, xs, ys[0]), rect, xs, ys[1..])
  }

  /** A row in which no lane is inside the triangle writes nothing. */
  lemma {:induction false} RasterRowOutsideUnchanged(ops: QuadOps, frags: Fragments, tile: ScreenSpace, rect: Rect, xs: seq<nat>, y: nat)
    requires rect.minY <= y < rect.maxY
    requires forall i :: 0 <= i < |xs| ==> rect.minX <= xs[i] < rect.maxX
    requires forall i :: 0 <= i < |xs| ==> !Any(frags.inside(xs[i], y))
    ensures RasterRow(ops, frags, tile, rect, xs, y) == tile
    decreases |xs|
  {
    if |xs| > 0 {
      assert QuadStep(ops, frags, tile, rect, xs[0], y) == tile;
      RasterRowOutsideUnchanged(ops, frags, tile, rect, xs[1..], y);
    }
  }

  /** A triangle none of whose visited lanes is inside writes nothing. */
  lemma {:induction false} RasterOutsideUnchanged(ops: QuadOps, frags: Fragments, tile: ScreenSpace, rect: Rect, xs: seq<nat>, ys: seq<nat>)
    requires forall i :: 0 <= i < |ys| ==> rect.minY <= ys[i] < rect.maxY
    requires forall i :: 0 <= i < |xs| ==> rect.minX <= xs[i] < rect.maxX
    requires forall i, j :: 0 <= i < |xs| && 0 <= j < |ys| ==> !Any(frags.inside(xs[i], ys[j]))
    ensures RasterRows(ops, frags, tile, rect, xs, ys) == tile
    decreases |ys|
  {
    if |ys| > 0 {
      RasterRowOutsideUnchanged(ops, frags, tile, rect, xs, ys[0]);
      RasterOutsideUnchanged(ops, frags, tile, rect, xs, ys[1..]);
    }
  }

  /** The raster loop of one triangle over one tile (main.rs:243-283). Every
      quad it visits has in-tile local coordinates; the result is the fold
      of `QuadStep` over the rows and columns, in order. */
  method RasterTriangle(ops: QuadOps, frags: Fragments, tile: ScreenSpace, tri: Triangle3D) returns (r: ScreenSpace)
    requires tile.rect.minX <= tile.rect.maxX && tile.rect.minY <= tile.rect.maxY
    ensures r.rect == tile.rect && r.width == tile.width && r.height == tile.height
    ensures var xs, ys := QuadColumns(tri, tile.rect), QuadRows(tri, tile.rect);
      r == RasterRows(ops, frags, tile, tile.rect, xs, ys)
  {
    var rect := tile.rect;
    var ys := QuadRows(tri, rect);
    var xs := QuadColumns(tri, rect);
    var y0, y1 := MaxNat(tri.bbStartY, rect.minY), MinNat(tri.bbEndY, rect.maxY);
    var x0, x1 := MaxNat(tri.bbStartX, rect.minX), MinNat(tri.bbEndX, rect.maxX);
    r := tile;
    var y := y0;
    var j := 0;
    while y < y1
      invariant j <= |ys| && y == y0 + 2 * j
      invariant y < y1 <==> j < |ys|
      invariant RasterRows(ops, frags, tile, rect, xs, ys) == RasterRows(ops, frags, r, rect, xs, ys[j..])
    {
      assert ys[j] == y;
      var row := r;
      var x := x0;
      var i := 0;
      while x < x1
        invariant i <= |xs| && x == x0 + 2 * i
        invariant x < x1 <==> i < |xs|
        invariant RasterRow(ops, frags, r, rect, xs, y) == RasterRow(ops, frags, row, rect, xs[i..], y)
      {
        assert xs[i] == x;
        row := QuadStep(ops, frags, row, rect, x, y);
        i := i + 1;
        x := x + 2;
      }
      assert xs[i..] == [];
      r := row;
      j := j + 1;
      y := y + 2;
    }
    assert ys[j..] == [];
  }
}
