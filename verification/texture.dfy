/** A texture held bottom row first, as the loader stores it, and the
    nearest-texel lookup `sample`. */
module Texture {
  import opened Numeric
  import opened Squares

  datatype Texture = Texture(width: u32, height: u32, rgba: seq<u8>)

  /** Where row `y` of a `width`-pixel RGBA image starts. */
  function RowStart(width: nat, y: nat): nat {
    4 * (y * width)
  }

  /** Row `y` of an RGBA image `width` pixels wide. */
  function RowOf(img: seq<u8>, width: nat, y: nat): seq<u8>
    requires RowStart(width, y) + 4 * width <= |img|
  {
    img[RowStart(width, y)..RowStart(width, y) + 4 * width]
  }

  lemma RowStartNext(width: nat, y: nat)
    ensures RowStart(width, y + 1) == RowStart(width, y) + 4 * width
  {
  }

  /** Rows before row `y` end no later than where row `y` starts. */
  lemma RowStartOrdered(width: nat, j: nat, y: nat)
    requires j < y
    ensures RowStart(width, j) + 4 * width <= RowStart(width, y)
  {
    MulStrictlyMonotone(j, y, width);
  }

  /** The buffer of `Texture::load`, given the decoded top-down RGBA image:
      the rows in reverse order, so that row 0 is the bottom of the picture. */
  method Load(width: u32, height: u32, decoded: seq<u8>) returns (t: Texture)
    requires 4 * (width * height) < U32_LIMIT
    requires |decoded| == 4 * (width * height)
    ensures t.width == width && t.height == height
    ensures |t.rgba| == 4 * (width * height)
    ensures forall y :: 0 <= y < height ==>
      RowStart(width, y) + 4 * width <= |t.rgba| && RowOf(t.rgba, width, y) == RowOf(decoded, width, height - 1 - y)
  {
    var rgba: seq<u8> := [];
    var y := height;
    while y > 0
      invariant 0 <= y <= height
      invariant |rgba| == RowStart(width, height - y)
      invariant forall j :: 0 <= j < height - y ==>
        RowStart(width, j) + 4 * width <= |rgba| && RowOf(rgba, width, j) == RowOf(decoded, width, height - 1 - j)
    {
      y := y - 1;
      var rowStart := y * width * 4;
      var rowEnd := rowStart + width * 4;
      RowStartNext(width, y);
      RowStartNext(width, height - 1 - y);
      if y + 1 < height {
        RowStartOrdered(width, y, height);
      }
      assert rowEnd <= RowStart(width, height) == |decoded|;
      var before := rgba;
      rgba := rgba + decoded[rowStart..rowEnd];
      forall j | 0 <= j < height - y
        ensures RowStart(width, j) + 4 * width <= |rgba| && RowOf(rgba, width, j) == RowOf(decoded, width, height - 1 - j)
      {
        if j < height - 1 - y {
          RowStartOrdered(width, j, height - 1 - y);
          assert RowOf(rgba, width, j) == RowOf(before, width, j);
        }
      }
    }
    t := Texture(width, height, rgba);
  }

  /** `x * s` stays in `[0, s)` for `0 <= x < 1` and positive `s`, and is zero for `s == 0`. */
  lemma ScaleFraction(x: real, s: real, d: real)
    requires d == x * s
    requires 0.0 <= x < 1.0 && s >= 0.0
    ensures 0.0 <= d <= s
    ensures s > 0.0 ==> d < s
  {
    if s > 0.0 {
      if x > 0.0 {
        ProductPositive(x, s, d);
        ProductPositive(1.0 - x, s, s - d);
      }
    }
  }

  /** A negative fraction scaled by a non-negative size is not positive. */
  lemma ScaleNegative(x: real, s: real, d: real)
    requires d == x * s
    requires x < 0.0 && s >= 0.0
    ensures d <= 0.0
  {
    if s > 0.0 {
      ProductPositive(-x, s, -d);
    }
  }

  /** A fraction in (-1, 1) scaled by a non-negative size `s` rounds to at most `s`. */
  lemma ScaledFractionBounds(x: real, s: real, d: real)
    requires d == x * s
    requires -1.0 < x < 1.0 && s >= 0.0
    ensures d <= s && (s > 0.0 ==> d < s)
    ensures x < 0.0 ==> d <= 0.0
  {
    if x >= 0.0 {
      ScaleFraction(x, s, d);
    } else {
      ScaleNegative(x, s, d);
    }
  }

  /** `x` is the texel nearest to where `f` falls along an axis of `size`
      texels: within half a texel of `fract(f) * (size - 1)`, ties going up.
      A negative `f` has a non-positive fraction, which lands on texel 0. */
  ghost predicate NearestTexel(f: real, size: nat, x: nat) {
    if f < 0.0 then x == 0
    else x as real - 0.5 <= Fract(f) * (size as real - 1.0) < x as real + 0.5
  }

  /** At most one texel is nearest: the half-open windows do not overlap. */
  lemma NearestTexelUnique(f: real, size: nat, x: nat, y: nat)
    requires NearestTexel(f, size, x) && NearestTexel(f, size, y)
    ensures x == y
  {
  }

  /** A non-positive scaled fraction rounds, and saturates, to 0. */
  lemma RoundNonPositive(scaled: real)
    requires scaled <= 0.0
    ensures SaturateU32(Round(scaled)) == 0
  {
    if scaled == 0.0 {
      assert Round(scaled) == 0;
    }
  }

  /** A scaled fraction in `[0, size - 1]` rounds to a texel below `size`, which the cast keeps. */
  lemma RoundInRange(scaled: real, size: nat)
    requires 1 <= size <= U32_LIMIT
    requires 0.0 <= scaled <= size as real - 1.0
    ensures Round(scaled) < size
    ensures SaturateU32(Round(scaled)) == Round(scaled)
  {
  }

  /** The texel coordinate along one axis: `(f.fract() * (size - 1.0)).round() as u32`. */
  function TexelCoord(f: real, size: nat): (c: u32)
    requires size >= 1
    ensures c < size
    ensures size <= U32_LIMIT ==> NearestTexel(f, size, c)
  {
    var scaled := Fract(f) * (size as real - 1.0);
    ScaledFractionBounds(Fract(f), size as real - 1.0, scaled);
    if f < 0.0 then
      RoundNonPositive(scaled);
      SaturateU32(Round(scaled))
    else if size <= U32_LIMIT then
      ScaleFraction(Fract(f), size as real - 1.0, scaled);
      RoundInRange(scaled, size);
      SaturateU32(Round(scaled))
    else
      SaturateU32(Round(scaled))
  }

  /** A well-formed texture: at least one texel, and `u32` byte indices. */
  ghost predicate Valid(t: Texture) {
    && t.width >= 1 && t.height >= 1
    && 4 * (t.width * t.height) <= U32_LIMIT
    && |t.rgba| == 4 * (t.width * t.height)
  }

  lemma TexelIndexBounds(width: nat, height: nat, x: nat, y: nat)
    requires x < width && y < height
    ensures 0 <= 4 * (y * width + x) && 4 * (y * width + x) + 3 < 4 * (width * height)
  {
    MulStrictlyMonotone(y, height, width);
    NatProduct(y, width, y * width);
  }

  /** The byte offset of texel `(x, y)`. */
  function TexelIndex(t: Texture, x: nat, y: nat): (i: nat)
    requires Valid(t) && x < t.width && y < t.height
    ensures i + 3 < |t.rgba|
  {
    TexelIndexBounds(t.width, t.height, x, y);
    (y * t.width + x) * 4
  }

  /** The four bytes of texel `(x, y)`. */
  function Texel(t: Texture, x: nat, y: nat): (u8, u8, u8, u8)
    requires Valid(t) && x < t.width && y < t.height
  {
    var i := TexelIndex(t, x, y);
    (t.rgba[i], t.rgba[i + 1], t.rgba[i + 2], t.rgba[i + 3])
  }

  /** A valid texture is at most `2^32` texels along either axis. */
  lemma AxesFitU32(t: Texture)
    requires Valid(t)
    ensures t.width <= U32_LIMIT && t.height <= U32_LIMIT
  {
    MulStrictlyMonotone(0, t.height, t.width);
    MulStrictlyMonotone(0, t.width, t.height);
  }

  /** `sample`: the four bytes of the texel nearest to `(fract(u) * (width - 1),
      fract(v) * (height - 1))`; every input lands in bounds. */
  function Sample(t: Texture, u: real, v: real): (c: (u8, u8, u8, u8))
    requires Valid(t)
    ensures forall x: nat, y: nat :: x < t.width && y < t.height && NearestTexel(u, t.width, x) && NearestTexel(v, t.height, y) ==>
      c == Texel(t, x, y)
  {
    var x := TexelCoord(u, t.width);
    var y := TexelCoord(v, t.height);
    AxesFitU32(t);
    assert forall x': nat, y': nat :: NearestTexel(u, t.width, x') && NearestTexel(v, t.height, y') ==> x' == x && y' == y by {
      forall x': nat, y': nat | NearestTexel(u, t.width, x') && NearestTexel(v, t.height, y') ensures x' == x && y' == y {
        NearestTexelUnique(u, t.width, x', x);
        NearestTexelUnique(v, t.height, y', y);
      }
    }
    var idx := TexelIndex(t, x, y);
    (t.rgba[idx], t.rgba[idx + 1], t.rgba[idx + 2], t.rgba[idx + 3])
  }

  /** For non-negative coordinates the fractional part ignores whole turns. */
  lemma FractPeriodic(f: real, k: nat)
    requires f >= 0.0
    ensures Fract(f + k as real) == Fract(f)
  {
    assert (f + k as real).Floor == f.Floor + k;
  }

  /** Texture coordinates repeat with period 1 in each non-negative direction. */
  lemma SampleRepeats(t: Texture, u: real, v: real, k: nat, l: nat)
    requires Valid(t)
    requires u >= 0.0 && v >= 0.0
    ensures Sample(t, u + k as real, v + l as real) == Sample(t, u, v)
  {
    TexelCoordPeriodic(u, k, t.width);
    TexelCoordPeriodic(v, l, t.height);
  }

  lemma TexelCoordPeriodic(f: real, k: nat, size: nat)
    requires f >= 0.0 && size >= 1
    ensures TexelCoord(f + k as real, size) == TexelCoord(f, size)
  {
    FractPeriodic(f, k);
  }
}
