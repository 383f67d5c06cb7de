/** The framebuffer: an RGBA byte buffer and a depth buffer of `width * height`
    pixels each, addressed row by row. */
module Screen {
  import opened Wrappers
  import opened Numeric
  import opened Rectangle

  /** A depth-buffer entry: an `f32` that is either finite or `+inf`, the
      value of a cleared buffer. */
  datatype Depth = Finite(d: real) | Infinity

  /** The strict `<` on depth values, with `+inf` above every finite value. */
  predicate Nearer(a: Depth, b: Depth) {
    match (a, b)
    case (Finite(x), Finite(y)) => x < y
    case (Finite(_), Infinity) => true
    case (Infinity, _) => false
  }

  type Color = (u8, u8, u8, u8)

  datatype ScreenSpace = ScreenSpace(rect: Rect, width: u32, height: u32, rgba: seq<u8>, depth: seq<Depth>)

  /** Buffers of the right size, and small enough that every byte index
      `(y * width + x) * 4` the source computes in `u32` arithmetic fits. */
  ghost predicate WellFormed(s: ScreenSpace) {
    && 4 * (s.width * s.height) <= U32_LIMIT
    && |s.rgba| == 4 * (s.width * s.height)
    && |s.depth| == s.width * s.height
  }

  /** The pixel number of `(x, y)`, the index into the depth buffer. */
  function PixelNumber(width: nat, x: nat, y: nat): nat {
    y * width + x
  }

  /** In-bounds coordinates address distinct pixels below `width * height`. */
  lemma PixelNumberBounds(width: nat, height: nat, x: nat, y: nat)
    requires x < width && y < height
    ensures PixelNumber(width, x, y) < width * height
  {
    MulStrictlyMonotone(y, height, width);
  }

  lemma PixelNumberInjective(width: nat, x1: nat, y1: nat, x2: nat, y2: nat)
    requires x1 < width && x2 < width
    requires PixelNumber(width, x1, y1) == PixelNumber(width, x2, y2)
    ensures x1 == x2 && y1 == y2
  {
    if y1 < y2 {
      MulStrictlyMonotone(y1, y2, width);
    } else if y2 < y1 {
      MulStrictlyMonotone(y2, y1, width);
    }
  }

  /** `ScreenSpace::new`: a black, transparent screen at infinite depth. */
  function New(width: u32, height: u32): (s: ScreenSpace)
    requires 4 * (width * height) <= U32_LIMIT
    ensures WellFormed(s)
    ensures s.width == width && s.height == height && s.rect == Rect(0, 0, 0, 0)
    ensures forall k :: 0 <= k < |s.rgba| ==> s.rgba[k] == 0
    ensures forall k :: 0 <= k < |s.depth| ==> s.depth[k] == Infinity
  {
    var sizeCalc := width * height;
    ScreenSpace(Rect(0, 0, 0, 0), width, height, seq(sizeCalc * 4, _ => 0), seq(sizeCalc, _ => Infinity))
  }

  /** `get_pixel`: the four bytes of an in-bounds pixel, `None` outside. */
  function GetPixel(s: ScreenSpace, x: u32, y: u32): (c: Option<Color>)
    requires WellFormed(s)
    ensures c.Some? <==> x < s.width && y < s.height
    ensures c.Some? ==> var i := 4 * PixelNumber(s.width, x, y);
      i + 3 < |s.rgba| && c.value == (s.rgba[i], s.rgba[i + 1], s.rgba[i + 2], s.rgba[i + 3])
  {
    if x >= s.width || y >= s.height then None
    else
      PixelNumberBounds(s.width, s.height, x, y);
      var i := (y * s.width + x) * 4;
      Some((s.rgba[i], s.rgba[i + 1], s.rgba[i + 2], s.rgba[i + 3]))
  }

  /** `set_pixel`: writes the pixel when it is in bounds and ignores the call otherwise. */
  function SetPixel(s: ScreenSpace, x: u32, y: u32, red: u8, green: u8, blue: u8, alpha: u8): (s': ScreenSpace)
    requires WellFormed(s)
    ensures WellFormed(s')
    ensures s'.width == s.width && s'.height == s.height && s'.rect == s.rect && s'.depth == s.depth
    ensures x < s.width && y < s.height ==> GetPixel(s', x, y) == Some((red, green, blue, alpha))
    ensures forall k :: 0 <= k < |s.rgba| && k / 4 != PixelNumber(s.width, x, y) ==> s'.rgba[k] == s.rgba[k]
    ensures !(x < s.width && y < s.height) ==> s' == s
  {
    if x >= s.width || y >= s.height then s
    else
      PixelNumberBounds(s.width, s.height, x, y);
      var i := (y * s.width + x) * 4;
      s.(rgba := s.rgba[i := red][i + 1 := green][i + 2 := blue][i + 3 := alpha])
  }

  /** Setting a pixel leaves every other pixel as it was. */
  lemma SetPixelFrame(s: ScreenSpace, x: u32, y: u32, red: u8, green: u8, blue: u8, alpha: u8, x2: u32, y2: u32)
    requires WellFormed(s)
    requires x2 != x || y2 != y
    ensures GetPixel(SetPixel(s, x, y, red, green, blue, alpha), x2, y2) == GetPixel(s, x2, y2)
  {
    if x < s.width && y < s.height && x2 < s.width && y2 < s.height {
      var n, n2 := PixelNumber(s.width, x, y), PixelNumber(s.width, x2, y2);
      if n == n2 {
        PixelNumberInjective(s.width, x, y, x2, y2);
      }
      assert n2 != n;
      var i := 4 * n2;
      assert i / 4 == n2 && (i + 1) / 4 == n2 && (i + 2) / 4 == n2 && (i + 3) / 4 == n2;
    }
  }

  /** The depth index the source computes; it is not bounds-checked against
      the width, only against the buffer. */
  predicate DepthIndexValid(s: ScreenSpace, x: u32, y: u32) {
    PixelNumber(s.width, x, y) < |s.depth|
  }

  /** `get_depth`. */
  function GetDepth(s: ScreenSpace, x: u32, y: u32): Depth
    requires DepthIndexValid(s, x, y)
  {
    s.depth[y * s.width + x]
  }

  /** `set_depth`: the value is read back by `get_depth`, and nothing else changes. */
  function SetDepth(s: ScreenSpace, x: u32, y: u32, value: Depth): (s': ScreenSpace)
    requires DepthIndexValid(s, x, y)
    ensures DepthIndexValid(s', x, y) && GetDepth(s', x, y) == value
    ensures s'.rgba == s.rgba && s'.width == s.width && s'.height == s.height && s'.rect == s.rect
    ensures |s'.depth| == |s.depth|
    ensures forall k :: 0 <= k < |s.depth| && k != PixelNumber(s.width, x, y) ==> s'.depth[k] == s.depth[k]
  {
    s.(depth := s.depth[y * s.width + x := value])
  }

  /** The byte of the cleared buffer at index `k`: the fill colour's bytes in
      the order a little-endian `u32` stores them, red first. */
  function ClearByte(k: nat, r: u8, g: u8, b: u8, a: u8): u8 {
    match k % 4
    case 0 => r
    case 1 => g
    case 2 => b
    case _ => a
  }

  lemma ClearBytesOfPixel(n: nat, r: u8, g: u8, b: u8, a: u8)
    ensures ClearByte(4 * n, r, g, b, a) == r && ClearByte(4 * n + 1, r, g, b, a) == g
    ensures ClearByte(4 * n + 2, r, g, b, a) == b && ClearByte(4 * n + 3, r, g, b, a) == a
  {
    assert (4 * n) % 4 == 0 && (4 * n + 1) % 4 == 1 && (4 * n + 2) % 4 == 2 && (4 * n + 3) % 4 == 3;
  }

  /** `clear`: every pixel gets the colour and every depth becomes `+inf`. */
  method Clear(s: ScreenSpace, r: u8, g: u8, b: u8, a: u8) returns (s': ScreenSpace)
    requires WellFormed(s)
    ensures WellFormed(s')
    ensures s'.width == s.width && s'.height == s.height && s'.rect == s.rect
    ensures forall k :: 0 <= k < |s'.rgba| ==> s'.rgba[k] == ClearByte(k, r, g, b, a)
    ensures forall k :: 0 <= k < |s'.depth| ==> s'.depth[k] == Infinity
  {
    var rgba := s.rgba;
    var pixels := s.width * s.height;
    var i := 0;
    while i < pixels
      invariant 0 <= i <= pixels
      invariant |rgba| == 4 * pixels
      invariant forall k :: 0 <= k < 4 * i ==> rgba[k] == ClearByte(k, r, g, b, a)
    {
      ClearBytesOfPixel(i, r, g, b, a);
      rgba := rgba[4 * i := r][4 * i + 1 := g][4 * i + 2 := b][4 * i + 3 := a];
      i := i + 1;
    }
    var depth := s.depth;
    var j := 0;
    while j < |depth|
      invariant 0 <= j <= |depth|
      invariant |depth| == |s.depth|
      invariant forall k :: 0 <= k < j ==> depth[k] == Infinity
    {
      depth := depth[j := Infinity];
      j := j + 1;
    }
    s' := s.(rgba := rgba, depth := depth);
  }

  /** After a clear every in-bounds pixel reads back as the fill colour. */
  lemma ClearedPixel(s': ScreenSpace, r: u8, g: u8, b: u8, a: u8, x: u32, y: u32)
    requires WellFormed(s')
    requires forall k :: 0 <= k < |s'.rgba| ==> s'.rgba[k] == ClearByte(k, r, g, b, a)
    requires x < s'.width && y < s'.height
    ensures GetPixel(s', x, y) == Some((r, g, b, a))
  {
    ClearBytesOfPixel(PixelNumber(s'.width, x, y), r, g, b, a);
  }
}
