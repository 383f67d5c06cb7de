/** The Windows BMP file that `write_bmp` produces from a screen: a 14-byte
    BITMAPFILEHEADER, a 40-byte BITMAPINFOHEADER, then 24-bit pixel rows
    stored bottom-up, each padded with zeros to a multiple of 4 bytes. */
module Bmp {
  import opened Numeric
  import opened Screen

  /** The size of both headers together, also the offset of the pixel array. */
  const HeaderSize: nat := 54

  /** `(3 * width + 3) & !3`. */
  function RowStride(width: nat): (stride: nat)
    ensures stride % 4 == 0
    ensures 3 * width <= stride < 3 * width + 4
  {
    (3 * width + 3) - (3 * width + 3) % 4
  }

  /** The stride is the least multiple of 4 that holds a row of `width` pixels. */
  lemma RowStrideLeast(width: nat, k: nat)
    requires k % 4 == 0 && k >= 3 * width
    ensures RowStride(width) <= k
  {
    var stride := RowStride(width);
    var a, b := k / 4, stride / 4;
    assert k == 4 * a && stride == 4 * b;
    assert 4 * b < 4 * a + 4;
  }

  /** `u32::from_le_bytes`, the decoder a BMP reader applies to each field. */
  function FromLE32(b: seq<u8>): (v: nat)
    requires |b| == 4
    ensures v < U32_LIMIT
  {
    b[0] as int + 256 * (b[1] as int + 256 * (b[2] as int + 256 * b[3] as int))
  }

  /** `u32::to_le_bytes`: four bytes, least significant first, that decode
      back to `v`. */
  function LE32(v: u32): (b: seq<u8>)
    ensures |b| == 4 && FromLE32(b) == v
  {
    var q1 := v / 256;
    var q2 := q1 / 256;
    var q3 := q2 / 256;
    assert v == v % 256 + 256 * q1;
    assert q1 == q1 % 256 + 256 * q2;
    assert q2 == q2 % 256 + 256 * q3;
    [v % 256, q1 % 256, q2 % 256, q3]
  }

  /** Sizes the source computes in `u32`: the stride, the pixel array and the file. */
  ghost predicate Encodable(s: ScreenSpace) {
    && WellFormed(s)
    && 3 * s.width + 3 <= U32_MAX
    && HeaderSize + RowStride(s.width) * s.height <= U32_MAX
  }

  function PixelArraySize(s: ScreenSpace): nat {
    RowStride(s.width) * s.height
  }

  function FileSize(s: ScreenSpace): nat {
    HeaderSize + PixelArraySize(s)
  }

  const Zero4: seq<u8> := [0, 0, 0, 0]

  /** The 14-byte BITMAPFILEHEADER: the signature, the file size and the
      offset of the pixel array. */
  function FileHeader(s: ScreenSpace): (hdr: seq<u8>)
    requires Encodable(s)
    ensures |hdr| == 14
    ensures hdr[0] == 66 && hdr[1] == 77
    ensures FromLE32(hdr[2..6]) == FileSize(s)
    ensures hdr[6..10] == Zero4
    ensures FromLE32(hdr[10..14]) == HeaderSize
  {
    var hdr := [66, 77] + LE32(FileSize(s)) + Zero4 + LE32(HeaderSize);
    assert hdr[2..6] == LE32(FileSize(s));
    assert hdr[10..14] == LE32(HeaderSize);
    hdr
  }

  /** The 40-byte BITMAPINFOHEADER: its own size, the dimensions (`width as
      i32` has the same bytes as the `u32`), one plane, 24 bits per pixel,
      no compression and the size of the pixel array. */
  function InfoHeader(s: ScreenSpace): (hdr: seq<u8>)
    requires Encodable(s)
    ensures |hdr| == 40
    ensures FromLE32(hdr[0..4]) == 40
    ensures FromLE32(hdr[4..8]) == s.width && FromLE32(hdr[8..12]) == s.height
    ensures hdr[12] == 1 && hdr[13] == 0 && hdr[14] == 24 && hdr[15] == 0
    ensures hdr[16..20] == Zero4
    ensures FromLE32(hdr[20..24]) == PixelArraySize(s)
    ensures hdr[24..] == Zero4 + Zero4 + Zero4 + Zero4
  {
    var dims := [40, 0, 0, 0] + LE32(s.width) + LE32(s.height);
    var format := [1, 0] + [24, 0] + Zero4 + LE32(PixelArraySize(s));
    var hdr := dims + format + (Zero4 + Zero4 + Zero4 + Zero4);
    assert FromLE32(dims[4..8]) == s.width && FromLE32(dims[8..12]) == s.height by {
      assert dims[4..8] == LE32(s.width) && dims[8..12] == LE32(s.height);
    }
    assert FromLE32(format[8..12]) == PixelArraySize(s) by {
      assert format[8..12] == LE32(PixelArraySize(s));
    }
    assert hdr[..12] == dims && hdr[12..24] == format;
    assert hdr[0..4] == dims[0..4] && hdr[4..8] == dims[4..8] && hdr[8..12] == dims[8..12];
    assert hdr[16..20] == format[4..8] && hdr[20..24] == format[8..12];
    hdr
  }

  /** The 54 header bytes: the file header, then the info header. */
  function Header(s: ScreenSpace): (hdr: seq<u8>)
    requires Encodable(s)
    ensures |hdr| == HeaderSize
    ensures hdr[0] == 66 && hdr[1] == 77
    ensures FromLE32(hdr[2..6]) == FileSize(s)
    ensures FromLE32(hdr[10..14]) == HeaderSize
    ensures FromLE32(hdr[14..18]) == 40
    ensures FromLE32(hdr[18..22]) == s.width && FromLE32(hdr[22..26]) == s.height
    ensures hdr[26] == 1 && hdr[27] == 0 && hdr[28] == 24 && hdr[29] == 0
    ensures FromLE32(hdr[34..38]) == PixelArraySize(s)
  {
    var f, i := FileHeader(s), InfoHeader(s);
    var hdr := f + i;
    assert hdr[2..6] == f[2..6] && hdr[10..14] == f[10..14];
    assert hdr[14..18] == i[0..4] && hdr[18..22] == i[4..8] && hdr[22..26] == i[8..12];
    assert hdr[34..38] == i[20..24];
    hdr
  }

  /** Byte `c` of the stored row for screen row `y`: blue, green, red for
      each pixel, then zero padding. */
  function RowByte(s: ScreenSpace, y: nat, c: nat): u8
    requires WellFormed(s) && y < s.height
  {
    if c < 3 * s.width then
      PixelNumberBounds(s.width, s.height, c / 3, y);
      s.rgba[4 * PixelNumber(s.width, c / 3, y) + 2 - c % 3]
    else 0
  }

  function Row(s: ScreenSpace, y: nat): (row: seq<u8>)
    requires WellFormed(s) && y < s.height
    ensures |row| == RowStride(s.width)
  {
    seq(RowStride(s.width), c requires 0 <= c => RowByte(s, y, c))
  }

  /** The stored rows for screen rows `height - 1` down to `y`. */
  function RowsFrom(s: ScreenSpace, y: nat): (rows: seq<u8>)
    requires WellFormed(s) && y <= s.height
    ensures |rows| == (s.height - y) * RowStride(s.width)
    decreases s.height - y
  {
    if y == s.height then [] else RowsFrom(s, y + 1) + Row(s, y)
  }

  /** The file: headers, then every row bottom-up. */
  function Image(s: ScreenSpace): seq<u8>
    requires Encodable(s)
  {
    Header(s) + RowsFrom(s, 0)
  }

  /** Later rows of the file extend earlier ones. */
  lemma {:induction false} RowsFromPrefix(s: ScreenSpace, y: nat, y2: nat)
    requires WellFormed(s) && y2 <= y <= s.height
    ensures |RowsFrom(s, y)| <= |RowsFrom(s, y2)|
    ensures RowsFrom(s, y2)[..|RowsFrom(s, y)|] == RowsFrom(s, y)
    decreases y - y2
  {
    if y2 < y {
      RowsFromPrefix(s, y, y2 + 1);
      var r := RowsFrom(s, y2 + 1);
      assert RowsFrom(s, y2) == r + Row(s, y2);
      assert RowsFrom(s, y2)[..|RowsFrom(s, y)|] == r[..|RowsFrom(s, y)|];
    }
  }

  /** Where the stored row for screen row `y` starts in the pixel array:
      rows are stored bottom-up. */
  function RowOffset(s: ScreenSpace, y: nat): nat
    requires y < s.height
  {
    var k := s.height - 1 - y;
    var stride := RowStride(s.width);
    NatProduct(k, stride, k * stride);
    k * stride
  }

  /** Within the pixel array, screen row `y` starts `height - 1 - y` strides in. */
  lemma RowInPixelArray(s: ScreenSpace, y: nat, c: nat)
    requires WellFormed(s) && y < s.height && c < RowStride(s.width)
    ensures var j := RowOffset(s, y) + c;
      j < |RowsFrom(s, 0)| && RowsFrom(s, 0)[j] == RowByte(s, y, c)
  {
    var stride := RowStride(s.width);
    var k := s.height - 1 - y;
    assert RowOffset(s, y) == k * stride;
    var before := RowsFrom(s, y + 1);
    assert |before| == k * stride;
    assert (k + 1) * stride == k * stride + stride;
    assert RowsFrom(s, y) == before + Row(s, y);
    RowsFromPrefix(s, y, 0);
    var j := k * stride + c;
    assert RowsFrom(s, 0)[j] == RowsFrom(s, y)[j] == Row(s, y)[c];
  }

  /** Screen row `y` is stored `height - 1 - y` strides after the headers:
      bottom-up, with blue, green, red per pixel and zeros after the last pixel. */
  lemma RowInFile(s: ScreenSpace, y: nat, c: nat)
    requires Encodable(s) && y < s.height && c < RowStride(s.width)
    ensures var k := HeaderSize + RowOffset(s, y) + c;
      && k < |Image(s)|
      && (c >= 3 * s.width ==> Image(s)[k] == 0)
      && (c < 3 * s.width ==> var n := PixelNumber(s.width, c / 3, y);
            n < s.width * s.height && Image(s)[k] == s.rgba[4 * n + 2 - c % 3])
  {
    RowInPixelArray(s, y, c);
    var j := RowOffset(s, y) + c;
    var hdr := Header(s);
    assert Image(s)[HeaderSize + j] == RowsFrom(s, 0)[j];
    if c < 3 * s.width {
      PixelNumberBounds(s.width, s.height, c / 3, y);
    }
  }

  /** Extending a row prefix by one pixel appends its blue, green and red bytes. */
  lemma RowPixelStep(s: ScreenSpace, y: nat, x: nat)
    requires WellFormed(s) && y < s.height && x < s.width
    ensures PixelNumber(s.width, x, y) < s.width * s.height
    ensures var i := 4 * PixelNumber(s.width, x, y);
      Row(s, y)[..3 * x + 3] == Row(s, y)[..3 * x] + [s.rgba[i + 2], s.rgba[i + 1], s.rgba[i]]
  {
    PixelNumberBounds(s.width, s.height, x, y);
    var row := Row(s, y);
    assert (3 * x) / 3 == x && (3 * x) % 3 == 0;
    assert (3 * x + 1) / 3 == x && (3 * x + 1) % 3 == 1;
    assert (3 * x + 2) / 3 == x && (3 * x + 2) % 3 == 2;
    assert row[..3 * x + 3] == row[..3 * x] + [row[3 * x], row[3 * x + 1], row[3 * x + 2]];
  }

  /** After the last pixel a row holds only padding zeros. */
  lemma RowPadding(s: ScreenSpace, y: nat)
    requires WellFormed(s) && y < s.height
    ensures Row(s, y) == Row(s, y)[..3 * s.width] + seq(RowStride(s.width) - 3 * s.width, _ => 0)
  {
  }

  /** The inner loop of `write_bmp`: the pixels of screen row `y`, blue first. */
  method EncodeRowPixels(s: ScreenSpace, y: nat) returns (bytes: seq<u8>)
    requires WellFormed(s) && y < s.height
    ensures bytes == Row(s, y)[..3 * s.width]
  {
    var width := s.width;
    bytes := [];
    var x := 0;
    while x < width
      invariant 0 <= x <= width
      invariant bytes == Row(s, y)[..3 * x]
    {
      RowPixelStep(s, y, x);
      var i := (y * width + x) * 4;
      var r, g, b := s.rgba[i], s.rgba[i + 1], s.rgba[i + 2];
      bytes := bytes + [b, g, r];
      x := x + 1;
    }
  }

  /** A stored row is its pixels followed by its padding, and it follows the
      rows below it in the file. */
  lemma RowsFromStep(s: ScreenSpace, y: nat, pixels: seq<u8>, padding: seq<u8>)
    requires WellFormed(s) && y < s.height
    requires pixels == Row(s, y)[..3 * s.width]
    requires padding == seq(RowStride(s.width) - 3 * s.width, _ => 0)
    ensures RowsFrom(s, y) == RowsFrom(s, y + 1) + (pixels + padding)
  {
    RowPadding(s, y);
  }

  /** `write_bmp`, as the bytes it writes. */
  method WriteBmp(s: ScreenSpace) returns (out: seq<u8>)
    requires Encodable(s)
    ensures out == Image(s)
    ensures |out| == FileSize(s)
  {
    var width, height := s.width, s.height;
    var rowStride := (3 * width + 3) - (3 * width + 3) % 4;
    assert rowStride == RowStride(width);
    var hdr := Header(s);
    out := hdr;
    var padding := seq(rowStride - width * 3, _ => 0);
    var y := height;
    while y > 0
      invariant 0 <= y <= height
      invariant out == hdr + RowsFrom(s, y)
    {
      y := y - 1;
      var pixels := EncodeRowPixels(s, y);
      RowsFromStep(s, y, pixels, padding);
      assert out + (pixels + padding) == hdr + (RowsFrom(s, y + 1) + (pixels + padding));
      out := out + (pixels + padding);
    }
    assert out == Image(s);
    assert |RowsFrom(s, 0)| == height * RowStride(width);
  }
}
