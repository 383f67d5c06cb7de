/** The per-thread tile buffers and the copy of each tile, row by row, into
    the full-screen buffer at the end of a frame. */
module Merge {
  import opened Wrappers
  import opened Numeric
  import opened Rectangle
  import opened Screen

  /** A tile buffer sized to its rectangle, as each thread's buffer is built. */
  ghost predicate TileShaped(t: ScreenSpace) {
    && t.rect.minX <= t.rect.maxX && t.rect.minY <= t.rect.maxY
    && t.width == Width(t.rect) && t.height == Height(t.rect)
  }

  /** The buffer of one tile: black, transparent, at infinite depth. The
      `u32` product `width * height * 4` must not overflow, so it stays
      below `2^32`. */
  function TileBuffer(rect: Rect): (t: ScreenSpace)
    requires rect.minX <= rect.maxX && rect.minY <= rect.maxY
    requires 4 * (Width(rect) * Height(rect)) < U32_LIMIT
    ensures WellFormed(t) && TileShaped(t) && t.rect == rect
    ensures forall k :: 0 <= k < |t.rgba| ==> t.rgba[k] == 0
    ensures forall k :: 0 <= k < |t.depth| ==> t.depth[k] == Infinity
  {
    New(Width(rect), Height(rect)).(rect := rect)
  }

  /** `dst[start..start + |src|].copy_from_slice(src)`. */
  function Splice(dst: seq<u8>, start: nat, src: seq<u8>): (r: seq<u8>)
    requires start + |src| <= |dst|
    ensures |r| == |dst|
    ensures forall k :: 0 <= k < |dst| ==> r[k] == if start <= k < start + |src| then src[k - start] else dst[k]
  {
    dst[..start] + src + dst[start + |src|..]
  }

  /** The pixels of each tile row that land on the screen:
      `rect_width.min(screen.width - rect.min_x)`. */
  function RowSpan(tile: ScreenSpace, screenWidth: nat): (n: nat)
    requires tile.rect.minX <= screenWidth
    ensures n <= tile.width && tile.rect.minX + n <= screenWidth
  {
    if tile.width < screenWidth - tile.rect.minX then tile.width else screenWidth - tile.rect.minX
  }

  /** What a merge may assume of the screen and the tile. The subtraction
      `screen.width - rect.min_x` underflows unless the tile starts on the
      screen. */
  ghost predicate Mergeable(screen: ScreenSpace, tile: ScreenSpace) {
    && WellFormed(screen) && WellFormed(tile) && TileShaped(tile)
    && tile.rect.minX <= screen.width
  }

  /** `n` pixels starting at `(x, y)` of a row fit in the buffer. */
  lemma RowFits(width: nat, height: nat, x: nat, y: nat, n: nat)
    requires x + n <= width && y < height
    ensures 4 * PixelNumber(width, x, y) + 4 * n <= 4 * (width * height)
  {
    MulStrictlyMonotone(y, height, width);
    assert height * width == width * height;
  }

  /** One iteration of the merge loop: tile row `y` is copied into screen
      row `rect.min_y + y`, clipped to the screen width, or skipped when
      that row is below the screen. */
  function MergeRow(screen: ScreenSpace, tile: ScreenSpace, y: nat): (s: ScreenSpace)
    requires Mergeable(screen, tile) && y < tile.height
    ensures WellFormed(s)
    ensures s.rect == screen.rect && s.width == screen.width && s.height == screen.height && s.depth == screen.depth
  {
    var screenY := tile.rect.minY + y;
    if screenY >= screen.height then screen
    else
      var n := RowSpan(tile, screen.width);
      var start := 4 * PixelNumber(screen.width, tile.rect.minX, screenY);
      var from := 4 * PixelNumber(tile.width, 0, y);
      RowFits(screen.width, screen.height, tile.rect.minX, screenY, n);
      RowFits(tile.width, tile.height, 0, y, n);
      screen.(rgba := Splice(screen.rgba, start, tile.rgba[from .. from + 4 * n]))
  }

  /** Screen pixel `(sx, sy)` lies under row `y` of the tile. */
  predicate UnderTileRow(tile: ScreenSpace, y: nat, sx: nat, sy: nat) {
    sy == tile.rect.minY + y && tile.rect.minX <= sx < tile.rect.minX + tile.width
  }

  /** A byte of a pixel under the copied row comes from the tile's row. */
  lemma MergeRowByteInside(screen: ScreenSpace, tile: ScreenSpace, y: nat, sx: nat, sy: nat, c: nat)
    requires Mergeable(screen, tile) && y < tile.height
    requires sx < screen.width && sy < screen.height && c < 4
    requires UnderTileRow(tile, y, sx, sy)
    ensures var k, t := 4 * PixelNumber(screen.width, sx, sy) + c, 4 * PixelNumber(tile.width, sx - tile.rect.minX, y) + c;
      && k < |MergeRow(screen, tile, y).rgba| && t < |tile.rgba|
      && MergeRow(screen, tile, y).rgba[k] == tile.rgba[t]
  {
    PixelNumberBounds(screen.width, screen.height, sx, sy);
    PixelNumberBounds(tile.width, tile.height, sx - tile.rect.minX, y);
    var n := RowSpan(tile, screen.width);
    var start := 4 * PixelNumber(screen.width, tile.rect.minX, sy);
    var from := 4 * PixelNumber(tile.width, 0, y);
    var k := 4 * PixelNumber(screen.width, sx, sy) + c;
    assert sx - tile.rect.minX < n;
    RowFits(tile.width, tile.height, 0, y, n);
    var src := tile.rgba[from .. from + 4 * n];
    assert MergeRow(screen, tile, y).rgba == Splice(screen.rgba, start, src);
    var off := 4 * (sx - tile.rect.minX) + c;
    assert k == start + off;
    assert Splice(screen.rgba, start, src)[k] == src[off];
    assert from + off == 4 * PixelNumber(tile.width, sx - tile.rect.minX, y) + c;
  }

  /** The bytes of `n` pixels from `(x0, row)` are those of these pixels
      and of no other. */
  lemma RowBytesBelongToRow(width: nat, x0: nat, n: nat, row: nat, sx: nat, sy: nat, c: nat)
    requires sx < width && x0 + n <= width && c < 4
    ensures var k, p0 := 4 * PixelNumber(width, sx, sy) + c, PixelNumber(width, x0, row);
      4 * p0 <= k < 4 * p0 + 4 * n <==> sy == row && x0 <= sx < x0 + n
  {
    var p0 := PixelNumber(width, x0, row);
    var k := 4 * PixelNumber(width, sx, sy) + c;
    if 4 * p0 <= k < 4 * p0 + 4 * n {
      var j := PixelNumber(width, sx, sy) - p0;
      assert 0 <= j < n;
      assert PixelNumber(width, x0 + j, row) == PixelNumber(width, sx, sy);
      PixelNumberInjective(width, x0 + j, row, sx, sy);
    }
  }

  /** A byte of a pixel outside the copied row keeps its value. */
  lemma MergeRowByteOutside(screen: ScreenSpace, tile: ScreenSpace, y: nat, sx: nat, sy: nat, c: nat)
    requires Mergeable(screen, tile) && y < tile.height
    requires sx < screen.width && sy < screen.height && c < 4
    requires !UnderTileRow(tile, y, sx, sy)
    ensures var k := 4 * PixelNumber(screen.width, sx, sy) + c;
      k < |MergeRow(screen, tile, y).rgba| && MergeRow(screen, tile, y).rgba[k] == screen.rgba[k]
  {
    PixelNumberBounds(screen.width, screen.height, sx, sy);
    var screenY := tile.rect.minY + y;
    if screenY < screen.height {
      var n := RowSpan(tile, screen.width);
      var p0 := PixelNumber(screen.width, tile.rect.minX, screenY);
      var k := 4 * PixelNumber(screen.width, sx, sy) + c;
      var from := 4 * PixelNumber(tile.width, 0, y);
      RowFits(tile.width, tile.height, 0, y, n);
      RowFits(screen.width, screen.height, tile.rect.minX, screenY, n);
      var src := tile.rgba[from .. from + 4 * n];
      assert MergeRow(screen, tile, y).rgba == Splice(screen.rgba, 4 * p0, src);
      RowBytesBelongToRow(screen.width, tile.rect.minX, n, screenY, sx, sy, c);
      assert !(4 * p0 <= k < 4 * p0 + 4 * n);
      assert Splice(screen.rgba, 4 * p0, src)[k] == screen.rgba[k];
    }
  }

  /** Pixel `(sx, sy)` after one row is merged. */
  lemma MergeRowPixel(screen: ScreenSpace, tile: ScreenSpace, y: nat, sx: nat, sy: nat)
    requires Mergeable(screen, tile) && y < tile.height
    requires sx < screen.width && sy < screen.height
    ensures GetPixel(MergeRow(screen, tile, y), sx, sy)
            == if UnderTileRow(tile, y, sx, sy) then GetPixel(tile, sx - tile.rect.minX, y) else GetPixel(screen, sx, sy)
  {
    var m := MergeRow(screen, tile, y);
    if UnderTileRow(tile, y, sx, sy) {
      MergeRowByteInside(screen, tile, y, sx, sy, 0);
      MergeRowByteInside(screen, tile, y, sx, sy, 1);
      MergeRowByteInside(screen, tile, y, sx, sy, 2);
      MergeRowByteInside(screen, tile, y, sx, sy, 3);
      SamePixel(m, sx, sy, tile, sx - tile.rect.minX, y);
    } else {
      MergeRowByteOutside(screen, tile, y, sx, sy, 0);
      MergeRowByteOutside(screen, tile, y, sx, sy, 1);
      MergeRowByteOutside(screen, tile, y, sx, sy, 2);
      MergeRowByteOutside(screen, tile, y, sx, sy, 3);
      SamePixel(m, sx, sy, screen, sx, sy);
    }
  }

  /** Two pixels with the same four bytes read back as the same colour. */
  lemma SamePixel(a: ScreenSpace, x1: nat, y1: nat, b: ScreenSpace, x2: nat, y2: nat)
    requires WellFormed(a) && x1 < a.width && y1 < a.height
    requires WellFormed(b) && x2 < b.width && y2 < b.height
    requires var i, j := 4 * PixelNumber(a.width, x1, y1), 4 * PixelNumber(b.width, x2, y2);
      && i + 3 < |a.rgba| && j + 3 < |b.rgba|
      && a.rgba[i] == b.rgba[j] && a.rgba[i + 1] == b.rgba[j + 1]
      && a.rgba[i + 2] == b.rgba[j + 2] && a.rgba[i + 3] == b.rgba[j + 3]
    ensures GetPixel(a, x1, y1) == GetPixel(b, x2, y2)
  {
  }

  /** Screen pixel `(sx, sy)` lies under the first `rows` rows of the tile. */
  predicate UnderTile(tile: ScreenSpace, rows: nat, sx: nat, sy: nat) {
    && tile.rect.minX <= sx < tile.rect.minX + tile.width
    && tile.rect.minY <= sy < tile.rect.minY + rows
  }

  /** The merge of one tile (main.rs:293-311): every screen pixel under the
      tile takes the tile's pixel, every other pixel keeps its value; tile
      pixels past the screen's right or bottom edge are dropped. */
  method MergeTile(screen: ScreenSpace, tile: ScreenSpace) returns (s: ScreenSpace)
    requires Mergeable(screen, tile)
    ensures WellFormed(s)
    ensures s.rect == screen.rect && s.width == screen.width && s.height == screen.height && s.depth == screen.depth
    ensures forall sx: nat, sy: nat :: sx < s.width && sy < s.height ==>
      GetPixel(s, sx, sy) == if UnderTile(tile, tile.height, sx, sy)
                             then GetPixel(tile, sx - tile.rect.minX, sy - tile.rect.minY)
                             else GetPixel(screen, sx, sy)
  {
    var rectHeight := tile.rect.maxY - tile.rect.minY;
    s := screen;
    var y := 0;
    while y < rectHeight
      invariant y <= rectHeight
      invariant WellFormed(s)
      invariant s.rect == screen.rect && s.width == screen.width && s.height == screen.height && s.depth == screen.depth
      invariant forall sx: nat, sy: nat :: sx < s.width && sy < s.height ==>
        GetPixel(s, sx, sy) == if UnderTile(tile, y, sx, sy)
                               then GetPixel(tile, sx - tile.rect.minX, sy - tile.rect.minY)
                               else GetPixel(screen, sx, sy)
    {
      var prev := s;
      s := MergeRow(s, tile, y);
      forall sx: nat, sy: nat | sx < s.width && sy < s.height
        ensures GetPixel(s, sx, sy) == if UnderTile(tile, y + 1, sx, sy)
                                       then GetPixel(tile, sx - tile.rect.minX, sy - tile.rect.minY)
                                       else GetPixel(screen, sx, sy)
      {
        MergeRowPixel(prev, tile, y, sx, sy);
      }
      y := y + 1;
    }
  }

  /** The screen pixel `(sx, sy)` once the first `n` tiles are merged in
      order: the pixel of the last of them that covers it, or the screen's
      own pixel when none does. */
  function MergedPixel(screen: ScreenSpace, tiles: seq<ScreenSpace>, n: nat, sx: u32, sy: u32): Option<Color>
    requires n <= |tiles|
    requires WellFormed(screen) && forall i :: 0 <= i < |tiles| ==> WellFormed(tiles[i])
    decreases n
  {
    if n == 0 then GetPixel(screen, sx, sy)
    else
      var t := tiles[n - 1];
      if UnderTile(t, t.height, sx, sy) then GetPixel(t, sx - t.rect.minX, sy - t.rect.minY)
      else MergedPixel(screen, tiles, n - 1, sx, sy)
  }

  /** The merge loop over all tile buffers (main.rs:291-312). Where tiles
      overlap, the later one wins; pixels no tile covers keep their value. */
  method MergeTiles(screen: ScreenSpace, tiles: seq<ScreenSpace>) returns (s: ScreenSpace)
    requires WellFormed(screen)
    requires forall i :: 0 <= i < |tiles| ==> WellFormed(tiles[i]) && TileShaped(tiles[i]) && tiles[i].rect.minX <= screen.width
    ensures WellFormed(s)
    ensures s.rect == screen.rect && s.width == screen.width && s.height == screen.height && s.depth == screen.depth
    ensures forall sx: u32, sy: u32 :: sx < s.width && sy < s.height ==>
      GetPixel(s, sx, sy) == MergedPixel(screen, tiles, |tiles|, sx, sy)
  {
    s := screen;
    var t := 0;
    while t < |tiles|
      invariant t <= |tiles|
      invariant WellFormed(s)
      invariant s.rect == screen.rect && s.width == screen.width && s.height == screen.height && s.depth == screen.depth
      invariant forall sx: u32, sy: u32 :: sx < s.width && sy < s.height ==>
        GetPixel(s, sx, sy) == MergedPixel(screen, tiles, t, sx, sy)
    {
      assert Mergeable(s, tiles[t]);
      s := MergeTile(s, tiles[t]);
      t := t + 1;
    }
  }

  /** A pixel no tile covers is never written by the merge. */
  lemma {:induction false} MergedPixelUncovered(screen: ScreenSpace, tiles: seq<ScreenSpace>, n: nat, sx: u32, sy: u32)
    requires n <= |tiles|
    requires WellFormed(screen) && forall i :: 0 <= i < |tiles| ==> WellFormed(tiles[i])
    requires forall i :: 0 <= i < n ==> !UnderTile(tiles[i], tiles[i].height, sx, sy)
    ensures MergedPixel(screen, tiles, n, sx, sy) == GetPixel(screen, sx, sy)
    decreases n
  {
    if n > 0 {
      MergedPixelUncovered(screen, tiles, n - 1, sx, sy);
    }
  }

  /** A pixel covered by exactly one tile takes that tile's pixel. */
  lemma {:induction false} MergedPixelSingleCover(screen: ScreenSpace, tiles: seq<ScreenSpace>, n: nat, i: nat, sx: u32, sy: u32)
    requires i < n <= |tiles|
    requires WellFormed(screen) && forall j :: 0 <= j < |tiles| ==> WellFormed(tiles[j])
    requires UnderTile(tiles[i], tiles[i].height, sx, sy)
    requires forall j :: i < j < n ==> !UnderTile(tiles[j], tiles[j].height, sx, sy)
    ensures MergedPixel(screen, tiles, n, sx, sy) == GetPixel(tiles[i], sx - tiles[i].rect.minX, sy - tiles[i].rect.minY)
    decreases n
  {
    if n - 1 > i {
      MergedPixelSingleCover(screen, tiles, n - 1, i, sx, sy);
    }
  }
}
