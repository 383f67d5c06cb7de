/** The tile rectangle and the split-depth computation of the screen tiler. */
module Rectangle {
  import opened Numeric

  /** A tile's extent within the full framebuffer, in `u32` pixel coordinates. */
  datatype Rect = Rect(minX: u32, minY: u32, maxX: u32, maxY: u32)

  /** `Rect::width`; the `u32` subtraction underflows unless `minX <= maxX`. */
  function Width(r: Rect): (w: u32)
    requires r.minX <= r.maxX
    ensures r.minX + w == r.maxX
  {
    r.maxX - r.minX
  }

  /** `Rect::height`; the `u32` subtraction underflows unless `minY <= maxY`. */
  function Height(r: Rect): (h: u32)
    requires r.minY <= r.maxY
    ensures r.minY + h == r.maxY
  {
    r.maxY - r.minY
  }

  function Pow2(d: nat): (p: nat)
    ensures p >= 1
  {
    if d == 0 then 1 else 2 * Pow2(d - 1)
  }

  lemma {:induction false} Pow2Monotone(a: nat, b: nat)
    requires a <= b
    ensures Pow2(a) <= Pow2(b)
    decreases b
  {
    if a < b {
      Pow2Monotone(a, b - 1);
    }
  }

  /** `d` is the least number of binary splits giving at least `n` pieces. */
  ghost predicate IsSplitDepth(n: nat, d: nat) {
    Pow2(d) >= n && (d == 0 || Pow2(d - 1) < n)
  }

  /** `compute_subdivisions`: doubles a counter until it reaches `n`. The
      `usize` counter would overflow past 2^63, so `n` is at most 2^63. */
  method ComputeSubdivisions(n: nat) returns (depth: u32)
    requires n <= 0x8000_0000_0000_0000
    ensures Pow2(depth) >= n
    ensures depth == 0 || Pow2(depth - 1) < n
  {
    depth := 0;
    var count: nat := 1;
    while count < n
      invariant count == Pow2(depth)
      invariant depth <= 63
      invariant depth == 0 || Pow2(depth - 1) < n
      decreases n - count
    {
      if depth == 63 {
        Pow2Is2To63();
        assert false;
      }
      depth := depth + 1;
      count := count * 2;
    }
  }

  lemma {:induction false} Pow2Add(a: nat, b: nat)
    ensures Pow2(a + b) == Pow2(a) * Pow2(b)
    decreases b
  {
    if b > 0 {
      Pow2Add(a, b - 1);
    }
  }

  lemma Pow2Is2To63()
    ensures Pow2(63) == 0x8000_0000_0000_0000
  {
    assert Pow2(1) == 2 && Pow2(2) == 4 && Pow2(3) == 8;
    assert Pow2(7) == 0x80 by { Pow2Add(3, 3); Pow2Add(6, 1); }
    assert Pow2(14) == 0x4000 by { Pow2Add(7, 7); }
    assert Pow2(28) == 0x1000_0000 by { Pow2Add(14, 14); }
    assert Pow2(56) == 0x100_0000_0000_0000 by { Pow2Add(28, 28); }
    Pow2Add(56, 7);
  }

  /** More pieces never need fewer splits. */
  lemma SplitDepthMonotone(n: nat, m: nat, d: nat, e: nat)
    requires n <= m
    requires IsSplitDepth(n, d) && IsSplitDepth(m, e)
    ensures d <= e
  {
    if d > e {
      Pow2Monotone(e, d - 1);
    }
  }

  /** The split depth of a count is unique, so the bounds of
      `ComputeSubdivisions` determine its result. */
  lemma SplitDepthUnique(n: nat, d: nat, e: nat)
    requires IsSplitDepth(n, d) && IsSplitDepth(n, e)
    ensures d == e
  {
    SplitDepthMonotone(n, n, d, e);
    SplitDepthMonotone(n, n, e, d);
  }

  /** Zero or one worker needs no split. */
  lemma SplitDepthOfZeroAndOne(d: nat)
    requires IsSplitDepth(0, d) || IsSplitDepth(1, d)
    ensures d == 0
  {
  }

  /** A power of two needs exactly its exponent in splits. */
  lemma {:induction false} SplitDepthOfPowerOfTwo(k: nat)
    ensures IsSplitDepth(Pow2(k), k)
  {
    if k > 0 {
      assert Pow2(k - 1) < 2 * Pow2(k - 1) == Pow2(k);
    }
  }
}
