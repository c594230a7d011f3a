/**
 * The colour-correlogram extractor: every channel of every pixel is quantised, each pixel gets
 * a colour index in [0, 512) from the top three bits of its channels, and for every distance
 * d = 1 .. maxDistance the number of same-colour pixels in the clipped square of radius d
 * around it is added to the entry of its colour at that distance. The entries are finally
 * divided by the number of pixels.
 */
module GlobalFeatures {
  import opened Results
  import opened Numeric
  import FeatureExtractor

  /** An 8-bit channel value (`uchar`). */
  type Byte = v: int | 0 <= v < 256

  /** A `cv::Vec3b` pixel: three channels, in OpenCV's blue, green, red order. */
  datatype Pixel = Pixel(b: Byte, g: Byte, r: Byte)

  /** Channel `c` of a pixel (`p[c]`). */
  function Channel(p: Pixel, c: nat): Byte
    requires c < 3
  {
    if c == 0 then p.b else if c == 1 then p.g else p.r
  }

  /** The pixel with channel `c` replaced by `v`: that channel reads `v`, the others are unchanged. */
  function WithChannel(p: Pixel, c: nat, v: Byte): (q: Pixel)
    requires c < 3
    ensures Channel(q, c) == v
    ensures forall k :: 0 <= k < 3 && k != c ==> Channel(q, k) == Channel(p, k)
  {
    if c == 0 then p.(b := v) else if c == 1 then p.(g := v) else p.(r := v)
  }

  /** A pixel is determined by its three channels. */
  lemma PixelByChannels(p: Pixel, q: Pixel)
    requires forall k :: 0 <= k < 3 ==> Channel(p, k) == Channel(q, k)
    ensures p == q
  {
    assert Channel(p, 0) == Channel(q, 0) && Channel(p, 1) == Channel(q, 1) && Channel(p, 2) == Channel(q, 2);
  }

  // ---------------------------------------------------------------------------------
  // Quantisation
  // ---------------------------------------------------------------------------------

  /**
   * One quantised channel value: the value's bucket of width 256 / colorLevels, mapped to the
   * bucket's middle. Storing the result in a `uchar` keeps it modulo 256. The bucket width is
   * 0 for more than 256 levels, so at most 256 levels are allowed.
   */
  function Quantize(v: Byte, colorLevels: int): Byte
    requires 1 <= colorLevels <= 256
  {
    var step := 256 / colorLevels;
    (v / step * step + step / 2) % 256
  }

  /** A non-zero multiple of a positive number is at least that number away from 0. */
  lemma MultipleBounds(k: int, s: int)
    requires s > 0
    ensures k >= 1 ==> k * s >= s
    ensures k <= -1 ==> k * s <= -s
    ensures k >= 0 ==> k * s >= 0
    ensures k <= 0 ==> k * s <= 0
  {
    if k >= 1 {
      assert k * s == s + (k - 1) * s;
    } else if k <= -1 {
      assert k * s == -s + (k + 1) * s;
    }
  }

  /** Quotient and remainder are unique: `a == q * step + r` with `0 <= r < step` fixes them. */
  lemma DivMod(a: int, q: int, r: int, step: int)
    requires step > 0 && 0 <= r < step && a == q * step + r
    ensures a / step == q && a % step == r
  {
    var q', r' := a / step, a % step;
    var k := q - q';
    assert k * step == r' - r;
    MultipleBounds(k, step);
  }

  /** With a divisor of 256 as the number of levels, the buckets tile [0, 256) exactly. */
  lemma StepTiles(colorLevels: int)
    requires 1 <= colorLevels <= 256 && 256 % colorLevels == 0
    ensures 256 / colorLevels >= 1 && (256 / colorLevels) * colorLevels == 256
  {
    assert 256 == (256 / colorLevels) * colorLevels + 256 % colorLevels;
  }

  /** The middle of the bucket of a byte, for buckets tiling [0, 256), is again below 256. */
  lemma MiddleBelowTop(v: Byte, step: int, colorLevels: int)
    requires step >= 1 && step * colorLevels == 256
    ensures 0 <= (v / step) * step + step / 2 < 256
  {
    var k := v / step;
    assert v == k * step + v % step;
    assert (colorLevels - k) * step == 256 - k * step;
    MultipleBounds(colorLevels - k, step);
    assert (colorLevels - 1 - k) * step == 256 - step - k * step;
    MultipleBounds(colorLevels - 1 - k, step);
    MultipleBounds(k, step);
  }

  /**
   * When the number of levels divides 256, no value wraps: the quantised value lies in the same
   * bucket as `v`, exactly at its middle.
   */
  lemma QuantizeBucket(v: Byte, colorLevels: int)
    requires 1 <= colorLevels <= 256 && 256 % colorLevels == 0
    ensures var step := 256 / colorLevels;
      && Quantize(v, colorLevels) / step == v / step
      && Quantize(v, colorLevels) % step == step / 2
  {
    var step := 256 / colorLevels;
    StepTiles(colorLevels);
    MiddleBelowTop(v, step, colorLevels);
    var k := v / step;
    var q := k * step + step / 2;
    DivMod(q, 0, q, 256);
    DivMod(q, k, step / 2, step);
  }

  /** Quantising an already quantised value returns it unchanged. */
  lemma QuantizeIdempotent(v: Byte, colorLevels: int)
    requires 1 <= colorLevels <= 256 && 256 % colorLevels == 0
    ensures Quantize(Quantize(v, colorLevels), colorLevels) == Quantize(v, colorLevels)
  {
    var q := Quantize(v, colorLevels);
    var step := 256 / colorLevels;
    QuantizeBucket(v, colorLevels);
    QuantizeBucket(q, colorLevels);
    DivMod(q, q / step, q % step, step);
  }

  /**
   * With 3 levels the bucket width is 85 and 255 lands in a fourth bucket whose middle, 297,
   * wraps to 41; quantising again gives 42, so without a divisor of 256 the quantisation is not
   * idempotent.
   */
  lemma QuantizeWrapsAround()
    ensures Quantize(255, 3) == 41 && Quantize(41, 3) == 42
  {
  }

  /**
   * With the default 8 levels every quantised value lies in [16, 240], and its top three bits,
   * v / 32, are those of the original value.
   */
  lemma QuantizeEightLevels(v: Byte)
    ensures 16 <= Quantize(v, 8) <= 240
    ensures Quantize(v, 8) / 32 == v / 32
  {
    QuantizeBucket(v, 8);
  }

  /** Every channel quantised. */
  function QuantizedPixel(p: Pixel, colorLevels: int): Pixel
    requires 1 <= colorLevels <= 256
  {
    Pixel(Quantize(p.b, colorLevels), Quantize(p.g, colorLevels), Quantize(p.r, colorLevels))
  }

  /**
   * The loop over the channels of one pixel: `dst[y, x]` starts as a copy of `src[y, x]` and
   * each channel in turn is overwritten with its quantised value.
   */
  method QuantizeChannels(src: array2<Pixel>, dst: array2<Pixel>, y: nat, x: nat, colorLevels: int)
    requires src != dst && 1 <= colorLevels <= 256
    requires y < src.Length0 == dst.Length0 && x < src.Length1 == dst.Length1
    requires dst[y, x] == src[y, x]
    modifies dst
    ensures dst[y, x] == QuantizedPixel(src[y, x], colorLevels)
    ensures forall i, j :: 0 <= i < dst.Length0 && 0 <= j < dst.Length1 && (i != y || j != x) ==>
      dst[i, j] == old(dst[i, j])
  {
    var c := 0;
    while c < 3
      invariant 0 <= c <= 3
      invariant forall k :: 0 <= k < c ==> Channel(dst[y, x], k) == Quantize(Channel(src[y, x], k), colorLevels)
      invariant forall k :: c <= k < 3 ==> Channel(dst[y, x], k) == Channel(src[y, x], k)
      invariant forall i, j :: 0 <= i < dst.Length0 && 0 <= j < dst.Length1 && (i != y || j != x) ==>
        dst[i, j] == old(dst[i, j])
    {
      dst[y, x] := WithChannel(dst[y, x], c, Quantize(Channel(src[y, x], c), colorLevels));
      c := c + 1;
    }
    PixelByChannels(dst[y, x], QuantizedPixel(src[y, x], colorLevels));
  }

  /**
   * Pixels before (y, x) in row-major order hold their quantised values and the others their
   * original ones.
   */
  ghost predicate QuantizedBefore(src: array2<Pixel>, dst: array2<Pixel>, y: nat, x: nat, colorLevels: int)
    requires 1 <= colorLevels <= 256 && src.Length0 == dst.Length0 && src.Length1 == dst.Length1
    reads src, dst
  {
    forall i, j :: 0 <= i < dst.Length0 && 0 <= j < dst.Length1 ==>
      dst[i, j] == if i < y || (i == y && j < x) then QuantizedPixel(src[i, j], colorLevels) else src[i, j]
  }

  /**
   * `quantizeColors`: a copy of the image in which every channel of every pixel is quantised.
   */
  method QuantizeColors(src: array2<Pixel>, colorLevels: int) returns (dst: array2<Pixel>)
    requires 1 <= colorLevels <= 256
    ensures fresh(dst) && dst.Length0 == src.Length0 && dst.Length1 == src.Length1
    ensures forall i, j :: 0 <= i < dst.Length0 && 0 <= j < dst.Length1 ==>
      dst[i, j] == QuantizedPixel(src[i, j], colorLevels)
  {
    dst := new Pixel[src.Length0, src.Length1]((i, j) reads src =>
      if 0 <= i < src.Length0 && 0 <= j < src.Length1 then src[i, j] else Pixel(0, 0, 0));
    var y := 0;
    while y < src.Length0
      invariant 0 <= y <= src.Length0
      invariant QuantizedBefore(src, dst, y, 0, colorLevels)
    {
      var x := 0;
      while x < src.Length1
        invariant 0 <= x <= src.Length1
        invariant QuantizedBefore(src, dst, y, x, colorLevels)
      {
        QuantizeChannels(src, dst, y, x, colorLevels);
        x := x + 1;
      }
      y := y + 1;
    }
  }

  // ---------------------------------------------------------------------------------
  // Colour indices
  // ---------------------------------------------------------------------------------

  /** A correlogram colour: 3 bits per channel. */
  type ColourIndex = i: int | 0 <= i < 512

  /** The colour index of a pixel: the top three bits of blue, green and red, in that order. */
  function ColorIdx(p: Pixel): ColourIndex
  {
    (p.b / 32) * 64 + (p.g / 32) * 8 + p.r / 32
  }

  /** The index packs the three 3-bit channel buckets, and each can be read back from it. */
  lemma ColorIdxBuckets(p: Pixel)
    ensures ColorIdx(p) / 64 == p.b / 32
    ensures ColorIdx(p) / 8 % 8 == p.g / 32
    ensures ColorIdx(p) % 8 == p.r / 32
  {
    var i := ColorIdx(p);
    DivMod(i, p.b / 32, (p.g / 32) * 8 + p.r / 32, 64);
    DivMod(i, (p.b / 32) * 8 + p.g / 32, p.r / 32, 8);
    DivMod((p.b / 32) * 8 + p.g / 32, p.b / 32, p.g / 32, 8);
  }

  /** Two pixels have the same colour index exactly when all three channel buckets agree. */
  lemma ColorIdxSame(p: Pixel, q: Pixel)
    ensures ColorIdx(p) == ColorIdx(q) <==> p.b / 32 == q.b / 32 && p.g / 32 == q.g / 32 && p.r / 32 == q.r / 32
  {
    ColorIdxBuckets(p);
    ColorIdxBuckets(q);
  }

  /** Quantising with the default 8 levels keeps every pixel's colour index. */
  lemma QuantizeKeepsColorIdx(p: Pixel)
    ensures ColorIdx(QuantizedPixel(p, 8)) == ColorIdx(p)
  {
    QuantizeEightLevels(p.b);
    QuantizeEightLevels(p.g);
    QuantizeEightLevels(p.r);
  }

  // ---------------------------------------------------------------------------------
  // Neighbour counts
  // ---------------------------------------------------------------------------------

  /** The colour indices of an image, row by row. */
  type Grid = seq<seq<ColourIndex>>

  /** Every row of `grid` has `cols` cells. */
  predicate Rect(grid: Grid, cols: nat)
  {
    forall i :: 0 <= i < |grid| ==> |grid[i]| == cols
  }

  /** The colour indices of the pixels of `image`. */
  function GridOf(image: array2<Pixel>): (grid: Grid)
    reads image
    ensures |grid| == image.Length0 && Rect(grid, image.Length1)
    ensures forall i, j :: 0 <= i < image.Length0 && 0 <= j < image.Length1 ==> grid[i][j] == ColorIdx(image[i, j])
  {
    seq(image.Length0, i reads image =>
      seq(image.Length1, j reads image =>
        if 0 <= i < image.Length0 && 0 <= j < image.Length1 then ColorIdx(image[i, j]) else 0))
  }

  /** `grid` holds the colour index of every pixel of `image`. */
  ghost predicate Depicts(grid: Grid, image: array2<Pixel>)
    reads image
  {
    && |grid| == image.Length0 && Rect(grid, image.Length1)
    && forall i, j :: 0 <= i < image.Length0 && 0 <= j < image.Length1 ==> grid[i][j] == ColorIdx(image[i, j])
  }

  /** The grid an image depicts is its `GridOf`. */
  lemma DepictsGridOf(grid: Grid, image: array2<Pixel>)
    requires Depicts(grid, image)
    ensures grid == GridOf(image)
  {
    var g := GridOf(image);
    forall i | 0 <= i < |grid|
      ensures grid[i] == g[i]
    {
      assert |grid[i]| == |g[i]|;
    }
  }

  /** Quantising with the default levels leaves the colour indices of the image unchanged. */
  lemma QuantizedGrid(src: array2<Pixel>, dst: array2<Pixel>)
    requires dst.Length0 == src.Length0 && dst.Length1 == src.Length1
    requires forall i, j :: 0 <= i < dst.Length0 && 0 <= j < dst.Length1 ==> dst[i, j] == QuantizedPixel(src[i, j], 8)
    ensures GridOf(dst) == GridOf(src)
  {
    var a, b := GridOf(dst), GridOf(src);
    forall i | 0 <= i < |a| ensures a[i] == b[i] {
      forall j | 0 <= j < |a[i]| ensures a[i][j] == b[i][j] {
        QuantizeKeepsColorIdx(src[i, j]);
      }
    }
  }

  /** (y, x) is a cell of the grid. */
  predicate InGrid(grid: Grid, y: int, x: int)
  {
    0 <= y < |grid| && 0 <= x < |grid[y]|
  }

  /**
   * The offset (dy, dx) from (y, x) counts: it is not the centre, it stays inside the image,
   * and the cell there has the centre's colour.
   */
  predicate Hit(grid: Grid, y: int, x: int, dy: int, dx: int)
    requires InGrid(grid, y, x)
  {
    !(dy == 0 && dx == 0) && InGrid(grid, y + dy, x + dx) && grid[y + dy][x + dx] == grid[y][x]
  }

  /** The hits at row offset `dy` and column offsets lo .. hi - 1. */
  function RowCount(grid: Grid, y: int, x: int, dy: int, lo: int, hi: int): nat
    requires InGrid(grid, y, x)
    decreases hi - lo
  {
    if hi <= lo then 0
    else RowCount(grid, y, x, dy, lo, hi - 1) + (if Hit(grid, y, x, dy, hi - 1) then 1 else 0)
  }

  /** The hits at row offsets lo .. hi - 1 and column offsets dxLo .. dxHi - 1. */
  function SquareCount(grid: Grid, y: int, x: int, lo: int, hi: int, dxLo: int, dxHi: int): nat
    requires InGrid(grid, y, x)
    decreases hi - lo
  {
    if hi <= lo then 0
    else SquareCount(grid, y, x, lo, hi - 1, dxLo, dxHi) + RowCount(grid, y, x, hi - 1, dxLo, dxHi)
  }

  /**
   * The number of same-colour pixels in the square of radius d around (y, x), clipped at the
   * image border, without the centre.
   */
  function NeighbourCount(grid: Grid, y: int, x: int, d: int): nat
    requires InGrid(grid, y, x)
  {
    SquareCount(grid, y, x, -d, d + 1, -d, d + 1)
  }

  lemma {:induction false} RowCountSplit(grid: Grid, y: int, x: int, dy: int, lo: int, mid: int, hi: int)
    requires InGrid(grid, y, x) && lo <= mid <= hi
    ensures RowCount(grid, y, x, dy, lo, hi) == RowCount(grid, y, x, dy, lo, mid) + RowCount(grid, y, x, dy, mid, hi)
    decreases hi - mid
  {
    if mid < hi {
      RowCountSplit(grid, y, x, dy, lo, mid, hi - 1);
    }
  }

  lemma {:induction false} SquareCountSplit(grid: Grid, y: int, x: int, lo: int, mid: int, hi: int, dxLo: int, dxHi: int)
    requires InGrid(grid, y, x) && lo <= mid <= hi
    ensures SquareCount(grid, y, x, lo, hi, dxLo, dxHi)
      == SquareCount(grid, y, x, lo, mid, dxLo, dxHi) + SquareCount(grid, y, x, mid, hi, dxLo, dxHi)
    decreases hi - mid
  {
    if mid < hi {
      SquareCountSplit(grid, y, x, lo, mid, hi - 1, dxLo, dxHi);
    }
  }

  /** A row of offsets holds at most one hit per offset, and none at the centre. */
  lemma {:induction false} RowCountBound(grid: Grid, y: int, x: int, dy: int, lo: int, hi: int)
    requires InGrid(grid, y, x) && lo <= hi
    ensures RowCount(grid, y, x, dy, lo, hi) <= hi - lo
    ensures dy == 0 && lo <= 0 < hi ==> RowCount(grid, y, x, dy, lo, hi) <= hi - lo - 1
    decreases hi - lo
  {
    if lo < hi {
      RowCountBound(grid, y, x, dy, lo, hi - 1);
    }
  }

  lemma {:induction false} SquareCountBound(grid: Grid, y: int, x: int, lo: int, hi: int, dxLo: int, dxHi: int)
    requires InGrid(grid, y, x) && lo <= hi && dxLo <= dxHi
    ensures SquareCount(grid, y, x, lo, hi, dxLo, dxHi) <= (hi - lo) * (dxHi - dxLo)
    decreases hi - lo
  {
    if lo < hi {
      SquareCountBound(grid, y, x, lo, hi - 1, dxLo, dxHi);
      RowCountBound(grid, y, x, hi - 1, dxLo, dxHi);
      assert (hi - lo) * (dxHi - dxLo) == (hi - 1 - lo) * (dxHi - dxLo) + (dxHi - dxLo);
    }
  }

  /** The count at radius d is at most the (2d+1) x (2d+1) square less its centre. */
  lemma NeighbourCountBound(grid: Grid, y: int, x: int, d: int)
    requires InGrid(grid, y, x) && d >= 0
    ensures NeighbourCount(grid, y, x, d) <= (2 * d + 1) * (2 * d + 1) - 1
  {
    var w := 2 * d + 1;
    SquareCountSplit(grid, y, x, -d, 0, d + 1, -d, d + 1);
    SquareCountSplit(grid, y, x, 0, 1, d + 1, -d, d + 1);
    SquareCountBound(grid, y, x, -d, 0, -d, d + 1);
    SquareCountBound(grid, y, x, 1, d + 1, -d, d + 1);
    RowCountBound(grid, y, x, 0, -d, d + 1);
    assert SquareCount(grid, y, x, 0, 1, -d, d + 1) == RowCount(grid, y, x, 0, -d, d + 1);
    SquareArithmetic(d, SquareCount(grid, y, x, -d, 0, -d, d + 1), RowCount(grid, y, x, 0, -d, d + 1),
                     SquareCount(grid, y, x, 1, d + 1, -d, d + 1));
  }

  /** The rows above the centre, the centre row less the centre, and the rows below fill the square less one. */
  lemma SquareArithmetic(d: int, above: int, centreRow: int, below: int)
    requires d >= 0
    requires above <= (0 - -d) * (d + 1 - -d) && below <= (d + 1 - 1) * (d + 1 - -d)
    requires centreRow <= d + 1 - -d - 1
    ensures above + centreRow + below <= (2 * d + 1) * (2 * d + 1) - 1
  {
    var w := 2 * d + 1;
    assert (0 - -d) * (d + 1 - -d) == d * w && (d + 1 - 1) * (d + 1 - -d) == d * w;
    assert w * w == 2 * (d * w) + w;
  }

  /** Widening the column range of a row of offsets adds hits only. */
  lemma RowCountWiden(grid: Grid, y: int, x: int, dy: int, lo: int, hi: int, lo': int, hi': int)
    requires InGrid(grid, y, x) && lo' <= lo <= hi <= hi'
    ensures RowCount(grid, y, x, dy, lo, hi) <= RowCount(grid, y, x, dy, lo', hi')
  {
    RowCountSplit(grid, y, x, dy, lo', lo, hi');
    RowCountSplit(grid, y, x, dy, lo, hi, hi');
  }

  /** Widening the column range of every row of offsets adds hits only. */
  lemma {:induction false} SquareCountWidenColumns(grid: Grid, y: int, x: int, lo: int, hi: int,
                                                    dxLo: int, dxHi: int, dxLo': int, dxHi': int)
    requires InGrid(grid, y, x) && dxLo' <= dxLo <= dxHi <= dxHi'
    ensures SquareCount(grid, y, x, lo, hi, dxLo, dxHi) <= SquareCount(grid, y, x, lo, hi, dxLo', dxHi')
    decreases hi - lo
  {
    if lo < hi {
      SquareCountWidenColumns(grid, y, x, lo, hi - 1, dxLo, dxHi, dxLo', dxHi');
      RowCountWiden(grid, y, x, hi - 1, dxLo, dxHi, dxLo', dxHi');
    }
  }

  /** A larger radius never finds fewer same-colour neighbours. */
  lemma NeighbourCountMonotone(grid: Grid, y: int, x: int, d: int)
    requires InGrid(grid, y, x) && d >= 0
    ensures NeighbourCount(grid, y, x, d) <= NeighbourCount(grid, y, x, d + 1)
  {
    SquareCountWidenColumns(grid, y, x, -d, d + 1, -d, d + 1, -d - 1, d + 2);
    SquareCountSplit(grid, y, x, -d - 1, -d, d + 2, -d - 1, d + 2);
    SquareCountSplit(grid, y, x, -d, d + 1, d + 2, -d - 1, d + 2);
  }

  /** A hit, read on the image itself: the bounds and colour tests of the counting loop. */
  lemma HitInImage(image: array2<Pixel>, grid: Grid, y: int, x: int, dy: int, dx: int)
    requires 0 <= y < image.Length0 && 0 <= x < image.Length1 && Depicts(grid, image)
    ensures Hit(grid, y, x, dy, dx) <==>
      && !(dy == 0 && dx == 0)
      && 0 <= y + dy < image.Length0 && 0 <= x + dx < image.Length1
      && ColorIdx(image[y + dy, x + dx]) == ColorIdx(image[y, x])
  {
    assert grid[y][x] == ColorIdx(image[y, x]);
    if 0 <= y + dy < image.Length0 && 0 <= x + dx < image.Length1 {
      assert |grid[y + dy]| == image.Length1;
      assert grid[y + dy][x + dx] == ColorIdx(image[y + dy, x + dx]);
    }
  }

  /**
   * The body of the inner counting loop: skip the centre and the offsets outside the image, and
   * compare the neighbour's colour index with the centre's.
   */
  method SameColourAt(image: array2<Pixel>, y: int, x: int, colorIdx: ColourIndex, dy: int, dx: int, ghost grid: Grid)
    returns (hit: bool)
    requires 0 <= y < image.Length0 && 0 <= x < image.Length1 && colorIdx == ColorIdx(image[y, x])
    requires Depicts(grid, image)
    ensures hit == Hit(grid, y, x, dy, dx)
  {
    hit := false;
    if !(dy == 0 && dx == 0) {
      var ny, nx := y + dy, x + dx;
      if 0 <= ny < image.Length0 && 0 <= nx < image.Length1 {
        var neighborColorIdx := ColorIdx(image[ny, nx]);
        hit := colorIdx == neighborColorIdx;
      }
    }
    HitInImage(image, grid, y, x, dy, dx);
  }

  /**
   * The two loops over the offsets of the square of radius d, skipping the centre and the
   * offsets outside the image, counting the neighbours whose colour index is the centre's.
   */
  method CountSameColour(image: array2<Pixel>, y: int, x: int, colorIdx: ColourIndex, d: int, ghost grid: Grid)
    returns (count: int)
    requires d >= 1 && 0 <= y < image.Length0 && 0 <= x < image.Length1 && colorIdx == ColorIdx(image[y, x])
    requires Depicts(grid, image)
    ensures count == NeighbourCount(grid, y, x, d)
  {
    count := 0;
    var dy := -d;
    while dy <= d
      invariant -d <= dy <= d + 1
      invariant count == SquareCount(grid, y, x, -d, dy, -d, d + 1)
    {
      var dx := -d;
      while dx <= d
        invariant -d <= dx <= d + 1
        invariant count == SquareCount(grid, y, x, -d, dy, -d, d + 1) + RowCount(grid, y, x, dy, -d, dx)
      {
        var hit := SameColourAt(image, y, x, colorIdx, dy, dx, grid);
        if hit {
          count := count + 1;
        }
        dx := dx + 1;
      }
      assert SquareCount(grid, y, x, -d, dy + 1, -d, d + 1)
        == SquareCount(grid, y, x, -d, dy, -d, d + 1) + RowCount(grid, y, x, dy, -d, d + 1);
      dy := dy + 1;
    }
  }

  // ---------------------------------------------------------------------------------
  // The correlogram
  // ---------------------------------------------------------------------------------

  lemma SlotInRange(ci: ColourIndex, maxDistance: nat, d: int)
    requires 1 <= d <= maxDistance
    ensures 0 <= ci * maxDistance + d - 1 < 512 * maxDistance
  {
    MultipleBounds(ci, maxDistance);
    assert (511 - ci) * maxDistance == 511 * maxDistance - ci * maxDistance;
    MultipleBounds(511 - ci, maxDistance);
  }

  /**
   * The entry of colour `ci` at distance d (1-based) in a correlogram with maxDistance entries
   * per colour: every write of the correlogram loop is inside the 512 * maxDistance entries.
   */
  function Slot(ci: ColourIndex, maxDistance: nat, d: int): (i: nat)
    requires 1 <= d <= maxDistance
    ensures i < 512 * maxDistance
  {
    SlotInRange(ci, maxDistance, d);
    ci * maxDistance + d - 1
  }

  /** Different (colour, distance) pairs have different entries. */
  lemma SlotsDistinct(ci: ColourIndex, cj: ColourIndex, maxDistance: nat, d: int, e: int)
    requires 1 <= d <= maxDistance && 1 <= e <= maxDistance
    ensures Slot(ci, maxDistance, d) == Slot(cj, maxDistance, e) <==> ci == cj && d == e
  {
    assert Slot(ci, maxDistance, d) - Slot(cj, maxDistance, e) == (ci - cj) * maxDistance + (d - e);
    MultipleBounds(ci - cj, maxDistance);
  }

  /** The entries after adding, for the pixel (y, x), its counts at distances 1 .. e to its colour's entries. */
  function AddDistances(bins: seq<real>, grid: Grid, y: int, x: int, maxDistance: nat, e: nat): (r: seq<real>)
    requires InGrid(grid, y, x) && e <= maxDistance && |bins| == 512 * maxDistance
    ensures |r| == |bins|
  {
    if e == 0 then bins
    else
      var r := AddDistances(bins, grid, y, x, maxDistance, e - 1);
      var i := Slot(grid[y][x], maxDistance, e);
      r[i := r[i] + NeighbourCount(grid, y, x, e) as real]
  }

  /**
   * The pixel (y, x) adds its count at distance d to its own colour's entry for d, and leaves
   * every other colour's entries alone.
   */
  lemma {:induction false} AddDistancesSlot(bins: seq<real>, grid: Grid, y: int, x: int, maxDistance: nat, e: nat,
                                            ci: ColourIndex, d: int)
    requires InGrid(grid, y, x) && e <= maxDistance && |bins| == 512 * maxDistance && 1 <= d <= maxDistance
    ensures AddDistances(bins, grid, y, x, maxDistance, e)[Slot(ci, maxDistance, d)]
        == bins[Slot(ci, maxDistance, d)]
           + (if grid[y][x] == ci && d <= e then NeighbourCount(grid, y, x, d) as real else 0.0)
    decreases e
  {
    SlotInRange(ci, maxDistance, d);
    if e > 0 {
      AddDistancesSlot(bins, grid, y, x, maxDistance, e - 1, ci, d);
      SlotsDistinct(grid[y][x], ci, maxDistance, e, d);
    }
  }

  /** `(y, x)` is a position of the row-major scan: row y, before column x. */
  predicate Position(grid: Grid, cols: nat, y: nat, x: nat)
  {
    Rect(grid, cols) && y <= |grid| && x <= cols && (y == |grid| ==> x == 0)
  }

  /** The correlogram entries once the pixels before (y, x) in row-major order have been visited. */
  function Accumulated(grid: Grid, cols: nat, maxDistance: nat, y: nat, x: nat): (bins: seq<real>)
    requires Position(grid, cols, y, x)
    ensures |bins| == 512 * maxDistance
    decreases y, x
  {
    if x == 0 then
      if y == 0 then seq(512 * maxDistance, _ => 0.0) else Accumulated(grid, cols, maxDistance, y - 1, cols)
    else
      AddDistances(Accumulated(grid, cols, maxDistance, y, x - 1), grid, y, x - 1, maxDistance, maxDistance)
  }

  /**
   * The reference definition of one entry: the sum, over the pixels of colour `ci` before (y, x),
   * of their same-colour neighbour counts at distance d.
   */
  function ColourSum(grid: Grid, cols: nat, ci: ColourIndex, d: int, y: nat, x: nat): nat
    requires Position(grid, cols, y, x)
    decreases y, x
  {
    if x == 0 then
      if y == 0 then 0 else ColourSum(grid, cols, ci, d, y - 1, cols)
    else
      ColourSum(grid, cols, ci, d, y, x - 1) + (if grid[y][x - 1] == ci then NeighbourCount(grid, y, x - 1, d) else 0)
  }

  /** Every entry of the accumulation is the reference sum of its colour and distance. */
  lemma {:induction false} AccumulatedEntry(grid: Grid, cols: nat, maxDistance: nat, y: nat, x: nat, ci: ColourIndex, d: int)
    requires Position(grid, cols, y, x) && 1 <= d <= maxDistance
    ensures Accumulated(grid, cols, maxDistance, y, x)[Slot(ci, maxDistance, d)] == ColourSum(grid, cols, ci, d, y, x) as real
    decreases y, x
  {
    SlotInRange(ci, maxDistance, d);
    if x == 0 {
      if y > 0 {
        AccumulatedEntry(grid, cols, maxDistance, y - 1, cols, ci, d);
      }
    } else {
      var before := Accumulated(grid, cols, maxDistance, y, x - 1);
      AccumulatedEntry(grid, cols, maxDistance, y, x - 1, ci, d);
      AddDistancesSlot(before, grid, y, x - 1, maxDistance, maxDistance, ci, d);
      assert Accumulated(grid, cols, maxDistance, y, x) == AddDistances(before, grid, y, x - 1, maxDistance, maxDistance);
    }
  }

  /** The reference sum is 0 for a colour no pixel has. */
  lemma {:induction false} ColourSumAbsent(grid: Grid, cols: nat, ci: ColourIndex, d: int, y: nat, x: nat)
    requires Position(grid, cols, y, x)
    requires forall i, j :: 0 <= i < |grid| && 0 <= j < cols ==> grid[i][j] != ci
    ensures ColourSum(grid, cols, ci, d, y, x) == 0
    decreases y, x
  {
    if x == 0 {
      if y > 0 {
        ColourSumAbsent(grid, cols, ci, d, y - 1, cols);
      }
    } else {
      ColourSumAbsent(grid, cols, ci, d, y, x - 1);
    }
  }

  /** Each visited pixel adds at most (2d+1)^2 - 1 to an entry at distance d. */
  lemma {:induction false} ColourSumBound(grid: Grid, cols: nat, ci: ColourIndex, d: int, y: nat, x: nat)
    requires Position(grid, cols, y, x) && d >= 1
    ensures ColourSum(grid, cols, ci, d, y, x) <= (y * cols + x) * ((2 * d + 1) * (2 * d + 1) - 1)
    decreases y, x
  {
    var w := (2 * d + 1) * (2 * d + 1) - 1;
    if x == 0 {
      if y > 0 {
        ColourSumBound(grid, cols, ci, d, y - 1, cols);
        assert ((y - 1) * cols + cols) * w == (y * cols + 0) * w;
      }
    } else {
      ColourSumBound(grid, cols, ci, d, y, x - 1);
      NeighbourCountBound(grid, y, x - 1, d);
      assert (y * cols + x) * w == (y * cols + (x - 1)) * w + w;
    }
  }

  /**
   * The correlogram of an image with `rows` >= 1 rows of `cols` >= 1 colour indices: the
   * accumulated entries, each divided by the number of pixels.
   */
  function Correlogram(grid: Grid, cols: nat, maxDistance: nat): (c: seq<real>)
    requires Rect(grid, cols) && |grid| >= 1 && cols >= 1
    ensures |c| == 512 * maxDistance
  {
    Scaled(Accumulated(grid, cols, maxDistance, |grid|, 0), (|grid| * cols) as real)
  }

  lemma FractionAtMost(s: nat, n: nat, w: nat)
    requires n >= 1 && s <= n * w
    ensures 0.0 <= s as real / n as real <= w as real
  {
    assert (s as real) <= (n as real) * (w as real);
  }

  /**
   * Entry (ci, d) of the correlogram is the sum of the same-colour neighbour counts at distance
   * d over the pixels of colour ci, divided by the number of pixels. It lies in
   * [0, (2d+1)^2 - 1], and it is 0 when no pixel has colour ci.
   */
  lemma CorrelogramEntry(grid: Grid, cols: nat, maxDistance: nat, ci: ColourIndex, d: int)
    requires Rect(grid, cols) && |grid| >= 1 && cols >= 1 && 1 <= d <= maxDistance
    ensures var e := Correlogram(grid, cols, maxDistance)[Slot(ci, maxDistance, d)];
      && e == ColourSum(grid, cols, ci, d, |grid|, 0) as real / (|grid| * cols) as real
      && 0.0 <= e <= ((2 * d + 1) * (2 * d + 1) - 1) as real
      && ((forall i, j :: 0 <= i < |grid| && 0 <= j < cols ==> grid[i][j] != ci) ==> e == 0.0)
  {
    SlotInRange(ci, maxDistance, d);
    AccumulatedEntry(grid, cols, maxDistance, |grid|, 0, ci, d);
    ColourSumBound(grid, cols, ci, d, |grid|, 0);
    FractionAtMost(ColourSum(grid, cols, ci, d, |grid|, 0), |grid| * cols, (2 * d + 1) * (2 * d + 1) - 1);
    if forall i, j :: 0 <= i < |grid| && 0 <= j < cols ==> grid[i][j] != ci {
      ColourSumAbsent(grid, cols, ci, d, |grid|, 0);
    }
  }

  /** One step of the distance loop: the count at distance d added to the pixel's colour entry for d. */
  method AddDistance(image: array2<Pixel>, correlogram: array<real>, y: int, x: int, maxDistance: nat, d: nat,
                     ghost grid: Grid, ghost bins: seq<real>)
    requires 0 <= y < image.Length0 && 0 <= x < image.Length1 && |bins| == correlogram.Length == 512 * maxDistance
    requires 1 <= d <= maxDistance && Depicts(grid, image)
    requires correlogram[..] == AddDistances(bins, grid, y, x, maxDistance, d - 1)
    modifies correlogram
    ensures correlogram[..] == AddDistances(bins, grid, y, x, maxDistance, d)
  {
    var colorIdx := ColorIdx(image[y, x]);
    var count := CountSameColour(image, y, x, colorIdx, d, grid);
    var i := Slot(colorIdx, maxDistance, d);
    ghost var before := correlogram[..];
    correlogram[i] := correlogram[i] + count as real;
    assert correlogram[..] == before[i := before[i] + count as real];
    AddDistancesStep(bins, grid, y, x, maxDistance, d);
  }

  /** The last distance added is one update of the entries after the distances before it. */
  lemma AddDistancesStep(bins: seq<real>, grid: Grid, y: int, x: int, maxDistance: nat, e: nat)
    requires InGrid(grid, y, x) && 1 <= e <= maxDistance && |bins| == 512 * maxDistance
    ensures var r := AddDistances(bins, grid, y, x, maxDistance, e - 1);
      var i := Slot(grid[y][x], maxDistance, e);
      AddDistances(bins, grid, y, x, maxDistance, e) == r[i := r[i] + NeighbourCount(grid, y, x, e) as real]
  {
  }

  /**
   * The loop over the distances 1 .. maxDistance for the pixel (y, x): each count is added to
   * the pixel's colour entry for that distance.
   */
  method AddPixel(image: array2<Pixel>, correlogram: array<real>, y: int, x: int, maxDistance: nat, ghost grid: Grid)
    requires 0 <= y < image.Length0 && 0 <= x < image.Length1 && correlogram.Length == 512 * maxDistance
    requires Depicts(grid, image)
    modifies correlogram
    ensures correlogram[..] == AddDistances(old(correlogram[..]), grid, y, x, maxDistance, maxDistance)
  {
    ghost var bins := correlogram[..];
    var d := 1;
    while d <= maxDistance
      invariant 1 <= d <= maxDistance + 1 && Depicts(grid, image)
      invariant correlogram[..] == AddDistances(bins, grid, y, x, maxDistance, d - 1)
    {
      AddDistance(image, correlogram, y, x, maxDistance, d, grid, bins);
      d := d + 1;
    }
  }

  /** The column loop of `calculateCorrelogram` for row y: every pixel of the row, left to right. */
  method AddRow(image: array2<Pixel>, correlogram: array<real>, y: int, maxDistance: nat, ghost grid: Grid)
    requires 0 <= y < image.Length0 && correlogram.Length == 512 * maxDistance && Depicts(grid, image)
    requires correlogram[..] == Accumulated(grid, image.Length1, maxDistance, y, 0)
    modifies correlogram
    ensures correlogram[..] == Accumulated(grid, image.Length1, maxDistance, y + 1, 0)
  {
    var x := 0;
    while x < image.Length1
      invariant 0 <= x <= image.Length1 && Depicts(grid, image)
      invariant correlogram[..] == Accumulated(grid, image.Length1, maxDistance, y, x)
    {
      AddPixel(image, correlogram, y, x, maxDistance, grid);
      x := x + 1;
    }
  }

  /** The row loop of `calculateCorrelogram`: 512 * maxDistance zeroed entries, then every row. */
  method AccumulateImage(image: array2<Pixel>, maxDistance: nat, ghost grid: Grid) returns (correlogram: array<real>)
    requires Depicts(grid, image)
    ensures fresh(correlogram)
    ensures correlogram[..] == Accumulated(grid, image.Length1, maxDistance, image.Length0, 0)
  {
    correlogram := new real[512 * maxDistance](_ => 0.0);
    var y := 0;
    while y < image.Length0
      invariant 0 <= y <= image.Length0 && Depicts(grid, image)
      invariant correlogram[..] == Accumulated(grid, image.Length1, maxDistance, y, 0)
    {
      AddRow(image, correlogram, y, maxDistance, grid);
      y := y + 1;
    }
  }

  /**
   * `calculateCorrelogram` on an image with at least one pixel: 512 * maxDistance zeroed
   * entries, every pixel's counts added in row-major order, and every entry divided by the
   * number of pixels.
   */
  method CalculateCorrelogram(image: array2<Pixel>, maxDistance: nat) returns (correlogram: array<real>)
    requires image.Length0 >= 1 && image.Length1 >= 1
    ensures correlogram[..] == Correlogram(GridOf(image), image.Length1, maxDistance)
  {
    ghost var grid := GridOf(image);
    correlogram := AccumulateImage(image, maxDistance, grid);
    var pixels := image.Length0 * image.Length1;
    MultipleBounds(image.Length0, image.Length1);
    DivideInPlace(correlogram, pixels as real);
  }

  /**
   * `ColorCorrelogramExtractor::extractFeature`: an empty image is rejected with the
   * `invalid_argument` message; otherwise the image is quantised with the default 8 levels and
   * its correlogram taken with the default maximum distance 5. Quantisation keeps every
   * pixel's colour index, so the result is the correlogram of the original image.
   */
  method ExtractCorrelogram(image: array2<Pixel>) returns (r: Result<seq<real>>)
    ensures image.Length0 == 0 || image.Length1 == 0 <==> r == Failure("Input image is empty")
    ensures r.Success? ==>
      && |r.value| == 512 * 5
      && r.value == Correlogram(GridOf(image), image.Length1, FeatureExtractor.DefaultMaxDistance)
  {
    if image.Length0 == 0 || image.Length1 == 0 {
      return Failure("Input image is empty");
    }
    var quantizedImage := QuantizeColors(image, FeatureExtractor.DefaultColorLevels);
    QuantizedGrid(image, quantizedImage);
    var correlogram := CalculateCorrelogram(quantizedImage, FeatureExtractor.DefaultMaxDistance);
    r := Success(correlogram[..]);
  }
}
