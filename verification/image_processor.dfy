/**
 * The edge map of src/lib/embroidery/image-processor.ts: a grayscale plane
 * of one byte per pixel, a 5 × 5 binomial blur whose samples are clamped
 * into the image, a Sobel gradient test against the threshold on the
 * interior pixels, and a suppression of every edge pixel that is below one
 * of its eight neighbours. The record it returns carries the unblurred
 * grayscale plane and the suppressed edges.
 */
module ImageProcessor {
  import opened Numeric
  import opened Types
  import opened Raster

  /** What processImage resolves to. */
  datatype ProcessedImage = ProcessedImage(width: nat, height: nat, grayscale: seq<byte>, edges: seq<byte>, threshold: real)

  // ---------------------------------------------------------------------
  // The grayscale plane

  /** The gray value of pixel p: `Math.round(0.299 R + 0.587 G + 0.114 B)`. */
  function GrayAt(img: ImageData, p: int): byte
    requires WellFormed(img) && 0 <= p < img.width * img.height
  {
    Gray(img.data[4 * p], img.data[4 * p + 1], img.data[4 * p + 2])
  }

  /** One gray byte per pixel, in row-major order. */
  function GrayPlane(img: ImageData): (g: seq<byte>)
    requires WellFormed(img)
    ensures |g| == img.width * img.height
  {
    seq(img.width * img.height, p requires 0 <= p < img.width * img.height => GrayAt(img, p))
  }

  /** The grayscale loop: four data bytes at a time, one gray byte into a fresh plane. */
  method GrayscalePlane(img: ImageData) returns (gray: array<byte>)
    requires WellFormed(img)
    ensures fresh(gray) && gray[..] == GrayPlane(img)
  {
    gray := new byte[img.width * img.height](_ => 0);
    var i := 0;
    ghost var p := 0;
    while i < |img.data|
      invariant 0 <= p <= img.width * img.height && i == 4 * p
      invariant forall q :: 0 <= q < p ==> gray[q] == GrayAt(img, q)
    {
      assert i / 4 == p;
      gray[i / 4] := Gray(img.data[i], img.data[i + 1], img.data[i + 2]);
      i := i + 4;
      p := p + 1;
    }
  }

  // ---------------------------------------------------------------------
  // The blur as a function of the plane

  /** The 5 × 5 binomial kernel, row by row. */
  const Kernel: seq<seq<int>> := [
    [1, 4, 6, 4, 1],
    [4, 16, 24, 16, 4],
    [6, 24, 36, 24, 6],
    [4, 16, 24, 16, 4],
    [1, 4, 6, 4, 1]]

  /** The divisor of the weighted sum. */
  const KernelSum := 256

  /** The kernel weight at offset (kx, ky) from the centre. */
  function Weight(ky: int, kx: int): (r: int)
    requires -2 <= ky <= 2 && -2 <= kx <= 2
    ensures r >= 1
  {
    Kernel[ky + 2][kx + 2]
  }

  /** The first n weights of kernel row ky. */
  function RowWeights(ky: int, n: nat): int
    requires -2 <= ky <= 2 && n <= 5
  {
    if n == 0 then 0 else RowWeights(ky, n - 1) + Weight(ky, n - 3)
  }

  /** The weights of the first m kernel rows. */
  function Weights(m: nat): int
    requires m <= 5
  {
    if m == 0 then 0 else Weights(m - 1) + RowWeights(m - 3, 5)
  }

  /** The kernel's weights add up to the divisor, so a blur of a flat region stays flat. */
  lemma KernelTotal()
    ensures Weights(5) == KernelSum
  {
  }

  /** `Math.min(Math.max(v, 0), n - 1)`: a sample coordinate clamped into the image. */
  function ClampIndex(v: int, n: nat): (r: int)
    requires n > 0
    ensures 0 <= r < n
    ensures 0 <= v < n ==> r == v
    ensures v < 0 ==> r == 0
    ensures v >= n ==> r == n - 1
  {
    MinInt(MaxInt(v, 0), n - 1)
  }

  /** The plane's value at offset (kx, ky) from (x, y), with both coordinates clamped. */
  function Window(g: seq<byte>, w: nat, h: nat, y: int, x: int, ky: int, kx: int): byte
    requires |g| == w * h && w > 0 && h > 0
  {
    var py, px := ClampIndex(y + ky, h), ClampIndex(x + kx, w);
    PixelIndexBound(w, h, py, px);
    g[PixelIndex(w, py, px)]
  }

  /** The first n weighted samples (kx = -2 .. n - 3) of kernel row ky around (x, y). */
  function RowTaps(g: seq<byte>, w: nat, h: nat, y: int, x: int, ky: int, n: nat): int
    requires |g| == w * h && w > 0 && h > 0 && -2 <= ky <= 2 && n <= 5
  {
    if n == 0 then 0 else RowTaps(g, w, h, y, x, ky, n - 1) + Window(g, w, h, y, x, ky, n - 3) * Weight(ky, n - 3)
  }

  /** The weighted samples of the first m kernel rows (ky = -2 .. m - 3) around (x, y). */
  function Taps(g: seq<byte>, w: nat, h: nat, y: int, x: int, m: nat): int
    requires |g| == w * h && w > 0 && h > 0 && m <= 5
  {
    if m == 0 then 0 else Taps(g, w, h, y, x, m - 1) + RowTaps(g, w, h, y, x, m - 3, 5)
  }

  /** The kernel-weighted sum over the clamped 5 × 5 window of (x, y). */
  function WindowSum(g: seq<byte>, w: nat, h: nat, y: int, x: int): int
    requires |g| == w * h && w > 0 && h > 0
  {
    Taps(g, w, h, y, x, 5)
  }

  /** `Math.round(sum / kernelSum)` of a weighted sum of bytes, which a Uint8ClampedArray stores unchanged. */
  function Averaged(sum: int): (v: byte)
    requires 0 <= sum <= KernelSum * 255
    ensures sum as real / 256.0 - 0.5 < v as real <= sum as real / 256.0 + 0.5
  {
    RoundMonotone(0.0, sum as real / 256.0);
    RoundMonotone(sum as real / 256.0, 255.0);
    RoundOfInt(0);
    RoundOfInt(255);
    RoundBounds(sum as real / 256.0);
    Round(sum as real / 256.0)
  }

  /** The blurred value of pixel (x, y). */
  function BlurAt(g: seq<byte>, w: nat, h: nat, y: int, x: int): byte
    requires |g| == w * h && w > 0 && h > 0
  {
    WindowRange(g, w, h, y, x);
    Averaged(WindowSum(g, w, h, y, x))
  }

  /** The blurred plane, of the same size. */
  function Blur(g: seq<byte>, w: nat, h: nat): (r: seq<byte>)
    requires |g| == w * h
    ensures |r| == |g|
  {
    seq(|g|, k requires 0 <= k < |g| => PixelOf(w, h, k); BlurAt(g, w, h, k / w, k % w))
  }

  // ---------------------------------------------------------------------
  // The blur loops

  /** gaussianBlur: every pixel, row by row, into a fresh plane. */
  method GaussianBlur(g: array<byte>, w: nat, h: nat) returns (result: array<byte>)
    requires g.Length == w * h
    ensures fresh(result) && result[..] == Blur(g[..], w, h)
  {
    result := new byte[g.Length](_ => 0);
    ghost var expected := Blur(g[..], w, h);
    NothingWritten(result[..], expected, 0);
    var y := 0;
    while y < h
      invariant 0 <= y <= h
      invariant WrittenBefore(result[..], expected, 0, PixelIndex(w, y, 0))
    {
      var x := 0;
      while x < w
        invariant 0 <= x <= w
        invariant WrittenBefore(result[..], expected, 0, PixelIndex(w, y, x))
      {
        var sum := WindowTotal(g, w, h, y, x);
        WindowRange(g[..], w, h, y, x);
        BlurStep(result[..], g[..], w, h, y, x);
        result[y * w + x] := Averaged(sum);
        x := x + 1;
      }
      assert PixelIndex(w, y, w) == PixelIndex(w, y + 1, 0);
      y := y + 1;
    }
    AllWritten(result[..], expected, 0, PixelIndex(w, h, 0));
  }

  /** The inner loops of gaussianBlur: the weighted sum over the clamped window of (x, y). */
  method WindowTotal(g: array<byte>, w: nat, h: nat, y: int, x: int) returns (sum: int)
    requires g.Length == w * h && 0 <= y < h && 0 <= x < w
    ensures sum == WindowSum(g[..], w, h, y, x)
  {
    sum := 0;
    var ky := -2;
    while ky <= 2
      invariant -2 <= ky <= 3
      invariant sum == Taps(g[..], w, h, y, x, ky + 2)
    {
      var kx := -2;
      while kx <= 2
        invariant -2 <= kx <= 3
        invariant sum == Taps(g[..], w, h, y, x, ky + 2) + RowTaps(g[..], w, h, y, x, ky, kx + 2)
      {
        var px := MinInt(MaxInt(x + kx, 0), w - 1);
        var py := MinInt(MaxInt(y + ky, 0), h - 1);
        var idx := py * w + px;
        PixelIndexBound(w, h, py, px);
        sum := sum + g[idx] * Kernel[ky + 2][kx + 2];
        kx := kx + 1;
      }
      ky := ky + 1;
    }
  }

  /** Writing the blurred value of pixel (x, y), the next in row-major order. */
  lemma BlurStep(buf: seq<byte>, g: seq<byte>, w: nat, h: nat, y: int, x: int)
    requires |g| == w * h && 0 <= y < h && 0 <= x < w
    requires WrittenBefore(buf, Blur(g, w, h), 0, PixelIndex(w, y, x))
    ensures 0 <= PixelIndex(w, y, x) < |g|
    ensures WrittenBefore(buf[PixelIndex(w, y, x) := BlurAt(g, w, h, y, x)], Blur(g, w, h), 0, PixelIndex(w, y, x) + 1)
  {
    PixelIndexBound(w, h, y, x);
    PixelIndexInverse(w, y, x);
    WriteNext(buf, Blur(g, w, h), 0, PixelIndex(w, y, x));
  }

  // ---------------------------------------------------------------------
  // Properties of the blur

  /** Samples of at least lo give a row sum of at least lo times the row's weights. */
  lemma {:induction false} RowTapsAbove(g: seq<byte>, w: nat, h: nat, y: int, x: int, ky: int, n: nat, lo: int)
    requires |g| == w * h && w > 0 && h > 0 && -2 <= ky <= 2 && n <= 5
    requires forall kx :: -2 <= kx <= 2 ==> lo <= Window(g, w, h, y, x, ky, kx)
    ensures lo * RowWeights(ky, n) <= RowTaps(g, w, h, y, x, ky, n)
  {
    if n > 0 {
      RowTapsAbove(g, w, h, y, x, ky, n - 1, lo);
      MulMonotone(lo, Window(g, w, h, y, x, ky, n - 3), Weight(ky, n - 3));
      MulDistrib(lo, RowWeights(ky, n - 1), Weight(ky, n - 3));
    }
  }

  /** Samples of at most hi give a row sum of at most hi times the row's weights. */
  lemma {:induction false} RowTapsBelow(g: seq<byte>, w: nat, h: nat, y: int, x: int, ky: int, n: nat, hi: int)
    requires |g| == w * h && w > 0 && h > 0 && -2 <= ky <= 2 && n <= 5
    requires forall kx :: -2 <= kx <= 2 ==> Window(g, w, h, y, x, ky, kx) <= hi
    ensures RowTaps(g, w, h, y, x, ky, n) <= hi * RowWeights(ky, n)
  {
    if n > 0 {
      RowTapsBelow(g, w, h, y, x, ky, n - 1, hi);
      MulMonotone(Window(g, w, h, y, x, ky, n - 3), hi, Weight(ky, n - 3));
      MulDistrib(hi, RowWeights(ky, n - 1), Weight(ky, n - 3));
    }
  }

  /** Samples of at least lo give a sum over the first m rows of at least lo times their weights. */
  lemma {:induction false} TapsAbove(g: seq<byte>, w: nat, h: nat, y: int, x: int, m: nat, lo: int)
    requires |g| == w * h && w > 0 && h > 0 && m <= 5
    requires forall ky, kx :: -2 <= ky <= 2 && -2 <= kx <= 2 ==> lo <= Window(g, w, h, y, x, ky, kx)
    ensures lo * Weights(m) <= Taps(g, w, h, y, x, m)
  {
    if m > 0 {
      TapsAbove(g, w, h, y, x, m - 1, lo);
      RowTapsAbove(g, w, h, y, x, m - 3, 5, lo);
      MulDistrib(lo, Weights(m - 1), RowWeights(m - 3, 5));
    }
  }

  /** Samples of at most hi give a sum over the first m rows of at most hi times their weights. */
  lemma {:induction false} TapsBelow(g: seq<byte>, w: nat, h: nat, y: int, x: int, m: nat, hi: int)
    requires |g| == w * h && w > 0 && h > 0 && m <= 5
    requires forall ky, kx :: -2 <= ky <= 2 && -2 <= kx <= 2 ==> Window(g, w, h, y, x, ky, kx) <= hi
    ensures Taps(g, w, h, y, x, m) <= hi * Weights(m)
  {
    if m > 0 {
      TapsBelow(g, w, h, y, x, m - 1, hi);
      RowTapsBelow(g, w, h, y, x, m - 3, 5, hi);
      MulDistrib(hi, Weights(m - 1), RowWeights(m - 3, 5));
    }
  }

  lemma MulMonotone(a: int, b: int, k: int)
    requires a <= b && k >= 0
    ensures a * k <= b * k
  {
  }

  /** A weighted sum of bytes lies between zero and the kernel's sum times 255. */
  lemma WindowRange(g: seq<byte>, w: nat, h: nat, y: int, x: int)
    requires |g| == w * h && w > 0 && h > 0
    ensures 0 <= WindowSum(g, w, h, y, x) <= KernelSum * 255
  {
    KernelTotal();
    TapsAbove(g, w, h, y, x, 5, 0);
    TapsBelow(g, w, h, y, x, 5, 255);
  }

  /**
   * Each blurred value lies between the least and the greatest value of its
   * clamped 5 × 5 window: any bounds on the window bound the blurred value.
   */
  lemma BlurBetween(g: seq<byte>, w: nat, h: nat, y: int, x: int, lo: int, hi: int)
    requires |g| == w * h && w > 0 && h > 0
    requires forall ky, kx :: -2 <= ky <= 2 && -2 <= kx <= 2 ==> lo <= Window(g, w, h, y, x, ky, kx) <= hi
    ensures lo <= BlurAt(g, w, h, y, x) <= hi
  {
    var sum := WindowSum(g, w, h, y, x);
    KernelTotal();
    TapsAbove(g, w, h, y, x, 5, lo);
    TapsBelow(g, w, h, y, x, 5, hi);
    WindowRange(g, w, h, y, x);
    assert lo as real <= sum as real / 256.0 <= hi as real;
    RoundMonotone(lo as real, sum as real / 256.0);
    RoundMonotone(sum as real / 256.0, hi as real);
    RoundOfInt(lo);
    RoundOfInt(hi);
  }

  /** The blur leaves a constant plane unchanged. */
  lemma BlurConstant(g: seq<byte>, w: nat, h: nat, c: byte)
    requires |g| == w * h && forall k :: 0 <= k < |g| ==> g[k] == c
    ensures Blur(g, w, h) == g
  {
    forall k | 0 <= k < |g|
      ensures Blur(g, w, h)[k] == c
    {
      PixelOf(w, h, k);
      ConstantWindow(g, w, h, k / w, k % w, c);
      BlurBetween(g, w, h, k / w, k % w, c, c);
    }
  }

  /** Every sample of a constant plane is that constant. */
  lemma ConstantWindow(g: seq<byte>, w: nat, h: nat, y: int, x: int, c: byte)
    requires |g| == w * h && w > 0 && h > 0 && forall k :: 0 <= k < |g| ==> g[k] == c
    ensures forall ky, kx :: -2 <= ky <= 2 && -2 <= kx <= 2 ==> c <= Window(g, w, h, y, x, ky, kx) <= c
  {
    forall ky, kx | -2 <= ky <= 2 && -2 <= kx <= 2
      ensures Window(g, w, h, y, x, ky, kx) == c
    {
      var py, px := ClampIndex(y + ky, h), ClampIndex(x + kx, w);
      PixelIndexBound(w, h, py, px);
    }
  }

  // ---------------------------------------------------------------------
  // The Sobel test

  /** The horizontal Sobel sum at an interior pixel of the blurred plane. */
  function Gx(b: seq<byte>, w: nat, h: nat, y: int, x: int): int
    requires |b| == w * h && Interior(w, h, y, x)
  {
    var i := PixelIndex(w, y, x);
    Neighbours(w, h, y, x);
    -1 * (b[i - w - 1] as int) + -2 * (b[i - 1] as int) + -1 * (b[i + w - 1] as int) +
      1 * (b[i - w + 1] as int) + 2 * (b[i + 1] as int) + 1 * (b[i + w + 1] as int)
  }

  /** The vertical Sobel sum at an interior pixel of the blurred plane. */
  function Gy(b: seq<byte>, w: nat, h: nat, y: int, x: int): int
    requires |b| == w * h && Interior(w, h, y, x)
  {
    var i := PixelIndex(w, y, x);
    Neighbours(w, h, y, x);
    -1 * (b[i - w - 1] as int) + -2 * (b[i - w] as int) + -1 * (b[i - w + 1] as int) +
      1 * (b[i + w - 1] as int) + 2 * (b[i + w] as int) + 1 * (b[i + w + 1] as int)
  }

  /** gx² + gy², whose square root processImage compares with the threshold. */
  function GradientSq(b: seq<byte>, w: nat, h: nat, y: int, x: int): int
    requires |b| == w * h && Interior(w, h, y, x)
  {
    var gx, gy := Gx(b, w, h, y, x), Gy(b, w, h, y, x);
    gx * gx + gy * gy
  }

  /** Pixel k of the edge map: 255 where the gradient's magnitude exceeds the threshold, 0 elsewhere and on the border. */
  function EdgeAt(math: MathLib, b: seq<byte>, w: nat, h: nat, t: real, k: int): byte
    requires |b| == w * h && 0 <= k < w * h
  {
    PixelOf(w, h, k);
    if Border(w, h, k) then 0
    else if math.sqrt(GradientSq(b, w, h, k / w, k % w) as real) > t then 255
    else 0
  }

  /** The edge map of a blurred plane. */
  function Edges(math: MathLib, b: seq<byte>, w: nat, h: nat, t: real): (r: seq<byte>)
    requires |b| == w * h
    ensures |r| == w * h
  {
    seq(w * h, k requires 0 <= k < w * h => EdgeAt(math, b, w, h, t, k))
  }

  /** The Sobel loops of processImage, over the interior pixels of the blurred plane. */
  method SobelEdges(math: MathLib, b: array<byte>, w: nat, h: nat, t: real) returns (edges: array<byte>)
    requires b.Length == w * h
    ensures fresh(edges) && edges[..] == Edges(math, b[..], w, h, t)
  {
    edges := new byte[w * h](_ => 0);
    ghost var expected := Edges(math, b[..], w, h, t);
    if w == 0 {
      assert edges[..] == expected;
      return;
    }
    NothingWritten(edges[..], expected, 0);
    EdgesBorder(math, b[..], w, h, t);
    SkipFirstBorder(edges[..], expected, 0, w, h);
    var y := 1;
    while y < h - 1
      invariant 1 <= y && (h >= 2 ==> y <= h - 1) && (h < 2 ==> y == 1)
      invariant WrittenBefore(edges[..], expected, 0, PixelIndex(w, y, 1))
    {
      var x := 1;
      while x < w - 1
        invariant 1 <= x && (w >= 2 ==> x <= w - 1) && (w < 2 ==> x == 1)
        invariant WrittenBefore(edges[..], expected, 0, PixelIndex(w, y, x))
      {
        var idx := y * w + x;
        var gx, gy := SobelSums(b, w, h, y, x);
        var magnitude := math.sqrt((gx * gx + gy * gy) as real);
        EdgeStep(edges[..], math, b[..], w, h, t, y, x);
        edges[idx] := if magnitude > t then 255 else 0;
        x := x + 1;
      }
      SkipRowEnd(edges[..], expected, 0, w, h, y, x);
      y := y + 1;
    }
    SkipLastBorder(edges[..], expected, 0, w, h, y);
  }

  /** The two Sobel sums at interior pixel (x, y), read from the blurred plane as processImage reads them. */
  method SobelSums(b: array<byte>, w: nat, h: nat, y: int, x: int) returns (gx: int, gy: int)
    requires b.Length == w * h && Interior(w, h, y, x)
    ensures gx == Gx(b[..], w, h, y, x) && gy == Gy(b[..], w, h, y, x)
    ensures gx * gx + gy * gy == GradientSq(b[..], w, h, y, x)
  {
    var idx := y * w + x;
    Neighbours(w, h, y, x);
    gx := -1 * (b[idx - w - 1] as int) + -2 * (b[idx - 1] as int) + -1 * (b[idx + w - 1] as int) +
      1 * (b[idx - w + 1] as int) + 2 * (b[idx + 1] as int) + 1 * (b[idx + w + 1] as int);
    gy := -1 * (b[idx - w - 1] as int) + -2 * (b[idx - w] as int) + -1 * (b[idx - w + 1] as int) +
      1 * (b[idx + w - 1] as int) + 2 * (b[idx + w] as int) + 1 * (b[idx + w + 1] as int);
  }

  /** Writing the edge value of interior pixel (x, y), the next one the Sobel loops visit. */
  lemma EdgeStep(buf: seq<byte>, math: MathLib, b: seq<byte>, w: nat, h: nat, t: real, y: int, x: int)
    requires |b| == w * h && Interior(w, h, y, x)
    requires WrittenBefore(buf, Edges(math, b, w, h, t), 0, PixelIndex(w, y, x))
    ensures 0 <= PixelIndex(w, y, x) < w * h
    ensures var v: byte := if math.sqrt(GradientSq(b, w, h, y, x) as real) > t then 255 else 0;
      WrittenBefore(buf[PixelIndex(w, y, x) := v], Edges(math, b, w, h, t), 0, PixelIndex(w, y, x) + 1)
  {
    PixelIndexBound(w, h, y, x);
    PixelIndexInverse(w, y, x);
    WriteNext(buf, Edges(math, b, w, h, t), 0, PixelIndex(w, y, x));
  }

  /** The edge map is 0 on the border. */
  lemma EdgesBorder(math: MathLib, b: seq<byte>, w: nat, h: nat, t: real)
    requires |b| == w * h && w > 0
    ensures forall k :: 0 <= k < w * h && Border(w, h, k) ==> Edges(math, b, w, h, t)[k] == 0
  {
  }

  /**
   * An interior pixel of the edge map is 255 exactly when gx² + gy² exceeds
   * the threshold's square (or the threshold is negative), and 0 otherwise;
   * every border pixel is 0.
   */
  lemma EdgeThreshold(math: MathLib, b: seq<byte>, w: nat, h: nat, t: real, y: int, x: int)
    requires IsSqrt(math.sqrt) && |b| == w * h && 0 <= y < h && 0 <= x < w
    ensures 0 <= PixelIndex(w, y, x) < w * h
    ensures !Interior(w, h, y, x) ==> Edges(math, b, w, h, t)[PixelIndex(w, y, x)] == 0
    ensures Interior(w, h, y, x) ==>
      (Edges(math, b, w, h, t)[PixelIndex(w, y, x)] == 255 <==> t < 0.0 || GradientSq(b, w, h, y, x) as real > t * t)
    ensures Interior(w, h, y, x) ==>
      (Edges(math, b, w, h, t)[PixelIndex(w, y, x)] == 0 <==> 0.0 <= t && GradientSq(b, w, h, y, x) as real <= t * t)
  {
    PixelIndexBound(w, h, y, x);
    PixelIndexInverse(w, y, x);
    if Interior(w, h, y, x) {
      var gx, gy := Gx(b, w, h, y, x), Gy(b, w, h, y, x);
      assert GradientSq(b, w, h, y, x) >= 0 by {
        assert gx * gx >= 0 && gy * gy >= 0;
      }
      SqrtAbove(math.sqrt, GradientSq(b, w, h, y, x) as real, t);
    }
  }

  // ---------------------------------------------------------------------
  // Non-maximum suppression

  /** `Math.max(n1, ..., n8)` over the eight neighbours of an interior pixel, left to right. */
  function NeighbourMax(e: seq<byte>, w: nat, h: nat, y: int, x: int): int
    requires |e| == w * h && Interior(w, h, y, x)
  {
    var i := PixelIndex(w, y, x);
    Neighbours(w, h, y, x);
    MaxInt(MaxInt(MaxInt(MaxInt(MaxInt(MaxInt(MaxInt(
      e[i - w - 1], e[i - w]), e[i - w + 1]), e[i - 1]), e[i + 1]), e[i + w - 1]), e[i + w]), e[i + w + 1])
  }

  /** Pixel k after suppression: a non-zero interior value that is at least every neighbour's is kept, all else is 0. */
  function SuppressedAt(e: seq<byte>, w: nat, h: nat, k: int): byte
    requires |e| == w * h && 0 <= k < w * h
  {
    PixelOf(w, h, k);
    if Border(w, h, k) || e[k] == 0 then 0
    else if e[k] >= NeighbourMax(e, w, h, k / w, k % w) then e[k]
    else 0
  }

  /** The suppressed edge map. */
  function Suppressed(e: seq<byte>, w: nat, h: nat): (r: seq<byte>)
    requires |e| == w * h
    ensures |r| == w * h
  {
    seq(w * h, k requires 0 <= k < w * h => SuppressedAt(e, w, h, k))
  }

  /** nonMaxSuppression: the interior pixels, row by row, into a zeroed plane. */
  method NonMaxSuppression(e: array<byte>, w: nat, h: nat) returns (result: array<byte>)
    requires e.Length == w * h
    ensures fresh(result) && result[..] == Suppressed(e[..], w, h)
  {
    result := new byte[e.Length](_ => 0);
    ghost var expected := Suppressed(e[..], w, h);
    if w == 0 {
      assert result[..] == expected;
      return;
    }
    NothingWritten(result[..], expected, 0);
    SkipFirstBorder(result[..], expected, 0, w, h);
    var y := 1;
    while y < h - 1
      invariant 1 <= y && (h >= 2 ==> y <= h - 1) && (h < 2 ==> y == 1)
      invariant WrittenBefore(result[..], expected, 0, PixelIndex(w, y, 1))
    {
      var x := 1;
      while x < w - 1
        invariant 1 <= x && (w >= 2 ==> x <= w - 1) && (w < 2 ==> x == 1)
        invariant WrittenBefore(result[..], expected, 0, PixelIndex(w, y, x))
      {
        var idx := y * w + x;
        SuppressStep(result[..], e[..], w, h, y, x);
        if e[idx] != 0 {
          var isMax := IsLocalMax(e, w, h, y, x);
          result[idx] := if isMax then e[idx] else 0;
        }
        x := x + 1;
      }
      SkipRowEnd(result[..], expected, 0, w, h, y, x);
      y := y + 1;
    }
    SkipLastBorder(result[..], expected, 0, w, h, y);
  }

  /** Whether interior pixel (x, y) is at least `Math.max` of its eight neighbours. */
  method IsLocalMax(e: array<byte>, w: nat, h: nat, y: int, x: int) returns (isMax: bool)
    requires e.Length == w * h && Interior(w, h, y, x)
    ensures 0 <= PixelIndex(w, y, x) < w * h
    ensures isMax == (e[PixelIndex(w, y, x)] >= NeighbourMax(e[..], w, h, y, x))
  {
    var idx := y * w + x;
    Neighbours(w, h, y, x);
    var n1, n2, n3, n4 := e[idx - w - 1], e[idx - w], e[idx - w + 1], e[idx - 1];
    var n5, n6, n7, n8 := e[idx + 1], e[idx + w - 1], e[idx + w], e[idx + w + 1];
    isMax := e[idx] >= MaxInt(MaxInt(MaxInt(MaxInt(MaxInt(MaxInt(MaxInt(n1, n2), n3), n4), n5), n6), n7), n8);
  }

  /** Writing (or, for a zero, skipping) interior pixel (x, y), the next one the suppression loops visit. */
  lemma SuppressStep(buf: seq<byte>, e: seq<byte>, w: nat, h: nat, y: int, x: int)
    requires |e| == w * h && Interior(w, h, y, x)
    requires WrittenBefore(buf, Suppressed(e, w, h), 0, PixelIndex(w, y, x))
    ensures 0 <= PixelIndex(w, y, x) < w * h
    ensures var i := PixelIndex(w, y, x);
      (e[i] == 0 ==> WrittenBefore(buf, Suppressed(e, w, h), 0, i + 1)) &&
      (e[i] != 0 ==>
        WrittenBefore(buf[i := if e[i] >= NeighbourMax(e, w, h, y, x) then e[i] else 0], Suppressed(e, w, h), 0, i + 1))
  {
    var i := PixelIndex(w, y, x);
    SuppressedEntry(e, w, h, y, x);
    if e[i] == 0 {
      SkipBlanks(buf, Suppressed(e, w, h), 0, i, i + 1);
    } else {
      WriteNext(buf, Suppressed(e, w, h), 0, i);
    }
  }

  /** The suppressed map's entry for an interior pixel. */
  lemma SuppressedEntry(e: seq<byte>, w: nat, h: nat, y: int, x: int)
    requires |e| == w * h && Interior(w, h, y, x)
    ensures 0 <= PixelIndex(w, y, x) < w * h
    ensures Suppressed(e, w, h)[PixelIndex(w, y, x)] ==
      if e[PixelIndex(w, y, x)] == 0 then 0
      else if e[PixelIndex(w, y, x)] >= NeighbourMax(e, w, h, y, x) then e[PixelIndex(w, y, x)]
      else 0
  {
    PixelIndexBound(w, h, y, x);
    PixelIndexInverse(w, y, x);
  }

  /**
   * Suppression only ever keeps a value or clears it: each pixel ends up 0
   * or its input value, and the border ends up 0.
   */
  lemma SuppressionKeepsOrClears(e: seq<byte>, w: nat, h: nat, y: int, x: int)
    requires |e| == w * h && 0 <= y < h && 0 <= x < w
    ensures 0 <= PixelIndex(w, y, x) < w * h
    ensures var r := Suppressed(e, w, h)[PixelIndex(w, y, x)];
      (r == 0 || r == e[PixelIndex(w, y, x)]) && (!Interior(w, h, y, x) ==> r == 0)
  {
    PixelIndexBound(w, h, y, x);
    PixelIndexInverse(w, y, x);
  }

  /** On a map of 0 and 255 only, suppression keeps every interior pixel and clears the border. */
  lemma SuppressBinary(e: seq<byte>, w: nat, h: nat, y: int, x: int)
    requires |e| == w * h && forall k :: 0 <= k < |e| ==> e[k] == 0 || e[k] == 255
    requires 0 <= y < h && 0 <= x < w
    ensures 0 <= PixelIndex(w, y, x) < w * h
    ensures Suppressed(e, w, h)[PixelIndex(w, y, x)] == if Interior(w, h, y, x) then e[PixelIndex(w, y, x)] else 0
  {
    PixelIndexBound(w, h, y, x);
    PixelIndexInverse(w, y, x);
    if Interior(w, h, y, x) {
      SuppressedEntry(e, w, h, y, x);
      MaxBelow255(e, w, h, y, x);
    }
  }

  /** Every neighbour is a byte, so the neighbours' maximum is at most 255. */
  lemma MaxBelow255(e: seq<byte>, w: nat, h: nat, y: int, x: int)
    requires |e| == w * h && Interior(w, h, y, x)
    ensures NeighbourMax(e, w, h, y, x) <= 255
  {
    Neighbours(w, h, y, x);
  }

  // ---------------------------------------------------------------------
  // processImage

  /** The record processImage resolves to for an image and a threshold. */
  function Processed(math: MathLib, img: ImageData, t: real): ProcessedImage
    requires WellFormed(img)
  {
    var w, h := img.width, img.height;
    var gray := GrayPlane(img);
    ProcessedImage(w, h, gray, Suppressed(Edges(math, Blur(gray, w, h), w, h, t), w, h), t)
  }

  /** processImage: grayscale, blur, Sobel test and suppression, in that order. */
  method ProcessImage(math: MathLib, img: ImageData, threshold: real) returns (r: ProcessedImage)
    requires WellFormed(img)
    ensures r == Processed(math, img, threshold)
    ensures r.width == img.width && r.height == img.height && r.threshold == threshold
    ensures r.grayscale == GrayPlane(img) && |r.edges| == img.width * img.height
  {
    var w, h := img.width, img.height;
    var grayscale := GrayscalePlane(img);
    var blurred := GaussianBlur(grayscale, w, h);
    var edges := SobelEdges(math, blurred, w, h, threshold);
    var finalEdges := NonMaxSuppression(edges, w, h);
    r := ProcessedImage(w, h, grayscale[..], finalEdges[..], threshold);
  }

  /**
   * The returned edges are the Sobel test on the blurred grayscale plane:
   * an interior pixel is 255 exactly when gx² + gy² exceeds the threshold's
   * square (or the threshold is negative) and 0 otherwise, and every border
   * pixel is 0. Suppression removes nothing, since a 255 is never below a
   * neighbour.
   */
  lemma ProcessedEdges(math: MathLib, img: ImageData, t: real, y: int, x: int)
    requires IsSqrt(math.sqrt) && WellFormed(img) && 0 <= y < img.height && 0 <= x < img.width
    ensures var w, h := img.width, img.height;
      var b := Blur(GrayPlane(img), w, h);
      var edges := Processed(math, img, t).edges;
      0 <= PixelIndex(w, y, x) < |edges| &&
      (!Interior(w, h, y, x) ==> edges[PixelIndex(w, y, x)] == 0) &&
      (Interior(w, h, y, x) ==>
        (edges[PixelIndex(w, y, x)] == 255 <==> t < 0.0 || GradientSq(b, w, h, y, x) as real > t * t) &&
        (edges[PixelIndex(w, y, x)] == 0 <==> 0.0 <= t && GradientSq(b, w, h, y, x) as real <= t * t))
  {
    var w, h := img.width, img.height;
    var b := Blur(GrayPlane(img), w, h);
    var e := Edges(math, b, w, h, t);
    forall k | 0 <= k < |e|
      ensures e[k] == 0 || e[k] == 255
    {
    }
    SuppressBinary(e, w, h, y, x);
    EdgeThreshold(math, b, w, h, t, y, x);
  }

  /** A square root of zero is zero. */
  lemma SqrtZero(math: MathLib)
    requires IsSqrt(math.sqrt)
    ensures math.sqrt(0.0) == 0.0
  {
    var s := math.sqrt(0.0);
    assert 0.0 <= s && s * s == 0.0;
    SquareCompare(s, 0.0, 0.0);
  }

  /** A uniform image with a non-negative threshold has no edges at all. */
  lemma UniformImageHasNoEdges(math: MathLib, img: ImageData, t: real, red: byte, green: byte, blue: byte)
    requires IsSqrt(math.sqrt) && WellFormed(img) && 0.0 <= t
    requires forall p :: 0 <= p < img.width * img.height ==>
      img.data[4 * p] == red && img.data[4 * p + 1] == green && img.data[4 * p + 2] == blue
    ensures forall k :: 0 <= k < |Processed(math, img, t).edges| ==> Processed(math, img, t).edges[k] == 0
  {
    var w, h := img.width, img.height;
    var gray := GrayPlane(img);
    var c := Gray(red, green, blue);
    BlurConstant(gray, w, h, c);
    var e := Edges(math, gray, w, h, t);
    forall k | 0 <= k < w * h
      ensures e[k] == 0
    {
      PixelOf(w, h, k);
      if !Border(w, h, k) {
        FlatGradient(gray, w, h, k / w, k % w, c);
        SqrtZero(math);
      }
    }
  }

  /** On a constant plane both Sobel sums vanish. */
  lemma FlatGradient(g: seq<byte>, w: nat, h: nat, y: int, x: int, c: byte)
    requires |g| == w * h && Interior(w, h, y, x) && forall k :: 0 <= k < |g| ==> g[k] == c
    ensures GradientSq(g, w, h, y, x) == 0
  {
    Neighbours(w, h, y, x);
    assert Gx(g, w, h, y, x) == 0 && Gy(g, w, h, y, x) == 0;
  }
}
