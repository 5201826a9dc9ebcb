/**
 * The edge detector of src/lib/embroidery/processors/EdgeProcessor.ts: the
 * Sobel kernels applied to the red channel of every interior pixel, a white
 * opaque pixel where the gradient's magnitude exceeds the threshold, and a
 * thinning pass that keeps a red-255 pixel when it is at least every one of
 * its eight neighbours. Any error is reported as a ProcessingError named
 * "Failed to detect edges".
 */
module EdgeProcessor {
  import opened Wrappers
  import opened Numeric
  import opened Types
  import opened Raster
  import Streams

  const FailureMessage := "Failed to detect edges"

  // ---------------------------------------------------------------------
  // applyKernel, sobelX and sobelY

  /** A 3 × 3 kernel, row by row. */
  predicate IsKernel(kernel: seq<seq<int>>) {
    |kernel| == 3 && forall i :: 0 <= i < 3 ==> |kernel[i]| == 3
  }

  /** The horizontal Sobel kernel of sobelX. */
  const SobelXKernel: seq<seq<int>> := [[-1, 0, 1], [-2, 0, 2], [-1, 0, 1]]

  /** The vertical Sobel kernel of sobelY. */
  const SobelYKernel: seq<seq<int>> := [[-1, -2, -1], [0, 0, 0], [1, 2, 1]]

  /** The red value of pixel (x, y). */
  function Red(img: ImageData, y: int, x: int): int {
    Sample(img, y, x, 0)
  }

  /** The first n weighted red samples (kx = -1 .. n - 2) of kernel row ky around (x, y). */
  function KernelRow(img: ImageData, y: int, x: int, kernel: seq<seq<int>>, ky: int, n: nat): int
    requires IsKernel(kernel) && -1 <= ky <= 1 && n <= 3
  {
    if n == 0 then 0 else KernelRow(img, y, x, kernel, ky, n - 1) + Red(img, y + ky, x + n - 2) * kernel[ky + 1][n - 1]
  }

  /** The weighted red samples of the first m kernel rows (ky = -1 .. m - 2) around (x, y). */
  function KernelRows(img: ImageData, y: int, x: int, kernel: seq<seq<int>>, m: nat): int
    requires IsKernel(kernel) && m <= 3
  {
    if m == 0 then 0 else KernelRows(img, y, x, kernel, m - 1) + KernelRow(img, y, x, kernel, m - 2, 3)
  }

  /** The kernel-weighted sum of the red values of the 3 × 3 neighbourhood of (x, y). */
  function Convolve(img: ImageData, y: int, x: int, kernel: seq<seq<int>>): int
    requires IsKernel(kernel)
  {
    KernelRows(img, y, x, kernel, 3)
  }

  /** applyKernel: the weighted sum over the red values around an interior pixel, one neighbour at a time. */
  method ApplyKernel(img: ImageData, y: int, x: int, kernel: seq<seq<int>>) returns (sum: int)
    requires WellFormed(img) && Interior(img.width, img.height, y, x) && IsKernel(kernel)
    ensures sum == Convolve(img, y, x, kernel)
  {
    sum := 0;
    var ky := -1;
    while ky <= 1
      invariant -1 <= ky <= 2
      invariant sum == KernelRows(img, y, x, kernel, ky + 1)
    {
      var kx := -1;
      while kx <= 1
        invariant -1 <= kx <= 2
        invariant sum == KernelRows(img, y, x, kernel, ky + 1) + KernelRow(img, y, x, kernel, ky, kx + 1)
      {
        var idx := ((y + ky) * img.width + (x + kx)) * 4;
        SampleInside(img, y + ky, x + kx, 0);
        sum := sum + img.data[idx] * kernel[ky + 1][kx + 1];
        kx := kx + 1;
      }
      ky := ky + 1;
    }
  }

  /**
   * sobelX: the horizontal gradient at (x, y), the right column minus the
   * left column of red values with the middle row counted twice.
   */
  function SobelX(img: ImageData, y: int, x: int): (g: int)
    ensures g ==
      (Red(img, y - 1, x + 1) + 2 * Red(img, y, x + 1) + Red(img, y + 1, x + 1)) -
      (Red(img, y - 1, x - 1) + 2 * Red(img, y, x - 1) + Red(img, y + 1, x - 1))
  {
    ConvolveOf(img, y, x, SobelXKernel);
    Convolve(img, y, x, SobelXKernel)
  }

  /**
   * sobelY: the vertical gradient at (x, y), the bottom row minus the top
   * row of red values with the middle column counted twice.
   */
  function SobelY(img: ImageData, y: int, x: int): (g: int)
    ensures g ==
      (Red(img, y + 1, x - 1) + 2 * Red(img, y + 1, x) + Red(img, y + 1, x + 1)) -
      (Red(img, y - 1, x - 1) + 2 * Red(img, y - 1, x) + Red(img, y - 1, x + 1))
  {
    ConvolveOf(img, y, x, SobelYKernel);
    Convolve(img, y, x, SobelYKernel)
  }

  /** One kernel row's three weighted samples. */
  lemma KernelRowOf(img: ImageData, y: int, x: int, kernel: seq<seq<int>>, ky: int)
    requires IsKernel(kernel) && -1 <= ky <= 1
    ensures KernelRow(img, y, x, kernel, ky, 3) ==
      Red(img, y + ky, x - 1) * kernel[ky + 1][0] + Red(img, y + ky, x) * kernel[ky + 1][1] +
      Red(img, y + ky, x + 1) * kernel[ky + 1][2]
  {
    assert KernelRow(img, y, x, kernel, ky, 1) == Red(img, y + ky, x - 1) * kernel[ky + 1][0];
    assert KernelRow(img, y, x, kernel, ky, 2) == KernelRow(img, y, x, kernel, ky, 1) + Red(img, y + ky, x) * kernel[ky + 1][1];
  }

  /** The weighted sum is the nine weighted samples of the neighbourhood. */
  lemma ConvolveOf(img: ImageData, y: int, x: int, kernel: seq<seq<int>>)
    requires IsKernel(kernel)
    ensures Convolve(img, y, x, kernel) ==
      Red(img, y - 1, x - 1) * kernel[0][0] + Red(img, y - 1, x) * kernel[0][1] + Red(img, y - 1, x + 1) * kernel[0][2] +
      Red(img, y, x - 1) * kernel[1][0] + Red(img, y, x) * kernel[1][1] + Red(img, y, x + 1) * kernel[1][2] +
      Red(img, y + 1, x - 1) * kernel[2][0] + Red(img, y + 1, x) * kernel[2][1] + Red(img, y + 1, x + 1) * kernel[2][2]
  {
    KernelRowOf(img, y, x, kernel, -1);
    KernelRowOf(img, y, x, kernel, 0);
    KernelRowOf(img, y, x, kernel, 1);
    assert KernelRows(img, y, x, kernel, 1) == KernelRow(img, y, x, kernel, -1, 3);
    assert KernelRows(img, y, x, kernel, 2) == KernelRows(img, y, x, kernel, 1) + KernelRow(img, y, x, kernel, 0, 3);
  }

  // ---------------------------------------------------------------------
  // The Sobel pass as a function of the input

  /** gx² + gy² at (x, y). */
  function GradientSq(img: ImageData, y: int, x: int): int {
    var gx, gy := SobelX(img, y, x), SobelY(img, y, x);
    gx * gx + gy * gy
  }

  /** The edge value of interior pixel (x, y): 255 where the gradient's magnitude exceeds the threshold. */
  function EdgeValue(math: MathLib, img: ImageData, t: real, y: int, x: int): byte {
    if math.sqrt(GradientSq(img, y, x) as real) > t then 255 else 0
  }

  /** Byte k of the Sobel pass's image: the edge value in R, G and B and an opaque alpha inside, zero on the border. */
  function SobelByte(math: MathLib, img: ImageData, t: real, k: int): byte
    requires WellFormed(img) && 0 <= k < |img.data|
  {
    var p := k / 4;
    PixelOf(img.width, img.height, p);
    if Border(img.width, img.height, p) then 0
    else if k % 4 == 3 then 255
    else EdgeValue(math, img, t, p / img.width, p % img.width)
  }

  /** The Sobel pass's image, before thinning. */
  function SobelImage(math: MathLib, img: ImageData, t: real): (r: ImageData)
    requires WellFormed(img)
    ensures WellFormed(r) && r.width == img.width && r.height == img.height
  {
    ImageData(img.width, img.height, seq(|img.data|, k requires 0 <= k < |img.data| => SobelByte(math, img, t, k)))
  }

  // ---------------------------------------------------------------------
  // Thinning as a function of its input

  /** getNeighborValues: the red values of the eight neighbours, row by row, the centre left out. */
  function NeighborValues(img: ImageData, y: int, x: int): seq<int> {
    [Red(img, y - 1, x - 1), Red(img, y - 1, x), Red(img, y - 1, x + 1),
     Red(img, y, x - 1), Red(img, y, x + 1),
     Red(img, y + 1, x - 1), Red(img, y + 1, x), Red(img, y + 1, x + 1)]
  }

  /** isLocalMaximum: the value is at least every neighbour; with no neighbours it holds. */
  predicate IsLocalMaximum(value: int, neighbors: seq<int>): (b: bool)
    ensures b <==> forall n | n in neighbors :: n <= value
    ensures |neighbors| == 0 ==> b
  {
    EveryIndex(value, neighbors);
    forall i :: 0 <= i < |neighbors| ==> value >= neighbors[i]
  }

  /** `every` over the list's members is the same as over its indices. */
  lemma EveryIndex(value: int, neighbors: seq<int>)
    ensures (forall i :: 0 <= i < |neighbors| ==> value >= neighbors[i]) <==> forall n | n in neighbors :: n <= value
  {
    if forall i :: 0 <= i < |neighbors| ==> value >= neighbors[i] {
      forall n | n in neighbors
        ensures n <= value
      {
        var i :| 0 <= i < |neighbors| && neighbors[i] == n;
      }
    } else {
      var i :| 0 <= i < |neighbors| && value < neighbors[i];
      assert neighbors[i] in neighbors;
    }
  }

  /** Byte k of thinEdges' image: all four channels 255 at an interior red-255 local maximum, zero elsewhere. */
  function ThinByte(img: ImageData, k: int): byte
    requires WellFormed(img) && 0 <= k < |img.data|
  {
    var p := k / 4;
    PixelOf(img.width, img.height, p);
    var y, x := p / img.width, p % img.width;
    if !Border(img.width, img.height, p) && Red(img, y, x) == 255 && IsLocalMaximum(Red(img, y, x), NeighborValues(img, y, x))
    then 255 else 0
  }

  /** thinEdges' image. */
  function Thinned(img: ImageData): (r: ImageData)
    requires WellFormed(img)
    ensures WellFormed(r) && r.width == img.width && r.height == img.height
  {
    ImageData(img.width, img.height, seq(|img.data|, k requires 0 <= k < |img.data| => ThinByte(img, k)))
  }

  /** detectEdges: the Sobel pass then thinning, or the wrapped constructor error for an empty image. */
  function Detected(math: MathLib, img: ImageData, t: real): Result<ImageData, Error>
    requires WellFormed(img)
  {
    if img.width == 0 || img.height == 0 then Failure(ProcessingError(FailureMessage, Some(EmptyDataError)))
    else Success(Thinned(SobelImage(math, img, t)))
  }

  // ---------------------------------------------------------------------
  // The loops

  /** detectEdges. */
  method DetectEdges(math: MathLib, img: ImageData, threshold: real) returns (r: Result<ImageData, Error>)
    requires WellFormed(img)
    ensures r == Detected(math, img, threshold)
  {
    if img.width == 0 || img.height == 0 {
      return Failure(ProcessingError(FailureMessage, Some(EmptyDataError)));
    }
    var sobel := SobelPass(math, img, threshold);
    var thin := ThinEdges(sobel);
    r := Success(thin);
  }

  /** The Sobel loops of detectEdges, over the interior pixels into a zeroed buffer. */
  method SobelPass(math: MathLib, img: ImageData, t: real) returns (r: ImageData)
    requires WellFormed(img) && img.width > 0
    ensures r == SobelImage(math, img, t)
  {
    var w: nat, h: int := img.width, img.height;
    var data := new byte[w * h * 4](_ => 0);
    ghost var expected := SobelImage(math, img, t).data;
    NothingFilled(expected);
    assert data[..] == Zeros(|expected|);
    SkipFirstBorderPixels(data[..], expected, w, h);
    var y := 1;
    while y < h - 1
      invariant 1 <= y && (h >= 2 ==> y <= h - 1) && (h < 2 ==> y == 1)
      invariant FilledBefore(data[..], expected, PixelIndex(w, y, 1))
    {
      var x := 1;
      while x < w - 1
        invariant 1 <= x && (w >= 2 ==> x <= w - 1) && (w < 2 ==> x == 1)
        invariant FilledBefore(data[..], expected, PixelIndex(w, y, x))
      {
        SobelPixel(math, img, t, data, y, x);
        x := x + 1;
      }
      SkipRowEndPixels(data[..], expected, w, h, y, x);
      y := y + 1;
    }
    SkipLastBorderPixels(data[..], expected, w, h, y);
    r := ImageData(w, h, data[..]);
  }

  /** The body of detectEdges' loops at interior pixel (x, y). */
  method SobelPixel(math: MathLib, img: ImageData, t: real, data: array<byte>, y: int, x: int)
    requires WellFormed(img) && Interior(img.width, img.height, y, x)
    requires FilledBefore(data[..], SobelImage(math, img, t).data, PixelIndex(img.width, y, x))
    modifies data
    ensures FilledBefore(data[..], SobelImage(math, img, t).data, PixelIndex(img.width, y, x) + 1)
  {
    var gx := ApplyKernel(img, y, x, SobelXKernel);
    var gy := ApplyKernel(img, y, x, SobelYKernel);
    assert gx * gx + gy * gy == GradientSq(img, y, x);
    var magnitude := math.sqrt((gx * gx + gy * gy) as real);
    var idx := (y * img.width + x) * 4;
    var edge: byte := if magnitude > t then 255 else 0;
    assert edge == EdgeValue(math, img, t, y, x);
    SobelStep(data[..], math, img, t, y, x);
    Streams.Store(data, idx, [edge, edge, edge, 255]);
  }

  /** thinEdges: every interior red-255 local maximum becomes a white opaque pixel of a zeroed buffer. */
  method ThinEdges(img: ImageData) returns (r: ImageData)
    requires WellFormed(img) && img.width > 0
    ensures r == Thinned(img)
  {
    var w: nat, h: int := img.width, img.height;
    var data := new byte[w * h * 4](_ => 0);
    ghost var expected := Thinned(img).data;
    NothingFilled(expected);
    assert data[..] == Zeros(|expected|);
    SkipFirstBorderPixels(data[..], expected, w, h);
    var y := 1;
    while y < h - 1
      invariant 1 <= y && (h >= 2 ==> y <= h - 1) && (h < 2 ==> y == 1)
      invariant FilledBefore(data[..], expected, PixelIndex(w, y, 1))
    {
      var x := 1;
      while x < w - 1
        invariant 1 <= x && (w >= 2 ==> x <= w - 1) && (w < 2 ==> x == 1)
        invariant FilledBefore(data[..], expected, PixelIndex(w, y, x))
      {
        ThinPixel(img, data, y, x);
        x := x + 1;
      }
      SkipRowEndPixels(data[..], expected, w, h, y, x);
      y := y + 1;
    }
    SkipLastBorderPixels(data[..], expected, w, h, y);
    r := ImageData(w, h, data[..]);
  }

  /** The body of thinEdges' loops at interior pixel (x, y). */
  method ThinPixel(img: ImageData, data: array<byte>, y: int, x: int)
    requires WellFormed(img) && Interior(img.width, img.height, y, x)
    requires FilledBefore(data[..], Thinned(img).data, PixelIndex(img.width, y, x))
    modifies data
    ensures FilledBefore(data[..], Thinned(img).data, PixelIndex(img.width, y, x) + 1)
  {
    var idx := (y * img.width + x) * 4;
    SampleInside(img, y, x, 0);
    ThinStep(data[..], img, y, x);
    if img.data[idx] == 255 {
      var neighbors := GetNeighborValues(img, y, x);
      if IsLocalMaximum(img.data[idx], neighbors) {
        Streams.Store(data, idx, [255, 255, 255, 255]);
      }
    }
  }

  /** getNeighborValues: the eight neighbours' red values, skipping the centre. */
  method GetNeighborValues(img: ImageData, y: int, x: int) returns (neighbors: seq<int>)
    requires WellFormed(img) && Interior(img.width, img.height, y, x)
    ensures neighbors == NeighborValues(img, y, x)
  {
    neighbors := [];
    var dy := -1;
    while dy <= 1
      invariant -1 <= dy <= 2
      invariant neighbors == NeighborValues(img, y, x)[..NeighboursBefore(dy + 1, 0)]
    {
      var dx := -1;
      while dx <= 1
        invariant -1 <= dx <= 2
        invariant neighbors == NeighborValues(img, y, x)[..NeighboursBefore(dy + 1, dx + 1)]
      {
        NeighbourStep(img, y, x, dy, dx);
        if !(dx == 0 && dy == 0) {
          var idx := ((y + dy) * img.width + (x + dx)) * 4;
          SampleInside(img, y + dy, x + dx, 0);
          neighbors := neighbors + [img.data[idx]];
        }
        dx := dx + 1;
      }
      dy := dy + 1;
    }
  }

  /** The neighbour at kernel position (dx, dy) is the next one getNeighborValues collects, unless it is the centre. */
  lemma NeighbourStep(img: ImageData, y: int, x: int, dy: int, dx: int)
    requires -1 <= dy <= 1 && -1 <= dx <= 1
    ensures var n := NeighboursBefore(dy + 1, dx + 1);
      var next := NeighboursBefore(dy + 1, dx + 2);
      (dx == 0 && dy == 0 ==> next == n) &&
      (!(dx == 0 && dy == 0) ==>
        next == n + 1 && n < 8 &&
        NeighborValues(img, y, x)[..next] == NeighborValues(img, y, x)[..n] + [Red(img, y + dy, x + dx)])
  {
    var n := NeighboursBefore(dy + 1, dx + 1);
    var all := NeighborValues(img, y, x);
    if !(dx == 0 && dy == 0) {
      assert all[n] == Red(img, y + dy, x + dx);
      assert all[..n + 1] == all[..n] + [all[n]];
    }
  }

  /** How many neighbours come before kernel position (col, row), counted from the top left, the centre skipped. */
  function NeighboursBefore(row: int, col: int): (n: int)
    requires 0 <= row <= 3 && 0 <= col <= 3
    ensures 0 <= n <= 8
  {
    if row == 3 then 8
    else if row * 3 + col <= 4 then row * 3 + col
    else row * 3 + col - 1
  }

  // ---------------------------------------------------------------------
  // Steps of the loops

  /** Writing the four bytes of interior pixel (x, y), the next the Sobel loops visit. */
  lemma SobelStep(buf: seq<byte>, math: MathLib, img: ImageData, t: real, y: int, x: int)
    requires WellFormed(img) && Interior(img.width, img.height, y, x)
    requires FilledBefore(buf, SobelImage(math, img, t).data, PixelIndex(img.width, y, x))
    ensures var p := PixelIndex(img.width, y, x);
      var e := EdgeValue(math, img, t, y, x);
      0 <= p && 4 * p + 4 <= |buf| &&
      FilledBefore(Put(buf, 4 * p, [e, e, e, 255]), SobelImage(math, img, t).data, p + 1)
  {
    var w, h := img.width, img.height;
    var p := PixelIndex(w, y, x);
    var expected := SobelImage(math, img, t).data;
    PixelIndexBound(w, h, y, x);
    PixelIndexInverse(w, y, x);
    ChannelOf(4 * p, 0);
    ChannelOf(4 * p, 1);
    ChannelOf(4 * p, 2);
    ChannelOf(4 * p, 3);
    var e := EdgeValue(math, img, t, y, x);
    assert expected[4 * p..4 * p + 4] == [e, e, e, 255];
    FillPixel(buf, expected, p);
  }

  /** Writing, or skipping, interior pixel (x, y), the next the thinning loops visit. */
  lemma ThinStep(buf: seq<byte>, img: ImageData, y: int, x: int)
    requires WellFormed(img) && Interior(img.width, img.height, y, x)
    requires FilledBefore(buf, Thinned(img).data, PixelIndex(img.width, y, x))
    ensures var p := PixelIndex(img.width, y, x);
      var keep := Red(img, y, x) == 255 && IsLocalMaximum(Red(img, y, x), NeighborValues(img, y, x));
      0 <= p && 4 * p + 4 <= |buf| &&
      (keep ==> FilledBefore(Put(buf, 4 * p, [255, 255, 255, 255]), Thinned(img).data, p + 1)) &&
      (!keep ==> FilledBefore(buf, Thinned(img).data, p + 1))
  {
    var p := PixelIndex(img.width, y, x);
    var expected := Thinned(img).data;
    ThinByteAt(img, y, x, 0);
    ThinByteAt(img, y, x, 1);
    ThinByteAt(img, y, x, 2);
    ThinByteAt(img, y, x, 3);
    var keep := Red(img, y, x) == 255 && IsLocalMaximum(Red(img, y, x), NeighborValues(img, y, x));
    if keep {
      FourBytes(expected, 4 * p, 255);
      FillPixel(buf, expected, p);
    } else {
      forall k | 0 <= k < |expected| && p <= k / 4 < p + 1
        ensures expected[k] == 0
      {
        ThinByteAt(img, y, x, k - 4 * p);
      }
      SkipBlank(buf, expected, p, p + 1);
    }
  }

  // ---------------------------------------------------------------------
  // Properties

  /** Every neighbour is a byte, so 255 is always a local maximum. */
  lemma FullIsLocalMaximum(img: ImageData, y: int, x: int)
    ensures IsLocalMaximum(255, NeighborValues(img, y, x))
  {
  }

  /**
   * Thinning removes nothing: a pixel of its output is white and opaque
   * exactly when it is interior and its input red value is 255, and is
   * zero in all four channels otherwise.
   */
  lemma ThinnedPixel(img: ImageData, y: int, x: int)
    requires WellFormed(img) && 0 <= y < img.height && 0 <= x < img.width
    ensures var p := PixelIndex(img.width, y, x);
      var v: byte := if Interior(img.width, img.height, y, x) && Red(img, y, x) == 255 then 255 else 0;
      0 <= p && 4 * p + 4 <= |img.data| && Thinned(img).data[4 * p..4 * p + 4] == [v, v, v, v]
  {
    var p := PixelIndex(img.width, y, x);
    var d := Thinned(img).data;
    ThinByteAt(img, y, x, 0);
    ThinByteAt(img, y, x, 1);
    ThinByteAt(img, y, x, 2);
    ThinByteAt(img, y, x, 3);
    FullIsLocalMaximum(img, y, x);
    var v: byte := if Interior(img.width, img.height, y, x) && Red(img, y, x) == 255 then 255 else 0;
    assert Kept(img, y, x) == v;
    FourBytes(d, 4 * p, v);
  }

  /** The value thinning writes into every channel of pixel (x, y). */
  function Kept(img: ImageData, y: int, x: int): byte
    requires WellFormed(img)
  {
    if Interior(img.width, img.height, y, x) && Red(img, y, x) == 255 && IsLocalMaximum(Red(img, y, x), NeighborValues(img, y, x))
    then 255 else 0
  }

  /** Channel c of pixel (x, y) in the thinned image: 255 for a kept pixel, 0 otherwise. */
  lemma ThinByteAt(img: ImageData, y: int, x: int, c: int)
    requires WellFormed(img) && 0 <= y < img.height && 0 <= x < img.width && 0 <= c < 4
    ensures var p := PixelIndex(img.width, y, x);
      0 <= p && 4 * p + 4 <= |img.data| && Thinned(img).data[4 * p + c] == Kept(img, y, x)
  {
    var w, h := img.width, img.height;
    var p := PixelIndex(w, y, x);
    PixelIndexBound(w, h, y, x);
    PixelIndexInverse(w, y, x);
    ChannelOf(4 * p, c);
    assert Thinned(img).data[4 * p + c] == ThinByte(img, 4 * p + c);
  }

  /** The Sobel pass's red value at an interior pixel. */
  lemma SobelRed(math: MathLib, img: ImageData, t: real, y: int, x: int)
    requires WellFormed(img) && Interior(img.width, img.height, y, x)
    ensures Red(SobelImage(math, img, t), y, x) == EdgeValue(math, img, t, y, x)
  {
    var w, h := img.width, img.height;
    var p := PixelIndex(w, y, x);
    PixelIndexBound(w, h, y, x);
    PixelIndexInverse(w, y, x);
    ChannelOf(4 * p, 0);
  }

  /**
   * detectEdges fails exactly on an empty image, with the wrapped
   * constructor error. Otherwise the output has the input's size, its
   * border is zero in all channels, every pixel is either (255, 255, 255,
   * 255) or (0, 0, 0, 0), and an interior pixel is white exactly when gx² +
   * gy² over the red channel exceeds the threshold's square (always, for a
   * negative threshold).
   */
  lemma DetectedEdges(math: MathLib, img: ImageData, t: real, y: int, x: int)
    requires IsSqrt(math.sqrt) && WellFormed(img) && 0 <= y < img.height && 0 <= x < img.width
    ensures Detected(math, img, t).Success?
    ensures var out := Detected(math, img, t).value;
      var p := PixelIndex(img.width, y, x);
      var white := Interior(img.width, img.height, y, x) &&
        (t < 0.0 || GradientSq(img, y, x) as real > t * t);
      out.width == img.width && out.height == img.height && WellFormed(out) &&
      0 <= p && 4 * p + 4 <= |out.data| &&
      out.data[4 * p..4 * p + 4] == if white then [255, 255, 255, 255] else [0, 0, 0, 0]
  {
    var sobel := SobelImage(math, img, t);
    ThinnedPixel(sobel, y, x);
    if Interior(img.width, img.height, y, x) {
      SobelRed(math, img, t, y, x);
      var gx, gy := SobelX(img, y, x), SobelY(img, y, x);
      assert GradientSq(img, y, x) >= 0 by {
        assert gx * gx >= 0 && gy * gy >= 0;
      }
      SqrtAbove(math.sqrt, GradientSq(img, y, x) as real, t);
    }
  }

  /** detectEdges of an empty image fails with its ProcessingError. */
  lemma EmptyImageFails(math: MathLib, img: ImageData, t: real)
    requires WellFormed(img) && (img.width == 0 || img.height == 0)
    ensures Detected(math, img, t) == Failure(ProcessingError("Failed to detect edges", Some(PlainError("InvalidStateError"))))
  {
  }
}
