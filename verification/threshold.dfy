/**
 * The adaptive threshold of src/lib/embroidery/conversion/algorithms/threshold.ts.
 * A first pass builds the integral image of the red channel; a second pass
 * compares every pixel's red value with the mean of a window around it,
 * taken from the integral image by inclusion–exclusion, less a constant C.
 * The output is black (0) where the pixel is darker than that and white
 * (255) elsewhere, and always opaque.
 */
module Threshold {
  import opened Wrappers
  import opened Numeric
  import opened Types
  import opened Raster
  import Streams

  // ---------------------------------------------------------------------
  // Sums of the red channel

  /** The red values of row j at the columns xlo < i <= xhi. */
  function RowRange(img: ImageData, j: int, xlo: int, xhi: int): int
    decreases xhi - xlo
  {
    if xhi <= xlo then 0 else RowRange(img, j, xlo, xhi - 1) + Sample(img, j, xhi, 0)
  }

  /** The red values of the cells ylo < j <= yhi, xlo < i <= xhi. */
  function RedSum(img: ImageData, ylo: int, yhi: int, xlo: int, xhi: int): int
    decreases yhi - ylo
  {
    if yhi <= ylo then 0 else RedSum(img, ylo, yhi - 1, xlo, xhi) + RowRange(img, yhi, xlo, xhi)
  }

  /** `integral[y * width + x]` as the first pass defines it: the row's running sum plus the entry above. */
  function Integral(img: ImageData, y: nat, x: int): int {
    RowRange(img, y, -1, x) + (if y > 0 then Integral(img, y - 1, x) else 0)
  }

  /** The corners x1, x2, y1, y2 of a pixel's window. */
  datatype Window = Window(x1: int, x2: int, y1: int, y2: int)

  /** The window of pixel (x, y): halfWindow either side, clamped into the image. */
  function WindowOf(img: ImageData, halfWindow: nat, y: int, x: int): Window {
    Window(MaxInt(0, x - halfWindow), MinInt(img.width - 1, x + halfWindow),
           MaxInt(0, y - halfWindow), MinInt(img.height - 1, y + halfWindow))
  }

  /** `count`: the window's area. */
  function Count(win: Window): int {
    (win.x2 - win.x1) * (win.y2 - win.y1)
  }

  /** `sum`: the window's corners read from the integral image. */
  function WindowSum(img: ImageData, win: Window): int
    requires win.y1 >= 0 && win.y2 >= 0
  {
    Integral(img, win.y2, win.x2) - Integral(img, win.y2, win.x1) -
    Integral(img, win.y1, win.x2) + Integral(img, win.y1, win.x1)
  }

  /**
   * `imageData.data[idx] < mean - C ? 0 : 255` with `mean = sum / count`. A
   * count of zero makes the mean 0 / 0, NaN (see EmptyWindow), and a
   * comparison with NaN is false.
   */
  function Decide(red: int, sum: int, count: int, c: real): byte {
    if count == 0 then 255
    else if (red as real) < (sum as real) / (count as real) - c then 0
    else 255
  }

  /** The value of pixel (x, y). */
  function PixelValue(img: ImageData, halfWindow: nat, c: real, y: nat, x: nat): byte
    requires x < img.width && y < img.height
  {
    var win := WindowOf(img, halfWindow, y, x);
    Decide(Sample(img, y, x, 0), WindowSum(img, win), Count(win), c)
  }

  /** A pixel index inside a w × h image has its row and column inside the image. */
  lemma RowOfFlat(w: nat, h: nat, p: nat)
    requires p < w * h
    ensures w > 0 && p / w < h && p % w < w
  {
    if p / w >= h {
      MulLe(w, h, p / w);
    }
  }

  /** The value of the pixel with index p, at row p / width and column p % width. */
  function PixelAt(img: ImageData, halfWindow: nat, c: real, p: nat): byte
    requires p < img.width * img.height
  {
    RowOfFlat(img.width, img.height, p);
    PixelValue(img, halfWindow, c, p / img.width, p % img.width)
  }

  /** Byte k of the result: the pixel's value in R, G and B, and an alpha of 255. */
  function ThresholdByte(img: ImageData, halfWindow: nat, c: real, k: nat): byte
    requires WellFormed(img) && k < |img.data|
  {
    if k % 4 == 3 then 255 else PixelAt(img, halfWindow, c, k / 4)
  }

  function ThresholdData(img: ImageData, halfWindow: nat, c: real): (r: seq<byte>)
    requires WellFormed(img)
    ensures |r| == |img.data|
  {
    seq(|img.data|, k requires 0 <= k < |img.data| => ThresholdByte(img, halfWindow, c, k))
  }

  /** adaptiveThreshold's result; `new ImageData(width, height)` throws for an empty image. */
  function Thresholded(img: ImageData, windowSize: nat, c: real): Result<ImageData, Error>
    requires WellFormed(img)
  {
    if img.width == 0 || img.height == 0 then Failure(ZeroSizeError)
    else Success(ImageData(img.width, img.height, ThresholdData(img, windowSize / 2, c)))
  }

  // ---------------------------------------------------------------------
  // The two passes

  /**
   * The first pass: entry y·w + x of the integral image holds the red values
   * summed over the rows 0..y and the columns 0..x.
   */
  method IntegralImage(img: ImageData) returns (integral: array<int>)
    requires WellFormed(img) && img.width > 0
    ensures fresh(integral) && integral.Length == img.width * img.height
    ensures forall p :: 0 <= p < integral.Length ==> integral[p] == IntegralAt(img, p)
  {
    integral := new int[img.width * img.height](_ => 0);
    var y := 0;
    assert y * img.width == 0;
    while y < img.height
      invariant 0 <= y <= img.height
      invariant IntegralBefore(integral[..], img, y * img.width)
    {
      IntegralRow(img, integral, y);
      y := y + 1;
    }
    assert y * img.width == integral.Length;
    assert forall p :: 0 <= p < integral.Length ==> integral[..][p] == IntegralAt(img, p);
  }

  /** The inner loop of the first pass: row y of the integral image, left to right. */
  method IntegralRow(img: ImageData, integral: array<int>, y: nat)
    requires WellFormed(img) && y < img.height && integral.Length == img.width * img.height
    requires IntegralBefore(integral[..], img, y * img.width)
    modifies integral
    ensures IntegralBefore(integral[..], img, (y + 1) * img.width)
  {
    var width := img.width;
    var base := y * width;
    var sum := 0;
    var x: int := 0;
    MulLe(width, y + 1, img.height);
    assert base + width == (y + 1) * width <= width * img.height;
    while x < width
      invariant 0 <= x <= width
      invariant sum == RowRange(img, y, -1, x - 1)
      invariant IntegralBefore(integral[..], img, base + x)
    {
      sum := IntegralCell(img, integral, y, x, base + x, sum);
      x := x + 1;
    }
  }

  /** One cell of the first pass: the running row sum gains the pixel, and the entry is written. */
  method IntegralCell(img: ImageData, integral: array<int>, y: nat, x: nat, p: nat, sum: int) returns (next: int)
    requires WellFormed(img) && y < img.height && x < img.width && p == y * img.width + x
    requires p < integral.Length && sum == RowRange(img, y, -1, x - 1)
    requires IntegralBefore(integral[..], img, p)
    modifies integral
    ensures next == RowRange(img, y, -1, x)
    ensures IntegralBefore(integral[..], img, p + 1)
  {
    IntegralStep(img, y, x, p);
    next := sum + img.data[p * 4];
    var above := 0;
    if y > 0 {
      above := integral[p - img.width];
    }
    IntegralWrite(integral[..], img, p, next + above);
    integral[p] := next + above;
  }

  /** The first n entries of `a` hold the integral image. */
  ghost predicate IntegralBefore(a: seq<int>, img: ImageData, n: int) {
    img.width > 0 && 0 <= n <= |a| && forall p :: 0 <= p < n ==> a[p] == IntegralAt(img, p)
  }

  /** Writing entry n of the integral image. */
  lemma IntegralWrite(a: seq<int>, img: ImageData, n: nat, v: int)
    requires IntegralBefore(a, img, n) && n < |a| && v == IntegralAt(img, n)
    ensures IntegralBefore(a[n := v], img, n + 1)
  {
  }

  /** Entry p of the integral image, at row p / width and column p % width. */
  ghost function IntegralAt(img: ImageData, p: nat): int
    requires img.width > 0
  {
    Integral(img, p / img.width, p % img.width)
  }

  /**
   * One step of the first pass at (x, y): the running sum gains the pixel's
   * red value, and the entry above is already in place.
   */
  lemma IntegralStep(img: ImageData, y: nat, x: nat, p: nat)
    requires WellFormed(img) && y < img.height && x < img.width && p == y * img.width + x
    ensures 0 <= p * 4 < |img.data|
    ensures RowRange(img, y, -1, x) == RowRange(img, y, -1, x - 1) + img.data[p * 4]
    ensures IntegralAt(img, p) == RowRange(img, y, -1, x) + (if y > 0 then IntegralAt(img, p - img.width) else 0)
    ensures y > 0 ==> 0 <= p - img.width < p
  {
    SampleInside(img, y, x, 0);
    PixelIndexInverse(img.width, y, x);
    if y > 0 {
      PixelIndexInverse(img.width, y - 1, x);
      assert (y - 1) * img.width + x == p - img.width;
    }
  }

  /** adaptiveThreshold. */
  method AdaptiveThreshold(img: ImageData, windowSize: nat, c: real) returns (r: Result<ImageData, Error>)
    requires WellFormed(img)
    ensures r == Thresholded(img, windowSize, c)
  {
    var width := img.width;
    var height := img.height;
    if width == 0 || height == 0 {
      return Failure(ZeroSizeError);
    }
    var result := new byte[|img.data|](_ => 0);
    var halfWindow := windowSize / 2;
    var integral := IntegralImage(img);
    ghost var expected := ThresholdData(img, halfWindow, c);
    NothingFilled(expected);
    assert result[..] == Zeros(|expected|);
    var y := 0;
    while y < height
      invariant 0 <= y <= height
      invariant FilledBefore(result[..], expected, y * width)
      modifies result
    {
      ThresholdRow(img, integral, halfWindow, c, y, result);
      y := y + 1;
    }
    AllFilled(result[..], expected, y * width);
    r := Success(ImageData(width, height, result[..]));
  }

  /** The inner loop of the second pass: row y of the result, left to right. */
  method ThresholdRow(img: ImageData, integral: array<int>, halfWindow: nat, c: real, y: nat, result: array<byte>)
    requires WellFormed(img) && y < img.height
    requires integral.Length == img.width * img.height
    requires forall p :: 0 <= p < integral.Length ==> integral[p] == IntegralAt(img, p)
    requires FilledBefore(result[..], ThresholdData(img, halfWindow, c), y * img.width)
    modifies result
    ensures FilledBefore(result[..], ThresholdData(img, halfWindow, c), (y + 1) * img.width)
  {
    ghost var expected := ThresholdData(img, halfWindow, c);
    var width := img.width;
    var x := 0;
    while x < width
      invariant 0 <= x <= width
      invariant FilledBefore(result[..], expected, y * width + x)
    {
      var value := ThresholdPixel(img, integral, halfWindow, c, y, x);
      PixelValueBytes(img, halfWindow, c, y, x);
      var p := y * width + x;
      FillPixel(result[..], expected, p);
      Streams.Store(result, 4 * p, [value, value, value, 255]);
      x := x + 1;
    }
    assert y * width + width == (y + 1) * width;
  }

  /** The loop body of the second pass: the value of pixel (x, y), read off the integral image. */
  method ThresholdPixel(img: ImageData, integral: array<int>, halfWindow: nat, c: real, y: nat, x: nat) returns (value: byte)
    requires WellFormed(img) && y < img.height && x < img.width
    requires integral.Length == img.width * img.height
    requires forall p :: 0 <= p < integral.Length ==> integral[p] == IntegralAt(img, p)
    ensures value == PixelValue(img, halfWindow, c, y, x)
  {
    var width := img.width;
    var height := img.height;
    var x1 := MaxInt(0, x - halfWindow);
    var x2 := MinInt(width - 1, x + halfWindow);
    var y1 := MaxInt(0, y - halfWindow);
    var y2 := MinInt(height - 1, y + halfWindow);
    var count := (x2 - x1) * (y2 - y1);
    Corner(img, y2, x2);
    Corner(img, y2, x1);
    Corner(img, y1, x2);
    Corner(img, y1, x1);
    var sum := integral[y2 * width + x2] - integral[y2 * width + x1] -
               integral[y1 * width + x2] + integral[y1 * width + x1];
    assert sum == WindowSum(img, Window(x1, x2, y1, y2));
    SampleInside(img, y, x, 0);
    var red := img.data[(y * width + x) * 4];
    ghost var win := WindowOf(img, halfWindow, y, x);
    assert win == Window(x1, x2, y1, y2);
    value := Decide(red, sum, count, c);
  }

  /** The integral image's entry for (x, y), by its flat index. */
  lemma Corner(img: ImageData, y: nat, x: nat)
    requires y < img.height && x < img.width
    ensures 0 <= y * img.width + x < img.width * img.height
    ensures IntegralAt(img, y * img.width + x) == Integral(img, y, x)
  {
    PixelIndexBound(img.width, img.height, y, x);
    PixelIndexInverse(img.width, y, x);
  }

  /** The four bytes of pixel (x, y) in the result. */
  lemma PixelValueBytes(img: ImageData, halfWindow: nat, c: real, y: nat, x: nat)
    requires WellFormed(img) && y < img.height && x < img.width
    ensures var v := PixelValue(img, halfWindow, c, y, x);
      var p := PixelIndex(img.width, y, x);
      0 <= p && 4 * p + 4 <= |img.data| && ThresholdData(img, halfWindow, c)[4 * p..4 * p + 4] == [v, v, v, 255]
  {
    var p := PixelIndex(img.width, y, x);
    PixelIndexBound(img.width, img.height, y, x);
    PixelIndexInverse(img.width, y, x);
    PixelBytes(img, halfWindow, c, p);
  }

  /** The four bytes of the pixel with index p in the result. */
  lemma PixelBytes(img: ImageData, halfWindow: nat, c: real, p: nat)
    requires WellFormed(img) && 4 * p + 4 <= |img.data|
    ensures p < img.width * img.height
    ensures var v := PixelAt(img, halfWindow, c, p);
      ThresholdData(img, halfWindow, c)[4 * p..4 * p + 4] == [v, v, v, 255]
  {
    var d := ThresholdData(img, halfWindow, c);
    var v := PixelAt(img, halfWindow, c, p);
    DivModUnique(4 * p, 4, p, 0);
    DivModUnique(4 * p + 1, 4, p, 1);
    DivModUnique(4 * p + 2, 4, p, 2);
    DivModUnique(4 * p + 3, 4, p, 3);
    assert d[4 * p] == v;
    assert d[4 * p + 1] == v;
    assert d[4 * p + 2] == v;
    assert d[4 * p + 3] == 255;
  }

  // ---------------------------------------------------------------------
  // Properties

  /** Splitting a row range at b. */
  lemma {:induction false} RowSplit(img: ImageData, j: int, a: int, b: int, c: int)
    requires a <= b <= c
    ensures RowRange(img, j, a, c) == RowRange(img, j, a, b) + RowRange(img, j, b, c)
    decreases c - b
  {
    if b < c {
      RowSplit(img, j, a, b, c - 1);
    }
  }

  /** Splitting a block of cells at column b. */
  lemma {:induction false} ColumnsSplit(img: ImageData, ylo: int, yhi: int, a: int, b: int, c: int)
    requires a <= b <= c
    ensures RedSum(img, ylo, yhi, a, c) == RedSum(img, ylo, yhi, a, b) + RedSum(img, ylo, yhi, b, c)
    decreases yhi - ylo
  {
    if ylo < yhi {
      ColumnsSplit(img, ylo, yhi - 1, a, b, c);
      RowSplit(img, yhi, a, b, c);
    }
  }

  /** Splitting a block of cells at row b. */
  lemma {:induction false} RowsSplit(img: ImageData, a: int, b: int, c: int, xlo: int, xhi: int)
    requires a <= b <= c
    ensures RedSum(img, a, c, xlo, xhi) == RedSum(img, a, b, xlo, xhi) + RedSum(img, b, c, xlo, xhi)
    decreases c - b
  {
    if b < c {
      RowsSplit(img, a, b, c - 1, xlo, xhi);
    }
  }

  /** Entry (x, y) of the integral image is the sum of the red values at rows 0..y and columns 0..x. */
  lemma {:induction false} IntegralIsPrefixSum(img: ImageData, y: nat, x: int)
    ensures Integral(img, y, x) == RedSum(img, -1, y, -1, x)
  {
    if y > 0 {
      IntegralIsPrefixSum(img, y - 1, x);
    }
  }

  /**
   * Inclusion–exclusion: the four corners of a window give the red values
   * summed over the cells x1 < i <= x2, y1 < j <= y2, which leaves out the
   * window's first row and first column.
   */
  lemma WindowSumIsRedSum(img: ImageData, win: Window)
    requires 0 <= win.y1 <= win.y2 && -1 <= win.x1 <= win.x2
    ensures WindowSum(img, win) == RedSum(img, win.y1, win.y2, win.x1, win.x2)
  {
    IntegralIsPrefixSum(img, win.y2, win.x2);
    IntegralIsPrefixSum(img, win.y2, win.x1);
    IntegralIsPrefixSum(img, win.y1, win.x2);
    IntegralIsPrefixSum(img, win.y1, win.x1);
    ColumnsSplit(img, -1, win.y2, -1, win.x1, win.x2);
    ColumnsSplit(img, -1, win.y1, -1, win.x1, win.x2);
    RowsSplit(img, -1, win.y1, win.y2, win.x1, win.x2);
  }

  /** A product of two naturals is zero exactly when one of them is. */
  lemma ProductSign(a: int, b: int)
    requires a >= 0 && b >= 0
    ensures a * b >= 0 && (a * b == 0 <==> a == 0 || b == 0)
  {
    if a > 0 && b > 0 {
      MulLe(b, 1, a);
    }
  }

  /**
   * The window of a pixel is the square of side 2·halfWindow + 1 centred on
   * it, cut down to the image: each corner is halfWindow from the pixel or
   * on the image's edge, whichever is nearer, and the count is never negative.
   */
  lemma WindowClamped(img: ImageData, halfWindow: nat, y: nat, x: nat)
    requires x < img.width && y < img.height
    ensures var win := WindowOf(img, halfWindow, y, x);
      0 <= win.x1 <= x <= win.x2 < img.width && 0 <= win.y1 <= y <= win.y2 < img.height &&
      x - halfWindow <= win.x1 && (win.x1 == 0 || win.x1 == x - halfWindow) &&
      win.x2 <= x + halfWindow && (win.x2 == img.width - 1 || win.x2 == x + halfWindow) &&
      y - halfWindow <= win.y1 && (win.y1 == 0 || win.y1 == y - halfWindow) &&
      win.y2 <= y + halfWindow && (win.y2 == img.height - 1 || win.y2 == y + halfWindow) &&
      Count(win) >= 0
  {
    var win := WindowOf(img, halfWindow, y, x);
    ProductSign(win.x2 - win.x1, win.y2 - win.y1);
  }

  /**
   * The count is zero exactly when the window is a single row or column:
   * for a half-window of zero, or an image one pixel wide or high. The
   * corners then cancel, so the mean is 0 / 0.
   */
  lemma EmptyWindow(img: ImageData, halfWindow: nat, y: nat, x: nat)
    requires x < img.width && y < img.height
    ensures var win := WindowOf(img, halfWindow, y, x);
      (Count(win) == 0 <==> halfWindow == 0 || img.width == 1 || img.height == 1) &&
      (Count(win) == 0 ==> WindowSum(img, win) == 0)
  {
    var win := WindowOf(img, halfWindow, y, x);
    WindowClamped(img, halfWindow, y, x);
    ProductSign(win.x2 - win.x1, win.y2 - win.y1);
  }

  /**
   * The rule of the second pass: every pixel is 0 or 255, and it is 0
   * exactly when the window has cells and the pixel's red value is below
   * their mean less C.
   */
  lemma ThresholdRule(img: ImageData, halfWindow: nat, c: real, y: nat, x: nat)
    requires x < img.width && y < img.height
    ensures var win := WindowOf(img, halfWindow, y, x);
      var v := PixelValue(img, halfWindow, c, y, x);
      (v == 0 || v == 255) &&
      (v == 0 <==>
        Count(win) > 0 &&
        (Sample(img, y, x, 0) as real) < (RedSum(img, win.y1, win.y2, win.x1, win.x2) as real) / (Count(win) as real) - c)
  {
    WindowClamped(img, halfWindow, y, x);
    WindowSumIsRedSum(img, WindowOf(img, halfWindow, y, x));
  }

  /** A row range of cells that all hold red value v sums to v per cell. */
  lemma {:induction false} UniformRow(img: ImageData, v: int, j: int, a: int, b: int)
    requires a <= b
    requires forall i :: a < i <= b ==> Sample(img, j, i, 0) == v
    ensures RowRange(img, j, a, b) == v * (b - a)
    decreases b - a
  {
    if a < b {
      UniformRow(img, v, j, a, b - 1);
    }
  }

  /** A block of rows whose ranges all sum to rowSum sums to rowSum per row. */
  lemma {:induction false} UniformRows(img: ImageData, rowSum: int, ylo: int, yhi: int, xlo: int, xhi: int)
    requires ylo <= yhi
    requires forall j :: ylo < j <= yhi ==> RowRange(img, j, xlo, xhi) == rowSum
    ensures RedSum(img, ylo, yhi, xlo, xhi) == rowSum * (yhi - ylo)
    decreases yhi - ylo
  {
    if ylo < yhi {
      UniformRows(img, rowSum, ylo, yhi - 1, xlo, xhi);
    }
  }

  /**
   * On an image whose red channel is one flat value the mean equals every
   * pixel, so a pixel turns black only when C is negative and its window
   * has cells: with a C of zero or more a flat image comes out all white.
   */
  lemma FlatImage(img: ImageData, v: int, halfWindow: nat, c: real, y: nat, x: nat)
    requires x < img.width && y < img.height
    requires forall j, i :: 0 <= j < img.height && 0 <= i < img.width ==> Sample(img, j, i, 0) == v
    ensures var win := WindowOf(img, halfWindow, y, x);
      PixelValue(img, halfWindow, c, y, x) == if Count(win) > 0 && c < 0.0 then 0 else 255
  {
    var win := WindowOf(img, halfWindow, y, x);
    WindowClamped(img, halfWindow, y, x);
    FlatWindow(img, v, win);
    DecideFlat(v, Count(win), c);
  }

  /** A window inside a flat image sums to v per cell. */
  lemma FlatWindow(img: ImageData, v: int, win: Window)
    requires 0 <= win.x1 <= win.x2 < img.width && 0 <= win.y1 <= win.y2 < img.height
    requires forall j, i :: 0 <= j < img.height && 0 <= i < img.width ==> Sample(img, j, i, 0) == v
    ensures WindowSum(img, win) == v * Count(win)
  {
    WindowSumIsRedSum(img, win);
    var cols := win.x2 - win.x1;
    var rows := win.y2 - win.y1;
    forall j | win.y1 < j <= win.y2
      ensures RowRange(img, j, win.x1, win.x2) == v * cols
    {
      UniformRow(img, v, j, win.x1, win.x2);
    }
    UniformRows(img, v * cols, win.y1, win.y2, win.x1, win.x2);
    MulAssoc(v, cols, rows);
  }

  /** With a sum of n copies of v, the mean is v, and v < v - C holds only for a negative C. */
  lemma DecideFlat(v: int, n: int, c: real)
    requires n >= 0
    ensures Decide(v, v * n, n, c) == if n > 0 && c < 0.0 then 0 else 255
  {
    if n > 0 {
      assert ((v * n) as real) / (n as real) == v as real;
    }
  }

  /**
   * adaptiveThreshold fails exactly on an empty image; otherwise the result
   * has the input's size and every pixel is opaque black or white, with the
   * value of the threshold rule in R, G and B.
   */
  lemma ThresholdedImage(img: ImageData, windowSize: nat, c: real)
    requires WellFormed(img)
    ensures Thresholded(img, windowSize, c).Failure? <==> img.width == 0 || img.height == 0
    ensures Thresholded(img, windowSize, c).Failure? ==> Thresholded(img, windowSize, c).error == ZeroSizeError
    ensures Thresholded(img, windowSize, c).Success? ==>
      var out := Thresholded(img, windowSize, c).value;
      out.width == img.width && out.height == img.height && WellFormed(out) &&
      forall y, x :: 0 <= y < img.height && 0 <= x < img.width ==>
        var v := PixelValue(img, windowSize / 2, c, y, x);
        var p := PixelIndex(img.width, y, x);
        0 <= p && 4 * p + 4 <= |out.data| && out.data[4 * p..4 * p + 4] == [v, v, v, 255] && (v == 0 || v == 255)
  {
    if img.width > 0 && img.height > 0 {
      forall y, x | 0 <= y < img.height && 0 <= x < img.width
        ensures var v := PixelValue(img, windowSize / 2, c, y, x);
          var p := PixelIndex(img.width, y, x);
          0 <= p && 4 * p + 4 <= |img.data| &&
          ThresholdData(img, windowSize / 2, c)[4 * p..4 * p + 4] == [v, v, v, 255] && (v == 0 || v == 255)
      {
        PixelValueBytes(img, windowSize / 2, c, y, x);
      }
    }
  }
}
