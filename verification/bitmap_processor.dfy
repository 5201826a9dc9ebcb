/**
 * The bitmap processor of src/lib/embroidery/processors/BitmapProcessor.ts:
 * the image is turned to grayscale and then smoothed by a 3 × 3 Gaussian
 * kernel. The blur only writes the pixels off the one-pixel border, so the
 * border of its result stays zero, transparent black.
 */
module BitmapProcessor {
  import opened Wrappers
  import opened Numeric
  import opened Types
  import opened Raster
  import Streams

  const FailureMessage := "Failed to process image bitmap"

  /** The Gaussian kernel, top row first. */
  const Kernel: seq<seq<int>> := [[1, 2, 1], [2, 4, 2], [1, 2, 1]]

  /** The sum of the kernel's weights, by which each weighted sum is divided. */
  const KernelSum := 16

  /** The weight of the neighbour at offset (kx, ky): 4 at the centre, 2 beside it, 1 at the corners. */
  function Weight(ky: int, kx: int): (r: int)
    requires -1 <= ky <= 1 && -1 <= kx <= 1
    ensures r == Kernel[ky + 1][kx + 1]
  {
    if ky == 0 && kx == 0 then 4 else if ky == 0 || kx == 0 then 2 else 1
  }

  // ---------------------------------------------------------------------
  // The blur as a function of the input

  /** The weighted channel-c samples of the first n neighbours (kx = -1, 0, 1) in kernel row ky around (x, y). */
  function RowTaps(img: ImageData, y: int, x: int, c: int, ky: int, n: nat): int
    requires -1 <= ky <= 1 && n <= 3
  {
    if n == 0 then 0
    else RowTaps(img, y, x, c, ky, n - 1) + Sample(img, y + ky, x + n - 2, c) * Weight(ky, n - 2)
  }

  /** The weighted channel-c samples of the first m kernel rows (ky = -1, 0, 1) around (x, y). */
  function Taps(img: ImageData, y: int, x: int, c: int, m: nat): int
    requires m <= 3
  {
    if m == 0 then 0 else Taps(img, y, x, c, m - 1) + RowTaps(img, y, x, c, m - 2, 3)
  }

  /** The kernel-weighted sum of channel c over the 3 × 3 neighbourhood of (x, y). */
  function WeightedSum(img: ImageData, y: int, x: int, c: int): int {
    Taps(img, y, x, c, 3)
  }

  /** `Math.round(sum / kernelSum)` for a weighted sum of bytes. */
  function Averaged(sum: int): (v: byte)
    requires 0 <= sum <= KernelSum * 255
    ensures sum as real / 16.0 - 0.5 < v as real <= sum as real / 16.0 + 0.5
  {
    RoundMonotone(0.0, sum as real / 16.0);
    RoundMonotone(sum as real / 16.0, 255.0);
    RoundOfInt(0);
    RoundOfInt(255);
    RoundBounds(sum as real / 16.0);
    Round(sum as real / 16.0)
  }

  /** Channel c of the blurred pixel (x, y). */
  function BlurValue(img: ImageData, y: int, x: int, c: int): byte {
    SumRange(img, y, x, c);
    Averaged(WeightedSum(img, y, x, c))
  }

  /** Byte k of the blurred image: zero on the border, the blurred channel elsewhere. */
  function BlurByte(img: ImageData, k: nat): byte
    requires img.width > 0
  {
    var p := k / 4;
    if Border(img.width, img.height, p) then 0 else BlurValue(img, p / img.width, p % img.width, k % 4)
  }

  /** The data of the blurred image. */
  function BlurData(img: ImageData): (r: seq<byte>)
    requires img.width > 0
    ensures |r| == |img.data|
  {
    seq(|img.data|, k requires 0 <= k < |img.data| => BlurByte(img, k))
  }

  /** applyGaussianBlur: the result's constructor throws for an empty image. */
  function Blurred(img: ImageData): Result<ImageData, Error>
    requires WellFormed(img)
  {
    if img.width == 0 || img.height == 0 then Failure(EmptyDataError)
    else Success(ImageData(img.width, img.height, BlurData(img)))
  }

  /** createBitmap: the blurred grayscale copy, every error wrapped with the processor's message. */
  function CreatedBitmap(img: ImageData): Result<ImageData, Error>
    requires WellFormed(img)
  {
    if img.width == 0 || img.height == 0 then Failure(ProcessingError(FailureMessage, Some(EmptyDataError)))
    else
      match Blurred(Grayscale(img))
      case Failure(e) => Failure(ProcessingError(FailureMessage, Some(e)))
      case Success(b) => Success(b)
  }

  // ---------------------------------------------------------------------
  // The loops

  /** createBitmap. */
  method CreateBitmap(img: ImageData) returns (r: Result<ImageData, Error>)
    requires WellFormed(img)
    ensures r == CreatedBitmap(img)
  {
    if img.width == 0 || img.height == 0 {
      return Failure(ProcessingError(FailureMessage, Some(EmptyDataError)));
    }
    var data := GrayscaleImage(img);
    var grayscale := ImageData(img.width, img.height, data[..]);
    r := ApplyGaussianBlur(grayscale);
    assert r.Success?;
  }

  /** applyGaussianBlur: every pixel off the border, row by row, into a zeroed buffer. */
  method ApplyGaussianBlur(img: ImageData) returns (r: Result<ImageData, Error>)
    requires WellFormed(img)
    ensures r == Blurred(img)
  {
    if img.width == 0 || img.height == 0 {
      return Failure(EmptyDataError);
    }
    var w, h := img.width, img.height;
    var result := new byte[|img.data|](_ => 0);
    ghost var expected := BlurData(img);
    NothingFilled(expected);
    assert result[..] == Zeros(|expected|);
    FirstRowIsBorder(w, h);
    SkipBorder(result[..], img, 0, w + 1);
    var y := 1;
    while y < h - 1
      invariant 1 <= y && (h >= 2 ==> y <= h - 1) && (h < 2 ==> y == 1)
      invariant FilledBefore(result[..], expected, y * w + 1)
    {
      BlurRow(img, result, y);
      y := y + 1;
    }
    LastRowIsBorder(w, h, y);
    if y * w + 1 < w * h {
      SkipBorder(result[..], img, y * w + 1, w * h);
      AllFilled(result[..], expected, w * h);
    } else {
      AllFilled(result[..], expected, y * w + 1);
    }
    r := Success(ImageData(w, h, result[..]));
  }

  /** One row of the blur: pixels 1 to w - 2 of row y. */
  method BlurRow(img: ImageData, result: array<byte>, y: int)
    requires WellFormed(img) && img.width > 0 && 1 <= y < img.height - 1
    requires FilledBefore(result[..], BlurData(img), y * img.width + 1)
    modifies result
    ensures FilledBefore(result[..], BlurData(img), (y + 1) * img.width + 1)
  {
    var w := img.width;
    ghost var expected := BlurData(img);
    var x := 1;
    while x < w - 1
      invariant 1 <= x && (w >= 2 ==> x <= w - 1) && (w < 2 ==> x == 1)
      invariant FilledBefore(result[..], expected, y * w + x)
    {
      var red, green, blue, alpha := BlurPixel(img, y, x);
      var p := y * w + x;
      var bytes := [Averaged(red), Averaged(green), Averaged(blue), Averaged(alpha)];
      BlurWrite(result[..], img, y, x, bytes);
      Streams.Store(result, 4 * p, bytes);
      x := x + 1;
    }
    RowDone(result[..], img, y, x);
  }

  /** The four kernel-weighted sums at an interior pixel, one neighbour at a time. */
  method BlurPixel(img: ImageData, y: int, x: int) returns (r: int, g: int, b: int, a: int)
    requires WellFormed(img) && Interior(img.width, img.height, y, x)
    ensures r == WeightedSum(img, y, x, 0) && g == WeightedSum(img, y, x, 1)
    ensures b == WeightedSum(img, y, x, 2) && a == WeightedSum(img, y, x, 3)
    ensures 0 <= r <= KernelSum * 255 && 0 <= g <= KernelSum * 255
    ensures 0 <= b <= KernelSum * 255 && 0 <= a <= KernelSum * 255
  {
    r, g, b, a := 0, 0, 0, 0;
    var ky := -1;
    while ky <= 1
      invariant -1 <= ky <= 2
      invariant r == Taps(img, y, x, 0, ky + 1) && g == Taps(img, y, x, 1, ky + 1)
      invariant b == Taps(img, y, x, 2, ky + 1) && a == Taps(img, y, x, 3, ky + 1)
    {
      var kx := -1;
      while kx <= 1
        invariant -1 <= kx <= 2
        invariant r == Taps(img, y, x, 0, ky + 1) + RowTaps(img, y, x, 0, ky, kx + 1)
        invariant g == Taps(img, y, x, 1, ky + 1) + RowTaps(img, y, x, 1, ky, kx + 1)
        invariant b == Taps(img, y, x, 2, ky + 1) + RowTaps(img, y, x, 2, ky, kx + 1)
        invariant a == Taps(img, y, x, 3, ky + 1) + RowTaps(img, y, x, 3, ky, kx + 1)
      {
        var idx := ((y + ky) * img.width + (x + kx)) * 4;
        var weight := Kernel[ky + 1][kx + 1];
        Neighbour(img, y, x, ky, kx);
        r := r + img.data[idx] * weight;
        g := g + img.data[idx + 1] * weight;
        b := b + img.data[idx + 2] * weight;
        a := a + img.data[idx + 3] * weight;
        kx := kx + 1;
      }
      ky := ky + 1;
    }
    SumRange(img, y, x, 0);
    SumRange(img, y, x, 1);
    SumRange(img, y, x, 2);
    SumRange(img, y, x, 3);
  }

  // ---------------------------------------------------------------------
  // Steps of the loops

  /** A neighbour of an interior pixel is inside the image, where Sample reads its bytes. */
  lemma Neighbour(img: ImageData, y: int, x: int, ky: int, kx: int)
    requires WellFormed(img) && Interior(img.width, img.height, y, x) && -1 <= ky <= 1 && -1 <= kx <= 1
    ensures var idx := ((y + ky) * img.width + (x + kx)) * 4;
      0 <= idx && idx + 4 <= |img.data| &&
      Sample(img, y + ky, x + kx, 0) == img.data[idx] && Sample(img, y + ky, x + kx, 1) == img.data[idx + 1] &&
      Sample(img, y + ky, x + kx, 2) == img.data[idx + 2] && Sample(img, y + ky, x + kx, 3) == img.data[idx + 3]
  {
    PixelIndexBound(img.width, img.height, y + ky, x + kx);
  }

  /** The four bytes the blur writes at an interior pixel. */
  lemma BlurBytes(img: ImageData, y: int, x: int)
    requires WellFormed(img) && Interior(img.width, img.height, y, x)
    ensures var p := y * img.width + x;
      0 <= p && 4 * p + 4 <= |BlurData(img)| &&
      BlurData(img)[4 * p..4 * p + 4] ==
        [BlurValue(img, y, x, 0), BlurValue(img, y, x, 1), BlurValue(img, y, x, 2), BlurValue(img, y, x, 3)]
  {
    var p := y * img.width + x;
    PixelIndexBound(img.width, img.height, y, x);
    PixelIndexInverse(img.width, y, x);
    ChannelOf(4 * p, 0);
    ChannelOf(4 * p, 1);
    ChannelOf(4 * p, 2);
    ChannelOf(4 * p, 3);
  }

  /** Writing the blurred bytes of the next interior pixel. */
  lemma BlurWrite(buf: seq<byte>, img: ImageData, y: int, x: int, bytes: seq<byte>)
    requires WellFormed(img) && Interior(img.width, img.height, y, x)
    requires FilledBefore(buf, BlurData(img), y * img.width + x)
    requires bytes == [BlurValue(img, y, x, 0), BlurValue(img, y, x, 1), BlurValue(img, y, x, 2), BlurValue(img, y, x, 3)]
    ensures var p := y * img.width + x;
      0 <= p && 4 * p + 4 <= |buf| && FilledBefore(Put(buf, 4 * p, bytes), BlurData(img), p + 1)
  {
    var p := y * img.width + x;
    BlurBytes(img, y, x);
    FillPixel(buf, BlurData(img), p);
  }

  /** Border pixels hold zero bytes, so the loops pass over them. */
  lemma SkipBorder(buf: seq<byte>, img: ImageData, p: int, q: int)
    requires img.width > 0 && FilledBefore(buf, BlurData(img), p) && p <= q
    requires forall t :: p <= t < q ==> Border(img.width, img.height, t)
    ensures FilledBefore(buf, BlurData(img), q)
  {
    var expected := BlurData(img);
    forall k | 0 <= k < |expected| && p <= k / 4 < q
      ensures expected[k] == 0
    {
      assert Border(img.width, img.height, k / 4);
    }
    SkipBlank(buf, expected, p, q);
  }

  /** At the end of an interior row, the buffer is filled up to the first interior pixel of the next. */
  lemma RowDone(buf: seq<byte>, img: ImageData, y: int, x: int)
    requires img.width > 0 && 1 <= y && 1 <= x
    requires (img.width >= 2 ==> x == img.width - 1) && (img.width < 2 ==> x == 1)
    requires FilledBefore(buf, BlurData(img), y * img.width + x)
    ensures FilledBefore(buf, BlurData(img), (y + 1) * img.width + 1)
  {
    RowEndIsBorder(img.width, img.height, y, x);
    SkipBorder(buf, img, y * img.width + x, (y + 1) * img.width + 1);
  }

  // ---------------------------------------------------------------------
  // Properties

  /**
   * The loops' weighted sum is the 3 × 3 convolution with the kernel
   * written out: the four corners once, the four edge neighbours twice and
   * the centre four times.
   */
  lemma Convolution(img: ImageData, y: int, x: int, c: int)
    ensures WeightedSum(img, y, x, c) ==
      Sample(img, y - 1, x - 1, c) + 2 * Sample(img, y - 1, x, c) + Sample(img, y - 1, x + 1, c) +
      2 * Sample(img, y, x - 1, c) + 4 * Sample(img, y, x, c) + 2 * Sample(img, y, x + 1, c) +
      Sample(img, y + 1, x - 1, c) + 2 * Sample(img, y + 1, x, c) + Sample(img, y + 1, x + 1, c)
  {
    RowTapsOf(img, y, x, c, -1);
    RowTapsOf(img, y, x, c, 0);
    RowTapsOf(img, y, x, c, 1);
    assert Taps(img, y, x, c, 1) == RowTaps(img, y, x, c, -1, 3);
    assert Taps(img, y, x, c, 2) == Taps(img, y, x, c, 1) + RowTaps(img, y, x, c, 0, 3);
  }

  /** One kernel row's three weighted samples. */
  lemma RowTapsOf(img: ImageData, y: int, x: int, c: int, ky: int)
    requires -1 <= ky <= 1
    ensures RowTaps(img, y, x, c, ky, 3) ==
      Sample(img, y + ky, x - 1, c) * Weight(ky, -1) + Sample(img, y + ky, x, c) * Weight(ky, 0) +
      Sample(img, y + ky, x + 1, c) * Weight(ky, 1)
  {
    assert RowTaps(img, y, x, c, ky, 1) == Sample(img, y + ky, x - 1, c) * Weight(ky, -1);
    assert RowTaps(img, y, x, c, ky, 2) == RowTaps(img, y, x, c, ky, 1) + Sample(img, y + ky, x, c) * Weight(ky, 0);
  }

  /** A weighted sum of bytes lies between zero and the kernel's sum times 255. */
  lemma SumRange(img: ImageData, y: int, x: int, c: int)
    ensures 0 <= WeightedSum(img, y, x, c) <= KernelSum * 255
  {
    Convolution(img, y, x, c);
  }

  /**
   * The kernel's weights sum to 16, so the blur keeps a uniform
   * neighbourhood: where all nine neighbours hold v in channel c, the
   * blurred channel is v.
   */
  lemma UniformNeighbourhood(img: ImageData, y: int, x: int, c: int, v: byte)
    requires forall yy, xx :: y - 1 <= yy <= y + 1 && x - 1 <= xx <= x + 1 ==> Sample(img, yy, xx, c) == v
    ensures WeightedSum(img, y, x, c) == KernelSum * v
    ensures BlurValue(img, y, x, c) == v
  {
    Convolution(img, y, x, c);
    assert Sample(img, y - 1, x - 1, c) == v && Sample(img, y - 1, x, c) == v && Sample(img, y - 1, x + 1, c) == v;
    assert Sample(img, y, x - 1, c) == v && Sample(img, y, x, c) == v && Sample(img, y, x + 1, c) == v;
    assert Sample(img, y + 1, x - 1, c) == v && Sample(img, y + 1, x, c) == v && Sample(img, y + 1, x + 1, c) == v;
    assert WeightedSum(img, y, x, c) as real / 16.0 == v as real;
    RoundOfInt(v);
  }

  /** Two channels that agree on the whole neighbourhood blur to the same value. */
  lemma ChannelsAgree(img: ImageData, y: int, x: int, c: int, d: int)
    requires forall yy, xx :: y - 1 <= yy <= y + 1 && x - 1 <= xx <= x + 1 ==> Sample(img, yy, xx, c) == Sample(img, yy, xx, d)
    ensures BlurValue(img, y, x, c) == BlurValue(img, y, x, d)
  {
    Convolution(img, y, x, c);
    Convolution(img, y, x, d);
    assert Sample(img, y - 1, x - 1, c) == Sample(img, y - 1, x - 1, d);
    assert Sample(img, y - 1, x, c) == Sample(img, y - 1, x, d);
    assert Sample(img, y - 1, x + 1, c) == Sample(img, y - 1, x + 1, d);
    assert Sample(img, y, x - 1, c) == Sample(img, y, x - 1, d);
    assert Sample(img, y, x, c) == Sample(img, y, x, d);
    assert Sample(img, y, x + 1, c) == Sample(img, y, x + 1, d);
    assert Sample(img, y + 1, x - 1, c) == Sample(img, y + 1, x - 1, d);
    assert Sample(img, y + 1, x, c) == Sample(img, y + 1, x, d);
    assert Sample(img, y + 1, x + 1, c) == Sample(img, y + 1, x + 1, d);
  }

  /** The four bytes of pixel (x, y) of the blurred data: zero on the border, the blurred channels elsewhere. */
  lemma PixelOfBlur(img: ImageData, y: int, x: int)
    requires WellFormed(img) && 0 <= y < img.height && 0 <= x < img.width
    ensures var p := PixelIndex(img.width, y, x);
      0 <= p && 4 * p + 4 <= |BlurData(img)| &&
      BlurData(img)[4 * p..4 * p + 4] ==
        if Interior(img.width, img.height, y, x)
        then [BlurValue(img, y, x, 0), BlurValue(img, y, x, 1), BlurValue(img, y, x, 2), BlurValue(img, y, x, 3)]
        else [0, 0, 0, 0]
  {
    if Interior(img.width, img.height, y, x) {
      BlurBytes(img, y, x);
    } else {
      var p := PixelIndex(img.width, y, x);
      PixelIndexBound(img.width, img.height, y, x);
      PixelIndexInverse(img.width, y, x);
      ChannelOf(4 * p, 0);
      ChannelOf(4 * p, 1);
      ChannelOf(4 * p, 2);
      ChannelOf(4 * p, 3);
    }
  }

  /**
   * applyGaussianBlur fails exactly on an empty image, with the
   * constructor's error. Otherwise its result has the input's size, every
   * border pixel is transparent black, and every other pixel holds the
   * blurred channels of the input.
   */
  lemma BlurredImage(img: ImageData)
    requires WellFormed(img)
    ensures Blurred(img).Failure? <==> img.width == 0 || img.height == 0
    ensures Blurred(img).Failure? ==> Blurred(img).error == EmptyDataError
    ensures Blurred(img).Success? ==>
      var out := Blurred(img).value;
      out.width == img.width && out.height == img.height && WellFormed(out) &&
      forall y, x :: 0 <= y < img.height && 0 <= x < img.width ==>
        var p := PixelIndex(img.width, y, x);
        0 <= p && 4 * p + 4 <= |out.data| &&
        out.data[4 * p..4 * p + 4] ==
          if Interior(img.width, img.height, y, x)
          then [BlurValue(img, y, x, 0), BlurValue(img, y, x, 1), BlurValue(img, y, x, 2), BlurValue(img, y, x, 3)]
          else [0, 0, 0, 0]
  {
    if img.width > 0 && img.height > 0 {
      forall y, x | 0 <= y < img.height && 0 <= x < img.width
        ensures var p := PixelIndex(img.width, y, x);
          0 <= p && 4 * p + 4 <= |BlurData(img)| &&
          BlurData(img)[4 * p..4 * p + 4] ==
            if Interior(img.width, img.height, y, x)
            then [BlurValue(img, y, x, 0), BlurValue(img, y, x, 1), BlurValue(img, y, x, 2), BlurValue(img, y, x, 3)]
            else [0, 0, 0, 0]
      {
        PixelOfBlur(img, y, x);
      }
    }
  }

  /** Inside the image, the grayscale copy has R = G = B. */
  lemma GraySample(img: ImageData, y: int, x: int)
    requires WellFormed(img) && 0 <= y < img.height && 0 <= x < img.width
    ensures Sample(Grayscale(img), y, x, 0) == Sample(Grayscale(img), y, x, 1) == Sample(Grayscale(img), y, x, 2)
  {
    var d := img.data;
    var p := PixelIndex(img.width, y, x);
    PixelIndexBound(img.width, img.height, y, x);
    var g := Gray(d[4 * p], d[4 * p + 1], d[4 * p + 2]);
    GrayscalePixel(d, p);
    var slice := GrayscaleData(d)[4 * p..4 * p + 4];
    assert GrayscaleData(d)[4 * p] == slice[0] == g;
    assert GrayscaleData(d)[4 * p + 1] == slice[1] == g;
    assert GrayscaleData(d)[4 * p + 2] == slice[2] == g;
  }

  /** Blurring a grayscale image keeps R = G = B at every interior pixel. */
  lemma GrayBlur(img: ImageData, y: int, x: int)
    requires WellFormed(img) && Interior(img.width, img.height, y, x)
    ensures var gray := Grayscale(img);
      BlurValue(gray, y, x, 0) == BlurValue(gray, y, x, 1) == BlurValue(gray, y, x, 2)
  {
    var gray := Grayscale(img);
    forall yy, xx | y - 1 <= yy <= y + 1 && x - 1 <= xx <= x + 1
      ensures Sample(gray, yy, xx, 0) == Sample(gray, yy, xx, 1) == Sample(gray, yy, xx, 2)
    {
      GraySample(img, yy, xx);
    }
    ChannelsAgree(gray, y, x, 0, 1);
    ChannelsAgree(gray, y, x, 0, 2);
  }

  /**
   * createBitmap fails exactly on an empty image, with a ProcessingError
   * named "Failed to process image bitmap" that wraps the constructor's
   * error. Otherwise its result is the blurred grayscale copy, of the
   * input's size, and every pixel of it is gray, with R = G = B.
   */
  lemma CreatedBitmapIsGray(img: ImageData)
    requires WellFormed(img)
    ensures CreatedBitmap(img).Failure? <==> img.width == 0 || img.height == 0
    ensures CreatedBitmap(img).Failure? ==>
      CreatedBitmap(img).error == ProcessingError("Failed to process image bitmap", Some(EmptyDataError))
    ensures CreatedBitmap(img).Success? ==>
      var out := CreatedBitmap(img).value;
      out == Blurred(Grayscale(img)).value &&
      out.width == img.width && out.height == img.height && WellFormed(out) &&
      forall y, x :: 0 <= y < img.height && 0 <= x < img.width ==>
        var p := PixelIndex(img.width, y, x);
        0 <= p && 4 * p + 4 <= |out.data| &&
        out.data[4 * p] == out.data[4 * p + 1] == out.data[4 * p + 2]
  {
    if img.width > 0 && img.height > 0 {
      var gray := Grayscale(img);
      BlurredImage(gray);
      forall y, x | 0 <= y < img.height && 0 <= x < img.width
        ensures var p := PixelIndex(img.width, y, x);
          0 <= p && 4 * p + 4 <= |BlurData(gray)| &&
          BlurData(gray)[4 * p] == BlurData(gray)[4 * p + 1] == BlurData(gray)[4 * p + 2]
      {
        PixelOfBlur(gray, y, x);
        var p := PixelIndex(img.width, y, x);
        assert BlurData(gray)[4 * p] == BlurData(gray)[4 * p..4 * p + 4][0];
        assert BlurData(gray)[4 * p + 1] == BlurData(gray)[4 * p..4 * p + 4][1];
        assert BlurData(gray)[4 * p + 2] == BlurData(gray)[4 * p..4 * p + 4][2];
        if Interior(img.width, img.height, y, x) {
          GrayBlur(img, y, x);
        }
      }
    }
  }
}
