/**
 * What the raster stages share: the luminance weighting, the clamping store
 * of a Uint8ClampedArray, reads of one channel of one pixel of an ImageData,
 * and the bookkeeping of an output buffer that a row-major loop fills pixel
 * by pixel while the rest of it is still zero.
 */
module Raster {
  import opened Numeric
  import opened Types
  import Streams

  /** The luminance weighting 0.299 R + 0.587 G + 0.114 B. */
  function Luma(r: int, g: int, b: int): real {
    r as real * 0.299 + g as real * 0.587 + b as real * 0.114
  }

  /** The weights sum to one, so the luminance of three bytes lies between 0 and 255. */
  lemma LumaRange(r: byte, g: byte, b: byte)
    ensures 0.0 <= Luma(r, g, b) <= 255.0
  {
  }

  /** `Math.round(0.299 R + 0.587 G + 0.114 B)`, which is always a byte. */
  function Gray(r: byte, g: byte, b: byte): byte {
    LumaRange(r, g, b);
    Round(Luma(r, g, b))
  }

  /**
   * What `new ImageData(...)` throws when asked for a width or height of
   * zero: a DOMException named IndexSizeError.
   */
  const ZeroSizeError := PlainError("IndexSizeError")

  /**
   * What `new ImageData(new Uint8ClampedArray(width * height * 4), width,
   * height)` throws for an empty image: a DOMException named
   * InvalidStateError, because the buffer has no bytes.
   */
  const EmptyDataError := PlainError("InvalidStateError")

  /** A store into a Uint8ClampedArray of an integer value: clamped into 0..255. */
  function Clamped(v: int): byte {
    if v < 0 then 0 else if v > 255 then 255 else v
  }

  /** Byte k of the grayscale copy of `d`: the pixel's gray in R, G and B, its alpha copied. */
  function GrayByte(d: seq<byte>, k: nat): byte
    requires |d| % 4 == 0 && k < |d|
  {
    var base := k - k % 4;
    if k % 4 == 3 then d[k] else Gray(d[base], d[base + 1], d[base + 2])
  }

  /** The data of the grayscale copy that createBitmap, processImage and BitmapStep build. */
  function GrayscaleData(d: seq<byte>): (r: seq<byte>)
    requires |d| % 4 == 0
    ensures |r| == |d|
  {
    seq(|d|, k requires 0 <= k < |d| => GrayByte(d, k))
  }

  /** The grayscale copy of an image, of the same size. */
  function Grayscale(img: ImageData): (r: ImageData)
    requires WellFormed(img)
    ensures WellFormed(r) && r.width == img.width && r.height == img.height
  {
    ImageData(img.width, img.height, GrayscaleData(img.data))
  }

  /** Byte c of the pixel starting at byte i. */
  lemma ChannelOf(i: int, c: int)
    requires i >= 0 && i % 4 == 0 && 0 <= c < 4
    ensures (i + c) % 4 == c && (i + c) / 4 == i / 4 && (i + c) - (i + c) % 4 == i
  {
    DivModUnique(i + c, 4, i / 4, c);
  }

  /** Every pixel of the grayscale copy is gray, with R = G = B, and keeps its alpha. */
  lemma GrayscalePixel(d: seq<byte>, p: nat)
    requires |d| % 4 == 0 && 4 * p + 4 <= |d|
    ensures var g := Gray(d[4 * p], d[4 * p + 1], d[4 * p + 2]);
      GrayscaleData(d)[4 * p..4 * p + 4] == [g, g, g, d[4 * p + 3]]
  {
    ChannelOf(4 * p, 0);
    ChannelOf(4 * p, 1);
    ChannelOf(4 * p, 2);
    ChannelOf(4 * p, 3);
  }

  /** One grayscale pixel written at byte i, as the conversion loops write it. */
  lemma GrayStep(d: seq<byte>, i: nat)
    requires |d| % 4 == 0 && i % 4 == 0 && i + 4 <= |d|
    ensures var g := Gray(d[i], d[i + 1], d[i + 2]);
      GrayByte(d, i) == g && GrayByte(d, i + 1) == g && GrayByte(d, i + 2) == g && GrayByte(d, i + 3) == d[i + 3]
  {
    ChannelOf(i, 0);
    ChannelOf(i, 1);
    ChannelOf(i, 2);
    ChannelOf(i, 3);
  }

  /** A gray pixel has R = G = B, so the grayscale copy of a grayscale image is itself. */
  lemma GrayOfGray(v: byte)
    ensures Gray(v, v, v) == v
  {
    assert Luma(v, v, v) == v as real;
  }

  /**
   * The grayscale loop that createBitmap, processImage and BitmapStep each
   * run: four bytes at a time, the gray value into R, G and B and the alpha
   * copied, into a fresh buffer.
   */
  method GrayscaleImage(img: ImageData) returns (gray: array<byte>)
    requires WellFormed(img)
    ensures fresh(gray) && gray[..] == GrayscaleData(img.data)
  {
    gray := new byte[|img.data|](_ => 0);
    ghost var expected := GrayscaleData(img.data);
    ghost var pixels := img.width * img.height;
    ghost var p := 0;
    NothingFilled(expected);
    assert gray[..] == Zeros(|expected|);
    var i := 0;
    while i < |img.data|
      invariant 0 <= p <= pixels && i == 4 * p
      invariant FilledBefore(gray[..], expected, p)
    {
      var g := Gray(img.data[i], img.data[i + 1], img.data[i + 2]);
      GrayscalePixel(img.data, p);
      FillPixel(gray[..], expected, p);
      Streams.Store(gray, i, [g, g, g, img.data[i + 3]]);
      i := i + 4;
      p := p + 1;
    }
    AllFilled(gray[..], expected, p);
  }

  // ---------------------------------------------------------------------
  // Pixel positions

  /** A pixel position (x, y). */
  type Pos = (int, int)

  /** Whether two positions are equal or 8-connected neighbours. */
  predicate Adjacent(p: Pos, q: Pos) {
    -1 <= p.0 - q.0 <= 1 && -1 <= p.1 - q.1 <= 1
  }

  /** Where pixel (x, y) of a width-w image starts in its data, in pixels. */
  function PixelIndex(w: int, y: int, x: int): int {
    y * w + x
  }

  /** Row and column of a pixel index. */
  lemma PixelIndexInverse(w: nat, y: nat, x: nat)
    requires x < w
    ensures PixelIndex(w, y, x) / w == y && PixelIndex(w, y, x) % w == x
  {
    DivModUnique(y * w + x, w, y, x);
  }

  /** A pixel inside a w × h image has an index below w·h. */
  lemma PixelIndexBound(w: nat, h: nat, y: nat, x: nat)
    requires y < h && x < w
    ensures 0 <= PixelIndex(w, y, x) < w * h
    ensures 4 * PixelIndex(w, y, x) + 4 <= 4 * w * h
  {
    MulLe(w, y + 1, h);
  }

  lemma MulLe(w: nat, a: nat, b: nat)
    requires a <= b
    ensures a * w <= b * w
  {
  }

  /** Channel c of pixel (x, y), or 0 when that byte is outside the data. */
  function Sample(img: ImageData, y: int, x: int, c: int): byte {
    var k := PixelIndex(img.width, y, x) * 4 + c;
    if 0 <= k < |img.data| then img.data[k] else 0
  }

  /** Inside the image, Sample reads the pixel's byte. */
  lemma SampleInside(img: ImageData, y: nat, x: nat, c: nat)
    requires WellFormed(img) && y < img.height && x < img.width && c < 4
    ensures 0 <= PixelIndex(img.width, y, x) * 4 + c < |img.data|
    ensures Sample(img, y, x, c) == img.data[PixelIndex(img.width, y, x) * 4 + c]
  {
    PixelIndexBound(img.width, img.height, y, x);
  }

  /** Whether pixel (x, y) is off the one-pixel border of a w × h image. */
  predicate Interior(w: int, h: int, y: int, x: int) {
    1 <= y < h - 1 && 1 <= x < w - 1
  }

  // ---------------------------------------------------------------------
  // Buffers filled pixel by pixel

  /**
   * The pixels with index below `done` hold their expected bytes (four per
   * pixel) and every later byte is still zero.
   */
  ghost predicate FilledBefore(buf: seq<byte>, expected: seq<byte>, done: int) {
    |buf| == |expected| && forall k :: 0 <= k < |buf| ==> buf[k] == if k / 4 < done then expected[k] else 0
  }

  /** A zeroed buffer has nothing filled. */
  lemma NothingFilled(expected: seq<byte>)
    ensures FilledBefore(Zeros(|expected|), expected, 0)
  {
  }

  /** Four equal bytes from offset i. */
  lemma FourBytes(d: seq<byte>, i: int, v: byte)
    requires 0 <= i && i + 4 <= |d| && d[i] == v && d[i + 1] == v && d[i + 2] == v && d[i + 3] == v
    ensures d[i..i + 4] == [v, v, v, v]
  {
  }

  /** Writing the expected four bytes of the next pixel. */
  lemma FillPixel(buf: seq<byte>, expected: seq<byte>, p: nat)
    requires FilledBefore(buf, expected, p) && 4 * p + 4 <= |buf|
    ensures FilledBefore(Put(buf, 4 * p, expected[4 * p..4 * p + 4]), expected, p + 1)
  {
    var after := Put(buf, 4 * p, expected[4 * p..4 * p + 4]);
    PutContents(buf, 4 * p, expected[4 * p..4 * p + 4]);
    forall k | 0 <= k < |buf|
      ensures after[k] == if k / 4 < p + 1 then expected[k] else 0
    {
      if 4 * p <= k < 4 * p + 4 {
        DivModUnique(k, 4, p, k - 4 * p);
      } else if k < 4 * p {
        assert k / 4 < p;
      } else {
        assert k / 4 >= p + 1;
      }
    }
  }

  /** Pixels whose expected bytes are zero count as filled without a write. */
  lemma SkipBlank(buf: seq<byte>, expected: seq<byte>, p: int, q: int)
    requires FilledBefore(buf, expected, p) && p <= q
    requires forall k :: 0 <= k < |expected| && p <= k / 4 < q ==> expected[k] == 0
    ensures FilledBefore(buf, expected, q)
  {
  }

  /** Once every pixel of the buffer is filled, it holds the expected bytes. */
  lemma AllFilled(buf: seq<byte>, expected: seq<byte>, done: int)
    requires FilledBefore(buf, expected, done) && 4 * done >= |buf|
    ensures buf == expected
  {
    forall k | 0 <= k < |buf|
      ensures buf[k] == expected[k]
    {
      assert k / 4 < done;
    }
  }

  /** The row-major position after (x, y) in a loop over the pixels with 1 <= x < w - 1. */
  lemma BorderGap(w: nat, y: nat)
    requires w >= 2
    ensures PixelIndex(w, y, w - 1) + 2 == PixelIndex(w, y + 1, 1)
  {
  }

  /** The pixels between the end of one interior row and the start of the next lie on the border. */
  lemma GapIsBorder(w: nat, h: nat, y: nat, p: int)
    requires w >= 2 && PixelIndex(w, y, w - 1) <= p < PixelIndex(w, y + 1, 1)
    ensures !Interior(w, h, p / w, p % w)
  {
    if p == PixelIndex(w, y, w - 1) {
      PixelIndexInverse(w, y, w - 1);
    } else {
      PixelIndexInverse(w, y + 1, 0);
    }
  }

  /** Whether pixel q of a w × h image lies on its one-pixel border. */
  predicate Border(w: nat, h: nat, q: int)
    requires w > 0
  {
    !Interior(w, h, q / w, q % w)
  }

  /** The first row and the first pixel of the second lie on the border. */
  lemma FirstRowIsBorder(w: nat, h: nat)
    requires w > 0
    ensures forall t :: 0 <= t < w + 1 ==> Border(w, h, t)
  {
    forall t | 0 <= t < w + 1
      ensures Border(w, h, t)
    {
      if t < w {
        DivModUnique(t, w, 0, t);
      } else {
        DivModUnique(t, w, 1, 0);
      }
    }
  }

  /** After the pixels 1 to w - 2 of row y, the rest of the row and the first pixel of the next lie on the border. */
  lemma RowEndIsBorder(w: nat, h: nat, y: int, x: int)
    requires w > 0 && 1 <= y && 1 <= x && (w >= 2 ==> x == w - 1) && (w < 2 ==> x == 1)
    ensures forall t :: y * w + x <= t < (y + 1) * w + 1 ==> Border(w, h, t)
  {
    forall t | y * w + x <= t < (y + 1) * w + 1
      ensures Border(w, h, t)
    {
      if w >= 2 {
        GapIsBorder(w, h, y, t);
      } else {
        assert t % w == 0;
      }
    }
  }

  /** After the last interior row, every remaining pixel lies on the border. */
  lemma LastRowIsBorder(w: nat, h: nat, y: int)
    requires w > 0 && 1 <= y && (h >= 2 ==> y == h - 1) && (h < 2 ==> y == 1)
    ensures forall t :: y * w + 1 <= t < w * h ==> Border(w, h, t)
  {
    forall t | y * w + 1 <= t < w * h
      ensures Border(w, h, t)
    {
      DivModUnique(t, w, h - 1, t - (h - 1) * w);
    }
  }

  /** Pixel k of a w × h image, in row k / w and column k % w. */
  lemma PixelOf(w: nat, h: nat, k: int)
    requires 0 <= k < w * h
    ensures w > 0 && 0 <= k / w < h && 0 <= k % w < w && PixelIndex(w, k / w, k % w) == k
  {
    if k / w >= h {
      MulLe(w, h, k / w);
    }
  }

  /** The eight neighbours of an interior pixel lie inside the image, one row (w) or one column (1) away. */
  lemma Neighbours(w: nat, h: nat, y: int, x: int)
    requires Interior(w, h, y, x)
    ensures w + 1 <= PixelIndex(w, y, x) && PixelIndex(w, y, x) + w + 1 < w * h
  {
    MulLe(w, 1, y);
    MulLe(w, y + 1, h - 1);
  }

  // ---------------------------------------------------------------------
  // Buffers of one value per pixel, filled position by position

  /** The positions below `done` hold their expected values and every later one still holds `blank`. */
  ghost predicate WrittenBefore<T>(buf: seq<T>, expected: seq<T>, blank: T, done: int) {
    |buf| == |expected| && forall k :: 0 <= k < |buf| ==> buf[k] == if k < done then expected[k] else blank
  }

  /** A buffer still all blank has nothing written. */
  lemma NothingWritten<T>(buf: seq<T>, expected: seq<T>, blank: T)
    requires |buf| == |expected| && forall k :: 0 <= k < |buf| ==> buf[k] == blank
    ensures WrittenBefore(buf, expected, blank, 0)
  {
  }

  /** Writing the expected value of the next position. */
  lemma WriteNext<T>(buf: seq<T>, expected: seq<T>, blank: T, p: int)
    requires WrittenBefore(buf, expected, blank, p) && 0 <= p < |buf|
    ensures WrittenBefore(buf[p := expected[p]], expected, blank, p + 1)
  {
  }

  /** Positions whose expected value is the blank count as written without a write. */
  lemma SkipBlanks<T>(buf: seq<T>, expected: seq<T>, blank: T, p: int, q: int)
    requires WrittenBefore(buf, expected, blank, p) && p <= q
    requires forall k :: p <= k < q && 0 <= k < |expected| ==> expected[k] == blank
    ensures WrittenBefore(buf, expected, blank, q)
  {
  }

  /** Once every position is written, the buffer holds the expected values. */
  lemma AllWritten<T>(buf: seq<T>, expected: seq<T>, blank: T, done: int)
    requires WrittenBefore(buf, expected, blank, done) && done >= |buf|
    ensures buf == expected
  {
  }

  /**
   * A buffer that a loop over the interior pixels writes, row by row, and
   * whose border positions should stay blank: the first border stretch is
   * skipped before the loop starts.
   */
  lemma SkipFirstBorder<T>(buf: seq<T>, expected: seq<T>, blank: T, w: nat, h: nat)
    requires |expected| == w * h && w > 0 && WrittenBefore(buf, expected, blank, 0)
    requires forall k :: 0 <= k < |expected| && Border(w, h, k) ==> expected[k] == blank
    ensures WrittenBefore(buf, expected, blank, PixelIndex(w, 1, 1))
  {
    FirstRowIsBorder(w, h);
    SkipBlanks(buf, expected, blank, 0, PixelIndex(w, 1, 1));
  }

  /** At the end of an interior row, the border stretch up to the next row's first interior pixel is skipped. */
  lemma SkipRowEnd<T>(buf: seq<T>, expected: seq<T>, blank: T, w: nat, h: nat, y: int, x: int)
    requires |expected| == w * h && w > 0 && 1 <= y && 1 <= x && (w >= 2 ==> x == w - 1) && (w < 2 ==> x == 1)
    requires WrittenBefore(buf, expected, blank, PixelIndex(w, y, x))
    requires forall k :: 0 <= k < |expected| && Border(w, h, k) ==> expected[k] == blank
    ensures WrittenBefore(buf, expected, blank, PixelIndex(w, y + 1, 1))
  {
    RowEndIsBorder(w, h, y, x);
    SkipBlanks(buf, expected, blank, PixelIndex(w, y, x), PixelIndex(w, y + 1, 1));
  }

  /** After the last interior row, every remaining position is border, so the buffer is complete. */
  lemma SkipLastBorder<T>(buf: seq<T>, expected: seq<T>, blank: T, w: nat, h: nat, y: int)
    requires |expected| == w * h && w > 0 && 1 <= y && (h >= 2 ==> y == h - 1) && (h < 2 ==> y == 1)
    requires WrittenBefore(buf, expected, blank, PixelIndex(w, y, 1))
    requires forall k :: 0 <= k < |expected| && Border(w, h, k) ==> expected[k] == blank
    ensures buf == expected
  {
    LastRowIsBorder(w, h, y);
    if PixelIndex(w, y, 1) < w * h {
      SkipBlanks(buf, expected, blank, PixelIndex(w, y, 1), w * h);
      AllWritten(buf, expected, blank, w * h);
    } else {
      AllWritten(buf, expected, blank, PixelIndex(w, y, 1));
    }
  }

  // ---------------------------------------------------------------------
  // Buffers of four bytes per pixel whose border stays zero

  /** Before a loop over the interior pixels, the first border stretch counts as filled. */
  lemma SkipFirstBorderPixels(buf: seq<byte>, expected: seq<byte>, w: nat, h: nat)
    requires |expected| == 4 * (w * h) && w > 0 && FilledBefore(buf, expected, 0)
    requires forall k :: 0 <= k < |expected| && Border(w, h, k / 4) ==> expected[k] == 0
    ensures FilledBefore(buf, expected, PixelIndex(w, 1, 1))
  {
    FirstRowIsBorder(w, h);
    SkipBlank(buf, expected, 0, PixelIndex(w, 1, 1));
  }

  /** At the end of an interior row, the border stretch up to the next row's first interior pixel counts as filled. */
  lemma SkipRowEndPixels(buf: seq<byte>, expected: seq<byte>, w: nat, h: nat, y: int, x: int)
    requires |expected| == 4 * (w * h) && w > 0 && 1 <= y && 1 <= x && (w >= 2 ==> x == w - 1) && (w < 2 ==> x == 1)
    requires FilledBefore(buf, expected, PixelIndex(w, y, x))
    requires forall k :: 0 <= k < |expected| && Border(w, h, k / 4) ==> expected[k] == 0
    ensures FilledBefore(buf, expected, PixelIndex(w, y + 1, 1))
  {
    RowEndIsBorder(w, h, y, x);
    SkipBlank(buf, expected, PixelIndex(w, y, x), PixelIndex(w, y + 1, 1));
  }

  /** After the last interior row, every remaining pixel is border, so the buffer is complete. */
  lemma SkipLastBorderPixels(buf: seq<byte>, expected: seq<byte>, w: nat, h: nat, y: int)
    requires |expected| == 4 * (w * h) && w > 0 && 1 <= y && (h >= 2 ==> y == h - 1) && (h < 2 ==> y == 1)
    requires FilledBefore(buf, expected, PixelIndex(w, y, 1))
    requires forall k :: 0 <= k < |expected| && Border(w, h, k / 4) ==> expected[k] == 0
    ensures buf == expected
  {
    LastRowIsBorder(w, h, y);
    if PixelIndex(w, y, 1) < w * h {
      SkipBlank(buf, expected, PixelIndex(w, y, 1), w * h);
      AllFilled(buf, expected, w * h);
    } else {
      AllFilled(buf, expected, PixelIndex(w, y, 1));
    }
  }
}
