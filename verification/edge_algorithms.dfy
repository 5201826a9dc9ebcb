/**
 * The Canny-style edge stages of
 * src/lib/embroidery/conversion/algorithms/edge.ts: a Sobel pass that
 * stores the gradient's magnitude and direction of every interior pixel,
 * non-maximum suppression that keeps a magnitude only where it is at least
 * both neighbours across the edge, and hysteresis that floods white from
 * every strong pixel through the pixels above the low threshold.
 *
 * Float32Array entries are modelled as reals, and Math.sqrt, Math.atan2 and
 * Math.PI come in through a MathLib.
 */
module EdgeAlgorithms {
  import opened Wrappers
  import opened Numeric
  import opened Types
  import opened Raster
  import EdgeProcessor

  // ---------------------------------------------------------------------
  // sobelEdgeDetection

  /** The flattened horizontal Sobel kernel, row by row. */
  const SobelXWeights: seq<int> := [-1, 0, 1, -2, 0, 2, -1, 0, 1]

  /** The flattened vertical Sobel kernel, row by row. */
  const SobelYWeights: seq<int> := [-1, -2, -1, 0, 0, 0, 1, 2, 1]

  /** Kernel row i (-1 .. 1) over its first n columns (j = -1 .. n - 2), entry (i + 1)·3 + (j + 1) per red sample. */
  function TapRow(img: ImageData, y: int, x: int, weights: seq<int>, i: int, n: nat): int
    requires |weights| == 9 && -1 <= i <= 1 && n <= 3
  {
    if n == 0 then 0
    else TapRow(img, y, x, weights, i, n - 1) + EdgeProcessor.Red(img, y + i, x + n - 2) * weights[(i + 1) * 3 + (n - 1)]
  }

  /** The first m kernel rows (i = -1 .. m - 2) around (x, y). */
  function TapRows(img: ImageData, y: int, x: int, weights: seq<int>, m: nat): int
    requires |weights| == 9 && m <= 3
  {
    if m == 0 then 0 else TapRows(img, y, x, weights, m - 1) + TapRow(img, y, x, weights, m - 2, 3)
  }

  /** The weighted sum of the red values of the 3 × 3 neighbourhood of (x, y) under a flattened kernel. */
  function Gradient(img: ImageData, y: int, x: int, weights: seq<int>): int
    requires |weights| == 9
  {
    TapRows(img, y, x, weights, 3)
  }

  /** One kernel row's three weighted samples, for the row's weights wa, wb, wc. */
  lemma TapRowOf(img: ImageData, y: int, x: int, weights: seq<int>, i: int, wa: int, wb: int, wc: int)
    requires |weights| == 9 && -1 <= i <= 1
    requires weights[(i + 1) * 3] == wa && weights[(i + 1) * 3 + 1] == wb && weights[(i + 1) * 3 + 2] == wc
    ensures TapRow(img, y, x, weights, i, 3) ==
      EdgeProcessor.Red(img, y + i, x - 1) * wa + EdgeProcessor.Red(img, y + i, x) * wb + EdgeProcessor.Red(img, y + i, x + 1) * wc
  {
    assert TapRow(img, y, x, weights, i, 1) == EdgeProcessor.Red(img, y + i, x - 1) * wa;
  }

  /** The three kernel rows, top to bottom. */
  lemma TapRowsOf(img: ImageData, y: int, x: int, weights: seq<int>)
    requires |weights| == 9
    ensures Gradient(img, y, x, weights) ==
      TapRow(img, y, x, weights, -1, 3) + TapRow(img, y, x, weights, 0, 3) + TapRow(img, y, x, weights, 1, 3)
  {
    assert TapRows(img, y, x, weights, 1) == TapRow(img, y, x, weights, -1, 3);
    assert TapRows(img, y, x, weights, 2) == TapRows(img, y, x, weights, 1) + TapRow(img, y, x, weights, 0, 3);
  }

  /**
   * The flattened horizontal kernel gives the same gradient as the 3 × 3
   * kernel of EdgeProcessor: the right column minus the left one, the
   * middle row weighted twice.
   */
  lemma FlatKernelXAgrees(img: ImageData, y: int, x: int)
    ensures Gradient(img, y, x, SobelXWeights) == EdgeProcessor.SobelX(img, y, x)
  {
    var w := SobelXWeights;
    TapRowsOf(img, y, x, w);
    TapRowOf(img, y, x, w, -1, -1, 0, 1);
    TapRowOf(img, y, x, w, 0, -2, 0, 2);
    TapRowOf(img, y, x, w, 1, -1, 0, 1);
  }

  /**
   * The flattened vertical kernel gives the same gradient as the 3 × 3
   * kernel of EdgeProcessor: the bottom row minus the top one, the middle
   * column weighted twice.
   */
  lemma FlatKernelYAgrees(img: ImageData, y: int, x: int)
    ensures Gradient(img, y, x, SobelYWeights) == EdgeProcessor.SobelY(img, y, x)
  {
    var w := SobelYWeights;
    TapRowsOf(img, y, x, w);
    TapRowOf(img, y, x, w, -1, -1, -2, -1);
    TapRowOf(img, y, x, w, 0, 0, 0, 0);
    TapRowOf(img, y, x, w, 1, 1, 2, 1);
  }

  /** The horizontal gradient gx at (x, y). */
  function GradientX(img: ImageData, y: int, x: int): int {
    Gradient(img, y, x, SobelXWeights)
  }

  /** The vertical gradient gy at (x, y). */
  function GradientY(img: ImageData, y: int, x: int): int {
    Gradient(img, y, x, SobelYWeights)
  }

  /** The two Float32Arrays sobelEdgeDetection returns. */
  datatype Gradients = Gradients(magnitude: seq<real>, direction: seq<real>)

  /** Entry k of the magnitude array: √(gx² + gy²) inside, 0 on the border. */
  function MagnitudeAt(math: MathLib, img: ImageData, k: int): real
    requires 0 <= k < img.width * img.height
  {
    PixelOf(img.width, img.height, k);
    if Border(img.width, img.height, k) then 0.0
    else
      var gx, gy := GradientX(img, k / img.width, k % img.width), GradientY(img, k / img.width, k % img.width);
      math.sqrt((gx * gx + gy * gy) as real)
  }

  /** Entry k of the direction array: atan2(gy, gx) inside, 0 on the border. */
  function DirectionAt(math: MathLib, img: ImageData, k: int): real
    requires 0 <= k < img.width * img.height
  {
    PixelOf(img.width, img.height, k);
    if Border(img.width, img.height, k) then 0.0
    else math.atan2(GradientY(img, k / img.width, k % img.width) as real, GradientX(img, k / img.width, k % img.width) as real)
  }

  /** What sobelEdgeDetection computes for an image. */
  function SobelField(math: MathLib, img: ImageData): (r: Gradients)
    ensures |r.magnitude| == |r.direction| == img.width * img.height
  {
    var n := img.width * img.height;
    Gradients(seq(n, k requires 0 <= k < n => MagnitudeAt(math, img, k)),
              seq(n, k requires 0 <= k < n => DirectionAt(math, img, k)))
  }

  /** sobelEdgeDetection: both arrays filled over the interior pixels, row by row. */
  method SobelEdgeDetection(math: MathLib, img: ImageData) returns (r: Gradients)
    requires WellFormed(img)
    ensures r == SobelField(math, img)
  {
    var w: nat, h: int := img.width, img.height;
    var magnitude := new real[w * h](_ => 0.0);
    var direction := new real[w * h](_ => 0.0);
    ghost var expected := SobelField(math, img);
    if w == 0 {
      assert magnitude[..] == expected.magnitude && direction[..] == expected.direction;
      return Gradients(magnitude[..], direction[..]);
    }
    NothingWritten(magnitude[..], expected.magnitude, 0.0);
    NothingWritten(direction[..], expected.direction, 0.0);
    SobelBorder(math, img);
    SkipFirstBorder(magnitude[..], expected.magnitude, 0.0, w, h);
    SkipFirstBorder(direction[..], expected.direction, 0.0, w, h);
    var y := 1;
    while y < h - 1
      invariant 1 <= y && (h >= 2 ==> y <= h - 1) && (h < 2 ==> y == 1)
      invariant WrittenBefore(magnitude[..], expected.magnitude, 0.0, PixelIndex(w, y, 1))
      invariant WrittenBefore(direction[..], expected.direction, 0.0, PixelIndex(w, y, 1))
    {
      var x := 1;
      while x < w - 1
        invariant 1 <= x && (w >= 2 ==> x <= w - 1) && (w < 2 ==> x == 1)
        invariant WrittenBefore(magnitude[..], expected.magnitude, 0.0, PixelIndex(w, y, x))
        invariant WrittenBefore(direction[..], expected.direction, 0.0, PixelIndex(w, y, x))
      {
        SobelPixel(math, img, magnitude, direction, y, x);
        x := x + 1;
      }
      SkipRowEnd(magnitude[..], expected.magnitude, 0.0, w, h, y, x);
      SkipRowEnd(direction[..], expected.direction, 0.0, w, h, y, x);
      y := y + 1;
    }
    SkipLastBorder(magnitude[..], expected.magnitude, 0.0, w, h, y);
    SkipLastBorder(direction[..], expected.direction, 0.0, w, h, y);
    return Gradients(magnitude[..], direction[..]);
  }

  /** The body of the x loop of sobelEdgeDetection: both entries of interior pixel (x, y). */
  method SobelPixel(math: MathLib, img: ImageData, magnitude: array<real>, direction: array<real>, y: int, x: int)
    requires WellFormed(img) && Interior(img.width, img.height, y, x) && magnitude != direction
    requires WrittenBefore(magnitude[..], SobelField(math, img).magnitude, 0.0, PixelIndex(img.width, y, x))
    requires WrittenBefore(direction[..], SobelField(math, img).direction, 0.0, PixelIndex(img.width, y, x))
    modifies magnitude, direction
    ensures WrittenBefore(magnitude[..], SobelField(math, img).magnitude, 0.0, PixelIndex(img.width, y, x) + 1)
    ensures WrittenBefore(direction[..], SobelField(math, img).direction, 0.0, PixelIndex(img.width, y, x) + 1)
  {
    var gx, gy := GradientSums(img, y, x);
    var idx := y * img.width + x;
    SobelStep(magnitude[..], direction[..], math, img, y, x);
    magnitude[idx] := math.sqrt((gx * gx + gy * gy) as real);
    direction[idx] := math.atan2(gy as real, gx as real);
  }

  /** The i/j loops of sobelEdgeDetection at an interior pixel: both sums over the nine red samples. */
  method GradientSums(img: ImageData, y: int, x: int) returns (gx: int, gy: int)
    requires WellFormed(img) && Interior(img.width, img.height, y, x)
    ensures gx == GradientX(img, y, x) && gy == GradientY(img, y, x)
  {
    gx, gy := 0, 0;
    var i := -1;
    while i <= 1
      invariant -1 <= i <= 2
      invariant gx == TapRows(img, y, x, SobelXWeights, i + 1)
      invariant gy == TapRows(img, y, x, SobelYWeights, i + 1)
    {
      var j := -1;
      while j <= 1
        invariant -1 <= j <= 2
        invariant gx == TapRows(img, y, x, SobelXWeights, i + 1) + TapRow(img, y, x, SobelXWeights, i, j + 1)
        invariant gy == TapRows(img, y, x, SobelYWeights, i + 1) + TapRow(img, y, x, SobelYWeights, i, j + 1)
      {
        var idx := ((y + i) * img.width + (x + j)) * 4;
        var kernelIdx := (i + 1) * 3 + (j + 1);
        TapStep(img, y, x, i, j);
        gx := gx + (img.data[idx] as int) * SobelXWeights[kernelIdx];
        gy := gy + (img.data[idx] as int) * SobelYWeights[kernelIdx];
        j := j + 1;
      }
      i := i + 1;
    }
  }

  /** The red sample the i/j loops read next, and what it adds to both sums. */
  lemma TapStep(img: ImageData, y: int, x: int, i: int, j: int)
    requires WellFormed(img) && Interior(img.width, img.height, y, x) && -1 <= i <= 1 && -1 <= j <= 1
    ensures 0 <= ((y + i) * img.width + (x + j)) * 4 < |img.data|
    ensures var red := img.data[((y + i) * img.width + (x + j)) * 4] as int;
      TapRow(img, y, x, SobelXWeights, i, j + 2) == TapRow(img, y, x, SobelXWeights, i, j + 1) + red * SobelXWeights[(i + 1) * 3 + (j + 1)] &&
      TapRow(img, y, x, SobelYWeights, i, j + 2) == TapRow(img, y, x, SobelYWeights, i, j + 1) + red * SobelYWeights[(i + 1) * 3 + (j + 1)]
  {
    SampleInside(img, y + i, x + j, 0);
  }

  /** Writing both entries of interior pixel (x, y), the next one the Sobel loops visit. */
  lemma SobelStep(mbuf: seq<real>, dbuf: seq<real>, math: MathLib, img: ImageData, y: int, x: int)
    requires Interior(img.width, img.height, y, x)
    requires WrittenBefore(mbuf, SobelField(math, img).magnitude, 0.0, PixelIndex(img.width, y, x))
    requires WrittenBefore(dbuf, SobelField(math, img).direction, 0.0, PixelIndex(img.width, y, x))
    ensures 0 <= PixelIndex(img.width, y, x) < img.width * img.height
    ensures
      var gx, gy := GradientX(img, y, x), GradientY(img, y, x);
      var p := PixelIndex(img.width, y, x);
      WrittenBefore(mbuf[p := math.sqrt((gx * gx + gy * gy) as real)], SobelField(math, img).magnitude, 0.0, p + 1) &&
      WrittenBefore(dbuf[p := math.atan2(gy as real, gx as real)], SobelField(math, img).direction, 0.0, p + 1)
  {
    var p := PixelIndex(img.width, y, x);
    PixelIndexBound(img.width, img.height, y, x);
    PixelIndexInverse(img.width, y, x);
    WriteNext(mbuf, SobelField(math, img).magnitude, 0.0, p);
    WriteNext(dbuf, SobelField(math, img).direction, 0.0, p);
  }

  /** Both arrays are 0 on the border. */
  lemma SobelBorder(math: MathLib, img: ImageData)
    requires img.width > 0
    ensures forall k :: 0 <= k < img.width * img.height && Border(img.width, img.height, k) ==>
      SobelField(math, img).magnitude[k] == 0.0 && SobelField(math, img).direction[k] == 0.0
  {
  }

  /**
   * With a true square root, the magnitude at an interior pixel is the
   * non-negative number whose square is gx² + gy², and on the border both
   * arrays hold 0.
   */
  lemma MagnitudeOf(math: MathLib, img: ImageData, y: int, x: int)
    requires IsSqrt(math.sqrt) && 0 <= y < img.height && 0 <= x < img.width
    ensures 0 <= PixelIndex(img.width, y, x) < img.width * img.height
    ensures
      var m := SobelField(math, img).magnitude[PixelIndex(img.width, y, x)];
      var gx, gy := GradientX(img, y, x), GradientY(img, y, x);
      (Interior(img.width, img.height, y, x) ==> 0.0 <= m && m * m == (gx * gx + gy * gy) as real) &&
      (!Interior(img.width, img.height, y, x) ==> m == 0.0 && SobelField(math, img).direction[PixelIndex(img.width, y, x)] == 0.0)
  {
    PixelIndexBound(img.width, img.height, y, x);
    PixelIndexInverse(img.width, y, x);
    var gx, gy := GradientX(img, y, x), GradientY(img, y, x);
    assert gx * gx >= 0 && gy * gy >= 0;
  }

  // ---------------------------------------------------------------------
  // nonMaximumSuppression

  /** The four bins the gradient's angle falls in. */
  datatype Orientation = Horizontal | Rising | Vertical | Falling

  /** The gradient's direction in degrees: direction·180/π. */
  function Degrees(math: MathLib, direction: real): real
    requires math.pi > 0.0
  {
    direction * 180.0 / math.pi
  }

  /** The bin of an angle in degrees, by the tests of nonMaximumSuppression in order. */
  function Bin(angle: real): Orientation {
    if angle < 22.5 || angle > 157.5 then Horizontal
    else if angle < 67.5 then Rising
    else if angle < 112.5 then Vertical
    else Falling
  }

  /** The index offsets of the two neighbours compared in a bin of a width-w image. */
  function Across(o: Orientation, w: int): (int, int) {
    match o
    case Horizontal => (-1, 1)
    case Rising => (-w + 1, w - 1)
    case Vertical => (-w, w)
    case Falling => (-w - 1, w + 1)
  }

  /** The same two neighbours as (dx, dy) steps from the pixel: the first at +step, the second at -step. */
  function Step(o: Orientation): (int, int) {
    match o
    case Horizontal => (-1, 0)
    case Rising => (1, -1)
    case Vertical => (0, -1)
    case Falling => (-1, -1)
  }

  /** Entry k of the suppressed magnitudes: the magnitude when it is at least both neighbours across the edge, else 0. */
  function SuppressAt(math: MathLib, m: seq<real>, d: seq<real>, side: nat, k: int): real
    requires |m| == side * side && |d| == |m| && 0 <= k < |m| && math.pi > 0.0
  {
    PixelOf(side, side, k);
    if Border(side, side, k) then 0.0
    else
      Neighbours(side, side, k / side, k % side);
      var offsets := Across(Bin(Degrees(math, d[k])), side);
      if m[k] >= m[k + offsets.0] && m[k] >= m[k + offsets.1] then m[k] else 0.0
  }

  /** What nonMaximumSuppression computes for a side × side image. */
  function Suppressed(math: MathLib, m: seq<real>, d: seq<real>, side: nat): (r: seq<real>)
    requires |m| == side * side && |d| == |m| && math.pi > 0.0
    ensures |r| == |m|
  {
    seq(|m|, k requires 0 <= k < |m| => SuppressAt(math, m, d, side, k))
  }

  /**
   * nonMaximumSuppression, over the interior pixels row by row. The source
   * takes width = height = √(magnitude.length); `side` is that width, which
   * SquareSide shows Math.sqrt returns for a square length.
   */
  method NonMaximumSuppression(math: MathLib, magnitude: seq<real>, direction: seq<real>, side: nat) returns (result: seq<real>)
    requires |magnitude| == side * side && |direction| == |magnitude| && math.pi > 0.0
    ensures result == Suppressed(math, magnitude, direction, side)
  {
    var width := side;
    var height := side;
    var r := new real[width * height](_ => 0.0);
    ghost var expected := Suppressed(math, magnitude, direction, side);
    if width == 0 {
      assert r[..] == expected;
      return r[..];
    }
    SuppressedBorder(math, magnitude, direction, side);
    NothingWritten(r[..], expected, 0.0);
    SkipFirstBorder(r[..], expected, 0.0, width, height);
    var y := 1;
    while y < height - 1
      invariant 1 <= y && (height >= 2 ==> y <= height - 1) && (height < 2 ==> y == 1)
      invariant WrittenBefore(r[..], expected, 0.0, PixelIndex(width, y, 1))
    {
      var x := 1;
      while x < width - 1
        invariant 1 <= x && (width >= 2 ==> x <= width - 1) && (width < 2 ==> x == 1)
        invariant WrittenBefore(r[..], expected, 0.0, PixelIndex(width, y, x))
      {
        SuppressPixel(math, magnitude, direction, side, r, y, x);
        x := x + 1;
      }
      SkipRowEnd(r[..], expected, 0.0, width, height, y, x);
      y := y + 1;
    }
    SkipLastBorder(r[..], expected, 0.0, width, height, y);
    return r[..];
  }

  /** The body of the x loop of nonMaximumSuppression: the entry of interior pixel (x, y). */
  method SuppressPixel(math: MathLib, magnitude: seq<real>, direction: seq<real>, side: nat, r: array<real>, y: int, x: int)
    requires |magnitude| == side * side && |direction| == |magnitude| && math.pi > 0.0 && Interior(side, side, y, x)
    requires WrittenBefore(r[..], Suppressed(math, magnitude, direction, side), 0.0, PixelIndex(side, y, x))
    modifies r
    ensures WrittenBefore(r[..], Suppressed(math, magnitude, direction, side), 0.0, PixelIndex(side, y, x) + 1)
  {
    var idx := y * side + x;
    SuppressStep(r[..], math, magnitude, direction, side, y, x);
    var v := SuppressedValue(math, magnitude, direction, side, y, x);
    r[idx] := v;
  }

  /** The comparison nonMaximumSuppression makes at interior pixel (x, y), by the bin of its angle. */
  method SuppressedValue(math: MathLib, magnitude: seq<real>, direction: seq<real>, side: nat, y: int, x: int) returns (v: real)
    requires |magnitude| == side * side && |direction| == |magnitude| && math.pi > 0.0 && Interior(side, side, y, x)
    ensures 0 <= PixelIndex(side, y, x) < |magnitude|
    ensures v == SuppressAt(math, magnitude, direction, side, PixelIndex(side, y, x))
  {
    var width := side;
    var idx := y * width + x;
    Neighbours(side, side, y, x);
    PixelIndexInverse(side, y, x);
    var angle := direction[idx] * 180.0 / math.pi;
    var mag := magnitude[idx];
    var n1, n2;
    if angle < 22.5 || angle > 157.5 {
      n1 := magnitude[idx - 1];
      n2 := magnitude[idx + 1];
    } else if angle < 67.5 {
      n1 := magnitude[idx - width + 1];
      n2 := magnitude[idx + width - 1];
    } else if angle < 112.5 {
      n1 := magnitude[idx - width];
      n2 := magnitude[idx + width];
    } else {
      n1 := magnitude[idx - width - 1];
      n2 := magnitude[idx + width + 1];
    }
    v := if mag >= n1 && mag >= n2 then mag else 0.0;
  }

  /** Writing the suppressed value of interior pixel (x, y), the next one the loops visit. */
  lemma SuppressStep(buf: seq<real>, math: MathLib, m: seq<real>, d: seq<real>, side: nat, y: int, x: int)
    requires |m| == side * side && |d| == |m| && math.pi > 0.0 && Interior(side, side, y, x)
    requires WrittenBefore(buf, Suppressed(math, m, d, side), 0.0, PixelIndex(side, y, x))
    ensures side + 1 <= PixelIndex(side, y, x) && PixelIndex(side, y, x) + side + 1 < |m|
    ensures
      var p := PixelIndex(side, y, x);
      var offsets := Across(Bin(Degrees(math, d[p])), side);
      WrittenBefore(buf[p := if m[p] >= m[p + offsets.0] && m[p] >= m[p + offsets.1] then m[p] else 0.0],
        Suppressed(math, m, d, side), 0.0, p + 1)
  {
    Neighbours(side, side, y, x);
    PixelIndexInverse(side, y, x);
    WriteNext(buf, Suppressed(math, m, d, side), 0.0, PixelIndex(side, y, x));
  }

  /** The suppressed array is 0 on the border. */
  lemma SuppressedBorder(math: MathLib, m: seq<real>, d: seq<real>, side: nat)
    requires |m| == side * side && |d| == |m| && math.pi > 0.0 && side > 0
    ensures forall k :: 0 <= k < |m| && Border(side, side, k) ==> Suppressed(math, m, d, side)[k] == 0.0
  {
  }

  /** Math.sqrt of a square length is its side, so width·height is the length again. */
  lemma SquareSide(math: MathLib, side: nat)
    requires IsSqrt(math.sqrt)
    ensures math.sqrt((side * side) as real) == side as real
  {
    var s := math.sqrt((side * side) as real);
    var t := side as real;
    assert (side * side) as real == t * t;
    SquareCompare(s, t * t, t);
  }

  /**
   * The two neighbours a bin compares lie opposite each other across the
   * pixel, one step along the bin's direction each way: left and right,
   * up-right and down-left, up and down, up-left and down-right.
   */
  lemma AcrossNeighbours(o: Orientation, side: nat, y: int, x: int)
    requires Interior(side, side, y, x)
    ensures var step := Step(o);
      -1 <= step.0 <= 1 && -1 <= step.1 <= 1 && step != (0, 0) &&
      PixelIndex(side, y, x) + Across(o, side).0 == PixelIndex(side, y + step.1, x + step.0) &&
      PixelIndex(side, y, x) + Across(o, side).1 == PixelIndex(side, y - step.1, x - step.0)
  {
  }

  /** Every negative direction (and every angle past 157.5°) falls in the horizontal bin, which compares left and right. */
  lemma NegativeAngleIsHorizontal(math: MathLib, direction: real)
    requires math.pi > 0.0 && (direction < 0.0 || Degrees(math, direction) > 157.5)
    ensures Bin(Degrees(math, direction)) == Horizontal && Across(Bin(Degrees(math, direction)), 0) == (-1, 1)
  {
    if direction < 0.0 {
      assert Degrees(math, direction) * math.pi == direction * 180.0;
      assert Degrees(math, direction) < 0.0;
    }
  }

  /**
   * Each suppressed entry is 0 or the pixel's own magnitude; on the border
   * it is 0; inside it is the magnitude exactly when the magnitude is at
   * least both neighbours across the edge, and a non-zero entry means the
   * pixel survived.
   */
  lemma Survives(math: MathLib, m: seq<real>, d: seq<real>, side: nat, y: int, x: int)
    requires |m| == side * side && |d| == |m| && math.pi > 0.0 && 0 <= y < side && 0 <= x < side
    ensures 0 <= PixelIndex(side, y, x) < |m|
    ensures var p := PixelIndex(side, y, x); var r := Suppressed(math, m, d, side)[p];
      (r == 0.0 || r == m[p]) && (!Interior(side, side, y, x) ==> r == 0.0)
    ensures Interior(side, side, y, x) ==>
      var p := PixelIndex(side, y, x);
      var r := Suppressed(math, m, d, side)[p];
      var step := Step(Bin(Degrees(math, d[p])));
      var n1, n2 := PixelIndex(side, y + step.1, x + step.0), PixelIndex(side, y - step.1, x - step.0);
      0 <= n1 < |m| && 0 <= n2 < |m| &&
      (m[p] >= m[n1] && m[p] >= m[n2] ==> r == m[p]) &&
      (r != 0.0 ==> m[p] >= m[n1] && m[p] >= m[n2])
  {
    PixelIndexBound(side, side, y, x);
    PixelIndexInverse(side, y, x);
    if Interior(side, side, y, x) {
      var p := PixelIndex(side, y, x);
      Neighbours(side, side, y, x);
      AcrossNeighbours(Bin(Degrees(math, d[p])), side, y, x);
    }
  }

  // ---------------------------------------------------------------------
  // hysteresis

  /** Whether p lies inside a side × side image. */
  predicate InImage(side: int, p: Pos) {
    0 <= p.0 < side && 0 <= p.1 < side
  }

  /** The index py·width + px of a position. */
  function At(side: int, p: Pos): int {
    PixelIndex(side, p.1, p.0)
  }

  /** A position inside the image has an index below side², and its four bytes lie inside the data. */
  lemma AtBound(side: nat, p: Pos)
    requires InImage(side, p)
    ensures 0 <= At(side, p) < side * side && 4 * At(side, p) + 4 <= 4 * (side * side)
  {
    PixelIndexBound(side, side, p.1, p.0);
  }

  /** Two different positions inside the image have different indices. */
  lemma AtInjective(side: nat, p: Pos, q: Pos)
    requires InImage(side, p) && InImage(side, q) && p != q
    ensures At(side, p) != At(side, q)
  {
    PixelIndexInverse(side, p.1, p.0);
    PixelIndexInverse(side, q.1, q.0);
  }

  /** The edge strength of a position. */
  function Level(edges: seq<real>, side: nat, p: Pos): real
    requires |edges| == side * side && InImage(side, p)
  {
    AtBound(side, p);
    edges[At(side, p)]
  }

  /** A chain of 8-connected positions, every one at least `low`, that starts at one at least `high`. */
  ghost predicate IsTrail(edges: seq<real>, side: nat, low: real, high: real, path: seq<Pos>)
    requires |edges| == side * side
  {
    |path| > 0 &&
    (forall i :: 0 <= i < |path| ==> InImage(side, path[i]) && Level(edges, side, path[i]) >= low) &&
    Level(edges, side, path[0]) >= high &&
    (forall i :: 0 <= i < |path| - 1 ==> Adjacent(path[i], path[i + 1]))
  }

  /** Position p is reached from a strong position through positions at least `low`. */
  ghost predicate Connected(edges: seq<real>, side: nat, low: real, high: real, p: Pos)
    requires |edges| == side * side
  {
    exists path :: IsTrail(edges, side, low, high, path) && path[|path| - 1] == p
  }

  /** Pixel p is white and opaque: all four channels 255. */
  predicate White(data: seq<byte>, side: nat, p: Pos)
    requires |data| == 4 * (side * side) && InImage(side, p)
  {
    AtBound(side, p);
    var k := 4 * At(side, p);
    data[k] == 255 && data[k + 1] == 255 && data[k + 2] == 255 && data[k + 3] == 255
  }

  /** Pixel p is untouched: all four channels 0. */
  predicate Black(data: seq<byte>, side: nat, p: Pos)
    requires |data| == 4 * (side * side) && InImage(side, p)
  {
    AtBound(side, p);
    var k := 4 * At(side, p);
    data[k] == 0 && data[k + 1] == 0 && data[k + 2] == 0 && data[k + 3] == 0
  }

  /** Pixel p has been visited. */
  predicate Visited(visited: seq<byte>, side: nat, p: Pos)
    requires |visited| == side * side && InImage(side, p)
  {
    AtBound(side, p);
    visited[At(side, p)] != 0
  }

  /** Pixel p has been visited and is at least `low`: the pixels trace paints. */
  predicate Marked(edges: seq<real>, side: nat, low: real, visited: seq<byte>, p: Pos)
    requires |edges| == side * side && |visited| == side * side && InImage(side, p)
  {
    Visited(visited, side, p) && Level(edges, side, p) >= low
  }

  /** The result holds white exactly at the marked pixels and zero everywhere else. */
  ghost predicate Painted(edges: seq<real>, side: nat, low: real, visited: seq<byte>, data: seq<byte>)
    requires |edges| == side * side
  {
    |visited| == side * side && |data| == 4 * (side * side) &&
    forall p :: InImage(side, p) ==>
      if Marked(edges, side, low, visited, p) then White(data, side, p) else Black(data, side, p)
  }

  /** Every marked pixel has a trail that ends at it, recorded in `paths`. */
  ghost predicate Explained(edges: seq<real>, side: nat, low: real, high: real, visited: seq<byte>, paths: map<Pos, seq<Pos>>)
    requires |edges| == side * side
  {
    |visited| == side * side &&
    forall p :: InImage(side, p) && Marked(edges, side, low, visited, p) ==>
      p in paths && IsTrail(edges, side, low, high, paths[p]) && paths[p][|paths[p]| - 1] == p
  }

  /**
   * Every position on the stack lies in the image and is either a strong
   * seed (an empty trail) or a neighbour of the end of its trail.
   */
  ghost predicate Pending(edges: seq<real>, side: nat, low: real, high: real, stack: seq<Pos>, trails: seq<seq<Pos>>)
    requires |edges| == side * side
  {
    |trails| == |stack| &&
    forall i :: 0 <= i < |stack| ==>
      InImage(side, stack[i]) &&
      (if trails[i] == [] then Level(edges, side, stack[i]) >= high
       else IsTrail(edges, side, low, high, trails[i]) && Adjacent(trails[i][|trails[i]| - 1], stack[i]))
  }

  /** The number of pixels not yet visited. */
  function Unvisited(visited: seq<byte>): nat {
    if |visited| == 0 then 0
    else Unvisited(visited[..|visited| - 1]) + (if visited[|visited| - 1] == 0 then 1 else 0)
  }

  /** Visiting a pixel leaves one pixel fewer to visit, so trace's loop ends. */
  lemma {:induction false} MarkUnvisited(visited: seq<byte>, k: int)
    requires 0 <= k < |visited| && visited[k] == 0
    ensures Unvisited(visited[k := 1]) == Unvisited(visited) - 1
  {
    var n := |visited|;
    if k == n - 1 {
      assert visited[k := 1][..n - 1] == visited[..n - 1];
    } else {
      assert visited[k := 1][..n - 1] == visited[..n - 1][k := 1];
      MarkUnvisited(visited[..n - 1], k);
    }
  }

  /** The in-image neighbours of (px, py) in row py + i, for the first n columns j = -1 .. n - 2. */
  function RowNeighbours(side: nat, px: int, py: int, i: int, n: nat): seq<Pos>
    requires n <= 3
  {
    if n == 0 then []
    else RowNeighbours(side, px, py, i, n - 1) + (if InImage(side, (px + n - 2, py + i)) then [(px + n - 2, py + i)] else [])
  }

  /** The in-image neighbours of (px, py) in the first m rows i = -1 .. m - 2. */
  function NeighbourRows(side: nat, px: int, py: int, m: nat): seq<Pos>
    requires m <= 3
  {
    if m == 0 then [] else NeighbourRows(side, px, py, m - 1) + RowNeighbours(side, px, py, m - 2, 3)
  }

  /** The positions trace pushes after painting (px, py), in push order (the pixel itself among them). */
  function NeighbourList(side: nat, px: int, py: int): seq<Pos> {
    NeighbourRows(side, px, py, 3)
  }

  /** A row's pushes are the in-image positions of that row next to (px, py). */
  lemma RowNeighboursOf(side: nat, px: int, py: int, i: int)
    ensures forall q :: q in RowNeighbours(side, px, py, i, 3) <==> InImage(side, q) && q.1 == py + i && -1 <= q.0 - px <= 1
  {
    assert RowNeighbours(side, px, py, i, 1) == (if InImage(side, (px - 1, py + i)) then [(px - 1, py + i)] else []);
    assert RowNeighbours(side, px, py, i, 2) == RowNeighbours(side, px, py, i, 1) + (if InImage(side, (px, py + i)) then [(px, py + i)] else []);
  }

  /** trace pushes exactly the in-image positions 8-connected to (px, py), the pixel itself included. */
  lemma NeighbourListOf(side: nat, px: int, py: int)
    ensures forall q :: q in NeighbourList(side, px, py) <==> InImage(side, q) && Adjacent((px, py), q)
  {
    RowNeighboursOf(side, px, py, -1);
    RowNeighboursOf(side, px, py, 0);
    RowNeighboursOf(side, px, py, 1);
    assert NeighbourRows(side, px, py, 1) == RowNeighbours(side, px, py, -1, 3);
    assert NeighbourRows(side, px, py, 2) == NeighbourRows(side, px, py, 1) + RowNeighbours(side, px, py, 0, 3);
  }

  /** The i/j loops of trace: every in-image neighbour of (px, py) pushed, row by row. */
  method PushNeighbours(side: nat, px: int, py: int, stack: seq<Pos>) returns (pushed: seq<Pos>)
    ensures pushed == stack + NeighbourList(side, px, py)
  {
    pushed := stack;
    var width, height := side, side;
    var i := -1;
    while i <= 1
      invariant -1 <= i <= 2
      invariant pushed == stack + NeighbourRows(side, px, py, i + 1)
    {
      var j := -1;
      while j <= 1
        invariant -1 <= j <= 2
        invariant pushed == stack + (NeighbourRows(side, px, py, i + 1) + RowNeighbours(side, px, py, i, j + 1))
      {
        var nx := px + j;
        var ny := py + i;
        if nx >= 0 && nx < width && ny >= 0 && ny < height {
          pushed := pushed + [(nx, ny)];
        }
        j := j + 1;
      }
      i := i + 1;
    }
  }

  /** A trail extended by a position at least `low` next to its end (or a strong seed on its own) is a trail. */
  lemma ExtendTrail(edges: seq<real>, side: nat, low: real, high: real, trail: seq<Pos>, p: Pos)
    requires |edges| == side * side && InImage(side, p) && Level(edges, side, p) >= low
    requires if trail == [] then Level(edges, side, p) >= high
      else IsTrail(edges, side, low, high, trail) && Adjacent(trail[|trail| - 1], p)
    ensures IsTrail(edges, side, low, high, trail + [p])
  {
    var path := trail + [p];
    forall i | 0 <= i < |path| - 1
      ensures Adjacent(path[i], path[i + 1])
    {
      if i < |trail| - 1 {
        assert path[i] == trail[i] && path[i + 1] == trail[i + 1];
      }
    }
  }

  /** Pushing the neighbours of the end of a trail keeps every stack entry explained. */
  lemma PushPending(edges: seq<real>, side: nat, low: real, high: real, stack: seq<Pos>, trails: seq<seq<Pos>>,
                    p: Pos, path: seq<Pos>, pushed: seq<Pos>, pushedTrails: seq<seq<Pos>>)
    requires |edges| == side * side && Pending(edges, side, low, high, stack, trails)
    requires IsTrail(edges, side, low, high, path) && path[|path| - 1] == p
    requires pushed == stack + NeighbourList(side, p.0, p.1)
    requires pushedTrails == trails + seq(|NeighbourList(side, p.0, p.1)|, _ => path)
    ensures Pending(edges, side, low, high, pushed, pushedTrails)
  {
    NeighbourListOf(side, p.0, p.1);
    forall k | 0 <= k < |pushed|
      ensures InImage(side, pushed[k]) &&
        if pushedTrails[k] == [] then Level(edges, side, pushed[k]) >= high
        else IsTrail(edges, side, low, high, pushedTrails[k]) && Adjacent(pushedTrails[k][|pushedTrails[k]| - 1], pushed[k])
    {
      if k < |stack| {
        assert pushed[k] == stack[k] && pushedTrails[k] == trails[k];
      } else {
        assert pushed[k] in NeighbourList(side, p.0, p.1);
      }
    }
  }

  /** The four bytes of pixel k set to 255. */
  function Paint(data: seq<byte>, k: int): seq<byte>
    requires 0 <= 4 * k && 4 * k + 4 <= |data|
  {
    data[4 * k := 255][4 * k + 1 := 255][4 * k + 2 := 255][4 * k + 3 := 255]
  }

  /** Visiting and painting pixel k leaves every other pixel as it was. */
  lemma OtherPixel(edges: seq<real>, side: nat, low: real, visited: seq<byte>, data: seq<byte>, k: int, q: Pos)
    requires |edges| == side * side && |visited| == side * side && |data| == 4 * (side * side)
    requires 0 <= k < side * side && InImage(side, q) && At(side, q) != k
    ensures 4 * k + 4 <= |data|
    ensures Marked(edges, side, low, visited[k := 1], q) == Marked(edges, side, low, visited, q)
    ensures White(Paint(data, k), side, q) == White(data, side, q) && Black(Paint(data, k), side, q) == Black(data, side, q)
  {
    AtBound(side, q);
  }

  /** Visiting an unvisited pixel p keeps the result painted: white when p is at least `low`, zero otherwise. */
  lemma MarkPainted(edges: seq<real>, side: nat, low: real, visited: seq<byte>, data: seq<byte>, p: Pos)
    requires |edges| == side * side && InImage(side, p)
    requires Painted(edges, side, low, visited, data) && !Visited(visited, side, p)
    ensures 0 <= At(side, p) < |visited| && 4 * At(side, p) + 4 <= |data|
    ensures Painted(edges, side, low, visited[At(side, p) := 1],
      if Level(edges, side, p) >= low then Paint(data, At(side, p)) else data)
  {
    AtBound(side, p);
    var k := At(side, p);
    var visited' := visited[k := 1];
    var data' := if Level(edges, side, p) >= low then Paint(data, k) else data;
    forall q | InImage(side, q)
      ensures if Marked(edges, side, low, visited', q) then White(data', side, q) else Black(data', side, q)
    {
      if q != p {
        AtInjective(side, p, q);
        OtherPixel(edges, side, low, visited, data, k, q);
      }
    }
  }

  /** Visiting an unvisited pixel p keeps every marked pixel explained, p by `path` when it is at least `low`. */
  lemma MarkExplained(edges: seq<real>, side: nat, low: real, high: real, visited: seq<byte>,
                      paths: map<Pos, seq<Pos>>, p: Pos, path: seq<Pos>)
    requires |edges| == side * side && InImage(side, p)
    requires Explained(edges, side, low, high, visited, paths)
    requires Level(edges, side, p) >= low ==> IsTrail(edges, side, low, high, path) && path[|path| - 1] == p
    ensures 0 <= At(side, p) < |visited|
    ensures Explained(edges, side, low, high, visited[At(side, p) := 1],
      if Level(edges, side, p) >= low then paths[p := path] else paths)
  {
    AtBound(side, p);
    var k := At(side, p);
    var visited' := visited[k := 1];
    var paths' := if Level(edges, side, p) >= low then paths[p := path] else paths;
    forall q | InImage(side, q) && Marked(edges, side, low, visited', q)
      ensures q in paths' && IsTrail(edges, side, low, high, paths'[q]) && paths'[q][|paths'[q]| - 1] == q
    {
      if q != p {
        AtInjective(side, p, q);
        AtBound(side, q);
        assert visited'[At(side, q)] == visited[At(side, q)];
      }
    }
  }

  /** Visiting pixel k leaves every visited pixel visited and adds the pixel at k. */
  lemma VisitKeeps(visited: seq<byte>, side: nat, k: int, q: Pos)
    requires |visited| == side * side && 0 <= k < side * side && InImage(side, q)
    ensures Visited(visited[k := 1], side, q) == (Visited(visited, side, q) || At(side, q) == k)
  {
    AtBound(side, q);
  }

  /**
   * One pass of trace's loop on an unvisited position `top`: it is marked
   * visited, and when at least `low` it is painted white and its in-image
   * neighbours are pushed, each remembering the trail that reached `top`.
   */
  method Visit(edges: seq<real>, side: nat, low: real, high: real, visited: array<byte>, data: array<byte>,
               top: Pos, ghost trail: seq<Pos>, ghost paths: map<Pos, seq<Pos>>, stack: seq<Pos>, ghost trails: seq<seq<Pos>>)
    returns (stack': seq<Pos>, ghost trails': seq<seq<Pos>>, ghost paths': map<Pos, seq<Pos>>)
    requires |edges| == side * side && InImage(side, top)
    requires Painted(edges, side, low, visited[..], data[..]) && Explained(edges, side, low, high, visited[..], paths)
    requires Pending(edges, side, low, high, stack, trails) && !Visited(visited[..], side, top)
    requires if trail == [] then Level(edges, side, top) >= high
      else IsTrail(edges, side, low, high, trail) && Adjacent(trail[|trail| - 1], top)
    modifies visited, data
    ensures Painted(edges, side, low, visited[..], data[..]) && Explained(edges, side, low, high, visited[..], paths')
    ensures Pending(edges, side, low, high, stack', trails')
    ensures 0 <= At(side, top) < visited.Length && visited[..] == old(visited[..])[At(side, top) := 1]
  {
    var width := side;
    var px, py := top.0, top.1;
    var idx := py * width + px;
    AtBound(side, top);
    ghost var path := trail + [top];
    if edges[idx] >= low {
      ExtendTrail(edges, side, low, high, trail, top);
    }
    MarkPainted(edges, side, low, visited[..], data[..], top);
    MarkExplained(edges, side, low, high, visited[..], paths, top, path);
    ghost var data0 := data[..];
    visited[idx] := 1;
    stack', trails', paths' := stack, trails, paths;
    if edges[idx] >= low {
      var resultIdx := idx * 4;
      data[resultIdx] := 255;
      data[resultIdx + 1] := 255;
      data[resultIdx + 2] := 255;
      data[resultIdx + 3] := 255;
      assert data[..] == Paint(data0, idx);
      paths' := paths[top := path];
      stack' := PushNeighbours(side, px, py, stack);
      trails' := trails + seq(|NeighbourList(side, px, py)|, _ => path);
      PushPending(edges, side, low, high, stack, trails, top, path, stack', trails');
    }
  }

  /**
   * trace, started at a strong pixel: pops positions until the stack is
   * empty and visits each one not yet visited. The seed ends visited, no
   * visited pixel is unvisited again, and the result stays painted and
   * explained.
   */
  method Trace(edges: seq<real>, side: nat, low: real, high: real, visited: array<byte>, data: array<byte>,
               x: int, y: int, ghost before: map<Pos, seq<Pos>>) returns (ghost paths: map<Pos, seq<Pos>>)
    requires |edges| == side * side && InImage(side, (x, y)) && Level(edges, side, (x, y)) >= high
    requires Painted(edges, side, low, visited[..], data[..]) && Explained(edges, side, low, high, visited[..], before)
    modifies visited, data
    ensures Painted(edges, side, low, visited[..], data[..]) && Explained(edges, side, low, high, visited[..], paths)
    ensures |visited[..]| == side * side && Visited(visited[..], side, (x, y))
    ensures forall k :: 0 <= k < visited.Length && old(visited[k]) != 0 ==> visited[k] != 0
  {
    paths := before;
    var width := side;
    var stack: seq<Pos> := [(x, y)];
    ghost var trails: seq<seq<Pos>> := [[]];
    while |stack| > 0
      invariant Pending(edges, side, low, high, stack, trails)
      invariant Painted(edges, side, low, visited[..], data[..]) && Explained(edges, side, low, high, visited[..], paths)
      invariant Visited(visited[..], side, (x, y)) || (stack == [(x, y)] && trails == [[]])
      invariant forall k :: 0 <= k < visited.Length && old(visited[k]) != 0 ==> visited[k] != 0
      decreases Unvisited(visited[..]), |stack|
    {
      var top := stack[|stack| - 1];
      ghost var trail := trails[|trails| - 1];
      assert InImage(side, top);
      stack := stack[..|stack| - 1];
      trails := trails[..|trails| - 1];
      var idx := top.1 * width + top.0;
      AtBound(side, top);
      if visited[idx] != 0 {
        continue;
      }
      ghost var v0 := visited[..];
      MarkUnvisited(v0, idx);
      VisitKeeps(v0, side, idx, (x, y));
      stack, trails, paths := Visit(edges, side, low, high, visited, data, top, trail, paths, stack, trails);
    }
  }

  /**
   * What hysteresis promises of its result: every pixel is white or zero in
   * all four channels; a white pixel is at least `low` and is reached from
   * a pixel at least `high` through 8-connected pixels at least `low`; and
   * when `low` ≤ `high`, every pixel at least `high` is white.
   */
  ghost predicate Hysteresised(edges: seq<real>, side: nat, low: real, high: real, data: seq<byte>)
    requires |edges| == side * side && |data| == 4 * (side * side)
  {
    (forall p :: InImage(side, p) ==> White(data, side, p) || Black(data, side, p)) &&
    (forall p :: InImage(side, p) && White(data, side, p) ==>
      Level(edges, side, p) >= low && Connected(edges, side, low, high, p)) &&
    (low <= high ==> forall p :: InImage(side, p) && Level(edges, side, p) >= high ==> White(data, side, p))
  }

  /** Once every strong pixel is visited, a painted and explained result meets hysteresis's promise. */
  lemma Outcome(edges: seq<real>, side: nat, low: real, high: real, visited: seq<byte>, data: seq<byte>, paths: map<Pos, seq<Pos>>)
    requires |edges| == side * side
    requires Painted(edges, side, low, visited, data) && Explained(edges, side, low, high, visited, paths)
    requires forall k :: 0 <= k < side * side && edges[k] >= high ==> visited[k] != 0
    ensures Hysteresised(edges, side, low, high, data)
  {
    forall p | InImage(side, p) && White(data, side, p)
      ensures Level(edges, side, p) >= low && Connected(edges, side, low, high, p)
    {
      AtBound(side, p);
      assert Marked(edges, side, low, visited, p);
      assert IsTrail(edges, side, low, high, paths[p]);
    }
    if low <= high {
      forall p | InImage(side, p) && Level(edges, side, p) >= high
        ensures White(data, side, p)
      {
        AtBound(side, p);
        assert Marked(edges, side, low, visited, p);
      }
    }
  }

  /** Before any trace, nothing is visited, painted or explained. */
  lemma NothingPainted(edges: seq<real>, side: nat, low: real, high: real, visited: seq<byte>, data: seq<byte>)
    requires |edges| == side * side && |visited| == side * side && |data| == 4 * (side * side)
    requires forall k :: 0 <= k < |visited| ==> visited[k] == 0
    requires forall k :: 0 <= k < |data| ==> data[k] == 0
    ensures Painted(edges, side, low, visited, data) && Explained(edges, side, low, high, visited, map[])
  {
    forall p | InImage(side, p)
      ensures !Marked(edges, side, low, visited, p) && Black(data, side, p)
    {
      AtBound(side, p);
    }
  }

  /** The body of hysteresis's x loop: trace from (x, y) when it is unvisited and at least `high`. */
  method Seed(edges: seq<real>, side: nat, low: real, high: real, visited: array<byte>, data: array<byte>,
              x: int, y: int, ghost paths: map<Pos, seq<Pos>>) returns (ghost paths': map<Pos, seq<Pos>>)
    requires |edges| == side * side && InImage(side, (x, y))
    requires Painted(edges, side, low, visited[..], data[..]) && Explained(edges, side, low, high, visited[..], paths)
    requires forall k :: 0 <= k < |edges| && k < PixelIndex(side, y, x) && edges[k] >= high ==> visited[k] != 0
    modifies visited, data
    ensures Painted(edges, side, low, visited[..], data[..]) && Explained(edges, side, low, high, visited[..], paths')
    ensures forall k :: 0 <= k < |edges| && k <= PixelIndex(side, y, x) && edges[k] >= high ==> visited[k] != 0
  {
    paths' := paths;
    var width := side;
    var idx := y * width + x;
    AtBound(side, (x, y));
    if visited[idx] == 0 && edges[idx] >= high {
      paths' := Trace(edges, side, low, high, visited, data, x, y, paths);
    }
  }

  /**
   * hysteresis on a side × side edge map: `new ImageData(side, side)`
   * (which throws IndexSizeError when the side is 0), then trace from every
   * unvisited pixel at least `high`, row by row. The source takes width =
   * height = √(edges.length); `side` is that width.
   */
  method Hysteresis(edges: seq<real>, side: nat, low: real, high: real) returns (r: Result<ImageData, Error>)
    requires |edges| == side * side
    ensures side == 0 <==> r == Failure(ZeroSizeError)
    ensures r.Success? ==>
      r.value.width == side && r.value.height == side && WellFormed(r.value) &&
      Hysteresised(edges, side, low, high, r.value.data)
  {
    var width := side;
    var height := side;
    if width == 0 {
      return Failure(ZeroSizeError);
    }
    var data := new byte[4 * (width * height)](_ => 0);
    var visited := new byte[width * height](_ => 0);
    ghost var paths: map<Pos, seq<Pos>> := map[];
    NothingPainted(edges, side, low, high, visited[..], data[..]);
    var y := 0;
    while y < height
      invariant 0 <= y <= height
      invariant Painted(edges, side, low, visited[..], data[..]) && Explained(edges, side, low, high, visited[..], paths)
      invariant forall k :: 0 <= k < |edges| && k < PixelIndex(width, y, 0) && edges[k] >= high ==> visited[k] != 0
    {
      var x := 0;
      while x < width
        invariant 0 <= x <= width
        invariant Painted(edges, side, low, visited[..], data[..]) && Explained(edges, side, low, high, visited[..], paths)
        invariant forall k :: 0 <= k < |edges| && k < PixelIndex(width, y, x) && edges[k] >= high ==> visited[k] != 0
      {
        paths := Seed(edges, side, low, high, visited, data, x, y, paths);
        x := x + 1;
      }
      assert PixelIndex(width, y, width) == PixelIndex(width, y + 1, 0);
      y := y + 1;
    }
    Outcome(edges, side, low, high, visited[..], data[..], paths);
    return Success(ImageData(width, height, data[..]));
  }
}
