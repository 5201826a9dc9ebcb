/**
 * The contour stage of the conversion pipeline: findContours walks the
 * edge image, where a pixel is an edge pixel when its red byte exceeds 128,
 * and smoothContour blends every point of a contour with the mean of itself
 * and its two neighbours around the closed contour.
 *
 * The walk and the scan are the ones of the Tracing module, with a walk
 * allowed to start at any pixel and the walks of fewer than three points
 * dropped. The module's simplifyContour and perpendicularDistance are the
 * ones of contour-optimizer, modelled by ContourOptimizer.
 */
module ContourAlgorithms {
  import opened Numeric
  import opened Types
  import opened Raster
  import opened Tracing

  /** `imageData.data[idx] > 128`: the red byte of the pixel exceeds 128. */
  function RedAbove128(img: ImageData): Pos -> bool {
    (p: Pos) => Sample(img, p.1, p.0, 0) > 128
  }

  /** findContours tries every pixel of the image as a start. */
  const Anywhere: Pos -> bool := (p: Pos) => true

  /** Contours of fewer points than this are dropped. */
  const MinContourLength: nat := 3

  /** The raw contours findContours keeps: the scan over the whole image. */
  function Contours(img: ImageData): seq<seq<Pos>> {
    ScanBefore(img.width, img.height, RedAbove128(img), Anywhere, MinContourLength, img.width * img.height).contours
  }

  /**
   * `findContours(imageData)`: the raster scan with its shared visited set,
   * keeping the traced contours of at least three points.
   */
  method FindContours(img: ImageData) returns (contours: seq<seq<Point>>)
    requires WellFormed(img)
    ensures contours == AllAsPoints(Contours(img))
  {
    var w, h := img.width, img.height;
    contours := [];
    var visited: set<Pos> := {};
    ghost var kept: seq<seq<Pos>> := [];
    ghost var n: nat := 0;
    var y := 0;
    while y < h
      invariant 0 <= y <= h
      invariant n == PixelIndex(w, y, 0) && n <= w * h
      invariant Scan(kept, visited) == ScanBefore(w, h, RedAbove128(img), Anywhere, MinContourLength, n)
      invariant contours == AllAsPoints(kept)
    {
      var x := 0;
      while x < w
        invariant 0 <= x <= w
        invariant n == PixelIndex(w, y, x) && n <= w * h
        invariant Scan(kept, visited) == ScanBefore(w, h, RedAbove128(img), Anywhere, MinContourLength, n)
        invariant contours == AllAsPoints(kept)
      {
        PixelIndexBound(w, h, y, x);
        kept, visited, contours := ScanPixel(img, y, x, n, kept, visited, contours);
        n := n + 1;
        x := x + 1;
      }
      assert n == PixelIndex(w, y + 1, 0) <= w * h by {
        MulLe(w, y + 1, h);
      }
      y := y + 1;
    }
  }

  /** The body of findContours' inner loop: pixel (x, y), the n-th of the scan. */
  method ScanPixel(img: ImageData, y: nat, x: nat, ghost n: nat, ghost kept: seq<seq<Pos>>, visited: set<Pos>, contours: seq<seq<Point>>)
    returns (ghost kept': seq<seq<Pos>>, visited': set<Pos>, contours': seq<seq<Point>>)
    requires WellFormed(img) && y < img.height && x < img.width
    requires n == PixelIndex(img.width, y, x) && n < img.width * img.height
    requires Scan(kept, visited) == ScanBefore(img.width, img.height, RedAbove128(img), Anywhere, MinContourLength, n)
    requires contours == AllAsPoints(kept)
    ensures Scan(kept', visited') == ScanBefore(img.width, img.height, RedAbove128(img), Anywhere, MinContourLength, n + 1)
    ensures contours' == AllAsPoints(kept')
  {
    var w, h := img.width, img.height;
    ScanStep(w, h, RedAbove128(img), Anywhere, MinContourLength, y, x);
    SampleInside(img, y, x, 0);
    kept', visited', contours' := kept, visited, contours;
    var pixel := y * w + x;
    var idx := pixel * 4;
    assert idx == PixelIndex(w, y, x) * 4;
    if img.data[idx] > 128 && (x, y) !in visited {
      var contour;
      contour, visited' := TraceContour(w, h, RedAbove128(img), (x, y), visited);
      if |contour| >= MinContourLength {
        AllAsPointsSnoc(kept, contour);
        contours' := contours + [AsPoints(contour)];
        kept' := kept + [contour];
      }
    }
  }

  /**
   * What findContours returns: every contour has at least three points;
   * every point is a pixel of the image whose red byte exceeds 128;
   * consecutive points are distinct 8-neighbours; no pixel occurs twice in
   * one contour or in two; and the contours start in strictly increasing
   * raster order.
   */
  lemma ContoursOfImage(img: ImageData)
    requires WellFormed(img)
    ensures var cs := Contours(img);
      (forall i :: 0 <= i < |cs| ==> |cs[i]| >= 3) &&
      (forall i, k :: 0 <= i < |cs| && 0 <= k < |cs[i]| ==>
        InGrid(img.width, img.height, cs[i][k]) && Sample(img, cs[i][k].1, cs[i][k].0, 0) > 128) &&
      (forall i, k :: 0 <= i < |cs| && 1 <= k < |cs[i]| ==> Adjacent(cs[i][k - 1], cs[i][k]) && cs[i][k - 1] != cs[i][k]) &&
      Disjoint(cs) &&
      (forall i, j :: 0 <= i < j < |cs| ==> RasterIndex(img.width, cs[i][0]) < RasterIndex(img.width, cs[j][0]))
  {
    var w, h := img.width, img.height;
    if w * h == 0 {
      assert Contours(img) == [];
    } else {
      PixelOf(w, h, 0);
      ScanIsGood(w, h, RedAbove128(img), Anywhere, MinContourLength, w * h);
      var cs := Contours(img);
      assert AllChained(RedAbove128(img), cs);
      forall i, k | 0 <= i < |cs| && 1 <= k < |cs[i]|
        ensures Adjacent(cs[i][k - 1], cs[i][k]) && cs[i][k - 1] != cs[i][k]
      {
        assert Chained(RedAbove128(img), cs[i]);
      }
    }
  }

  // ---------------------------------------------------------------------
  // smoothContour

  /** `points[(i + d + points.length) % points.length]`: the point d steps from i around the closed contour. */
  function Around(points: seq<Point>, i: nat, d: int): Point
    requires 0 <= i < |points| && -1 <= d <= 1
  {
    Wrap(i + d + |points|, |points|);
    points[(i + d + |points|) % |points|]
  }

  /** The sum of the points at offsets -1 .. j - 1 from i, around the closed contour. */
  function WindowSum(points: seq<Point>, i: nat, j: int): Point
    requires 0 <= i < |points| && -1 <= j <= 2
    decreases j + 1
  {
    if j == -1 then Point(0.0, 0.0)
    else
      var q := Around(points, i, j - 1);
      var s := WindowSum(points, i, j - 1);
      Point(s.x + q.x, s.y + q.y)
  }

  /** Point i blended with its window mean: `p (1 - factor) + (sum / count) factor`. */
  function Blend(points: seq<Point>, factor: real, i: nat): Point
    requires 0 <= i < |points|
  {
    var s := WindowSum(points, i, 2);
    Point(Mix(points[i].x, s.x / 3.0, factor), Mix(points[i].y, s.y / 3.0, factor))
  }

  /** One coordinate moved towards the window mean: `v * (1 - factor) + mean * factor`. */
  function Mix(v: real, mean: real, factor: real): real {
    v * (1.0 - factor) + mean * factor
  }

  /** `smoothContour(points, factor)`: two points or fewer stay as they are. */
  function Smooth(points: seq<Point>, factor: real): seq<Point> {
    if |points| <= 2 then points
    else seq(|points|, i requires 0 <= i < |points| => Blend(points, factor, i))
  }

  /** The push loop of smoothContour. */
  method SmoothContour(points: seq<Point>, factor: real) returns (smoothed: seq<Point>)
    ensures smoothed == Smooth(points, factor)
  {
    if |points| <= 2 {
      return points;
    }
    smoothed := [];
    var i := 0;
    while i < |points|
      invariant 0 <= i <= |points|
      invariant |smoothed| == i
      invariant forall k :: 0 <= k < i ==> smoothed[k] == Blend(points, factor, k)
    {
      var sumX, sumY, count := Window(points, i);
      var p := Point(Mix(points[i].x, sumX / count as real, factor), Mix(points[i].y, sumY / count as real, factor));
      assert count as real == 3.0;
      assert sumX / count as real == WindowSum(points, i, 2).x / 3.0 && sumY / count as real == WindowSum(points, i, 2).y / 3.0;
      smoothed := smoothed + [p];
      i := i + 1;
    }
  }

  /** The window loop of smoothContour: the sums over offsets -halfWindow .. halfWindow, and their count. */
  method Window(points: seq<Point>, i: nat) returns (sumX: real, sumY: real, count: nat)
    requires 0 <= i < |points|
    ensures Point(sumX, sumY) == WindowSum(points, i, 2) && count == 3
  {
    var windowSize := 3;
    var halfWindow := windowSize / 2;
    sumX, sumY, count := 0.0, 0.0, 0;
    var j := -halfWindow;
    while j <= halfWindow
      invariant -1 <= j <= 2
      invariant Point(sumX, sumY) == WindowSum(points, i, j) && count == j + 1
    {
      Wrap(i + j + |points|, |points|);
      var idx := (i + j + |points|) % |points|;
      sumX := sumX + points[idx].x;
      sumY := sumY + points[idx].y;
      count := count + 1;
      j := j + 1;
    }
  }

  /** The point before i around the closed contour. */
  function Before(points: seq<Point>, i: nat): Point
    requires 0 <= i < |points|
  {
    if i == 0 then points[|points| - 1] else points[i - 1]
  }

  /** The point after i around the closed contour. */
  function After(points: seq<Point>, i: nat): Point
    requires 0 <= i < |points|
  {
    if i == |points| - 1 then points[0] else points[i + 1]
  }

  /** The window of point i is its circular neighbours and itself. */
  lemma WindowOf(points: seq<Point>, i: nat)
    requires 3 <= |points| && 0 <= i < |points|
    ensures var s := WindowSum(points, i, 2);
      s.x == Before(points, i).x + points[i].x + After(points, i).x &&
      s.y == Before(points, i).y + points[i].y + After(points, i).y
  {
    AroundIs(points, i, -1);
    AroundIs(points, i, 0);
    AroundIs(points, i, 1);
  }

  /** One step back is the point before, no step is the point itself, one step on is the point after. */
  lemma AroundIs(points: seq<Point>, i: nat, d: int)
    requires 0 <= i < |points| && -1 <= d <= 1
    ensures Around(points, i, d) == if d == -1 then Before(points, i) else if d == 0 then points[i] else After(points, i)
  {
    Wrap(i + d + |points|, |points|);
  }

  /** `(i + j + length) % length` for an offset j of at most one either way. */
  lemma Wrap(a: int, n: int)
    requires 0 < n && n - 1 <= a <= 2 * n
    ensures a % n == if a < n then a else if a < 2 * n then a - n else 0
  {
    if a < n {
      DivModUnique(a, n, 0, a);
    } else if a < 2 * n {
      DivModUnique(a, n, 1, a - n);
    } else {
      DivModUnique(a, n, 2, 0);
    }
  }

  /**
   * smoothContour keeps the number of points; with factor 0 it changes
   * nothing; with factor 1 every point becomes the mean of its circular
   * neighbours and itself; and a contour of two points or fewer is returned
   * as it is.
   */
  lemma SmoothProperties(points: seq<Point>, factor: real)
    ensures |Smooth(points, factor)| == |points|
    ensures factor == 0.0 ==> Smooth(points, factor) == points
    ensures |points| <= 2 ==> Smooth(points, factor) == points
    ensures factor == 1.0 && |points| >= 3 ==> forall i :: 0 <= i < |points| ==>
      Smooth(points, factor)[i] == Point((Before(points, i).x + points[i].x + After(points, i).x) / 3.0,
                                         (Before(points, i).y + points[i].y + After(points, i).y) / 3.0)
  {
    if |points| >= 3 {
      forall i | 0 <= i < |points|
        ensures Blend(points, 0.0, i) == points[i]
        ensures Blend(points, 1.0, i) == Point((Before(points, i).x + points[i].x + After(points, i).x) / 3.0,
                                              (Before(points, i).y + points[i].y + After(points, i).y) / 3.0)
      {
        WindowOf(points, i);
      }
    }
  }

  /** A contour whose points all coincide is left as it is, whatever the factor. */
  lemma SmoothFixesConstant(points: seq<Point>, factor: real)
    requires forall i :: 0 <= i < |points| ==> points[i] == points[0]
    ensures Smooth(points, factor) == points
  {
    if |points| >= 3 {
      forall i | 0 <= i < |points|
        ensures Blend(points, factor, i) == points[i]
      {
        WindowOf(points, i);
        var p := points[0];
        assert Blend(points, factor, i) == Point(p.x * (1.0 - factor) + ((p.x + p.x + p.x) / 3.0) * factor,
                                                 p.y * (1.0 - factor) + ((p.y + p.y + p.y) / 3.0) * factor);
      }
    }
  }
}
