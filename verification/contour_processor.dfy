/**
 * The contour processor: traceContours walks every pixel of an edge image
 * whose red byte is exactly 255, keeps the walks of at least three points
 * and thins each one greedily, dropping every point closer than 1.0 to the
 * point kept before it and closing the contour with a copy of its first
 * point when its ends are 1.0 or more apart. Finding no contour gives an
 * empty list.
 *
 * The walk and the scan are the ones of the Tracing module, with a walk
 * allowed to start at any pixel.
 */
module ContourProcessor {
  import opened Numeric
  import opened Types
  import opened Raster
  import opened Tracing

  /** `edgeData.data[idx] === 255`: the red byte of the pixel is 255. */
  function RedIs255(img: ImageData): Pos -> bool {
    (p: Pos) => Sample(img, p.1, p.0, 0) == 255
  }

  /** traceContours tries every pixel of the image as a start. */
  const Anywhere: Pos -> bool := (p: Pos) => true

  /** Contours of fewer points than this are dropped. */
  const MinContourLength: nat := 3

  /** The distance below which simplifyContour drops a point. */
  const Tolerance: real := 1.0

  /** The raw contours traceContours keeps: the scan over the whole image. */
  function RawContours(img: ImageData): seq<seq<Pos>> {
    ScanBefore(img.width, img.height, RedIs255(img), Anywhere, MinContourLength, img.width * img.height).contours
  }

  // ---------------------------------------------------------------------
  // distance and simplifyContour

  /** The squared length of the segment from p1 to p2. */
  function SquaredDistance(p1: Point, p2: Point): real {
    (p2.x - p1.x) * (p2.x - p1.x) + (p2.y - p1.y) * (p2.y - p1.y)
  }

  /** `distance(p1, p2)`: the square root of dx² + dy². */
  function Distance(math: MathLib, p1: Point, p2: Point): real {
    math.sqrt(SquaredDistance(p1, p2))
  }

  /** The distance does not depend on which point is first. */
  lemma DistanceSymmetric(math: MathLib, p1: Point, p2: Point)
    ensures Distance(math, p1, p2) == Distance(math, p2, p1)
  {
    assert SquaredDistance(p1, p2) == SquaredDistance(p2, p1) by {
      assert (p2.x - p1.x) * (p2.x - p1.x) == (p1.x - p2.x) * (p1.x - p2.x);
      assert (p2.y - p1.y) * (p2.y - p1.y) == (p1.y - p2.y) * (p1.y - p2.y);
    }
  }

  /** With a true square root, a distance reaches the tolerance exactly when its square reaches 1. */
  lemma DistanceMeaning(math: MathLib, p1: Point, p2: Point)
    requires IsSqrt(math.sqrt)
    ensures Distance(math, p1, p2) >= Tolerance <==> SquaredDistance(p1, p2) >= 1.0
  {
    var dx, dy := p2.x - p1.x, p2.y - p1.y;
    assert dx * dx >= 0.0 && dy * dy >= 0.0;
    SquareCompare(Distance(math, p1, p2), SquaredDistance(p1, p2), 1.0);
  }

  /**
   * The points of `rest` that the greedy loop keeps after `last`: a point
   * is kept when it is at least the tolerance away from the point kept
   * before it, and then becomes that point.
   */
  function Thin(math: MathLib, last: Point, rest: seq<Point>): seq<Point>
    decreases |rest|
  {
    if rest == [] then []
    else if Distance(math, last, rest[0]) >= Tolerance then [rest[0]] + Thin(math, rest[0], rest[1..])
    else Thin(math, last, rest[1..])
  }

  /** What simplifyContour returns: the first point, the greedily kept points, and the closing copy of the first point. */
  function Simplified(math: MathLib, points: seq<Point>): seq<Point> {
    if |points| <= 2 then points
    else
      var kept := [points[0]] + Thin(math, points[0], points[1..]);
      if Distance(math, kept[0], kept[|kept| - 1]) >= Tolerance then kept + [kept[0]] else kept
  }

  /** `simplifyContour(points)`: the loop over the points with the last kept point, then the closing step. */
  method SimplifyContour(math: MathLib, points: seq<Point>) returns (simplified: seq<Point>)
    ensures simplified == Simplified(math, points)
  {
    if |points| <= 2 {
      return points;
    }
    simplified := [points[0]];
    var lastPoint := points[0];
    var i := 1;
    while i < |points|
      invariant 1 <= i <= |points|
      invariant |simplified| >= 1 && simplified[0] == points[0] && lastPoint == simplified[|simplified| - 1]
      invariant simplified + Thin(math, lastPoint, points[i..]) == [points[0]] + Thin(math, points[0], points[1..])
    {
      var point := points[i];
      assert points[i..] == [point] + points[i + 1..];
      var distance := Distance(math, lastPoint, point);
      if distance >= Tolerance {
        simplified := simplified + [point];
        lastPoint := point;
      }
      i := i + 1;
    }
    assert points[i..] == [];
    var first := simplified[0];
    var last := simplified[|simplified| - 1];
    if Distance(math, first, last) >= Tolerance {
      simplified := simplified + [first];
    }
  }

  /** t is a subsequence of s: its points occur in s in the same order. */
  predicate IsSubsequence(t: seq<Point>, s: seq<Point>)
    decreases |s|
  {
    if t == [] then true
    else if s == [] then false
    else if t[0] == s[0] then IsSubsequence(t[1..], s[1..])
    else IsSubsequence(t, s[1..])
  }

  /** A subsequence of the tail of s is a subsequence of s. */
  lemma {:induction false} SubsequenceOfTail(t: seq<Point>, s: seq<Point>)
    requires s != [] && IsSubsequence(t, s[1..])
    ensures IsSubsequence(t, s)
    decreases |s|
  {
    if t != [] && t[0] == s[0] {
      if |s| > 1 {
        var u := s[1..];
        if t[0] == u[0] {
          assert IsSubsequence(t[1..], u[1..]);
          assert u[1..] == s[1..][1..];
          SubsequenceOfTail(t[1..], s[1..]);
        } else {
          assert IsSubsequence(t, u[1..]);
          SubsequenceOfTail(t, u);
          assert u[1..] == s[2..];
          SubsequenceOfTail(t[1..], s[1..]) by {
            SubsequenceOfFull(t, u);
          }
        }
      }
    }
  }

  /** Dropping the first point of a subsequence keeps it a subsequence. */
  lemma {:induction false} SubsequenceOfFull(t: seq<Point>, s: seq<Point>)
    requires t != [] && IsSubsequence(t, s)
    ensures s != [] && IsSubsequence(t[1..], s[1..])
    decreases |s|
  {
    if t[0] != s[0] {
      SubsequenceOfFull(t, s[1..]);
      SubsequenceOfTail(t[1..], s[1..]);
    }
  }

  /** The greedily kept points are a subsequence of the points offered. */
  lemma {:induction false} ThinIsSubsequence(math: MathLib, last: Point, rest: seq<Point>)
    ensures IsSubsequence(Thin(math, last, rest), rest)
    decreases |rest|
  {
    if rest != [] {
      ThinIsSubsequence(math, rest[0], rest[1..]);
      ThinIsSubsequence(math, last, rest[1..]);
      if Distance(math, last, rest[0]) < Tolerance {
        SubsequenceOfTail(Thin(math, last, rest[1..]), rest);
      } else {
        var t := Thin(math, last, rest);
        assert t[1..] == Thin(math, rest[0], rest[1..]);
      }
    }
  }

  /** Consecutive points of s are at least the tolerance apart. */
  predicate Spaced(math: MathLib, s: seq<Point>) {
    forall k :: 1 <= k < |s| ==> Distance(math, s[k - 1], s[k]) >= Tolerance
  }

  /** A point at least the tolerance from the first point of a spaced sequence extends it in front. */
  lemma SpacedCons(math: MathLib, p: Point, s: seq<Point>)
    requires Spaced(math, s) && (s != [] ==> Distance(math, p, s[0]) >= Tolerance)
    ensures Spaced(math, [p] + s)
  {
    var t := [p] + s;
    forall k | 2 <= k < |t|
      ensures Distance(math, t[k - 1], t[k]) >= Tolerance
    {
      assert t[k - 1] == s[k - 2] && t[k] == s[k - 1];
    }
  }

  /** `last` followed by the points kept after it is spaced. */
  lemma {:induction false} ThinSpaced(math: MathLib, last: Point, rest: seq<Point>)
    ensures Spaced(math, [last] + Thin(math, last, rest))
    decreases |rest|
  {
    if rest != [] {
      if Distance(math, last, rest[0]) >= Tolerance {
        ThinSpaced(math, rest[0], rest[1..]);
        SpacedCons(math, last, [rest[0]] + Thin(math, rest[0], rest[1..]));
      } else {
        ThinSpaced(math, last, rest[1..]);
      }
    }
  }

  /** Nothing is kept after `last` exactly when every point offered is closer to it than the tolerance. */
  lemma {:induction false} ThinNothing(math: MathLib, last: Point, rest: seq<Point>)
    ensures Thin(math, last, rest) == [] <==> forall j :: 0 <= j < |rest| ==> Distance(math, last, rest[j]) < Tolerance
    decreases |rest|
  {
    if rest != [] {
      ThinNothing(math, last, rest[1..]);
      assert forall j :: 1 <= j < |rest| ==> rest[j] == rest[1..][j - 1];
    }
  }

  /**
   * What simplifyContour promises: input of at most two points comes back
   * unchanged; otherwise the result starts with the first point, every
   * point is at least the tolerance from the one before it, the result
   * either ends with a copy of the first point or its ends are closer than
   * the tolerance, and the points before the closing copy are the first
   * point followed by a subsequence of the rest.
   */
  lemma SimplifiedShape(math: MathLib, points: seq<Point>)
    ensures |points| <= 2 ==> Simplified(math, points) == points
    ensures |points| > 2 ==>
      var r := Simplified(math, points);
      |r| >= 1 && r[0] == points[0] &&
      (forall k :: 1 <= k < |r| ==> Distance(math, r[k - 1], r[k]) >= Tolerance) &&
      ((|r| >= 2 && r[|r| - 1] == points[0]) || Distance(math, r[0], r[|r| - 1]) < Tolerance)
    ensures |points| > 2 ==>
      var kept := [points[0]] + Thin(math, points[0], points[1..]);
      Simplified(math, points)[..|kept|] == kept && IsSubsequence(kept[1..], points[1..])
  {
    if |points| > 2 {
      var kept := [points[0]] + Thin(math, points[0], points[1..]);
      ThinSpaced(math, points[0], points[1..]);
      ThinIsSubsequence(math, points[0], points[1..]);
      assert kept[1..] == Thin(math, points[0], points[1..]);
      if Distance(math, kept[0], kept[|kept| - 1]) >= Tolerance {
        ClosingSpaced(math, kept);
        assert Simplified(math, points) == kept + [kept[0]];
        assert (kept + [kept[0]])[..|kept|] == kept;
      }
    }
  }

  /** Closing a spaced sequence whose ends are the tolerance apart keeps it spaced. */
  lemma ClosingSpaced(math: MathLib, kept: seq<Point>)
    requires |kept| >= 1 && Spaced(math, kept) && Distance(math, kept[0], kept[|kept| - 1]) >= Tolerance
    ensures Spaced(math, kept + [kept[0]])
  {
    var r := kept + [kept[0]];
    forall k | 1 <= k < |r|
      ensures Distance(math, r[k - 1], r[k]) >= Tolerance
    {
      if k < |kept| {
        assert r[k - 1] == kept[k - 1] && r[k] == kept[k];
      } else {
        assert r[k - 1] == kept[|kept| - 1] && r[k] == kept[0];
        DistanceSymmetric(math, kept[0], kept[|kept| - 1]);
      }
    }
  }

  // ---------------------------------------------------------------------
  // traceContours

  /** Every kept walk, as points, simplified. */
  function SimplifyAll(math: MathLib, cs: seq<seq<Pos>>): seq<seq<Point>> {
    seq(|cs|, i requires 0 <= i < |cs| => Simplified(math, AsPoints(cs[i])))
  }

  /** Simplifying one more walk appends its simplified points. */
  lemma SimplifyAllSnoc(math: MathLib, cs: seq<seq<Pos>>, c: seq<Pos>)
    ensures SimplifyAll(math, cs + [c]) == SimplifyAll(math, cs) + [Simplified(math, AsPoints(c))]
  {
  }

  /**
   * `traceContours(edgeData)`: the raster scan with its shared visited set,
   * keeping the traced contours of at least three points, each simplified.
   */
  method TraceContours(math: MathLib, img: ImageData) returns (contours: seq<seq<Point>>)
    requires WellFormed(img)
    ensures contours == SimplifyAll(math, RawContours(img))
  {
    var w, h := img.width, img.height;
    contours := [];
    var visited: set<Pos> := {};
    ghost var kept: seq<seq<Pos>> := [];
    ghost var n: nat := 0;
    var y := 0;
    while y < h
      invariant 0 <= y <= h
      invariant n == PixelIndex(w, y, 0) && n <= w * h
      invariant Scan(kept, visited) == ScanBefore(w, h, RedIs255(img), Anywhere, MinContourLength, n)
      invariant contours == SimplifyAll(math, kept)
    {
      var x := 0;
      while x < w
        invariant 0 <= x <= w
        invariant n == PixelIndex(w, y, x) && n <= w * h
        invariant Scan(kept, visited) == ScanBefore(w, h, RedIs255(img), Anywhere, MinContourLength, n)
        invariant contours == SimplifyAll(math, kept)
      {
        PixelIndexBound(w, h, y, x);
        kept, visited, contours := ScanPixel(math, img, y, x, n, kept, visited, contours);
        n := n + 1;
        x := x + 1;
      }
      assert n == PixelIndex(w, y + 1, 0) <= w * h by {
        MulLe(w, y + 1, h);
      }
      y := y + 1;
    }
  }

  /** The body of traceContours' inner loop: pixel (x, y), the n-th of the scan. */
  method ScanPixel(math: MathLib, img: ImageData, y: nat, x: nat, ghost n: nat, ghost kept: seq<seq<Pos>>,
                   visited: set<Pos>, contours: seq<seq<Point>>)
    returns (ghost kept': seq<seq<Pos>>, visited': set<Pos>, contours': seq<seq<Point>>)
    requires WellFormed(img) && y < img.height && x < img.width
    requires n == PixelIndex(img.width, y, x) && n < img.width * img.height
    requires Scan(kept, visited) == ScanBefore(img.width, img.height, RedIs255(img), Anywhere, MinContourLength, n)
    requires contours == SimplifyAll(math, kept)
    ensures Scan(kept', visited') == ScanBefore(img.width, img.height, RedIs255(img), Anywhere, MinContourLength, n + 1)
    ensures contours' == SimplifyAll(math, kept')
  {
    var w, h := img.width, img.height;
    ScanStep(w, h, RedIs255(img), Anywhere, MinContourLength, y, x);
    SampleInside(img, y, x, 0);
    kept', visited', contours' := kept, visited, contours;
    var pixel := y * w + x;
    var idx := pixel * 4;
    assert idx == PixelIndex(w, y, x) * 4;
    if img.data[idx] == 255 && (x, y) !in visited {
      var contour;
      contour, visited' := TraceContour(w, h, RedIs255(img), (x, y), visited);
      if |contour| >= MinContourLength {
        var simplified := SimplifyContour(math, AsPoints(contour));
        SimplifyAllSnoc(math, kept, contour);
        contours' := contours + [simplified];
        kept' := kept + [contour];
      }
    }
  }

  /**
   * What traceContours returns: one simplified contour per kept walk, and
   * none, not an error, when no walk is kept. Every kept walk has at least
   * three points, all pixels of the image whose red byte is 255;
   * consecutive points are distinct 8-neighbours; no pixel occurs twice in
   * one walk or in two; and each simplified contour starts at its walk's
   * first pixel.
   */
  lemma ContoursOfEdges(math: MathLib, img: ImageData)
    requires WellFormed(img)
    ensures var cs, out := RawContours(img), SimplifyAll(math, RawContours(img));
      |out| == |cs| &&
      (forall i :: 0 <= i < |cs| ==> |cs[i]| >= 3 && |out[i]| >= 1 && out[i][0] == AsPoint(cs[i][0])) &&
      (forall i, k :: 0 <= i < |cs| && 0 <= k < |cs[i]| ==>
        InGrid(img.width, img.height, cs[i][k]) && Sample(img, cs[i][k].1, cs[i][k].0, 0) == 255) &&
      (forall i, k :: 0 <= i < |cs| && 1 <= k < |cs[i]| ==> Adjacent(cs[i][k - 1], cs[i][k]) && cs[i][k - 1] != cs[i][k]) &&
      Disjoint(cs)
  {
    var w, h := img.width, img.height;
    var cs := RawContours(img);
    if w * h == 0 {
      assert cs == [];
    } else {
      PixelOf(w, h, 0);
      ScanIsGood(w, h, RedIs255(img), Anywhere, MinContourLength, w * h);
      assert AllChained(RedIs255(img), cs);
      forall i, k | 0 <= i < |cs| && 1 <= k < |cs[i]|
        ensures Adjacent(cs[i][k - 1], cs[i][k]) && cs[i][k - 1] != cs[i][k]
      {
        assert Chained(RedIs255(img), cs[i]);
      }
      forall i | 0 <= i < |cs|
        ensures |SimplifyAll(math, cs)[i]| >= 1 && SimplifyAll(math, cs)[i][0] == AsPoint(cs[i][0])
      {
        SimplifiedShape(math, AsPoints(cs[i]));
      }
    }
  }
}
