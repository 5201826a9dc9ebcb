/**
 * ContourOptimizer: the distance of a point to a segment, Douglas–Peucker
 * simplification of a contour, a running stitch of evenly spaced points
 * along a path, and a greedy nearest-neighbour ordering of stitches.
 *
 * Math.sqrt is the `sqrt` of a MathLib parameter; a segment of zero length
 * makes the running stitch divide by zero, and such a stitch is kept as
 * `NotFinite`.
 */
module ContourOptimizer {
  import opened Wrappers
  import opened Numeric
  import opened Types
  import opened Geometry

  /** `distance`: `Math.sqrt(dx * dx + dy * dy)`. */
  function Distance(math: MathLib, p1: Point, p2: Point): real {
    math.sqrt(PointDistSq(p1, p2))
  }

  // ---------------------------------------------------------------------
  // perpendicularDistance

  /** The projection parameter of `point` on the line through a and b, before clamping. */
  function Projection(point: Point, a: Point, b: Point): real
    requires PointDistSq(a, b) != 0.0
  {
    Dot(point, a, b) / PointDistSq(a, b)
  }

  /** The dot product of `point - a` with `b - a`. */
  function Dot(point: Point, a: Point, b: Point): real {
    (point.x - a.x) * (b.x - a.x) + (point.y - a.y) * (b.y - a.y)
  }

  /** `Math.max(0, Math.min(1, t))`. */
  function Clamp(t: real): real {
    MaxReal(0.0, MinReal(1.0, t))
  }

  /** The point of the segment a → b that perpendicularDistance measures to. */
  function Foot(point: Point, a: Point, b: Point): Point
    requires PointDistSq(a, b) != 0.0
  {
    Lerp(a, b, Clamp(Projection(point, a, b)))
  }

  /**
   * `perpendicularDistance(point, lineStart, lineEnd)`: the distance from
   * the point to the nearest point of the segment. For a segment whose ends
   * coincide it is the distance to that point; with a true square root it
   * is never negative and never more than the distance to either end.
   */
  function PerpendicularDistance(math: MathLib, point: Point, a: Point, b: Point): (d: real)
    ensures a == b ==> d == Distance(math, point, a)
    ensures IsSqrt(math.sqrt) ==> 0.0 <= d <= Distance(math, point, a) && d <= Distance(math, point, b)
  {
    if PointDistSq(a, b) == 0.0 then
      ZeroLength(a, b);
      Distance(math, point, a)
    else
      var q := Foot(point, a, b);
      FootNearerThanEnds(point, a, b);
      SqrtMonotone(math.sqrt, PointDistSq(point, q), PointDistSq(point, a));
      SqrtMonotone(math.sqrt, PointDistSq(point, q), PointDistSq(point, b));
      Distance(math, point, q)
  }

  /** A segment of zero length has coinciding ends. */
  lemma ZeroLength(a: Point, b: Point)
    requires PointDistSq(a, b) == 0.0
    ensures a == b
  {
    var dx, dy := b.x - a.x, b.y - a.y;
    SquareZero(dx, dy);
  }

  /** A sum of two squares is zero only when both are. */
  lemma SquareZero(dx: real, dy: real)
    requires dx * dx + dy * dy == 0.0
    ensures dx == 0.0 && dy == 0.0
  {
    SquareOf(dx, dx * dx);
    SquareOf(dy, dy * dy);
  }

  /** A square is never negative, and zero only at zero. */
  lemma SquareOf(d: real, t: real)
    requires t == d * d
    ensures t >= 0.0 && (t == 0.0 ==> d == 0.0)
  {
    if d != 0.0 {
      SameSignProduct(d, d, t);
    }
  }

  /** A product of two factors of the same sign is positive. */
  lemma SameSignProduct(a: real, b: real, p: real)
    requires (a > 0.0 && b > 0.0) || (a < 0.0 && b < 0.0)
    requires p == a * b
    ensures p > 0.0
  {
    if a < 0.0 {
      assert p == (-a) * (-b);
    }
  }

  /** A square root does not decrease. */
  lemma SqrtMonotone(sqrt: real -> real, u: real, v: real)
    requires 0.0 <= u && 0.0 <= v
    ensures IsSqrt(sqrt) && u <= v ==> sqrt(u) <= sqrt(v)
  {
    if IsSqrt(sqrt) && u <= v {
      SquareCompare(sqrt(u), u, sqrt(v));
    }
  }

  /**
   * The clamped foot is the point of the segment nearest to `point`: no
   * farther from it than either end.
   */
  lemma FootNearerThanEnds(point: Point, a: Point, b: Point)
    requires PointDistSq(a, b) != 0.0
    ensures PointDistSq(point, Foot(point, a, b)) <= PointDistSq(point, a)
    ensures PointDistSq(point, Foot(point, a, b)) <= PointDistSq(point, b)
  {
    var ux, uy := point.x - a.x, point.y - a.y;
    var vx, vy := b.x - a.x, b.y - a.y;
    var len, w := vx * vx + vy * vy, ux * vx + uy * vy;
    assert PointDistSq(a, b) == len && Dot(point, a, b) == w;
    var raw := Projection(point, a, b);
    var t := Clamp(raw);
    var q := Foot(point, a, b);
    assert q.x - point.x == t * vx - ux && q.y - point.y == t * vy - uy;
    assert b.x - point.x == 1.0 * vx - ux && b.y - point.y == 1.0 * vy - uy;
    assert a.x - point.x == 0.0 * vx - ux && a.y - point.y == 0.0 * vy - uy;
    var base := ux * ux + uy * uy;
    OffsetSquare(ux, uy, vx, vy, t);
    OffsetSquare(ux, uy, vx, vy, 1.0);
    OffsetSquare(ux, uy, vx, vy, 0.0);
    ClampedQuadratic(w, len, raw, t);
  }

  /** |t·v − u|² expanded. */
  lemma OffsetSquare(ux: real, uy: real, vx: real, vy: real, t: real)
    ensures (t * vx - ux) * (t * vx - ux) + (t * vy - uy) * (t * vy - uy)
      == (ux * ux + uy * uy) - 2.0 * t * (ux * vx + uy * vy) + t * t * (vx * vx + vy * vy)
  {
  }

  /**
   * For t the clamped ratio w / len, the quadratic t²·len − 2·t·w lies at or
   * below both its value at 0 and its value at 1.
   */
  lemma ClampedQuadratic(w: real, len: real, raw: real, t: real)
    requires len > 0.0 && raw == w / len && t == Clamp(raw)
    ensures t * t * len - 2.0 * t * w <= 0.0
    ensures t * t * len - 2.0 * t * w <= len - 2.0 * w
  {
    ClampRule(raw);
    assert w == raw * len;
    if raw < 0.0 {
      assert w < 0.0 by { NegativeTimesPositive(raw, len); }
    } else if raw > 1.0 {
      assert w - len == (raw - 1.0) * len;
      PositiveProduct(raw - 1.0, len);
    } else {
      QuadraticAtRatio(w, len, t);
    }
  }

  /** At t = w / len in [0, 1]: t²·len − 2·t·w = −t²·len, which is at most 0 and at most len − 2·w. */
  lemma QuadraticAtRatio(w: real, len: real, t: real)
    requires len > 0.0 && 0.0 <= t <= 1.0 && w == t * len
    ensures t * t * len - 2.0 * t * w <= 0.0
    ensures t * t * len - 2.0 * t * w <= len - 2.0 * w
  {
    var m := 1.0 - t;
    assert len - 2.0 * w - (t * t * len - 2.0 * t * w) == m * m * len;
    NonNegativeProduct(t * t, len);
    NonNegativeProduct(m * m, len);
  }

  lemma NonNegativeProduct(a: real, b: real)
    requires a >= 0.0 && b >= 0.0
    ensures a * b >= 0.0
  {
    if a > 0.0 && b > 0.0 {
      PositiveProduct(a, b);
    }
  }

  lemma NegativeTimesPositive(a: real, b: real)
    requires a < 0.0 && b > 0.0
    ensures a * b < 0.0
  {
    PositiveProduct(-a, b);
  }

  /**
   * How far a point lies from the chord between two others. simplifyContour
   * measures with perpendicularDistance here; the tracers' copies of it
   * measure with their own distance functions.
   */
  type Measure = (Point, Point, Point) -> real

  /** perpendicularDistance as the Measure of contour-optimizer's simplifyContour. */
  function Perpendicular(math: MathLib): Measure {
    (point, a, b) => PerpendicularDistance(math, point, a, b)
  }

  /** The clamped parameter lies in [0, 1] and is the raw one whenever that does. */
  lemma ClampRule(t: real)
    ensures 0.0 <= Clamp(t) <= 1.0
    ensures 0.0 <= t <= 1.0 ==> Clamp(t) == t
    ensures t < 0.0 ==> Clamp(t) == 0.0
    ensures t > 1.0 ==> Clamp(t) == 1.0
  {
  }

  /**
   * When the projection falls inside the segment, the foot is the
   * perpendicular one: the offset from it to the point is orthogonal to the
   * segment.
   */
  lemma FootPerpendicular(point: Point, a: Point, b: Point)
    requires PointDistSq(a, b) != 0.0 && 0.0 <= Projection(point, a, b) <= 1.0
    ensures var q := Foot(point, a, b);
      (point.x - q.x) * (b.x - a.x) + (point.y - q.y) * (b.y - a.y) == 0.0
  {
    var dx, dy := b.x - a.x, b.y - a.y;
    var len := PointDistSq(a, b);
    var w := (point.x - a.x) * dx + (point.y - a.y) * dy;
    var t := Projection(point, a, b);
    ClampRule(t);
    assert t * len == w;
    var q := Foot(point, a, b);
    assert q == Point(a.x + t * dx, a.y + t * dy);
    assert (point.x - q.x) * dx + (point.y - q.y) * dy == w - t * (dx * dx + dy * dy);
  }

  // ---------------------------------------------------------------------
  // simplifyContour

  /** How far point j lies from the chord between the contour's first and last points. */
  function Offset(measure: Measure, points: seq<Point>, j: nat): real
    requires j < |points|
  {
    measure(points[j], points[0], points[|points| - 1])
  }

  /** The loop's `maxDist` and `maxIndex`. */
  datatype Farthest = Farthest(dist: real, index: nat)

  /**
   * `maxDist` and `maxIndex` once the points 1 .. i - 1 are examined: the
   * first strictly greatest offset, or (0, 0) while no offset exceeds 0.
   */
  function FarthestBefore(measure: Measure, points: seq<Point>, i: nat): (f: Farthest)
    requires 1 <= i < |points|
    ensures f.index < i && f.dist >= 0.0
    ensures f.index == 0 <==> f.dist == 0.0
  {
    if i == 1 then Farthest(0.0, 0)
    else
      var f := FarthestBefore(measure, points, i - 1);
      var d := Offset(measure, points, i - 1);
      if d > f.dist then Farthest(d, i - 1) else f
  }

  /**
   * The loop finds the farthest interior point: no examined point lies
   * farther, the offset found is that of the point found, and every earlier
   * point lies strictly nearer (the first of equals wins).
   */
  lemma {:induction false} FarthestIsMax(measure: Measure, points: seq<Point>, i: nat)
    requires 1 <= i < |points|
    ensures var f := FarthestBefore(measure, points, i);
      (forall j :: 1 <= j < i ==> Offset(measure, points, j) <= f.dist) &&
      (f.index > 0 ==> f.dist == Offset(measure, points, f.index)) &&
      (forall j :: 1 <= j < f.index ==> Offset(measure, points, j) < f.dist)
  {
    if i > 1 {
      FarthestIsMax(measure, points, i - 1);
    }
  }

  /** The farthest-point loop of simplifyContour. */
  method FindFarthest(measure: Measure, points: seq<Point>) returns (maxDist: real, maxIndex: nat)
    requires |points| >= 2
    ensures Farthest(maxDist, maxIndex) == FarthestBefore(measure, points, |points| - 1)
  {
    maxDist, maxIndex := 0.0, 0;
    var start := points[0];
    var end := points[|points| - 1];
    var i := 1;
    while i < |points| - 1
      invariant 1 <= i <= |points| - 1
      invariant Farthest(maxDist, maxIndex) == FarthestBefore(measure, points, i)
    {
      var dist := measure(points[i], start, end);
      if dist > maxDist {
        maxDist := dist;
        maxIndex := i;
      }
      i := i + 1;
    }
  }

  /** `[...left.slice(0, -1), ...right]`, when both halves were simplified. */
  function Join(left: Option<seq<Point>>, right: Option<seq<Point>>): Option<seq<Point>>
    requires left.Some? ==> |left.value| >= 1
  {
    if left.None? || right.None? then None
    else Some(left.value[..|left.value| - 1] + right.value)
  }

  /**
   * `simplifyContour(points, tolerance)`. None stands for the source's
   * unbounded recursion: when no offset exceeds 0 but 0 exceeds the
   * tolerance, the right half is the whole contour again.
   */
  function Simplify(measure: Measure, points: seq<Point>, tolerance: real): (r: Option<seq<Point>>)
    ensures |points| <= 2 ==> r == Some(points)
    ensures r.Some? && |points| >= 2 ==>
      2 <= |r.value| <= |points| && r.value[0] == points[0] && r.value[|r.value| - 1] == points[|points| - 1]
    decreases |points|
  {
    if |points| <= 2 then Some(points)
    else
      var f := FarthestBefore(measure, points, |points| - 1);
      if f.dist > tolerance then
        if f.index == 0 then None
        else Join(Simplify(measure, points[..f.index + 1], tolerance), Simplify(measure, points[f.index..], tolerance))
      else Some([points[0], points[|points| - 1]])
  }

  /** The recursive method of simplifyContour, with its farthest-point loop. */
  method SimplifyContour(measure: Measure, points: seq<Point>, tolerance: real) returns (r: Option<seq<Point>>)
    ensures r == Simplify(measure, points, tolerance)
    decreases |points|
  {
    if |points| <= 2 {
      return Some(points);
    }
    var maxDist, maxIndex := FindFarthest(measure, points);
    ghost var f := FarthestBefore(measure, points, |points| - 1);
    assert f.dist == maxDist && f.index == maxIndex;
    if maxDist > tolerance {
      if maxIndex == 0 {
        return None;
      }
      var left := SimplifyContour(measure, points[..maxIndex + 1], tolerance);
      var right := SimplifyContour(measure, points[maxIndex..], tolerance);
      SimplifySplit(measure, points, tolerance);
      return Join(left, right);
    }
    SimplifyFlat(measure, points, tolerance);
    return Some([points[0], points[|points| - 1]]);
  }

  /** One step of Simplify when the farthest offset is within the tolerance. */
  lemma SimplifyFlat(measure: Measure, points: seq<Point>, tolerance: real)
    requires |points| > 2 && FarthestBefore(measure, points, |points| - 1).dist <= tolerance
    ensures Simplify(measure, points, tolerance) == Some([points[0], points[|points| - 1]])
  {
  }

  /** One step of Simplify when the contour is split at its farthest point. */
  lemma SimplifySplit(measure: Measure, points: seq<Point>, tolerance: real)
    requires |points| > 2
    requires FarthestBefore(measure, points, |points| - 1).dist > tolerance
    ensures var m := FarthestBefore(measure, points, |points| - 1).index;
      Simplify(measure, points, tolerance) ==
      if m == 0 then None
      else Join(Simplify(measure, points[..m + 1], tolerance), Simplify(measure, points[m..], tolerance))
  {
    var m := FarthestBefore(measure, points, |points| - 1).index;
    if m != 0 {
      var left := points[..m + 1];
      assert |left| >= 2;
      var l := Simplify(measure, left, tolerance);
      assert l.Some? ==> |l.value| >= 2;
    }
  }

  /** With a tolerance of at least 0 the recursion always ends. */
  lemma {:induction false} SimplifyTerminates(measure: Measure, points: seq<Point>, tolerance: real)
    requires tolerance >= 0.0
    ensures Simplify(measure, points, tolerance).Some?
    decreases |points|
  {
    if |points| > 2 {
      var f := FarthestBefore(measure, points, |points| - 1);
      if f.dist > tolerance {
        SimplifyTerminates(measure, points[..f.index + 1], tolerance);
        SimplifyTerminates(measure, points[f.index..], tolerance);
      }
    }
  }

  /**
   * With a negative tolerance a contour of three or more points whose
   * interior points all lie on the end-to-end segment never finishes.
   */
  lemma NegativeToleranceDiverges(measure: Measure, points: seq<Point>, tolerance: real)
    requires tolerance < 0.0 && |points| >= 3
    requires forall j :: 1 <= j < |points| - 1 ==> Offset(measure, points, j) == 0.0
    ensures Simplify(measure, points, tolerance).None?
  {
    FarthestIsMax(measure, points, |points| - 1);
  }

  /** `r` is the sequence of the points of `points` at the increasing indices `idx`, from the first to the last. */
  predicate Picks(r: seq<Point>, points: seq<Point>, idx: seq<nat>) {
    |idx| == |r| && |idx| > 0 && idx[0] == 0 && idx[|idx| - 1] == |points| - 1 &&
    (forall k :: 0 <= k < |idx| ==> idx[k] < |points| && r[k] == points[idx[k]]) &&
    (forall k :: 0 < k < |idx| ==> idx[k - 1] < idx[k])
  }

  /**
   * The simplified contour is an in-order subsequence of the contour: its
   * points are the contour's points at increasing indices, the first at
   * index 0 and the last at the last index.
   */
  lemma SimplifyKeepsOrder(measure: Measure, points: seq<Point>, tolerance: real)
    requires Simplify(measure, points, tolerance).Some? && |points| >= 1
    ensures exists idx :: Picks(Simplify(measure, points, tolerance).value, points, idx)
  {
    var idx := KeptIndices(measure, points, tolerance);
  }

  /** The indices SimplifyKeepsOrder asks for, built along the recursion. */
  lemma {:induction false} KeptIndices(measure: Measure, points: seq<Point>, tolerance: real) returns (idx: seq<nat>)
    requires Simplify(measure, points, tolerance).Some? && |points| >= 1
    ensures Picks(Simplify(measure, points, tolerance).value, points, idx)
    decreases |points|, 1
  {
    if |points| <= 2 {
      idx := seq(|points|, k => k);
    } else if FarthestBefore(measure, points, |points| - 1).dist > tolerance {
      idx := SplitIndices(measure, points, tolerance);
    } else {
      FlatPicksEnds(measure, points, tolerance);
      idx := [0, |points| - 1];
    }
  }

  /** KeptIndices when the contour is split at its farthest point. */
  lemma {:induction false} SplitIndices(measure: Measure, points: seq<Point>, tolerance: real) returns (idx: seq<nat>)
    requires Simplify(measure, points, tolerance).Some? && |points| > 2
    requires FarthestBefore(measure, points, |points| - 1).dist > tolerance
    ensures Picks(Simplify(measure, points, tolerance).value, points, idx)
    decreases |points|, 0
  {
    var m := FarthestBefore(measure, points, |points| - 1).index;
    var left, right := Simplify(measure, points[..m + 1], tolerance), Simplify(measure, points[m..], tolerance);
    SimplifySplit(measure, points, tolerance);
    var li := KeptIndices(measure, points[..m + 1], tolerance);
    var ri := KeptIndices(measure, points[m..], tolerance);
    JoinPicks(points, m, left.value, right.value, li, ri);
    idx := li[..|li| - 1] + seq(|ri|, k requires 0 <= k < |ri| => ri[k] + m);
  }

  lemma FlatPicksEnds(measure: Measure, points: seq<Point>, tolerance: real)
    requires |points| > 2 && FarthestBefore(measure, points, |points| - 1).dist <= tolerance
    ensures Simplify(measure, points, tolerance).Some?
    ensures Picks(Simplify(measure, points, tolerance).value, points, [0, |points| - 1])
  {
    SimplifyFlat(measure, points, tolerance);
    EndsPicked(points);
  }

  lemma EndsPicked(points: seq<Point>)
    requires |points| >= 2
    ensures Picks([points[0], points[|points| - 1]], points, [0, |points| - 1])
  {
  }

  /** Joining the kept points of the two halves, which share the point at m. */
  lemma JoinPicks(points: seq<Point>, m: nat, l: seq<Point>, r: seq<Point>, li: seq<nat>, ri: seq<nat>)
    requires 0 < m < |points| - 1
    requires Picks(l, points[..m + 1], li) && |li| >= 2
    requires Picks(r, points[m..], ri)
    ensures Picks(l[..|l| - 1] + r, points, li[..|li| - 1] + seq(|ri|, k requires 0 <= k < |ri| => ri[k] + m))
  {
    var idx := li[..|li| - 1] + seq(|ri|, k requires 0 <= k < |ri| => ri[k] + m);
    var out := l[..|l| - 1] + r;
    var n := |li| - 1;
    forall k | 0 <= k < |idx|
      ensures idx[k] < |points| && out[k] == points[idx[k]]
    {
      if k < n {
        assert idx[k] == li[k] && out[k] == l[k];
      } else {
        assert idx[k] == ri[k - n] + m && out[k] == r[k - n];
      }
    }
    assert forall k :: 0 <= k < n ==> li[k] < m by {
      forall k | 0 <= k < n
        ensures li[k] < m
      {
        Increasing(li, k, n);
      }
    }
    forall k | 0 < k < |idx|
      ensures idx[k - 1] < idx[k]
    {
      if k < n {
      } else if k == n {
        assert idx[k - 1] == li[n - 1] && idx[k] == m;
      } else {
        assert idx[k - 1] == ri[k - 1 - n] + m && idx[k] == ri[k - n] + m;
      }
    }
  }

  /** In a strictly increasing index list, an earlier index is smaller. */
  lemma {:induction false} Increasing(idx: seq<nat>, i: nat, j: nat)
    requires forall k :: 0 < k < |idx| ==> idx[k - 1] < idx[k]
    requires i < j < |idx|
    ensures idx[i] < idx[j]
    decreases j - i
  {
    if i + 1 < j {
      Increasing(idx, i, j - 1);
    }
  }

  // ---------------------------------------------------------------------
  // generateRunningStitch

  /** One entry of the `segments` list: two consecutive points and the distance between them. */
  datatype Segment = Segment(start: Point, end: Point, length: real)

  /** The `segments` list built by the first loop. */
  function Segments(math: MathLib, points: seq<Point>): (segs: seq<Segment>)
    ensures |segs| == if |points| == 0 then 0 else |points| - 1
  {
    if |points| == 0 then [] else seq(|points| - 1, k requires 0 <= k < |points| - 1 => SegmentAt(math, points, k))
  }

  /** The segment from point k to point k + 1. */
  function SegmentAt(math: MathLib, points: seq<Point>, k: nat): Segment
    requires k + 1 < |points|
  {
    Segment(points[k], points[k + 1], Distance(math, points[k], points[k + 1]))
  }

  /** The summed length of the first n segments. */
  function Covered(segs: seq<Segment>, n: nat): real
    requires n <= |segs|
  {
    if n == 0 then 0.0 else Covered(segs, n - 1) + segs[n - 1].length
  }

  /** The number of stitches: finite, or unbounded when a positive length is divided by a zero spacing. */
  datatype Count = Finite(n: nat) | Unbounded

  /**
   * `Math.max(2, Math.ceil(totalLength / spacing))`. A zero spacing gives
   * NaN for a zero length (the loop does not run), +Infinity for a positive
   * one (the loop never ends) and -Infinity for a negative one (2 stitches).
   */
  function StitchCount(total: real, spacing: real): Count {
    if spacing != 0.0 then Finite(MaxInt(2, Ceil(total / spacing)))
    else if total == 0.0 then Finite(0)
    else if total > 0.0 then Unbounded
    else Finite(2)
  }

  /** `actualSpacing = totalLength / (numStitches - 1)`. */
  function ActualSpacing(total: real, n: nat): real
    requires n >= 2
  {
    total / (n - 1) as real
  }

  /** `targetDistance = i * actualSpacing`. */
  function Target(total: real, n: nat, i: nat): real
    requires n >= 2
  {
    i as real * ActualSpacing(total, n)
  }

  /** The running stitch's state: `distanceCovered` and `currentSegment`. */
  datatype Cursor = Cursor(covered: real, segment: nat)

  /** The inner while loop: move on while the target lies beyond the current segment and it is not the last one. */
  function Seek(segs: seq<Segment>, c: Cursor, target: real): (r: Cursor)
    requires c.segment < |segs|
    ensures c.segment <= r.segment < |segs|
    ensures r.segment == |segs| - 1 || target <= r.covered + segs[r.segment].length
    decreases |segs| - c.segment
  {
    if c.segment < |segs| - 1 && c.covered + segs[c.segment].length < target then
      Seek(segs, Cursor(c.covered + segs[c.segment].length, c.segment + 1), target)
    else c
  }

  /** The cursor when stitch i is placed: the previous stitch's cursor moved on to target i. */
  function CursorAt(segs: seq<Segment>, total: real, n: nat, i: nat): (c: Cursor)
    requires |segs| > 0 && n >= 2
    ensures c.segment < |segs|
  {
    Seek(segs, if i == 0 then Cursor(0.0, 0) else CursorAt(segs, total, n, i - 1), Target(total, n, i))
  }

  /** A pushed stitch: a point, or one whose coordinates are NaN or infinite. */
  datatype Emitted = Placed(point: Point) | NotFinite

  /** `segmentProgress = (targetDistance - distanceCovered) / segment.length`, not finite for a zero length. */
  function StitchAt(segs: seq<Segment>, c: Cursor, target: real): Emitted
    requires c.segment < |segs|
  {
    var seg := segs[c.segment];
    if seg.length == 0.0 then NotFinite
    else Placed(Lerp(seg.start, seg.end, (target - c.covered) / seg.length))
  }

  /** Stitch i of n. */
  function Emit(segs: seq<Segment>, total: real, n: nat, i: nat): Emitted
    requires |segs| > 0 && n >= 2
  {
    StitchAt(segs, CursorAt(segs, total, n, i), Target(total, n, i))
  }

  /** What generateRunningStitch ends with: its stitches, a TypeError, or a loop that never ends. */
  datatype Outcome = Done(stitches: seq<Emitted>) | Crash | Endless

  /** generateRunningStitch. */
  function RunningStitch(math: MathLib, points: seq<Point>, spacing: real): Outcome {
    var segs := Segments(math, points);
    var total := Covered(segs, |segs|);
    match StitchCount(total, spacing)
    case Unbounded => Endless
    case Finite(n) =>
      if n == 0 then Done([])
      else if |segs| == 0 then Crash
      else Done(seq(n, i requires 0 <= i < n => Emit(segs, total, n, i)))
  }

  /** The first loop of generateRunningStitch: the segments and their summed length. */
  method MeasureSegments(math: MathLib, points: seq<Point>) returns (segs: seq<Segment>, totalLength: real)
    ensures segs == Segments(math, points) && totalLength == Covered(segs, |segs|)
  {
    segs, totalLength := [], 0.0;
    var i := 1;
    while i < |points|
      invariant 1 <= i && (|points| > 0 ==> i <= |points|)
      invariant |segs| == i - 1
      invariant forall k :: 0 <= k < i - 1 ==> k + 1 < |points| && segs[k] == SegmentAt(math, points, k)
      invariant totalLength == Covered(segs, |segs|)
    {
      var start, end := points[i - 1], points[i];
      var length := Distance(math, start, end);
      segs := segs + [Segment(start, end, length)];
      assert Covered(segs, |segs|) == Covered(segs[..i - 1], i - 1) + length by {
        assert segs[..i - 1] == segs[..|segs| - 1];
        CoveredPrefix(segs, |segs| - 1);
      }
      totalLength := totalLength + length;
      i := i + 1;
    }
    assert segs == Segments(math, points);
  }

  /** Covered only reads the segments it sums. */
  lemma {:induction false} CoveredPrefix(segs: seq<Segment>, n: nat)
    requires n <= |segs|
    ensures Covered(segs[..n], n) == Covered(segs, n)
    decreases n
  {
    if n > 0 {
      assert segs[..n][..n - 1] == segs[..n - 1];
      CoveredPrefix(segs[..n], n - 1);
      CoveredPrefix(segs, n - 1);
    }
  }

  /** The inner while loop of generateRunningStitch. */
  method SeekSegment(segs: seq<Segment>, covered: real, segment: nat, target: real)
    returns (distanceCovered: real, currentSegment: nat)
    requires segment < |segs|
    ensures Cursor(distanceCovered, currentSegment) == Seek(segs, Cursor(covered, segment), target)
  {
    distanceCovered, currentSegment := covered, segment;
    while currentSegment < |segs| - 1 && distanceCovered + segs[currentSegment].length < target
      invariant currentSegment < |segs|
      invariant Seek(segs, Cursor(distanceCovered, currentSegment), target) == Seek(segs, Cursor(covered, segment), target)
      decreases |segs| - currentSegment
    {
      distanceCovered := distanceCovered + segs[currentSegment].length;
      currentSegment := currentSegment + 1;
    }
  }

  /** generateRunningStitch, with its loops. */
  method GenerateRunningStitch(math: MathLib, points: seq<Point>, spacing: real) returns (r: Outcome)
    ensures r == RunningStitch(math, points, spacing)
  {
    var segs, totalLength := MeasureSegments(math, points);
    var numStitches: nat;
    if spacing == 0.0 {
      if totalLength == 0.0 {
        return Done([]);
      } else if totalLength > 0.0 {
        return Endless;
      }
      numStitches := 2;
    } else {
      numStitches := MaxInt(2, Ceil(totalLength / spacing));
    }
    assert StitchCount(totalLength, spacing) == Finite(numStitches);
    if |segs| == 0 {
      // segments[0] is undefined and reading its length throws.
      return Crash;
    }
    var stitches := PlaceStitches(segs, totalLength, numStitches);
    return Done(stitches);
  }

  /** CursorAt, one stitch at a time. */
  lemma CursorStep(segs: seq<Segment>, total: real, n: nat, i: nat, c: Cursor)
    requires |segs| > 0 && n >= 2
    requires c == if i == 0 then Cursor(0.0, 0) else CursorAt(segs, total, n, i - 1)
    ensures c.segment < |segs| && CursorAt(segs, total, n, i) == Seek(segs, c, Target(total, n, i))
  {
  }

  /** The second loop of generateRunningStitch: numStitches evenly spaced stitches. */
  method PlaceStitches(segs: seq<Segment>, totalLength: real, numStitches: nat) returns (stitches: seq<Emitted>)
    requires |segs| > 0 && numStitches >= 2
    ensures stitches == seq(numStitches, k requires 0 <= k < numStitches => Emit(segs, totalLength, numStitches, k))
  {
    var actualSpacing := totalLength / (numStitches - 1) as real;
    stitches := [];
    var distanceCovered, currentSegment := 0.0, 0;
    var i := 0;
    while i < numStitches
      invariant i <= numStitches && currentSegment < |segs|
      invariant Cursor(distanceCovered, currentSegment) == if i == 0 then Cursor(0.0, 0) else CursorAt(segs, totalLength, numStitches, i - 1)
      invariant |stitches| == i && forall k :: 0 <= k < i ==> stitches[k] == Emit(segs, totalLength, numStitches, k)
    {
      var targetDistance := i as real * actualSpacing;
      assert targetDistance == Target(totalLength, numStitches, i);
      CursorStep(segs, totalLength, numStitches, i, Cursor(distanceCovered, currentSegment));
      distanceCovered, currentSegment := SeekSegment(segs, distanceCovered, currentSegment, targetDistance);
      var segment := segs[currentSegment];
      var emitted;
      if segment.length == 0.0 {
        emitted := NotFinite;
      } else {
        var segmentProgress := (targetDistance - distanceCovered) / segment.length;
        emitted := Placed(Lerp(segment.start, segment.end, segmentProgress));
      }
      assert emitted == Emit(segs, totalLength, numStitches, i);
      stitches := stitches + [emitted];
      i := i + 1;
    }
  }

  /** `totalLength`: the summed length of the path's segments. */
  function TotalLength(math: MathLib, points: seq<Point>): real {
    Covered(Segments(math, points), |Segments(math, points)|)
  }

  /**
   * With a non-zero spacing and two points or more, the running stitch has
   * max(2, ceil(totalLength / spacing)) stitches: two when the path is at
   * most one spacing long, and otherwise the least whole number at or above
   * totalLength / spacing.
   */
  lemma RunningStitchCount(math: MathLib, points: seq<Point>, spacing: real)
    requires spacing != 0.0 && |points| >= 2
    ensures RunningStitch(math, points, spacing).Done?
    ensures var n := |RunningStitch(math, points, spacing).stitches|;
      var x := TotalLength(math, points) / spacing;
      n >= 2 && x <= n as real && (x <= 1.0 ==> n == 2) && (x > 1.0 ==> (n as real) < x + 1.0)
  {
    CeilBounds(TotalLength(math, points) / spacing);
  }

  /**
   * A zero spacing: no stitches for a path of zero length, a loop that never
   * ends for a longer one.
   */
  lemma ZeroSpacing(math: MathLib, points: seq<Point>)
    ensures TotalLength(math, points) == 0.0 ==> RunningStitch(math, points, 0.0) == Done([])
    ensures TotalLength(math, points) > 0.0 ==> RunningStitch(math, points, 0.0) == Endless
  {
  }

  /** With fewer than two points there is no segment to read, and any stitch at all throws. */
  lemma ShortPathThrows(math: MathLib, points: seq<Point>, spacing: real)
    requires |points| < 2 && spacing != 0.0
    ensures RunningStitch(math, points, spacing) == Crash
  {
  }

  /** The targets step by actualSpacing from 0 to the whole length. */
  lemma TargetEnds(total: real, n: nat)
    requires n >= 2
    ensures Target(total, n, 0) == 0.0 && Target(total, n, n - 1) == total
    ensures forall i: nat :: Target(total, n, i + 1) == Target(total, n, i) + ActualSpacing(total, n)
  {
    var k := (n - 1) as real;
    assert k * (total / k) == total;
    forall i: nat
      ensures Target(total, n, i + 1) == Target(total, n, i) + ActualSpacing(total, n)
    {
      var a := ActualSpacing(total, n);
      assert (i + 1) as real * a == i as real * a + a;
    }
  }

  /** Seek keeps `distanceCovered` equal to the length of the segments it has passed. */
  lemma {:induction false} SeekCovered(segs: seq<Segment>, c: Cursor, target: real)
    requires c.segment < |segs| && c.covered == Covered(segs, c.segment)
    ensures Seek(segs, c, target).covered == Covered(segs, Seek(segs, c, target).segment)
    decreases |segs| - c.segment
  {
    if c.segment < |segs| - 1 && c.covered + segs[c.segment].length < target {
      SeekCovered(segs, Cursor(c.covered + segs[c.segment].length, c.segment + 1), target);
    }
  }

  /**
   * The segment cursor only moves forward and never passes the last
   * segment, and `distanceCovered` is always the length of the segments
   * before the current one.
   */
  lemma {:induction false} CursorForward(segs: seq<Segment>, total: real, n: nat, i: nat)
    requires |segs| > 0 && n >= 2
    ensures CursorAt(segs, total, n, i).segment <= CursorAt(segs, total, n, i + 1).segment < |segs|
    ensures CursorAt(segs, total, n, i).covered == Covered(segs, CursorAt(segs, total, n, i).segment)
  {
    if i == 0 {
      SeekCovered(segs, Cursor(0.0, 0), Target(total, n, 0));
    } else {
      CursorForward(segs, total, n, i - 1);
      SeekCovered(segs, CursorAt(segs, total, n, i - 1), Target(total, n, i));
    }
  }

  /** With every segment of positive length, more segments cover strictly more. */
  lemma {:induction false} CoveredIncreasing(segs: seq<Segment>, j: nat, k: nat)
    requires j < k <= |segs|
    requires forall m :: 0 <= m < |segs| ==> segs[m].length > 0.0
    ensures Covered(segs, j) < Covered(segs, k)
    decreases k - j
  {
    if j + 1 < k {
      CoveredIncreasing(segs, j, k - 1);
    }
  }

  /** Seeking the whole length ends on the last segment when no segment has zero length. */
  lemma {:induction false} SeekToEnd(segs: seq<Segment>, c: Cursor)
    requires c.segment < |segs| && c.covered == Covered(segs, c.segment)
    requires forall m :: 0 <= m < |segs| ==> segs[m].length > 0.0
    ensures Seek(segs, c, Covered(segs, |segs|)).segment == |segs| - 1
    decreases |segs| - c.segment
  {
    if c.segment < |segs| - 1 {
      CoveredIncreasing(segs, c.segment + 1, |segs|);
      SeekToEnd(segs, Cursor(c.covered + segs[c.segment].length, c.segment + 1));
    }
  }

  /**
   * When no two consecutive points are at distance 0, the running stitch
   * starts on the first point of the path and ends on its last one.
   */
  lemma RunningStitchEnds(math: MathLib, points: seq<Point>, spacing: real)
    requires spacing != 0.0 && |points| >= 2
    requires forall k :: 0 <= k < |points| - 1 ==> Distance(math, points[k], points[k + 1]) > 0.0
    ensures RunningStitch(math, points, spacing).Done?
    ensures var s := RunningStitch(math, points, spacing).stitches;
      |s| >= 2 && s[0] == Placed(points[0]) && s[|s| - 1] == Placed(points[|points| - 1])
  {
    var segs := Segments(math, points);
    var total := Covered(segs, |segs|);
    var n := MaxInt(2, Ceil(total / spacing));
    RunningStitchDone(math, points, spacing);
    assert forall m :: 0 <= m < |segs| ==> segs[m] == SegmentAt(math, points, m);
    FirstStitch(segs, total, n);
    LastStitch(segs, total, n);
  }

  /** The stitches of a path of two points or more, spaced by a non-zero spacing. */
  lemma RunningStitchDone(math: MathLib, points: seq<Point>, spacing: real)
    requires spacing != 0.0 && |points| >= 2
    ensures var segs := Segments(math, points);
      var total := Covered(segs, |segs|);
      var n := MaxInt(2, Ceil(total / spacing));
      RunningStitch(math, points, spacing) == Done(seq(n, i requires 0 <= i < n => Emit(segs, total, n, i)))
  {
  }

  /** Stitch 0 targets 0 and so lies at the start of the first segment. */
  lemma FirstStitch(segs: seq<Segment>, total: real, n: nat)
    requires |segs| > 0 && n >= 2 && segs[0].length > 0.0
    ensures Emit(segs, total, n, 0) == Placed(segs[0].start)
  {
    TargetEnds(total, n);
    assert CursorAt(segs, total, n, 0) == Cursor(0.0, 0);
    LerpEnds(segs[0].start, segs[0].end);
  }

  /** The last stitch targets the whole length and so lies at the end of the last segment. */
  lemma LastStitch(segs: seq<Segment>, total: real, n: nat)
    requires |segs| > 0 && n >= 2 && total == Covered(segs, |segs|)
    requires forall m :: 0 <= m < |segs| ==> segs[m].length > 0.0
    ensures Emit(segs, total, n, n - 1) == Placed(segs[|segs| - 1].end)
  {
    TargetEnds(total, n);
    var prev := CursorAt(segs, total, n, n - 2);
    CursorForward(segs, total, n, n - 2);
    SeekToEnd(segs, prev);
    SeekCovered(segs, prev, total);
    var last := CursorAt(segs, total, n, n - 1);
    assert last == Seek(segs, prev, total);
    var seg := segs[|segs| - 1];
    assert last.segment == |segs| - 1 && total - last.covered == seg.length;
    assert seg.length > 0.0;
    assert Target(total, n, n - 1) - last.covered == seg.length;
    DivSelf(Target(total, n, n - 1) - last.covered, seg.length);
    LerpEnds(seg.start, seg.end);
  }

  lemma DivSelf(u: real, v: real)
    requires u == v && v != 0.0
    ensures u / v == 1.0
  {
  }

  /** Lerp at 0 and at 1 gives the two ends. */
  lemma LerpEnds(a: Point, b: Point)
    ensures Lerp(a, b, 0.0) == a && Lerp(a, b, 1.0) == b
  {
  }

  // ---------------------------------------------------------------------
  // optimizeStitchOrder

  /**
   * The index the inner loop holds as `nearest` after looking at the first
   * m remaining points: a nearest one to `current`, the earliest on ties
   * since only a strictly smaller distance replaces it.
   */
  function NearestIn(math: MathLib, current: Point, remaining: seq<Point>, m: nat): (k: nat)
    requires 0 < m <= |remaining|
    ensures k < m
    ensures forall j :: 0 <= j < m ==> Distance(math, current, remaining[k]) <= Distance(math, current, remaining[j])
    ensures forall j :: 0 <= j < k ==> Distance(math, current, remaining[k]) < Distance(math, current, remaining[j])
  {
    if m == 1 then 0
    else
      var k := NearestIn(math, current, remaining, m - 1);
      if Distance(math, current, remaining[m - 1]) < Distance(math, current, remaining[k]) then m - 1 else k
  }

  /** The point the inner loop picks from all the remaining ones. */
  function Nearest(math: MathLib, current: Point, remaining: seq<Point>): nat
    requires |remaining| > 0
  {
    NearestIn(math, current, remaining, |remaining|)
  }

  /** The outer loop: repeatedly take the nearest remaining point and continue from it. */
  function Greedy(math: MathLib, current: Point, remaining: seq<Point>): (r: seq<Point>)
    ensures |r| == |remaining|
    decreases |remaining|
  {
    if |remaining| == 0 then []
    else
      var k := Nearest(math, current, remaining);
      [remaining[k]] + Greedy(math, remaining[k], remaining[..k] + remaining[k + 1..])
  }

  /** optimizeStitchOrder. */
  function OptimizeOrder(math: MathLib, stitches: seq<Point>): seq<Point> {
    if |stitches| <= 2 then stitches else [stitches[0]] + Greedy(math, stitches[0], stitches[1..])
  }

  /** The inner loop of optimizeStitchOrder; `minDist` starts at Infinity, written None. */
  method FindNearest(math: MathLib, current: Point, remaining: seq<Point>) returns (nearest: Option<nat>)
    ensures |remaining| == 0 ==> nearest == None
    ensures |remaining| > 0 ==> nearest == Some(Nearest(math, current, remaining))
  {
    nearest := None;
    var minDist: Option<real> := None;
    for i := 0 to |remaining|
      invariant i == 0 ==> nearest == None && minDist == None
      invariant i > 0 ==> nearest == Some(NearestIn(math, current, remaining, i))
      invariant i > 0 ==> minDist == Some(Distance(math, current, remaining[nearest.value]))
    {
      var dist := Distance(math, current, remaining[i]);
      if minDist.None? || dist < minDist.value {
        minDist := Some(dist);
        nearest := Some(i);
      }
    }
  }

  /** optimizeStitchOrder, with its loops. */
  method OptimizeStitchOrder(math: MathLib, stitches: seq<Point>) returns (optimized: seq<Point>)
    ensures optimized == OptimizeOrder(math, stitches)
  {
    if |stitches| <= 2 {
      return stitches;
    }
    optimized := [stitches[0]];
    var remaining := stitches[1..];
    var current := stitches[0];
    while |remaining| > 0
      invariant optimized + Greedy(math, current, remaining) == OptimizeOrder(math, stitches)
      decreases |remaining|
    {
      var nearest := FindNearest(math, current, remaining);
      var k := nearest.value;
      assert Greedy(math, current, remaining) ==
        [remaining[k]] + Greedy(math, remaining[k], remaining[..k] + remaining[k + 1..]);
      optimized := optimized + [remaining[k]];
      current := remaining[k];
      remaining := remaining[..k] + remaining[k + 1..];
    }
  }

  /** Greedy outputs every remaining point exactly once. */
  lemma {:induction false} GreedyPermutation(math: MathLib, current: Point, remaining: seq<Point>)
    ensures multiset(Greedy(math, current, remaining)) == multiset(remaining)
    decreases |remaining|
  {
    if |remaining| > 0 {
      var k := Nearest(math, current, remaining);
      var rest := remaining[..k] + remaining[k + 1..];
      GreedyPermutation(math, remaining[k], rest);
      RemoveAt(remaining, k);
    }
  }

  /** Taking out the element at k leaves the others. */
  lemma RemoveAt(s: seq<Point>, k: nat)
    requires k < |s|
    ensures multiset(s) == multiset{s[k]} + multiset(s[..k] + s[k + 1..])
  {
    assert s == s[..k] + [s[k]] + s[k + 1..];
  }

  /**
   * optimizeStitchOrder returns two points or fewer unchanged; otherwise it
   * starts at the first stitch and outputs every stitch exactly once.
   */
  lemma OptimizeOrderPermutes(math: MathLib, stitches: seq<Point>)
    ensures |stitches| <= 2 ==> OptimizeOrder(math, stitches) == stitches
    ensures var r := OptimizeOrder(math, stitches);
      |r| == |stitches| && multiset(r) == multiset(stitches) && (|stitches| > 0 ==> r[0] == stitches[0])
  {
    if |stitches| > 2 {
      GreedyPermutation(math, stitches[0], stitches[1..]);
      assert stitches == [stitches[0]] + stitches[1..];
    }
  }

  /** The point the i-th output of Greedy was chosen from: `current`, then the previous output. */
  function Previous(current: Point, r: seq<Point>, i: nat): Point
    requires i <= |r|
  {
    if i == 0 then current else r[i - 1]
  }

  /**
   * Each point Greedy outputs is a nearest one, from the point before it,
   * among all the points output from there on.
   */
  lemma {:induction false} GreedyNearest(math: MathLib, current: Point, remaining: seq<Point>, i: nat, j: nat)
    requires i <= j < |remaining|
    ensures var r := Greedy(math, current, remaining);
      Distance(math, Previous(current, r, i), r[i]) <= Distance(math, Previous(current, r, i), r[j])
    decreases |remaining|
  {
    if i == 0 {
      GreedyFirstNearest(math, current, remaining, j);
    } else {
      var r := Greedy(math, current, remaining);
      var k := Nearest(math, current, remaining);
      var rest := remaining[..k] + remaining[k + 1..];
      var tail := Greedy(math, remaining[k], rest);
      assert r == [remaining[k]] + tail;
      GreedyNearest(math, remaining[k], rest, i - 1, j - 1);
      assert Previous(current, r, i) == Previous(remaining[k], tail, i - 1);
    }
  }

  /** Greedy's first output is nearest to `current` among all its outputs. */
  lemma GreedyFirstNearest(math: MathLib, current: Point, remaining: seq<Point>, j: nat)
    requires j < |remaining|
    ensures var r := Greedy(math, current, remaining);
      Distance(math, current, r[0]) <= Distance(math, current, r[j])
  {
    var r := Greedy(math, current, remaining);
    GreedyPermutation(math, current, remaining);
    assert r[j] in multiset(remaining);
    var t :| 0 <= t < |remaining| && remaining[t] == r[j];
    assert r[0] == remaining[Nearest(math, current, remaining)];
  }
}
