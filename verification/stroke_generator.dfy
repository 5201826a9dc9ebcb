/**
 * The stroke generators of src/lib/embroidery/stroke-generator.ts: a
 * straight stroke that divides every segment of a polyline evenly, a
 * running stitch spread evenly over the whole path, and a zig-zag that
 * alternates either side of every segment.
 *
 * Math.sqrt comes from the `math` parameter. Where the source divides by a
 * zero length the stitch it pushes has NaN or infinite coordinates; the
 * model keeps such a stitch as `NotFinite`.
 */
module StrokeGenerator {
  import opened Wrappers
  import opened Numeric
  import opened Types

  /** The fields of `Partial<StitchSettings>` the generators read; each may be absent. */
  datatype StrokeSettings = StrokeSettings(strokeSpacing: Option<real>, minLength: Option<real>, maxLength: Option<real>)

  function Spacing(settings: StrokeSettings): (r: real)
    ensures r != 0.0
  {
    OrDefault(settings.strokeSpacing, 0.4)
  }

  function MinLength(settings: StrokeSettings): real {
    OrDefault(settings.minLength, 0.1)
  }

  /** The length of the segment from a to b. */
  function SegLen(math: MathLib, a: Point, b: Point): real {
    math.sqrt(PointDistSq(a, b))
  }

  /** The normal stitch at parameter t of the segment from `start` by (dx, dy). */
  function Along(start: Point, dx: real, dy: real, t: real, color: string): StitchPoint {
    StitchPoint(start.x + dx * t, start.y + dy * t, Normal, color)
  }

  // ---------------------------------------------------------------------
  // generateStroke

  /** The stitches of segment i (from points[i - 1] to points[i]) after `done` of its steps. */
  function SegmentStitches(math: MathLib, points: seq<Point>, i: nat, color: string, spacing: real, done: nat): (r: seq<StitchPoint>)
    requires 0 < i < |points| && spacing != 0.0
    requires done <= MaxInt(Ceil(SegLen(math, points[i - 1], points[i]) / spacing), 0)
    ensures |r| == done
  {
    if done == 0 then []
    else
      var start := points[i - 1];
      var steps := Ceil(SegLen(math, start, points[i]) / spacing);
      SegmentStitches(math, points, i, color, spacing, done - 1) +
        [Along(start, points[i].x - start.x, points[i].y - start.y, done as real / steps as real, color)]
  }

  /** The number of stitches segment i adds: none when it is shorter than minLength. */
  function SegmentCount(math: MathLib, points: seq<Point>, i: nat, settings: StrokeSettings): nat
    requires 0 < i < |points|
  {
    var d := SegLen(math, points[i - 1], points[i]);
    if d < MinLength(settings) then 0 else MaxInt(Ceil(d / Spacing(settings)), 0)
  }

  /** generateStroke over the segments ending before index n. */
  function Stroke(math: MathLib, points: seq<Point>, color: string, settings: StrokeSettings, n: nat): seq<StitchPoint>
    requires n <= |points|
  {
    if n <= 1 then []
    else
      Stroke(math, points, color, settings, n - 1) +
        SegmentStitches(math, points, n - 1, color, Spacing(settings), SegmentCount(math, points, n - 1, settings))
  }

  /** generateStroke. */
  method GenerateStroke(math: MathLib, points: seq<Point>, color: string, settings: StrokeSettings) returns (stitches: seq<StitchPoint>)
    ensures stitches == Stroke(math, points, color, settings, |points|)
  {
    stitches := [];
    var spacing := OrDefault(settings.strokeSpacing, 0.4);
    var minLength := OrDefault(settings.minLength, 0.1);
    var i := 1;
    while i < |points|
      invariant 1 <= i && (|points| > 0 ==> i <= |points|)
      invariant stitches == Stroke(math, points, color, settings, if |points| == 0 then 0 else i)
    {
      var start := points[i - 1];
      var end := points[i];
      var dx := end.x - start.x;
      var dy := end.y - start.y;
      assert dx * dx + dy * dy == PointDistSq(start, end);
      var distance := math.sqrt(dx * dx + dy * dy);
      assert distance == SegLen(math, points[i - 1], points[i]);
      if distance < minLength {
        i := i + 1;
        continue;
      }
      var steps := Ceil(distance / spacing);
      stitches := DivideSegment(math, points, i, color, spacing, steps, stitches);
      i := i + 1;
    }
  }

  /** The inner loop of generateStroke: the steps points of segment i, appended. */
  method DivideSegment(math: MathLib, points: seq<Point>, i: nat, color: string, spacing: real, steps: int, stitches: seq<StitchPoint>)
    returns (r: seq<StitchPoint>)
    requires 0 < i < |points| && spacing != 0.0
    requires steps == Ceil(SegLen(math, points[i - 1], points[i]) / spacing)
    ensures r == stitches + SegmentStitches(math, points, i, color, spacing, MaxInt(steps, 0))
  {
    r := stitches;
    var start := points[i - 1];
    var dx := points[i].x - start.x;
    var dy := points[i].y - start.y;
    var j := 1;
    while j <= steps
      invariant 1 <= j <= MaxInt(steps, 0) + 1
      invariant r == stitches + SegmentStitches(math, points, i, color, spacing, j - 1)
    {
      var t := j as real / steps as real;
      SegmentStep(math, points, i, color, spacing, j);
      var stitch := StitchPoint(start.x + dx * t, start.y + dy * t, Normal, color);
      assert stitch == StitchPoint(points[i - 1].x + (points[i].x - points[i - 1].x) * (j as real / Ceil(SegLen(math, points[i - 1], points[i]) / spacing) as real),
                       points[i - 1].y + (points[i].y - points[i - 1].y) * (j as real / Ceil(SegLen(math, points[i - 1], points[i]) / spacing) as real), Normal, color);
      assert SegmentStitches(math, points, i, color, spacing, j) == SegmentStitches(math, points, i, color, spacing, j - 1) + [stitch];
      r := r + [stitch];
      j := j + 1;
    }
  }

  /** One more step of a segment. */
  lemma SegmentStep(math: MathLib, points: seq<Point>, i: nat, color: string, spacing: real, j: nat)
    requires 0 < i < |points| && spacing != 0.0
    requires 1 <= j <= MaxInt(Ceil(SegLen(math, points[i - 1], points[i]) / spacing), 0)
    ensures var start := points[i - 1];
      var steps := Ceil(SegLen(math, start, points[i]) / spacing);
      SegmentStitches(math, points, i, color, spacing, j) ==
        SegmentStitches(math, points, i, color, spacing, j - 1) +
          [StitchPoint(start.x + (points[i].x - start.x) * (j as real / steps as real),
                       start.y + (points[i].y - start.y) * (j as real / steps as real), Normal, color)]
  {
  }

  // ---------------------------------------------------------------------
  // generateRunningStitch

  /** The total length of the segments ending before index n. */
  function PathLength(math: MathLib, points: seq<Point>, n: nat): real
    requires n <= |points|
  {
    if n <= 1 then 0.0 else PathLength(math, points, n - 1) + SegLen(math, points[n - 2], points[n - 1])
  }

  /** The running stitch's state: distance into the segment, segment index, segment start and length. */
  datatype Cursor = Cursor(dist: real, segment: nat, start: Point, length: real)

  /** The inner while loop: move to the next segment while the distance lies beyond the current one. */
  function Advance(math: MathLib, points: seq<Point>, c: Cursor): (r: Cursor)
    requires c.segment < |points|
    ensures c.segment <= r.segment < |points|
    ensures r.dist <= r.length || r.segment == |points| - 1
    decreases |points| - c.segment
  {
    if c.dist > c.length && c.segment < |points| - 1 then
      var segment := c.segment + 1;
      var start := points[segment - 1];
      Advance(math, points, Cursor(c.dist - c.length, segment, start, SegLen(math, start, points[segment])))
    else c
  }

  /** `Math.ceil(totalLength / spacing)`. */
  function NumStitches(math: MathLib, points: seq<Point>, settings: StrokeSettings): int {
    Ceil(PathLength(math, points, |points|) / Spacing(settings))
  }

  /** `totalLength / numStitches`; NaN when numStitches is 0, in which case it is never used. */
  function Increment(math: MathLib, points: seq<Point>, settings: StrokeSettings): real {
    var n := NumStitches(math, points, settings);
    if n == 0 then 0.0 else PathLength(math, points, |points|) / n as real
  }

  /** The state at the top of iteration i of the outer loop. */
  function Before(math: MathLib, points: seq<Point>, settings: StrokeSettings, i: nat): (c: Cursor)
    requires |points| >= 2
    ensures c.segment < |points|
  {
    if i == 0 then Cursor(0.0, 0, points[0], 0.0)
    else
      var c := Advance(math, points, Before(math, points, settings, i - 1));
      c.(dist := c.dist + Increment(math, points, settings))
  }

  /** The state when stitch i is placed. */
  function At(math: MathLib, points: seq<Point>, settings: StrokeSettings, i: nat): (c: Cursor)
    requires |points| >= 2
    ensures c.segment < |points|
  {
    Advance(math, points, Before(math, points, settings, i))
  }

  /** A pushed stitch: normal, in its colour, at a position or at NaN/infinite coordinates. */
  datatype Emitted = Placed(stitch: StitchPoint) | NotFinite(color: string)

  /** The stitch placed from a cursor: `t = currentDist / segmentLength` is not finite for a zero length. */
  function RunningStitchAt(points: seq<Point>, c: Cursor, color: string): Emitted
    requires c.segment < |points|
  {
    if c.length == 0.0 then NotFinite(color)
    else
      var t := c.dist / c.length;
      Placed(Along(c.start, points[c.segment].x - c.start.x, points[c.segment].y - c.start.y, t, color))
  }

  /** A path with fewer than two points has length 0, so no stitches. */
  lemma ShortPath(math: MathLib, points: seq<Point>, settings: StrokeSettings)
    requires |points| < 2
    ensures NumStitches(math, points, settings) == 0
  {
  }

  /** generateRunningStitch: the first n stitches, as written. */
  function RunningStitches(math: MathLib, points: seq<Point>, color: string, settings: StrokeSettings, n: nat): (r: seq<Emitted>)
    requires n <= MaxInt(NumStitches(math, points, settings), 0)
    ensures |r| == n
  {
    if n == 0 then []
    else
      ShortPathFree(math, points, settings);
      RunningStitches(math, points, color, settings, n - 1) + [RunningStitchAt(points, At(math, points, settings, n - 1), color)]
  }

  /** Any stitch at all means the path has two points or more. */
  lemma ShortPathFree(math: MathLib, points: seq<Point>, settings: StrokeSettings)
    ensures NumStitches(math, points, settings) > 0 ==> |points| >= 2
  {
    if |points| < 2 {
      ShortPath(math, points, settings);
    }
  }

  /** generateRunningStitch. */
  method GenerateRunningStitch(math: MathLib, points: seq<Point>, color: string, settings: StrokeSettings) returns (stitches: seq<Emitted>)
    ensures stitches == RunningStitches(math, points, color, settings, MaxInt(NumStitches(math, points, settings), 0))
  {
    stitches := [];
    var spacing := OrDefault(settings.strokeSpacing, 0.4);
    var totalLength := TotalLength(math, points);
    if |points| < 2 {
      // numStitches is 0 here: the source's loop does not run.
      ShortPath(math, points, settings);
      return;
    }
    var numStitches := Ceil(totalLength / spacing);
    assert numStitches == NumStitches(math, points, settings);
    var increment := if numStitches == 0 then 0.0 else totalLength / numStitches as real;
    assert increment == Increment(math, points, settings);
    var currentDist := 0.0;
    var currentSegment: nat := 0;
    var segmentStart := points[0];
    var segmentLength := 0.0;
    var i := 0;
    while i < numStitches
      invariant 0 <= i <= MaxInt(numStitches, 0)
      invariant Cursor(currentDist, currentSegment, segmentStart, segmentLength) == Before(math, points, settings, i)
      invariant stitches == RunningStitches(math, points, color, settings, i)
    {
      currentDist, currentSegment, segmentStart, segmentLength :=
        AdvanceCursor(math, points, currentDist, currentSegment, segmentStart, segmentLength);
      ghost var c := Cursor(currentDist, currentSegment, segmentStart, segmentLength);
      assert c == At(math, points, settings, i);
      RunningStep(math, points, color, settings, i);
      var emitted;
      if segmentLength == 0.0 {
        emitted := NotFinite(color);
      } else {
        var t := currentDist / segmentLength;
        var dx := points[currentSegment].x - segmentStart.x;
        var dy := points[currentSegment].y - segmentStart.y;
        emitted := Placed(Along(segmentStart, dx, dy, t, color));
      }
      assert emitted == RunningStitchAt(points, At(math, points, settings, i), color);
      stitches := stitches + [emitted];
      currentDist := currentDist + increment;
      i := i + 1;
    }
  }

  /** The first loop of generateRunningStitch: the length of the whole path. */
  method TotalLength(math: MathLib, points: seq<Point>) returns (totalLength: real)
    ensures totalLength == PathLength(math, points, |points|)
  {
    totalLength := 0.0;
    var k := 1;
    while k < |points|
      invariant 1 <= k && (|points| > 0 ==> k <= |points|)
      invariant totalLength == PathLength(math, points, if |points| == 0 then 0 else k)
    {
      var dx := points[k].x - points[k - 1].x;
      var dy := points[k].y - points[k - 1].y;
      assert dx * dx + dy * dy == PointDistSq(points[k - 1], points[k]);
      totalLength := totalLength + math.sqrt(dx * dx + dy * dy);
      k := k + 1;
    }
  }

  /** One more stitch, and the cursor at the top of the next iteration. */
  lemma RunningStep(math: MathLib, points: seq<Point>, color: string, settings: StrokeSettings, i: nat)
    requires |points| >= 2 && i < NumStitches(math, points, settings)
    ensures RunningStitches(math, points, color, settings, i + 1) ==
      RunningStitches(math, points, color, settings, i) + [RunningStitchAt(points, At(math, points, settings, i), color)]
    ensures var c := At(math, points, settings, i);
      Before(math, points, settings, i + 1) == c.(dist := c.dist + Increment(math, points, settings))
  {
  }

  /** The inner while loop of generateRunningStitch. */
  method AdvanceCursor(math: MathLib, points: seq<Point>, dist: real, segment: nat, start: Point, length: real)
    returns (currentDist: real, currentSegment: nat, segmentStart: Point, segmentLength: real)
    requires segment < |points|
    ensures Cursor(currentDist, currentSegment, segmentStart, segmentLength) == Advance(math, points, Cursor(dist, segment, start, length))
  {
    currentDist, currentSegment, segmentStart, segmentLength := dist, segment, start, length;
    while currentDist > segmentLength && currentSegment < |points| - 1
      invariant currentSegment < |points|
      invariant Advance(math, points, Cursor(currentDist, currentSegment, segmentStart, segmentLength)) ==
        Advance(math, points, Cursor(dist, segment, start, length))
      decreases |points| - currentSegment
    {
      currentDist := currentDist - segmentLength;
      currentSegment := currentSegment + 1;
      segmentStart := points[currentSegment - 1];
      var dx := points[currentSegment].x - segmentStart.x;
      var dy := points[currentSegment].y - segmentStart.y;
      assert dx * dx + dy * dy == PointDistSq(segmentStart, points[currentSegment]);
      segmentLength := math.sqrt(dx * dx + dy * dy);
    }
  }

  /**
   * The intended first stitch: with `t` taken as 0 on a segment of zero
   * length, stitch i lies at the cursor's point of its segment.
   */
  function CorrectedStitchAt(points: seq<Point>, c: Cursor, color: string): StitchPoint
    requires c.segment < |points|
  {
    var t := if c.length == 0.0 then 0.0 else c.dist / c.length;
    Along(c.start, points[c.segment].x - c.start.x, points[c.segment].y - c.start.y, t, color)
  }

  /** The running stitch with the zero-length division avoided. */
  function CorrectedRunningStitches(math: MathLib, points: seq<Point>, color: string, settings: StrokeSettings): (r: seq<StitchPoint>)
    ensures |r| == MaxInt(NumStitches(math, points, settings), 0)
  {
    var n := MaxInt(NumStitches(math, points, settings), 0);
    ShortPathFree(math, points, settings);
    seq(n, i requires 0 <= i < n => CorrectedStitchAt(points, At(math, points, settings, i), color))
  }

  // ---------------------------------------------------------------------
  // generateZigZagStitch

  /** The stitch at step j of a zig-zag segment: on the + side for even j, the - side for odd j. */
  function ZigZagAt(start: Point, end: Point, distance: real, steps: int, width: real, j: nat, color: string): Emitted {
    var dx := end.x - start.x;
    var dy := end.y - start.y;
    if distance == 0.0 || steps == 0 then NotFinite(color)
    else
      var perpX := -dy / distance * (width / 2.0);
      var perpY := dx / distance * (width / 2.0);
      var t := j as real / steps as real;
      var side := if j % 2 == 0 then 1.0 else -1.0;
      Placed(Shift(Along(start, dx, dy, t, color), perpX * side, perpY * side))
  }

  /** A stitch moved by (ox, oy). */
  function Shift(s: StitchPoint, ox: real, oy: real): StitchPoint {
    s.(x := s.x + ox, y := s.y + oy)
  }

  /** The first `done` stitches of zig-zag segment i. */
  function ZigZagSegment(math: MathLib, points: seq<Point>, i: nat, width: real, color: string, spacing: real, done: nat): (r: seq<Emitted>)
    requires 0 < i < |points| && spacing != 0.0
    ensures |r| == done
  {
    if done == 0 then []
    else
      var d := SegLen(math, points[i - 1], points[i]);
      ZigZagSegment(math, points, i, width, color, spacing, done - 1) +
        [ZigZagAt(points[i - 1], points[i], d, Ceil(d / spacing), width, done - 1, color)]
  }

  /** The number of stitches of zig-zag segment i: steps + 1, or none when steps is negative. */
  function ZigZagCount(math: MathLib, points: seq<Point>, i: nat, spacing: real): nat
    requires 0 < i < |points| && spacing != 0.0
  {
    MaxInt(Ceil(SegLen(math, points[i - 1], points[i]) / spacing) + 1, 0)
  }

  /** generateZigZagStitch over the segments ending before index n. */
  function ZigZag(math: MathLib, points: seq<Point>, width: real, color: string, settings: StrokeSettings, n: nat): seq<Emitted>
    requires n <= |points|
  {
    if n <= 1 then []
    else
      ZigZag(math, points, width, color, settings, n - 1) +
        ZigZagSegment(math, points, n - 1, width, color, Spacing(settings), ZigZagCount(math, points, n - 1, Spacing(settings)))
  }

  /** generateZigZagStitch. */
  method GenerateZigZagStitch(math: MathLib, points: seq<Point>, width: real, color: string, settings: StrokeSettings)
    returns (stitches: seq<Emitted>)
    ensures stitches == ZigZag(math, points, width, color, settings, |points|)
  {
    stitches := [];
    var spacing := OrDefault(settings.strokeSpacing, 0.4);
    var i := 1;
    while i < |points|
      invariant 1 <= i && (|points| > 0 ==> i <= |points|)
      invariant stitches == ZigZag(math, points, width, color, settings, if |points| == 0 then 0 else i)
    {
      var start := points[i - 1];
      var end := points[i];
      var dx := end.x - start.x;
      var dy := end.y - start.y;
      assert dx * dx + dy * dy == PointDistSq(start, end);
      var distance := math.sqrt(dx * dx + dy * dy);
      assert distance == SegLen(math, points[i - 1], points[i]);
      var steps := Ceil(distance / spacing);
      ghost var before := stitches;
      var j := 0;
      while j <= steps
        invariant 0 <= j <= MaxInt(steps + 1, 0)
        invariant stitches == before + ZigZagSegment(math, points, i, width, color, spacing, j)
      {
        stitches := stitches + [ZigZagAt(start, end, distance, steps, width, j, color)];
        j := j + 1;
      }
      i := i + 1;
    }
  }

  // ---------------------------------------------------------------------
  // Properties

  /**
   * A segment of length d at least minLength adds ceil(d / spacing)
   * stitches at t = j / steps for j = 1..steps: each is normal in the given
   * colour, none is at t = 0 (its start), and the last is its end.
   */
  lemma {:induction false} SegmentShape(math: MathLib, points: seq<Point>, i: nat, color: string, spacing: real, done: nat)
    requires 0 < i < |points| && spacing != 0.0
    requires done <= MaxInt(Ceil(SegLen(math, points[i - 1], points[i]) / spacing), 0)
    ensures var r := SegmentStitches(math, points, i, color, spacing, done);
      var start := points[i - 1];
      var steps := Ceil(SegLen(math, start, points[i]) / spacing);
      AllNormal(r, color) &&
      forall k :: 0 <= k < done ==>
        r[k] == Along(start, points[i].x - start.x, points[i].y - start.y, (k + 1) as real / steps as real, color) &&
        (k + 1) as real / steps as real > 0.0
  {
    if done > 0 {
      SegmentShape(math, points, i, color, spacing, done - 1);
    }
  }

  /** The last stitch of a segment of steps >= 1 lies on the segment's end. */
  lemma SegmentEndsAtEnd(math: MathLib, points: seq<Point>, i: nat, color: string, spacing: real)
    requires 0 < i < |points| && spacing != 0.0
    requires Ceil(SegLen(math, points[i - 1], points[i]) / spacing) >= 1
    ensures var steps := Ceil(SegLen(math, points[i - 1], points[i]) / spacing);
      var r := SegmentStitches(math, points, i, color, spacing, steps);
      r[steps - 1].x == points[i].x && r[steps - 1].y == points[i].y
  {
    var steps := Ceil(SegLen(math, points[i - 1], points[i]) / spacing);
    SegmentShape(math, points, i, color, spacing, steps);
    assert steps as real / steps as real == 1.0;
  }

  /**
   * generateStroke emits only normal stitches in the given colour, one
   * segment after another: segment i (shorter than minLength: none) adds
   * SegmentCount of them.
   */
  lemma {:induction false} StrokeShape(math: MathLib, points: seq<Point>, color: string, settings: StrokeSettings, n: nat)
    requires n <= |points|
    ensures AllNormal(Stroke(math, points, color, settings, n), color)
    ensures n >= 2 ==>
      |Stroke(math, points, color, settings, n)| ==
        |Stroke(math, points, color, settings, n - 1)| + SegmentCount(math, points, n - 1, settings)
    ensures n >= 2 && SegLen(math, points[n - 2], points[n - 1]) < MinLength(settings) ==>
      Stroke(math, points, color, settings, n) == Stroke(math, points, color, settings, n - 1)
  {
    if n >= 2 {
      StrokeShape(math, points, color, settings, n - 1);
      SegmentShape(math, points, n - 1, color, Spacing(settings), SegmentCount(math, points, n - 1, settings));
    }
  }

  /** When every segment is shorter than minLength the stroke is empty. */
  lemma {:induction false} AllShortSegments(math: MathLib, points: seq<Point>, color: string, settings: StrokeSettings, n: nat)
    requires n <= |points|
    requires forall i :: 0 < i < |points| ==> SegLen(math, points[i - 1], points[i]) < MinLength(settings)
    ensures Stroke(math, points, color, settings, n) == []
  {
    if n >= 2 {
      AllShortSegments(math, points, color, settings, n - 1);
    }
  }

  /** Missing or zero settings fall back to a spacing of 0.4 and a minimum length of 0.1. */
  lemma StrokeDefaults(settings: StrokeSettings)
    ensures settings.strokeSpacing.None? || settings.strokeSpacing == Some(0.0) ==> Spacing(settings) == 0.4
    ensures settings.minLength.None? || settings.minLength == Some(0.0) ==> MinLength(settings) == 0.1
    ensures settings.strokeSpacing.Some? && settings.strokeSpacing.value != 0.0 ==> Spacing(settings) == settings.strokeSpacing.value
  {
  }

  /**
   * The running stitch has exactly ceil(total / spacing) stitches (none
   * when that is not positive), each normal in the given colour; the
   * segment cursor only moves forward and never passes the last segment.
   */
  lemma RunningStitchShape(math: MathLib, points: seq<Point>, color: string, settings: StrokeSettings, i: nat)
    requires i < NumStitches(math, points, settings)
    ensures |points| >= 2
    ensures |RunningStitches(math, points, color, settings, MaxInt(NumStitches(math, points, settings), 0))| ==
      NumStitches(math, points, settings)
    ensures var s := RunningStitches(math, points, color, settings, MaxInt(NumStitches(math, points, settings), 0));
      (s[i].Placed? ==> s[i].stitch.kind == Normal && s[i].stitch.color == color) &&
      (s[i].NotFinite? ==> s[i].color == color)
    ensures Before(math, points, settings, i).segment <= At(math, points, settings, i).segment <= |points| - 1
    ensures At(math, points, settings, i).segment <= Before(math, points, settings, i + 1).segment
  {
    ShortPathFree(math, points, settings);
    RunningStitchesIndex(math, points, color, settings, MaxInt(NumStitches(math, points, settings), 0), i);
  }

  /** Stitch i of the running stitch is the one placed from cursor i. */
  lemma {:induction false} RunningStitchesIndex(math: MathLib, points: seq<Point>, color: string, settings: StrokeSettings, n: nat, i: nat)
    requires n <= MaxInt(NumStitches(math, points, settings), 0) && i < n
    ensures |points| >= 2
    ensures RunningStitches(math, points, color, settings, n)[i] == RunningStitchAt(points, At(math, points, settings, i), color)
  {
    ShortPathFree(math, points, settings);
    if i < n - 1 {
      RunningStitchesIndex(math, points, color, settings, n - 1, i);
    }
  }

  /**
   * As written, the first stitch divides 0 by the initial segment length 0:
   * whenever the path yields any stitch at all, the first one has NaN
   * coordinates.
   */
  lemma FirstRunningStitchNotFinite(math: MathLib, points: seq<Point>, color: string, settings: StrokeSettings)
    requires NumStitches(math, points, settings) >= 1
    ensures RunningStitches(math, points, color, settings, MaxInt(NumStitches(math, points, settings), 0))[0] == NotFinite(color)
  {
    RunningStitchesIndex(math, points, color, settings, MaxInt(NumStitches(math, points, settings), 0), 0);
  }

  /** A concrete path: two points one unit apart with the default spacing give three stitches, the first at NaN. */
  lemma RunningStitchExample(math: MathLib)
    requires math.sqrt(1.0) == 1.0
    ensures var points := [Point(0.0, 0.0), Point(1.0, 0.0)];
      var settings := StrokeSettings(None, None, None);
      NumStitches(math, points, settings) == 3 &&
      RunningStitches(math, points, "#000000", settings, 3)[0] == NotFinite("#000000")
  {
    var points := [Point(0.0, 0.0), Point(1.0, 0.0)];
    var settings := StrokeSettings(None, None, None);
    assert PointDistSq(points[0], points[1]) == 1.0;
    assert PathLength(math, points, 2) == 1.0;
    assert 1.0 / 0.4 == 2.5;
    FirstRunningStitchNotFinite(math, points, "#000000", settings);
  }

  /** With t taken as 0 on a zero-length segment, the first stitch is the path's first point. */
  lemma CorrectedStartsAtFirstPoint(math: MathLib, points: seq<Point>, color: string, settings: StrokeSettings)
    requires NumStitches(math, points, settings) >= 1
    ensures |points| >= 2
    ensures var s := CorrectedRunningStitches(math, points, color, settings);
      s[0] == StitchPoint(points[0].x, points[0].y, Normal, color)
  {
    ShortPathFree(math, points, settings);
    assert At(math, points, settings, 0) == Cursor(0.0, 0, points[0], 0.0);
  }

  /** Stitch j of a zig-zag segment is ZigZagAt for that j. */
  lemma {:induction false} ZigZagSegmentIndex(math: MathLib, points: seq<Point>, i: nat, width: real, color: string, spacing: real, done: nat)
    requires 0 < i < |points| && spacing != 0.0
    ensures var r := ZigZagSegment(math, points, i, width, color, spacing, done);
      var d := SegLen(math, points[i - 1], points[i]);
      |r| == done &&
      forall j :: 0 <= j < done ==> r[j] == ZigZagAt(points[i - 1], points[i], d, Ceil(d / spacing), width, j, color)
  {
    if done > 0 {
      ZigZagSegmentIndex(math, points, i, width, color, spacing, done - 1);
    }
  }

  /**
   * On a segment of non-zero length with steps = ceil(d / spacing) >= 1,
   * stitch j lies at t = j / steps along the segment, moved off it by
   * (perpX, perpY) on the + side for even j and on the - side for odd j;
   * on a segment of zero length, or with no steps, every stitch is not finite.
   */
  lemma ZigZagSegmentShape(math: MathLib, points: seq<Point>, i: nat, width: real, color: string, spacing: real, done: nat, j: nat)
    requires 0 < i < |points| && spacing != 0.0 && j < done
    ensures var r := ZigZagSegment(math, points, i, width, color, spacing, done);
      var d := SegLen(math, points[i - 1], points[i]);
      var steps := Ceil(d / spacing);
      var dx := points[i].x - points[i - 1].x;
      var dy := points[i].y - points[i - 1].y;
      var side := if j % 2 == 0 then 1.0 else -1.0;
      j < |r| &&
      (d != 0.0 && steps != 0 ==>
        r[j] == Placed(Shift(Along(points[i - 1], dx, dy, j as real / steps as real, color),
                             (-dy / d * (width / 2.0)) * side, (dx / d * (width / 2.0)) * side))) &&
      (d == 0.0 || steps == 0 ==> r[j] == NotFinite(color))
  {
    ZigZagSegmentIndex(math, points, i, width, color, spacing, done);
    var d := SegLen(math, points[i - 1], points[i]);
    var r := ZigZagSegment(math, points, i, width, color, spacing, done);
    assert r[j] == ZigZagAt(points[i - 1], points[i], d, Ceil(d / spacing), width, j, color);
    ZigZagAtForm(points[i - 1], points[i], d, Ceil(d / spacing), width, j, color);
  }

  lemma ZigZagAtForm(start: Point, end: Point, d: real, steps: int, width: real, j: nat, color: string)
    ensures var dx := end.x - start.x;
      var dy := end.y - start.y;
      var side := if j % 2 == 0 then 1.0 else -1.0;
      (d != 0.0 && steps != 0 ==>
        ZigZagAt(start, end, d, steps, width, j, color) ==
          Placed(Shift(Along(start, dx, dy, j as real / steps as real, color), (-dy / d * (width / 2.0)) * side, (dx / d * (width / 2.0)) * side)))
  {
    if d != 0.0 && steps != 0 {
      var dx := end.x - start.x;
      var dy := end.y - start.y;
      var perpX := -dy / d * (width / 2.0);
      var perpY := dx / d * (width / 2.0);
      var t := j as real / steps as real;
      var side := if j % 2 == 0 then 1.0 else -1.0;
      assert ZigZagAt(start, end, d, steps, width, j, color) == Placed(Shift(Along(start, dx, dy, t, color), perpX * side, perpY * side));
    }
  }

  /**
   * The zig-zag offset (perpX, perpY) is perpendicular to the segment, and
   * when the square root is exact its length is width / 2.
   */
  lemma ZigZagOffset(dx: real, dy: real, d: real, width: real)
    requires d != 0.0
    ensures var perpX := -dy / d * (width / 2.0);
      var perpY := dx / d * (width / 2.0);
      perpX * dx + perpY * dy == 0.0 &&
      (d * d == dx * dx + dy * dy ==> perpX * perpX + perpY * perpY == (width / 2.0) * (width / 2.0))
  {
    var h := width / 2.0;
    var r := 1.0 / d;
    assert r * d == 1.0;
    var u := -dy / d;
    var v := dx / d;
    assert u == -dy * r && v == dx * r;
    var perpX := u * h;
    var perpY := v * h;
    assert perpX * dx + perpY * dy == h * r * (-dy * dx + dx * dy);
    if d * d == dx * dx + dy * dy {
      assert u * u + v * v == (dx * dx + dy * dy) * (r * r);
      assert (d * d) * (r * r) == (d * r) * (d * r);
      assert perpX * perpX + perpY * perpY == (u * u + v * v) * (h * h);
    }
  }
}
