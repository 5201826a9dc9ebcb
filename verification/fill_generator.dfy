/**
 * The scan-line fill of src/lib/embroidery/fill-generator.ts: lines at the
 * fill angle are laid across the bounding box of a polygon, each is cut
 * against every edge of the closed polygon, the crossings are sorted by y
 * and joined in pairs by two normal stitches.
 *
 * Math.cos, Math.sin, Math.sqrt and Math.PI come from the `math` parameter.
 */
module FillGenerator {
  import opened Wrappers
  import opened Numeric
  import opened Types
  import opened Sorting
  import opened Geometry

  /** The fields of `Partial<StitchSettings>` generateFill reads; each may be absent. */
  datatype FillSettings = FillSettings(spacing: Option<real>, angle: Option<real>)

  /** `settings.spacing || 0.4`. */
  function Spacing(settings: FillSettings): (r: real)
    ensures r != 0.0
  {
    OrDefault(settings.spacing, 0.4)
  }

  /** `(settings.angle || 0) * (Math.PI / 180)`: the fill angle in radians. */
  function Angle(math: MathLib, settings: FillSettings): real {
    OrDefault(settings.angle, 0.0) * (math.pi / 180.0)
  }

  // ---------------------------------------------------------------------
  // calculateBounds

  function Xs(points: seq<Point>): (xs: seq<real>)
    ensures |xs| == |points| && forall i :: 0 <= i < |points| ==> xs[i] == points[i].x
  {
    seq(|points|, i requires 0 <= i < |points| => points[i].x)
  }

  function Ys(points: seq<Point>): (ys: seq<real>)
    ensures |ys| == |points| && forall i :: 0 <= i < |points| ==> ys[i] == points[i].y
  {
    seq(|points|, i requires 0 <= i < |points| => points[i].y)
  }

  /**
   * calculateBounds: `Math.min(...xs)` and the like. Only generateFill calls
   * it, after returning early on an empty list.
   */
  function CalculateBounds(points: seq<Point>): (b: Bounds)
    requires |points| > 0
    ensures forall i :: 0 <= i < |points| ==>
      b.minX <= points[i].x <= b.maxX && b.minY <= points[i].y <= b.maxY
    ensures exists i :: 0 <= i < |points| && points[i].x == b.minX
    ensures exists i :: 0 <= i < |points| && points[i].x == b.maxX
    ensures exists i :: 0 <= i < |points| && points[i].y == b.minY
    ensures exists i :: 0 <= i < |points| && points[i].y == b.maxY
  {
    Bounds(Minimum(Xs(points)), Maximum(Xs(points)), Minimum(Ys(points)), Maximum(Ys(points)))
  }

  // ---------------------------------------------------------------------
  // generateFillLines

  /** `|width cos| + |height sin|`: the box's extent across the fill direction. */
  function RotatedWidth(math: MathLib, bounds: Bounds, angle: real): (r: real)
    ensures r >= 0.0
  {
    var a := (bounds.maxX - bounds.minX) * math.cos(angle);
    var b := (bounds.maxY - bounds.minY) * math.sin(angle);
    AbsReal(a) + AbsReal(b)
  }

  /** `Math.ceil(rotatedWidth / spacing)`. */
  function NumLines(math: MathLib, bounds: Bounds, angle: real, spacing: real): int
    requires spacing != 0.0
  {
    Ceil(RotatedWidth(math, bounds, angle) / spacing)
  }

  /**
   * The scan line for loop index i: centred on the box's centre moved i
   * spacings along (cos, sin), reaching `diagonal` to either side along
   * (sin, -cos).
   */
  function FillLine(minX: real, minY: real, width: real, height: real, cos: real, sin: real, diagonal: real, spacing: real, i: int): Line {
    var x := minX + width / 2.0 + i as real * spacing * cos;
    var y := minY + height / 2.0 + i as real * spacing * sin;
    Line(Point(x - diagonal * sin, y + diagonal * cos), Point(x + diagonal * sin, y - diagonal * cos))
  }

  /** The lines for i = -numLines .. numLines, in that order. */
  function FillLines(math: MathLib, bounds: Bounds, angle: real, spacing: real): (r: seq<Line>)
    requires spacing != 0.0
  {
    var n := NumLines(math, bounds, angle, spacing);
    var width := bounds.maxX - bounds.minX;
    var height := bounds.maxY - bounds.minY;
    var diagonal := math.sqrt(DiagonalSq(bounds));
    seq(MaxInt(2 * n + 1, 0), k requires 0 <= k =>
      FillLine(bounds.minX, bounds.minY, width, height, math.cos(angle), math.sin(angle), diagonal, spacing, k - n))
  }

  /** The body of generateFillLines' loop: the line for index i. */
  method ScanLine(minX: real, minY: real, width: real, height: real, cos: real, sin: real, diagonal: real, spacing: real, i: int)
    returns (line: Line)
    ensures line == FillLine(minX, minY, width, height, cos, sin, diagonal, spacing, i)
  {
    var x := minX + width / 2.0 + i as real * spacing * cos;
    var y := minY + height / 2.0 + i as real * spacing * sin;
    line := Line(Point(x - diagonal * sin, y + diagonal * cos), Point(x + diagonal * sin, y - diagonal * cos));
  }

  /** Line k of the list is the one for loop index k - numLines. */
  lemma FillLinesAt(math: MathLib, bounds: Bounds, angle: real, spacing: real, k: nat)
    requires spacing != 0.0 && k < |FillLines(math, bounds, angle, spacing)|
    ensures FillLines(math, bounds, angle, spacing)[k] ==
      FillLine(bounds.minX, bounds.minY, bounds.maxX - bounds.minX, bounds.maxY - bounds.minY,
               math.cos(angle), math.sin(angle), math.sqrt(DiagonalSq(bounds)), spacing, k - NumLines(math, bounds, angle, spacing))
  {
  }

  /** generateFillLines. */
  method GenerateFillLines(math: MathLib, bounds: Bounds, angle: real, spacing: real) returns (lines: seq<Line>)
    requires spacing != 0.0
    ensures lines == FillLines(math, bounds, angle, spacing)
  {
    lines := [];
    var width := bounds.maxX - bounds.minX;
    var height := bounds.maxY - bounds.minY;
    var cos := math.cos(angle);
    var sin := math.sin(angle);
    var rotatedWidth := AbsReal(width * cos) + AbsReal(height * sin);
    var numLines := Ceil(rotatedWidth / spacing);
    var diagonal := math.sqrt(width * width + height * height);
    assert rotatedWidth == RotatedWidth(math, bounds, angle);
    ghost var expected := FillLines(math, bounds, angle, spacing);
    assert numLines == NumLines(math, bounds, angle, spacing);
    assert width * width + height * height == DiagonalSq(bounds);
    assert |expected| == MaxInt(2 * numLines + 1, 0);
    var i := -numLines;
    while i <= numLines
      invariant -numLines <= i <= MaxInt(numLines + 1, -numLines)
      invariant lines == expected[..i + numLines]
    {
      var line := ScanLine(bounds.minX, bounds.minY, width, height, cos, sin, diagonal, spacing, i);
      FillLinesAt(math, bounds, angle, spacing, i + numLines);
      assert expected[i + numLines] == line;
      assert expected[..i + numLines + 1] == expected[..i + numLines] + [line];
      lines := lines + [line];
      i := i + 1;
    }
    assert expected[..i + numLines] == expected;
  }

  // ---------------------------------------------------------------------
  // lineIntersection and findIntersections

  /**
   * lineIntersection: the crossing of segment p1 → p2 with segment p3 → p4,
   * if any. Near-parallel segments give none, and a crossing it returns lies
   * on both segments.
   */
  function LineIntersection(p1: Point, p2: Point, p3: Point, p4: Point): (r: Option<Point>)
    ensures AbsReal(Denominator(p1, p2, p3, p4)) < 1.0 / 10000000000.0 ==> r.None?
    ensures r.Some? ==> OnSegment(r.value, p1, p2) && OnSegment(r.value, p3, p4)
  {
    var denominator := Denominator(p1, p2, p3, p4);
    if AbsReal(denominator) < 1.0 / 10000000000.0 then None
    else
      var ua := UaNumerator(p1, p2, p3, p4) / denominator;
      var ub := UbNumerator(p1, p2, p3, p4) / denominator;
      if ua < 0.0 || ua > 1.0 || ub < 0.0 || ub > 1.0 then None
      else
        CrossingOnBoth(p1, p2, p3, p4);
        Some(Lerp(p1, p2, ua))
  }

  /** The end of edge i of the closed polygon: the next point, or the first after the last. */
  function EdgeEnd(points: seq<Point>, i: nat): nat
    requires i < |points|
  {
    (i + 1) % |points|
  }

  /** The crossings with the polygon's edges 0 .. n - 1, in edge order. */
  function Intersections(line: Line, points: seq<Point>, n: nat): (r: seq<Point>)
    requires n <= |points|
    ensures |r| <= n
  {
    if n == 0 then []
    else
      Intersections(line, points, n - 1) +
        match LineIntersection(line.start, line.end, points[n - 1], points[EdgeEnd(points, n - 1)])
        case Some(q) => [q]
        case None => []
  }

  /** findIntersections. */
  method FindIntersections(line: Line, points: seq<Point>) returns (intersections: seq<Point>)
    ensures intersections == Intersections(line, points, |points|)
  {
    intersections := [];
    for i := 0 to |points|
      invariant intersections == Intersections(line, points, i)
    {
      var j := (i + 1) % |points|;
      var intersection := LineIntersection(line.start, line.end, points[i], points[j]);
      if intersection.Some? {
        intersections := intersections + [intersection.value];
      }
    }
  }

  // ---------------------------------------------------------------------
  // generateFill

  /** The sort key of `(a, b) => a.y - b.y`. */
  function Y(p: Point): real {
    p.y
  }

  function NormalAt(p: Point, color: string): StitchPoint {
    StitchPoint(p.x, p.y, Normal, color)
  }

  /** The stitches of the first m pairs (s[0], s[1]), (s[2], s[3]), .... */
  function Pairs(s: seq<Point>, color: string, m: nat): (r: seq<StitchPoint>)
    requires 2 * m <= |s|
    ensures |r| == 2 * m
  {
    if m == 0 then []
    else Pairs(s, color, m - 1) + [NormalAt(s[2 * m - 2], color), NormalAt(s[2 * m - 1], color)]
  }

  /** The stitches of one scan line: its crossings sorted by y, joined in pairs; none below two crossings. */
  function LineStitches(line: Line, points: seq<Point>, color: string): seq<StitchPoint> {
    var intersections := Intersections(line, points, |points|);
    if |intersections| >= 2 then
      var sorted := SortBy(intersections, Y);
      Pairs(sorted, color, |sorted| / 2)
    else []
  }

  /** The stitches of lines 0 .. n - 1. */
  function FillOver(lines: seq<Line>, points: seq<Point>, color: string, n: nat): seq<StitchPoint>
    requires n <= |lines|
  {
    if n == 0 then [] else FillOver(lines, points, color, n - 1) + LineStitches(lines[n - 1], points, color)
  }

  /** generateFill. */
  function Fill(math: MathLib, points: seq<Point>, color: string, settings: FillSettings): seq<StitchPoint> {
    if |points| == 0 then []
    else
      var lines := FillLines(math, CalculateBounds(points), Angle(math, settings), Spacing(settings));
      FillOver(lines, points, color, |lines|)
  }

  /** generateFill. */
  method GenerateFill(math: MathLib, points: seq<Point>, color: string, settings: FillSettings) returns (stitches: seq<StitchPoint>)
    ensures stitches == Fill(math, points, color, settings)
  {
    if |points| == 0 {
      return [];
    }
    stitches := [];
    var spacing := OrDefault(settings.spacing, 0.4);
    var angle := OrDefault(settings.angle, 0.0) * (math.pi / 180.0);
    assert spacing == Spacing(settings) && angle == Angle(math, settings);
    var bounds := CalculateBounds(points);
    var lines := GenerateFillLines(math, bounds, angle, spacing);
    assert Fill(math, points, color, settings) == FillOver(lines, points, color, |lines|);
    for k := 0 to |lines|
      invariant stitches == FillOver(lines, points, color, k)
    {
      stitches := StitchLine(lines[k], points, color, stitches);
    }
  }

  /** One pass of generateFill's loop: the line's crossings, sorted by y and joined in pairs. */
  method StitchLine(line: Line, points: seq<Point>, color: string, stitches: seq<StitchPoint>) returns (r: seq<StitchPoint>)
    ensures r == stitches + LineStitches(line, points, color)
  {
    r := stitches;
    var intersections := FindIntersections(line, points);
    if |intersections| >= 2 {
      intersections := SortBy(intersections, Y);
      r := PushPairs(intersections, color, r);
    }
  }

  /** The inner loop of generateFill: the pairs (i, i + 1) for i = 0, 2, ... while i < length - 1. */
  method PushPairs(intersections: seq<Point>, color: string, stitches: seq<StitchPoint>) returns (r: seq<StitchPoint>)
    ensures r == stitches + Pairs(intersections, color, |intersections| / 2)
  {
    r := stitches;
    var i := 0;
    while i < |intersections| - 1
      invariant i % 2 == 0 && 0 <= i <= |intersections| + 1
      invariant i < |intersections| || i / 2 == |intersections| / 2
      invariant r == stitches + Pairs(intersections, color, i / 2)
    {
      r := r + [NormalAt(intersections[i], color), NormalAt(intersections[i + 1], color)];
      i := i + 2;
    }
  }

  // ---------------------------------------------------------------------
  // Properties

  /** An empty point list gives no stitches. */
  lemma EmptyFill(math: MathLib, color: string, settings: FillSettings)
    ensures Fill(math, [], color, settings) == []
  {
  }

  /** A missing or zero spacing is 0.4 and a missing or zero angle is 0. */
  lemma FillDefaults(math: MathLib, settings: FillSettings)
    ensures settings.spacing.None? || settings.spacing == Some(0.0) ==> Spacing(settings) == 0.4
    ensures settings.angle.None? || settings.angle == Some(0.0) ==> Angle(math, settings) == 0.0
  {
  }

  /**
   * With a positive spacing there are exactly 2 ceil(rotatedWidth / spacing) + 1
   * scan lines, the middle one through the box's centre.
   */
  lemma FillLineCount(math: MathLib, bounds: Bounds, angle: real, spacing: real)
    requires spacing > 0.0
    ensures var n := Ceil(RotatedWidth(math, bounds, angle) / spacing);
      n >= 0 && |FillLines(math, bounds, angle, spacing)| == 2 * n + 1
    ensures var n := Ceil(RotatedWidth(math, bounds, angle) / spacing);
      var mid := FillLines(math, bounds, angle, spacing)[n];
      mid.start.x + mid.end.x == bounds.minX + bounds.maxX && mid.start.y + mid.end.y == bounds.minY + bounds.maxY
  {
    var n := Ceil(RotatedWidth(math, bounds, angle) / spacing);
    CeilBounds(RotatedWidth(math, bounds, angle) / spacing);
    assert RotatedWidth(math, bounds, angle) / spacing >= 0.0;
    FillLinesAt(math, bounds, angle, spacing, n);
  }

  /**
   * Scan line k is centred i = k - numLines spacings from the box's centre
   * along (cos, sin), and runs from one end to the other by
   * 2 diagonal (sin, -cos), across the fill direction.
   */
  lemma FillLineGeometry(math: MathLib, bounds: Bounds, angle: real, spacing: real, k: nat)
    requires spacing != 0.0 && k < |FillLines(math, bounds, angle, spacing)|
    ensures var line := FillLines(math, bounds, angle, spacing)[k];
      var i := (k - NumLines(math, bounds, angle, spacing)) as real;
      var diagonal := math.sqrt(DiagonalSq(bounds));
      line.start.x + line.end.x == bounds.minX + bounds.maxX + 2.0 * (i * spacing * math.cos(angle)) &&
      line.start.y + line.end.y == bounds.minY + bounds.maxY + 2.0 * (i * spacing * math.sin(angle)) &&
      line.end.x - line.start.x == 2.0 * (diagonal * math.sin(angle)) &&
      line.end.y - line.start.y == -2.0 * (diagonal * math.cos(angle))
  {
    FillLinesAt(math, bounds, angle, spacing, k);
  }

  /**
   * lineIntersection rejects near-parallel segments (|denominator| < 1e-10)
   * and crossings outside either segment; a crossing it returns is the point
   * at ua on p1 → p2 and also the point at ub on p3 → p4, with both
   * parameters in [0, 1].
   */
  lemma IntersectionRules(p1: Point, p2: Point, p3: Point, p4: Point)
    ensures AbsReal(Denominator(p1, p2, p3, p4)) < 1.0 / 10000000000.0 ==> LineIntersection(p1, p2, p3, p4).None?
    ensures LineIntersection(p1, p2, p3, p4).Some? ==>
      var den := Denominator(p1, p2, p3, p4);
      var ua := UaNumerator(p1, p2, p3, p4) / den;
      var ub := UbNumerator(p1, p2, p3, p4) / den;
      0.0 <= ua <= 1.0 && 0.0 <= ub <= 1.0 &&
      LineIntersection(p1, p2, p3, p4).value == Lerp(p1, p2, ua) &&
      LineIntersection(p1, p2, p3, p4).value == Lerp(p3, p4, ub)
    ensures AbsReal(Denominator(p1, p2, p3, p4)) >= 1.0 / 10000000000.0 ==>
      var den := Denominator(p1, p2, p3, p4);
      var ua := UaNumerator(p1, p2, p3, p4) / den;
      var ub := UbNumerator(p1, p2, p3, p4) / den;
      (LineIntersection(p1, p2, p3, p4).Some? <==> 0.0 <= ua <= 1.0 && 0.0 <= ub <= 1.0)
  {
    if AbsReal(Denominator(p1, p2, p3, p4)) >= 1.0 / 10000000000.0 {
      CrossingOnBoth(p1, p2, p3, p4);
    }
  }

  /**
   * Every crossing findIntersections returns comes from an edge of the closed
   * polygon, and every edge that crosses the line contributes its crossing.
   */
  lemma {:induction false} IntersectionsFromEdges(line: Line, points: seq<Point>, n: nat)
    requires n <= |points|
    ensures forall q :: q in Intersections(line, points, n) ==>
      exists i :: 0 <= i < n && LineIntersection(line.start, line.end, points[i], points[EdgeEnd(points, i)]) == Some(q)
    ensures forall i :: 0 <= i < n && LineIntersection(line.start, line.end, points[i], points[EdgeEnd(points, i)]).Some? ==>
      LineIntersection(line.start, line.end, points[i], points[EdgeEnd(points, i)]).value in Intersections(line, points, n)
  {
    if n > 0 {
      IntersectionsFromEdges(line, points, n - 1);
    }
  }

  /**
   * The polygon is closed: the last edge runs from the last point back to
   * the first, and a crossing on it is the last one found.
   */
  lemma ClosingEdge(line: Line, points: seq<Point>)
    requires |points| >= 1
    ensures EdgeEnd(points, |points| - 1) == 0
    ensures var r := Intersections(line, points, |points|);
      LineIntersection(line.start, line.end, points[|points| - 1], points[0]).Some? ==>
        |r| >= 1 && r[|r| - 1] == LineIntersection(line.start, line.end, points[|points| - 1], points[0]).value
  {
  }

  /**
   * On one scan line with at least two crossings, stitches 2k and 2k + 1
   * are the crossings 2k and 2k + 1 in ascending y, so each pair runs
   * upwards in y; the crossings are all used, except the last when their
   * number is odd.
   */
  lemma {:induction false} PairsInOrder(s: seq<Point>, color: string, m: nat, k: nat)
    requires 2 * m <= |s| && k < m
    ensures Pairs(s, color, m)[2 * k] == NormalAt(s[2 * k], color)
    ensures Pairs(s, color, m)[2 * k + 1] == NormalAt(s[2 * k + 1], color)
  {
    if k < m - 1 {
      PairsInOrder(s, color, m - 1, k);
    }
  }

  lemma LineStitchesSorted(line: Line, points: seq<Point>, color: string, k: nat)
    requires 2 * k + 1 < |Intersections(line, points, |points|)|
    ensures var crossings := Intersections(line, points, |points|);
      var sorted := SortBy(crossings, Y);
      var r := LineStitches(line, points, color);
      |r| == 2 * (|crossings| / 2) &&
      SortedBy(sorted, Y) && multiset(sorted) == multiset(crossings) &&
      r[2 * k] == NormalAt(sorted[2 * k], color) && r[2 * k + 1] == NormalAt(sorted[2 * k + 1], color) &&
      r[2 * k].y <= r[2 * k + 1].y
  {
    var crossings := Intersections(line, points, |points|);
    SortByIsSortedPermutation(crossings, Y);
    PairsInOrder(SortBy(crossings, Y), color, |crossings| / 2, k);
  }

  /** A line with fewer than two crossings adds nothing. */
  lemma FewCrossings(line: Line, points: seq<Point>, color: string)
    requires |Intersections(line, points, |points|)| < 2
    ensures LineStitches(line, points, color) == []
  {
  }

  /** The stitches of one scan line are normal in the given colour, an even number of them. */
  lemma LineStitchesShape(line: Line, points: seq<Point>, color: string)
    ensures AllNormal(LineStitches(line, points, color), color)
    ensures |LineStitches(line, points, color)| == 2 * LinePairs(line, points)
  {
    var crossings := Intersections(line, points, |points|);
    if |crossings| >= 2 {
      PairsNormal(SortBy(crossings, Y), color, |crossings| / 2);
    }
  }

  /** Every stitch of the fill is normal in the given colour. */
  lemma {:induction false} FillNormal(lines: seq<Line>, points: seq<Point>, color: string, n: nat)
    requires n <= |lines|
    ensures AllNormal(FillOver(lines, points, color, n), color)
  {
    if n > 0 {
      FillNormal(lines, points, color, n - 1);
      LineStitchesShape(lines[n - 1], points, color);
      AllNormalAppend(FillOver(lines, points, color, n - 1), LineStitches(lines[n - 1], points, color), color);
    }
  }

  /** The number of stitch pairs one scan line gives: half its crossings, rounded down, and none below two. */
  function LinePairs(line: Line, points: seq<Point>): nat {
    var c := |Intersections(line, points, |points|)|;
    if c >= 2 then c / 2 else 0
  }

  /** The number of stitch pairs lines 0 .. n - 1 give. */
  function PairsOver(lines: seq<Line>, points: seq<Point>, n: nat): nat
    requires n <= |lines|
  {
    if n == 0 then 0 else PairsOver(lines, points, n - 1) + LinePairs(lines[n - 1], points)
  }

  /** The fill is made of whole pairs: two stitches per pair of crossings. */
  lemma {:induction false} FillPairs(lines: seq<Line>, points: seq<Point>, color: string, n: nat)
    requires n <= |lines|
    ensures |FillOver(lines, points, color, n)| == 2 * PairsOver(lines, points, n)
  {
    if n > 0 {
      FillPairs(lines, points, color, n - 1);
      LineStitchesShape(lines[n - 1], points, color);
    }
  }

  lemma TwiceIsEven(m: nat)
    ensures (2 * m) % 2 == 0
  {
  }

  lemma {:induction false} PairsNormal(s: seq<Point>, color: string, m: nat)
    requires 2 * m <= |s|
    ensures AllNormal(Pairs(s, color, m), color)
  {
    if m > 0 {
      PairsNormal(s, color, m - 1);
      var before := Pairs(s, color, m - 1);
      var last := [NormalAt(s[2 * m - 2], color), NormalAt(s[2 * m - 1], color)];
      assert Pairs(s, color, m) == before + last;
      AllNormalAppend(before, last, color);
    }
  }

  /** generateFill emits only normal stitches in the given colour, an even number of them. */
  lemma FillStitches(math: MathLib, points: seq<Point>, color: string, settings: FillSettings)
    ensures AllNormal(Fill(math, points, color, settings), color)
    ensures |Fill(math, points, color, settings)| % 2 == 0
  {
    if |points| > 0 {
      var lines := FillLines(math, CalculateBounds(points), Angle(math, settings), Spacing(settings));
      FillNormal(lines, points, color, |lines|);
      FillPairs(lines, points, color, |lines|);
      TwiceIsEven(PairsOver(lines, points, |lines|));
    }
  }
}
