/**
 * The stitch generator of src/lib/embroidery/stitch-generator.ts: an
 * optional underlay fill, then the outline of every contour, then a
 * scan-line fill. The fill's lines run along the fill angle; each is cut
 * against the edges of every contour (the open polyline, without a closing
 * edge), the crossings are sorted along the line and joined in pairs, and
 * each pair is divided evenly.
 *
 * Math.cos, Math.sin, Math.sqrt (and so Math.hypot) and Math.PI come from
 * the `math` parameter. The density is positive, as the settings form
 * guarantees, and the fill needs at least one point: with none its bounds
 * stay at ±Infinity and the source's scan-line loop does not end.
 */
module StitchGenerator {
  import opened Wrappers
  import opened Numeric
  import opened Types
  import opened Streams
  import opened Sorting
  import opened Geometry
  import FillGenerator

  /** `1.0 / density`: the distance between stitches. */
  function Spacing(density: real): (r: real)
    requires density > 0.0
    ensures r > 0.0
  {
    1.0 / density
  }

  // ---------------------------------------------------------------------
  // The underlay's settings

  /** The integer part of x, rounded toward zero. */
  function Trunc(x: real): int {
    if x >= 0.0 then x.Floor else -((-x).Floor)
  }

  /** JavaScript's `x % m` on numbers: the remainder of the division truncated toward zero. */
  function Rem(x: real, m: real): real
    requires m != 0.0
  {
    x - m * Trunc(x / m) as real
  }

  /** `(settings.angle + 90) % 360`. */
  function UnderlayAngle(angle: real): real {
    Rem(angle + 90.0, 360.0)
  }

  /** The settings of the underlay pass: the angle turned by 90 degrees and half the density. */
  function UnderlaySettings(settings: ConversionSettings): (r: ConversionSettings)
    ensures r.density == settings.density * 0.5 && r.color == settings.color
  {
    settings.(angle := UnderlayAngle(settings.angle), density := settings.density * 0.5)
  }

  /**
   * The underlay angle is the fill angle plus 90, brought into (-360, 360)
   * with the sign of the sum, as JavaScript's remainder does.
   */
  lemma UnderlayAngleRules(angle: real)
    ensures -90.0 <= angle < 270.0 ==> UnderlayAngle(angle) == angle + 90.0
    ensures 270.0 <= angle < 630.0 ==> UnderlayAngle(angle) == angle - 270.0
    ensures angle >= -90.0 ==> 0.0 <= UnderlayAngle(angle) < 360.0
    ensures angle < -90.0 ==> -360.0 < UnderlayAngle(angle) <= 0.0
  {
    var x := angle + 90.0;
    var q := x / 360.0;
    assert x == 360.0 * q;
    if x >= 0.0 {
      assert q.Floor as real <= q < q.Floor as real + 1.0;
      if x < 360.0 {
        assert q.Floor == 0;
      } else if x < 720.0 {
        assert q.Floor == 1;
      }
    } else {
      var n := (-q).Floor;
      assert n as real <= -q < n as real + 1.0;
      assert Trunc(q) == -n;
    }
  }

  // ---------------------------------------------------------------------
  // calculateBounds

  /**
   * The box after one more point, `Math.min(minX, point.x)` and the like.
   * None stands for the starting box, whose sides are ±Infinity.
   */
  function Extend(b: Option<Bounds>, p: Point): Bounds {
    match b
    case None => Bounds(p.x, p.x, p.y, p.y)
    case Some(b) => Bounds(MinReal(b.minX, p.x), MaxReal(b.maxX, p.x), MinReal(b.minY, p.y), MaxReal(b.maxY, p.y))
  }

  /** The box of a list of points; None (the infinite box) for an empty list. */
  function BoundsOf(ps: seq<Point>): Option<Bounds> {
    if ps == [] then None else Some(Extend(BoundsOf(ps[..|ps| - 1]), ps[|ps| - 1]))
  }

  /** Every point lies in the box. */
  predicate Encloses(b: Bounds, ps: seq<Point>) {
    forall i :: 0 <= i < |ps| ==> b.minX <= ps[i].x <= b.maxX && b.minY <= ps[i].y <= b.maxY
  }

  /** Every side of the box touches a point. */
  predicate Tight(b: Bounds, ps: seq<Point>) {
    (exists i :: 0 <= i < |ps| && ps[i].x == b.minX) && (exists i :: 0 <= i < |ps| && ps[i].x == b.maxX) &&
    (exists i :: 0 <= i < |ps| && ps[i].y == b.minY) && (exists i :: 0 <= i < |ps| && ps[i].y == b.maxY)
  }

  /** The box of a non-empty list of points is the smallest box holding them all. */
  lemma {:induction false} BoundsOfIsBox(ps: seq<Point>)
    ensures BoundsOf(ps).None? <==> ps == []
    ensures BoundsOf(ps).Some? ==> Encloses(BoundsOf(ps).value, ps) && Tight(BoundsOf(ps).value, ps)
  {
    if ps != [] {
      var n := |ps| - 1;
      var prefix := ps[..n];
      BoundsOfIsBox(prefix);
      var b := BoundsOf(ps).value;
      if prefix == [] {
        assert ps == [ps[n]];
        assert ps[0].x == b.minX && ps[0].y == b.minY;
      } else {
        var old_ := BoundsOf(prefix).value;
        forall i | 0 <= i < |ps|
          ensures b.minX <= ps[i].x <= b.maxX && b.minY <= ps[i].y <= b.maxY
        {
          if i < n {
            assert ps[i] == prefix[i];
          }
        }
        TightStep(prefix, ps[n], old_, b);
        assert prefix + [ps[n]] == ps;
      }
    }
  }

  /** Extending a tight box by a point keeps it tight for the longer list. */
  lemma TightStep(prefix: seq<Point>, p: Point, old_: Bounds, b: Bounds)
    requires Tight(old_, prefix) && b == Extend(Some(old_), p)
    ensures Tight(b, prefix + [p])
  {
    var ps := prefix + [p];
    var n := |prefix|;
    assert ps[n] == p;
    var i1 :| 0 <= i1 < n && prefix[i1].x == old_.minX;
    var i2 :| 0 <= i2 < n && prefix[i2].x == old_.maxX;
    var i3 :| 0 <= i3 < n && prefix[i3].y == old_.minY;
    var i4 :| 0 <= i4 < n && prefix[i4].y == old_.maxY;
    assert ps[i1] == prefix[i1] && ps[i2] == prefix[i2] && ps[i3] == prefix[i3] && ps[i4] == prefix[i4];
    var w1 := if b.minX == p.x then n else i1;
    var w2 := if b.maxX == p.x then n else i2;
    var w3 := if b.minY == p.y then n else i3;
    var w4 := if b.maxY == p.y then n else i4;
    assert ps[w1].x == b.minX && ps[w2].x == b.maxX && ps[w3].y == b.minY && ps[w4].y == b.maxY;
  }

  /** calculateBounds: both loops over every point of every contour. */
  method CalculateBounds(contours: seq<seq<Point>>) returns (bounds: Option<Bounds>)
    ensures bounds == BoundsOf(Concat(contours))
  {
    bounds := None;
    for c := 0 to |contours|
      invariant bounds == BoundsOf(Concat(contours[..c]))
    {
      var contour := contours[c];
      ghost var before := Concat(contours[..c]);
      assert before + contour[..0] == before;
      for k := 0 to |contour|
        invariant bounds == BoundsOf(before + contour[..k])
      {
        var point := contour[k];
        assert (before + contour[..k + 1])[..|before| + k] == before + contour[..k];
        bounds := Some(Extend(bounds, point));
      }
      assert contours[..c + 1][..c] == contours[..c];
      assert contour[..|contour|] == contour;
    }
    assert contours[..|contours|] == contours;
  }

  // ---------------------------------------------------------------------
  // Scan lines

  /** The centre of a box. */
  function Center(b: Bounds): Point {
    Point((b.minX + b.maxX) / 2.0, (b.minY + b.maxY) / 2.0)
  }

  /**
   * The scan line for loop index i: through the box's centre moved i
   * spacings across the fill direction, reaching `diagonal` either way
   * along (dirX, dirY).
   */
  function ScanLine(center: Point, dirX: real, dirY: real, diagonal: real, spacing: real, i: int): Line {
    var offset := i as real * spacing;
    Line(Point(center.x - dirY * offset - dirX * diagonal, center.y + dirX * offset - dirY * diagonal),
         Point(center.x - dirY * offset + dirX * diagonal, center.y + dirX * offset + dirY * diagonal))
  }

  /** What generateFillStitches computes before its loop. */
  datatype Frame = Frame(spacing: real, dirX: real, dirY: real, center: Point, diagonal: real, numLines: int)

  /** `(angle * Math.PI) / 180`. */
  function Radians(math: MathLib, angle: real): real {
    (angle * math.pi) / 180.0
  }

  /** The spacing, the fill direction, the box's centre and diagonal, and numLines for a bounding box. */
  function FrameOf(math: MathLib, settings: ConversionSettings, bounds: Bounds): (f: Frame)
    requires settings.density > 0.0
    ensures f.spacing > 0.0
  {
    var spacing := Spacing(settings.density);
    var angleRad := Radians(math, settings.angle);
    var diagonal := math.sqrt(DiagonalSq(bounds));
    Frame(spacing, math.cos(angleRad), math.sin(angleRad), Center(bounds), diagonal, Ceil(diagonal / spacing))
  }

  /** The frame of the box around every point of the contours. */
  function FillFrame(math: MathLib, contours: seq<seq<Point>>, settings: ConversionSettings): (f: Frame)
    requires settings.density > 0.0 && Concat(contours) != []
    ensures f.spacing > 0.0
  {
    FrameOf(math, settings, BoundsOf(Concat(contours)).value)
  }

  /** The number of scan lines, for i = -numLines .. numLines. */
  function LineCount(f: Frame): nat {
    MaxInt(2 * f.numLines + 1, 0)
  }

  /** Scan line k of the frame, the one for loop index k - numLines. */
  function FrameLine(f: Frame, k: int): Line {
    ScanLine(f.center, f.dirX, f.dirY, f.diagonal, f.spacing, k - f.numLines)
  }

  /**
   * Each scan line runs 2 diagonal along (dirX, dirY), and its midpoint is
   * the box's centre moved i spacings along (-dirY, dirX).
   */
  lemma ScanLineGeometry(center: Point, dirX: real, dirY: real, diagonal: real, spacing: real, i: int)
    ensures var line := ScanLine(center, dirX, dirY, diagonal, spacing, i);
      line.end.x - line.start.x == 2.0 * (dirX * diagonal) &&
      line.end.y - line.start.y == 2.0 * (dirY * diagonal) &&
      line.start.x + line.end.x == 2.0 * (center.x - dirY * (i as real * spacing)) &&
      line.start.y + line.end.y == 2.0 * (center.y + dirX * (i as real * spacing))
  {
  }

  /** With a diagonal that is not negative there are 2 ceil(diagonal / spacing) + 1 scan lines. */
  lemma LineCountRule(math: MathLib, contours: seq<seq<Point>>, settings: ConversionSettings)
    requires settings.density > 0.0 && Concat(contours) != []
    ensures var f := FillFrame(math, contours, settings);
      f.diagonal >= 0.0 ==> f.numLines >= 0 && LineCount(f) == 2 * Ceil(f.diagonal / f.spacing) + 1
  {
    var f := FillFrame(math, contours, settings);
    CeilBounds(f.diagonal / f.spacing);
    if f.diagonal >= 0.0 {
      assert f.diagonal / f.spacing >= 0.0;
    }
  }

  // ---------------------------------------------------------------------
  // lineIntersection and findIntersections

  /**
   * lineIntersection: the crossing of segment p1 → p2 with segment p3 → p4,
   * if any. Near-parallel segments give none, and a crossing it returns lies
   * on both segments.
   */
  function LineIntersection(p1: Point, p2: Point, p3: Point, p4: Point): (r: Option<Point>)
    ensures AbsReal(Denominator(p1, p2, p3, p4)) < 1.0 / 10000000000.0 ==> r.None?
    ensures r.Some? ==> OnSegment(r.value, p1, p2) && OnSegment(r.value, p3, p4)
  {
    var den := Denominator(p1, p2, p3, p4);
    if AbsReal(den) < 1.0 / 10000000000.0 then None
    else
      var ua := UaNumerator(p1, p2, p3, p4) / den;
      var ub := UbNumerator(p1, p2, p3, p4) / den;
      if ua >= 0.0 && ua <= 1.0 && ub >= 0.0 && ub <= 1.0 then
        CrossingOnBoth(p1, p2, p3, p4);
        Some(Lerp(p1, p2, ua))
      else None
  }

  /**
   * lineIntersection rejects near-parallel segments and crossings outside
   * either segment; otherwise it returns the point at ua on p1 → p2, which
   * is also the point at ub on p3 → p4.
   */
  lemma IntersectionRules(p1: Point, p2: Point, p3: Point, p4: Point)
    ensures AbsReal(Denominator(p1, p2, p3, p4)) < 1.0 / 10000000000.0 ==> LineIntersection(p1, p2, p3, p4).None?
    ensures AbsReal(Denominator(p1, p2, p3, p4)) >= 1.0 / 10000000000.0 ==>
      var den := Denominator(p1, p2, p3, p4);
      var ua := UaNumerator(p1, p2, p3, p4) / den;
      var ub := UbNumerator(p1, p2, p3, p4) / den;
      (LineIntersection(p1, p2, p3, p4).Some? <==> 0.0 <= ua <= 1.0 && 0.0 <= ub <= 1.0) &&
      (LineIntersection(p1, p2, p3, p4).Some? ==>
        LineIntersection(p1, p2, p3, p4).value == Lerp(p1, p2, ua) &&
        LineIntersection(p1, p2, p3, p4).value == Lerp(p3, p4, ub))
  {
    if AbsReal(Denominator(p1, p2, p3, p4)) >= 1.0 / 10000000000.0 {
      CrossingOnBoth(p1, p2, p3, p4);
    }
  }

  /** This lineIntersection and the scan-line fill's agree on every input. */
  lemma SameIntersection(p1: Point, p2: Point, p3: Point, p4: Point)
    ensures LineIntersection(p1, p2, p3, p4) == FillGenerator.LineIntersection(p1, p2, p3, p4)
  {
  }

  /** The number of edges of an open contour: one fewer than its points. */
  function EdgeCount(c: seq<Point>): nat {
    if |c| == 0 then 0 else |c| - 1
  }

  /** The crossing with edge c[i] → c[i + 1] of an open contour, if any. */
  function EdgeCrossing(line: Line, c: seq<Point>, i: nat): Option<Point>
    requires i + 1 < |c|
  {
    LineIntersection(line.start, line.end, c[i], c[i + 1])
  }

  /** The crossings with edges c[0] → c[1], ..., c[n - 1] → c[n] of one contour, in order. */
  function ContourCrossings(line: Line, c: seq<Point>, n: nat): (r: seq<Point>)
    requires n <= EdgeCount(c)
    ensures |r| <= n
  {
    if n == 0 then []
    else
      ContourCrossings(line, c, n - 1) +
        match EdgeCrossing(line, c, n - 1)
        case Some(q) => [q]
        case None => []
  }

  /** The crossings with the edges of contours 0 .. m - 1, contour by contour. */
  function Crossings(line: Line, contours: seq<seq<Point>>, m: nat): seq<Point>
    requires m <= |contours|
  {
    if m == 0 then []
    else Crossings(line, contours, m - 1) + ContourCrossings(line, contours[m - 1], EdgeCount(contours[m - 1]))
  }

  /** The inner loop of findIntersections over one contour's edges. */
  method ContourIntersections(line: Line, contour: seq<Point>, intersections: seq<Point>) returns (r: seq<Point>)
    ensures r == intersections + ContourCrossings(line, contour, EdgeCount(contour))
  {
    r := intersections;
    var i := 0;
    while i < |contour| - 1
      invariant 0 <= i <= EdgeCount(contour)
      invariant r == intersections + ContourCrossings(line, contour, i)
    {
      var intersection := LineIntersection(line.start, line.end, contour[i], contour[i + 1]);
      assert intersection == EdgeCrossing(line, contour, i);
      if intersection.Some? {
        r := r + [intersection.value];
      }
      i := i + 1;
    }
  }

  /** findIntersections. */
  method FindIntersections(line: Line, contours: seq<seq<Point>>) returns (intersections: seq<Point>)
    ensures intersections == Crossings(line, contours, |contours|)
  {
    intersections := [];
    for m := 0 to |contours|
      invariant intersections == Crossings(line, contours, m)
    {
      intersections := ContourIntersections(line, contours[m], intersections);
    }
  }

  /**
   * Every crossing found is on an edge c[i] → c[i + 1] of the contour, and
   * every such edge that crosses contributes its crossing. There is no edge
   * from the contour's last point back to its first.
   */
  lemma {:induction false} ContourCrossingsFromEdges(line: Line, c: seq<Point>, n: nat)
    requires n <= EdgeCount(c)
    ensures forall q :: q in ContourCrossings(line, c, n) ==>
      exists i :: 0 <= i < n && EdgeCrossing(line, c, i) == Some(q)
    ensures forall i :: 0 <= i < n && EdgeCrossing(line, c, i).Some? ==>
      EdgeCrossing(line, c, i).value in ContourCrossings(line, c, n)
  {
    if n > 0 {
      ContourCrossingsFromEdges(line, c, n - 1);
      var prev := ContourCrossings(line, c, n - 1);
      var e := EdgeCrossing(line, c, n - 1);
      assert ContourCrossings(line, c, n) == prev + (if e.Some? then [e.value] else []);
    }
  }

  /** Over all contours: a crossing is on an open edge of some contour, and each such crossing is found. */
  lemma CrossingsFromEdges(line: Line, contours: seq<seq<Point>>, m: nat)
    requires m <= |contours|
    ensures forall q :: q in Crossings(line, contours, m) ==>
      exists k, i :: 0 <= k < m && 0 <= i && i + 1 < |contours[k]| && EdgeCrossing(line, contours[k], i) == Some(q)
    ensures forall k, i :: 0 <= k < m && 0 <= i && i + 1 < |contours[k]| && EdgeCrossing(line, contours[k], i).Some? ==>
      EdgeCrossing(line, contours[k], i).value in Crossings(line, contours, m)
  {
    CrossingsOnEdges(line, contours, m);
    EdgeCrossingsFound(line, contours, m);
  }

  /** Every crossing found over the first m contours is on an open edge of one of them. */
  lemma {:induction false} CrossingsOnEdges(line: Line, contours: seq<seq<Point>>, m: nat)
    requires m <= |contours|
    ensures forall q :: q in Crossings(line, contours, m) ==>
      exists k, i :: 0 <= k < m && 0 <= i && i + 1 < |contours[k]| && EdgeCrossing(line, contours[k], i) == Some(q)
  {
    if m > 0 {
      CrossingsOnEdges(line, contours, m - 1);
      var c := contours[m - 1];
      ContourCrossingsFromEdges(line, c, EdgeCount(c));
      var prev := Crossings(line, contours, m - 1);
      assert Crossings(line, contours, m) == prev + ContourCrossings(line, c, EdgeCount(c));
      forall q | q in Crossings(line, contours, m)
        ensures exists k, i :: 0 <= k < m && 0 <= i && i + 1 < |contours[k]| && EdgeCrossing(line, contours[k], i) == Some(q)
      {
        if q !in prev {
          var i :| 0 <= i < EdgeCount(c) && EdgeCrossing(line, c, i) == Some(q);
          assert EdgeCrossing(line, contours[m - 1], i) == Some(q);
        }
      }
    }
  }

  /** The crossing of every open edge of the first m contours is found. */
  lemma {:induction false} EdgeCrossingsFound(line: Line, contours: seq<seq<Point>>, m: nat)
    requires m <= |contours|
    ensures forall k, i :: 0 <= k < m && 0 <= i && i + 1 < |contours[k]| && EdgeCrossing(line, contours[k], i).Some? ==>
      EdgeCrossing(line, contours[k], i).value in Crossings(line, contours, m)
  {
    if m > 0 {
      EdgeCrossingsFound(line, contours, m - 1);
      var c := contours[m - 1];
      ContourCrossingsFromEdges(line, c, EdgeCount(c));
      var prev := Crossings(line, contours, m - 1);
      assert Crossings(line, contours, m) == prev + ContourCrossings(line, c, EdgeCount(c));
      forall k, i | 0 <= k < m && 0 <= i && i + 1 < |contours[k]| && EdgeCrossing(line, contours[k], i).Some?
        ensures EdgeCrossing(line, contours[k], i).value in Crossings(line, contours, m)
      {
        if k == m - 1 {
          assert i < EdgeCount(c);
        } else {
          assert EdgeCrossing(line, contours[k], i).value in prev;
        }
      }
    }
  }

  /** An edge that the segment reaches only behind its start: ua = 0.1 / -0.8 is negative. */
  lemma EdgeBehind(p1: Point, p2: Point, p3: Point, p4: Point)
    requires Denominator(p1, p2, p3, p4) == -0.8 && UaNumerator(p1, p2, p3, p4) == 0.1
    ensures LineIntersection(p1, p2, p3, p4) == None
  {
    assert 0.1 / -0.8 < 0.0;
  }

  /** The diagonal from (0.1, 0.1) to (0.9, 0.9) crosses the edge from (1, 0) to (0, 1) halfway along both. */
  lemma ClosingEdgeCrossing()
    ensures LineIntersection(Point(0.1, 0.1), Point(0.9, 0.9), Point(1.0, 0.0), Point(0.0, 1.0)) == Some(Point(0.5, 0.5))
  {
    var p1, p2, p3, p4 := Point(0.1, 0.1), Point(0.9, 0.9), Point(1.0, 0.0), Point(0.0, 1.0);
    assert Denominator(p1, p2, p3, p4) == 1.6;
    assert UaNumerator(p1, p2, p3, p4) == 0.8;
    assert UbNumerator(p1, p2, p3, p4) == 0.8;
    assert 0.8 / 1.6 == 0.5;
    assert Lerp(p1, p2, 0.5) == Point(0.5, 0.5);
  }

  /** The first edge of the contour (0, 1), (0, 0), (1, 0) misses the diagonal from (0.1, 0.1) to (0.9, 0.9). */
  lemma FirstEdgeMisses(line: Line, c: seq<Point>)
    requires line == Line(Point(0.1, 0.1), Point(0.9, 0.9))
    requires c == [Point(0.0, 1.0), Point(0.0, 0.0), Point(1.0, 0.0)]
    ensures EdgeCrossing(line, c, 0) == None
  {
    assert Denominator(line.start, line.end, c[0], c[1]) == -0.8;
    assert UaNumerator(line.start, line.end, c[0], c[1]) == 0.1;
    EdgeBehind(line.start, line.end, c[0], c[1]);
  }

  /** So does its second edge. */
  lemma SecondEdgeMisses(line: Line, c: seq<Point>)
    requires line == Line(Point(0.1, 0.1), Point(0.9, 0.9))
    requires c == [Point(0.0, 1.0), Point(0.0, 0.0), Point(1.0, 0.0)]
    ensures EdgeCrossing(line, c, 1) == None
  {
    assert Denominator(line.start, line.end, c[1], c[2]) == -0.8;
    assert UaNumerator(line.start, line.end, c[1], c[2]) == 0.1;
    EdgeBehind(line.start, line.end, c[1], c[2]);
  }

  /** A three-point contour whose two edges both miss has no crossings. */
  lemma TwoEdgesMiss(line: Line, c: seq<Point>)
    requires |c| == 3 && EdgeCrossing(line, c, 0) == None && EdgeCrossing(line, c, 1) == None
    ensures ContourCrossings(line, c, 2) == []
  {
    assert ContourCrossings(line, c, 1) == [];
  }

  /**
   * A line that crosses only the edge from a contour's last point back to
   * its first finds no crossing: the diagonal from (0.1, 0.1) to (0.9, 0.9)
   * against the contour (0, 1), (0, 0), (1, 0).
   */
  lemma OpenContourExample()
    ensures var c := [Point(0.0, 1.0), Point(0.0, 0.0), Point(1.0, 0.0)];
      var line := Line(Point(0.1, 0.1), Point(0.9, 0.9));
      LineIntersection(line.start, line.end, c[2], c[0]) == Some(Point(0.5, 0.5)) &&
      Crossings(line, [c], 1) == []
  {
    var c := [Point(0.0, 1.0), Point(0.0, 0.0), Point(1.0, 0.0)];
    var line := Line(Point(0.1, 0.1), Point(0.9, 0.9));
    assert LineIntersection(line.start, line.end, c[2], c[0]) == Some(Point(0.5, 0.5)) by {
      ClosingEdgeCrossing();
    }
    assert Crossings(line, [c], 1) == [] by {
      FirstEdgeMisses(line, c);
      SecondEdgeMisses(line, c);
      TwoEdgesMiss(line, c);
      assert [c][0] == c;
    }
  }

  // ---------------------------------------------------------------------
  // Pairs of crossings

  /** The sort key of the comparator: the distance from the line's start along (dirX, dirY). */
  function Projection(origin: Point, dirX: real, dirY: real): Point -> real {
    (p: Point) => (p.x - origin.x) * dirX + (p.y - origin.y) * dirY
  }

  /** `Math.max(1, Math.ceil(distance / spacing))` for the pair from start to end. */
  function PairSteps(math: MathLib, start: Point, end: Point, spacing: real): (r: int)
    requires spacing > 0.0
    ensures r >= 1
  {
    MaxInt(1, Ceil(math.sqrt(PointDistSq(start, end)) / spacing))
  }

  /** The stitch at `step` of `steps` from start to end: `start + (end - start) * (step / steps)`. */
  function StepPoint(start: Point, end: Point, steps: int, step: int, kind: StitchType, color: string): StitchPoint
    requires steps >= 1
  {
    var t := step as real / steps as real;
    StitchPoint(start.x + (end.x - start.x) * t, start.y + (end.y - start.y) * t, kind, color)
  }

  /** The normal stitches for step = 1 .. steps of a pair divided into `steps`. */
  function PairPoints(start: Point, end: Point, steps: int, color: string): seq<StitchPoint>
    requires steps >= 1
  {
    seq(steps, k requires 0 <= k < steps => StepPoint(start, end, steps, k + 1, Normal, color))
  }

  /** The stitches of one pair: its start (a jump for a line's first pair), then its divided length. */
  function PairStitches(math: MathLib, start: Point, end: Point, spacing: real, first: bool, color: string): seq<StitchPoint>
    requires spacing > 0.0
  {
    var steps := PairSteps(math, start, end, spacing);
    [StitchPoint(start.x, start.y, if first then Jump else Normal, color)] + PairPoints(start, end, steps, color)
  }

  /** The stitches of the pairs (s[0], s[1]), (s[2], s[3]), ..., one list per pair; a last odd crossing is dropped. */
  function PairList(math: MathLib, s: seq<Point>, spacing: real, color: string): seq<seq<StitchPoint>>
    requires spacing > 0.0
  {
    seq(|s| / 2, p requires 0 <= p < |s| / 2 => PairStitches(math, s[2 * p], s[2 * p + 1], spacing, p == 0, color))
  }

  /** The crossings of a scan line, sorted along it. */
  function SortedCrossings(f: Frame, line: Line, contours: seq<seq<Point>>): seq<Point> {
    SortBy(Crossings(line, contours, |contours|), Projection(line.start, f.dirX, f.dirY))
  }

  /** The stitches of one scan line: none below two crossings. */
  function LineFill(math: MathLib, f: Frame, line: Line, contours: seq<seq<Point>>, color: string): seq<StitchPoint>
    requires f.spacing > 0.0
  {
    var sorted := SortedCrossings(f, line, contours);
    if |sorted| < 2 then [] else Concat(PairList(math, sorted, f.spacing, color))
  }

  /** The stitches of every scan line of the frame, one list per line. */
  function LineFills(math: MathLib, f: Frame, contours: seq<seq<Point>>, color: string): seq<seq<StitchPoint>>
    requires f.spacing > 0.0
  {
    seq(LineCount(f), k requires 0 <= k < LineCount(f) => LineFill(math, f, FrameLine(f, k), contours, color))
  }

  /** generateFillStitches. */
  function FillStitches(math: MathLib, contours: seq<seq<Point>>, settings: ConversionSettings): seq<StitchPoint>
    requires settings.density > 0.0 && Concat(contours) != []
  {
    Concat(LineFills(math, FillFrame(math, contours, settings), contours, settings.color))
  }

  // ---------------------------------------------------------------------
  // Outlines

  /** The stitches for step = 0 .. steps of a segment divided into `steps`, the first a jump. */
  function OutlinePoints(start: Point, end: Point, steps: int, color: string): seq<StitchPoint>
    requires steps >= 1
  {
    seq(steps + 1, k requires 0 <= k <= steps => StepPoint(start, end, steps, k, if k == 0 then Jump else Normal, color))
  }

  /** A distance of at least one spacing takes at least one step. */
  lemma OneStep(distance: real, spacing: real)
    requires distance >= spacing > 0.0
    ensures Ceil(distance / spacing) >= 1
  {
    var r := 1.0 / spacing;
    assert r * spacing == 1.0;
    assert distance / spacing == distance * r;
    assert r > 0.0;
    assert (distance - spacing) * r >= 0.0;
    CeilBounds(distance / spacing);
  }

  /** The outline of the segment from start to end: nothing when it is shorter than one spacing. */
  function OutlineSegment(math: MathLib, start: Point, end: Point, spacing: real, color: string): seq<StitchPoint>
    requires spacing > 0.0
  {
    var distance := math.sqrt(PointDistSq(start, end));
    if distance < spacing then []
    else
      OneStep(distance, spacing);
      OutlinePoints(start, end, Ceil(distance / spacing), color)
  }

  /** The outlines of the segments points[k] → points[k + 1] of one contour, one list per segment. */
  function Segments(math: MathLib, points: seq<Point>, spacing: real, color: string): seq<seq<StitchPoint>>
    requires spacing > 0.0
  {
    seq(EdgeCount(points), k requires 0 <= k < EdgeCount(points) => OutlineSegment(math, points[k], points[k + 1], spacing, color))
  }

  /** generateOutlineStitches. */
  function Outline(math: MathLib, points: seq<Point>, spacing: real, color: string): seq<StitchPoint>
    requires spacing > 0.0
  {
    Concat(Segments(math, points, spacing, color))
  }

  /** The outline of every contour, one list per contour. */
  function ContourOutlines(math: MathLib, contours: seq<seq<Point>>, spacing: real, color: string): seq<seq<StitchPoint>>
    requires spacing > 0.0
  {
    seq(|contours|, m requires 0 <= m < |contours| => Outline(math, contours[m], spacing, color))
  }

  /** generateStitches: the underlay fill when enabled, the outlines, then the fill. */
  function Stitches(math: MathLib, contours: seq<seq<Point>>, settings: ConversionSettings): seq<StitchPoint>
    requires settings.density > 0.0 && Concat(contours) != []
  {
    (if settings.underlay then FillStitches(math, contours, UnderlaySettings(settings)) else []) +
      Concat(ContourOutlines(math, contours, Spacing(settings.density), settings.color)) +
      FillStitches(math, contours, settings)
  }

  // ---------------------------------------------------------------------
  // What the stitches look like

  /** Every stitch is a normal stitch or a jump, in the given colour. */
  predicate Threaded(s: seq<StitchPoint>, color: string) {
    forall k :: 0 <= k < |s| ==> s[k].color == color && (s[k].kind == Normal || s[k].kind == Jump)
  }

  lemma ThreadedAppend(a: seq<StitchPoint>, b: seq<StitchPoint>, color: string)
    requires Threaded(a, color) && Threaded(b, color)
    ensures Threaded(a + b, color)
  {
    forall k | 0 <= k < |a + b|
      ensures (a + b)[k].color == color && ((a + b)[k].kind == Normal || (a + b)[k].kind == Jump)
    {
      if k >= |a| {
        assert (a + b)[k] == b[k - |a|];
      }
    }
  }

  lemma {:induction false} ThreadedConcat(parts: seq<seq<StitchPoint>>, color: string)
    requires forall i :: 0 <= i < |parts| ==> Threaded(parts[i], color)
    ensures Threaded(Concat(parts), color)
  {
    if parts != [] {
      var n := |parts| - 1;
      ThreadedConcat(parts[..n], color);
      ThreadedAppend(Concat(parts[..n]), parts[n], color);
    }
  }

  /** The last step of a division lands on the end point. */
  lemma LastStep(start: Point, end: Point, steps: int, kind: StitchType, color: string)
    requires steps >= 1
    ensures StepPoint(start, end, steps, steps, kind, color) == StitchPoint(end.x, end.y, kind, color)
  {
    assert steps as real / steps as real == 1.0;
  }

  /**
   * A pair's stitches: its start (a jump for the line's first pair, normal
   * otherwise), then max(1, ceil(distance / spacing)) normal stitches evenly
   * spaced, the last on the pair's end.
   */
  lemma PairShape(math: MathLib, start: Point, end: Point, spacing: real, first: bool, color: string)
    requires spacing > 0.0
    ensures var r := PairStitches(math, start, end, spacing, first, color);
      var steps := MaxInt(1, Ceil(math.sqrt(PointDistSq(start, end)) / spacing));
      |r| == steps + 1 &&
      r[0] == StitchPoint(start.x, start.y, if first then Jump else Normal, color) &&
      (forall k :: 1 <= k < |r| ==> r[k] == StepPoint(start, end, steps, k, Normal, color)) &&
      r[|r| - 1] == StitchPoint(end.x, end.y, Normal, color) &&
      Threaded(r, color)
  {
    var steps := PairSteps(math, start, end, spacing);
    var r := PairStitches(math, start, end, spacing, first, color);
    forall k | 1 <= k < |r|
      ensures r[k] == StepPoint(start, end, steps, k, Normal, color)
    {
      assert r[k] == PairPoints(start, end, steps, color)[k - 1];
    }
    LastStep(start, end, steps, Normal, color);
  }

  /**
   * A segment shorter than one spacing gets no stitches; a longer one gets
   * ceil(distance / spacing) + 1 stitches evenly spaced from its start to
   * its end, the first a jump and the rest normal.
   */
  lemma OutlineSegmentShape(math: MathLib, start: Point, end: Point, spacing: real, color: string)
    requires spacing > 0.0
    ensures var d := math.sqrt(PointDistSq(start, end));
      var r := OutlineSegment(math, start, end, spacing, color);
      (d < spacing ==> r == []) &&
      (d >= spacing ==>
        var steps := Ceil(d / spacing);
        steps >= 1 && |r| == steps + 1 &&
        r[0] == StitchPoint(start.x, start.y, Jump, color) &&
        (forall k :: 1 <= k < |r| ==> r[k] == StepPoint(start, end, steps, k, Normal, color)) &&
        r[|r| - 1] == StitchPoint(end.x, end.y, Normal, color))
    ensures Threaded(OutlineSegment(math, start, end, spacing, color), color)
  {
    var d := math.sqrt(PointDistSq(start, end));
    if d >= spacing {
      OneStep(d, spacing);
      var steps := Ceil(d / spacing);
      assert StepPoint(start, end, steps, 0, Jump, color) == StitchPoint(start.x, start.y, Jump, color);
      LastStep(start, end, steps, Normal, color);
    }
  }

  /** A scan line's crossings are sorted along the line and are exactly the crossings found. */
  lemma SortedAlongLine(f: Frame, line: Line, contours: seq<seq<Point>>)
    ensures var sorted := SortedCrossings(f, line, contours);
      SortedBy(sorted, Projection(line.start, f.dirX, f.dirY)) &&
      multiset(sorted) == multiset(Crossings(line, contours, |contours|))
  {
    SortByIsSortedPermutation(Crossings(line, contours, |contours|), Projection(line.start, f.dirX, f.dirY));
  }

  /**
   * Below two crossings a scan line gets no stitches; otherwise its first
   * stitch is a jump to the first crossing along the line.
   */
  lemma LineFillRules(math: MathLib, f: Frame, line: Line, contours: seq<seq<Point>>, color: string)
    requires f.spacing > 0.0
    ensures var sorted := SortedCrossings(f, line, contours);
      (|sorted| < 2 ==> LineFill(math, f, line, contours, color) == []) &&
      (|sorted| >= 2 ==>
        (|LineFill(math, f, line, contours, color)| > 0 &&
         LineFill(math, f, line, contours, color)[0] == StitchPoint(sorted[0].x, sorted[0].y, Jump, color)))
  {
    var sorted := SortedCrossings(f, line, contours);
    if |sorted| >= 2 {
      var pairs := PairList(math, sorted, f.spacing, color);
      ConcatHead(pairs);
      PairShape(math, sorted[0], sorted[1], f.spacing, true, color);
    }
  }

  /** A scan line's stitches are normal stitches and jumps in the fill's colour. */
  lemma LineFillThreaded(math: MathLib, f: Frame, line: Line, contours: seq<seq<Point>>, color: string)
    requires f.spacing > 0.0
    ensures Threaded(LineFill(math, f, line, contours, color), color)
  {
    var sorted := SortedCrossings(f, line, contours);
    var pairs := PairList(math, sorted, f.spacing, color);
    forall i | 0 <= i < |pairs|
      ensures Threaded(pairs[i], color)
    {
      PairShape(math, sorted[2 * i], sorted[2 * i + 1], f.spacing, i == 0, color);
    }
    ThreadedConcat(pairs, color);
  }

  /** The fill is made of normal stitches and jumps in the settings' colour. */
  lemma FillThreaded(math: MathLib, contours: seq<seq<Point>>, settings: ConversionSettings)
    requires settings.density > 0.0 && Concat(contours) != []
    ensures Threaded(FillStitches(math, contours, settings), settings.color)
  {
    var f := FillFrame(math, contours, settings);
    var lines := LineFills(math, f, contours, settings.color);
    forall i | 0 <= i < |lines|
      ensures Threaded(lines[i], settings.color)
    {
      LineFillThreaded(math, f, FrameLine(f, i), contours, settings.color);
    }
    ThreadedConcat(lines, settings.color);
  }

  /** A contour's outline is made of normal stitches and jumps in its colour. */
  lemma OutlineThreaded(math: MathLib, points: seq<Point>, spacing: real, color: string)
    requires spacing > 0.0
    ensures Threaded(Outline(math, points, spacing, color), color)
  {
    var segments := Segments(math, points, spacing, color);
    forall i | 0 <= i < |segments|
      ensures Threaded(segments[i], color)
    {
      OutlineSegmentShape(math, points[i], points[i + 1], spacing, color);
    }
    ThreadedConcat(segments, color);
  }

  /**
   * Everything generateStitches emits, underlay included, is a normal
   * stitch or a jump in the settings' colour.
   */
  lemma StitchesThreaded(math: MathLib, contours: seq<seq<Point>>, settings: ConversionSettings)
    requires settings.density > 0.0 && Concat(contours) != []
    ensures Threaded(Stitches(math, contours, settings), settings.color)
  {
    var spacing := Spacing(settings.density);
    var outlines := ContourOutlines(math, contours, spacing, settings.color);
    forall m | 0 <= m < |outlines|
      ensures Threaded(outlines[m], settings.color)
    {
      OutlineThreaded(math, contours[m], spacing, settings.color);
    }
    ThreadedConcat(outlines, settings.color);
    FillThreaded(math, contours, settings);
    var underlay: seq<StitchPoint> := [];
    if settings.underlay {
      FillThreaded(math, contours, UnderlaySettings(settings));
      underlay := FillStitches(math, contours, UnderlaySettings(settings));
    }
    ThreadedAppend(underlay, Concat(outlines), settings.color);
    ThreadedAppend(underlay + Concat(outlines), FillStitches(math, contours, settings), settings.color);
  }

  // ---------------------------------------------------------------------
  // The methods

  /** The inner loop of generateOutlineStitches: steps + 1 points from start to end. */
  method DivideOutline(start: Point, end: Point, steps: int, color: string, stitches: seq<StitchPoint>) returns (r: seq<StitchPoint>)
    requires steps >= 1
    ensures r == stitches + OutlinePoints(start, end, steps, color)
  {
    r := stitches;
    ghost var points := OutlinePoints(start, end, steps, color);
    var dx := end.x - start.x;
    var dy := end.y - start.y;
    for step := 0 to steps + 1
      invariant r == stitches + points[..step]
    {
      var t := step as real / steps as real;
      var stitch := StitchPoint(start.x + dx * t, start.y + dy * t, if step == 0 then Jump else Normal, color);
      assert stitch == StepPoint(start, end, steps, step, if step == 0 then Jump else Normal, color);
      assert stitch == points[step];
      assert points[..step + 1] == points[..step] + [stitch];
      r := r + [stitch];
    }
    assert points[..steps + 1] == points;
  }

  /** generateOutlineStitches. */
  method GenerateOutlineStitches(math: MathLib, points: seq<Point>, density: real, color: string) returns (stitches: seq<StitchPoint>)
    requires density > 0.0
    ensures stitches == Outline(math, points, Spacing(density), color)
  {
    stitches := [];
    var spacing := 1.0 / density;
    ghost var segments := Segments(math, points, spacing, color);
    var i := 1;
    while i < |points|
      invariant 1 <= i && (|points| > 0 ==> i <= |points|)
      invariant stitches == Concat(segments[..if |points| == 0 then 0 else i - 1])
    {
      ConcatSnoc(segments, i - 1);
      stitches := OutlineSegmentOf(math, points[i - 1], points[i], spacing, color, stitches);
      i := i + 1;
    }
    assert segments[..EdgeCount(points)] == segments;
  }

  /** One pass of generateOutlineStitches' loop: the segment's points, or none when it is shorter than one spacing. */
  method OutlineSegmentOf(math: MathLib, start: Point, end: Point, spacing: real, color: string, stitches: seq<StitchPoint>)
    returns (r: seq<StitchPoint>)
    requires spacing > 0.0
    ensures r == stitches + OutlineSegment(math, start, end, spacing, color)
  {
    r := stitches;
    var dx := end.x - start.x;
    var dy := end.y - start.y;
    assert dx * dx + dy * dy == PointDistSq(start, end);
    var distance := math.sqrt(dx * dx + dy * dy);
    if distance < spacing {
      return;
    }
    var steps := Ceil(distance / spacing);
    OneStep(distance, spacing);
    r := DivideOutline(start, end, steps, color, r);
  }

  /** The inner loop of generateFillStitches: step = 1 .. steps along a pair. */
  method DividePair(start: Point, end: Point, steps: int, color: string, stitches: seq<StitchPoint>) returns (r: seq<StitchPoint>)
    requires steps >= 1
    ensures r == stitches + PairPoints(start, end, steps, color)
  {
    r := stitches;
    ghost var points := PairPoints(start, end, steps, color);
    var dx := end.x - start.x;
    var dy := end.y - start.y;
    for step := 1 to steps + 1
      invariant r == stitches + points[..step - 1]
    {
      var t := step as real / steps as real;
      var stitch := StitchPoint(start.x + dx * t, start.y + dy * t, Normal, color);
      assert stitch == StepPoint(start, end, steps, step, Normal, color);
      assert stitch == points[step - 1];
      assert points[..step] == points[..step - 1] + [stitch];
      r := r + [stitch];
    }
    assert points[..steps] == points;
  }

  /** The loop over the pairs of one scan line's sorted crossings. */
  method PushPairs(math: MathLib, intersections: seq<Point>, spacing: real, color: string, stitches: seq<StitchPoint>) returns (r: seq<StitchPoint>)
    requires spacing > 0.0
    ensures r == stitches + Concat(PairList(math, intersections, spacing, color))
  {
    r := stitches;
    ghost var pairs := PairList(math, intersections, spacing, color);
    PairCount(math, intersections, spacing, color);
    var j := 0;
    ghost var p := 0;
    while j < |intersections| - 1
      invariant j == 2 * p && 0 <= p <= |pairs|
      invariant r == stitches + Concat(pairs[..p])
    {
      PairAt(math, intersections, spacing, color, p);
      ConcatSnoc(pairs, p);
      r := PushPair(math, intersections[j], intersections[j + 1], spacing, j == 0, color, r);
      j := j + 2;
      p := p + 1;
    }
    assert pairs[..p] == pairs;
  }

  /** There is one pair for every two crossings, a last odd one left over. */
  lemma PairCount(math: MathLib, s: seq<Point>, spacing: real, color: string)
    requires spacing > 0.0
    ensures 2 * |PairList(math, s, spacing, color)| <= |s| < 2 * |PairList(math, s, spacing, color)| + 2
  {
  }

  /** The pair that starts at crossing 2p. */
  lemma PairAt(math: MathLib, s: seq<Point>, spacing: real, color: string, p: nat)
    requires spacing > 0.0 && 2 * p + 1 < |s|
    ensures p < |PairList(math, s, spacing, color)|
    ensures PairList(math, s, spacing, color)[p] == PairStitches(math, s[2 * p], s[2 * p + 1], spacing, p == 0, color)
  {
  }

  /** The stitches of one pair: its start, then the inner loop along it. */
  method PushPair(math: MathLib, start: Point, end: Point, spacing: real, first: bool, color: string, stitches: seq<StitchPoint>)
    returns (r: seq<StitchPoint>)
    requires spacing > 0.0
    ensures r == stitches + PairStitches(math, start, end, spacing, first, color)
  {
    assert (end.x - start.x) * (end.x - start.x) + (end.y - start.y) * (end.y - start.y) == PointDistSq(start, end);
    var distance := math.sqrt((end.x - start.x) * (end.x - start.x) + (end.y - start.y) * (end.y - start.y));
    var steps := MaxInt(1, Ceil(distance / spacing));
    r := stitches + [StitchPoint(start.x, start.y, if first then Jump else Normal, color)];
    r := DividePair(start, end, steps, color, r);
  }

  /** One pass of generateFillStitches' loop, after its line is built. */
  method FillLine(math: MathLib, f: Frame, line: Line, contours: seq<seq<Point>>, color: string, stitches: seq<StitchPoint>)
    returns (r: seq<StitchPoint>)
    requires f.spacing > 0.0
    ensures r == stitches + LineFill(math, f, line, contours, color)
  {
    r := stitches;
    var intersections := FindIntersections(line, contours);
    if |intersections| < 2 {
      return;
    }
    intersections := SortBy(intersections, Projection(line.start, f.dirX, f.dirY));
    r := PushPairs(math, intersections, f.spacing, color, r);
  }

  /** The scan line for loop index i, as the loop body computes it. */
  method MakeLine(center: Point, dirX: real, dirY: real, diagonal: real, spacing: real, i: int) returns (line: Line)
    ensures line == ScanLine(center, dirX, dirY, diagonal, spacing, i)
  {
    var offset := i as real * spacing;
    var lineStart := Point(center.x - dirY * offset - dirX * diagonal, center.y + dirX * offset - dirY * diagonal);
    var lineEnd := Point(center.x - dirY * offset + dirX * diagonal, center.y + dirX * offset + dirY * diagonal);
    line := Line(lineStart, lineEnd);
  }

  /** The first half of generateFillStitches: the bounds, then the frame of the scan lines. */
  method FillSetup(math: MathLib, contours: seq<seq<Point>>, settings: ConversionSettings) returns (f: Frame)
    requires settings.density > 0.0 && Concat(contours) != []
    ensures f == FillFrame(math, contours, settings)
  {
    var found := CalculateBounds(contours);
    f := FrameFor(math, settings, found.value);
  }

  /** Spacing, direction, diagonal, numLines and centre, from the bounds. */
  method FrameFor(math: MathLib, settings: ConversionSettings, bounds: Bounds) returns (f: Frame)
    requires settings.density > 0.0
    ensures f == FrameOf(math, settings, bounds)
  {
    var spacing := 1.0 / settings.density;
    assert spacing == Spacing(settings.density);
    var angleRad := (settings.angle * math.pi) / 180.0;
    assert angleRad == Radians(math, settings.angle);
    var dirX := math.cos(angleRad);
    var dirY := math.sin(angleRad);
    var diagonal := Diagonal(math, bounds);
    var numLines := Ceil(diagonal / spacing);
    var center := Point((bounds.minX + bounds.maxX) / 2.0, (bounds.minY + bounds.maxY) / 2.0);
    assert center == Center(bounds);
    f := Frame(spacing, dirX, dirY, center, diagonal, numLines);
  }

  /** `Math.sqrt(Math.pow(maxX - minX, 2) + Math.pow(maxY - minY, 2))`. */
  method Diagonal(math: MathLib, bounds: Bounds) returns (diagonal: real)
    ensures diagonal == math.sqrt(DiagonalSq(bounds))
  {
    var width := bounds.maxX - bounds.minX;
    var height := bounds.maxY - bounds.minY;
    assert width * width + height * height == DiagonalSq(bounds);
    diagonal := math.sqrt(width * width + height * height);
  }

  /** generateFillStitches: the frame, then the scan-line loop. */
  method GenerateFillStitches(math: MathLib, contours: seq<seq<Point>>, settings: ConversionSettings) returns (fillStitches: seq<StitchPoint>)
    requires settings.density > 0.0 && Concat(contours) != []
    ensures fillStitches == FillStitches(math, contours, settings)
  {
    var f := FillSetup(math, contours, settings);
    fillStitches := ScanLines(math, f, contours, settings.color);
  }

  /** The scan-line loop of generateFillStitches, for i = -numLines .. numLines. */
  method ScanLines(math: MathLib, f: Frame, contours: seq<seq<Point>>, color: string) returns (fillStitches: seq<StitchPoint>)
    requires f.spacing > 0.0
    ensures fillStitches == Concat(LineFills(math, f, contours, color))
  {
    fillStitches := [];
    ghost var lines := LineFills(math, f, contours, color);
    var i := -f.numLines;
    while i <= f.numLines
      invariant -f.numLines <= i <= MaxInt(f.numLines + 1, -f.numLines)
      invariant fillStitches == Concat(lines[..i + f.numLines])
    {
      var line := MakeLine(f.center, f.dirX, f.dirY, f.diagonal, f.spacing, i);
      assert line == FrameLine(f, i + f.numLines);
      ConcatSnoc(lines, i + f.numLines);
      fillStitches := FillLine(math, f, line, contours, color, fillStitches);
      i := i + 1;
    }
    assert lines[..i + f.numLines] == lines;
  }

  /** generateStitches. */
  method GenerateStitches(math: MathLib, contours: seq<seq<Point>>, settings: ConversionSettings) returns (stitches: seq<StitchPoint>)
    requires settings.density > 0.0 && Concat(contours) != []
    ensures stitches == Stitches(math, contours, settings)
  {
    stitches := Underlay(math, contours, settings);
    var outlineStitches := OutlineContours(math, contours, settings.density, settings.color);
    stitches := stitches + outlineStitches;
    var fillStitches := GenerateFillStitches(math, contours, settings);
    stitches := stitches + fillStitches;
  }

  /** The first part of generateStitches: the underlay fill, when enabled. */
  method Underlay(math: MathLib, contours: seq<seq<Point>>, settings: ConversionSettings) returns (stitches: seq<StitchPoint>)
    requires settings.density > 0.0 && Concat(contours) != []
    ensures stitches == if settings.underlay then FillStitches(math, contours, UnderlaySettings(settings)) else []
  {
    stitches := [];
    if settings.underlay {
      var underlaySettings := settings.(angle := Rem(settings.angle + 90.0, 360.0), density := settings.density * 0.5);
      assert underlaySettings == UnderlaySettings(settings);
      var underlayStitches := GenerateFillStitches(math, contours, underlaySettings);
      stitches := stitches + underlayStitches;
    }
  }

  /** The loop of generateStitches over the contours, one outline each. */
  method OutlineContours(math: MathLib, contours: seq<seq<Point>>, density: real, color: string) returns (stitches: seq<StitchPoint>)
    requires density > 0.0
    ensures stitches == Concat(ContourOutlines(math, contours, Spacing(density), color))
  {
    stitches := [];
    ghost var outlines := ContourOutlines(math, contours, Spacing(density), color);
    for m := 0 to |contours|
      invariant stitches == Concat(outlines[..m])
    {
      var outlineStitches := GenerateOutlineStitches(math, contours[m], density, color);
      ConcatSnoc(outlines, m);
      stitches := stitches + outlineStitches;
    }
    assert outlines[..|contours|] == outlines;
  }
}
