/**
 * ContourTracer.traceContours: a raster scan over the interior pixels of
 * an edge map (one byte per pixel, 255 on an edge) that walks every
 * unvisited edge pixel's contour, keeps the walks of at least ten points,
 * simplifies each with tolerance 1.0 against the distance to the line
 * through its ends and smooths it with the mean of each point and its two
 * circular neighbours; an edge map without a contour is an error.
 *
 * The visited map is a byte array of the edge map's length; a ghost set of
 * positions mirrors it, so that the walk and the scan are the ones of the
 * Tracing module.
 */
module ContourTracer {
  import opened Wrappers
  import opened Numeric
  import opened Types
  import opened Raster
  import opened Tracing
  import ContourOptimizer
  import ContourAlgorithms

  /**
   * `edges[idx] === 255` for the pixel at p. An index past the end of the
   * array reads `undefined`, which is never 255.
   */
  function EdgeAt(edges: seq<byte>, w: int): Pos -> bool {
    (p: Pos) => 0 <= RasterIndex(w, p) < |edges| && edges[RasterIndex(w, p)] == 255
  }

  /** The scan only starts walks at pixels off the one-pixel border. */
  function InteriorStart(w: int, h: int): Pos -> bool {
    (p: Pos) => Interior(w, h, p.1, p.0)
  }

  /** `minContourLength`: shorter walks are dropped. */
  const MinContourLength: nat := 10

  /** The message of the error thrown when no contour is kept. */
  const NoContours: string := "No contours found in image. Try adjusting the edge threshold."

  /**
   * The visited bytes are non-zero exactly at the raster indices of the
   * visited positions, and every visited position is a pixel of the image
   * with an index inside the array.
   */
  ghost predicate Mirrors(w: int, h: int, flags: seq<byte>, visited: set<Pos>) {
    (forall p :: p in visited ==> InGrid(w, h, p) && 0 <= RasterIndex(w, p) < |flags|) &&
    (forall p {:trigger Flagged(w, flags, p)} :: InGrid(w, h, p) && 0 <= RasterIndex(w, p) < |flags| ==> (Flagged(w, flags, p) <==> p in visited))
  }

  /** The byte of `flags` at `p` is present and non-zero. */
  ghost predicate Flagged(w: int, flags: seq<byte>, p: Pos) {
    0 <= RasterIndex(w, p) < |flags| && flags[RasterIndex(w, p)] != 0
  }

  /** A fresh array of zeros mirrors the empty set. */
  lemma NothingVisited(w: int, h: int, flags: seq<byte>)
    requires forall k :: 0 <= k < |flags| ==> flags[k] == 0
    ensures Mirrors(w, h, flags, {})
  {
  }

  /** `visited[idx] = 1` marks exactly the position p. */
  lemma MarkVisited(w: nat, h: nat, flags: seq<byte>, visited: set<Pos>, p: Pos)
    requires Mirrors(w, h, flags, visited) && InGrid(w, h, p) && 0 <= RasterIndex(w, p) < |flags|
    ensures Mirrors(w, h, flags[RasterIndex(w, p) := 1], visited + {p})
  {
    var k := RasterIndex(w, p);
    forall q | InGrid(w, h, q) && 0 <= RasterIndex(w, q) < |flags|
      ensures Flagged(w, flags[k := 1], q) <==> q in visited + {p}
    {
      assert Flagged(w, flags, q) <==> q in visited;
      if RasterIndex(w, q) == k {
        PixelIndexInverse(w, p.1, p.0);
        PixelIndexInverse(w, q.1, q.0);
      }
    }
  }

  // ---------------------------------------------------------------------
  // pointLineDistance

  /** Twice the signed area of the triangle (a, b, point): the numerator of pointLineDistance before Math.abs. */
  function Cross(point: Point, a: Point, b: Point): real {
    (b.y - a.y) * point.x - (b.x - a.x) * point.y + b.x * a.y - b.y * a.x
  }

  /** `Math.pow(v, 2)`. */
  function Squared(v: real): real {
    v * v
  }

  /** The squared length of the chord from a to b, under the square root of the denominator. */
  function ChordSq(a: Point, b: Point): real {
    Squared(b.y - a.y) + Squared(b.x - a.x)
  }

  /**
   * `pointLineDistance(point, a, b)`: |cross| / sqrt(chord²). A zero
   * denominator gives 0 here where the source divides by zero; see the
   * lemmas below for why simplification does not tell them apart.
   */
  function LineDist(math: MathLib, point: Point, a: Point, b: Point): real {
    var d := math.sqrt(ChordSq(a, b));
    if d == 0.0 then 0.0 else AbsReal(Cross(point, a, b)) / d
  }

  /** pointLineDistance as the distance simplifyContour measures. */
  function LineDistance(math: MathLib): ContourOptimizer.Measure {
    (point: Point, a: Point, b: Point) => LineDist(math, point, a, b)
  }

  /**
   * With a true square root, the distance is non-negative and its square
   * times the squared chord is the squared cross product: it is zero exactly
   * for points on the line through a and b. For a == b both the cross
   * product and the chord are zero, so the source computes 0 / 0.
   */
  lemma LineDistMeaning(math: MathLib, point: Point, a: Point, b: Point)
    requires IsSqrt(math.sqrt)
    ensures LineDist(math, point, a, b) >= 0.0
    ensures a != b ==>
      LineDist(math, point, a, b) * LineDist(math, point, a, b) * ChordSq(a, b) == Cross(point, a, b) * Cross(point, a, b)
    ensures a != b ==> (LineDist(math, point, a, b) == 0.0 <==> Cross(point, a, b) == 0.0)
    ensures a == b ==> Cross(point, a, b) == 0.0 && ChordSq(a, b) == 0.0
  {
    var s := ChordSq(a, b);
    var c := Cross(point, a, b);
    var d := math.sqrt(s);
    assert 0.0 <= d && d * d == s;
    if a != b {
      ChordPositive(a, b);
      assert d != 0.0;
      var r := AbsReal(c) / d;
      assert r * d == AbsReal(c);
      assert r * r * (d * d) == AbsReal(c) * AbsReal(c) by {
        assert (r * d) * (r * d) == r * r * (d * d);
      }
      assert AbsReal(c) * AbsReal(c) == c * c;
      if r == 0.0 {
        assert AbsReal(c) == 0.0;
      }
    }
  }

  /** Distinct points span a chord of positive length. */
  lemma ChordPositive(a: Point, b: Point)
    requires a != b
    ensures ChordSq(a, b) > 0.0
  {
    SquarePositive(b.y - a.y);
    SquarePositive(b.x - a.x);
    assert a.x != b.x || a.y != b.y by {
      assert a == Point(a.x, a.y) && b == Point(b.x, b.y);
    }
  }

  /** A square is never negative, and positive unless its root is zero. */
  lemma SquarePositive(d: real)
    ensures Squared(d) >= 0.0 && (d != 0.0 ==> Squared(d) > 0.0)
  {
    if d > 0.0 {
      calc {
        Squared(d);
        d * d;
      >
        0.0;
      }
    } else if d < 0.0 {
      calc {
        Squared(d);
        (-d) * (-d);
      >
        0.0;
      }
    }
  }

  /**
   * Where the source's denominator is zero, its 0 / 0 is NaN and
   * `dist > maxDist` is false; the model's 0 is not above maxDist either,
   * which is never negative.
   */
  lemma ZeroChordNeverFarthest(math: MathLib, point: Point, a: Point, b: Point, maxDist: real)
    requires math.sqrt(ChordSq(a, b)) == 0.0 && maxDist >= 0.0
    ensures !(LineDist(math, point, a, b) > maxDist)
  {
  }

  // ---------------------------------------------------------------------
  // traceContour

  /**
   * Inside the image, the edge test and the visited set read the two
   * arrays: a position is open exactly when its edge byte is 255 and its
   * visited byte 0.
   */
  ghost predicate ReadsArrays(w: int, h: int, edge: Pos -> bool, seen: set<Pos>, edges: seq<byte>, flags: seq<byte>) {
    |flags| == |edges| &&
    forall q :: InGrid(w, h, q) ==>
      (edge(q) && q !in seen <==> 0 <= RasterIndex(w, q) < |edges| && edges[RasterIndex(w, q)] == 255 && flags[RasterIndex(w, q)] == 0)
  }

  /** Inside the image, `edge` is the test of the edge bytes. */
  ghost predicate EdgeBytes(w: int, h: int, edge: Pos -> bool, edges: seq<byte>) {
    forall q {:trigger EdgeByte(w, edges, q)} :: InGrid(w, h, q) ==> (edge(q) <==> EdgeByte(w, edges, q))
  }

  /** The byte of `edges` at `q` is present and marks an edge. */
  ghost predicate EdgeByte(w: int, edges: seq<byte>, q: Pos) {
    0 <= RasterIndex(w, q) < |edges| && edges[RasterIndex(w, q)] == 255
  }

  /** EdgeAt is the test of the edge bytes. */
  lemma EdgeAtBytes(w: int, h: int, edges: seq<byte>)
    ensures EdgeBytes(w, h, EdgeAt(edges, w), edges)
  {
  }

  /** The mirrored visited bytes and the edge bytes are what the walk reads. */
  lemma MirrorsReads(w: int, h: int, edge: Pos -> bool, edges: seq<byte>, flags: seq<byte>, seen: set<Pos>)
    requires |flags| == |edges| && EdgeBytes(w, h, edge, edges) && Mirrors(w, h, flags, seen)
    ensures ReadsArrays(w, h, edge, seen, edges, flags)
  {
    forall q | InGrid(w, h, q)
      ensures edge(q) && q !in seen <==> 0 <= RasterIndex(w, q) < |edges| && edges[RasterIndex(w, q)] == 255 && flags[RasterIndex(w, q)] == 0
    {
      assert edge(q) <==> EdgeByte(w, edges, q);
      assert Flagged(w, flags, q) <==> q in seen;
    }
  }

  /**
   * The body of the directions loop: a neighbour inside the image is open
   * when its edge byte is 255 and its visited byte 0.
   */
  method Probe(edges: seq<byte>, visited: array<byte>, w: nat, h: nat, n: Pos, ghost edge: Pos -> bool, ghost seen: set<Pos>)
    returns (open: bool)
    requires ReadsArrays(w, h, edge, seen, edges, visited[..])
    ensures open <==> Open(w, h, edge, seen, n)
  {
    open := false;
    if n.0 >= 0 && n.0 < w && n.1 >= 0 && n.1 < h {
      var nidx := RasterIndex(w, n);
      // an index past the end reads `undefined`, which is not 255
      open := nidx < |edges| && edges[nidx] == 255 && visited[nidx] == 0;
    }
  }

  /** The `for … of directions` loop with its `break`, reading the edge and visited arrays. */
  method FindNext(edges: seq<byte>, visited: array<byte>, w: nat, h: nat, p: Pos, ghost edge: Pos -> bool, ghost seen: set<Pos>)
    returns (found: bool, q: Pos)
    requires ReadsArrays(w, h, edge, seen, edges, visited[..])
    ensures found <==> NextStep(w, h, edge, seen, p, 0).Some?
    ensures found ==> q == NextStep(w, h, edge, seen, p, 0).value
  {
    found, q := false, p;
    var k := 0;
    while k < |Directions|
      invariant 0 <= k <= |Directions|
      invariant NextStep(w, h, edge, seen, p, k) == NextStep(w, h, edge, seen, p, 0)
    {
      var d := Directions[k];
      var nx, ny := p.0 + d.0, p.1 + d.1;
      var open := Probe(edges, visited, w, h, (nx, ny), edge, seen);
      if open {
        found, q := true, (nx, ny);
        return;
      }
      k := k + 1;
    }
  }

  /**
   * `traceContour(edges, visited, width, height, startX, startY)`: marks and
   * records the current pixel, then moves to the first open neighbour until
   * there is none. It computes the walk Trail, and the visited bytes mirror
   * the visited set afterwards.
   */
  method TraceContour(edges: seq<byte>, visited: array<byte>, w: nat, h: nat, startX: int, startY: int,
                      ghost edge: Pos -> bool, ghost seen0: set<Pos>)
    returns (contour: seq<Pos>, ghost seen: set<Pos>)
    requires visited.Length == |edges| && EdgeBytes(w, h, edge, edges) && Mirrors(w, h, visited[..], seen0)
    requires InGrid(w, h, (startX, startY)) && edge((startX, startY)) && (startX, startY) !in seen0
    modifies visited
    ensures Walk(contour, seen) == Trail(w, h, edge, seen0, (startX, startY))
    ensures Mirrors(w, h, visited[..], seen)
  {
    contour, seen := [], seen0;
    var x, y := startX, startY;
    var done := false;
    while !done
      invariant InGrid(w, h, (x, y)) && Mirrors(w, h, visited[..], seen)
      invariant !done ==> edge((x, y)) && (x, y) !in seen
      invariant !done ==> Trail(w, h, edge, seen0, (startX, startY)) == Then(contour, Trail(w, h, edge, seen, (x, y)))
      invariant done ==> Trail(w, h, edge, seen0, (startX, startY)) == Walk(contour, seen)
      decreases |Grid(w, h) - seen|
    {
      GridShrinks(w, h, seen, (x, y));
      ghost var before, seenBefore := contour, seen;
      contour := contour + [(x, y)];
      var foundNext, next;
      foundNext, next, seen := Visit(edges, visited, w, h, x, y, edge, seen);
      if foundNext {
        TrailMoves(w, h, edge, seenBefore, (x, y), next);
        ThenStep(before, (x, y), Trail(w, h, edge, seen, next));
        x, y := next.0, next.1;
      } else {
        TrailStops(w, h, edge, seenBefore, (x, y));
        done := true;
      }
    }
  }

  /** The body of traceContour's loop, but for the push: `visited[idx] = 1`, then the search for the next pixel. */
  method Visit(edges: seq<byte>, visited: array<byte>, w: nat, h: nat, x: int, y: int, ghost edge: Pos -> bool, ghost seen: set<Pos>)
    returns (foundNext: bool, next: Pos, ghost seen': set<Pos>)
    requires visited.Length == |edges| && EdgeBytes(w, h, edge, edges) && Mirrors(w, h, visited[..], seen)
    requires InGrid(w, h, (x, y)) && edge((x, y))
    modifies visited
    ensures seen' == seen + {(x, y)} && Mirrors(w, h, visited[..], seen')
    ensures foundNext <==> NextStep(w, h, edge, seen', (x, y), 0).Some?
    ensures foundNext ==> next == NextStep(w, h, edge, seen', (x, y), 0).value
    ensures foundNext ==> InGrid(w, h, next) && edge(next) && next !in seen'
  {
    var idx := RasterIndex(w, (x, y));
    assert EdgeByte(w, edges, (x, y));
    MarkVisited(w, h, visited[..], seen, (x, y));
    visited[idx] := 1;
    seen' := seen + {(x, y)};
    MirrorsReads(w, h, edge, edges, visited[..], seen');
    foundNext, next := FindNext(edges, visited, w, h, (x, y), edge, seen');
  }

  // ---------------------------------------------------------------------
  // smoothContour

  /**
   * `smoothContour(points)`: every point becomes the mean of the window
   * around it, which is smoothContour of the conversion algorithms with
   * factor 1.
   */
  method SmoothContour(points: seq<Point>) returns (smoothed: seq<Point>)
    ensures smoothed == ContourAlgorithms.Smooth(points, 1.0)
  {
    if |points| <= 2 {
      return points;
    }
    smoothed := [];
    var i := 0;
    while i < |points|
      invariant 0 <= i <= |points|
      invariant |smoothed| == i
      invariant forall k :: 0 <= k < i ==> smoothed[k] == ContourAlgorithms.Blend(points, 1.0, k)
    {
      var sumX, sumY, count := ContourAlgorithms.Window(points, i);
      var p := Point(sumX / count as real, sumY / count as real);
      assert p == ContourAlgorithms.Blend(points, 1.0, i);
      smoothed := smoothed + [p];
      i := i + 1;
    }
  }

  // ---------------------------------------------------------------------
  // traceContours

  /** The walks the scan keeps, before simplification. */
  function RawContours(edges: seq<byte>, w: nat, h: nat): seq<seq<Pos>> {
    ScanBefore(w, h, EdgeAt(edges, w), InteriorStart(w, h), MinContourLength, w * h).contours
  }

  /** A kept walk as traceContours returns it: simplified with tolerance 1.0, then smoothed. */
  function Refine(math: MathLib, c: seq<Pos>): seq<Point> {
    ContourOptimizer.SimplifyTerminates(LineDistance(math), AsPoints(c), 1.0);
    ContourAlgorithms.Smooth(ContourOptimizer.Simplify(LineDistance(math), AsPoints(c), 1.0).value, 1.0)
  }

  /** Every kept walk, refined. */
  function RefineAll(math: MathLib, cs: seq<seq<Pos>>): seq<seq<Point>> {
    seq(|cs|, i requires 0 <= i < |cs| => Refine(math, cs[i]))
  }

  /** What traceContours resolves to, or the error it throws when no walk is kept. */
  function Traced(math: MathLib, edges: seq<byte>, w: nat, h: nat): Result<seq<seq<Point>>, Error> {
    var raw := RawContours(edges, w, h);
    if raw == [] then Failure(PlainError(NoContours)) else Success(RefineAll(math, raw))
  }

  /**
   * The walks the scan keeps have at least minContourLength points and
   * start at an interior pixel; all their points are edge pixels of the
   * image, consecutive points are 8-neighbours, and no pixel occurs twice
   * in all of them.
   */
  lemma RawContoursGood(edges: seq<byte>, w: nat, h: nat)
    requires 0 < w && 0 < h
    ensures var raw := RawContours(edges, w, h);
      (forall i :: 0 <= i < |raw| ==> |raw[i]| >= MinContourLength && Interior(w, h, raw[i][0].1, raw[i][0].0)) &&
      (forall i, k :: 0 <= i < |raw| && 0 <= k < |raw[i]| ==> InGrid(w, h, raw[i][k]) && EdgeByte(w, edges, raw[i][k])) &&
      AllChained(EdgeAt(edges, w), raw) && Disjoint(raw)
  {
    MulLe(w, 1, h);
    ScanIsGood(w, h, EdgeAt(edges, w), InteriorStart(w, h), MinContourLength, w * h);
  }

  /** A refined walk keeps at least two of its points and gains none. */
  lemma RefinedLength(math: MathLib, c: seq<Pos>)
    requires |c| >= 2
    ensures 2 <= |Refine(math, c)| <= |c|
  {
    ContourOptimizer.SimplifyTerminates(LineDistance(math), AsPoints(c), 1.0);
    ContourAlgorithms.SmoothProperties(ContourOptimizer.Simplify(LineDistance(math), AsPoints(c), 1.0).value, 1.0);
  }

  /**
   * traceContours throws exactly when the scan keeps no walk; otherwise it
   * returns one contour of at least two points per kept walk, never longer
   * than the walk. An image without interior pixels has no contours.
   */
  lemma TracedShape(math: MathLib, edges: seq<byte>, w: nat, h: nat)
    ensures Traced(math, edges, w, h).Failure? <==> RawContours(edges, w, h) == []
    ensures Traced(math, edges, w, h).Failure? ==> Traced(math, edges, w, h).error == PlainError(NoContours)
    ensures Traced(math, edges, w, h).Success? ==>
      var raw, out := RawContours(edges, w, h), Traced(math, edges, w, h).value;
      |out| == |raw| && forall i :: 0 <= i < |raw| ==> 2 <= |out[i]| <= |raw[i]|
    ensures w < 3 || h < 3 ==> Traced(math, edges, w, h).Failure?
  {
    var raw := RawContours(edges, w, h);
    if 0 < w && 0 < h {
      RawContoursGood(edges, w, h);
      forall i | 0 <= i < |raw|
        ensures 2 <= |Refine(math, raw[i])| <= |raw[i]|
      {
        RefinedLength(math, raw[i]);
      }
    }
    if (w < 3 || h < 3) && w > 0 {
      InteriorStartOnly(w, h);
      SkipBorder(w, h, EdgeAt(edges, w), InteriorStart(w, h), 0, w * h);
    }
  }

  /** Refining one more walk appends its refined points. */
  lemma RefineAllSnoc(math: MathLib, cs: seq<seq<Pos>>, c: seq<Pos>)
    ensures RefineAll(math, cs + [c]) == RefineAll(math, cs) + [Refine(math, c)]
  {
  }

  /** Outside the interior, `start` is false: the test the scan reads, kept behind a narrow trigger. */
  ghost predicate InteriorOnly(w: int, h: int, start: Pos -> bool) {
    forall p {:trigger InteriorAt(w, h, p)} :: start(p) <==> InteriorAt(w, h, p)
  }

  /** Pixel p is off the one-pixel border. */
  ghost predicate InteriorAt(w: int, h: int, p: Pos) {
    Interior(w, h, p.1, p.0)
  }

  /** InteriorStart is the interior test. */
  lemma InteriorStartOnly(w: int, h: int)
    ensures InteriorOnly(w, h, InteriorStart(w, h))
  {
  }

  /** Border pixels start no walk, so the scan passes over them unchanged. */
  lemma SkipBorder(w: nat, h: nat, edge: Pos -> bool, start: Pos -> bool, n: nat, m: nat)
    requires 0 < w && n <= m <= w * h && InteriorOnly(w, h, start)
    requires forall k :: n <= k < m ==> Border(w, h, k)
    ensures ScanBefore(w, h, edge, start, MinContourLength, m) == ScanBefore(w, h, edge, start, MinContourLength, n)
  {
    forall k | n <= k < m
      ensures !start(PixelAt(w, k))
    {
      assert Border(w, h, k);
      assert !InteriorAt(w, h, PixelAt(w, k));
    }
    SkipScan(w, h, Walks(w, h, edge), edge, start, MinContourLength, n, m);
  }

  /**
   * `traceContours({ edges, width, height })`: the interior raster scan,
   * with each kept walk simplified and smoothed, and the error when none is
   * kept.
   */
  method TraceContours(math: MathLib, edges: seq<byte>, w: nat, h: nat) returns (r: Result<seq<seq<Point>>, Error>)
    ensures r == Traced(math, edges, w, h)
  {
    var visited := new byte[|edges|](_ => 0);
    var contours: seq<seq<Point>> := [];
    ghost var kept: seq<seq<Pos>> := [];
    InteriorStartOnly(w, h);
    // with fewer than three rows or columns no pixel is interior and the loops are empty
    if 3 <= w && 3 <= h {
      NothingVisited(w, h, visited[..]);
      EdgeAtBytes(w, h, edges);
      kept, contours := ScanInterior(math, edges, visited, w, h, EdgeAt(edges, w), InteriorStart(w, h));
    } else if w > 0 {
      SkipBorder(w, h, EdgeAt(edges, w), InteriorStart(w, h), 0, w * h);
    }
    if |contours| == 0 {
      return Failure(PlainError(NoContours));
    }
    return Success(contours);
  }

  /** The loop over the rows of traceContours, in an image of at least three rows and columns. */
  method ScanInterior(math: MathLib, edges: seq<byte>, visited: array<byte>, w: nat, h: nat, ghost edge: Pos -> bool, ghost start: Pos -> bool)
    returns (ghost kept: seq<seq<Pos>>, contours: seq<seq<Point>>)
    requires 3 <= w && 3 <= h && EdgeBytes(w, h, edge, edges) && InteriorOnly(w, h, start)
    requires visited.Length == |edges| && Mirrors(w, h, visited[..], {})
    modifies visited
    ensures kept == ScanBefore(w, h, edge, start, MinContourLength, w * h).contours
    ensures contours == RefineAll(math, kept)
  {
    contours, kept := [], [];
    ghost var seen: set<Pos> := {};
    FirstRowIsBorder(w, h);
    MulLe(w, 2, h);
    SkipBorder(w, h, edge, start, 0, w + 1);
    ghost var n: nat := w + 1;
    var y := 1;
    while y < h - 1
      invariant 1 <= y <= h - 1
      invariant visited.Length == |edges| && Mirrors(w, h, visited[..], seen)
      invariant n == PixelIndex(w, y, 1) && n <= w * h
      invariant Scan(kept, seen) == ScanBefore(w, h, edge, start, MinContourLength, n)
      invariant contours == RefineAll(math, kept)
    {
      NextRow(w, h, y, n);
      kept, seen, contours, n := ScanRow(math, edges, visited, w, h, y, edge, start, n, kept, seen, contours);
      y := y + 1;
    }
    LastRowIsBorder(w, h, y);
    SkipBorder(w, h, edge, start, n, w * h);
  }

  /**
   * Row y of traceContours's scan, x from 1 to width - 2, and then the
   * border pixels up to the first interior pixel of the next row.
   */
  method ScanRow(math: MathLib, edges: seq<byte>, visited: array<byte>, w: nat, h: nat, y: nat,
                 ghost edge: Pos -> bool, ghost start: Pos -> bool, ghost n: nat,
                 ghost kept: seq<seq<Pos>>, ghost seen: set<Pos>, contours: seq<seq<Point>>)
    returns (ghost kept': seq<seq<Pos>>, ghost seen': set<Pos>, contours': seq<seq<Point>>, ghost n': nat)
    requires 3 <= w && 1 <= y < h - 1 && EdgeBytes(w, h, edge, edges) && InteriorOnly(w, h, start)
    requires visited.Length == |edges| && Mirrors(w, h, visited[..], seen)
    requires n == PixelIndex(w, y, 1) && n + w <= w * h
    requires Scan(kept, seen) == ScanBefore(w, h, edge, start, MinContourLength, n)
    requires contours == RefineAll(math, kept)
    modifies visited
    ensures Mirrors(w, h, visited[..], seen')
    ensures n' == n + w
    ensures Scan(kept', seen') == ScanBefore(w, h, edge, start, MinContourLength, n')
    ensures contours' == RefineAll(math, kept')
  {
    kept', seen', contours', n' := kept, seen, contours, n;
    var x := 1;
    while x < w - 1
      invariant 1 <= x <= w - 1
      invariant visited.Length == |edges| && Mirrors(w, h, visited[..], seen')
      invariant n' == n + x - 1
      invariant Scan(kept', seen') == ScanBefore(w, h, edge, start, MinContourLength, n')
      invariant contours' == RefineAll(math, kept')
    {
      kept', seen', contours' := ScanPixel(math, edges, visited, w, h, y, x, edge, start, n', kept', seen', contours');
      n' := n' + 1;
      x := x + 1;
    }
    RowEnd(w, h, y, edge, start, n);
    n' := n' + 2;
  }

  /** Row y, whose first interior pixel is the n-th, is followed by the next row, within the image. */
  lemma NextRow(w: nat, h: nat, y: nat, n: nat)
    requires 3 <= w && 1 <= y < h - 1 && n == PixelIndex(w, y, 1)
    ensures n + w == PixelIndex(w, y + 1, 1) && n + w <= w * h
  {
    assert (y + 1) * w == y * w + w;
    assert (y + 2) * w == y * w + 2 * w;
    MulLe(w, y + 2, h);
  }

  /**
   * After the last interior pixel of row y, the scan passes two border
   * pixels to the first interior pixel of row y + 1.
   */
  lemma RowEnd(w: nat, h: nat, y: nat, edge: Pos -> bool, start: Pos -> bool, n: nat)
    requires 3 <= w && 1 <= y < h - 1 && n == PixelIndex(w, y, 1) && InteriorOnly(w, h, start)
    ensures n + w <= w * h
    ensures ScanBefore(w, h, edge, start, MinContourLength, n + w) ==
            ScanBefore(w, h, edge, start, MinContourLength, n + w - 2)
  {
    NextRow(w, h, y, n);
    RowEndIsBorder(w, h, y, w - 1);
    SkipBorder(w, h, edge, start, n + w - 2, n + w);
  }

  /** The inner loop's body: pixel (x, y), the n-th of the scan. */
  method ScanPixel(math: MathLib, edges: seq<byte>, visited: array<byte>, w: nat, h: nat, y: nat, x: nat,
                   ghost edge: Pos -> bool, ghost start: Pos -> bool, ghost n: nat,
                   ghost kept: seq<seq<Pos>>, ghost seen: set<Pos>, contours: seq<seq<Point>>)
    returns (ghost kept': seq<seq<Pos>>, ghost seen': set<Pos>, contours': seq<seq<Point>>)
    requires EdgeBytes(w, h, edge, edges) && InteriorOnly(w, h, start)
    requires visited.Length == |edges| && Mirrors(w, h, visited[..], seen)
    requires Interior(w, h, y, x) && n == PixelIndex(w, y, x) && n < w * h
    requires Scan(kept, seen) == ScanBefore(w, h, edge, start, MinContourLength, n)
    requires contours == RefineAll(math, kept)
    modifies visited
    ensures Mirrors(w, h, visited[..], seen')
    ensures Scan(kept', seen') == ScanBefore(w, h, edge, start, MinContourLength, n + 1)
    ensures contours' == RefineAll(math, kept')
  {
    ScanStep(w, h, edge, start, MinContourLength, y, x);
    assert start((x, y)) by {
      assert InteriorAt(w, h, (x, y));
    }
    kept', seen', contours' := kept, seen, contours;
    var idx := RasterIndex(w, (x, y));
    assert Flagged(w, visited[..], (x, y)) <==> (x, y) in seen;
    assert EdgeByte(w, edges, (x, y)) <==> edge((x, y));
    // an index past the end reads `undefined`, which is not 255
    if idx < |edges| && edges[idx] == 255 && visited[idx] == 0 {
      var contour;
      contour, seen' := TraceContour(edges, visited, w, h, x, y, edge, seen);
      if |contour| >= MinContourLength {
        ContourOptimizer.SimplifyTerminates(LineDistance(math), AsPoints(contour), 1.0);
        var simplified := ContourOptimizer.SimplifyContour(LineDistance(math), AsPoints(contour), 1.0);
        var smoothed := SmoothContour(simplified.value);
        RefineAllSnoc(math, kept, contour);
        contours' := contours + [smoothed];
        kept' := kept + [contour];
      }
    }
  }
}
