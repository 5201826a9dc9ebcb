/**
 * The contour walk the three contour tracers share. A walk visits its start
 * pixel and then steps to the first of the eight neighbours, tried in a
 * fixed order, that lies inside the image, is an edge pixel and is not
 * visited yet; it stops when there is none. The scan goes over the image in
 * raster order, starts a walk at every unvisited pixel where a walk may
 * start, and keeps the walks that are long enough. The visited set is shared
 * by all the walks of one scan.
 *
 * What counts as an edge pixel and where a walk may start are parameters:
 * each tracer passes its own tests on its own pixel data.
 */
module Tracing {
  import opened Wrappers
  import opened Types
  import opened Raster

  /** The neighbour offsets, in the order the walk tries them: the row above, the two sides, the row below. */
  const Directions: seq<Pos> := [(-1, -1), (0, -1), (1, -1), (-1, 0), (1, 0), (-1, 1), (0, 1), (1, 1)]

  /** `nx >= 0 && nx < width && ny >= 0 && ny < height`. */
  predicate InGrid(w: int, h: int, p: Pos) {
    0 <= p.0 < w && 0 <= p.1 < h
  }

  /** All positions of a w × h image. */
  function Grid(w: int, h: int): set<Pos> {
    set x: int, y: int | 0 <= x < w && 0 <= y < h :: (x, y)
  }

  lemma GridMember(w: int, h: int, p: Pos)
    ensures p in Grid(w, h) <==> InGrid(w, h, p)
  {
    if InGrid(w, h, p) {
      assert p == (p.0, p.1);
    }
  }

  /** Visiting one more position of the image leaves fewer unvisited ones. */
  lemma GridShrinks(w: int, h: int, visited: set<Pos>, p: Pos)
    requires InGrid(w, h, p) && p !in visited
    ensures |Grid(w, h) - (visited + {p})| < |Grid(w, h) - visited|
  {
    GridMember(w, h, p);
    assert Grid(w, h) - (visited + {p}) == (Grid(w, h) - visited) - {p};
  }

  /** `(x + dx, y + dy)`. */
  function Shift(p: Pos, d: Pos): Pos {
    (p.0 + d.0, p.1 + d.1)
  }

  /** A position the walk may step to: inside the image, an edge pixel, and not visited. */
  predicate Open(w: int, h: int, edge: Pos -> bool, visited: set<Pos>, q: Pos) {
    InGrid(w, h, q) && edge(q) && q !in visited
  }

  /** The first of the directions k, k + 1, … that leads from p to an open position. */
  function NextStep(w: int, h: int, edge: Pos -> bool, visited: set<Pos>, p: Pos, k: nat): (r: Option<Pos>)
    requires k <= |Directions|
    ensures r.Some? ==> Open(w, h, edge, visited, r.value) && Adjacent(p, r.value) && r.value != p
    ensures r.None? <==> forall j :: k <= j < |Directions| ==> !Open(w, h, edge, visited, Shift(p, Directions[j]))
    decreases |Directions| - k
  {
    if k == |Directions| then None
    else if Open(w, h, edge, visited, Shift(p, Directions[k])) then Some(Shift(p, Directions[k]))
    else NextStep(w, h, edge, visited, p, k + 1)
  }

  /** The step taken is the first open direction: every direction tried before it is closed. */
  lemma {:induction false} StepIsFirst(w: int, h: int, edge: Pos -> bool, visited: set<Pos>, p: Pos, k: nat) returns (j: nat)
    requires k <= |Directions| && NextStep(w, h, edge, visited, p, k).Some?
    ensures k <= j < |Directions| && NextStep(w, h, edge, visited, p, k).value == Shift(p, Directions[j])
    ensures forall i :: k <= i < j ==> !Open(w, h, edge, visited, Shift(p, Directions[i]))
    decreases |Directions| - k
  {
    if Open(w, h, edge, visited, Shift(p, Directions[k])) {
      j := k;
    } else {
      j := StepIsFirst(w, h, edge, visited, p, k + 1);
    }
  }

  /** The eight directions reach every neighbour of p other than p itself. */
  lemma DirectionOf(p: Pos, q: Pos) returns (j: nat)
    requires Adjacent(p, q) && q != p
    ensures j < |Directions| && q == Shift(p, Directions[j])
  {
    var dx, dy := q.0 - p.0, q.1 - p.1;
    j := if dy == -1 then dx + 1 else if dy == 0 then (if dx == -1 then 3 else 4) else dx + 6;
  }

  /** When no step is found, no neighbour of p is open. */
  lemma DeadEnd(w: int, h: int, edge: Pos -> bool, visited: set<Pos>, p: Pos)
    requires NextStep(w, h, edge, visited, p, 0).None?
    ensures forall q :: Adjacent(p, q) && q != p ==> !Open(w, h, edge, visited, q)
  {
    forall q | Adjacent(p, q) && q != p
      ensures !Open(w, h, edge, visited, q)
    {
      var j := DirectionOf(p, q);
    }
  }

  /** What a walk produced: its points, in order, and the visited set afterwards. */
  datatype Walk = Walk(points: seq<Pos>, visited: set<Pos>)

  /** The walk from p: nothing when p is already visited, otherwise p and the walk from the next step. */
  function Trail(w: int, h: int, edge: Pos -> bool, visited: set<Pos>, p: Pos): Walk
    requires InGrid(w, h, p)
    decreases Grid(w, h) - visited
  {
    if p in visited then Walk([], visited)
    else
      var v := visited + {p};
      match NextStep(w, h, edge, v, p, 0)
      case None => Walk([p], v)
      case Some(q) =>
        var rest := Trail(w, h, edge, v, q);
        Walk([p] + rest.points, rest.visited)
  }

  /** A walk that stops at p: p is its only point. */
  lemma TrailStops(w: int, h: int, edge: Pos -> bool, visited: set<Pos>, p: Pos)
    requires InGrid(w, h, p) && p !in visited && NextStep(w, h, edge, visited + {p}, p, 0).None?
    ensures Trail(w, h, edge, visited, p) == Walk([p], visited + {p})
  {
  }

  /** A walk that goes on from p to q: p, then the walk from q with p visited. */
  lemma TrailMoves(w: int, h: int, edge: Pos -> bool, visited: set<Pos>, p: Pos, q: Pos)
    requires InGrid(w, h, p) && p !in visited && NextStep(w, h, edge, visited + {p}, p, 0) == Some(q)
    ensures InGrid(w, h, q) && edge(q) && q !in visited + {p}
    ensures var rest := Trail(w, h, edge, visited + {p}, q);
      Trail(w, h, edge, visited, p) == Walk([p] + rest.points, rest.visited)
  {
  }

  /** The points c, followed by the walk t. */
  function Then(c: seq<Pos>, t: Walk): Walk {
    Walk(c + t.points, t.visited)
  }

  /** Moving one point from the walk to the points before it. */
  lemma ThenStep(c: seq<Pos>, p: Pos, rest: Walk)
    ensures Then(c, Walk([p] + rest.points, rest.visited)) == Then(c + [p], rest)
  {
    assert c + ([p] + rest.points) == (c + [p]) + rest.points;
  }

  /** No position occurs twice in s. */
  predicate Distinct(s: seq<Pos>) {
    forall i, j :: 0 <= i < j < |s| ==> s[i] != s[j]
  }

  /** The points after the first are edge pixels, and consecutive points are distinct 8-neighbours. */
  predicate Chained(edge: Pos -> bool, s: seq<Pos>) {
    forall i :: 1 <= i < |s| ==> edge(s[i]) && Adjacent(s[i - 1], s[i]) && s[i - 1] != s[i]
  }

  /** The points of s lie inside the image and were not visited before. */
  predicate Fresh(w: int, h: int, visited: set<Pos>, s: seq<Pos>) {
    forall i :: 0 <= i < |s| ==> InGrid(w, h, s[i]) && s[i] !in visited
  }

  /** The visited set after is the one before together with the points of s. */
  ghost predicate Joins(before: set<Pos>, s: seq<Pos>, after: set<Pos>) {
    forall q :: q in after <==> q in before || q in s
  }

  /** No neighbour of the last point of s is open any more. */
  ghost predicate Stuck(w: int, h: int, edge: Pos -> bool, visited: set<Pos>, s: seq<Pos>) {
    s != [] ==> forall q :: Adjacent(s[|s| - 1], q) && q != s[|s| - 1] ==> !Open(w, h, edge, visited, q)
  }

  /**
   * What a walk from p over the visited set `visited` promises: it is empty
   * exactly when p was visited already, and otherwise starts at p; its
   * points are distinct, inside the image, not visited before, and chained
   * by 8-neighbour steps through edge pixels; afterwards exactly its points
   * have joined the visited set; and the walk ends where no neighbour is
   * open any more.
   */
  ghost predicate IsWalk(w: int, h: int, edge: Pos -> bool, visited: set<Pos>, p: Pos, t: Walk) {
    (p in visited <==> t.points == []) &&
    (t.points != [] ==> t.points[0] == p) &&
    Fresh(w, h, visited, t.points) &&
    Chained(edge, t.points) &&
    Distinct(t.points) &&
    Joins(visited, t.points, t.visited) &&
    Stuck(w, h, edge, t.visited, t.points)
  }

  /** Every walk keeps the promises of IsWalk. */
  lemma {:induction false} TrailIsWalk(w: int, h: int, edge: Pos -> bool, visited: set<Pos>, p: Pos)
    requires InGrid(w, h, p)
    ensures IsWalk(w, h, edge, visited, p, Trail(w, h, edge, visited, p))
    decreases Grid(w, h) - visited
  {
    if p !in visited {
      var v := visited + {p};
      match NextStep(w, h, edge, v, p, 0)
      case None =>
        DeadEnd(w, h, edge, v, p);
      case Some(q) =>
        TrailIsWalk(w, h, edge, v, q);
        PrependStep(w, h, edge, visited, p, q, Trail(w, h, edge, v, q));
    }
  }

  /** A walk from the next step q, with p in front, is a walk from p. */
  lemma PrependStep(w: int, h: int, edge: Pos -> bool, visited: set<Pos>, p: Pos, q: Pos, rest: Walk)
    requires InGrid(w, h, p) && p !in visited
    requires NextStep(w, h, edge, visited + {p}, p, 0) == Some(q)
    requires IsWalk(w, h, edge, visited + {p}, q, rest)
    ensures IsWalk(w, h, edge, visited, p, Walk([p] + rest.points, rest.visited))
  {
    PrependFresh(w, h, visited, p, rest.points);
    PrependChained(edge, p, rest.points);
    PrependDistinct(p, rest.points);
    PrependJoins(visited, p, rest.points, rest.visited);
    PrependStuck(w, h, edge, rest.visited, p, rest.points);
  }

  lemma PrependFresh(w: int, h: int, visited: set<Pos>, p: Pos, s: seq<Pos>)
    requires InGrid(w, h, p) && p !in visited && Fresh(w, h, visited + {p}, s)
    ensures Fresh(w, h, visited, [p] + s) && p !in s
  {
    assert forall i :: 1 <= i < |[p] + s| ==> ([p] + s)[i] == s[i - 1];
  }

  lemma PrependJoins(visited: set<Pos>, p: Pos, s: seq<Pos>, after: set<Pos>)
    requires Joins(visited + {p}, s, after)
    ensures Joins(visited, [p] + s, after)
  {
    forall q
      ensures q in after <==> q in visited || q in [p] + s
    {
      assert q in [p] + s <==> q == p || q in s;
    }
  }

  lemma PrependStuck(w: int, h: int, edge: Pos -> bool, visited: set<Pos>, p: Pos, s: seq<Pos>)
    requires Stuck(w, h, edge, visited, s) && s != []
    ensures Stuck(w, h, edge, visited, [p] + s)
  {
    assert ([p] + s)[|s|] == s[|s| - 1];
  }

  /** An edge-pixel chain with a neighbour of its first point in front is still a chain. */
  lemma PrependChained(edge: Pos -> bool, p: Pos, s: seq<Pos>)
    requires Chained(edge, s) && |s| > 0 && edge(s[0]) && Adjacent(p, s[0]) && p != s[0]
    ensures Chained(edge, [p] + s)
  {
    var t := [p] + s;
    forall i | 1 <= i < |t|
      ensures edge(t[i]) && Adjacent(t[i - 1], t[i]) && t[i - 1] != t[i]
    {
      if i > 1 {
        assert t[i - 1] == s[i - 2] && t[i] == s[i - 1];
      }
    }
  }

  /** A distinct sequence with a new position in front is still distinct. */
  lemma PrependDistinct(p: Pos, s: seq<Pos>)
    requires Distinct(s) && p !in s
    ensures Distinct([p] + s)
  {
    var t := [p] + s;
    forall i, j | 0 <= i < j < |t|
      ensures t[i] != t[j]
    {
      assert t[j] == s[j - 1];
      if i > 0 {
        assert t[i] == s[i - 1];
      }
    }
  }

  // ---------------------------------------------------------------------
  // The walk as the tracers run it

  /** The `for … of directions` loop with its `break`: the first open neighbour of p, if any. */
  method FindStep(w: int, h: int, edge: Pos -> bool, visited: set<Pos>, p: Pos) returns (found: bool, q: Pos)
    ensures found <==> NextStep(w, h, edge, visited, p, 0).Some?
    ensures found ==> q == NextStep(w, h, edge, visited, p, 0).value
  {
    found, q := false, p;
    var k := 0;
    while k < |Directions|
      invariant 0 <= k <= |Directions|
      invariant NextStep(w, h, edge, visited, p, k) == NextStep(w, h, edge, visited, p, 0)
    {
      var n := Shift(p, Directions[k]);
      if 0 <= n.0 < w && 0 <= n.1 < h {
        if edge(n) && n !in visited {
          found, q := true, n;
          return;
        }
      }
      k := k + 1;
    }
  }

  /**
   * `traceContour` of the tracers that keep a visited set: the while loop
   * that stops at a visited position or where no step is found. It
   * computes the walk from `start`.
   */
  method TraceContour(w: int, h: int, edge: Pos -> bool, start: Pos, visited0: set<Pos>)
    returns (contour: seq<Pos>, visited: set<Pos>)
    requires InGrid(w, h, start)
    ensures Walk(contour, visited) == Trail(w, h, edge, visited0, start)
  {
    contour, visited := [], visited0;
    var p := start;
    var foundNext := true;
    while foundNext
      invariant InGrid(w, h, p)
      invariant foundNext ==>
        (var t := Trail(w, h, edge, visited, p); Trail(w, h, edge, visited0, start) == Walk(contour + t.points, t.visited))
      invariant !foundNext ==> Trail(w, h, edge, visited0, start) == Walk(contour, visited)
      decreases |Grid(w, h) - visited|
    {
      if p in visited {
        break;
      }
      GridShrinks(w, h, visited, p);
      ghost var before := contour;
      visited := visited + {p};
      contour := contour + [p];
      var next;
      foundNext, next := FindStep(w, h, edge, visited, p);
      if foundNext {
        var t := Trail(w, h, edge, visited, next);
        assert before + ([p] + t.points) == contour + t.points;
        p := next;
      }
    }
  }

  // ---------------------------------------------------------------------
  // The scan

  /** The contours kept so far and the shared visited set. */
  datatype Scan = Scan(contours: seq<seq<Pos>>, visited: set<Pos>)

  /** The position of raster index n of a width-w image: column n % w of row n / w. */
  function PixelAt(w: int, n: int): Pos
    requires w > 0
  {
    (n % w, n / w)
  }

  /** A walk from any start over any visited set: the scan's view of Trail. */
  type Walker = (set<Pos>, Pos) --> Walk

  /** The walks of a w × h image with the edge test `edge`. */
  function Walks(w: int, h: int, edge: Pos -> bool): Walker {
    (visited: set<Pos>, p: Pos) requires InGrid(w, h, p) => Trail(w, h, edge, visited, p)
  }

  /** `walk` can start anywhere inside the image, and what it returns is a walk. */
  ghost predicate WalksWell(w: int, h: int, edge: Pos -> bool, walk: Walker) {
    forall visited, p :: InGrid(w, h, p) ==> walk.requires(visited, p) && IsWalk(w, h, edge, visited, p, walk(visited, p))
  }

  /** Trail is a walker that walks well. */
  lemma TrailWalksWell(w: int, h: int, edge: Pos -> bool)
    ensures WalksWell(w, h, edge, Walks(w, h, edge))
  {
    forall visited, p | InGrid(w, h, p)
      ensures IsWalk(w, h, edge, visited, p, Walks(w, h, edge)(visited, p))
    {
      TrailIsWalk(w, h, edge, visited, p);
    }
  }

  /**
   * The scan after the first n pixels in raster order, with the walks of
   * `walk`: a pixel where a walk may start, that is an edge pixel and not
   * yet visited, starts a walk, and the walk is kept when it has at least
   * minLength points.
   */
  function ScanWith(w: nat, h: nat, walk: Walker, edge: Pos -> bool, start: Pos -> bool, minLength: nat, n: nat): Scan
    requires n <= w * h
    requires forall visited, p :: InGrid(w, h, p) ==> walk.requires(visited, p)
  {
    if n == 0 then Scan([], {})
    else
      var s := ScanWith(w, h, walk, edge, start, minLength, n - 1);
      PixelOf(w, h, n - 1);
      var p := PixelAt(w, n - 1);
      if start(p) && edge(p) && p !in s.visited then
        var t := walk(s.visited, p);
        Scan(if |t.points| >= minLength then s.contours + [t.points] else s.contours, t.visited)
      else s
  }

  /** The scan after the first n pixels in raster order, with the walks of Trail. */
  function ScanBefore(w: nat, h: nat, edge: Pos -> bool, start: Pos -> bool, minLength: nat, n: nat): Scan
    requires n <= w * h
  {
    ScanWith(w, h, Walks(w, h, edge), edge, start, minLength, n)
  }

  /** One step of the scan, at pixel (x, y). */
  lemma ScanStep(w: nat, h: nat, edge: Pos -> bool, start: Pos -> bool, minLength: nat, y: nat, x: nat)
    requires y < h && x < w
    ensures PixelIndex(w, y, x) < w * h
    ensures var s := ScanBefore(w, h, edge, start, minLength, PixelIndex(w, y, x));
      ScanBefore(w, h, edge, start, minLength, PixelIndex(w, y, x) + 1) ==
      if start((x, y)) && edge((x, y)) && (x, y) !in s.visited then
        var t := Trail(w, h, edge, s.visited, (x, y));
        Scan(if |t.points| >= minLength then s.contours + [t.points] else s.contours, t.visited)
      else s
  {
    PixelIndexBound(w, h, y, x);
    PixelIndexInverse(w, y, x);
  }

  /** Pixels where no walk may start leave the scan unchanged. */
  lemma {:induction false} SkipScan(w: nat, h: nat, walk: Walker, edge: Pos -> bool, start: Pos -> bool, minLength: nat, n: nat, m: nat)
    requires 0 < w && n <= m <= w * h
    requires forall visited, p :: InGrid(w, h, p) ==> walk.requires(visited, p)
    requires forall k :: n <= k < m ==> !start(PixelAt(w, k))
    ensures ScanWith(w, h, walk, edge, start, minLength, m) == ScanWith(w, h, walk, edge, start, minLength, n)
    decreases m - n
  {
    if n < m {
      SkipScan(w, h, walk, edge, start, minLength, n, m - 1);
    }
  }

  /** The raster index of a position. */
  function RasterIndex(w: int, p: Pos): int {
    PixelIndex(w, p.1, p.0)
  }

  /** No position occurs twice, in one contour or across two. */
  predicate Disjoint(cs: seq<seq<Pos>>) {
    forall i, j, a, b | 0 <= i < |cs| && 0 <= j < |cs| && 0 <= a < |cs[i]| && 0 <= b < |cs[j]| ::
      (i != j || a != b) ==> cs[i][a] != cs[j][b]
  }

  /** Every kept contour has at least minLength points, and at least one, and starts where a walk may start. */
  predicate LongEnough(start: Pos -> bool, minLength: nat, cs: seq<seq<Pos>>) {
    forall i :: 0 <= i < |cs| ==> |cs[i]| >= minLength && |cs[i]| >= 1 && start(cs[i][0])
  }

  /** The points of the contours are visited edge pixels of the image. */
  predicate OnEdges(w: int, h: int, edge: Pos -> bool, visited: set<Pos>, cs: seq<seq<Pos>>) {
    forall i, k :: 0 <= i < |cs| && 0 <= k < |cs[i]| ==> InGrid(w, h, cs[i][k]) && edge(cs[i][k]) && cs[i][k] in visited
  }

  /** Every contour is chained by 8-neighbour steps. */
  predicate AllChained(edge: Pos -> bool, cs: seq<seq<Pos>>) {
    forall i :: 0 <= i < |cs| ==> Chained(edge, cs[i])
  }

  /** The contours start before raster index n, in strictly increasing raster order. */
  predicate Ordered(w: int, n: int, cs: seq<seq<Pos>>) {
    (forall i :: 0 <= i < |cs| && |cs[i]| > 0 ==> RasterIndex(w, cs[i][0]) < n) &&
    (forall i, j :: 0 <= i < j < |cs| && |cs[i]| > 0 && |cs[j]| > 0 ==> RasterIndex(w, cs[i][0]) < RasterIndex(w, cs[j][0]))
  }

  /** Only positions of the image are visited. */
  ghost predicate InsideImage(w: int, h: int, visited: set<Pos>) {
    forall q :: q in visited ==> InGrid(w, h, q)
  }

  /** Every pixel before raster index n where a walk may start and that is an edge pixel has been visited. */
  predicate Covered(w: int, edge: Pos -> bool, start: Pos -> bool, n: int, visited: set<Pos>)
    requires w > 0
  {
    forall k :: 0 <= k < n ==> start(PixelAt(w, k)) && edge(PixelAt(w, k)) ==> PixelAt(w, k) in visited
  }

  /**
   * What the scan after n pixels promises: every kept contour has at least
   * minLength points and at least one, and starts where a walk may start;
   * its points are visited edge pixels of the image, chained by
   * 8-neighbour steps; no position occurs twice in all the contours; the
   * contours start in strictly increasing raster order, before n; only
   * image positions are visited; and every pixel before n where a walk may
   * start and that is an edge pixel has been visited.
   */
  ghost predicate GoodScan(w: nat, h: nat, edge: Pos -> bool, start: Pos -> bool, minLength: nat, n: nat, s: Scan) {
    w > 0 &&
    LongEnough(start, minLength, s.contours) &&
    OnEdges(w, h, edge, s.visited, s.contours) &&
    AllChained(edge, s.contours) &&
    Disjoint(s.contours) &&
    Ordered(w, n, s.contours) &&
    InsideImage(w, h, s.visited) &&
    Covered(w, edge, start, n, s.visited)
  }

  /** The scan keeps its promises after every pixel. */
  lemma ScanIsGood(w: nat, h: nat, edge: Pos -> bool, start: Pos -> bool, minLength: nat, n: nat)
    requires 0 < n <= w * h
    ensures GoodScan(w, h, edge, start, minLength, n, ScanBefore(w, h, edge, start, minLength, n))
  {
    TrailWalksWell(w, h, edge);
    PixelOf(w, h, 0);
    ScanWithIsGood(w, h, Walks(w, h, edge), edge, start, minLength, n);
  }

  /** The scan keeps its promises after every pixel, with any walker that walks well. */
  lemma {:induction false} ScanWithIsGood(w: nat, h: nat, walk: Walker, edge: Pos -> bool, start: Pos -> bool, minLength: nat, n: nat)
    requires 0 < w && n <= w * h && WalksWell(w, h, edge, walk)
    ensures GoodScan(w, h, edge, start, minLength, n, ScanWith(w, h, walk, edge, start, minLength, n))
  {
    if n == 0 {
      GoodStart(w, h, walk, edge, start, minLength);
    } else {
      var m := n - 1;
      ScanWithIsGood(w, h, walk, edge, start, minLength, m);
      ScanAdvance(w, h, walk, edge, start, minLength, m);
      assert m + 1 == n;
    }
  }

  /** Before the first pixel there is nothing to promise. */
  lemma GoodStart(w: nat, h: nat, walk: Walker, edge: Pos -> bool, start: Pos -> bool, minLength: nat)
    requires w > 0 && WalksWell(w, h, edge, walk)
    ensures GoodScan(w, h, edge, start, minLength, 0, ScanWith(w, h, walk, edge, start, minLength, 0))
  {
    assert ScanWith(w, h, walk, edge, start, minLength, 0) == Scan([], {});
  }

  /** One more pixel keeps the promises. */
  lemma ScanAdvance(w: nat, h: nat, walk: Walker, edge: Pos -> bool, start: Pos -> bool, minLength: nat, n: nat)
    requires n < w * h && WalksWell(w, h, edge, walk)
    requires GoodScan(w, h, edge, start, minLength, n, ScanWith(w, h, walk, edge, start, minLength, n))
    ensures GoodScan(w, h, edge, start, minLength, n + 1, ScanWith(w, h, walk, edge, start, minLength, n + 1))
  {
    var s := ScanWith(w, h, walk, edge, start, minLength, n);
    PixelOf(w, h, n);
    var p := PixelAt(w, n);
    PixelIndexInverse(w, p.1, p.0);
    if start(p) && edge(p) && p !in s.visited {
      ScanWalk(w, h, edge, start, minLength, n, s, walk(s.visited, p));
    }
  }

  /** A walk started at pixel n keeps the promises, whether it is kept or not. */
  lemma ScanWalk(w: nat, h: nat, edge: Pos -> bool, start: Pos -> bool, minLength: nat, n: nat, s: Scan, t: Walk)
    requires GoodScan(w, h, edge, start, minLength, n, s)
    requires var p := PixelAt(w, n);
      InGrid(w, h, p) && RasterIndex(w, p) == n &&
      start(p) && edge(p) && p !in s.visited && IsWalk(w, h, edge, s.visited, p, t)
    ensures GoodScan(w, h, edge, start, minLength, n + 1,
      Scan(if |t.points| >= minLength then s.contours + [t.points] else s.contours, t.visited))
  {
    var p := PixelAt(w, n);
    WalkInside(w, h, s.visited, t);
    VisitedGrows(w, h, edge, s.visited, t.visited, s.contours);
    CoverStep(w, edge, start, n, s.visited, t.visited);
    if |t.points| >= minLength {
      KeepWalk(w, h, edge, start, minLength, n, s, t);
    }
  }

  /** The walk visits only positions of the image. */
  lemma WalkInside(w: int, h: int, visited: set<Pos>, t: Walk)
    requires InsideImage(w, h, visited) && Fresh(w, h, visited, t.points) && Joins(visited, t.points, t.visited)
    ensures InsideImage(w, h, t.visited)
  {
    forall q | q in t.visited
      ensures InGrid(w, h, q)
    {
      if q !in visited {
        var i :| 0 <= i < |t.points| && t.points[i] == q;
      }
    }
  }

  /** Earlier contours stay visited as the set grows. */
  lemma VisitedGrows(w: int, h: int, edge: Pos -> bool, before: set<Pos>, after: set<Pos>, cs: seq<seq<Pos>>)
    requires OnEdges(w, h, edge, before, cs) && before <= after
    ensures OnEdges(w, h, edge, after, cs)
  {
  }

  /** Pixel n is visited after the walk from it, and nothing visited is forgotten. */
  lemma CoverStep(w: int, edge: Pos -> bool, start: Pos -> bool, n: nat, before: set<Pos>, after: set<Pos>)
    requires w > 0 && Covered(w, edge, start, n, before) && before <= after && PixelAt(w, n) in after
    ensures Covered(w, edge, start, n + 1, after)
  {
  }

  /** A kept walk keeps the promises. */
  lemma KeepWalk(w: nat, h: nat, edge: Pos -> bool, start: Pos -> bool, minLength: nat, n: nat, s: Scan, t: Walk)
    requires GoodScan(w, h, edge, start, minLength, n, s)
    requires var p := PixelAt(w, n);
      InGrid(w, h, p) && RasterIndex(w, p) == n &&
      start(p) && edge(p) && p !in s.visited && IsWalk(w, h, edge, s.visited, p, t)
    requires OnEdges(w, h, edge, t.visited, s.contours)
    requires |t.points| >= minLength
    ensures LongEnough(start, minLength, s.contours + [t.points])
    ensures OnEdges(w, h, edge, t.visited, s.contours + [t.points])
    ensures AllChained(edge, s.contours + [t.points])
    ensures Disjoint(s.contours + [t.points])
    ensures Ordered(w, n + 1, s.contours + [t.points])
  {
    var cs := s.contours + [t.points];
    var m := |s.contours|;
    assert cs[m] == t.points;
    assert forall i :: 0 <= i < m ==> cs[i] == s.contours[i];
    WalkOnEdges(w, h, edge, s.visited, PixelAt(w, n), t);
    KeepDisjoint(s.visited, s.contours, t.points);
  }

  /** The points of a walk from an edge pixel are visited edge pixels. */
  lemma WalkOnEdges(w: int, h: int, edge: Pos -> bool, visited: set<Pos>, p: Pos, t: Walk)
    requires p !in visited && edge(p) && IsWalk(w, h, edge, visited, p, t)
    ensures forall k :: 0 <= k < |t.points| ==> InGrid(w, h, t.points[k]) && edge(t.points[k]) && t.points[k] in t.visited
  {
    forall k | 0 <= k < |t.points|
      ensures InGrid(w, h, t.points[k]) && edge(t.points[k]) && t.points[k] in t.visited
    {
      assert Fresh(w, h, visited, t.points) && Joins(visited, t.points, t.visited);
      if k > 0 {
        assert Chained(edge, t.points);
      }
    }
  }

  /** A new distinct contour of unvisited positions keeps the contours disjoint. */
  lemma KeepDisjoint(visited: set<Pos>, cs: seq<seq<Pos>>, c: seq<Pos>)
    requires Disjoint(cs) && Distinct(c)
    requires forall i, k :: 0 <= i < |cs| && 0 <= k < |cs[i]| ==> cs[i][k] in visited
    requires forall k :: 0 <= k < |c| ==> c[k] !in visited
    ensures Disjoint(cs + [c])
  {
    var ds := cs + [c];
    var m := |cs|;
    forall i, j, a, b | 0 <= i < |ds| && 0 <= j < |ds| && 0 <= a < |ds[i]| && 0 <= b < |ds[j]| && (i != j || a != b)
      ensures ds[i][a] != ds[j][b]
    {
      if i < m && j < m {
        assert ds[i] == cs[i] && ds[j] == cs[j];
      } else if i < m {
        assert ds[i][a] in visited && ds[j][b] !in visited;
      } else if j < m {
        assert ds[j][b] in visited && ds[i][a] !in visited;
      }
    }
  }

  // ---------------------------------------------------------------------
  // The traced points as the tracers return them

  /** `{ x, y }` of a traced pixel. */
  function AsPoint(p: Pos): Point {
    Point(p.0 as real, p.1 as real)
  }

  /** A traced contour as a list of points. */
  function AsPoints(c: seq<Pos>): (r: seq<Point>) {
    seq(|c|, i requires 0 <= i < |c| => AsPoint(c[i]))
  }

  /** Every traced contour as a list of points. */
  function AllAsPoints(cs: seq<seq<Pos>>): (r: seq<seq<Point>>) {
    seq(|cs|, i requires 0 <= i < |cs| => AsPoints(cs[i]))
  }

  /** Converting one more contour appends its points. */
  lemma AllAsPointsSnoc(cs: seq<seq<Pos>>, c: seq<Pos>)
    ensures AllAsPoints(cs + [c]) == AllAsPoints(cs) + [AsPoints(c)]
  {
  }
}
