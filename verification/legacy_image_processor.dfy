/**
 * The older, stand-alone converter of src/lib/ImageProcessor.ts: a
 * grayscale plane, a Sobel threshold on the unblurred plane, a grid of
 * black running stitches on the edge pixels every `round(1 / density)`
 * pixels, a greedy nearest-neighbour ordering of those stitches, and a
 * simple binary export of a 512-byte header followed by three bytes per
 * stitch.
 *
 * The grayscale and Sobel loops are the same as those of
 * src/lib/embroidery/image-processor.ts (the gradient terms are added in
 * another order), so their meaning is taken from ImageProcessor.
 * Math.sqrt comes in through a MathLib.
 */
module LegacyImageProcessor {
  import opened Wrappers
  import opened Numeric
  import opened Types
  import opened Raster
  import opened Streams
  import ImageProcessor

  // ---------------------------------------------------------------------
  // toGrayscale and detectEdges

  /** toGrayscale: one byte per pixel, the rounded luma of its red, green and blue bytes. */
  method ToGrayscale(img: ImageData) returns (gray: array<byte>)
    requires WellFormed(img)
    ensures fresh(gray) && gray[..] == ImageProcessor.GrayPlane(img)
  {
    gray := ImageProcessor.GrayscalePlane(img);
  }

  /** detectEdges: the Sobel threshold over the interior pixels of the grayscale plane. */
  method DetectEdges(math: MathLib, grayscale: array<byte>, w: nat, h: nat, threshold: real) returns (edges: array<byte>)
    requires grayscale.Length == w * h
    ensures fresh(edges) && edges[..] == ImageProcessor.Edges(math, grayscale[..], w, h, threshold)
  {
    edges := ImageProcessor.SobelEdges(math, grayscale, w, h, threshold);
  }

  /** The edge map processImage hands to generateStitches: detectEdges of toGrayscale. */
  function EdgeMap(math: MathLib, img: ImageData, threshold: real): (e: seq<byte>)
    requires WellFormed(img)
    ensures |e| == img.width * img.height
  {
    ImageProcessor.Edges(math, ImageProcessor.GrayPlane(img), img.width, img.height, threshold)
  }

  /**
   * With no blur and no suppression in between, pixel (x, y) of the edge map
   * is 255 exactly when it is interior and the grayscale plane's
   * gx² + gy² exceeds threshold² (or the threshold is negative), and 0
   * otherwise; the border is 0.
   */
  lemma EdgeMapMeaning(math: MathLib, img: ImageData, threshold: real, y: int, x: int)
    requires IsSqrt(math.sqrt) && WellFormed(img) && 0 <= y < img.height && 0 <= x < img.width
    ensures 0 <= PixelIndex(img.width, y, x) < img.width * img.height
    ensures var v := EdgeMap(math, img, threshold)[PixelIndex(img.width, y, x)];
      (v == 255 <==> (Interior(img.width, img.height, y, x) &&
        (threshold < 0.0 || ImageProcessor.GradientSq(ImageProcessor.GrayPlane(img), img.width, img.height, y, x) as real > threshold * threshold))) &&
      (v == 255 || v == 0)
  {
    ImageProcessor.EdgeThreshold(math, ImageProcessor.GrayPlane(img), img.width, img.height, threshold, y, x);
  }

  // ---------------------------------------------------------------------
  // generateStitches

  /** The colour of every stitch the legacy converter emits. */
  const Black: string := "#000000"

  /** The stitch pushed for edge pixel (x, y). */
  function StitchAt(x: int, y: int): StitchPoint {
    StitchPoint(x as real, y as real, Normal, Black)
  }

  /**
   * The step of both sampling loops, `Math.round(1 / density)`. A density
   * of 0 makes it Math.round(Infinity) = Infinity, which carries both loops
   * past the image after their first pass; a step of w + h + 1 does the same.
   */
  function Spacing(density: real, w: nat, h: nat): int {
    if density == 0.0 then w + h + 1 else Round(1.0 / density)
  }

  /**
   * The sampling loops move forward exactly for a density from 0 to 2;
   * above 2 the spacing rounds to 0 and below 0 it is negative, and on an
   * image with rows `y += spacing` then never reaches the height.
   */
  lemma SpacingAdvances(density: real, w: nat, h: nat)
    ensures Spacing(density, w, h) >= 1 <==> 0.0 <= density <= 2.0
  {
    if density != 0.0 {
      var q := 1.0 / density;
      assert q * density == 1.0;
      assert q >= 0.5 <==> 0.0 < density <= 2.0;
    }
  }

  /** `edges[y * width + x]` for a pixel inside the image. */
  function EdgeValue(edges: seq<byte>, w: nat, h: nat, y: int, x: int): byte
    requires |edges| == w * h && 0 <= y < h && 0 <= x < w
  {
    PixelIndexBound(w, h, y, x);
    edges[PixelIndex(w, y, x)]
  }

  /** The stitches the x loop pushes on row y from column x on: one per edge pixel, `step` columns apart. */
  function RowSamples(edges: seq<byte>, w: nat, h: nat, y: int, x: int, step: int): seq<StitchPoint>
    requires |edges| == w * h && 0 <= y < h && 0 <= x && step >= 1
    decreases w - x
  {
    if x >= w then []
    else
      (if EdgeValue(edges, w, h, y, x) > 0 then [StitchAt(x, y)] else []) + RowSamples(edges, w, h, y, x + step, step)
  }

  /** The stitches both loops push from row y on, rows `step` apart, in row-major order. */
  function GridSamples(edges: seq<byte>, w: nat, h: nat, y: int, step: int): seq<StitchPoint>
    requires |edges| == w * h && 0 <= y && (step >= 1 || h == 0)
    decreases h - y
  {
    if y >= h then [] else RowSamples(edges, w, h, y, 0, step) + GridSamples(edges, w, h, y + step, step)
  }

  /** Column or row x0 + i·step, the i-th one a sampling loop started at x0 visits. */
  function Visit(x0: int, i: nat, step: int): int {
    x0 + step * i
  }

  /** The visit after the first, counted from the second. */
  lemma VisitNext(x0: int, i: nat, step: int)
    requires i >= 1
    ensures Visit(x0, i, step) == Visit(x0 + step, i - 1, step)
  {
    MulDistrib(step, i - 1, 1);
  }

  /** Every visit is at or after the start. */
  lemma VisitAfter(x0: int, i: nat, step: int)
    requires step >= 1
    ensures Visit(x0, i, step) >= x0 + i
  {
    MulLe(i, 1, step);
  }

  /** Every edge pixel the x loop reaches on row y is sampled. */
  lemma {:induction false} RowSampleFound(edges: seq<byte>, w: nat, h: nat, y: int, x0: int, step: int, i: nat)
    requires |edges| == w * h && 0 <= y < h && 0 <= x0 && step >= 1 && Visit(x0, i, step) < w
    requires EdgeValue(edges, w, h, y, Visit(x0, i, step)) > 0
    ensures StitchAt(Visit(x0, i, step), y) in RowSamples(edges, w, h, y, x0, step)
    decreases i
  {
    var head := if EdgeValue(edges, w, h, y, x0) > 0 then [StitchAt(x0, y)] else [];
    var rest := RowSamples(edges, w, h, y, x0 + step, step);
    assert RowSamples(edges, w, h, y, x0, step) == head + rest;
    if i > 0 {
      VisitNext(x0, i, step);
      VisitAfter(x0 + step, i - 1, step);
      RowSampleFound(edges, w, h, y, x0 + step, step, i - 1);
    } else {
      assert Visit(x0, i, step) == x0;
    }
  }

  /** Every stitch of row y's samples is a black normal stitch on an edge pixel the x loop reaches. */
  lemma {:induction false} RowSampleSound(edges: seq<byte>, w: nat, h: nat, y: int, x0: int, step: int, s: StitchPoint)
    returns (i: nat)
    requires |edges| == w * h && 0 <= y < h && 0 <= x0 && step >= 1
    requires s in RowSamples(edges, w, h, y, x0, step)
    ensures 0 <= Visit(x0, i, step) < w && s == StitchAt(Visit(x0, i, step), y)
    ensures EdgeValue(edges, w, h, y, Visit(x0, i, step)) > 0
    decreases w - x0
  {
    var rest := RowSamples(edges, w, h, y, x0 + step, step);
    if s !in rest {
      i := 0;
    } else {
      var j := RowSampleSound(edges, w, h, y, x0 + step, step, s);
      i := j + 1;
      VisitNext(x0, i, step);
    }
  }

  /** Every edge pixel both loops reach from row y0 on is sampled. */
  lemma {:induction false} GridSampleFound(edges: seq<byte>, w: nat, h: nat, y0: int, step: int, j: nat, i: nat)
    requires |edges| == w * h && 0 <= y0 && step >= 1 && Visit(y0, j, step) < h && Visit(0, i, step) < w
    requires EdgeValue(edges, w, h, Visit(y0, j, step), Visit(0, i, step)) > 0
    ensures StitchAt(Visit(0, i, step), Visit(y0, j, step)) in GridSamples(edges, w, h, y0, step)
    decreases j
  {
    VisitAfter(0, i, step);
    if j == 0 {
      RowSampleFound(edges, w, h, y0, 0, step, i);
    } else {
      VisitNext(y0, j, step);
      VisitAfter(y0 + step, j - 1, step);
      GridSampleFound(edges, w, h, y0 + step, step, j - 1, i);
    }
  }

  /** Every stitch sampled from row y0 on is a black normal stitch on an edge pixel both loops reach. */
  lemma {:induction false} GridSampleSound(edges: seq<byte>, w: nat, h: nat, y0: int, step: int, s: StitchPoint)
    returns (j: nat, i: nat)
    requires |edges| == w * h && 0 <= y0 && step >= 1
    requires s in GridSamples(edges, w, h, y0, step)
    ensures 0 <= Visit(0, i, step) < w && y0 <= Visit(y0, j, step) < h
    ensures s == StitchAt(Visit(0, i, step), Visit(y0, j, step))
    ensures EdgeValue(edges, w, h, Visit(y0, j, step), Visit(0, i, step)) > 0
    decreases h - y0
  {
    VisitAfter(y0, 0, step);
    if s in RowSamples(edges, w, h, y0, 0, step) {
      i := RowSampleSound(edges, w, h, y0, 0, step, s);
      j := 0;
    } else {
      var k;
      k, i := GridSampleSound(edges, w, h, y0 + step, step, s);
      j := k + 1;
      VisitNext(y0, j, step);
    }
  }

  /** A coordinate is visited by a loop from 0 exactly when it is a non-negative multiple of the step. */
  lemma VisitMultiple(a: int, step: int, i: nat)
    requires step >= 1 && a == Visit(0, i, step)
    ensures a >= 0 && a % step == 0 && a / step == i
  {
    DivModUnique(a, step, i, 0);
  }

  /**
   * The sampled stitches are exactly the black normal stitches at the edge
   * pixels whose row and column are multiples of the step.
   */
  lemma SamplesMeaning(edges: seq<byte>, w: nat, h: nat, step: int, s: StitchPoint)
    requires |edges| == w * h && step >= 1
    ensures s in GridSamples(edges, w, h, 0, step) <==>
      var x, y := s.x.Floor, s.y.Floor;
      s == StitchAt(x, y) && 0 <= x < w && 0 <= y < h && x % step == 0 && y % step == 0 &&
      EdgeValue(edges, w, h, y, x) > 0
  {
    if s in GridSamples(edges, w, h, 0, step) {
      var j, i := GridSampleSound(edges, w, h, 0, step, s);
      VisitMultiple(Visit(0, i, step), step, i);
      VisitMultiple(Visit(0, j, step), step, j);
    } else {
      var x, y := s.x.Floor, s.y.Floor;
      if s == StitchAt(x, y) && 0 <= x < w && 0 <= y < h && x % step == 0 && y % step == 0 {
        if EdgeValue(edges, w, h, y, x) > 0 {
          DivModUnique(x, step, x / step, 0);
          DivModUnique(y, step, y / step, 0);
          assert x == Visit(0, x / step, step) && y == Visit(0, y / step, step);
          GridSampleFound(edges, w, h, 0, step, y / step, x / step);
        }
      }
    }
  }

  /** The sampling loops of generateStitches. */
  method SampleEdges(edges: array<byte>, w: nat, h: nat, spacing: int) returns (stitches: seq<StitchPoint>)
    requires edges.Length == w * h && (spacing >= 1 || h == 0)
    ensures stitches == GridSamples(edges[..], w, h, 0, spacing)
  {
    stitches := [];
    var y := 0;
    while y < h
      invariant 0 <= y
      invariant stitches + GridSamples(edges[..], w, h, y, spacing) == GridSamples(edges[..], w, h, 0, spacing)
      decreases h - y
    {
      ghost var before := stitches;
      stitches := SampleRow(edges, w, h, y, spacing, stitches);
      assert GridSamples(edges[..], w, h, y, spacing) ==
        RowSamples(edges[..], w, h, y, 0, spacing) + GridSamples(edges[..], w, h, y + spacing, spacing);
      assert before + GridSamples(edges[..], w, h, y, spacing) == stitches + GridSamples(edges[..], w, h, y + spacing, spacing);
      y := y + spacing;
    }
  }

  /** The x loop of generateStitches on row y, pushing onto `stitches`. */
  method SampleRow(edges: array<byte>, w: nat, h: nat, y: int, spacing: int, stitches: seq<StitchPoint>)
    returns (pushed: seq<StitchPoint>)
    requires edges.Length == w * h && 0 <= y < h && spacing >= 1
    ensures pushed == stitches + RowSamples(edges[..], w, h, y, 0, spacing)
  {
    pushed := stitches;
    var x := 0;
    while x < w
      invariant 0 <= x
      invariant pushed + RowSamples(edges[..], w, h, y, x, spacing) == stitches + RowSamples(edges[..], w, h, y, 0, spacing)
      decreases w - x
    {
      var idx := y * w + x;
      ghost var head := if EdgeValue(edges[..], w, h, y, x) > 0 then [StitchAt(x, y)] else [];
      assert RowSamples(edges[..], w, h, y, x, spacing) == head + RowSamples(edges[..], w, h, y, x + spacing, spacing);
      PixelIndexBound(w, h, y, x);
      assert edges[idx] == EdgeValue(edges[..], w, h, y, x);
      ghost var prev := pushed;
      if edges[idx] > 0 {
        pushed := pushed + [StitchAt(x, y)];
      }
      assert pushed == prev + head;
      assert prev + (head + RowSamples(edges[..], w, h, y, x + spacing, spacing)) ==
        pushed + RowSamples(edges[..], w, h, y, x + spacing, spacing);
      x := x + spacing;
    }
  }

  /** generateStitches' stitches before ordering. */
  function Sampled(edges: seq<byte>, w: nat, h: nat, density: real): seq<StitchPoint>
    requires |edges| == w * h && (h == 0 || Spacing(density, w, h) >= 1)
  {
    GridSamples(edges, w, h, 0, Spacing(density, w, h))
  }

  /**
   * generateStitches: the sampled edge pixels, reordered by
   * optimizeStitchOrder. The source's loops only end when the spacing is at
   * least 1 or the image has no rows.
   */
  method GenerateStitches(math: MathLib, edges: array<byte>, w: nat, h: nat, density: real) returns (stitches: seq<StitchPoint>)
    requires edges.Length == w * h && (h == 0 || Spacing(density, w, h) >= 1)
    ensures stitches == OptimizeOrder(math, Sampled(edges[..], w, h, density))
  {
    var spacing := if density == 0.0 then w + h + 1 else Round(1.0 / density);
    var samples := SampleEdges(edges, w, h, spacing);
    stitches := OptimizeStitchOrder(math, samples);
  }

  /**
   * Every stitch generateStitches returns is a black normal stitch on an
   * edge pixel of the sampling grid, and every such pixel gives exactly one
   * stitch.
   */
  lemma GeneratedStitches(math: MathLib, edges: seq<byte>, w: nat, h: nat, density: real, s: StitchPoint)
    requires |edges| == w * h && 0.0 <= density <= 2.0
    ensures Spacing(density, w, h) >= 1
    ensures s in OptimizeOrder(math, Sampled(edges, w, h, density)) <==>
      var x, y, step := s.x.Floor, s.y.Floor, Spacing(density, w, h);
      s == StitchAt(x, y) && 0 <= x < w && 0 <= y < h && x % step == 0 && y % step == 0 &&
      EdgeValue(edges, w, h, y, x) > 0
  {
    SpacingAdvances(density, w, h);
    var samples := Sampled(edges, w, h, density);
    assert s in OptimizeOrder(math, samples) <==> s in multiset(OptimizeOrder(math, samples));
    SamplesMeaning(edges, w, h, Spacing(density, w, h), s);
  }

  // ---------------------------------------------------------------------
  // distance and optimizeStitchOrder

  /** distance: the Euclidean distance between two stitches; with a true square root, a non-negative root of the squared distance. */
  function Distance(math: MathLib, a: StitchPoint, b: StitchPoint): (d: real)
    ensures IsSqrt(math.sqrt) ==> d >= 0.0 && d * d == StitchDistSq(a, b)
  {
    math.sqrt(StitchDistSq(a, b))
  }

  /** With sqrt the square root, distances compare as their squares do, and a stitch is at distance 0 from itself. */
  lemma DistanceOrder(math: MathLib, a: StitchPoint, b: StitchPoint, c: StitchPoint)
    requires IsSqrt(math.sqrt)
    ensures Distance(math, a, b) < Distance(math, a, c) <==> StitchDistSq(a, b) < StitchDistSq(a, c)
    ensures Distance(math, a, b) >= 0.0 && Distance(math, a, a) == 0.0
  {
    var sb, sc := Distance(math, a, b), Distance(math, a, c);
    assert sb >= 0.0 && sb * sb == StitchDistSq(a, b);
    assert sc >= 0.0 && sc * sc == StitchDistSq(a, c);
    SquareCompare(sb, StitchDistSq(a, b), sc);
    var z := Distance(math, a, a);
    assert StitchDistSq(a, a) == 0.0;
    assert z >= 0.0 && z * z == 0.0;
    SquareCompare(z, 0.0, 0.0);
  }

  /** The distance does not depend on which stitch is first. */
  lemma DistanceSymmetric(math: MathLib, a: StitchPoint, b: StitchPoint)
    ensures Distance(math, a, b) == Distance(math, b, a)
  {
    assert StitchDistSq(a, b) == StitchDistSq(b, a) by {
      assert (b.x - a.x) * (b.x - a.x) == (a.x - b.x) * (a.x - b.x);
      assert (b.y - a.y) * (b.y - a.y) == (a.y - b.y) * (a.y - b.y);
    }
  }

  /**
   * The index the inner loop holds as `nearest` after looking at the first
   * m remaining stitches: a nearest one, the earliest on ties since only a
   * strictly smaller distance replaces it.
   */
  function NearestIn(math: MathLib, current: StitchPoint, remaining: seq<StitchPoint>, m: nat): (k: nat)
    requires 0 < m <= |remaining|
    ensures k < m
    ensures forall j :: 0 <= j < m ==> Distance(math, current, remaining[k]) <= Distance(math, current, remaining[j])
    ensures forall j :: 0 <= j < k ==> Distance(math, current, remaining[k]) < Distance(math, current, remaining[j])
  {
    if m == 1 then 0
    else
      var k := NearestIn(math, current, remaining, m - 1);
      if Distance(math, current, remaining[m - 1]) < Distance(math, current, remaining[k]) then m - 1 else k
  }

  /** The stitch the inner loop picks from all the remaining ones. */
  function Nearest(math: MathLib, current: StitchPoint, remaining: seq<StitchPoint>): nat
    requires |remaining| > 0
  {
    NearestIn(math, current, remaining, |remaining|)
  }

  /**
   * The outer loop: take the nearest remaining stitch, delete it and go on
   * from it. The remaining Set keeps insertion order, which deleting one
   * stitch does not disturb; the stitches are distinct objects, so the Set
   * holds every one of them.
   */
  function Greedy(math: MathLib, current: StitchPoint, remaining: seq<StitchPoint>): (r: seq<StitchPoint>)
    ensures |r| == |remaining|
    decreases |remaining|
  {
    if |remaining| == 0 then []
    else
      var k := Nearest(math, current, remaining);
      [remaining[k]] + Greedy(math, remaining[k], remaining[..k] + remaining[k + 1..])
  }

  /**
   * optimizeStitchOrder: fewer than two stitches come back unchanged;
   * otherwise the order starts at the first stitch and visits every stitch
   * exactly once.
   */
  function OptimizeOrder(math: MathLib, stitches: seq<StitchPoint>): (r: seq<StitchPoint>)
    ensures |stitches| < 2 ==> r == stitches
    ensures |r| == |stitches| && multiset(r) == multiset(stitches) && (|stitches| > 0 ==> r[0] == stitches[0])
  {
    if |stitches| < 2 then stitches
    else
      GreedyPermutation(math, stitches[0], stitches[1..]);
      assert stitches == [stitches[0]] + stitches[1..];
      [stitches[0]] + Greedy(math, stitches[0], stitches[1..])
  }

  /** The inner loop of optimizeStitchOrder; `minDist` starts at Infinity, written None. */
  method FindNearest(math: MathLib, current: StitchPoint, remaining: seq<StitchPoint>) returns (nearest: Option<nat>)
    ensures |remaining| == 0 ==> nearest == None
    ensures |remaining| > 0 ==> nearest == Some(Nearest(math, current, remaining))
  {
    nearest := None;
    var minDist: Option<real> := None;
    for i := 0 to |remaining|
      invariant i == 0 ==> nearest == None && minDist == None
      invariant i > 0 ==> nearest == Some(NearestIn(math, current, remaining, i))
      invariant i > 0 ==> minDist == Some(Distance(math, current, remaining[nearest.value]))
    {
      var dist := Distance(math, current, remaining[i]);
      if minDist.None? || dist < minDist.value {
        minDist := Some(dist);
        nearest := Some(i);
      }
    }
  }

  /**
   * optimizeStitchOrder, with its loops. Every distance is a real number
   * below Infinity, so `nearest` is set whenever a stitch remains and the
   * `break` is never taken.
   */
  method OptimizeStitchOrder(math: MathLib, stitches: seq<StitchPoint>) returns (optimized: seq<StitchPoint>)
    ensures optimized == OptimizeOrder(math, stitches)
  {
    if |stitches| < 2 {
      return stitches;
    }
    ghost var goal := [stitches[0]] + Greedy(math, stitches[0], stitches[1..]);
    optimized := [stitches[0]];
    var remaining := stitches[1..];
    var current := stitches[0];
    while |remaining| > 0
      invariant optimized + Greedy(math, current, remaining) == goal
      decreases |remaining|
    {
      var nearest := FindNearest(math, current, remaining);
      var k := nearest.value;
      GreedyStep(math, current, remaining);
      optimized := optimized + [remaining[k]];
      current := remaining[k];
      remaining := remaining[..k] + remaining[k + 1..];
    }
  }

  /** One step of Greedy: the nearest stitch, then Greedy from it over the others. */
  lemma GreedyStep(math: MathLib, current: StitchPoint, remaining: seq<StitchPoint>)
    requires |remaining| > 0
    ensures var k := Nearest(math, current, remaining);
      Greedy(math, current, remaining) == [remaining[k]] + Greedy(math, remaining[k], remaining[..k] + remaining[k + 1..])
  {
  }

  /** Taking out the stitch at k leaves the others. */
  lemma RemoveAt(s: seq<StitchPoint>, k: nat)
    requires k < |s|
    ensures multiset(s) == multiset{s[k]} + multiset(s[..k] + s[k + 1..])
  {
    assert s == s[..k] + [s[k]] + s[k + 1..];
  }

  /** Greedy outputs every remaining stitch exactly once. */
  lemma {:induction false} GreedyPermutation(math: MathLib, current: StitchPoint, remaining: seq<StitchPoint>)
    ensures multiset(Greedy(math, current, remaining)) == multiset(remaining)
    decreases |remaining|
  {
    if |remaining| > 0 {
      var k := Nearest(math, current, remaining);
      GreedyPermutation(math, remaining[k], remaining[..k] + remaining[k + 1..]);
      RemoveAt(remaining, k);
    }
  }

  /** The stitch the i-th output of Greedy was chosen from: `current`, then the previous output. */
  function Previous(current: StitchPoint, r: seq<StitchPoint>, i: nat): StitchPoint
    requires i <= |r|
  {
    if i == 0 then current else r[i - 1]
  }

  /** Greedy's first output is nearest to `current` among all its outputs. */
  lemma GreedyFirstNearest(math: MathLib, current: StitchPoint, remaining: seq<StitchPoint>, j: nat)
    requires j < |remaining|
    ensures var r := Greedy(math, current, remaining);
      Distance(math, current, r[0]) <= Distance(math, current, r[j])
  {
    var r := Greedy(math, current, remaining);
    GreedyPermutation(math, current, remaining);
    assert r[j] in multiset(remaining);
    var t :| 0 <= t < |remaining| && remaining[t] == r[j];
    assert r[0] == remaining[Nearest(math, current, remaining)];
  }

  /**
   * Each stitch Greedy outputs is a nearest one, from the stitch before it,
   * among all the stitches output from there on.
   */
  lemma {:induction false} GreedyNearest(math: MathLib, current: StitchPoint, remaining: seq<StitchPoint>, i: nat, j: nat)
    requires i <= j < |remaining|
    ensures var r := Greedy(math, current, remaining);
      Distance(math, Previous(current, r, i), r[i]) <= Distance(math, Previous(current, r, i), r[j])
    decreases |remaining|
  {
    if i == 0 {
      GreedyFirstNearest(math, current, remaining, j);
    } else {
      var r := Greedy(math, current, remaining);
      var k := Nearest(math, current, remaining);
      var rest := remaining[..k] + remaining[k + 1..];
      var tail := Greedy(math, remaining[k], rest);
      assert r == [remaining[k]] + tail;
      GreedyNearest(math, remaining[k], rest, i - 1, j - 1);
      assert Previous(current, r, i) == Previous(remaining[k], tail, i - 1);
    }
  }

  /**
   * From the second stitch on, each stitch of the ordering is a nearest one
   * to the stitch before it among all the stitches not yet visited.
   */
  lemma OrderNearest(math: MathLib, stitches: seq<StitchPoint>, i: nat, j: nat)
    requires 1 <= i <= j < |stitches|
    ensures var r := OptimizeOrder(math, stitches);
      |r| == |stitches| && Distance(math, r[i - 1], r[i]) <= Distance(math, r[i - 1], r[j])
  {
    var r := OptimizeOrder(math, stitches);
    var g := Greedy(math, stitches[0], stitches[1..]);
    assert r == [stitches[0]] + g;
    GreedyNearest(math, stitches[0], stitches[1..], i - 1, j - 1);
    assert r[i - 1] == Previous(stitches[0], g, i - 1);
  }

  // ---------------------------------------------------------------------
  // exportPattern

  /** The name used when the pattern has no name or an empty one. */
  const DefaultName: string := "Converted Pattern"

  /** `'LA:' + (pattern.name || 'Converted Pattern')`. */
  function LabelText(name: Option<string>): string {
    "LA:" + (if name.None? || name.value == "" then DefaultName else name.value)
  }

  /**
   * The 512-byte header for the encoded label `bytes`: setInt8 keeps its
   * length modulo 256 at offset 0, and the label is copied in from offset 1.
   * A label of more than 511 bytes makes `Uint8Array.set` throw a RangeError.
   */
  function Header(bytes: seq<byte>): (r: Result<seq<byte>, Error>)
    ensures r.Success? <==> |bytes| <= 511
    ensures r.Success? ==> |r.value| == 512 && r.value[0] == Low8(|bytes|) && r.value[1..|bytes| + 1] == bytes
    ensures r.Success? ==> forall i :: |bytes| + 1 <= i < 512 ==> r.value[i] == 0
  {
    if |bytes| + 1 > 512 then Failure(PlainError("offset is out of bounds"))
    else
      PutContents(Zeros(512)[0 := Low8(|bytes|)], 1, bytes);
      Success(Put(Zeros(512)[0 := Low8(|bytes|)], 1, bytes))
  }

  /** The three bytes written for a stitch after the first: its rounded moves masked to seven bits, then 0x03. */
  function Move(prev: StitchPoint, cur: StitchPoint): (r: seq<byte>)
    ensures |r| == 3
  {
    [Low7(Round(cur.x - prev.x)), Low7(Round(cur.y - prev.y)), 3]
  }

  /** The bytes the forEach has written once it has visited stitches 0 .. i - 1. */
  function Moves(s: seq<StitchPoint>, i: nat): (r: seq<byte>)
    requires i <= |s|
    ensures |r| == if i == 0 then 0 else 3 * (i - 1)
  {
    if i <= 1 then [] else Moves(s, i - 1) + Move(s[i - 2], s[i - 1])
  }

  /** The stitch buffer of 3n bytes: the moves, then the three bytes no stitch writes. */
  function StitchBytes(s: seq<StitchPoint>): (r: seq<byte>)
    ensures |r| == 3 * |s|
  {
    if |s| == 0 then [] else Moves(s, |s|) + Zeros(3)
  }

  /** What exportPattern resolves to, whatever the format argument. */
  function Exported(name: Option<string>, stitches: seq<StitchPoint>): Result<seq<byte>, Error> {
    var header := Header(Utf8(LabelText(name)));
    if header.Failure? then Failure(header.error) else Success(header.value + StitchBytes(stitches))
  }

  /** The buffer after one more stitch's bytes, written at `offset`. */
  lemma MoveStep(s: seq<StitchPoint>, i: nat, buf: seq<byte>)
    requires 1 <= i < |s| && buf == Moves(s, i) + Zeros(3 * |s| - 3 * (i - 1))
    ensures var m := Move(s[i - 1], s[i]); var o := 3 * (i - 1);
      buf[o := m[0]][o + 1 := m[1]][o + 2 := m[2]] == Moves(s, i + 1) + Zeros(3 * |s| - 3 * i)
  {
    var m := Move(s[i - 1], s[i]);
    var o := 3 * (i - 1);
    var after := buf[o := m[0]][o + 1 := m[1]][o + 2 := m[2]];
    var want := Moves(s, i + 1) + Zeros(3 * |s| - 3 * i);
    assert Moves(s, i + 1) == Moves(s, i) + m;
    assert |after| == |want|;
    forall k | 0 <= k < |want|
      ensures after[k] == want[k]
    {
      if k < o {
        assert want[k] == Moves(s, i)[k];
      } else if k >= o + 3 {
        assert want[k] == 0;
      }
    }
  }

  /** exportPattern: the header, then the stitch buffer filled by the forEach; `format` is not read. */
  method ExportPattern(name: Option<string>, stitches: seq<StitchPoint>, format: string) returns (r: Result<seq<byte>, Error>)
    ensures r == Exported(name, stitches)
  {
    var header := new byte[512](_ => 0);
    var bytes := Utf8(LabelText(name));
    header[0] := Low8(|bytes|);
    if |bytes| + 1 > 512 {
      return Failure(PlainError("offset is out of bounds"));
    }
    assert header[..] == Zeros(512)[0 := Low8(|bytes|)];
    Store(header, 1, bytes);
    assert header[..] == Header(bytes).value;
    var buf := new byte[|stitches| * 3](_ => 0);
    var offset := 0;
    assert buf[..] == Moves(stitches, 0) + Zeros(3 * |stitches|);
    for i := 0 to |stitches|
      invariant offset == if i == 0 then 0 else 3 * (i - 1)
      invariant buf[..] == Moves(stitches, i) + Zeros(3 * |stitches| - offset)
      invariant header[..] == Header(bytes).value
    {
      if i > 0 {
        MoveStep(stitches, i, buf[..]);
        WriteMove(buf, offset, stitches[i - 1], stitches[i]);
        offset := offset + 3;
      } else {
        assert Moves(stitches, 1) == Moves(stitches, 0);
      }
    }
    assert buf[..] == StitchBytes(stitches);
    r := Success(header[..] + buf[..]);
  }

  /** The body of the forEach for a stitch after the first: three setInt8 calls from `offset` on. */
  method WriteMove(buf: array<byte>, offset: nat, prev: StitchPoint, stitch: StitchPoint)
    requires offset + 3 <= buf.Length
    modifies buf
    ensures var m := Move(prev, stitch);
      buf[..] == old(buf[..])[offset := m[0]][offset + 1 := m[1]][offset + 2 := m[2]]
  {
    var dx := Round(stitch.x - prev.x);
    var dy := Round(stitch.y - prev.y);
    buf[offset] := Low7(dx);
    buf[offset + 1] := Low7(dy);
    buf[offset + 2] := 3;
  }

  /** The bytes of the moves of stitch j, from the stitch before it. */
  lemma {:induction false} MovesAt(s: seq<StitchPoint>, i: nat, j: nat)
    requires 1 <= j < i <= |s|
    ensures Moves(s, i)[3 * (j - 1)..3 * j] == Move(s[j - 1], s[j])
    decreases i
  {
    var m := Moves(s, i - 1);
    assert Moves(s, i) == m + Move(s[i - 2], s[i - 1]);
    if j < i - 1 {
      MovesAt(s, i - 1, j);
      assert Moves(s, i)[3 * (j - 1)..3 * j] == m[3 * (j - 1)..3 * j];
    } else {
      assert |m| == 3 * (j - 1);
    }
  }

  /**
   * The exported bytes: a failure exactly when the encoded label exceeds 511
   * bytes; otherwise 512 + 3n bytes, the label's length at 0 and the label
   * from 1, zeros to the end of the header, then for each stitch i ≥ 1 its
   * moves from stitch i - 1, and three zero bytes at the end.
   */
  lemma ExportLayout(name: Option<string>, s: seq<StitchPoint>)
    ensures var bytes := Utf8(LabelText(name)); var r := Exported(name, s);
      (r.Success? <==> |bytes| <= 511) &&
      (r.Success? ==>
        |r.value| == 512 + 3 * |s| && r.value[0] == Low8(|bytes|) && r.value[1..|bytes| + 1] == bytes &&
        (forall i :: |bytes| + 1 <= i < 512 ==> r.value[i] == 0) &&
        (|s| > 0 ==> r.value[512 + 3 * |s| - 3..] == [0, 0, 0]))
  {
    var bytes := Utf8(LabelText(name));
    var r := Exported(name, s);
    if r.Success? {
      var header := Header(bytes).value;
      assert r.value == header + StitchBytes(s);
      assert r.value[..512] == header;
      if |s| > 0 {
        assert r.value[512 + 3 * |s| - 3..] == Zeros(3);
      }
    }
  }

  /** The three bytes at 512 + 3(j - 1) are stitch j's moves from stitch j - 1. */
  lemma ExportedMove(name: Option<string>, s: seq<StitchPoint>, j: nat)
    requires Exported(name, s).Success? && 1 <= j < |s|
    ensures var r := Exported(name, s).value;
      |r| == 512 + 3 * |s| &&
      r[512 + 3 * (j - 1)..512 + 3 * j] == [Low7(Round(s[j].x - s[j - 1].x)), Low7(Round(s[j].y - s[j - 1].y)), 3]
  {
    var r := Exported(name, s).value;
    var header := Header(Utf8(LabelText(name))).value;
    assert r == header + (Moves(s, |s|) + Zeros(3));
    MovesAt(s, |s|, j);
    assert r[512 + 3 * (j - 1)..512 + 3 * j] == Moves(s, |s|)[3 * (j - 1)..3 * j];
  }

  /**
   * `d & 0x7F` keeps a move from 0 to 127 and maps a move from -128 to -1
   * to d + 128, so a move of -1 is written like one of 127.
   */
  lemma SevenBitMove(d: int)
    ensures 0 <= d < 128 ==> Low7(d) == d
    ensures -128 <= d < 0 ==> Low7(d) == d + 128
    ensures Low7(-1) == Low7(127)
  {
  }

  /** An unnamed pattern gets the 20-byte bytes `LA:Converted Pattern`. */
  lemma DefaultLabel(name: Option<string>)
    requires name.None? || name.value == ""
    ensures IsAscii(LabelText(name)) && |Utf8(LabelText(name))| == 20
  {
    assert LabelText(name) == "LA:Converted Pattern";
    Utf8Ascii(LabelText(name));
  }
}
