/**
 * The boolean bitmaps of src/lib/embroidery/bitmap-processor.ts: a threshold
 * on the luminance of every pixel, a two-pass labelling of the foreground
 * with a union-find over the provisional labels, the removal of the
 * components smaller than a size, and a one-step dilation and erosion of the
 * interior over the eight neighbours of a pixel.
 *
 * A `boolean[][]` is an `array2<bool>` indexed [y, x], and the labels'
 * `number[][]` an `array2<int>`; the rows of the source's arrays are never
 * shared or resized, so they are rectangular. Reading `bitmap[0].length` of
 * an empty bitmap throws a TypeError, which the methods return.
 */
module BinaryBitmap {
  import opened Wrappers
  import opened Types
  import opened Raster

  /** What reading `bitmap[0].length` throws when the bitmap has no rows. */
  const NoRowError := PlainError("TypeError")

  // ---------------------------------------------------------------------
  // createBitmap

  /** Pixel (x, y) is foreground when its rounded luminance exceeds the threshold. */
  predicate Foreground(img: ImageData, threshold: real, y: int, x: int) {
    Gray(Sample(img, y, x, 0), Sample(img, y, x, 1), Sample(img, y, x, 2)) as real > threshold
  }

  /** createBitmap: a fresh height × width grid of the foreground test. */
  method CreateBitmap(img: ImageData, threshold: real) returns (bitmap: array2<bool>)
    requires WellFormed(img)
    ensures fresh(bitmap)
    ensures bitmap.Length0 == img.height && bitmap.Length1 == img.width
    ensures forall y, x :: 0 <= y < img.height && 0 <= x < img.width ==>
      bitmap[y, x] == Foreground(img, threshold, y, x)
  {
    bitmap := new bool[img.height, img.width]((_, _) => false);
    var y := 0;
    while y < img.height
      invariant 0 <= y <= img.height
      invariant forall j, i :: 0 <= j < y && 0 <= i < img.width ==> bitmap[j, i] == Foreground(img, threshold, j, i)
    {
      var x := 0;
      while x < img.width
        invariant 0 <= x <= img.width
        invariant forall j, i :: 0 <= j < y && 0 <= i < img.width ==> bitmap[j, i] == Foreground(img, threshold, j, i)
        invariant forall i :: 0 <= i < x ==> bitmap[y, i] == Foreground(img, threshold, y, i)
      {
        var i := PixelIndex(img.width, y, x) * 4;
        SampleInside(img, y, x, 0);
        SampleInside(img, y, x, 1);
        SampleInside(img, y, x, 2);
        bitmap[y, x] := Gray(img.data[i], img.data[i + 1], img.data[i + 2]) as real > threshold;
        x := x + 1;
      }
      y := y + 1;
    }
  }

  /** A higher threshold keeps fewer pixels: a pixel above it is above every lower one. */
  lemma ForegroundMonotone(img: ImageData, lower: real, higher: real, y: int, x: int)
    requires lower <= higher
    ensures Foreground(img, higher, y, x) ==> Foreground(img, lower, y, x)
  {
  }

  /** A threshold of 255 or more leaves no foreground, and a negative one makes every pixel foreground. */
  lemma ForegroundExtremes(img: ImageData, threshold: real, y: int, x: int)
    ensures threshold >= 255.0 ==> !Foreground(img, threshold, y, x)
    ensures threshold < 0.0 ==> Foreground(img, threshold, y, x)
  {
    var g := Gray(Sample(img, y, x, 0), Sample(img, y, x, 1), Sample(img, y, x, 2));
    assert 0 <= g <= 255;
  }

  // ---------------------------------------------------------------------
  // UnionFind

  /** What `find(x)` returns given the roots of the forest: x's root, or x itself when it has no entry. */
  function RootIn(root: map<int, int>, x: int): int {
    if x in root then root[x] else x
  }

  /** Two forests give the same answer to every `find`. */
  ghost predicate SameFinds(r0: map<int, int>, r1: map<int, int>) {
    forall x {:trigger RootIn(r1, x)} :: RootIn(r0, x) == RootIn(r1, x)
  }

  /** Every two values in one class of r0 are in one class of r1. */
  ghost predicate Coarsens(r0: map<int, int>, r1: map<int, int>) {
    forall a, b :: RootIn(r0, a) == RootIn(r0, b) ==> RootIn(r1, a) == RootIn(r1, b)
  }

  /** r1 is r0 with the class of a moved under the root of b, and nothing else changed. */
  ghost predicate Merged(r0: map<int, int>, r1: map<int, int>, a: int, b: int) {
    forall x :: RootIn(r1, x) == if RootIn(r0, x) == RootIn(r0, a) then RootIn(r0, b) else RootIn(r0, x)
  }

  /** Only positive labels have entries. */
  ghost predicate Positive(root: map<int, int>) {
    forall k :: k in root ==> k > 0
  }

  /** After a union, its two arguments share a root, and the classes only grew. */
  lemma MergedJoins(r0: map<int, int>, r1: map<int, int>, a: int, b: int)
    requires Merged(r0, r1, a, b)
    ensures RootIn(r1, a) == RootIn(r1, b)
    ensures Coarsens(r0, r1)
  {
    assert RootIn(r1, a) == RootIn(r0, b);
    if RootIn(r0, b) == RootIn(r0, a) {
      assert RootIn(r1, b) == RootIn(r0, b);
    } else {
      assert RootIn(r1, b) == RootIn(r0, b);
    }
    forall x, y | RootIn(r0, x) == RootIn(r0, y)
      ensures RootIn(r1, x) == RootIn(r1, y)
    {
      assert RootIn(r1, x) == if RootIn(r0, x) == RootIn(r0, a) then RootIn(r0, b) else RootIn(r0, x);
      assert RootIn(r1, y) == if RootIn(r0, y) == RootIn(r0, a) then RootIn(r0, b) else RootIn(r0, y);
    }
  }

  lemma SameFindsTrans(r0: map<int, int>, r1: map<int, int>, r2: map<int, int>)
    requires SameFinds(r0, r1) && SameFinds(r1, r2)
    ensures SameFinds(r0, r2)
  {
    forall z
      ensures RootIn(r0, z) == RootIn(r2, z)
    {
      assert RootIn(r0, z) == RootIn(r1, z);
    }
  }

  lemma CoarsensTrans(r0: map<int, int>, r1: map<int, int>, r2: map<int, int>)
    requires Coarsens(r0, r1) && Coarsens(r1, r2)
    ensures Coarsens(r0, r2)
  {
    forall a, b | RootIn(r0, a) == RootIn(r0, b)
      ensures RootIn(r2, a) == RootIn(r2, b)
    {
      assert RootIn(r1, a) == RootIn(r1, b);
    }
  }

  /**
   * The shape of the union-find's map: every parent chain of `parent` ends
   * in `root`, and `depth`, the length of the chain, shrinks along every
   * parent step, so the chains have no cycle.
   */
  ghost predicate Forest(parent: map<int, int>, root: map<int, int>, depth: map<int, nat>) {
    parent.Keys == root.Keys && parent.Keys == depth.Keys &&
    forall k :: k in parent ==> Linked(parent, root, depth, k)
  }

  /** The facts about one entry k of the forest. */
  ghost predicate Linked(parent: map<int, int>, root: map<int, int>, depth: map<int, nat>, k: int)
    requires k in parent && parent.Keys == root.Keys && parent.Keys == depth.Keys
  {
    parent[k] in parent && root[k] in parent &&
    parent[root[k]] == root[k] && root[parent[k]] == root[k] &&
    (parent[k] == k ==> root[k] == k && depth[k] == 0) &&
    (parent[k] != k ==> depth[parent[k]] < depth[k])
  }

  /** A new value of its own is a root. */
  lemma ForestAdd(parent: map<int, int>, root: map<int, int>, depth: map<int, nat>, x: int)
    requires Forest(parent, root, depth) && x !in parent
    ensures Forest(parent[x := x], root[x := x], depth[x := 0])
  {
  }

  /** Path compression: pointing a non-root straight at its root keeps the forest and its roots. */
  lemma ForestCompress(parent: map<int, int>, root: map<int, int>, depth: map<int, nat>, y: int)
    requires Forest(parent, root, depth) && y in parent && root[y] != y
    ensures Forest(parent[y := root[y]], root, depth)
  {
    var p := parent[y := root[y]];
    assert Linked(parent, root, depth, y);
    assert Linked(parent, root, depth, root[y]);
    forall k | k in p
      ensures Linked(p, root, depth, k)
    {
      assert Linked(parent, root, depth, k);
    }
  }

  /** The roots once root a is pointed at root b: the class of a moves under b. */
  ghost function Relinked(root: map<int, int>, a: int, b: int): (r1: map<int, int>)
    ensures r1.Keys == root.Keys
  {
    map k | k in root :: if root[k] == a then b else root[k]
  }

  /** The chain lengths once root a is pointed at another root: one longer in the class of a. */
  ghost function Deepened(root: map<int, int>, depth: map<int, nat>, a: int): (d1: map<int, nat>)
    requires depth.Keys == root.Keys
    ensures d1.Keys == depth.Keys
  {
    map k | k in depth :: if root[k] == a then depth[k] + 1 else depth[k]
  }

  /** Linking: pointing one root at another root moves the first class into the second. */
  lemma ForestLink(parent: map<int, int>, root: map<int, int>, depth: map<int, nat>, a: int, b: int)
    requires Forest(parent, root, depth) && a in parent && b in parent
    requires root[a] == a && root[b] == b && a != b
    ensures Forest(parent[a := b], Relinked(root, a, b), Deepened(root, depth, a))
  {
    var r1 := Relinked(root, a, b);
    var d1 := Deepened(root, depth, a);
    var p := parent[a := b];
    assert Linked(parent, root, depth, a) && Linked(parent, root, depth, b);
    forall k | k in p
      ensures Linked(p, r1, d1, k)
    {
      assert Linked(parent, root, depth, k);
      if k != a {
        assert Linked(parent, root, depth, parent[k]);
      }
    }
  }

  /** Linking the distinct roots of x and y merges the class of x into that of y. */
  lemma LinkMerges(r0: map<int, int>, root: map<int, int>, a: int, b: int, x: int, y: int)
    requires SameFinds(r0, root)
    requires a in root && b in root && root[a] == a && root[b] == b
    requires RootIn(root, x) == a && RootIn(root, y) == b
    ensures Merged(r0, Relinked(root, a, b), x, y)
  {
    var r1 := Relinked(root, a, b);
    forall z
      ensures RootIn(r1, z) == if RootIn(r0, z) == RootIn(r0, x) then RootIn(r0, y) else RootIn(r0, z)
    {
      assert RootIn(r0, z) == RootIn(root, z);
    }
  }

  /** A union of two values already in one class changes no `find`. */
  lemma SameClassMerged(r0: map<int, int>, root: map<int, int>, x: int, y: int)
    requires SameFinds(r0, root) && RootIn(root, x) == RootIn(root, y)
    ensures Merged(r0, root, x, y)
  {
    forall z
      ensures RootIn(root, z) == if RootIn(r0, z) == RootIn(r0, x) then RootIn(r0, y) else RootIn(r0, z)
    {
      assert RootIn(r0, z) == RootIn(root, z);
    }
  }

  /**
   * The union-find over labels. `parent` is the source's map; the ghost
   * `root` names the root every parent chain ends in and `depth` the length
   * of the chain.
   */
  class UnionFind {
    var parent: map<int, int>
    ghost var root: map<int, int>
    ghost var depth: map<int, nat>

    ghost predicate Valid()
      reads this
    {
      Forest(parent, root, depth)
    }

    constructor ()
      ensures Valid() && parent == map[] && root == map[]
    {
      parent := map[];
      root := map[];
      depth := map[];
    }

    /**
     * find: a value without an entry becomes its own root; otherwise the
     * parent chain is followed to its root and every value on it is
     * pointed straight at that root. No `find` answer changes.
     */
    method Find(x: int) returns (r: int)
      requires Valid()
      modifies this
      ensures Valid()
      ensures r == RootIn(old(root), x)
      ensures SameFinds(old(root), root)
      ensures root.Keys == old(root.Keys) + {x}
      ensures r in root && root[r] == r
    {
      if x !in parent {
        ForestAdd(parent, root, depth, x);
        parent := parent[x := x];
        root := root[x := x];
        depth := depth[x := 0];
        return x;
      }
      r := x;
      while parent[r] != r
        invariant r in parent && root[r] == root[x]
        decreases depth[r]
      {
        r := parent[r];
      }
      var p, y := parent, x;
      while y != r
        invariant Forest(p, root, depth) && y in p && root[y] == r && p.Keys == parent.Keys
        invariant unchanged(this)
        decreases depth[y]
      {
        var next := p[y];
        ForestCompress(p, root, depth, y);
        p := p[y := r];
        y := next;
      }
      parent := p;
    }

    /** union: the root of x's class is pointed at the root of y's class when they differ. */
    method Union(x: int, y: int)
      requires Valid()
      modifies this
      ensures Valid()
      ensures Merged(old(root), root, x, y)
      ensures root.Keys == old(root.Keys) + {x, y}
    {
      ghost var r0 := root;
      var rootX := Find(x);
      ghost var r1 := root;
      var rootY := Find(y);
      assert RootIn(root, rootX) == RootIn(r1, rootX) && RootIn(root, x) == RootIn(r1, x);
      SameFindsTrans(r0, r1, root);
      if rootX == rootY {
        SameClassMerged(r0, root, x, y);
      } else {
        ForestLink(parent, root, depth, rootX, rootY);
        LinkMerges(r0, root, rootX, rootY, x, y);
        parent := parent[rootX := rootY];
        root, depth := Relinked(root, rootX, rootY), Deepened(root, depth, rootX);
      }
    }
  }

  // ---------------------------------------------------------------------
  // getNeighborLabels

  /**
   * The offsets (dx, dy) getNeighborLabels reads, in its order: upper-left,
   * left, lower-left and upper. The upper-right neighbour is not among them.
   */
  const NeighborOffsets: seq<(int, int)> := [(-1, -1), (-1, 0), (-1, 1), (0, -1)]

  /** The label at (x, y), or 0 off the grid. */
  function LabelAt(labels: array2<int>, x: int, y: int): int
    reads labels
  {
    if 0 <= y < labels.Length0 && 0 <= x < labels.Length1 then labels[y, x] else 0
  }

  /** The positive labels at the first k offsets around (x, y), in offset order. */
  function NeighborsOf(labels: array2<int>, x: int, y: int, k: nat): seq<int>
    reads labels
    requires k <= |NeighborOffsets|
  {
    if k == 0 then []
    else
      var l := LabelAt(labels, x + NeighborOffsets[k - 1].0, y + NeighborOffsets[k - 1].1);
      NeighborsOf(labels, x, y, k - 1) + (if l > 0 then [l] else [])
  }

  /** getNeighborLabels. */
  method GetNeighborLabels(labels: array2<int>, x: int, y: int) returns (neighbors: seq<int>)
    ensures neighbors == NeighborsOf(labels, x, y, 4)
  {
    neighbors := [];
    var k := 0;
    while k < 4
      invariant 0 <= k <= 4 && neighbors == NeighborsOf(labels, x, y, k)
    {
      var (dx, dy) := NeighborOffsets[k];
      var nx, ny := x + dx, y + dy;
      if nx >= 0 && ny >= 0 && ny < labels.Length0 && nx < labels.Length1 {
        var l := labels[ny, nx];
        if l > 0 {
          neighbors := neighbors + [l];
        }
      }
      k := k + 1;
    }
  }

  /** A label is collected exactly when it is positive and sits at one of the four offsets. */
  lemma NeighborsMeaning(labels: array2<int>, x: int, y: int)
    ensures |NeighborsOf(labels, x, y, 4)| <= 4
    ensures forall n :: n in NeighborsOf(labels, x, y, 4) <==>
      n > 0 && (n == LabelAt(labels, x - 1, y - 1) || n == LabelAt(labels, x - 1, y) ||
                n == LabelAt(labels, x - 1, y + 1) || n == LabelAt(labels, x, y - 1))
  {
    NeighborsUnrolled(labels, x, y);
  }

  /** The four offsets unrolled. */
  lemma NeighborsUnrolled(labels: array2<int>, x: int, y: int)
    ensures var a, b, c, d := LabelAt(labels, x - 1, y - 1), LabelAt(labels, x - 1, y), LabelAt(labels, x - 1, y + 1), LabelAt(labels, x, y - 1);
      NeighborsOf(labels, x, y, 4) ==
        (if a > 0 then [a] else []) + (if b > 0 then [b] else []) + (if c > 0 then [c] else []) + (if d > 0 then [d] else [])
  {
    var a, b, c, d := LabelAt(labels, x - 1, y - 1), LabelAt(labels, x - 1, y), LabelAt(labels, x - 1, y + 1), LabelAt(labels, x, y - 1);
    assert NeighborsOf(labels, x, y, 1) == (if a > 0 then [a] else []);
    assert NeighborsOf(labels, x, y, 2) == NeighborsOf(labels, x, y, 1) + (if b > 0 then [b] else []);
    assert NeighborsOf(labels, x, y, 3) == NeighborsOf(labels, x, y, 2) + (if c > 0 then [c] else []);
    assert NeighborsOf(labels, x, y, 4) == NeighborsOf(labels, x, y, 3) + (if d > 0 then [d] else []);
  }

  /** Whether offset (dx, dy) reaches one of the eight neighbours a row-major scan visits before the pixel. */
  predicate EarlierNeighbour(dx: int, dy: int) {
    -1 <= dx <= 1 && -1 <= dy <= 1 && (dy < 0 || (dy == 0 && dx < 0))
  }

  /**
   * As written, the offsets leave out the upper-right neighbour, which the
   * scan has already labelled, and read the lower-left one, which it has
   * not, so that read always finds 0.
   */
  lemma NeighborOffsetsAsWritten()
    ensures EarlierNeighbour(1, -1) && (1, -1) !in NeighborOffsets
    ensures !EarlierNeighbour(-1, 1) && (-1, 1) in NeighborOffsets
  {
  }

  /**
   * The 2 × 2 bitmap with only its anti-diagonal set: when the scan reaches
   * (0, 1), its upper-right neighbour (1, 0) already carries label 1, yet no
   * neighbour label is collected, so (0, 1) starts a second label although
   * the two pixels touch.
   */
  lemma UpRightMissed(labels: array2<int>)
    requires labels.Length0 == 2 && labels.Length1 == 2
    requires labels[0, 0] == 0 && labels[0, 1] == 1
    ensures Adjacent((1, 0), (0, 1)) && LabelAt(labels, 1, 0) == 1
    ensures NeighborsOf(labels, 0, 1, 4) == []
  {
    NeighborsUnrolled(labels, 0, 1);
  }

  /** The offsets a row-major labelling has to read: every neighbour visited before the pixel. */
  const CausalOffsets: seq<(int, int)> := [(-1, -1), (0, -1), (1, -1), (-1, 0)]

  /** The corrected offsets are exactly the earlier neighbours. */
  lemma CausalOffsetsComplete(dx: int, dy: int)
    ensures (dx, dy) in CausalOffsets <==> EarlierNeighbour(dx, dy)
  {
  }

  /** getNeighborLabels with the corrected offsets, in their order. */
  function CausalNeighbors(labels: array2<int>, x: int, y: int): seq<int>
    reads labels
  {
    var a, b, c, d := LabelAt(labels, x - 1, y - 1), LabelAt(labels, x, y - 1), LabelAt(labels, x + 1, y - 1), LabelAt(labels, x - 1, y);
    (if a > 0 then [a] else []) + (if b > 0 then [b] else []) + (if c > 0 then [c] else []) + (if d > 0 then [d] else [])
  }

  /**
   * With the corrected offsets the collected labels are exactly the labels
   * of the neighbours visited before the pixel: every label of an earlier
   * neighbour is collected, and every collected label is one.
   */
  lemma CausalNeighborsComplete(labels: array2<int>, x: int, y: int, dx: int, dy: int)
    ensures EarlierNeighbour(dx, dy) && LabelAt(labels, x + dx, y + dy) > 0 ==>
      LabelAt(labels, x + dx, y + dy) in CausalNeighbors(labels, x, y)
    ensures forall n :: n in CausalNeighbors(labels, x, y) ==>
      n > 0 && (n == LabelAt(labels, x - 1, y - 1) || n == LabelAt(labels, x, y - 1) ||
                n == LabelAt(labels, x + 1, y - 1) || n == LabelAt(labels, x - 1, y))
  {
    if EarlierNeighbour(dx, dy) {
      CausalOffsetsComplete(dx, dy);
    }
  }

  /** On the anti-diagonal 2 × 2 bitmap the corrected offsets find the upper-right label. */
  lemma UpRightFound(labels: array2<int>)
    requires labels.Length0 == 2 && labels.Length1 == 2
    requires labels[0, 0] == 0 && labels[0, 1] == 1
    ensures CausalNeighbors(labels, 0, 1) == [1]
  {
  }

  // ---------------------------------------------------------------------
  // findConnectedComponents

  predicate SameShape(bitmap: array2<bool>, labels: array2<int>) {
    bitmap.Length0 == labels.Length0 && bitmap.Length1 == labels.Length1
  }

  /** Whether (i, j) comes before (x, y) in row-major order. */
  predicate Before(j: int, i: int, y: int, x: int) {
    j < y || (j == y && i < x)
  }

  /** `Math.min(...s)`. */
  function MinOf(s: seq<int>): (m: int)
    requires |s| > 0
    ensures m in s && forall k :: 0 <= k < |s| ==> m <= s[k]
  {
    if |s| == 1 then s[0] else if s[0] <= MinOf(s[1..]) then s[0] else MinOf(s[1..])
  }

  /** The label at (x, y) of a grid of labels, or 0 off it. */
  function GridAt(L: seq<seq<int>>, x: int, y: int): int {
    if 0 <= y < |L| && 0 <= x < |L[y]| then L[y][x] else 0
  }

  /** The array holds the grid of labels L. */
  ghost predicate Mirrors(labels: array2<int>, L: seq<seq<int>>)
    reads labels
  {
    |L| == labels.Length0 && (forall j :: 0 <= j < |L| ==> |L[j]| == labels.Length1) &&
    forall j, i :: 0 <= j < labels.Length0 && 0 <= i < labels.Length1 ==> labels[j, i] == L[j][i]
  }

  lemma MirrorsAt(labels: array2<int>, L: seq<seq<int>>, x: int, y: int)
    requires Mirrors(labels, L)
    ensures LabelAt(labels, x, y) == GridAt(L, x, y)
  {
  }

  /** The bitmap's cells and the grid of labels have the same shape. */
  predicate Shape(g: seq<seq<bool>>, L: seq<seq<int>>) {
    |g| == |L| && forall j :: 0 <= j < |g| ==> |g[j]| == |L[j]|
  }

  /** The left, upper-left and upper neighbours of (x, y) that carry a label share their root with it. */
  ghost predicate JoinedBack(L: seq<seq<int>>, root: map<int, int>, x: int, y: int) {
    var l := RootIn(root, GridAt(L, x, y));
    (GridAt(L, x - 1, y) > 0 ==> RootIn(root, GridAt(L, x - 1, y)) == l) &&
    (GridAt(L, x - 1, y - 1) > 0 ==> RootIn(root, GridAt(L, x - 1, y - 1)) == l) &&
    (GridAt(L, x, y - 1) > 0 ==> RootIn(root, GridAt(L, x, y - 1)) == l)
  }

  /** The first pass has labelled every pixel before (x, y), below `next`, and no pixel after. */
  ghost predicate MarkedBefore(g: seq<seq<bool>>, L: seq<seq<int>>, next: int, y: int, x: int)
    requires Shape(g, L)
  {
    forall j, i :: 0 <= j < |L| && 0 <= i < |L[j]| ==>
      if Before(j, i, y, x) then 0 <= L[j][i] < next && (L[j][i] > 0 <==> g[j][i])
      else L[j][i] == 0
  }

  /** Every labelled pixel before (x, y) shares its root with its labelled earlier neighbours. */
  ghost predicate JoinedBefore(L: seq<seq<int>>, root: map<int, int>, y: int, x: int) {
    forall j, i :: 0 <= j < |L| && 0 <= i < |L[j]| && Before(j, i, y, x) && L[j][i] > 0 ==>
      JoinedBack(L, root, i, j)
  }

  /**
   * Setting the label of (x, y) to v moves the first pass one pixel on: the
   * labels before (x, y) are kept and still joined once the classes have
   * grown from r0 to r1.
   */
  lemma LabelStep(g: seq<seq<bool>>, L: seq<seq<int>>, r0: map<int, int>, r1: map<int, int>,
                  next0: int, next: int, y: nat, x: nat, v: int)
    requires Shape(g, L) && y < |L| && x < |L[y]|
    requires MarkedBefore(g, L, next0, y, x) && JoinedBefore(L, r0, y, x)
    requires next0 <= next && 0 <= v < next && (v > 0 <==> g[y][x])
    requires Coarsens(r0, r1)
    requires v > 0 ==> JoinedBack(L[y := L[y][x := v]], r1, x, y)
    ensures Shape(g, L[y := L[y][x := v]])
    ensures MarkedBefore(g, L[y := L[y][x := v]], next, y, x + 1)
    ensures JoinedBefore(L[y := L[y][x := v]], r1, y, x + 1)
  {
    var L' := L[y := L[y][x := v]];
    forall j, i | 0 <= j < |L'| && 0 <= i < |L'[j]| && Before(j, i, y, x + 1) && L'[j][i] > 0
      ensures JoinedBack(L', r1, i, j)
    {
      if j != y || i != x {
        assert JoinedBack(L, r0, i, j);
        assert GridAt(L', i, j) == GridAt(L, i, j);
        assert GridAt(L', i - 1, j) == GridAt(L, i - 1, j);
        assert GridAt(L', i - 1, j - 1) == GridAt(L, i - 1, j - 1);
        assert GridAt(L', i, j - 1) == GridAt(L, i, j - 1);
      }
    }
  }

  /**
   * What getNeighborLabels sees in the middle of the first pass: the
   * lower-left neighbour is not labelled yet, every label collected is an
   * earlier one, and every labelled left, upper-left or upper neighbour is
   * collected.
   */
  lemma EarlierNeighbours(g: seq<seq<bool>>, labels: array2<int>, L: seq<seq<int>>, next: int, y: nat, x: nat)
    requires Mirrors(labels, L) && Shape(g, L) && y < |L| && x < |L[y]| && 1 <= next
    requires MarkedBefore(g, L, next, y, x)
    ensures GridAt(L, x - 1, y + 1) == 0
    ensures forall n :: n in NeighborsOf(labels, x, y, 4) ==> 0 < n < next
    ensures GridAt(L, x - 1, y) > 0 ==> GridAt(L, x - 1, y) in NeighborsOf(labels, x, y, 4)
    ensures GridAt(L, x - 1, y - 1) > 0 ==> GridAt(L, x - 1, y - 1) in NeighborsOf(labels, x, y, 4)
    ensures GridAt(L, x, y - 1) > 0 ==> GridAt(L, x, y - 1) in NeighborsOf(labels, x, y, 4)
  {
    NeighborsMeaning(labels, x, y);
    MirrorsAt(labels, L, x - 1, y - 1);
    MirrorsAt(labels, L, x - 1, y);
    MirrorsAt(labels, L, x - 1, y + 1);
    MirrorsAt(labels, L, x, y - 1);
    if y + 1 < |L| && x >= 1 {
      assert !Before(y + 1, x - 1, y, x);
    }
    if x >= 1 {
      assert Before(y, x - 1, y, x);
      if y >= 1 {
        assert Before(y - 1, x - 1, y, x);
      }
    }
    if y >= 1 {
      assert Before(y - 1, x, y, x);
    }
  }

  /** One `union(m, n)` more: the values already joined to m stay joined, and n joins them. */
  lemma JoinStep(r0: map<int, int>, r1: map<int, int>, r2: map<int, int>, m: int, done: seq<int>, n: int)
    requires Coarsens(r0, r1) && Merged(r1, r2, m, n)
    requires forall d :: d in done ==> RootIn(r1, d) == RootIn(r1, m)
    ensures Coarsens(r0, r2)
    ensures forall d :: d in done + [n] ==> RootIn(r2, d) == RootIn(r2, m)
  {
    MergedJoins(r1, r2, m, n);
    CoarsensTrans(r0, r1, r2);
    forall d | d in done + [n]
      ensures RootIn(r2, d) == RootIn(r2, m)
    {
      if d != n {
        assert d in done;
      }
    }
  }

  /** The loop `for (const n of neighbors) equivalences.union(m, n)`. */
  method UnionAll(uf: UnionFind, m: int, neighbors: seq<int>)
    requires uf.Valid() && Positive(uf.root) && m > 0 && forall n :: n in neighbors ==> n > 0
    modifies uf
    ensures uf.Valid() && Positive(uf.root)
    ensures forall n :: n in neighbors ==> RootIn(uf.root, n) == RootIn(uf.root, m)
    ensures Coarsens(old(uf.root), uf.root)
  {
    ghost var r0 := uf.root;
    var k := 0;
    while k < |neighbors|
      invariant 0 <= k <= |neighbors| && uf.Valid() && Positive(uf.root)
      invariant forall n :: n in neighbors[..k] ==> RootIn(uf.root, n) == RootIn(uf.root, m)
      invariant Coarsens(r0, uf.root)
    {
      ghost var r1 := uf.root;
      assert neighbors[k] in neighbors;
      uf.Union(m, neighbors[k]);
      JoinStep(r0, r1, uf.root, m, neighbors[..k], neighbors[k]);
      assert neighbors[..k + 1] == neighbors[..k] + [neighbors[k]];
      k := k + 1;
    }
    assert neighbors[..k] == neighbors;
  }

  lemma CoarsensRefl(r: map<int, int>)
    ensures Coarsens(r, r)
  {
  }

  /**
   * Labelling (x, y) with v, when every labelled left, upper-left and upper
   * neighbour is among ns and every value of ns shares its root with v,
   * joins (x, y) to those neighbours.
   */
  lemma WriteJoins(L: seq<seq<int>>, root: map<int, int>, x: int, y: int, v: int, ns: seq<int>)
    requires 0 <= y < |L| && 0 <= x < |L[y]|
    requires forall n :: n in ns ==> RootIn(root, n) == RootIn(root, v)
    requires GridAt(L, x - 1, y) > 0 ==> GridAt(L, x - 1, y) in ns
    requires GridAt(L, x - 1, y - 1) > 0 ==> GridAt(L, x - 1, y - 1) in ns
    requires GridAt(L, x, y - 1) > 0 ==> GridAt(L, x, y - 1) in ns
    ensures JoinedBack(L[y := L[y][x := v]], root, x, y)
  {
    var L' := L[y := L[y][x := v]];
    assert GridAt(L', x, y) == v;
    assert GridAt(L', x - 1, y) == GridAt(L, x - 1, y);
    assert GridAt(L', x - 1, y - 1) == GridAt(L, x - 1, y - 1);
    assert GridAt(L', x, y - 1) == GridAt(L, x, y - 1);
  }

  /**
   * One pixel of the first pass: a foreground pixel with no labelled
   * neighbour gets the next new label, any other the smallest neighbour
   * label, united with every neighbour label. The ghost grid L follows the
   * labels array.
   */
  method LabelPixel(bitmap: array2<bool>, labels: array2<int>, uf: UnionFind, y: nat, x: nat, nextLabel: int,
                    ghost g: seq<seq<bool>>, ghost L: seq<seq<int>>)
    returns (next: int, ghost L': seq<seq<int>>)
    requires SameShape(bitmap, labels) && y < labels.Length0 && x < labels.Length1
    requires Holds(bitmap, g) && Mirrors(labels, L) && Shape(g, L)
    requires uf.Valid() && Positive(uf.root) && 1 <= nextLabel
    requires MarkedBefore(g, L, nextLabel, y, x) && JoinedBefore(L, uf.root, y, x)
    modifies labels, uf
    ensures Mirrors(labels, L') && Shape(g, L')
    ensures uf.Valid() && Positive(uf.root) && nextLabel <= next
    ensures MarkedBefore(g, L', next, y, x + 1) && JoinedBefore(L', uf.root, y, x + 1)
    ensures bitmap[y, x] && old(NeighborsOf(labels, x, y, 4)) == [] ==> labels[y, x] == nextLabel
  {
    next := nextLabel;
    ghost var r0 := uf.root;
    if !bitmap[y, x] {
      assert !Before(y, x, y, x);
      LabelStep(g, L, r0, r0, nextLabel, next, y, x, 0);
      L' := L[y := L[y][x := 0]];
      return;
    }
    var neighbors := GetNeighborLabels(labels, x, y);
    EarlierNeighbours(g, labels, L, nextLabel, y, x);
    var v: int;
    if |neighbors| == 0 {
      v := nextLabel;
      labels[y, x] := v;
      next := nextLabel + 1;
      CoarsensRefl(r0);
    } else {
      v := MinOf(neighbors);
      labels[y, x] := v;
      UnionAll(uf, v, neighbors);
    }
    L' := L[y := L[y][x := v]];
    WriteJoins(L, uf.root, x, y, v, neighbors);
    LabelStep(g, L, r0, uf.root, nextLabel, next, y, x, v);
  }

  /** One row of the first pass. */
  method LabelRow(bitmap: array2<bool>, labels: array2<int>, uf: UnionFind, y: nat, nextLabel: int,
                  ghost g: seq<seq<bool>>, ghost L: seq<seq<int>>)
    returns (next: int, ghost L': seq<seq<int>>)
    requires SameShape(bitmap, labels) && y < labels.Length0
    requires Holds(bitmap, g) && Mirrors(labels, L) && Shape(g, L)
    requires uf.Valid() && Positive(uf.root) && 1 <= nextLabel
    requires MarkedBefore(g, L, nextLabel, y, 0) && JoinedBefore(L, uf.root, y, 0)
    modifies labels, uf
    ensures Mirrors(labels, L') && Shape(g, L')
    ensures uf.Valid() && Positive(uf.root) && 1 <= next
    ensures MarkedBefore(g, L', next, y + 1, 0) && JoinedBefore(L', uf.root, y + 1, 0)
  {
    next, L' := nextLabel, L;
    var x := 0;
    while x < labels.Length1
      invariant 0 <= x <= labels.Length1
      invariant Mirrors(labels, L') && Shape(g, L')
      invariant uf.Valid() && Positive(uf.root) && 1 <= next
      invariant MarkedBefore(g, L', next, y, x) && JoinedBefore(L', uf.root, y, x)
    {
      next, L' := LabelPixel(bitmap, labels, uf, y, x, next, g, L');
      x := x + 1;
    }
  }

  /** What the second pass turns a first-pass label into. */
  function Resolved(root: map<int, int>, l: int): int {
    if l > 0 then RootIn(root, l) else l
  }

  /** The rows before y of the array hold the resolved labels of L, the others L itself. */
  ghost predicate ResolvedBefore(labels: array2<int>, L: seq<seq<int>>, r0: map<int, int>, y: int)
    reads labels
  {
    |L| == labels.Length0 && (forall j :: 0 <= j < |L| ==> |L[j]| == labels.Length1) &&
    forall j, i :: 0 <= j < labels.Length0 && 0 <= i < labels.Length1 ==>
      labels[j, i] == if Before(j, i, y, 0) then Resolved(r0, L[j][i]) else L[j][i]
  }

  /** `equivalences.find(l)` in the second pass, which answers as the forest r0 would. */
  method FindOf(uf: UnionFind, l: int, ghost r0: map<int, int>) returns (r: int)
    requires uf.Valid() && Positive(uf.root) && SameFinds(r0, uf.root) && l > 0
    modifies uf
    ensures uf.Valid() && Positive(uf.root) && SameFinds(r0, uf.root)
    ensures r == Resolved(r0, l)
  {
    ghost var r1 := uf.root;
    r := uf.Find(l);
    SameFindsTrans(r0, r1, uf.root);
    assert RootIn(r0, l) == RootIn(r1, l);
  }

  /** One row of the second pass: every positive label replaced by its `find`. */
  method ResolveRow(labels: array2<int>, uf: UnionFind, y: nat, ghost r0: map<int, int>, ghost L: seq<seq<int>>)
    requires y < labels.Length0
    requires uf.Valid() && Positive(uf.root) && SameFinds(r0, uf.root)
    requires ResolvedBefore(labels, L, r0, y) && forall j, i :: 0 <= j < |L| && 0 <= i < |L[j]| ==> L[j][i] >= 0
    modifies labels, uf
    ensures uf.Valid() && Positive(uf.root) && SameFinds(r0, uf.root)
    ensures ResolvedBefore(labels, L, r0, y + 1)
  {
    var x := 0;
    while x < labels.Length1
      invariant 0 <= x <= labels.Length1
      invariant uf.Valid() && Positive(uf.root) && SameFinds(r0, uf.root)
      invariant |L| == labels.Length0 && (forall j :: 0 <= j < |L| ==> |L[j]| == labels.Length1)
      invariant forall j, i :: 0 <= j < labels.Length0 && 0 <= i < labels.Length1 ==>
        labels[j, i] == if Before(j, i, y, x) then Resolved(r0, L[j][i]) else L[j][i]
    {
      assert labels[y, x] == L[y][x] by {
        assert !Before(y, x, y, x);
      }
      if labels[y, x] > 0 {
        var r := FindOf(uf, labels[y, x], r0);
        labels[y, x] := r;
      }
      x := x + 1;
    }
  }

  /** The cells of a bitmap, row by row. */
  ghost function Cells(bitmap: array2<bool>): (g: seq<seq<bool>>)
    reads bitmap
    ensures |g| == bitmap.Length0 && forall j :: 0 <= j < |g| ==> |g[j]| == bitmap.Length1
  {
    seq(bitmap.Length0, j requires 0 <= j < bitmap.Length0 reads bitmap =>
      seq(bitmap.Length1, i requires 0 <= i < bitmap.Length1 reads bitmap => bitmap[j, i]))
  }

  /**
   * What findConnectedComponents promises of its labels for the bitmap g:
   * 0 exactly on the background, a positive label on the foreground, and a
   * foreground pixel whose left, upper-left or upper neighbour is foreground
   * carries that neighbour's label.
   */
  ghost predicate Labelling(g: seq<seq<bool>>, labels: array2<int>)
    reads labels
  {
    |g| == labels.Length0 && (forall j :: 0 <= j < |g| ==> |g[j]| == labels.Length1) &&
    forall j, i :: 0 <= j < labels.Length0 && 0 <= i < labels.Length1 ==>
      labels[j, i] >= 0 && (labels[j, i] > 0 <==> g[j][i]) &&
      (g[j][i] ==> SameLabelBack(labels, i, j))
  }

  /** The left, upper-left and upper neighbours of (x, y) that carry a label carry its label. */
  ghost predicate SameLabelBack(labels: array2<int>, x: int, y: int)
    reads labels
  {
    var l := LabelAt(labels, x, y);
    (LabelAt(labels, x - 1, y) > 0 ==> LabelAt(labels, x - 1, y) == l) &&
    (LabelAt(labels, x - 1, y - 1) > 0 ==> LabelAt(labels, x - 1, y - 1) == l) &&
    (LabelAt(labels, x, y - 1) > 0 ==> LabelAt(labels, x, y - 1) == l)
  }

  /** The first pass's facts about the provisional labels L carry over to their resolved labels. */
  lemma ResolvedLabelling(g: seq<seq<bool>>, labels: array2<int>, L: seq<seq<int>>, r0: map<int, int>, next: int)
    requires Shape(g, L) && MarkedBefore(g, L, next, |L|, 0) && JoinedBefore(L, r0, |L|, 0)
    requires forall l :: l > 0 ==> RootIn(r0, l) > 0
    requires ResolvedBefore(labels, L, r0, |L|)
    ensures Labelling(g, labels)
  {
    forall x, y
      ensures LabelAt(labels, x, y) == Resolved(r0, GridAt(L, x, y))
    {
      if 0 <= y < |L| && 0 <= x < |L[y]| {
        assert Before(y, x, |L|, 0);
      }
    }
    forall j, i | 0 <= j < labels.Length0 && 0 <= i < labels.Length1
      ensures labels[j, i] >= 0 && (labels[j, i] > 0 <==> g[j][i])
      ensures g[j][i] ==> SameLabelBack(labels, i, j)
    {
      assert Before(j, i, |L|, 0);
      if g[j][i] {
        assert JoinedBack(L, r0, i, j);
        if i >= 1 {
          assert Before(j, i - 1, |L|, 0);
        }
        if j >= 1 {
          assert Before(j - 1, i, |L|, 0);
          if i >= 1 {
            assert Before(j - 1, i - 1, |L|, 0);
          }
        }
      }
    }
  }

  /** In a forest over positive values every positive value has a positive root. */
  lemma RootsPositive(parent: map<int, int>, root: map<int, int>, depth: map<int, nat>)
    requires Forest(parent, root, depth) && Positive(root)
    ensures forall l :: l > 0 ==> RootIn(root, l) > 0
  {
    forall l | l > 0 && l in root
      ensures root[l] > 0
    {
      assert Linked(parent, root, depth, l);
    }
  }

  /** After the first pass no provisional label is negative. */
  lemma LabelsNonNegative(g: seq<seq<bool>>, L: seq<seq<int>>, next: int)
    requires Shape(g, L) && MarkedBefore(g, L, next, |L|, 0)
    ensures forall j, i :: 0 <= j < |L| && 0 <= i < |L[j]| ==> L[j][i] >= 0
  {
    forall j, i | 0 <= j < |L| && 0 <= i < |L[j]|
      ensures L[j][i] >= 0
    {
      assert Before(j, i, |L|, 0);
    }
  }

  /** The second pass, which turns the first pass's labels L into a labelling of the bitmap g. */
  method Resolve(labels: array2<int>, uf: UnionFind, ghost g: seq<seq<bool>>, ghost L: seq<seq<int>>, ghost next: int)
    requires Mirrors(labels, L) && Shape(g, L)
    requires uf.Valid() && Positive(uf.root)
    requires MarkedBefore(g, L, next, |L|, 0) && JoinedBefore(L, uf.root, |L|, 0)
    modifies labels, uf
    ensures uf.Valid() && Positive(uf.root) && SameFinds(old(uf.root), uf.root)
    ensures Labelling(g, labels)
  {
    ghost var r0 := uf.root;
    RootsPositive(uf.parent, r0, uf.depth);
    LabelsNonNegative(g, L, next);
    var y := 0;
    while y < labels.Length0
      invariant 0 <= y <= labels.Length0
      invariant uf.Valid() && Positive(uf.root) && SameFinds(r0, uf.root)
      invariant ResolvedBefore(labels, L, r0, y)
    {
      ResolveRow(labels, uf, y, r0, L);
      y := y + 1;
    }
    ResolvedLabelling(g, labels, L, r0, next);
  }

  /** findConnectedComponents: the first pass, then the second. */
  method FindConnectedComponents(bitmap: array2<bool>) returns (r: Result<array2<int>, Error>)
    ensures r.Failure? <==> bitmap.Length0 == 0
    ensures r.Failure? ==> r.error == NoRowError
    ensures r.Success? ==> fresh(r.value) && r.value.Length0 == bitmap.Length0 && r.value.Length1 == bitmap.Length1
    ensures r.Success? ==> Labelling(Cells(bitmap), r.value)
  {
    if bitmap.Length0 == 0 {
      return Failure(NoRowError);
    }
    ghost var g := Cells(bitmap);
    var labels := new int[bitmap.Length0, bitmap.Length1]((_, _) => 0);
    ghost var L := seq(labels.Length0, _ => seq(labels.Length1, _ => 0));
    var nextLabel := 1;
    var equivalences := new UnionFind();
    var y := 0;
    while y < labels.Length0
      invariant 0 <= y <= labels.Length0
      invariant Mirrors(labels, L) && Shape(g, L)
      invariant equivalences.Valid() && Positive(equivalences.root) && 1 <= nextLabel
      invariant MarkedBefore(g, L, nextLabel, y, 0) && JoinedBefore(L, equivalences.root, y, 0)
    {
      nextLabel, L := LabelRow(bitmap, labels, equivalences, y, nextLabel, g, L);
      y := y + 1;
    }
    Resolve(labels, equivalences, g, L, nextLabel);
    return Success(labels);
  }

  // ---------------------------------------------------------------------
  // removeSmallComponents

  /** `map.get(l) || 0`. */
  function Get(sizes: map<int, int>, l: int): int {
    if l in sizes then sizes[l] else 0
  }

  /** The number of the first x pixels of row y that carry label l. */
  function RowCount(labels: array2<int>, l: int, y: int, x: nat): nat
    reads labels
    requires 0 <= y < labels.Length0 && x <= labels.Length1
  {
    if x == 0 then 0 else RowCount(labels, l, y, x - 1) + (if labels[y, x - 1] == l then 1 else 0)
  }

  /** The number of pixels of the first y rows that carry label l. */
  function GridCount(labels: array2<int>, l: int, y: nat): nat
    reads labels
    requires y <= labels.Length0
  {
    if y == 0 then 0 else GridCount(labels, l, y - 1) + RowCount(labels, l, y - 1, labels.Length1)
  }

  /** The number of pixels that carry label l. */
  function ComponentSize(labels: array2<int>, l: int): nat
    reads labels
  {
    GridCount(labels, l, labels.Length0)
  }

  lemma {:induction false} RowCountHas(labels: array2<int>, y: int, x: nat, i: nat)
    requires 0 <= y < labels.Length0 && i < x <= labels.Length1
    ensures RowCount(labels, labels[y, i], y, x) >= 1
  {
    if x - 1 != i {
      RowCountHas(labels, y, x - 1, i);
    }
  }

  lemma {:induction false} GridCountHas(labels: array2<int>, y: nat, j: nat, i: nat)
    requires j < y <= labels.Length0 && i < labels.Length1
    ensures GridCount(labels, labels[j, i], y) >= 1
  {
    if y - 1 == j {
      RowCountHas(labels, j, labels.Length1, i);
    } else {
      GridCountHas(labels, y - 1, j, i);
    }
  }

  /** Every pixel belongs to its own component, so no component of a labelled pixel is empty. */
  lemma OwnComponent(labels: array2<int>, j: nat, i: nat)
    requires j < labels.Length0 && i < labels.Length1
    ensures ComponentSize(labels, labels[j, i]) >= 1
  {
    GridCountHas(labels, labels.Length0, j, i);
  }

  /** The counting loop over one row. */
  method CountRow(labels: array2<int>, y: nat, sizes0: map<int, int>) returns (sizes: map<int, int>)
    requires y < labels.Length0
    requires forall l :: l in sizes0 ==> l > 0
    requires forall l :: l > 0 ==> Get(sizes0, l) == GridCount(labels, l, y)
    ensures forall l :: l in sizes ==> l > 0
    ensures forall l :: l > 0 ==> Get(sizes, l) == GridCount(labels, l, y + 1)
  {
    sizes := sizes0;
    var x := 0;
    while x < labels.Length1
      invariant 0 <= x <= labels.Length1
      invariant forall l :: l in sizes ==> l > 0
      invariant forall l :: l > 0 ==> Get(sizes, l) == GridCount(labels, l, y) + RowCount(labels, l, y, x)
    {
      var l := labels[y, x];
      if l > 0 {
        sizes := sizes[l := Get(sizes, l) + 1];
      }
      x := x + 1;
    }
  }

  /** The sizes map of removeSmallComponents: for every positive label, its number of pixels. */
  method CountSizes(labels: array2<int>) returns (sizes: map<int, int>)
    ensures forall l :: l in sizes ==> l > 0
    ensures forall l :: l > 0 ==> Get(sizes, l) == ComponentSize(labels, l)
  {
    sizes := map[];
    var y := 0;
    while y < labels.Length0
      invariant 0 <= y <= labels.Length0
      invariant forall l :: l in sizes ==> l > 0
      invariant forall l :: l > 0 ==> Get(sizes, l) == GridCount(labels, l, y)
    {
      sizes := CountRow(labels, y, sizes);
      y := y + 1;
    }
  }

  /** Whether pixel (x, y) stays set: it carries a label whose component has at least minSize pixels. */
  ghost predicate Survives(labels: array2<int>, minSize: real, y: int, x: int)
    reads labels
    requires 0 <= y < labels.Length0 && 0 <= x < labels.Length1
  {
    labels[y, x] > 0 && ComponentSize(labels, labels[y, x]) as real >= minSize
  }

  /** The clearing loop over one row. */
  method ClearRow(bitmap: array2<bool>, labels: array2<int>, sizes: map<int, int>, minSize: real, y: nat)
    requires SameShape(bitmap, labels) && y < bitmap.Length0
    requires forall l :: l > 0 ==> Get(sizes, l) == ComponentSize(labels, l)
    requires forall i :: 0 <= i < labels.Length1 ==> (labels[y, i] > 0 <==> bitmap[y, i])
    modifies bitmap
    ensures forall j, i :: 0 <= j < bitmap.Length0 && 0 <= i < bitmap.Length1 ==>
      bitmap[j, i] == if j == y then Survives(labels, minSize, j, i) else old(bitmap[j, i])
  {
    var x := 0;
    while x < bitmap.Length1
      invariant 0 <= x <= bitmap.Length1
      invariant forall j, i :: 0 <= j < bitmap.Length0 && 0 <= i < bitmap.Length1 ==>
        bitmap[j, i] == if j == y && i < x then Survives(labels, minSize, j, i) else old(bitmap[j, i])
    {
      var l := labels[y, x];
      if l > 0 && (Get(sizes, l) as real) < minSize {
        bitmap[y, x] := false;
      }
      x := x + 1;
    }
  }

  /**
   * removeSmallComponents: the foreground pixels whose component, as
   * findConnectedComponents labels it, has fewer than minSize pixels are
   * cleared; no pixel is set. The labels are returned as a ghost.
   */
  method RemoveSmallComponents(bitmap: array2<bool>, minSize: real) returns (thrown: Option<Error>, ghost labels: array2?<int>)
    modifies bitmap
    ensures thrown.Some? <==> bitmap.Length0 == 0
    ensures thrown.Some? ==> thrown.value == NoRowError
    ensures thrown.None? ==> labels != null && fresh(labels)
    ensures thrown.None? ==> labels.Length0 == bitmap.Length0 && labels.Length1 == bitmap.Length1
    ensures thrown.None? ==> Labelling(old(Cells(bitmap)), labels)
    ensures thrown.None? ==> forall j, i :: 0 <= j < bitmap.Length0 && 0 <= i < bitmap.Length1 ==>
      bitmap[j, i] == (old(bitmap[j, i]) && ComponentSize(labels, labels[j, i]) as real >= minSize)
  {
    var found := FindConnectedComponents(bitmap);
    if found.Failure? {
      return Some(found.error), null;
    }
    var lab := found.value;
    labels := lab;
    var sizes := CountSizes(lab);
    ghost var g := Cells(bitmap);
    assert forall j, i :: 0 <= j < bitmap.Length0 && 0 <= i < bitmap.Length1 ==> (lab[j, i] > 0 <==> bitmap[j, i]) by {
      forall j, i | 0 <= j < bitmap.Length0 && 0 <= i < bitmap.Length1
        ensures lab[j, i] > 0 <==> bitmap[j, i]
      {
        assert g[j][i] == bitmap[j, i];
      }
    }
    var y := 0;
    while y < bitmap.Length0
      invariant 0 <= y <= bitmap.Length0
      invariant forall j, i :: 0 <= j < bitmap.Length0 && 0 <= i < bitmap.Length1 ==>
        bitmap[j, i] == if j < y then Survives(lab, minSize, j, i) else old(bitmap[j, i])
      invariant forall j, i :: 0 <= j < bitmap.Length0 && 0 <= i < bitmap.Length1 ==> (lab[j, i] > 0 <==> old(bitmap[j, i]))
      invariant Labelling(g, lab) && g == old(Cells(bitmap))
      invariant forall l :: l > 0 ==> Get(sizes, l) == ComponentSize(lab, l)
    {
      ClearRow(bitmap, lab, sizes, minSize, y);
      y := y + 1;
    }
    thrown := None;
  }

  // ---------------------------------------------------------------------
  // dilate and erode, on the cells of a bitmap

  /** Whether (x, y) is off the one-pixel border of the grid g. */
  predicate InsideBorder(g: seq<seq<bool>>, y: int, x: int) {
    |g| > 0 && 1 <= y < |g| - 1 && 1 <= x < |g[0]| - 1
  }

  predicate Rectangular(g: seq<seq<bool>>) {
    forall j :: 0 <= j < |g| ==> |g[j]| == |g[0]|
  }

  /** Cell (x, y) of the dilation of g: on the interior, whether any of the 3 × 3 cells around it is set. */
  predicate DilatedAt(g: seq<seq<bool>>, y: int, x: int)
    requires Rectangular(g) && 0 <= y < |g| && 0 <= x < |g[0]|
  {
    if InsideBorder(g, y, x) then exists j, i :: y - 1 <= j <= y + 1 && x - 1 <= i <= x + 1 && g[j][i]
    else g[y][x]
  }

  /** Cell (x, y) of the erosion of g: on the interior, whether all of the 3 × 3 cells around it are set. */
  predicate ErodedAt(g: seq<seq<bool>>, y: int, x: int)
    requires Rectangular(g) && 0 <= y < |g| && 0 <= x < |g[0]|
  {
    if InsideBorder(g, y, x) then forall j, i :: y - 1 <= j <= y + 1 && x - 1 <= i <= x + 1 ==> g[j][i]
    else g[y][x]
  }

  /** Every cell flipped. */
  function Complement(g: seq<seq<bool>>): (c: seq<seq<bool>>)
    ensures |c| == |g| && forall j :: 0 <= j < |g| ==> |c[j]| == |g[j]| && forall i :: 0 <= i < |g[j]| ==> c[j][i] == !g[j][i]
  {
    seq(|g|, j requires 0 <= j < |g| => seq(|g[j]|, i requires 0 <= i < |g[j]| => !g[j][i]))
  }

  /** Dilation only sets cells and erosion only clears them. */
  lemma DilateErodeOrder(g: seq<seq<bool>>, y: int, x: int)
    requires Rectangular(g) && 0 <= y < |g| && 0 <= x < |g[0]|
    ensures ErodedAt(g, y, x) ==> g[y][x]
    ensures g[y][x] ==> DilatedAt(g, y, x)
  {
  }

  /** Erosion is the complement of the dilation of the complement. */
  lemma ErodeIsDualOfDilate(g: seq<seq<bool>>, y: int, x: int)
    requires Rectangular(g) && 0 <= y < |g| && 0 <= x < |g[0]|
    ensures Rectangular(Complement(g))
    ensures ErodedAt(g, y, x) == !DilatedAt(Complement(g), y, x)
  {
    var c := Complement(g);
    if InsideBorder(g, y, x) {
      if ErodedAt(g, y, x) {
        forall j, i | y - 1 <= j <= y + 1 && x - 1 <= i <= x + 1
          ensures !c[j][i]
        {
        }
      } else {
        var j, i :| y - 1 <= j <= y + 1 && x - 1 <= i <= x + 1 && !g[j][i];
        assert c[j][i];
      }
    }
  }

  /**
   * `bitmap.map(row => [...row])`: a fresh copy of the cells. It is allocated
   * as a two-dimensional array, since its rows are never shared.
   */
  method Copy(bitmap: array2<bool>) returns (copy: array2<bool>)
    ensures fresh(copy) && copy.Length0 == bitmap.Length0 && copy.Length1 == bitmap.Length1
    ensures forall j, i :: 0 <= j < bitmap.Length0 && 0 <= i < bitmap.Length1 ==> copy[j, i] == bitmap[j, i]
  {
    copy := new bool[bitmap.Length0, bitmap.Length1]((j, i) reads bitmap =>
      if 0 <= j < bitmap.Length0 && 0 <= i < bitmap.Length1 then bitmap[j, i] else false);
  }

  /** The copy holds the cells g. */
  ghost predicate Holds(copy: array2<bool>, g: seq<seq<bool>>)
    reads copy
  {
    |g| == copy.Length0 && (forall j :: 0 <= j < |g| ==> |g[j]| == copy.Length1) &&
    forall j, i :: 0 <= j < copy.Length0 && 0 <= i < copy.Length1 ==> copy[j, i] == g[j][i]
  }

  /** The 3 × 3 search of dilate at an interior pixel, stopping at the first set cell of the copy. */
  method DilatePixel(bitmap: array2<bool>, copy: array2<bool>, ghost g: seq<seq<bool>>, y: nat, x: nat)
    requires bitmap != copy && Holds(copy, g) && copy.Length0 > 0
    requires bitmap.Length0 == copy.Length0 && bitmap.Length1 == copy.Length1
    requires 1 <= y < bitmap.Length0 - 1 && 1 <= x < bitmap.Length1 - 1
    requires bitmap[y, x] == copy[y, x]
    modifies bitmap
    ensures Rectangular(g) && bitmap[y, x] == DilatedAt(g, y, x)
    ensures forall j, i :: 0 <= j < bitmap.Length0 && 0 <= i < bitmap.Length1 && (j, i) != (y, x) ==>
      bitmap[j, i] == old(bitmap[j, i])
  {
    assert InsideBorder(g, y, x);
    if !copy[y, x] {
      var dy := -1;
      while dy <= 1
        invariant -1 <= dy <= 2 && !bitmap[y, x]
        invariant forall j, i :: y - 1 <= j < y + dy && x - 1 <= i <= x + 1 ==> !g[j][i]
        invariant forall j, i :: 0 <= j < bitmap.Length0 && 0 <= i < bitmap.Length1 ==> bitmap[j, i] == old(bitmap[j, i])
      {
        var dx, ny := -1, y + dy;
        while dx <= 1
          invariant -1 <= dx <= 2 && !bitmap[y, x]
          invariant forall i :: x - 1 <= i < x + dx ==> !g[ny][i]
          invariant forall j, i :: 0 <= j < bitmap.Length0 && 0 <= i < bitmap.Length1 ==> bitmap[j, i] == old(bitmap[j, i])
        {
          if copy[y + dy, x + dx] {
            bitmap[y, x] := true;
            assert g[y + dy][x + dx];
            break;
          }
          dx := dx + 1;
        }
        if bitmap[y, x] {
          break;
        }
        dy := dy + 1;
      }
    } else {
      assert g[y][x];
    }
  }

  /** The 3 × 3 search of erode at an interior pixel, stopping at the first clear cell of the copy. */
  method ErodePixel(bitmap: array2<bool>, copy: array2<bool>, ghost g: seq<seq<bool>>, y: nat, x: nat)
    requires bitmap != copy && Holds(copy, g) && copy.Length0 > 0
    requires bitmap.Length0 == copy.Length0 && bitmap.Length1 == copy.Length1
    requires 1 <= y < bitmap.Length0 - 1 && 1 <= x < bitmap.Length1 - 1
    requires bitmap[y, x] == copy[y, x]
    modifies bitmap
    ensures Rectangular(g) && bitmap[y, x] == ErodedAt(g, y, x)
    ensures forall j, i :: 0 <= j < bitmap.Length0 && 0 <= i < bitmap.Length1 && (j, i) != (y, x) ==>
      bitmap[j, i] == old(bitmap[j, i])
  {
    assert InsideBorder(g, y, x);
    if copy[y, x] {
      var dy := -1;
      while dy <= 1
        invariant -1 <= dy <= 2 && bitmap[y, x]
        invariant forall j, i :: y - 1 <= j < y + dy && x - 1 <= i <= x + 1 ==> g[j][i]
        invariant forall j, i :: 0 <= j < bitmap.Length0 && 0 <= i < bitmap.Length1 ==> bitmap[j, i] == old(bitmap[j, i])
      {
        var dx, ny := -1, y + dy;
        while dx <= 1
          invariant -1 <= dx <= 2 && bitmap[y, x]
          invariant forall i :: x - 1 <= i < x + dx ==> g[ny][i]
          invariant forall j, i :: 0 <= j < bitmap.Length0 && 0 <= i < bitmap.Length1 ==> bitmap[j, i] == old(bitmap[j, i])
        {
          if !copy[y + dy, x + dx] {
            bitmap[y, x] := false;
            assert !g[y + dy][x + dx];
            break;
          }
          dx := dx + 1;
        }
        if !bitmap[y, x] {
          break;
        }
        dy := dy + 1;
      }
    } else {
      assert !g[y][x];
    }
  }

  /** The cells the loops of dilate and erode have reached: interior pixels before (x, y). */
  predicate Reached(h: int, w: int, j: int, i: int, y: int, x: int) {
    1 <= j < h - 1 && 1 <= i < w - 1 && Before(j, i, y, x)
  }

  /** dilate: every interior pixel becomes the dilation of the original cells; the border is kept. */
  method Dilate(bitmap: array2<bool>) returns (thrown: Option<Error>)
    modifies bitmap
    ensures thrown.Some? <==> bitmap.Length0 == 0
    ensures thrown.Some? ==> thrown.value == NoRowError
    ensures Rectangular(old(Cells(bitmap)))
    ensures forall j, i :: 0 <= j < bitmap.Length0 && 0 <= i < bitmap.Length1 ==>
      bitmap[j, i] == DilatedAt(old(Cells(bitmap)), j, i)
  {
    ghost var g := Cells(bitmap);
    if bitmap.Length0 == 0 {
      return Some(NoRowError);
    }
    var height := bitmap.Length0;
    var width := bitmap.Length1;
    var copy := Copy(bitmap);
    assert Holds(copy, g);
    var y := 1;
    while y < height - 1
      invariant 1 <= y && (height >= 2 ==> y <= height - 1) && Holds(copy, g)
      invariant forall j, i :: 0 <= j < height && 0 <= i < width ==>
        bitmap[j, i] == if Reached(height, width, j, i, y, 0) then DilatedAt(g, j, i) else g[j][i]
    {
      var x := 1;
      while x < width - 1
        invariant 1 <= x && (width >= 2 ==> x <= width - 1) && Holds(copy, g)
        invariant forall j, i :: 0 <= j < height && 0 <= i < width ==>
          bitmap[j, i] == if Reached(height, width, j, i, y, x) then DilatedAt(g, j, i) else g[j][i]
      {
        DilatePixel(bitmap, copy, g, y, x);
        x := x + 1;
      }
      y := y + 1;
    }
    thrown := None;
  }

  /** erode: every interior pixel becomes the erosion of the original cells; the border is kept. */
  method Erode(bitmap: array2<bool>) returns (thrown: Option<Error>)
    modifies bitmap
    ensures thrown.Some? <==> bitmap.Length0 == 0
    ensures thrown.Some? ==> thrown.value == NoRowError
    ensures Rectangular(old(Cells(bitmap)))
    ensures forall j, i :: 0 <= j < bitmap.Length0 && 0 <= i < bitmap.Length1 ==>
      bitmap[j, i] == ErodedAt(old(Cells(bitmap)), j, i)
  {
    ghost var g := Cells(bitmap);
    if bitmap.Length0 == 0 {
      return Some(NoRowError);
    }
    var height := bitmap.Length0;
    var width := bitmap.Length1;
    var copy := Copy(bitmap);
    assert Holds(copy, g);
    var y := 1;
    while y < height - 1
      invariant 1 <= y && (height >= 2 ==> y <= height - 1) && Holds(copy, g)
      invariant forall j, i :: 0 <= j < height && 0 <= i < width ==>
        bitmap[j, i] == if Reached(height, width, j, i, y, 0) then ErodedAt(g, j, i) else g[j][i]
    {
      var x := 1;
      while x < width - 1
        invariant 1 <= x && (width >= 2 ==> x <= width - 1) && Holds(copy, g)
        invariant forall j, i :: 0 <= j < height && 0 <= i < width ==>
          bitmap[j, i] == if Reached(height, width, j, i, y, x) then ErodedAt(g, j, i) else g[j][i]
      {
        ErodePixel(bitmap, copy, g, y, x);
        x := x + 1;
      }
      y := y + 1;
    }
    thrown := None;
  }
}
