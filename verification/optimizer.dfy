/**
 * The stitch optimiser of src/lib/embroidery/optimizer.ts. A first pass walks
 * the stitches with a cursor on the last kept one: a normal stitch closer than
 * MIN_DISTANCE to it is dropped, a normal stitch farther than MAX_STITCH is
 * kept as a jump. A colour pass then inserts a stop in front of every stitch
 * whose thread colour differs from the one before.
 *
 * `getDistance` takes a square root; every use of it compares the distance
 * with a non-negative constant c, and `sqrt(q) < c` holds exactly when
 * `q < c * c`, so the model compares squared distances.
 */
module Optimizer {
  import opened Wrappers
  import opened Types
  import opened Streams

  /** MIN_DISTANCE, in mm. */
  const MinDistance := 0.5
  /** MAX_STITCH (also JUMP_THRESHOLD), in mm. */
  const MaxStitch := 12.1

  /** What the first pass does with one input stitch. */
  datatype Fate = Dropped | Kept | Retyped

  /** The first pass's decision for `st`, given what it has kept so far (the last of which is `lastStitch`). */
  function FateOf(kept: seq<StitchPoint>, st: StitchPoint): Fate {
    if kept == [] then Kept
    else
      var d := StitchDistSq(kept[|kept| - 1], st);
      if d < MinDistance * MinDistance && st.kind == Normal then Dropped
      else if d > MaxStitch * MaxStitch && st.kind == Normal then Retyped
      else Kept
  }

  /** The stitches pushed for an input stitch with the given fate. */
  function Emit(st: StitchPoint, fate: Fate): seq<StitchPoint> {
    match fate
    case Dropped => []
    case Kept => [st]
    case Retyped => [st.(kind := Jump)]
  }

  /** The output of the first pass of optimizeStitches. */
  function FirstPass(s: seq<StitchPoint>): (r: seq<StitchPoint>)
    ensures |r| <= |s|
  {
    if s == [] then []
    else
      var kept := FirstPass(s[..|s| - 1]);
      kept + Emit(s[|s| - 1], FateOf(kept, s[|s| - 1]))
  }

  /** The fate of every input stitch. */
  function Fates(s: seq<StitchPoint>): (r: seq<Fate>)
    ensures |r| == |s|
  {
    seq(|s|, i requires 0 <= i < |s| => FateOf(FirstPass(s[..i]), s[i]))
  }

  /** What each input stitch contributes to the first pass. */
  function Emitted(s: seq<StitchPoint>): (r: seq<seq<StitchPoint>>)
    ensures |r| == |s|
  {
    seq(|s|, i requires 0 <= i < |s| => Emit(s[i], Fates(s)[i]))
  }

  /** One more iteration of the first pass. */
  lemma FirstPassStep(s: seq<StitchPoint>, i: nat)
    requires i < |s|
    ensures FirstPass(s[..i + 1]) == FirstPass(s[..i]) + Emit(s[i], FateOf(FirstPass(s[..i]), s[i]))
  {
    assert s[..i + 1][..i] == s[..i];
  }

  /** The cursor the first pass keeps: the last stitch pushed, if any. */
  function LastOf(kept: seq<StitchPoint>): Option<StitchPoint> {
    if kept == [] then None else Some(kept[|kept| - 1])
  }

  /** One iteration of the first pass: push what the fate of `stitch` emits and move the cursor. */
  method Visit(optimized: seq<StitchPoint>, lastStitch: Option<StitchPoint>, stitch: StitchPoint)
    returns (out: seq<StitchPoint>, last: Option<StitchPoint>)
    requires lastStitch == LastOf(optimized)
    ensures out == optimized + Emit(stitch, FateOf(optimized, stitch)) && last == LastOf(out)
  {
    out, last := optimized, lastStitch;
    if lastStitch.None? {
      out := out + [stitch];
      last := Some(stitch);
    } else {
      var distanceSq := StitchDistSq(lastStitch.value, stitch);
      if distanceSq < MinDistance * MinDistance && stitch.kind == Normal {
        // too close: skipped
      } else if distanceSq > MaxStitch * MaxStitch && stitch.kind == Normal {
        var jumpStitch := stitch.(kind := Jump);
        out := out + [jumpStitch];
        last := Some(jumpStitch);
      } else {
        out := out + [stitch];
        last := Some(stitch);
      }
    }
  }

  /**
   * The first pass, as the loop of optimizeStitches runs it, followed by the
   * colour pass.
   */
  method OptimizeStitches(stitches: seq<StitchPoint>) returns (result: seq<StitchPoint>)
    ensures result == ColorPass(FirstPass(stitches))
  {
    var optimized: seq<StitchPoint> := [];
    var lastStitch: Option<StitchPoint> := None;
    var i := 0;
    while i < |stitches|
      invariant 0 <= i <= |stitches|
      invariant optimized == FirstPass(stitches[..i]) && lastStitch == LastOf(optimized)
    {
      FirstPassStep(stitches, i);
      optimized, lastStitch := Visit(optimized, lastStitch, stitches[i]);
      i := i + 1;
    }
    assert stitches[..i] == stitches;
    result := OptimizeColorChanges(optimized);
  }

  /** optimizePattern: the pattern with only its stitch list replaced. */
  method OptimizePattern(pattern: StitchPattern) returns (r: StitchPattern)
    ensures r.stitches == ColorPass(FirstPass(pattern.stitches))
    ensures r.colors == pattern.colors && r.dimensions == pattern.dimensions && r.metadata == pattern.metadata
  {
    var optimizedStitches := OptimizeStitches(pattern.stitches);
    r := pattern.(stitches := optimizedStitches);
  }

  /** The first pass is the in-order concatenation of what each input stitch emits. */
  lemma {:induction false} FirstPassIsEmitted(s: seq<StitchPoint>)
    ensures FirstPass(s) == Concat(Emitted(s))
  {
    if s != [] {
      var n := |s| - 1;
      var p := s[..n];
      FirstPassIsEmitted(p);
      assert Emitted(s)[..n] == Emitted(p) by {
        forall i | 0 <= i < n
          ensures Emitted(s)[i] == Emitted(p)[i]
        {
          assert s[..i] == p[..i];
          assert Fates(s)[i] == Fates(p)[i];
        }
      }
      assert s[..n] == p;
    }
  }

  /**
   * Only normal stitches are dropped or retyped, never the first; a dropped
   * stitch is closer than MIN_DISTANCE to the last kept one, a retyped one is
   * farther than MAX_STITCH and keeps its position and colour.
   */
  lemma FateRules(s: seq<StitchPoint>, i: nat)
    requires i < |s|
    ensures (i == 0 || s[i].kind != Normal) ==> Fates(s)[i] == Kept
    ensures Fates(s)[i] == Dropped <==>
      (FirstPass(s[..i]) != [] && s[i].kind == Normal &&
       StitchDistSq(FirstPass(s[..i])[|FirstPass(s[..i])| - 1], s[i]) < MinDistance * MinDistance)
    ensures Fates(s)[i] == Retyped ==>
      s[i].kind == Normal && StitchDistSq(FirstPass(s[..i])[|FirstPass(s[..i])| - 1], s[i]) > MaxStitch * MaxStitch
    ensures Emitted(s)[i] == [] || Emitted(s)[i] == [s[i]] ||
      Emitted(s)[i] == [StitchPoint(s[i].x, s[i].y, Jump, s[i].color)]
  {
    if i == 0 {
      assert s[..0] == [];
    }
  }

  /** The first stitch is always kept unchanged. */
  lemma {:induction false} FirstStitchKept(s: seq<StitchPoint>)
    requires |s| > 0
    ensures |FirstPass(s)| > 0 && FirstPass(s)[0] == s[0]
  {
    var n := |s| - 1;
    if n == 0 {
      assert s[..n] == [];
    } else {
      FirstStitchKept(s[..n]);
      assert s[..n][0] == s[0];
    }
  }

  /** After the first pass, every normal stitch lies between MIN_DISTANCE and MAX_STITCH from the one before it. */
  lemma {:induction false} FirstPassDistances(s: seq<StitchPoint>)
    ensures forall k :: 1 <= k < |FirstPass(s)| && FirstPass(s)[k].kind == Normal ==>
      MinDistance * MinDistance <= StitchDistSq(FirstPass(s)[k - 1], FirstPass(s)[k]) <= MaxStitch * MaxStitch
  {
    if s != [] {
      var n := |s| - 1;
      FirstPassDistances(s[..n]);
      var kept := FirstPass(s[..n]);
      assert FirstPass(s) == kept + Emit(s[n], FateOf(kept, s[n]));
      assert FirstPass(s)[..|kept|] == kept;
    }
  }

  /** The thread colour in effect before stitch k: `''` before the first. */
  function ColorBefore(s: seq<StitchPoint>, k: nat): string
    requires k <= |s|
  {
    if k == 0 then "" else s[k - 1].color
  }

  /** Whether the colour pass puts a stop in front of stitch k. */
  predicate ChangesColor(s: seq<StitchPoint>, k: nat)
    requires k < |s|
  {
    s[k].color != ColorBefore(s, k) && ColorBefore(s, k) != ""
  }

  /** The stitches the colour pass pushes for stitch k. */
  function ColorRecord(s: seq<StitchPoint>, k: nat): seq<StitchPoint>
    requires k < |s|
  {
    if ChangesColor(s, k) then [s[k].(kind := Stop), s[k]] else [s[k]]
  }

  function ColorRecords(s: seq<StitchPoint>): (r: seq<seq<StitchPoint>>)
    ensures |r| == |s|
  {
    seq(|s|, k requires 0 <= k < |s| => ColorRecord(s, k))
  }

  /** The output of optimizeColorChanges. */
  function ColorPass(s: seq<StitchPoint>): seq<StitchPoint> {
    Concat(ColorRecords(s))
  }

  /** optimizeColorChanges, with `currentColor` tracking the last colour pushed. */
  method OptimizeColorChanges(stitches: seq<StitchPoint>) returns (optimized: seq<StitchPoint>)
    ensures optimized == ColorPass(stitches)
  {
    optimized := [];
    var currentColor := "";
    var i := 0;
    while i < |stitches|
      invariant 0 <= i <= |stitches|
      invariant optimized == Concat(ColorRecords(stitches)[..i])
      invariant currentColor == ColorBefore(stitches, i)
    {
      var stitch := stitches[i];
      ConcatSnoc(ColorRecords(stitches), i);
      if stitch.color == currentColor {
        optimized := optimized + [stitch];
      } else {
        if currentColor != "" {
          optimized := optimized + [stitch.(kind := Stop)];
        }
        optimized := optimized + [stitch];
        currentColor := stitch.color;
      }
      i := i + 1;
    }
    assert ColorRecords(stitches)[..i] == ColorRecords(stitches);
  }

  /**
   * Where stitch k lands in the colour pass's output: at the end of its record,
   * right after a stop with its position and colour exactly when its colour
   * differs from a previous non-empty one.
   */
  lemma ColorPassLayout(s: seq<StitchPoint>, k: nat)
    requires k < |s|
    ensures var at := |Concat(ColorRecords(s)[..k])|;
      var out := ColorPass(s);
      if ChangesColor(s, k) then
        at + 2 <= |out| && out[at] == StitchPoint(s[k].x, s[k].y, Stop, s[k].color) && out[at + 1] == s[k]
      else
        at + 1 <= |out| && out[at] == s[k]
    ensures k == 0 ==> !ChangesColor(s, k)
  {
    ChunkAt(ColorRecords(s), k);
    var at := |Concat(ColorRecords(s)[..k])|;
    var rec := ColorRecord(s, k);
    assert ColorPass(s)[at..at + |rec|] == rec;
    if ChangesColor(s, k) {
      assert ColorPass(s)[at] == rec[0] && ColorPass(s)[at + 1] == rec[1];
    } else {
      assert ColorPass(s)[at] == rec[0];
    }
  }

  /** The stitches that are not stops, in order. */
  function WithoutStops(s: seq<StitchPoint>): (r: seq<StitchPoint>)
    ensures |r| <= |s|
  {
    if s == [] then []
    else WithoutStops(s[..|s| - 1]) + (if s[|s| - 1].kind == Stop then [] else [s[|s| - 1]])
  }

  lemma {:induction false} WithoutStopsAppend(a: seq<StitchPoint>, b: seq<StitchPoint>)
    ensures WithoutStops(a + b) == WithoutStops(a) + WithoutStops(b)
    decreases |b|
  {
    if b != [] {
      var n := |b| - 1;
      WithoutStopsAppend(a, b[..n]);
      assert (a + b)[..|a + b| - 1] == a + b[..n];
    } else {
      assert a + b == a;
    }
  }

  /** The records of a prefix are the prefix of the records: a record only looks backwards. */
  lemma ColorRecordsPrefix(s: seq<StitchPoint>, n: nat)
    requires n <= |s|
    ensures ColorRecords(s)[..n] == ColorRecords(s[..n])
  {
    forall k | 0 <= k < n
      ensures ColorRecords(s)[k] == ColorRecords(s[..n])[k]
    {
      assert ColorBefore(s, k) == ColorBefore(s[..n], k);
    }
  }

  lemma WithoutStopsSingle(st: StitchPoint)
    ensures WithoutStops([st]) == if st.kind == Stop then [] else [st]
  {
    assert [st][..0] == [];
  }

  /** A record holds its stitch and at most an inserted stop. */
  lemma RecordWithoutStops(s: seq<StitchPoint>, k: nat)
    requires k < |s|
    ensures WithoutStops(ColorRecord(s, k)) == WithoutStops([s[k]])
  {
    var st := s[k];
    if ChangesColor(s, k) {
      WithoutStopsAppend([st.(kind := Stop)], [st]);
      WithoutStopsSingle(st.(kind := Stop));
      assert ColorRecord(s, k) == [st.(kind := Stop)] + [st];
    }
  }

  /** Taking the stops out of the colour pass's output gives the stops-free input back: only stops are inserted. */
  lemma {:induction false} ColorPassOnlyAddsStops(s: seq<StitchPoint>)
    ensures WithoutStops(ColorPass(s)) == WithoutStops(s)
  {
    if s != [] {
      var n := |s| - 1;
      ColorPassOnlyAddsStops(s[..n]);
      ColorRecordsPrefix(s, n);
      ConcatSnoc(ColorRecords(s), n);
      assert ColorRecords(s)[..n + 1] == ColorRecords(s);
      assert ColorPass(s) == ColorPass(s[..n]) + ColorRecord(s, n);
      WithoutStopsAppend(ColorPass(s[..n]), ColorRecord(s, n));
      RecordWithoutStops(s, n);
      WithoutStopsSingle(s[n]);
    }
  }
}
