/**
 * The stitch optimiser of src/lib/embroidery/stitch-optimizer.ts. A first
 * pass drops normal stitches closer than 0.3 mm to the last kept input stitch
 * and splits a normal stitch farther than 12.1 mm into evenly spaced normal
 * stitches; a second pass (`removeRedundantJumps`) retypes as a jump every
 * normal stitch farther than 12.1 mm from the previous normal one.
 *
 * Distances are compared squared (`sqrt(q) < c` exactly when `q < c * c` for
 * c >= 0). The one place the distance itself is used, the number of steps of
 * a split, takes the square root from the `MathLib` parameter.
 */
module StitchOptimizer {
  import opened Wrappers
  import opened Numeric
  import opened Types
  import opened Streams

  /** minLength, in mm. */
  const MinLength := 0.3
  /** maxLength, in mm: also the retyping distance of removeRedundantJumps. */
  const MaxLength := 12.1

  /** `Math.ceil(distance / maxLength)`: the number of steps a long stitch is split into. */
  function Steps(m: MathLib, distSq: real): int {
    Ceil(m.sqrt(distSq) / MaxLength)
  }

  /** The j-th stitch pushed between `last` and `st` when the stitch is split into `steps` steps. */
  function Interpolated(last: StitchPoint, st: StitchPoint, steps: int, j: int): StitchPoint
    requires steps > 0
  {
    StitchPoint(last.x + (st.x - last.x) / steps as real * j as real,
                last.y + (st.y - last.y) / steps as real * j as real,
                Normal, st.color)
  }

  /** The stitches the inner loop pushes, for j = 1 .. steps - 1. */
  function Fill(last: StitchPoint, st: StitchPoint, steps: int): (r: seq<StitchPoint>)
    ensures |r| == if steps <= 1 then 0 else steps - 1
  {
    if steps <= 1 then []
    else seq(steps - 1, j requires 0 <= j < steps - 1 => Interpolated(last, st, steps, j + 1))
  }

  /** The loop's state: what has been pushed, and `lastStitch`. */
  datatype State = State(optimized: seq<StitchPoint>, lastStitch: StitchPoint)

  /** What one input stitch contributes, given the last kept input stitch. */
  function Record(m: MathLib, last: StitchPoint, st: StitchPoint): seq<StitchPoint> {
    var d := StitchDistSq(last, st);
    if d < MinLength * MinLength && st.kind == Normal then []
    else if d > MaxLength * MaxLength && st.kind == Normal then Fill(last, st, Steps(m, d)) + [st]
    else [st]
  }

  /** One iteration of the first pass's loop. */
  function Step(m: MathLib, state: State, st: StitchPoint): State {
    var r := Record(m, state.lastStitch, st);
    if r == [] then state else State(state.optimized + r, st)
  }

  /** The state after the first pass has looked at `s[..i]`. */
  function Pass(m: MathLib, s: seq<StitchPoint>, i: nat): State
    requires 1 <= i <= |s|
  {
    if i == 1 then State([s[0]], s[0]) else Step(m, Pass(m, s, i - 1), s[i - 1])
  }

  /** The last normal stitch of the input before index i, as `lastNormalStitch` holds it there. */
  function LastNormalBefore(s: seq<StitchPoint>, i: nat): Option<StitchPoint>
    requires i <= |s|
  {
    if i == 0 then None
    else if s[i - 1].kind == Normal then Some(s[i - 1])
    else LastNormalBefore(s, i - 1)
  }

  /** Stitch i after removeRedundantJumps. */
  function Retyped(s: seq<StitchPoint>, i: nat): StitchPoint
    requires i < |s|
  {
    var prev := LastNormalBefore(s, i);
    if s[i].kind == Normal && prev.Some? && StitchDistSq(prev.value, s[i]) > MaxLength * MaxLength
    then s[i].(kind := Jump)
    else s[i]
  }

  /** The output of removeRedundantJumps. */
  function JumpsRetyped(s: seq<StitchPoint>): (r: seq<StitchPoint>)
    ensures |r| == |s|
  {
    seq(|s|, i requires 0 <= i < |s| => Retyped(s, i))
  }

  /** The output of optimizeStitches. */
  function Optimized(m: MathLib, s: seq<StitchPoint>): seq<StitchPoint> {
    if |s| <= 2 then s else JumpsRetyped(Pass(m, s, |s|).optimized)
  }

  /** optimizeStitches: the first pass with its inner split loop, then removeRedundantJumps. */
  method OptimizeStitches(m: MathLib, stitches: seq<StitchPoint>) returns (result: seq<StitchPoint>)
    ensures result == Optimized(m, stitches)
  {
    if |stitches| <= 2 {
      return stitches;
    }
    var optimized := [stitches[0]];
    var lastStitch := stitches[0];
    var i := 1;
    while i < |stitches|
      invariant 1 <= i <= |stitches|
      invariant Pass(m, stitches, i) == State(optimized, lastStitch)
    {
      var stitch := stitches[i];
      var distanceSq := StitchDistSq(lastStitch, stitch);
      ghost var record := Record(m, lastStitch, stitch);
      if distanceSq < MinLength * MinLength && stitch.kind == Normal {
        // too short: skipped
        assert record == [];
      } else {
        ghost var before := optimized;
        if distanceSq > MaxLength * MaxLength && stitch.kind == Normal {
          var steps := Steps(m, distanceSq);
          var j := 1;
          while j < steps
            invariant 1 <= j <= if steps <= 1 then 1 else steps
            invariant optimized == before + Fill(lastStitch, stitch, steps)[..j - 1]
          {
            optimized := optimized + [Interpolated(lastStitch, stitch, steps, j)];
            j := j + 1;
          }
          assert Fill(lastStitch, stitch, steps)[..j - 1] == Fill(lastStitch, stitch, steps);
          assert record == Fill(lastStitch, stitch, steps) + [stitch];
        } else {
          assert record == [stitch];
        }
        optimized := optimized + [stitch];
        assert optimized == before + record;
        lastStitch := stitch;
      }
      i := i + 1;
    }
    result := RemoveRedundantJumps(optimized);
  }

  /** removeRedundantJumps, with `lastNormalStitch` following the input's normal stitches. */
  method RemoveRedundantJumps(stitches: seq<StitchPoint>) returns (result: seq<StitchPoint>)
    ensures result == JumpsRetyped(stitches)
  {
    result := [];
    var lastNormalStitch: Option<StitchPoint> := None;
    for i := 0 to |stitches|
      invariant result == JumpsRetyped(stitches)[..i]
      invariant lastNormalStitch == LastNormalBefore(stitches, i)
    {
      var stitch := stitches[i];
      if stitch.kind == Normal {
        if lastNormalStitch.Some? {
          var distanceSq := StitchDistSq(lastNormalStitch.value, stitch);
          if distanceSq > MaxLength * MaxLength {
            result := result + [stitch.(kind := Jump)];
          } else {
            result := result + [stitch];
          }
        } else {
          result := result + [stitch];
        }
        lastNormalStitch := Some(stitch);
      } else {
        result := result + [stitch];
      }
    }
    assert JumpsRetyped(stitches)[..|stitches|] == JumpsRetyped(stitches);
  }

  /** Lists of at most two stitches come back unchanged. */
  lemma ShortListsUnchanged(m: MathLib, s: seq<StitchPoint>)
    requires |s| <= 2
    ensures Optimized(m, s) == s
  {
  }

  /** The first pass's output starts with the first stitch, which removeRedundantJumps leaves alone. */
  lemma FirstStitchKept(m: MathLib, s: seq<StitchPoint>)
    requires |s| >= 1
    ensures |Optimized(m, s)| > 0 && Optimized(m, s)[0] == s[0]
  {
    if |s| > 2 {
      FirstPassHead(m, s, |s|);
      assert LastNormalBefore(Pass(m, s, |s|).optimized, 0) == None;
    }
  }

  lemma {:induction false} FirstPassHead(m: MathLib, s: seq<StitchPoint>, i: nat)
    requires 1 <= i <= |s|
    ensures |Pass(m, s, i).optimized| > 0 && Pass(m, s, i).optimized[0] == s[0]
  {
    if i > 1 {
      FirstPassHead(m, s, i - 1);
    }
  }

  /**
   * What one input stitch contributes: nothing exactly when it is a normal
   * stitch closer than minLength to the last kept one; otherwise the stitch
   * itself, preceded by the split's stitches exactly when it is a normal
   * stitch farther than maxLength.
   */
  lemma RecordShape(m: MathLib, last: StitchPoint, st: StitchPoint)
    ensures var d := StitchDistSq(last, st);
      var r := Record(m, last, st);
      (r == [] <==> st.kind == Normal && d < MinLength * MinLength) &&
      (r != [] ==> r[|r| - 1] == st) &&
      (r != [] && st.kind == Normal && d > MaxLength * MaxLength ==> r[..|r| - 1] == Fill(last, st, Steps(m, d))) &&
      (r != [] && !(st.kind == Normal && d > MaxLength * MaxLength) ==> r == [st])
  {
  }

  /**
   * The split: steps − 1 normal stitches in the long stitch's colour, the
   * first one step away from the last kept stitch.
   */
  lemma FillShape(last: StitchPoint, st: StitchPoint, steps: int)
    requires steps >= 2
    ensures var f := Fill(last, st, steps);
      && (forall j :: 0 <= j < |f| ==> f[j].kind == Normal && f[j].color == st.color)
      && f[0].x == last.x + (st.x - last.x) / steps as real
      && f[0].y == last.y + (st.y - last.y) / steps as real
  {
    var f := Fill(last, st, steps);
    assert f[0] == Interpolated(last, st, steps, 1);
  }

  /** Consecutive stitches of the split are one step, a steps-th of the long stitch, apart. */
  lemma FillEvenlySpaced(last: StitchPoint, st: StitchPoint, steps: int, j: nat)
    requires steps >= 2 && j + 1 < |Fill(last, st, steps)|
    ensures var f := Fill(last, st, steps);
      f[j + 1].x - f[j].x == (st.x - last.x) / steps as real &&
      f[j + 1].y - f[j].y == (st.y - last.y) / steps as real
  {
    var f := Fill(last, st, steps);
    var a := (j + 1) as real;
    assert f[j] == Interpolated(last, st, steps, j + 1) && f[j + 1] == Interpolated(last, st, steps, j + 2);
    Spacing(last.x, st.x - last.x, steps as real, a);
    Spacing(last.y, st.y - last.y, steps as real, a);
  }

  /** The long stitch itself is one step after the last stitch of the split. */
  lemma FillEndsOneStepShort(last: StitchPoint, st: StitchPoint, steps: int)
    requires steps >= 2
    ensures var f := Fill(last, st, steps);
      st.x - f[|f| - 1].x == (st.x - last.x) / steps as real &&
      st.y - f[|f| - 1].y == (st.y - last.y) / steps as real
  {
    var f := Fill(last, st, steps);
    assert f[|f| - 1] == Interpolated(last, st, steps, steps - 1);
    LastSpacing(last.x, st.x, steps as real);
    LastSpacing(last.y, st.y, steps as real);
  }

  /** Neighbouring interpolated coordinates are one step apart. */
  lemma Spacing(origin: real, d: real, s: real, a: real)
    requires s != 0.0
    ensures (origin + d / s * (a + 1.0)) - (origin + d / s * a) == d / s
  {
    var q := d / s;
    assert q * (a + 1.0) == q * a + q;
  }

  /** The last interpolated coordinate is one step short of the target. */
  lemma LastSpacing(origin: real, target: real, s: real)
    requires s != 0.0
    ensures target - (origin + (target - origin) / s * (s - 1.0)) == (target - origin) / s
  {
    var q := (target - origin) / s;
    assert q * s == target - origin;
    assert q * (s - 1.0) == q * s - q;
  }

  /** What a correct square root gives: a stitch longer than maxLength is split into at least two steps. */
  lemma LongStitchSplits(m: MathLib, distSq: real)
    requires distSq > MaxLength * MaxLength
    requires m.sqrt(distSq) >= 0.0 && m.sqrt(distSq) * m.sqrt(distSq) == distSq
    ensures Steps(m, distSq) >= 2
  {
    var r := m.sqrt(distSq);
    RootAbove(r, MaxLength);
    assert r / MaxLength > 1.0;
  }

  /** A non-negative number whose square exceeds c * c exceeds c. */
  lemma RootAbove(r: real, c: real)
    requires r >= 0.0 && c >= 0.0 && r * r > c * c
    ensures r > c
  {
  }

  /** The records of the input stitches, one per stitch, the first being the first stitch itself. */
  function Records(m: MathLib, s: seq<StitchPoint>, i: nat): (r: seq<seq<StitchPoint>>)
    requires 1 <= i <= |s|
    ensures |r| == i
  {
    if i == 1 then [[s[0]]]
    else Records(m, s, i - 1) + [Record(m, Pass(m, s, i - 1).lastStitch, s[i - 1])]
  }

  /** The first pass's output is the concatenation of the records. */
  lemma {:induction false} PassIsRecords(m: MathLib, s: seq<StitchPoint>, i: nat)
    requires 1 <= i <= |s|
    ensures Pass(m, s, i).optimized == Concat(Records(m, s, i))
  {
    var rs := Records(m, s, i);
    if i == 1 {
      assert Concat(rs) == Concat(rs[..0]) + rs[0];
    } else {
      PassIsRecords(m, s, i - 1);
      assert rs[..i - 1] == Records(m, s, i - 1);
      ConcatSnoc(rs, i - 1);
      assert rs[..i] == rs;
    }
  }

  /** Record k is the first stitch for k = 0 and otherwise depends on the last kept input stitch before k. */
  lemma {:induction false} RecordAt(m: MathLib, s: seq<StitchPoint>, i: nat, k: nat)
    requires k < i <= |s|
    ensures Records(m, s, i)[k] == if k == 0 then [s[0]] else Record(m, Pass(m, s, k).lastStitch, s[k])
  {
    if k < i - 1 {
      RecordAt(m, s, i - 1, k);
      var prev := Records(m, s, i - 1);
      assert Records(m, s, i) == prev + [Record(m, Pass(m, s, i - 1).lastStitch, s[i - 1])];
      assert Records(m, s, i)[k] == prev[k];
    }
  }

  /**
   * Every input stitch that is not dropped appears in the first pass's
   * output, in input order: its record, which sits in the output after those
   * of the stitches before it, ends with it.
   */
  lemma RecordsEndWithStitch(m: MathLib, s: seq<StitchPoint>, i: nat, k: nat)
    requires k < i <= |s|
    ensures var r := Records(m, s, i)[k];
      (r == [] <==> k > 0 && s[k].kind == Normal && StitchDistSq(Pass(m, s, k).lastStitch, s[k]) < MinLength * MinLength) &&
      (r != [] ==> r[|r| - 1] == s[k])
  {
    RecordAt(m, s, i, k);
    if k > 0 {
      RecordShape(m, Pass(m, s, k).lastStitch, s[k]);
    }
  }

  /**
   * removeRedundantJumps keeps the length, every position and colour, and
   * only retypes normal stitches as jumps, exactly those farther than
   * maxLength from the previous normal input stitch, retyped or not.
   */
  lemma RetypeRules(s: seq<StitchPoint>, i: nat)
    requires i < |s|
    ensures var r := JumpsRetyped(s)[i];
      r.x == s[i].x && r.y == s[i].y && r.color == s[i].color &&
      (r.kind != s[i].kind ==> s[i].kind == Normal && r.kind == Jump) &&
      (r.kind != s[i].kind <==>
        s[i].kind == Normal && LastNormalBefore(s, i).Some? &&
        StitchDistSq(LastNormalBefore(s, i).value, s[i]) > MaxLength * MaxLength)
  {
  }

  /** `lastNormalStitch` is the latest normal stitch before i: none of the stitches after it is normal. */
  lemma {:induction false} LastNormalIsLatest(s: seq<StitchPoint>, i: nat)
    requires i <= |s|
    ensures LastNormalBefore(s, i).None? <==> forall k :: 0 <= k < i ==> s[k].kind != Normal
    ensures LastNormalBefore(s, i).Some? ==>
      exists j :: 0 <= j < i && s[j] == LastNormalBefore(s, i).value && s[j].kind == Normal &&
        forall k :: j < k < i ==> s[k].kind != Normal
  {
    if i > 0 {
      LastNormalIsLatest(s, i - 1);
      if s[i - 1].kind == Normal {
        assert s[i - 1] == LastNormalBefore(s, i).value;
      } else if LastNormalBefore(s, i - 1).Some? {
        var j :| 0 <= j < i - 1 && s[j] == LastNormalBefore(s, i - 1).value &&
          s[j].kind == Normal && forall k :: j < k < i - 1 ==> s[k].kind != Normal;
        assert forall k :: j < k < i ==> s[k].kind != Normal;
      }
    }
  }
}
