/**
 * The stitch-generation stage of
 * src/lib/embroidery/conversion/steps/StitchGenerationStep.ts: every contour
 * becomes a zone whose stitch type follows from its compactness
 * 4·π·area / perimeter², the zone generators turn the zones into stitches,
 * which are concatenated in zone order, and the result becomes the
 * context's pattern.
 *
 * The fill, satin and running generators are reached through the
 * `Generators` parameter, π and the square root through `math`, the clock
 * through `now`.
 */
module StitchGenerationStep {
  import opened Wrappers
  import opened Numeric
  import opened Types
  import opened Streams

  /** The zone generators the stage calls; each may throw. */
  datatype Generators = Generators(
    fill: (seq<Point>, ConversionSettings) -> Result<seq<StitchPoint>, Error>,
    satin: (seq<Point>, ConversionSettings) -> Result<seq<StitchPoint>, Error>,
    running: (seq<Point>, ConversionSettings) -> Result<seq<StitchPoint>, Error>)

  const FailureMessage := "Stitch generation failed"

  /** What execute throws, before its catch, when the context has no contours. */
  const MissingContours := ProcessingError("Contours are required", None)

  // ---------------------------------------------------------------------
  // Area and perimeter

  /** The index after i, wrapping round to the first point. */
  function Next(points: seq<Point>, i: nat): nat
    requires i < |points|
  {
    (i + 1) % |points|
  }

  /** The term edge i adds to the shoelace sum. */
  function Cross(points: seq<Point>, i: nat): real
    requires i < |points|
  {
    var j := Next(points, i);
    points[i].x * points[j].y - points[j].x * points[i].y
  }

  /** The shoelace sum over the first n edges of the closed polygon. */
  function Shoelace(points: seq<Point>, n: nat): real
    requires n <= |points|
  {
    if n == 0 then 0.0 else Shoelace(points, n - 1) + Cross(points, n - 1)
  }

  /** The area the stage computes: half the absolute shoelace sum over all edges. */
  function Area(points: seq<Point>): (a: real)
    ensures a >= 0.0
  {
    AbsReal(Shoelace(points, |points|)) / 2.0
  }

  /** calculateArea. */
  method CalculateArea(points: seq<Point>) returns (area: real)
    ensures area == Area(points)
  {
    var sum := 0.0;
    for i := 0 to |points|
      invariant sum == Shoelace(points, i)
    {
      var j := (i + 1) % |points|;
      sum := sum + points[i].x * points[j].y;
      sum := sum - points[j].x * points[i].y;
    }
    area := AbsReal(sum) / 2.0;
  }

  /** The length of edge i, closing edge included. */
  function EdgeLength(math: MathLib, points: seq<Point>, i: nat): real
    requires i < |points|
  {
    math.sqrt(PointDistSq(points[i], points[Next(points, i)]))
  }

  /** The sum of the first n edge lengths. */
  function EdgeSum(math: MathLib, points: seq<Point>, n: nat): real
    requires n <= |points|
  {
    if n == 0 then 0.0 else EdgeSum(math, points, n - 1) + EdgeLength(math, points, n - 1)
  }

  function Perimeter(math: MathLib, points: seq<Point>): real {
    EdgeSum(math, points, |points|)
  }

  /** calculatePerimeter. */
  method CalculatePerimeter(math: MathLib, points: seq<Point>) returns (perimeter: real)
    ensures perimeter == Perimeter(math, points)
  {
    perimeter := 0.0;
    for i := 0 to |points|
      invariant perimeter == EdgeSum(math, points, i)
    {
      var j := (i + 1) % |points|;
      var dx := points[j].x - points[i].x;
      var dy := points[j].y - points[i].y;
      assert j == Next(points, i) && dx * dx + dy * dy == PointDistSq(points[i], points[j]);
      perimeter := perimeter + math.sqrt(dx * dx + dy * dy);
    }
  }

  // ---------------------------------------------------------------------
  // Zones

  /**
   * The zone type for a compactness of 4·π·area / perimeter². A zero
   * perimeter divides by zero: a positive numerator gives +Infinity (fill),
   * a negative one -Infinity (satin) and a zero one NaN, which fails both
   * comparisons (running).
   */
  function Classify(pi: real, area: real, perimeter: real): (r: ZoneType)
    ensures perimeter != 0.0 ==>
      var ratio := Compactness(pi, area, perimeter);
      (r == Fill <==> ratio > 0.8) && (r == Satin <==> ratio < 0.2) && (r == Running <==> 0.2 <= ratio <= 0.8)
    ensures perimeter == 0.0 ==>
      (r == Fill <==> pi * area > 0.0) && (r == Satin <==> pi * area < 0.0) && (r == Running <==> pi * area == 0.0)
  {
    var numerator := 4.0 * pi * area;
    if perimeter == 0.0 then
      (if numerator > 0.0 then Fill else if numerator < 0.0 then Satin else Running)
    else
      var ratio := Compactness(pi, area, perimeter);
      if ratio > 0.8 then Fill else if ratio < 0.2 then Satin else Running
  }

  /** 4·π·area / perimeter², for a non-zero perimeter. */
  function Compactness(pi: real, area: real, perimeter: real): real
    requires perimeter != 0.0
  {
    (4.0 * pi * area) / (perimeter * perimeter)
  }

  /** The zone of one contour, with no angle or density of its own. */
  function Zone(math: MathLib, contour: seq<Point>): StitchZone {
    StitchZone(contour, Classify(math.pi, Area(contour), Perimeter(math, contour)), None, None)
  }

  /** analyzeStitchZones. */
  function AnalyzeStitchZones(math: MathLib, contours: seq<seq<Point>>): (zones: seq<StitchZone>)
    ensures |zones| == |contours|
  {
    seq(|contours|, k requires 0 <= k < |contours| => Zone(math, contours[k]))
  }

  /** generateZoneStitches: the generator of the zone's type. */
  function ZoneStitches(gens: Generators, zone: StitchZone, settings: ConversionSettings): Result<seq<StitchPoint>, Error> {
    match zone.zoneType
    case Fill => gens.fill(zone.contour, settings)
    case Satin => gens.satin(zone.contour, settings)
    case Running => gens.running(zone.contour, settings)
  }

  // ---------------------------------------------------------------------
  // execute

  /** The stitches of the first zones and how many zones have run to completion. */
  datatype Run = Run(stitches: Result<seq<StitchPoint>, Error>, done: nat)

  /** The loop over the first n zones: stitches appended in order until a generator throws. */
  function Generated(gens: Generators, zones: seq<StitchZone>, settings: ConversionSettings, n: nat): (r: Run)
    requires n <= |zones|
    ensures r.done <= n
    ensures r.stitches.Success? ==> r.done == n
  {
    if n == 0 then Run(Success([]), 0)
    else
      var prev := Generated(gens, zones, settings, n - 1);
      if prev.stitches.Failure? then prev
      else
        match ZoneStitches(gens, zones[n - 1], settings)
        case Failure(e) => Run(Failure(e), prev.done)
        case Success(zs) => Run(Success(prev.stitches.value + zs), n)
  }

  /** The progress reported after k of n zones: the running sum of 100/n, rounded. */
  function Report(n: nat, k: nat): ProgressReport
    requires n > 0
  {
    ProgressReport("stitches", Round(Progress(n, k)) as real)
  }

  /** The progress after k of n zones: k times 100/n, summed one zone at a time. */
  function Progress(n: nat, k: nat): real
    requires n > 0
  {
    k as real * ((1.0 / n as real) * 100.0)
  }

  /** The reports after the first `done` of n zones. */
  function Reports(n: nat, done: nat): seq<ProgressReport>
    requires done <= n
  {
    if n == 0 then [] else seq(done, i requires 0 <= i < done => Report(n, i + 1))
  }

  /** The pattern built from the stitches. */
  function PatternOf(stitches: seq<StitchPoint>, settings: ConversionSettings, now: string): StitchPattern {
    StitchPattern(
      stitches,
      [settings.color],
      Dimensions(settings.width, settings.height),
      Metadata("Converted Pattern", now, "internal"))
  }

  /** execute's result. */
  function Executed(math: MathLib, gens: Generators, ctx: ConversionContext, now: string): Result<ConversionContext, Error> {
    match ctx.contours
    case None => Failure(ProcessingError(FailureMessage, Some(MissingContours)))
    case Some(contours) =>
      var zones := AnalyzeStitchZones(math, contours);
      match Generated(gens, zones, ctx.settings, |zones|).stitches
      case Failure(e) => Failure(ProcessingError(FailureMessage, Some(e)))
      case Success(stitches) => Success(ctx.(pattern := Some(PatternOf(stitches, ctx.settings, now))))
  }

  /** The calls execute makes to `onProgress`: one per completed zone, if a callback is given. */
  function ExecuteReports(math: MathLib, gens: Generators, ctx: ConversionContext): seq<ProgressReport> {
    match ctx.contours
    case None => []
    case Some(contours) =>
      var zones := AnalyzeStitchZones(math, contours);
      if ctx.hasProgressCallback then Reports(|zones|, Generated(gens, zones, ctx.settings, |zones|).done) else []
  }

  /** execute. */
  method Execute(math: MathLib, gens: Generators, ctx: ConversionContext, now: string)
    returns (r: Result<ConversionContext, Error>, reports: seq<ProgressReport>)
    ensures r == Executed(math, gens, ctx, now)
    ensures reports == ExecuteReports(math, gens, ctx)
  {
    if ctx.contours.None? {
      return Failure(ProcessingError(FailureMessage, Some(MissingContours))), [];
    }
    var zones := AnalyzeStitchZones(math, ctx.contours.value);
    var stitches;
    stitches, reports := GenerateZones(gens, zones, ctx.settings, ctx.hasProgressCallback);
    if stitches.Failure? {
      return Failure(ProcessingError(FailureMessage, Some(stitches.error))), reports;
    }
    r := Success(ctx.(pattern := Some(PatternOf(stitches.value, ctx.settings, now))));
  }

  /** The loop of execute over the zones, pushing each zone's stitches and reporting progress. */
  method GenerateZones(gens: Generators, zones: seq<StitchZone>, settings: ConversionSettings, hasProgressCallback: bool)
    returns (r: Result<seq<StitchPoint>, Error>, reports: seq<ProgressReport>)
    ensures var run := Generated(gens, zones, settings, |zones|);
      r == run.stitches && reports == if hasProgressCallback then Reports(|zones|, run.done) else []
  {
    var stitches: seq<StitchPoint> := [];
    var progress := 0.0;
    reports := [];
    var k := 0;
    while k < |zones|
      invariant k <= |zones|
      invariant Generated(gens, zones, settings, k) == Run(Success(stitches), k)
      invariant |zones| > 0 ==> progress == Progress(|zones|, k)
      invariant reports == if hasProgressCallback then Reports(|zones|, k) else []
    {
      var zoneStitches := ZoneStitches(gens, zones[k], settings);
      ZoneRun(gens, zones, settings, k, stitches);
      if zoneStitches.Failure? {
        FailurePersists(gens, zones, settings, k + 1, |zones|);
        return Failure(zoneStitches.error), reports;
      }
      stitches := stitches + zoneStitches.value;
      progress := progress + (1.0 / |zones| as real) * 100.0;
      ProgressStep(|zones|, k);
      if hasProgressCallback {
        reports := reports + [ProgressReport("stitches", Round(progress) as real)];
        ReportsStep(|zones|, k, progress);
      }
      k := k + 1;
    }
    r := Success(stitches);
  }

  /** The running sum after one more zone. */
  lemma ProgressStep(n: nat, k: nat)
    requires n > 0
    ensures Progress(n, k + 1) == Progress(n, k) + (1.0 / n as real) * 100.0
  {
  }

  /** The reports after one more completed zone. */
  lemma ReportsStep(n: nat, k: nat, progress: real)
    requires k < n && progress == Progress(n, k + 1)
    ensures Reports(n, k + 1) == Reports(n, k) + [ProgressReport("stitches", Round(progress) as real)]
  {
    assert Report(n, k + 1) == ProgressReport("stitches", Round(progress) as real);
  }

  /** Running zone k after k completed zones. */
  lemma ZoneRun(gens: Generators, zones: seq<StitchZone>, settings: ConversionSettings, k: nat, stitches: seq<StitchPoint>)
    requires k < |zones| && Generated(gens, zones, settings, k) == Run(Success(stitches), k)
    ensures var zs := ZoneStitches(gens, zones[k], settings);
      Generated(gens, zones, settings, k + 1) ==
        if zs.Failure? then Run(Failure(zs.error), k) else Run(Success(stitches + zs.value), k + 1)
  {
  }

  // ---------------------------------------------------------------------
  // Properties

  /** A polygon of one or two points encloses no area: its edges cancel. */
  lemma DegenerateArea(points: seq<Point>)
    requires |points| <= 2
    ensures Area(points) == 0.0
  {
    if |points| == 2 {
      assert Next(points, 0) == 1 && Next(points, 1) == 0;
      assert Shoelace(points, 1) == Cross(points, 0);
      assert Shoelace(points, 2) == Cross(points, 0) + Cross(points, 1);
    } else if |points| == 1 {
      assert Next(points, 0) == 0;
      assert Shoelace(points, 1) == Cross(points, 0);
    }
  }

  /**
   * A sanity check on one concrete input: the shoelace sum of the unit
   * square traced anticlockwise is 2, so its area is 1.
   */
  lemma UnitSquareArea()
    ensures Area([Point(0.0, 0.0), Point(1.0, 0.0), Point(1.0, 1.0), Point(0.0, 1.0)]) == 1.0
  {
    var sq := [Point(0.0, 0.0), Point(1.0, 0.0), Point(1.0, 1.0), Point(0.0, 1.0)];
    assert Next(sq, 0) == 1 && Next(sq, 1) == 2 && Next(sq, 2) == 3 && Next(sq, 3) == 0;
    assert Cross(sq, 0) == 0.0 && Cross(sq, 1) == 1.0 && Cross(sq, 2) == 1.0 && Cross(sq, 3) == 0.0;
    assert Shoelace(sq, 4) == Shoelace(sq, 3) + Cross(sq, 3);
    assert Shoelace(sq, 3) == Shoelace(sq, 2) + Cross(sq, 2);
    assert Shoelace(sq, 2) == Shoelace(sq, 1) + Cross(sq, 1);
  }

  /**
   * The perimeter counts every edge points[i] → points[i + 1] and then the
   * closing edge from the last point back to the first.
   */
  lemma PerimeterCloses(math: MathLib, points: seq<Point>)
    requires |points| > 0
    ensures var last := |points| - 1;
      Perimeter(math, points) ==
        EdgeSum(math, points, last) +
        math.sqrt(PointDistSq(points[last], points[0]))
  {
    var last := |points| - 1;
    assert Next(points, last) == 0;
    assert Perimeter(math, points) == EdgeSum(math, points, last) + EdgeLength(math, points, last);
  }

  /** Every edge but the closing one joins a point to the one after it. */
  lemma EdgesInOrder(points: seq<Point>, i: nat)
    requires i + 1 < |points|
    ensures Next(points, i) == i + 1
  {
  }

  /** With a square root that is never negative, neither is the perimeter. */
  lemma {:induction false} PerimeterNonNegative(math: MathLib, points: seq<Point>, n: nat)
    requires n <= |points|
    requires forall v :: math.sqrt(v) >= 0.0
    ensures EdgeSum(math, points, n) >= 0.0
  {
    if n > 0 {
      PerimeterNonNegative(math, points, n - 1);
    }
  }

  /**
   * There is one zone per contour, in contour order, with the contour
   * itself; a compactness above 0.8 makes a fill zone, one below 0.2 a
   * satin zone and anything from 0.2 to 0.8 inclusive a running zone.
   */
  lemma ZoneRules(math: MathLib, contours: seq<seq<Point>>, k: nat)
    requires k < |contours|
    ensures var zones := AnalyzeStitchZones(math, contours);
      var area := Area(contours[k]);
      var perimeter := Perimeter(math, contours[k]);
      zones[k].contour == contours[k] && zones[k].angle.None? && zones[k].density.None? &&
      (perimeter != 0.0 ==>
        var ratio := Compactness(math.pi, area, perimeter);
        (zones[k].zoneType == Fill <==> ratio > 0.8) &&
        (zones[k].zoneType == Satin <==> ratio < 0.2) &&
        (zones[k].zoneType == Running <==> 0.2 <= ratio <= 0.8))
  {
    var zones := AnalyzeStitchZones(math, contours);
    assert zones[k] == Zone(math, contours[k]);
  }

  /** When every one of the first n zones generates its stitches, the run completes them all, concatenated in zone order. */
  lemma {:induction false} AllGenerated(gens: Generators, zones: seq<StitchZone>, settings: ConversionSettings, n: nat)
    requires n <= |zones|
    requires forall i :: 0 <= i < n ==> ZoneStitches(gens, zones[i], settings).Success?
    ensures Generated(gens, zones, settings, n) ==
      Run(Success(Concat(seq(n, i requires 0 <= i < n => ZoneStitches(gens, zones[i], settings).value))), n)
  {
    if n > 0 {
      AllGenerated(gens, zones, settings, n - 1);
      var parts := seq(n, i requires 0 <= i < n => ZoneStitches(gens, zones[i], settings).value);
      var init := seq(n - 1, i requires 0 <= i < n - 1 => ZoneStitches(gens, zones[i], settings).value);
      assert parts[..n - 1] == init;
    }
  }

  /** Once a generator has thrown, the later zones change nothing. */
  lemma {:induction false} FailurePersists(gens: Generators, zones: seq<StitchZone>, settings: ConversionSettings, m: nat, n: nat)
    requires m <= n <= |zones| && Generated(gens, zones, settings, m).stitches.Failure?
    ensures Generated(gens, zones, settings, n) == Generated(gens, zones, settings, m)
    decreases n - m
  {
    if n > m {
      FailurePersists(gens, zones, settings, m, n - 1);
    }
  }

  /** A run over zones whose first failing one is f stops there, with f zones completed and that zone's error. */
  lemma FirstFailureStops(gens: Generators, zones: seq<StitchZone>, settings: ConversionSettings, f: nat, n: nat)
    requires f < n <= |zones| && ZoneStitches(gens, zones[f], settings).Failure?
    requires forall i :: 0 <= i < f ==> ZoneStitches(gens, zones[i], settings).Success?
    ensures Generated(gens, zones, settings, n) == Run(Failure(ZoneStitches(gens, zones[f], settings).error), f)
  {
    AllGenerated(gens, zones, settings, f);
    assert Generated(gens, zones, settings, f + 1) == Run(Failure(ZoneStitches(gens, zones[f], settings).error), f);
    FailurePersists(gens, zones, settings, f + 1, n);
  }

  /** After all n zones the rounded running sum reaches 100. */
  lemma FinalReport(n: nat)
    requires n > 0
    ensures Report(n, n) == ProgressReport("stitches", 100.0)
  {
    var m := n as real;
    var q := 1.0 / m;
    assert q * m == 1.0;
    RoundOfInt(100);
  }

  /**
   * execute fails exactly when the context has no contours or a zone
   * generator throws; every failure is the ProcessingError "Stitch
   * generation failed" wrapping the cause (the missing-contours error
   * included). On success only the pattern changes: it holds the stitches
   * the run concatenated, the settings' colour as its only colour and the
   * settings' size as its dimensions.
   */
  lemma ExecuteRules(math: MathLib, gens: Generators, ctx: ConversionContext, now: string)
    ensures ctx.contours.None? ==>
      Executed(math, gens, ctx, now) == Failure(ProcessingError("Stitch generation failed", Some(ProcessingError("Contours are required", None))))
    ensures ctx.contours.Some? ==>
      var zones := AnalyzeStitchZones(math, ctx.contours.value);
      (Executed(math, gens, ctx, now).Success? <==>
        forall i :: 0 <= i < |zones| ==> ZoneStitches(gens, zones[i], ctx.settings).Success?)
    ensures Executed(math, gens, ctx, now).Failure? ==>
      Executed(math, gens, ctx, now).error.ProcessingError? &&
      Executed(math, gens, ctx, now).error.message == "Stitch generation failed" &&
      Executed(math, gens, ctx, now).error.originalError.Some?
    ensures Executed(math, gens, ctx, now).Success? ==>
      var out := Executed(math, gens, ctx, now).value;
      var zones := AnalyzeStitchZones(math, ctx.contours.value);
      out == ctx.(pattern := out.pattern) && out.pattern.Some? &&
      out.pattern.value.stitches ==
        Concat(seq(|zones|, i requires 0 <= i < |zones| => ZoneStitches(gens, zones[i], ctx.settings).value)) &&
      out.pattern.value.colors == [ctx.settings.color] &&
      out.pattern.value.dimensions == Dimensions(ctx.settings.width, ctx.settings.height)
  {
    if ctx.contours.Some? {
      var zones := AnalyzeStitchZones(math, ctx.contours.value);
      if forall i :: 0 <= i < |zones| ==> ZoneStitches(gens, zones[i], ctx.settings).Success? {
        AllGenerated(gens, zones, ctx.settings, |zones|);
      } else {
        var f := FirstFailing(gens, zones, ctx.settings);
        FirstFailureStops(gens, zones, ctx.settings, f, |zones|);
      }
    }
  }

  /** Some zone fails, so there is a first one. */
  lemma FirstFailing(gens: Generators, zones: seq<StitchZone>, settings: ConversionSettings) returns (f: nat)
    requires exists i :: 0 <= i < |zones| && ZoneStitches(gens, zones[i], settings).Failure?
    ensures f < |zones| && ZoneStitches(gens, zones[f], settings).Failure?
    ensures forall i :: 0 <= i < f ==> ZoneStitches(gens, zones[i], settings).Success?
  {
    var g :| 0 <= g < |zones| && ZoneStitches(gens, zones[g], settings).Failure?;
    f := 0;
    while ZoneStitches(gens, zones[f], settings).Success?
      invariant f <= g
      invariant forall i :: 0 <= i < f ==> ZoneStitches(gens, zones[i], settings).Success?
      decreases g - f
    {
      f := f + 1;
    }
  }

  /**
   * With a callback, a successful execute reports once per contour, every
   * report under the stage "stitches", and the last one at 100 percent.
   */
  lemma ProgressReports(math: MathLib, gens: Generators, ctx: ConversionContext, now: string)
    requires ctx.contours.Some? && ctx.hasProgressCallback && Executed(math, gens, ctx, now).Success?
    ensures var reports := ExecuteReports(math, gens, ctx);
      |reports| == |ctx.contours.value| &&
      (forall i :: 0 <= i < |reports| ==> reports[i].stage == "stitches") &&
      (|reports| > 0 ==> reports[|reports| - 1] == ProgressReport("stitches", 100.0))
  {
    var n := |ctx.contours.value|;
    if n > 0 {
      FinalReport(n);
    }
  }
}
