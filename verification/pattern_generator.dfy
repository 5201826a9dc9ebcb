/**
 * The pattern generator of src/lib/embroidery/conversion/PatternGenerator.ts:
 * contours are traced, simplified and smoothed, those with fewer than three
 * points are discarded, the stitch generator turns the rest into stitches, and
 * the result becomes a one-colour pattern of the requested size.
 *
 * Contour tracing, simplification, smoothing and stitch generation are
 * reached through the `Stages` parameter, the clock through `now`, and the
 * runtime's NaN test through `isNaN` (the model's reals have no NaN).
 */
module PatternGenerator {
  import opened Wrappers
  import opened Numeric
  import opened Types

  /** The calls generatePattern makes into other modules. */
  datatype Stages = Stages(
    findContours: ImageData -> Result<seq<seq<Point>>, Error>,
    simplifyContour: (seq<Point>, real) -> seq<Point>,
    smoothContour: (seq<Point>, real) -> seq<Point>,
    generateStitches: (seq<seq<Point>>, ConversionSettings) -> Result<seq<StitchPoint>, Error>)

  /** The message of the catch block's wrapper. */
  const FailureMessage := "Failed to generate pattern"

  /** A contour simplified with tolerance 1.0 and then smoothed with factor 0.5. */
  function Prepared(stages: Stages, contour: seq<Point>): seq<Point> {
    stages.smoothContour(stages.simplifyContour(contour, 1.0), 0.5)
  }

  /** `.filter(contour => contour.length >= 3)`. */
  function LongOnly(cs: seq<seq<Point>>): (r: seq<seq<Point>>)
    ensures |r| <= |cs|
    ensures forall k :: 0 <= k < |r| ==> |r[k]| >= 3
  {
    if cs == [] then []
    else LongOnly(cs[..|cs| - 1]) + (if |cs[|cs| - 1]| >= 3 then [cs[|cs| - 1]] else [])
  }

  /** The contours handed to the stitch generator. */
  function Contours(stages: Stages, raw: seq<seq<Point>>): seq<seq<Point>> {
    LongOnly(seq(|raw|, i requires 0 <= i < |raw| => Prepared(stages, raw[i])))
  }

  /** The body of the try block. */
  function Attempt(stages: Stages, img: ImageData, settings: ConversionSettings, now: string): Result<StitchPattern, Error> {
    match stages.findContours(img)
    case Failure(e) => Failure(e)
    case Success(raw) =>
      var contours := Contours(stages, raw);
      if |contours| == 0 then Failure(ProcessingError("No contours found in image", None))
      else
        match stages.generateStitches(contours, settings)
        case Failure(e) => Failure(e)
        case Success(stitches) =>
          if |stitches| == 0 then Failure(ProcessingError("No stitches generated from pattern", None))
          else Success(StitchPattern(
            stitches,
            [settings.color],
            Dimensions(settings.width, settings.height),
            Metadata("Converted Pattern", now, "internal")))
  }

  /**
   * generatePattern: the try block with its catch. Every failure leaves as
   * a ProcessingError; a pattern has stitches, the settings' colour as its
   * only colour and the settings' size.
   */
  function GeneratePattern(stages: Stages, img: ImageData, settings: ConversionSettings, now: string): (r: Result<StitchPattern, Error>)
    ensures r.Failure? ==> r.error.ProcessingError?
    ensures r.Success? ==>
      |r.value.stitches| > 0 && r.value.colors == [settings.color] &&
      r.value.dimensions == Dimensions(settings.width, settings.height)
  {
    match Attempt(stages, img, settings, now)
    case Success(p) => Success(p)
    case Failure(e) => Failure(Rethrow(e, FailureMessage))
  }

  /** The index of the first stitch from `from` on with a NaN coordinate, if any. */
  function FirstNaN(s: seq<StitchPoint>, isNaN: real -> bool, from: nat): Option<nat>
    requires from <= |s|
    decreases |s| - from
  {
    if from == |s| then None
    else if isNaN(s[from].x) || isNaN(s[from].y) then Some(from)
    else FirstNaN(s, isNaN, from + 1)
  }

  /**
   * validatePattern: the first check that fails, as the error it throws,
   * always a ProcessingError of its own; a pattern that passes has
   * stitches, colours and a positive width and height.
   */
  function ValidatePattern(p: StitchPattern, isNaN: real -> bool): (r: Option<Error>)
    ensures r.Some? ==> r.value.ProcessingError? && r.value.originalError.None?
    ensures r.None? ==> |p.stitches| > 0 && |p.colors| > 0 && p.dimensions.width > 0.0 && p.dimensions.height > 0.0
  {
    if |p.stitches| == 0 then Some(ProcessingError("Pattern has no stitches", None))
    else if |p.colors| == 0 then Some(ProcessingError("Pattern has no colors", None))
    else if p.dimensions.width <= 0.0 || p.dimensions.height <= 0.0 then
      Some(ProcessingError("Invalid pattern dimensions", None))
    else
      match FirstNaN(p.stitches, isNaN, 0)
      case Some(i) => Some(ProcessingError("Invalid stitch coordinates at index " + Decimal(i), None))
      case None => None
  }

  // ---------------------------------------------------------------------
  // Properties

  /** Every contour the filter keeps is one of its input's. */
  lemma {:induction false} LongOnlyFromInput(cs: seq<seq<Point>>)
    ensures forall c :: c in LongOnly(cs) ==> c in cs
  {
    if cs != [] {
      var n := |cs| - 1;
      LongOnlyFromInput(cs[..n]);
      assert forall c :: c in cs[..n] ==> c in cs;
    }
  }

  /** A contour of three points or more survives the filter. */
  lemma {:induction false} LongOnlyKeepsLong(cs: seq<seq<Point>>, i: nat)
    requires i < |cs| && |cs[i]| >= 3
    ensures cs[i] in LongOnly(cs)
  {
    var n := |cs| - 1;
    if i < n {
      LongOnlyKeepsLong(cs[..n], i);
    }
  }

  /** The filter leaves nothing exactly when no contour has three points. */
  lemma LongOnlyEmpty(cs: seq<seq<Point>>)
    ensures LongOnly(cs) == [] <==> forall i :: 0 <= i < |cs| ==> |cs[i]| < 3
  {
    if LongOnly(cs) == [] {
      forall i | 0 <= i < |cs|
        ensures |cs[i]| < 3
      {
        if |cs[i]| >= 3 {
          LongOnlyKeepsLong(cs, i);
        }
      }
    } else {
      LongOnlyFromInput(cs);
      var c := LongOnly(cs)[0];
      assert c in cs;
    }
  }

  /**
   * A pattern is generated exactly when tracing succeeds, some prepared
   * contour has three points or more, and the stitch generator returns
   * stitches for them; it then has those stitches, the settings' colour
   * as its only colour and the settings' size as its dimensions.
   */
  lemma GeneratedPattern(stages: Stages, img: ImageData, settings: ConversionSettings, now: string)
    ensures var r := GeneratePattern(stages, img, settings, now);
      r.Success? <==>
        (stages.findContours(img).Success? &&
         Contours(stages, stages.findContours(img).value) != [] &&
         stages.generateStitches(Contours(stages, stages.findContours(img).value), settings).Success? &&
         stages.generateStitches(Contours(stages, stages.findContours(img).value), settings).value != [])
    ensures var r := GeneratePattern(stages, img, settings, now);
      r.Success? ==>
        r.value.stitches == stages.generateStitches(Contours(stages, stages.findContours(img).value), settings).value &&
        r.value.colors == [settings.color] &&
        r.value.dimensions == Dimensions(settings.width, settings.height) &&
        r.value.metadata == Metadata("Converted Pattern", now, "internal")
  {
  }

  /**
   * Every failure is a ProcessingError: the generator's own checks name the
   * missing contours or stitches, and an error thrown by a stage is passed on
   * when it is a ProcessingError and wrapped otherwise.
   */
  lemma GenerationFailures(stages: Stages, img: ImageData, settings: ConversionSettings, now: string)
    ensures var r := GeneratePattern(stages, img, settings, now);
      r.Failure? ==> r.error.ProcessingError?
    ensures var r := GeneratePattern(stages, img, settings, now);
      stages.findContours(img).Failure? ==> r == Failure(Rethrow(stages.findContours(img).error, FailureMessage))
    ensures var r := GeneratePattern(stages, img, settings, now);
      stages.findContours(img).Success? &&
      (forall i :: 0 <= i < |stages.findContours(img).value| ==> |Prepared(stages, stages.findContours(img).value[i])| < 3) ==>
        r == Failure(ProcessingError("No contours found in image", None))
    ensures var r := GeneratePattern(stages, img, settings, now);
      stages.findContours(img).Success? && Contours(stages, stages.findContours(img).value) != [] &&
      stages.generateStitches(Contours(stages, stages.findContours(img).value), settings) == Success([]) ==>
        r == Failure(ProcessingError("No stitches generated from pattern", None))
  {
    if stages.findContours(img).Success? {
      var raw := stages.findContours(img).value;
      LongOnlyEmpty(seq(|raw|, i requires 0 <= i < |raw| => Prepared(stages, raw[i])));
    }
  }

  /** FirstNaN finds the earliest stitch with a NaN coordinate. */
  lemma {:induction false} FirstNaNIsFirst(s: seq<StitchPoint>, isNaN: real -> bool, from: nat)
    requires from <= |s|
    ensures FirstNaN(s, isNaN, from).None? <==> forall k :: from <= k < |s| ==> !isNaN(s[k].x) && !isNaN(s[k].y)
    ensures FirstNaN(s, isNaN, from).Some? ==>
      var i := FirstNaN(s, isNaN, from).value;
      from <= i < |s| && (isNaN(s[i].x) || isNaN(s[i].y)) &&
      forall k :: from <= k < i ==> !isNaN(s[k].x) && !isNaN(s[k].y)
    decreases |s| - from
  {
    if from < |s| {
      FirstNaNIsFirst(s, isNaN, from + 1);
    }
  }

  /**
   * validatePattern accepts exactly the patterns with stitches, colours, a
   * positive width and height and no NaN coordinate; otherwise it reports
   * the first failed check, naming the first stitch with a NaN coordinate.
   */
  lemma ValidationRules(p: StitchPattern, isNaN: real -> bool)
    ensures ValidatePattern(p, isNaN).None? <==>
      |p.stitches| > 0 && |p.colors| > 0 && p.dimensions.width > 0.0 && p.dimensions.height > 0.0 &&
      forall k :: 0 <= k < |p.stitches| ==> !isNaN(p.stitches[k].x) && !isNaN(p.stitches[k].y)
    ensures |p.stitches| == 0 ==> ValidatePattern(p, isNaN) == Some(ProcessingError("Pattern has no stitches", None))
    ensures |p.stitches| > 0 && |p.colors| == 0 ==>
      ValidatePattern(p, isNaN) == Some(ProcessingError("Pattern has no colors", None))
    ensures |p.stitches| > 0 && |p.colors| > 0 && (p.dimensions.width <= 0.0 || p.dimensions.height <= 0.0) ==>
      ValidatePattern(p, isNaN) == Some(ProcessingError("Invalid pattern dimensions", None))
    ensures forall i ::
      (0 <= i < |p.stitches| && (isNaN(p.stitches[i].x) || isNaN(p.stitches[i].y)) &&
       (forall k :: 0 <= k < i ==> !isNaN(p.stitches[k].x) && !isNaN(p.stitches[k].y)) &&
       |p.colors| > 0 && p.dimensions.width > 0.0 && p.dimensions.height > 0.0) ==>
        ValidatePattern(p, isNaN) == Some(ProcessingError("Invalid stitch coordinates at index " + Decimal(i), None))
  {
    FirstNaNIsFirst(p.stitches, isNaN, 0);
  }
}
