/**
 * The library's data model: points, stitches, patterns, the settings the
 * conversion stages read, the error kinds they throw, and the ImageData
 * pixel buffer they consume and produce.
 */
module Types {
  import opened Wrappers
  import opened Numeric

  datatype Point = Point(x: real, y: real)

  /** The `type` field of a stitch. */
  datatype StitchType = Normal | Jump | Trim | Stop | End

  datatype StitchPoint = StitchPoint(x: real, y: real, kind: StitchType, color: string)

  datatype Dimensions = Dimensions(width: real, height: real)

  datatype Metadata = Metadata(name: string, date: string, format: string)

  datatype StitchPattern = StitchPattern(
    stitches: seq<StitchPoint>,
    colors: seq<string>,
    dimensions: Dimensions,
    metadata: Metadata)

  /**
   * A thrown error: a plain `Error` (including the RangeError and TypeError
   * the runtime raises) or a `ProcessingError`, which may carry the error it wraps.
   */
  datatype Error =
    | PlainError(message: string)
    | ProcessingError(message: string, originalError: Option<Error>)

  /**
   * The catch block shared by the pipeline stages: a ProcessingError is
   * rethrown as it is, any other error is wrapped in a ProcessingError with
   * the stage's message.
   */
  function Rethrow(e: Error, message: string): (r: Error)
    ensures r.ProcessingError?
    ensures e.ProcessingError? ==> r == e
    ensures !e.ProcessingError? ==> r.message == message && r.originalError == Some(e)
  {
    if e.ProcessingError? then e else ProcessingError(message, Some(e))
  }

  /** The conversion settings the pipeline stages read. */
  datatype ConversionSettings = ConversionSettings(
    width: real,
    height: real,
    density: real,
    angle: real,
    underlay: bool,
    pullCompensation: real,
    color: string)

  datatype ZoneType = Fill | Satin | Running

  datatype StitchZone = StitchZone(contour: seq<Point>, zoneType: ZoneType, angle: Option<real>, density: Option<real>)

  /** The last progress a stage announced. */
  datatype ConversionProgress = ConversionProgress(stage: string, percent: real)

  /**
   * What the pipeline hands from stage to stage: the input image and
   * settings and whatever the earlier stages produced. The `onProgress`
   * callback is kept only as whether one was given; the calls a stage makes
   * to it are returned beside the context.
   */
  datatype ConversionContext = ConversionContext(
    imageData: ImageData,
    settings: ConversionSettings,
    bitmap: Option<ImageData>,
    edges: Option<ImageData>,
    contours: Option<seq<seq<Point>>>,
    stitchZones: Option<seq<StitchZone>>,
    pattern: Option<StitchPattern>,
    progress: Option<ConversionProgress>,
    hasProgressCallback: bool)

  /** One call of the `onProgress` callback. */
  datatype ProgressReport = ProgressReport(stage: string, percent: real)

  /** An RGBA pixel buffer, four bytes per pixel in row-major order. */
  datatype ImageData = ImageData(width: nat, height: nat, data: seq<byte>)

  /** What the browser guarantees of every ImageData: its buffer holds exactly width·height pixels. */
  predicate WellFormed(img: ImageData) {
    |img.data| == 4 * (img.width * img.height)
  }

  /** Squared Euclidean distance between two positions. */
  function DistSq(x1: real, y1: real, x2: real, y2: real): (r: real)
    ensures r >= 0.0
  {
    (x2 - x1) * (x2 - x1) + (y2 - y1) * (y2 - y1)
  }

  function StitchDistSq(a: StitchPoint, b: StitchPoint): real {
    DistSq(a.x, a.y, b.x, b.y)
  }

  function PointDistSq(a: Point, b: Point): real {
    DistSq(a.x, a.y, b.x, b.y)
  }

  /** The number of stitches of a kind. */
  function CountKind(s: seq<StitchPoint>, kind: StitchType): (n: nat)
    ensures n <= |s|
  {
    if s == [] then 0 else CountKind(s[..|s| - 1], kind) + (if s[|s| - 1].kind == kind then 1 else 0)
  }

  /** Counting one more stitch. */
  lemma CountStep(s: seq<StitchPoint>, i: nat, kind: StitchType)
    requires i < |s|
    ensures CountKind(s[..i + 1], kind) == CountKind(s[..i], kind) + (if s[i].kind == kind then 1 else 0)
  {
    assert s[..i + 1][..i] == s[..i];
  }

  /** A stitch of the kind at i makes every count taken past it larger. */
  lemma {:induction false} CountGrows(s: seq<StitchPoint>, i: nat, j: nat, kind: StitchType)
    requires i < j <= |s| && s[i].kind == kind
    ensures CountKind(s[..j], kind) >= CountKind(s[..i], kind) + 1
    decreases j - i
  {
    if j == i + 1 {
      assert s[..j][..i] == s[..i];
    } else {
      CountGrows(s, i, j - 1, kind);
      assert s[..j][..j - 1] == s[..j - 1];
    }
  }

  /** No stitch of the kind, a count of zero. */
  lemma {:induction false} NoneCounted(s: seq<StitchPoint>, kind: StitchType)
    requires forall j :: 0 <= j < |s| ==> s[j].kind != kind
    ensures CountKind(s, kind) == 0
  {
    if s != [] {
      NoneCounted(s[..|s| - 1], kind);
    }
  }

  /** `value || fallback`: an absent or zero setting falls back to the default. */
  function OrDefault(v: Option<real>, fallback: real): (r: real)
    ensures v.None? || v.value == 0.0 ==> r == fallback
    ensures v.Some? && v.value != 0.0 ==> r == v.value
  {
    if v.None? || v.value == 0.0 then fallback else v.value
  }

  /** Whether every stitch is a normal one in the given colour. */
  predicate AllNormal(s: seq<StitchPoint>, color: string) {
    forall k :: 0 <= k < |s| ==> s[k].kind == Normal && s[k].color == color
  }

  lemma AllNormalAppend(a: seq<StitchPoint>, b: seq<StitchPoint>, color: string)
    requires AllNormal(a, color) && AllNormal(b, color)
    ensures AllNormal(a + b, color)
  {
    forall k | 0 <= k < |a + b|
      ensures (a + b)[k].kind == Normal && (a + b)[k].color == color
    {
      if k >= |a| {
        assert (a + b)[k] == b[k - |a|];
      }
    }
  }
}
