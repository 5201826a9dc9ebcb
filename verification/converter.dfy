/**
 * The format converter (src/lib/embroidery/formats/converter.ts): it checks
 * a pattern, moves it to non-negative 0.1 mm machine units and hands it to
 * the writer named by the format tag. Errors reach the caller unchanged.
 */
module Converter {
  import opened Wrappers
  import opened Numeric
  import opened Types
  import Dst
  import Pes
  import Jef
  import Exp
  import Vp3
  import Hus
  import Qcc

  /**
   * validatePattern: the first failed guard's error, if any. A dimension is
   * rejected when it is falsy, that is zero; a negative one passes.
   */
  function Validate(p: StitchPattern): (r: Option<Error>)
    ensures r.None? <==> |p.stitches| > 0 && p.dimensions.width != 0.0 && p.dimensions.height != 0.0 && |p.colors| > 0
  {
    if |p.stitches| == 0 then Some(PlainError("Pattern must contain stitches"))
    else if p.dimensions.width == 0.0 || p.dimensions.height == 0.0 then Some(PlainError("Pattern must have valid dimensions"))
    else if |p.colors| == 0 then Some(PlainError("Pattern must have at least one color"))
    else None
  }

  function Xs(s: seq<StitchPoint>): (xs: seq<real>)
    ensures |xs| == |s| && forall i :: 0 <= i < |s| ==> xs[i] == s[i].x
  {
    seq(|s|, i requires 0 <= i < |s| => s[i].x)
  }

  function Ys(s: seq<StitchPoint>): (ys: seq<real>)
    ensures |ys| == |s| && forall i :: 0 <= i < |s| ==> ys[i] == s[i].y
  {
    seq(|s|, i requires 0 <= i < |s| => s[i].y)
  }

  /** One stitch in machine units: `Math.round((v - min) * 10)` on each axis, all else kept. */
  function MachineStitch(t: StitchPoint, minX: real, minY: real): StitchPoint {
    t.(x := Round((t.x - minX) * 10.0) as real, y := Round((t.y - minY) * 10.0) as real)
  }

  /** convertToMachineFormat. */
  function MachinePattern(p: StitchPattern): (m: StitchPattern)
    requires |p.stitches| > 0
    ensures |m.stitches| == |p.stitches| && Dst.MachineCoordinates(m.stitches)
  {
    var minX := Minimum(Xs(p.stitches));
    var minY := Minimum(Ys(p.stitches));
    p.(stitches := seq(|p.stitches|, i requires 0 <= i < |p.stitches| => MachineStitch(p.stitches[i], minX, minY)),
       dimensions := Dimensions(Round(p.dimensions.width * 10.0) as real, Round(p.dimensions.height * 10.0) as real))
  }

  /** The eight format tags convertToFormat dispatches on. */
  const SupportedFormats: set<string> := {"dst", "pes", "jef", "exp", "vp3", "hus", "pat", "qcc"}

  /**
   * convertToFormat: validation, normalisation, then the writer for the tag.
   * An invalid pattern fails with its validation error whatever the tag; a
   * valid one with an unknown tag fails with "Unsupported format"; the
   * writers that cannot fail always give bytes for a valid pattern.
   */
  function ConvertToFormat(p: StitchPattern, format: string, pat: StitchPattern -> seq<byte>): (r: Result<seq<byte>, Error>)
    ensures Validate(p).Some? ==> r == Failure(Validate(p).value)
    ensures Validate(p).None? && format !in SupportedFormats ==> r == Failure(PlainError("Unsupported format: " + format))
    ensures Validate(p).None? && format in SupportedFormats - {"dst", "pes"} ==> r.Success?
    ensures r.Success? ==> Validate(p).None? && format in SupportedFormats
  {
    match Validate(p)
    case Some(e) => Failure(e)
    case None =>
      var m := MachinePattern(p);
      if format == "dst" then Dst.DstFile(m)
      else if format == "pes" then Pes.PesFile(m)
      else if format == "jef" then Success(Jef.JefFile(m))
      else if format == "exp" then Success(Exp.ExpStream(m.stitches))
      else if format == "vp3" then Success(Vp3.Vp3File(m))
      else if format == "hus" then Success(Hus.HusFile(m))
      else if format == "pat" then Success(pat(m))
      else if format == "qcc" then Success(Qcc.QccFile(m))
      else Failure(PlainError("Unsupported format: " + format))
  }

  // ---------------------------------------------------------------------
  // Properties

  /**
   * Normalisation keeps every stitch's type and colour in order, puts every
   * coordinate at 0 or more, and multiplies the dimensions by ten with
   * rounding; colours and metadata are untouched.
   */
  lemma MachineUnits(p: StitchPattern)
    requires |p.stitches| > 0
    ensures var m := MachinePattern(p);
      && |m.stitches| == |p.stitches|
      && (forall i :: 0 <= i < |m.stitches| ==>
            && m.stitches[i].kind == p.stitches[i].kind && m.stitches[i].color == p.stitches[i].color
            && m.stitches[i].x >= 0.0 && m.stitches[i].y >= 0.0)
      && m.dimensions == Dimensions(Round(p.dimensions.width * 10.0) as real, Round(p.dimensions.height * 10.0) as real)
      && m.colors == p.colors && m.metadata == p.metadata
  {
    var s := p.stitches;
    var m := MachinePattern(p);
    var minX := Minimum(Xs(s));
    var minY := Minimum(Ys(s));
    forall i | 0 <= i < |s|
      ensures m.stitches[i].x >= 0.0 && m.stitches[i].y >= 0.0
    {
      assert m.stitches[i] == MachineStitch(s[i], minX, minY);
      assert Xs(s)[i] == s[i].x && Ys(s)[i] == s[i].y;
      RoundNonNegative((s[i].x - minX) * 10.0);
      RoundNonNegative((s[i].y - minY) * 10.0);
    }
  }

  /** Both axes reach 0: the stitches at the minimum x and the minimum y land there. */
  lemma MachineMinimumZero(p: StitchPattern)
    requires |p.stitches| > 0
    ensures var m := MachinePattern(p);
      && (exists i :: 0 <= i < |m.stitches| && m.stitches[i].x == 0.0)
      && (exists j :: 0 <= j < |m.stitches| && m.stitches[j].y == 0.0)
  {
    var s := p.stitches;
    var m := MachinePattern(p);
    var minX := Minimum(Xs(s));
    var minY := Minimum(Ys(s));
    var i :| 0 <= i < |s| && Xs(s)[i] == minX;
    var j :| 0 <= j < |s| && Ys(s)[j] == minY;
    assert m.stitches[i] == MachineStitch(s[i], minX, minY);
    assert m.stitches[j] == MachineStitch(s[j], minX, minY);
    assert s[i].x - minX == 0.0 && s[j].y - minY == 0.0;
    assert Round(0.0 * 10.0) == 0;
    assert m.stitches[i].x == 0.0 && m.stitches[j].y == 0.0;
  }

  lemma RoundNonNegative(x: real)
    requires x >= 0.0
    ensures Round(x) >= 0
  {
  }

  /**
   * A pattern is refused, with the first failing guard's message, when it has
   * no stitches, a zero width or height, or no colours; a negative size passes.
   */
  lemma ValidationErrors(p: StitchPattern)
    ensures |p.stitches| == 0 ==> Validate(p) == Some(PlainError("Pattern must contain stitches"))
    ensures |p.stitches| > 0 && (p.dimensions.width == 0.0 || p.dimensions.height == 0.0)
      ==> Validate(p) == Some(PlainError("Pattern must have valid dimensions"))
    ensures |p.stitches| > 0 && p.dimensions.width != 0.0 && p.dimensions.height != 0.0 && |p.colors| == 0
      ==> Validate(p) == Some(PlainError("Pattern must have at least one color"))
    ensures |p.stitches| > 0 && |p.colors| > 0 && p.dimensions.width < 0.0 && p.dimensions.height < 0.0
      ==> Validate(p).None?
  {
  }

  /**
   * A valid pattern is normalised and sent to the writer its tag names; an
   * invalid one fails with the validation error whatever the tag; an unknown
   * tag fails with "Unsupported format".
   */
  lemma Dispatch(p: StitchPattern, format: string, pat: StitchPattern -> seq<byte>)
    ensures Validate(p).Some? ==> ConvertToFormat(p, format, pat) == Failure(Validate(p).value)
    ensures Validate(p).None? ==>
      var m := MachinePattern(p);
      && (format == "dst" ==> ConvertToFormat(p, format, pat) == Dst.DstFile(m))
      && (format == "pes" ==> ConvertToFormat(p, format, pat) == Pes.PesFile(m))
      && (format == "jef" ==> ConvertToFormat(p, format, pat) == Success(Jef.JefFile(m)))
      && (format == "exp" ==> ConvertToFormat(p, format, pat) == Success(Exp.ExpStream(m.stitches)))
      && (format == "vp3" ==> ConvertToFormat(p, format, pat) == Success(Vp3.Vp3File(m)))
      && (format == "hus" ==> ConvertToFormat(p, format, pat) == Success(Hus.HusFile(m)))
      && (format == "pat" ==> ConvertToFormat(p, format, pat) == Success(pat(m)))
      && (format == "qcc" ==> ConvertToFormat(p, format, pat) == Success(Qcc.QccFile(m)))
  {
  }

  /** A tag outside the eight fails with "Unsupported format" once the pattern is valid. */
  lemma UnsupportedFormat(p: StitchPattern, format: string, pat: StitchPattern -> seq<byte>)
    requires Validate(p).None?
    requires format !in SupportedFormats
    ensures ConvertToFormat(p, format, pat) == Failure(PlainError("Unsupported format: " + format))
  {
  }
}
