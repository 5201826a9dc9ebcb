/**
 * The pipeline's format converter (src/lib/embroidery/conversion/FormatConverter.ts):
 * the same checks, normalisation and dispatch as the plain converter, but
 * every failure leaves it as a ProcessingError.
 */
module FormatConversion {
  import opened Wrappers
  import opened Numeric
  import opened Types
  import Converter
  import Dst
  import Pes
  import Jef
  import Exp
  import Vp3
  import Hus
  import Qcc

  /** validatePattern, raising ProcessingError. */
  function Validate(p: StitchPattern): (r: Option<Error>)
    ensures r.None? <==> |p.stitches| > 0 && p.dimensions.width != 0.0 && p.dimensions.height != 0.0 && |p.colors| > 0
  {
    if |p.stitches| == 0 then Some(ProcessingError("Pattern must contain stitches", None))
    else if p.dimensions.width == 0.0 || p.dimensions.height == 0.0 then Some(ProcessingError("Pattern must have valid dimensions", None))
    else if |p.colors| == 0 then Some(ProcessingError("Pattern must have at least one color", None))
    else None
  }

  /**
   * The body of the try block. convertToMachineFormat is the same code as in
   * the plain converter, so the model shares Converter.MachinePattern.
   */
  function Attempt(p: StitchPattern, format: string, pat: StitchPattern -> seq<byte>): Result<seq<byte>, Error> {
    match Validate(p)
    case Some(e) => Failure(e)
    case None =>
      var m := Converter.MachinePattern(p);
      if format == "dst" then Dst.DstFile(m)
      else if format == "pes" then Pes.PesFile(m)
      else if format == "jef" then Success(Jef.JefFile(m))
      else if format == "exp" then Success(Exp.ExpStream(m.stitches))
      else if format == "vp3" then Success(Vp3.Vp3File(m))
      else if format == "hus" then Success(Hus.HusFile(m))
      else if format == "pat" then Success(pat(m))
      else if format == "qcc" then Success(Qcc.QccFile(m))
      else Failure(ProcessingError("Unsupported format: " + format, None))
  }

  /** The message a wrapped error gets in this converter's catch block. */
  const FailureMessage := "Failed to convert pattern format"

  /**
   * convertToFormat: the try block, with any error leaving it as a
   * ProcessingError. A validation error leaves unchanged, and only a valid
   * pattern with one of the eight tags gives bytes.
   */
  function ConvertToFormat(p: StitchPattern, format: string, pat: StitchPattern -> seq<byte>): (r: Result<seq<byte>, Error>)
    ensures r.Failure? ==> r.error.ProcessingError?
    ensures Validate(p).Some? ==> r == Failure(Validate(p).value)
    ensures r.Success? ==> Validate(p).None? && format in Converter.SupportedFormats
  {
    match Attempt(p, format, pat)
    case Success(bytes) => Success(bytes)
    case Failure(e) => Failure(Rethrow(e, FailureMessage))
  }

  // ---------------------------------------------------------------------
  // Properties

  /**
   * An empty stitch list, a zero width or height, or an empty colour list
   * fails with the guard's ProcessingError, whatever the tag.
   */
  lemma ValidationErrors(p: StitchPattern, format: string, pat: StitchPattern -> seq<byte>)
    ensures |p.stitches| == 0 ==>
      ConvertToFormat(p, format, pat) == Failure(ProcessingError("Pattern must contain stitches", None))
    ensures |p.stitches| > 0 && (p.dimensions.width == 0.0 || p.dimensions.height == 0.0) ==>
      ConvertToFormat(p, format, pat) == Failure(ProcessingError("Pattern must have valid dimensions", None))
    ensures |p.stitches| > 0 && p.dimensions.width != 0.0 && p.dimensions.height != 0.0 && |p.colors| == 0 ==>
      ConvertToFormat(p, format, pat) == Failure(ProcessingError("Pattern must have at least one color", None))
  {
  }

  /** An unknown tag on a valid pattern fails with the ProcessingError "Unsupported format", unwrapped. */
  lemma UnsupportedFormat(p: StitchPattern, format: string, pat: StitchPattern -> seq<byte>)
    requires Validate(p).None?
    requires format !in Converter.SupportedFormats
    ensures ConvertToFormat(p, format, pat) == Failure(ProcessingError("Unsupported format: " + format, None))
  {
  }

  /**
   * Against the plain converter: the same pattern and tag give the same
   * bytes, and a failure there is this converter's failure passed through
   * the catch block.
   */
  lemma AgreesWithConverter(p: StitchPattern, format: string, pat: StitchPattern -> seq<byte>)
    ensures Converter.Validate(p).None? <==> Validate(p).None?
    ensures Converter.ConvertToFormat(p, format, pat).Success? <==> ConvertToFormat(p, format, pat).Success?
    ensures ConvertToFormat(p, format, pat).Success? ==>
      ConvertToFormat(p, format, pat) == Converter.ConvertToFormat(p, format, pat)
    ensures Validate(p).None? && Converter.ConvertToFormat(p, format, pat).Failure? && format in {"dst", "pes"} ==>
      ConvertToFormat(p, format, pat) == Failure(Rethrow(Converter.ConvertToFormat(p, format, pat).error, FailureMessage))
  {
  }
}
