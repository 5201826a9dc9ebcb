/**
 * The bitmap stage of src/lib/embroidery/conversion/steps/BitmapStep.ts: the
 * input image is turned to grayscale, the adaptive threshold with a window
 * of 11 and a C of 2 makes it black and white, and the result is added to
 * the context as its bitmap after one progress report.
 */
module BitmapStep {
  import opened Wrappers
  import opened Types
  import opened Raster
  import Threshold

  const FailureMessage := "Failed to process bitmap"
  const WindowSize := 11
  const C := 2.0

  /** execute's result: the context with its bitmap set, or the wrapped error. */
  function Executed(ctx: ConversionContext): Result<ConversionContext, Error>
    requires WellFormed(ctx.imageData)
  {
    var img := ctx.imageData;
    if img.width == 0 || img.height == 0 then Failure(ProcessingError(FailureMessage, Some(EmptyDataError)))
    else
      match Threshold.Thresholded(Grayscale(img), WindowSize, C)
      case Failure(e) => Failure(ProcessingError(FailureMessage, Some(e)))
      case Success(bitmap) => Success(ctx.(bitmap := Some(bitmap)))
  }

  /** The calls execute makes to `onProgress`: one, after the threshold, if a callback is given. */
  function Reports(ctx: ConversionContext): seq<ProgressReport>
    requires WellFormed(ctx.imageData)
  {
    if Executed(ctx).Success? && ctx.hasProgressCallback then [ProgressReport("bitmap", 100.0)] else []
  }

  /** execute. */
  method Execute(ctx: ConversionContext) returns (r: Result<ConversionContext, Error>, reports: seq<ProgressReport>)
    requires WellFormed(ctx.imageData)
    ensures r == Executed(ctx) && reports == Reports(ctx)
  {
    var img := ctx.imageData;
    if img.width == 0 || img.height == 0 {
      return Failure(ProcessingError(FailureMessage, Some(EmptyDataError))), [];
    }
    var data := GrayscaleImage(img);
    var grayscale := ImageData(img.width, img.height, data[..]);
    var bitmap := Threshold.AdaptiveThreshold(grayscale, WindowSize, C);
    assert bitmap.Success?;
    reports := if ctx.hasProgressCallback then [ProgressReport("bitmap", 100.0)] else [];
    r := Success(ctx.(bitmap := Some(bitmap.value)));
  }

  /**
   * execute succeeds exactly on a non-empty image. It then changes nothing
   * in the context but the bitmap, which is the adaptive threshold of the
   * grayscale copy, and it reports ("bitmap", 100) once when a callback is
   * given. A failure is a ProcessingError named "Failed to process bitmap"
   * wrapping the error of the grayscale image's constructor, and reports
   * nothing.
   */
  lemma BitmapRules(ctx: ConversionContext)
    requires WellFormed(ctx.imageData)
    ensures var img := ctx.imageData;
      Executed(ctx).Success? <==> img.width > 0 && img.height > 0
    ensures Executed(ctx).Failure? ==>
      Executed(ctx).error == ProcessingError("Failed to process bitmap", Some(EmptyDataError)) && Reports(ctx) == []
    ensures Executed(ctx).Success? ==>
      var out := Executed(ctx).value;
      out == ctx.(bitmap := out.bitmap) && out.bitmap.Some? &&
      out.bitmap.value == Threshold.Thresholded(Grayscale(ctx.imageData), 11, 2.0).value &&
      Reports(ctx) == if ctx.hasProgressCallback then [ProgressReport("bitmap", 100.0)] else []
  {
    var img := ctx.imageData;
    if img.width > 0 && img.height > 0 {
      Threshold.ThresholdedImage(Grayscale(img), WindowSize, C);
    }
  }

  /**
   * The bitmap has the image's size and, at every pixel, black or white by
   * the adaptive threshold (half-window 5, C = 2) of the grayscale copy in
   * R, G and B, with an alpha of 255.
   */
  lemma BitmapPixels(ctx: ConversionContext)
    requires WellFormed(ctx.imageData) && Executed(ctx).Success?
    ensures var img := ctx.imageData;
      var bitmap := Executed(ctx).value.bitmap;
      bitmap.Some? && bitmap.value.width == img.width && bitmap.value.height == img.height &&
      WellFormed(bitmap.value) &&
      forall y, x :: 0 <= y < img.height && 0 <= x < img.width ==>
        var v := Threshold.PixelValue(Grayscale(img), 5, 2.0, y, x);
        var p := PixelIndex(img.width, y, x);
        0 <= p && 4 * p + 4 <= |bitmap.value.data| &&
        bitmap.value.data[4 * p..4 * p + 4] == [v, v, v, 255] && (v == 0 || v == 255)
  {
    var img := ctx.imageData;
    var gray := Grayscale(img);
    Threshold.ThresholdedImage(gray, 11, 2.0);
    assert 11 / 2 == 5;
    var out := Threshold.Thresholded(gray, 11, 2.0).value;
    assert Executed(ctx).value.bitmap == Some(out);
  }
}
