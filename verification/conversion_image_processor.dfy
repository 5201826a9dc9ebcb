/**
 * The grayscale stage of src/lib/embroidery/conversion/ImageProcessor.ts:
 * every pixel's luminance goes into R, G and B and its alpha is copied. Any
 * error inside the stage, whatever its kind, is wrapped in a ProcessingError
 * named "Failed to process image".
 */
module ConversionImageProcessor {
  import opened Wrappers
  import opened Types
  import opened Raster

  /** What processImage resolves to. */
  datatype Processed = Processed(width: nat, height: nat, processedData: ImageData)

  const FailureMessage := "Failed to process image"

  /** processImage's result: the grayscale copy, or the wrapped constructor error for an empty image. */
  function Processing(img: ImageData): Result<Processed, Error>
    requires WellFormed(img)
  {
    if img.width == 0 || img.height == 0 then Failure(ProcessingError(FailureMessage, Some(EmptyDataError)))
    else Success(Processed(img.width, img.height, Grayscale(img)))
  }

  /** processImage. */
  method ProcessImage(img: ImageData) returns (r: Result<Processed, Error>)
    requires WellFormed(img)
    ensures r == Processing(img)
  {
    if img.width == 0 || img.height == 0 {
      return Failure(ProcessingError(FailureMessage, Some(EmptyDataError)));
    }
    var gray := GrayscaleImage(img);
    r := Success(Processed(img.width, img.height, ImageData(img.width, img.height, gray[..])));
  }

  /**
   * processImage succeeds exactly on a non-empty image. The result then has
   * the input's width and height, and each pixel holds its luminance in R, G
   * and B and the input's alpha. Otherwise it fails with a ProcessingError
   * wrapping the constructor's error.
   */
  lemma ProcessedImage(img: ImageData)
    requires WellFormed(img)
    ensures Processing(img).Success? <==> img.width > 0 && img.height > 0
    ensures Processing(img).Failure? ==>
      Processing(img).error == ProcessingError("Failed to process image", Some(PlainError("InvalidStateError")))
    ensures Processing(img).Success? ==>
      var out := Processing(img).value;
      out.width == img.width && out.height == img.height &&
      out.processedData.width == img.width && out.processedData.height == img.height &&
      WellFormed(out.processedData) &&
      forall p :: 0 <= p < img.width * img.height ==>
        var d := img.data;
        var g := Gray(d[4 * p], d[4 * p + 1], d[4 * p + 2]);
        4 * p + 4 <= |d| && out.processedData.data[4 * p..4 * p + 4] == [g, g, g, d[4 * p + 3]]
  {
    if img.width > 0 && img.height > 0 {
      forall p | 0 <= p < img.width * img.height
        ensures var d := img.data;
          var g := Gray(d[4 * p], d[4 * p + 1], d[4 * p + 2]);
          4 * p + 4 <= |d| && GrayscaleData(d)[4 * p..4 * p + 4] == [g, g, g, d[4 * p + 3]]
      {
        GrayscalePixel(img.data, p);
      }
    }
  }
}
