/**
 * The unit and sizing arithmetic of src/lib/embroidery/math.ts: millimetres
 * and typographic points (1 mm = 2.83465 pt), a stitch count for an area and
 * a stitch length chosen from a curve's radius.
 */
module EmbroideryMath {
  import opened Numeric

  /** Points per millimetre. */
  const PointsPerMm: real := 2.83465

  /** mmToPoints: dividing the result by the points per millimetre gives the length back. */
  function MmToPoints(mm: real): (points: real)
    ensures points / PointsPerMm == mm
    ensures points >= 0.0 <==> mm >= 0.0
  {
    mm * PointsPerMm
  }

  /** pointsToMm: multiplying the result by the points per millimetre gives the length back. */
  function PointsToMm(points: real): (mm: real)
    ensures mm * PointsPerMm == points
    ensures mm >= 0.0 <==> points >= 0.0
  {
    points / PointsPerMm
  }

  /** The two conversions are inverse to each other, in both orders. */
  lemma UnitsRoundTrip(mm: real, points: real)
    ensures PointsToMm(MmToPoints(mm)) == mm
    ensures MmToPoints(PointsToMm(points)) == points
  {
  }

  /**
   * calculateStitchDensity: `Math.round(width * height * stitchesPerMm2)`,
   * the whole number nearest to area times density, halves rounding up; for
   * non-negative sizes and density it is not negative.
   */
  function StitchDensity(width: real, height: real, stitchesPerMm2: real): (n: real)
    ensures Integral(n) && width * height * stitchesPerMm2 - 0.5 < n <= width * height * stitchesPerMm2 + 0.5
    ensures width >= 0.0 && height >= 0.0 && stitchesPerMm2 >= 0.0 ==> n >= 0.0
  {
    var product := width * height * stitchesPerMm2;
    RoundBounds(product);
    NonNegativeProduct(width, height, stitchesPerMm2);
    Round(product) as real
  }

  lemma NonNegativeProduct(width: real, height: real, stitchesPerMm2: real)
    ensures width >= 0.0 && height >= 0.0 && stitchesPerMm2 >= 0.0 ==> width * height * stitchesPerMm2 >= 0.0
  {
    if width >= 0.0 && height >= 0.0 && stitchesPerMm2 >= 0.0 {
      assert width * height >= 0.0;
    }
  }

  /**
   * calculateStitchLength: a tenth of the radius, kept between 0.5 and 3;
   * it equals a tenth of the radius whenever that lies in the range, and
   * sits at 0.5 below it and at 3 above it.
   */
  function StitchLength(curveRadius: real): (len: real)
    ensures 0.5 <= len <= 3.0
    ensures 0.5 <= curveRadius / 10.0 <= 3.0 ==> len == curveRadius / 10.0
    ensures curveRadius / 10.0 < 0.5 ==> len == 0.5
    ensures curveRadius / 10.0 > 3.0 ==> len == 3.0
  {
    MinReal(MaxReal(curveRadius / 10.0, 0.5), 3.0)
  }

  /** The stitch length grows with the radius. */
  lemma StitchLengthGrows(r: real, s: real)
    requires r <= s
    ensures StitchLength(r) <= StitchLength(s)
  {
  }
}
