/**
 * The colour processor of src/lib/embroidery/color-processor.ts: every
 * pixel is mapped to the palette colour nearest to it by a weighted RGB
 * distance, and a colour map is split into one boolean layer per colour.
 *
 * Math.sqrt comes from the `math` parameter; the model does not assume it
 * is monotone, so the nearest colour is stated in terms of the distances the
 * source compares.
 */
module ColorProcessor {
  import opened Wrappers
  import opened Numeric
  import opened Types
  import opened Hex
  import Raster

  const FailureMessage := "Failed to process colors"

  /** hexToRgb: the three channels, or the error it throws. */
  function HexToRgb(hex: string): (r: Result<Rgb, Error>)
    ensures r.Success? <==> MatchesHexColor(hex)
    ensures r.Failure? ==> r.error == PlainError("Invalid color format: " + hex)
    ensures r.Success? ==> IsChannel(r.value.r) && IsChannel(r.value.g) && IsChannel(r.value.b)
  {
    match ParseHexColor(hex)
    case Some(c) => Success(c)
    case None => Failure(PlainError("Invalid color format: " + hex))
  }

  /** `targetColors.map(this.hexToRgb)`: the colours, or the error of the first that does not parse. */
  function Palette(colors: seq<string>): Result<seq<Rgb>, Error> {
    if colors == [] then Success([])
    else
      match HexToRgb(colors[0])
      case Failure(e) => Failure(e)
      case Success(c) =>
        match Palette(colors[1..])
        case Failure(e) => Failure(e)
        case Success(rest) => Success([c] + rest)
  }

  /** The quantity under the square root of colorDistance. */
  function DistanceSq(c1: Rgb, c2: Rgb): real {
    var rMean := (c1.r + c2.r) as real / 2.0;
    var dr := (c1.r - c2.r) as real;
    var dg := (c1.g - c2.g) as real;
    var db := (c1.b - c2.b) as real;
    (2.0 + rMean / 256.0) * dr * dr + 4.0 * dg * dg + (2.0 + (255.0 - rMean) / 256.0) * db * db
  }

  /**
   * colorDistance: the weighted ("redmean") distance. With a true square
   * root and channels in 0..255 it is never negative, its square is the
   * weighted sum, and it is zero exactly between identical colours.
   */
  function ColorDistance(math: MathLib, c1: Rgb, c2: Rgb): (d: real)
    ensures (IsSqrt(math.sqrt) && IsChannel(c1.r) && IsChannel(c1.g) && IsChannel(c1.b) &&
      IsChannel(c2.r) && IsChannel(c2.g) && IsChannel(c2.b)) ==>
      d >= 0.0 && d * d == DistanceSq(c1, c2) && (d == 0.0 <==> c1 == c2)
  {
    var sq := DistanceSq(c1, c2);
    if IsChannel(c1.r) && IsChannel(c1.g) && IsChannel(c1.b) && IsChannel(c2.r) && IsChannel(c2.g) && IsChannel(c2.b) then
      DistanceSqProperties(c1, c2);
      SqrtZero(math.sqrt, sq);
      math.sqrt(sq)
    else
      math.sqrt(sq)
  }

  /** The colour of pixel p. */
  function PixelColor(img: ImageData, p: nat): Rgb
    requires 4 * p + 3 < |img.data|
  {
    Rgb(img.data[4 * p], img.data[4 * p + 1], img.data[4 * p + 2])
  }

  /**
   * The running minimum of the forEach over the first n distances: the index
   * it holds and the smallest distance so far, none before the first
   * (`minDistance = Infinity`, which every distance is below).
   */
  function Scan(ds: seq<real>, n: nat): (nat, Option<real>)
    requires n <= |ds|
  {
    if n == 0 then (0, None)
    else
      var (index, best) := Scan(ds, n - 1);
      if best.None? || ds[n - 1] < best.value then (n - 1, Some(ds[n - 1])) else (index, best)
  }

  /** The index the forEach leaves in colorIndex. */
  function Nearest(ds: seq<real>): nat {
    Scan(ds, |ds|).0
  }

  /** The distances from a colour to each palette colour. */
  function Distances(math: MathLib, c: Rgb, palette: seq<Rgb>): (ds: seq<real>)
    ensures |ds| == |palette|
  {
    seq(|palette|, k requires 0 <= k < |palette| => ColorDistance(math, c, palette[k]))
  }

  /** Pixel p's entry of the colour map: its nearest palette index, stored into a Uint8ClampedArray. */
  function Entry(math: MathLib, img: ImageData, palette: seq<Rgb>, p: nat): byte
    requires 4 * p + 3 < |img.data|
  {
    Raster.Clamped(Nearest(Distances(math, PixelColor(img, p), palette)))
  }

  /** The colour map: one entry per pixel. */
  function ColorMap(math: MathLib, img: ImageData, palette: seq<Rgb>): (m: seq<byte>)
    requires WellFormed(img)
    ensures |m| == img.width * img.height
  {
    seq(img.width * img.height, p requires 0 <= p < img.width * img.height => Entry(math, img, palette, p))
  }

  /** What processColors resolves to. */
  datatype ColorResult = ColorResult(palette: seq<string>, colorMap: seq<byte>)

  /** processColors: the colour map, or the palette's error wrapped. */
  function ProcessedColors(math: MathLib, img: ImageData, targetColors: seq<string>): Result<ColorResult, Error>
    requires WellFormed(img)
  {
    match Palette(targetColors)
    case Failure(e) => Failure(ProcessingError(FailureMessage, Some(e)))
    case Success(palette) => Success(ColorResult(targetColors, ColorMap(math, img, palette)))
  }

  // ---------------------------------------------------------------------
  // The loops

  /** processColors. */
  method ProcessColors(math: MathLib, img: ImageData, targetColors: seq<string>) returns (r: Result<ColorResult, Error>)
    requires WellFormed(img)
    ensures r == ProcessedColors(math, img, targetColors)
  {
    var rgbPalette := Palette(targetColors);
    if rgbPalette.Failure? {
      return Failure(ProcessingError(FailureMessage, Some(rgbPalette.error)));
    }
    var palette := rgbPalette.value;
    var colorMap := new byte[img.width * img.height](_ => 0);
    ghost var expected := ColorMap(math, img, palette);
    var i := 0;
    ghost var p := 0;
    while i < |img.data|
      invariant 0 <= p <= img.width * img.height && i == 4 * p
      invariant Agrees(colorMap[..], expected, p)
    {
      var colorIndex := ClosestColor(math, Rgb(img.data[i], img.data[i + 1], img.data[i + 2]), palette);
      assert i / 4 == p;
      ghost var before := colorMap[..];
      colorMap[i / 4] := Raster.Clamped(colorIndex);
      assert colorMap[..] == before[p := Entry(math, img, palette, p)];
      AgreesStep(before, expected, p, Entry(math, img, palette, p));
      i := i + 4;
      p := p + 1;
    }
    assert p == img.width * img.height;
    AgreesAll(colorMap[..], expected, p);
    r := Success(ColorResult(targetColors, colorMap[..]));
  }

  /** The entries of `buf` before index n are those of `expected`. */
  ghost predicate Agrees(buf: seq<byte>, expected: seq<byte>, n: int) {
    |buf| == |expected| && forall q :: 0 <= q < n && q < |buf| ==> buf[q] == expected[q]
  }

  /** Writing the expected entry at index n extends the agreement by one. */
  lemma AgreesStep(buf: seq<byte>, expected: seq<byte>, n: nat, v: byte)
    requires Agrees(buf, expected, n) && n < |buf| && v == expected[n]
    ensures Agrees(buf[n := v], expected, n + 1)
  {
  }

  /** Agreement over the whole length is equality. */
  lemma AgreesAll(buf: seq<byte>, expected: seq<byte>, n: int)
    requires Agrees(buf, expected, n) && n >= |buf|
    ensures buf == expected
  {
  }

  /** The forEach over the palette that finds the nearest colour. */
  method ClosestColor(math: MathLib, c: Rgb, palette: seq<Rgb>) returns (colorIndex: nat)
    ensures colorIndex == Nearest(Distances(math, c, palette))
  {
    ghost var ds := Distances(math, c, palette);
    var minDistance: Option<real> := None;
    colorIndex := 0;
    for index := 0 to |palette|
      invariant (colorIndex, minDistance) == Scan(ds, index)
    {
      var distance := ColorDistance(math, c, palette[index]);
      if minDistance.None? || distance < minDistance.value {
        minDistance := Some(distance);
        colorIndex := index;
      }
    }
  }

  /** `Math.max(...colorMap) + 1`: the number of layers, none for an empty map. */
  function NumColors(colorMap: seq<byte>): nat {
    if colorMap == [] then 0 else MaxOf(colorMap) + 1
  }

  function MaxOf(s: seq<byte>): byte
    requires s != []
  {
    if |s| == 1 then s[0]
    else
      var m := MaxOf(s[..|s| - 1]);
      if s[|s| - 1] > m then s[|s| - 1] else m
  }

  /** Whether pixel (x, y) belongs to layer k: its entry exists and equals k. */
  predicate InLayer(colorMap: seq<byte>, width: nat, k: int, y: nat, x: nat) {
    var idx := y * width + x;
    idx < |colorMap| && colorMap[idx] == k
  }

  /** generateColorLayers. */
  method GenerateColorLayers(colorMap: seq<byte>, width: nat, height: nat) returns (layers: seq<array2<bool>>)
    ensures |layers| == NumColors(colorMap)
    ensures forall k :: 0 <= k < |layers| ==> fresh(layers[k]) && layers[k].Length0 == height && layers[k].Length1 == width
    ensures forall k, y, x :: 0 <= k < |layers| && 0 <= y < height && 0 <= x < width ==>
      layers[k][y, x] == InLayer(colorMap, width, k, y, x)
  {
    layers := [];
    var numColors := NumColors(colorMap);
    for colorIndex := 0 to numColors
      invariant |layers| == colorIndex
      invariant forall k :: 0 <= k < |layers| ==> fresh(layers[k]) && layers[k].Length0 == height && layers[k].Length1 == width
      invariant forall k, y, x :: 0 <= k < |layers| && 0 <= y < height && 0 <= x < width ==>
        layers[k][y, x] == InLayer(colorMap, width, k, y, x)
    {
      var layer := new bool[height, width]((_, _) => false);
      for y := 0 to height
        modifies layer
        invariant forall yy, xx :: 0 <= yy < height && 0 <= xx < width ==>
          layer[yy, xx] == (yy < y && InLayer(colorMap, width, colorIndex, yy, xx))
      {
        for x := 0 to width
          modifies layer
          invariant forall yy, xx :: 0 <= yy < height && 0 <= xx < width ==>
            layer[yy, xx] == ((yy < y || (yy == y && xx < x)) && InLayer(colorMap, width, colorIndex, yy, xx))
        {
          var idx := y * width + x;
          if idx < |colorMap| && colorMap[idx] == colorIndex {
            layer[y, x] := true;
          }
        }
      }
      layers := layers + [layer];
    }
  }

  // ---------------------------------------------------------------------
  // Properties

  /**
   * The weighted distance is symmetric, never negative, and zero exactly
   * between identical colours (for channels in 0..255, where both red and
   * blue weights stay positive).
   */
  lemma DistanceProperties(math: MathLib, c1: Rgb, c2: Rgb)
    requires IsChannel(c1.r) && IsChannel(c1.g) && IsChannel(c1.b)
    requires IsChannel(c2.r) && IsChannel(c2.g) && IsChannel(c2.b)
    ensures DistanceSq(c1, c2) == DistanceSq(c2, c1) && ColorDistance(math, c1, c2) == ColorDistance(math, c2, c1)
    ensures DistanceSq(c1, c2) >= 0.0
    ensures DistanceSq(c1, c2) == 0.0 <==> c1 == c2
  {
    DistanceSqProperties(c1, c2);
  }

  /** The quantity under the square root is symmetric, never negative, and zero exactly between identical colours. */
  lemma DistanceSqProperties(c1: Rgb, c2: Rgb)
    requires IsChannel(c1.r) && IsChannel(c1.g) && IsChannel(c1.b)
    requires IsChannel(c2.r) && IsChannel(c2.g) && IsChannel(c2.b)
    ensures DistanceSq(c1, c2) == DistanceSq(c2, c1)
    ensures DistanceSq(c1, c2) >= 0.0
    ensures DistanceSq(c1, c2) == 0.0 <==> c1 == c2
  {
    DistanceSymmetric(c1, c2);
    var rMean := (c1.r + c2.r) as real / 2.0;
    var dr := (c1.r - c2.r) as real;
    var dg := (c1.g - c2.g) as real;
    var db := (c1.b - c2.b) as real;
    var wr := 2.0 + rMean / 256.0;
    var wb := 2.0 + (255.0 - rMean) / 256.0;
    assert 0.0 <= rMean <= 255.0;
    assert wr > 0.0 && wb > 0.0;
    var tr, tg, tb := wr * dr * dr, 4.0 * dg * dg, wb * db * db;
    assert DistanceSq(c1, c2) == tr + tg + tb;
    WeightedSquare(wr, dr, tr);
    WeightedSquare(4.0, dg, tg);
    WeightedSquare(wb, db, tb);
    if DistanceSq(c1, c2) == 0.0 {
      assert tr == 0.0 && tg == 0.0 && tb == 0.0;
      assert c1.r == c2.r && c1.g == c2.g && c1.b == c2.b;
    }
  }

  /** Swapping the colours negates every difference and keeps the red mean. */
  lemma DistanceSymmetric(c1: Rgb, c2: Rgb)
    ensures DistanceSq(c1, c2) == DistanceSq(c2, c1)
  {
    var rMean := (c1.r + c2.r) as real / 2.0;
    var dr := (c1.r - c2.r) as real;
    var dg := (c1.g - c2.g) as real;
    var db := (c1.b - c2.b) as real;
    var wr := 2.0 + rMean / 256.0;
    var wb := 2.0 + (255.0 - rMean) / 256.0;
    assert DistanceSq(c1, c2) == wr * dr * dr + 4.0 * dg * dg + wb * db * db;
    assert DistanceSq(c2, c1) == wr * (-dr) * (-dr) + 4.0 * (-dg) * (-dg) + wb * (-db) * (-db);
    Negated(wr, dr);
    Negated(4.0, dg);
    Negated(wb, db);
  }

  /**
   * A term t = w·d·d with a positive weight is never negative, and is zero
   * only for d = 0.
   */
  lemma WeightedSquare(w: real, d: real, t: real)
    requires w > 0.0 && t == w * d * d
    ensures t >= 0.0 && (t == 0.0 ==> d == 0.0)
  {
    if d > 0.0 {
      PositiveProduct(w, d);
      PositiveProduct(w * d, d);
    } else if d < 0.0 {
      PositiveProduct(w, -d);
      PositiveProduct(w * (-d), -d);
      Negated(w, d);
    }
  }

  lemma Negated(w: real, d: real)
    ensures w * (-d) * (-d) == w * d * d
  {
  }

  /**
   * The scan picks a smallest distance, the first of them: no distance is
   * below the chosen one and every earlier one is above it. With no
   * distances it leaves index 0.
   */
  lemma {:induction false} ScanFindsFirstMinimum(ds: seq<real>, n: nat)
    requires n <= |ds|
    ensures Scan(ds, n).1.None? <==> n == 0
    ensures n == 0 ==> Scan(ds, n).0 == 0
    ensures n > 0 ==>
      var i := Scan(ds, n).0;
      i < n && Scan(ds, n).1 == Some(ds[i]) &&
      (forall k :: 0 <= k < n ==> ds[i] <= ds[k]) &&
      (forall k :: 0 <= k < i ==> ds[k] > ds[i])
  {
    if n > 0 {
      ScanFindsFirstMinimum(ds, n - 1);
    }
  }

  /** Each colour-map entry is the first palette index at the smallest distance from the pixel (clamped to 255). */
  lemma NearestColor(math: MathLib, img: ImageData, palette: seq<Rgb>, p: nat)
    requires WellFormed(img) && p < img.width * img.height && palette != []
    ensures 4 * p + 3 < |img.data|
    ensures var ds := Distances(math, PixelColor(img, p), palette);
      var i := Nearest(ds);
      i < |palette| && ColorMap(math, img, palette)[p] == Raster.Clamped(i) && Entry(math, img, palette, p) == Raster.Clamped(i) &&
      (forall k :: 0 <= k < |palette| ==> ds[i] <= ds[k]) &&
      (forall k :: 0 <= k < i ==> ds[k] > ds[i])
  {
    ScanFindsFirstMinimum(Distances(math, PixelColor(img, p), palette), |palette|);
  }

  /**
   * processColors fails exactly when some palette entry is not a hex colour,
   * with a ProcessingError wrapping the first such entry's error. Otherwise
   * it returns the palette unchanged and one colour-map entry per pixel.
   */
  lemma ProcessColorsRules(math: MathLib, img: ImageData, targetColors: seq<string>)
    requires WellFormed(img)
    ensures ProcessedColors(math, img, targetColors).Failure? <==>
      exists k :: 0 <= k < |targetColors| && !MatchesHexColor(targetColors[k])
    ensures ProcessedColors(math, img, targetColors).Failure? ==>
      exists k :: 0 <= k < |targetColors| && !MatchesHexColor(targetColors[k]) &&
        (forall j :: 0 <= j < k ==> MatchesHexColor(targetColors[j])) &&
        ProcessedColors(math, img, targetColors).error ==
          ProcessingError("Failed to process colors", Some(PlainError("Invalid color format: " + targetColors[k])))
    ensures ProcessedColors(math, img, targetColors).Success? ==>
      ProcessedColors(math, img, targetColors).value.palette == targetColors &&
      |ProcessedColors(math, img, targetColors).value.colorMap| == img.width * img.height
  {
    PaletteRules(targetColors);
  }

  /** The palette parses exactly when every entry does, keeping their order; otherwise the first bad entry's error. */
  lemma {:induction false} PaletteRules(colors: seq<string>)
    ensures Palette(colors).Failure? <==> exists k :: 0 <= k < |colors| && !MatchesHexColor(colors[k])
    ensures Palette(colors).Failure? ==>
      exists k :: 0 <= k < |colors| && !MatchesHexColor(colors[k]) &&
        (forall j :: 0 <= j < k ==> MatchesHexColor(colors[j])) &&
        Palette(colors).error == PlainError("Invalid color format: " + colors[k])
    ensures Palette(colors).Success? ==>
      |Palette(colors).value| == |colors| &&
      forall k :: 0 <= k < |colors| ==> Some(Palette(colors).value[k]) == ParseHexColor(colors[k])
  {
    if colors != [] {
      PaletteRules(colors[1..]);
      if MatchesHexColor(colors[0]) && Palette(colors[1..]).Failure? {
        var k :| 0 <= k < |colors[1..]| && !MatchesHexColor(colors[1..][k]) &&
          (forall j :: 0 <= j < k ==> MatchesHexColor(colors[1..][j])) &&
          Palette(colors[1..]).error == PlainError("Invalid color format: " + colors[1..][k]);
        assert !MatchesHexColor(colors[k + 1]);
        assert forall j :: 1 <= j < k + 1 ==> colors[j] == colors[1..][j - 1];
      }
      if Palette(colors).Success? {
        forall k | 0 <= k < |colors|
          ensures Some(Palette(colors).value[k]) == ParseHexColor(colors[k])
        {
          if k > 0 {
            assert colors[k] == colors[1..][k - 1];
          }
        }
      } else if MatchesHexColor(colors[0]) {
        var k :| 0 <= k < |colors[1..]| && !MatchesHexColor(colors[1..][k]);
        assert !MatchesHexColor(colors[k + 1]);
      }
    }
  }

  /** The largest entry of the map is at least every entry and is one of them. */
  lemma {:induction false} MaxOfIsMax(s: seq<byte>)
    requires s != []
    ensures forall i :: 0 <= i < |s| ==> s[i] <= MaxOf(s)
    ensures exists i :: 0 <= i < |s| && s[i] == MaxOf(s)
  {
    if |s| > 1 {
      var init := s[..|s| - 1];
      MaxOfIsMax(init);
      assert forall i :: 0 <= i < |s| - 1 ==> s[i] == init[i];
      var i :| 0 <= i < |init| && init[i] == MaxOf(init);
      if s[|s| - 1] > MaxOf(init) {
        assert s[|s| - 1] == MaxOf(s);
      } else {
        assert s[i] == MaxOf(s);
      }
    } else {
      assert s[0] == MaxOf(s);
    }
  }

  /**
   * There is one layer per index up to the largest in the map, and a pixel
   * whose entry exists is set in exactly one layer, the one of its entry.
   */
  lemma LayersPartition(colorMap: seq<byte>, width: nat, y: nat, x: nat)
    requires y * width + x < |colorMap|
    ensures colorMap[y * width + x] < NumColors(colorMap)
    ensures forall k :: 0 <= k < NumColors(colorMap) ==>
      (InLayer(colorMap, width, k, y, x) <==> k == colorMap[y * width + x])
  {
    MaxOfIsMax(colorMap);
  }
}
