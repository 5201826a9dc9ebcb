/**
 * The PES writer (src/lib/embroidery/formats/pes.ts): a 532-byte header with
 * a signature, dimensions and a colour table of nearest thread indices,
 * followed by a byte stream of stitch moves terminated by 0xFF.
 */
module Pes {
  import opened Wrappers
  import opened Numeric
  import opened Types
  import opened Streams
  import opened Hex

  // ---------------------------------------------------------------------
  // Thread colours

  /** The six-colour thread palette: black, white, red, green, blue, yellow. */
  const Palette: seq<Rgb> := [Rgb(0, 0, 0), Rgb(255, 255, 255), Rgb(255, 0, 0), Rgb(0, 255, 0), Rgb(0, 0, 255), Rgb(255, 255, 0)]

  /**
   * The squared Euclidean distance between two colours. The source compares
   * square roots of these sums; a square root is increasing, so comparing
   * the sums gives the same answers.
   */
  function ColorDistSq(a: Rgb, b: Rgb): (d: int)
    ensures d >= 0
  {
    (a.r - b.r) * (a.r - b.r) + (a.g - b.g) * (a.g - b.g) + (a.b - b.b) * (a.b - b.b)
  }

  lemma ZeroDistance(a: Rgb, b: Rgb)
    requires ColorDistSq(a, b) <= 0
    ensures a == b
  {
    SquareZero(a.r - b.r);
    SquareZero(a.g - b.g);
    SquareZero(a.b - b.b);
  }

  lemma SquareZero(x: int)
    ensures x * x >= 0 && (x * x == 0 ==> x == 0)
  {
  }

  /** The nearest of the first n palette colours, the earliest on ties. */
  function NearestAmong(rgb: Rgb, n: nat): (k: nat)
    requires 1 <= n <= |Palette|
    ensures k < n
  {
    if n == 1 then 0
    else
      var best := NearestAmong(rgb, n - 1);
      if ColorDistSq(Palette[n - 1], rgb) < ColorDistSq(Palette[best], rgb) then n - 1 else best
  }

  function ClosestThread(rgb: Rgb): (k: nat)
    ensures k < |Palette|
  {
    NearestAmong(rgb, |Palette|)
  }

  /** The running minimum is a nearest colour, and no earlier colour is as near. */
  lemma {:induction false} NearestAmongIsNearest(rgb: Rgb, n: nat)
    requires 1 <= n <= |Palette|
    ensures forall j :: 0 <= j < n ==> ColorDistSq(Palette[NearestAmong(rgb, n)], rgb) <= ColorDistSq(Palette[j], rgb)
    ensures forall j :: 0 <= j < NearestAmong(rgb, n) ==> ColorDistSq(Palette[j], rgb) > ColorDistSq(Palette[NearestAmong(rgb, n)], rgb)
  {
    if n > 1 {
      NearestAmongIsNearest(rgb, n - 1);
    }
  }

  /** findClosestThreadColor picks a nearest palette colour, the lowest index on ties. */
  lemma ClosestThreadIsNearest(rgb: Rgb)
    ensures forall j :: 0 <= j < |Palette| ==> ColorDistSq(Palette[ClosestThread(rgb)], rgb) <= ColorDistSq(Palette[j], rgb)
    ensures forall j :: 0 <= j < ClosestThread(rgb) ==> ColorDistSq(Palette[j], rgb) > ColorDistSq(Palette[ClosestThread(rgb)], rgb)
  {
    NearestAmongIsNearest(rgb, |Palette|);
  }

  /** A palette colour maps to its own index. */
  lemma PaletteColorMapsToItself(k: nat)
    requires k < |Palette|
    ensures ClosestThread(Palette[k]) == k
  {
    ClosestThreadIsNearest(Palette[k]);
    var c := ClosestThread(Palette[k]);
    assert ColorDistSq(Palette[k], Palette[k]) == 0;
    ZeroDistance(Palette[c], Palette[k]);
    PaletteDistinct(c, k);
  }

  /** No colour appears twice in the palette. */
  lemma PaletteDistinct(i: nat, j: nat)
    requires i < |Palette| && j < |Palette| && Palette[i] == Palette[j]
    ensures i == j
  {
  }

  /** findClosestThreadColor: a running minimum over the palette, starting from infinity. */
  method FindClosestThreadColor(rgb: Rgb) returns (closest: nat)
    ensures closest == ClosestThread(rgb)
  {
    closest := 0;
    var minDistance: Option<int> := None;
    var i := 0;
    while i < |Palette|
      invariant 0 <= i <= |Palette|
      invariant i == 0 <==> minDistance.None?
      invariant i > 0 ==> closest == NearestAmong(rgb, i) && minDistance == Some(ColorDistSq(Palette[closest], rgb))
    {
      var distance := ColorDistSq(Palette[i], rgb);
      if minDistance.None? || distance < minDistance.value {
        minDistance := Some(distance);
        closest := i;
      }
      i := i + 1;
    }
  }

  /** createColorTable: the thread index of every colour that parses, in order; the others are skipped. */
  function ColorTable(colors: seq<string>): (table: seq<byte>)
    ensures |table| <= |colors|
    ensures forall i :: 0 <= i < |table| ==> table[i] < |Palette|
  {
    if colors == [] then []
    else
      var rest := ColorTable(colors[..|colors| - 1]);
      match ParseHexColor(colors[|colors| - 1])
      case None => rest
      case Some(rgb) => rest + [ClosestThread(rgb)]
  }

  /** When every colour parses, the table has one entry per colour: its nearest thread. */
  lemma {:induction false} ColorTableOfValidColors(colors: seq<string>)
    requires forall i :: 0 <= i < |colors| ==> MatchesHexColor(colors[i])
    ensures |ColorTable(colors)| == |colors|
    ensures forall i :: 0 <= i < |colors| ==> ColorTable(colors)[i] == ClosestThread(ParseHexColor(colors[i]).value)
  {
    if colors != [] {
      ColorTableOfValidColors(colors[..|colors| - 1]);
    }
  }

  /** A colour that does not parse adds no entry. */
  lemma InvalidColorSkipped(colors: seq<string>, c: string)
    requires !MatchesHexColor(c)
    ensures ColorTable(colors + [c]) == ColorTable(colors)
  {
    assert (colors + [c])[..|colors|] == colors;
  }

  method CreateColorTable(colors: seq<string>) returns (threadColors: seq<byte>)
    ensures threadColors == ColorTable(colors)
  {
    threadColors := [];
    var i := 0;
    while i < |colors|
      invariant 0 <= i <= |colors|
      invariant threadColors == ColorTable(colors[..i])
    {
      assert colors[..i + 1][..i] == colors[..i];
      var rgb := ParseHexColor(colors[i]);
      if rgb.Some? {
        var threadIndex := FindClosestThreadColor(rgb.value);
        threadColors := threadColors + [threadIndex];
      }
      i := i + 1;
    }
    assert colors[..i] == colors;
  }

  // ---------------------------------------------------------------------
  // Header

  const HeaderSize := 532

  /** "#PES0001" in ASCII. */
  const Signature: seq<byte> := [0x23, 0x50, 0x45, 0x53, 0x30, 0x30, 0x30, 0x31]

  lemma SignatureIsText()
    ensures IsAscii("#PES0001") && AsciiCodes("#PES0001") == Signature
  {
  }

  /**
   * The header before the colour table is written: signature, PEC marker,
   * the size in tenths, the colour count and the table length.
   */
  function HeaderFields(width: int, height: int, colorCount: nat, tableLength: nat): (h: seq<byte>)
    ensures |h| == HeaderSize
  {
    var h1 := Put(Zeros(HeaderSize), 0, Signature);
    var h2 := Put(h1, 8, Int32LE(0x50454300));
    var h3 := Put(h2, HeaderSize - 8, Uint16LE(width));
    var h4 := Put(h3, HeaderSize - 6, Uint16LE(height));
    var h5 := Put(h4, HeaderSize - 4, [Low8(colorCount)]);
    Put(h5, HeaderSize - 3, [Low8(tableLength)])
  }

  /**
   * createHeader: the fields, then the colour table from offset 48. A table
   * running past the end of the 532-byte view makes `setUint8` throw a RangeError.
   */
  function PesHeader(p: StitchPattern): (r: Result<seq<byte>, Error>)
    ensures r.Success? <==> 48 + |ColorTable(p.colors)| <= HeaderSize
    ensures r.Success? ==> |r.value| == HeaderSize
  {
    var table := ColorTable(p.colors);
    if 48 + |table| > HeaderSize then Failure(PlainError("Offset is outside the bounds of the DataView"))
    else Success(Put(HeaderFields(Tenths(p.dimensions.width), Tenths(p.dimensions.height), |p.colors|, |table|), 48, table))
  }

  /**
   * The fields: the signature, the PEC marker 00 43 45 50, the size at 524
   * and 526, the colour count at 528, the table length at 529, and zeros
   * everywhere else.
   */
  lemma FieldsLayout(width: int, height: int, colorCount: nat, tableLength: nat)
    ensures var h := HeaderFields(width, height, colorCount, tableLength);
      && h[..8] == Signature
      && h[8..12] == [0x00, 0x43, 0x45, 0x50]
      && h[524..526] == Uint16LE(width)
      && h[526..528] == Uint16LE(height)
      && h[528] == Low8(colorCount)
      && h[529] == Low8(tableLength)
      && (forall i :: (12 <= i < 524 || 530 <= i < HeaderSize) ==> h[i] == 0)
  {
    var h1 := Put(Zeros(HeaderSize), 0, Signature);
    var h2 := Put(h1, 8, Int32LE(0x50454300));
    var h3 := Put(h2, HeaderSize - 8, Uint16LE(width));
    var h4 := Put(h3, HeaderSize - 6, Uint16LE(height));
    var h5 := Put(h4, HeaderSize - 4, [Low8(colorCount)]);
    var h := Put(h5, HeaderSize - 3, [Low8(tableLength)]);
    PutContents(Zeros(HeaderSize), 0, Signature);
    PutContents(h1, 8, Int32LE(0x50454300));
    PutContents(h2, HeaderSize - 8, Uint16LE(width));
    PutContents(h3, HeaderSize - 6, Uint16LE(height));
    PutContents(h4, HeaderSize - 4, [Low8(colorCount)]);
    PutContents(h5, HeaderSize - 3, [Low8(tableLength)]);
    // The signature survives the five later writes.
    PutSlice(Zeros(HeaderSize), 0, Signature);
    PutKeeps(h1, 8, Int32LE(0x50454300), 0, 8);
    PutKeeps(h2, HeaderSize - 8, Uint16LE(width), 0, 8);
    PutKeeps(h3, HeaderSize - 6, Uint16LE(height), 0, 8);
    PutKeeps(h4, HeaderSize - 4, [Low8(colorCount)], 0, 8);
    PutKeeps(h5, HeaderSize - 3, [Low8(tableLength)], 0, 8);
    // The marker survives the four later writes.
    MarkerBytes();
    PutSlice(h1, 8, Int32LE(0x50454300));
    PutKeeps(h2, HeaderSize - 8, Uint16LE(width), 8, 12);
    PutKeeps(h3, HeaderSize - 6, Uint16LE(height), 8, 12);
    PutKeeps(h4, HeaderSize - 4, [Low8(colorCount)], 8, 12);
    PutKeeps(h5, HeaderSize - 3, [Low8(tableLength)], 8, 12);
    // The width survives the three later writes, the height the two after it.
    PutSlice(h2, HeaderSize - 8, Uint16LE(width));
    PutKeeps(h3, HeaderSize - 6, Uint16LE(height), 524, 526);
    PutKeeps(h4, HeaderSize - 4, [Low8(colorCount)], 524, 526);
    PutKeeps(h5, HeaderSize - 3, [Low8(tableLength)], 524, 526);
    PutSlice(h3, HeaderSize - 6, Uint16LE(height));
    PutKeeps(h4, HeaderSize - 4, [Low8(colorCount)], 526, 528);
    PutKeeps(h5, HeaderSize - 3, [Low8(tableLength)], 526, 528);
  }

  /**
   * With a table short enough not to reach offset 524, the header is the
   * fields with the table at 48: the table's own bytes there, and every
   * other byte as the fields left it.
   */
  lemma HeaderLayout(p: StitchPattern)
    requires 48 + |ColorTable(p.colors)| <= HeaderSize - 8
    ensures PesHeader(p).Success?
    ensures var h := PesHeader(p).value; var table := ColorTable(p.colors);
      var fields := HeaderFields(Tenths(p.dimensions.width), Tenths(p.dimensions.height), |p.colors|, |table|);
      && h[48..48 + |table|] == table
      && (forall i :: 0 <= i < HeaderSize && !(48 <= i < 48 + |table|) ==> h[i] == fields[i])
      && (forall i :: 48 <= i < 48 + |table| ==> fields[i] == 0)
  {
    var table := ColorTable(p.colors);
    var fields := HeaderFields(Tenths(p.dimensions.width), Tenths(p.dimensions.height), |p.colors|, |table|);
    FieldsLayout(Tenths(p.dimensions.width), Tenths(p.dimensions.height), |p.colors|, |table|);
    PutContents(fields, 48, table);
    var h := PesHeader(p).value;
    assert h[48..48 + |table|] == table;
  }

  /** The PEC marker 0x50454300 in little-endian order. */
  lemma MarkerBytes()
    ensures Int32LE(0x50454300) == [0x00, 0x43, 0x45, 0x50]
  {
  }

  /** The size fields read back as the rounded size in tenths, modulo 2^16. */
  lemma SizeFieldValue(v: int)
    ensures Unsigned(Uint16LE(v)) == v % 0x1_0000
  {
    LittleEndianValue(v, 2);
  }

  method CreateHeader(p: StitchPattern) returns (r: Result<seq<byte>, Error>)
    ensures r == PesHeader(p)
  {
    var header := new byte[HeaderSize](_ => 0);
    var width := Round(p.dimensions.width * 10.0);
    var height := Round(p.dimensions.height * 10.0);
    var colorTable := WriteFields(header, width, height, p.colors);
    var ok := WriteTable(header, colorTable);
    if !ok {
      return Failure(PlainError("Offset is outside the bounds of the DataView"));
    }
    r := Success(header[..]);
  }

  /** The DataView writes before the colour table; returns the table it then writes. */
  method WriteFields(header: array<byte>, width: int, height: int, colors: seq<string>) returns (colorTable: seq<byte>)
    requires header.Length == HeaderSize && header[..] == Zeros(HeaderSize)
    modifies header
    ensures colorTable == ColorTable(colors)
    ensures header[..] == HeaderFields(width, height, |colors|, |colorTable|)
  {
    Store(header, 0, Signature);
    Store(header, 8, Int32LE(0x50454300));
    Store(header, HeaderSize - 8, Uint16LE(width));
    Store(header, HeaderSize - 6, Uint16LE(height));
    Store(header, HeaderSize - 4, [Low8(|colors|)]);
    colorTable := CreateColorTable(colors);
    Store(header, HeaderSize - 3, [Low8(|colorTable|)]);
  }

  /** The table loop: one `setUint8` per entry from offset 48, failing at the first offset past the end. */
  method WriteTable(header: array<byte>, colorTable: seq<byte>) returns (ok: bool)
    requires header.Length == HeaderSize
    modifies header
    ensures ok <==> 48 + |colorTable| <= HeaderSize
    ensures ok ==> header[..] == Put(old(header[..]), 48, colorTable)
  {
    var i := 0;
    PutContents(old(header[..]), 48, colorTable[..0]);
    while i < |colorTable|
      invariant 0 <= i <= |colorTable|
      invariant 48 + i <= HeaderSize
      invariant header[..] == Put(old(header[..]), 48, colorTable[..i])
    {
      if 48 + i >= HeaderSize {
        return false;
      }
      PutContents(old(header[..]), 48, colorTable[..i]);
      PutContents(old(header[..]), 48, colorTable[..i + 1]);
      header[48 + i] := colorTable[i];
      i := i + 1;
    }
    assert colorTable[..i] == colorTable;
    ok := true;
  }

  // ---------------------------------------------------------------------
  // Stitch stream

  /** A stitch position in tenths, `Math.round(v * 10)`. */
  function Tenths(v: real): int {
    Round(v * 10.0)
  }

  /** The rounded position the delta of stitch i is measured from: the previous stitch, or (0, 0). */
  function PrevPosition(s: seq<StitchPoint>, i: nat): (int, int)
    requires i <= |s|
  {
    if i == 0 then (0, 0) else (Tenths(s[i - 1].x), Tenths(s[i - 1].y))
  }

  /** `n` copies of a pair, as the split loop pushes them. */
  function Repeat(pair: seq<byte>, n: int): (r: seq<byte>)
    ensures |r| == if n <= 0 then 0 else n * |pair|
    decreases n
  {
    if n <= 0 then [] else Repeat(pair, n - 1) + pair
  }

  lemma {:induction false} RepeatAt(pair: seq<byte>, n: int, k: nat)
    requires |pair| == 2 && k < n
    ensures Repeat(pair, n)[2 * k..2 * k + 2] == pair
    decreases n
  {
    var prev := Repeat(pair, n - 1);
    assert |prev| == 2 * (n - 1);
    assert Repeat(pair, n) == prev + pair;
    if k < n - 1 {
      RepeatAt(pair, n - 1, k);
      assert Repeat(pair, n)[2 * k..2 * k + 2] == prev[2 * k..2 * k + 2];
    }
  }

  /** The number of pairs a move beyond ±127 is split into. */
  function SplitSteps(dx: int, dy: int): int {
    MaxInt(Ceil(Abs(dx) as real / 127.0), Ceil(Abs(dy) as real / 127.0))
  }

  /** A normal (or trim) move: one pair, or equal pairs of round(d/steps) for a long move. */
  function NormalMove(dx: int, dy: int): seq<byte> {
    if Abs(dx) > 127 || Abs(dy) > 127 then
      var steps := SplitSteps(dx, dy);
      Repeat([Low8(Round(dx as real / steps as real)), Low8(Round(dy as real / steps as real))], steps)
    else [Low8(dx), Low8(dy)]
  }

  /**
   * The bytes one stitch pushes, given its rounded move and the number of
   * colour changes before it.
   */
  function MoveBytes(kind: StitchType, dx: int, dy: int, colorIndex: nat): seq<byte> {
    match kind
    case Jump => [0x90, Low8(dx), Low8(dy)]
    case Stop => [0xFE, Low8(colorIndex)]
    case End => [0xFF]
    case _ => NormalMove(dx, dy)
  }

  /** The bytes stitch i pushes. */
  function Chunk(s: seq<StitchPoint>, i: nat): seq<byte>
    requires i < |s|
  {
    var (lastX, lastY) := PrevPosition(s, i);
    MoveBytes(s[i].kind, Tenths(s[i].x) - lastX, Tenths(s[i].y) - lastY, CountKind(s[..i], Stop))
  }

  function Chunks(s: seq<StitchPoint>): (parts: seq<seq<byte>>)
    ensures |parts| == |s|
  {
    seq(|s|, i requires 0 <= i < |s| => Chunk(s, i))
  }

  /** The whole stream: every stitch's bytes, then the terminator 0xFF. */
  function PesStream(s: seq<StitchPoint>): seq<byte> {
    Concat(Chunks(s)) + [0xFF]
  }

  /** The split loop for a move beyond ±127. */
  method EncodeLongMove(dx: int, dy: int) returns (data: seq<byte>)
    requires Abs(dx) > 127 || Abs(dy) > 127
    ensures data == NormalMove(dx, dy)
  {
    var steps := MaxInt(Ceil(Abs(dx) as real / 127.0), Ceil(Abs(dy) as real / 127.0));
    var stepX := dx as real / steps as real;
    var stepY := dy as real / steps as real;
    data := RepeatPair(Low8(Round(stepX)), Low8(Round(stepY)), steps);
  }

  method RepeatPair(moveX: byte, moveY: byte, steps: int) returns (data: seq<byte>)
    ensures data == Repeat([moveX, moveY], steps)
  {
    data := [];
    var i := 0;
    while i < steps
      invariant 0 <= i <= MaxInt(steps, 0)
      invariant data == Repeat([moveX, moveY], i)
    {
      data := data + [moveX, moveY];
      i := i + 1;
    }
  }

  /** The body of the encoding loop for one stitch. */
  method EncodeMove(kind: StitchType, dx: int, dy: int, currentColor: nat) returns (chunk: seq<byte>)
    ensures chunk == MoveBytes(kind, dx, dy, currentColor)
  {
    match kind {
      case Jump =>
        chunk := [0x90, Low8(dx), Low8(dy)];
      case Stop =>
        chunk := [0xFE, Low8(currentColor)];
      case End =>
        chunk := [0xFF];
      case _ =>
        if Abs(dx) > 127 || Abs(dy) > 127 {
          chunk := EncodeLongMove(dx, dy);
        } else {
          chunk := [Low8(dx), Low8(dy)];
        }
    }
  }

  /** One turn of the encoding loop: stitch i's bytes join the stream written so far. */
  lemma StreamStep(s: seq<StitchPoint>, i: nat, lastX: int, lastY: int, colorIndex: nat, data: seq<byte>, chunk: seq<byte>)
    requires i < |s| && data == Concat(Chunks(s)[..i])
    requires (lastX, lastY) == PrevPosition(s, i) && colorIndex == CountKind(s[..i], Stop)
    requires chunk == MoveBytes(s[i].kind, Round(s[i].x * 10.0) - lastX, Round(s[i].y * 10.0) - lastY, colorIndex)
    ensures data + chunk == Concat(Chunks(s)[..i + 1])
    ensures (Round(s[i].x * 10.0), Round(s[i].y * 10.0)) == PrevPosition(s, i + 1)
    ensures CountKind(s[..i + 1], Stop) == colorIndex + (if s[i].kind == Stop then 1 else 0)
  {
    assert chunk == Chunk(s, i);
    ConcatSnoc(Chunks(s), i);
    CountStep(s, i, Stop);
  }

  /** encodeStitches. */
  method EncodeStitches(stitches: seq<StitchPoint>) returns (data: seq<byte>)
    ensures data == PesStream(stitches)
  {
    data := [];
    var currentColor := 0;
    var lastX, lastY := 0, 0;
    var i := 0;
    while i < |stitches|
      invariant 0 <= i <= |stitches|
      invariant data == Concat(Chunks(stitches)[..i])
      invariant currentColor == CountKind(stitches[..i], Stop)
      invariant (lastX, lastY) == PrevPosition(stitches, i)
    {
      var x := Round(stitches[i].x * 10.0);
      var y := Round(stitches[i].y * 10.0);
      var chunk := EncodeMove(stitches[i].kind, x - lastX, y - lastY, currentColor);
      StreamStep(stitches, i, lastX, lastY, currentColor, data, chunk);
      if stitches[i].kind == Stop {
        currentColor := currentColor + 1;
      }
      data := data + chunk;
      lastX, lastY := x, y;
      i := i + 1;
    }
    assert Chunks(stitches)[..i] == Chunks(stitches);
    data := data + [0xFF];
  }

  /** write: the header, then the stitch stream. */
  function PesFile(p: StitchPattern): (r: Result<seq<byte>, Error>)
    ensures r.Success? <==> PesHeader(p).Success?
    ensures r.Success? ==>
      (|r.value| == HeaderSize + |PesStream(p.stitches)|
       && r.value[..HeaderSize] == PesHeader(p).value && r.value[HeaderSize..] == PesStream(p.stitches))
  {
    match PesHeader(p)
    case Failure(e) => Failure(e)
    case Success(header) => Success(header + PesStream(p.stitches))
  }

  method Write(p: StitchPattern) returns (r: Result<seq<byte>, Error>)
    ensures r == PesFile(p)
  {
    var header := CreateHeader(p);
    if header.Failure? {
      return Failure(header.error);
    }
    var stitches := EncodeStitches(p.stitches);
    r := Success(header.value + stitches);
  }

  // ---------------------------------------------------------------------
  // Properties of the stream

  /** The stream always ends with 0xFF, and stitch i's bytes sit after those of the stitches before it. */
  lemma StreamLayout(s: seq<StitchPoint>, i: nat)
    requires i < |s|
    ensures PesStream(s)[|PesStream(s)| - 1] == 0xFF
    ensures var start := |Concat(Chunks(s)[..i])|;
      start + |Chunk(s, i)| < |PesStream(s)| && PesStream(s)[start..start + |Chunk(s, i)|] == Chunk(s, i)
  {
    ChunkAt(Chunks(s), i);
    var start := |Concat(Chunks(s)[..i])|;
    assert PesStream(s)[start..start + |Chunk(s, i)|] == Concat(Chunks(s))[start..start + |Chunk(s, i)|];
  }

  /** A jump's two delta bytes read back as the delta when it fits in a signed byte. */
  lemma JumpDecodes(s: seq<StitchPoint>, i: nat)
    requires i < |s| && s[i].kind == Jump
    requires var d := Tenths(s[i].x) - PrevPosition(s, i).0; -128 <= d <= 127
    requires var d := Tenths(s[i].y) - PrevPosition(s, i).1; -128 <= d <= 127
    ensures |Chunk(s, i)| == 3 && Chunk(s, i)[0] == 0x90
    ensures Signed8(Chunk(s, i)[1]) == Tenths(s[i].x) - PrevPosition(s, i).0
    ensures Signed8(Chunk(s, i)[2]) == Tenths(s[i].y) - PrevPosition(s, i).1
  {
    Signed8RoundTrip(Tenths(s[i].x) - PrevPosition(s, i).0);
    Signed8RoundTrip(Tenths(s[i].y) - PrevPosition(s, i).1);
  }

  /** A normal move within ±127 is exactly two bytes that read back as the delta. */
  lemma ShortMoveDecodes(dx: int, dy: int)
    requires Abs(dx) <= 127 && Abs(dy) <= 127
    ensures |NormalMove(dx, dy)| == 2
    ensures Signed8(NormalMove(dx, dy)[0]) == dx && Signed8(NormalMove(dx, dy)[1]) == dy
  {
    Signed8RoundTrip(dx);
    Signed8RoundTrip(dy);
  }

  lemma NonPositiveFactor(a: real, n: real)
    requires n > 0.0 && a * n <= 0.0
    ensures a <= 0.0
  {
  }

  /** |d|/steps stays within 127 when steps covers |d| in steps of 127, so its rounding does too. */
  lemma RoundedShareFits(d: int, steps: int)
    requires steps >= 1 && Abs(d) as real <= 127.0 * steps as real
    ensures -127 <= Round(d as real / steps as real) <= 127
  {
    var q := d as real / steps as real;
    var n := steps as real;
    assert q * n == d as real;
    NonPositiveFactor(q - 127.0, n);
    NonPositiveFactor(-127.0 - q, n);
  }

  /**
   * A longer move is split into max(ceil(|dx|/127), ceil(|dy|/127)) pairs,
   * each of which reads back as (round(dx/steps), round(dy/steps)).
   */
  lemma LongMoveDecodes(dx: int, dy: int, k: nat)
    requires Abs(dx) > 127 || Abs(dy) > 127
    requires k < SplitSteps(dx, dy)
    ensures |NormalMove(dx, dy)| == 2 * SplitSteps(dx, dy)
    ensures var pair := NormalMove(dx, dy)[2 * k..2 * k + 2];
      && Signed8(pair[0]) == Round(dx as real / SplitSteps(dx, dy) as real)
      && Signed8(pair[1]) == Round(dy as real / SplitSteps(dx, dy) as real)
  {
    var steps := SplitSteps(dx, dy);
    var mx := Round(dx as real / steps as real);
    var my := Round(dy as real / steps as real);
    CeilBounds(Abs(dx) as real / 127.0);
    CeilBounds(Abs(dy) as real / 127.0);
    RoundedShareFits(dx, steps);
    RoundedShareFits(dy, steps);
    RepeatAt([Low8(mx), Low8(my)], steps, k);
    Signed8RoundTrip(mx);
    Signed8RoundTrip(my);
  }

  /** The first stop carries 0. */
  lemma FirstStopIsZero(s: seq<StitchPoint>, i: nat)
    requires i < |s| && s[i].kind == Stop
    requires forall j :: 0 <= j < i ==> s[j].kind != Stop
    ensures Chunk(s, i) == [0xFE, 0x00]
  {
    NoneCounted(s[..i], Stop);
  }
}
