/**
 * The VP3 writer (src/lib/embroidery/formats/vp3.ts): a 512-byte header
 * holding the length-prefixed signature "VP3", the counts and the size,
 * followed by a record for every stitch after the first.
 */
module Vp3 {
  import opened Numeric
  import opened Types
  import opened Streams

  const HeaderSize := 512

  /** `new TextEncoder().encode('VP3')`. */
  const Signature: seq<byte> := [0x56, 0x50, 0x33]

  lemma SignatureIsText()
    ensures IsAscii("VP3") && AsciiCodes("VP3") == Signature
  {
  }

  /** The writes of createHeader, in order. */
  function HeaderFields(stitchCount: int, colorCount: int, width: int, height: int): (fields: seq<Field>)
    ensures FieldsFit(fields, HeaderSize) && Ascending(fields)
  {
    [ Field(0, Int32LE(|Signature|)),
      Field(4, Signature),
      Field(8, Int32LE(stitchCount)),
      Field(12, Int32LE(colorCount)),
      Field(16, Int32LE(width)),
      Field(20, Int32LE(height)) ]
  }

  function HeaderBytes(stitchCount: int, colorCount: int, width: int, height: int): (h: seq<byte>)
    ensures |h| == HeaderSize
  {
    PutAll(Zeros(HeaderSize), HeaderFields(stitchCount, colorCount, width, height))
  }

  /** createHeader: the size is `Math.round(dimension * 10)`. */
  function Vp3Header(p: StitchPattern): (h: seq<byte>)
    ensures |h| == HeaderSize
  {
    HeaderBytes(|p.stitches|, |p.colors|, Round(p.dimensions.width * 10.0), Round(p.dimensions.height * 10.0))
  }

  /**
   * The header starts with the int32 3 and the bytes of "VP3", holds the
   * stitch count, colour count, width and height as int32 at 8, 12, 16 and
   * 20, and is zero everywhere else.
   */
  lemma HeaderLayout(stitchCount: int, colorCount: int, width: int, height: int)
    ensures var h := HeaderBytes(stitchCount, colorCount, width, height);
      && h[0..4] == [3, 0, 0, 0]
      && h[4..7] == AsciiCodes("VP3")
      && h[7] == 0
      && h[8..12] == Int32LE(stitchCount)
      && h[12..16] == Int32LE(colorCount)
      && h[16..20] == Int32LE(width)
      && h[20..24] == Int32LE(height)
      && forall i :: 24 <= i < HeaderSize ==> h[i] == 0
  {
    var fields := HeaderFields(stitchCount, colorCount, width, height);
    PutAllFields(Zeros(HeaderSize), fields);
    PutAllElsewhere(Zeros(HeaderSize), fields);
    SignatureIsText();
    assert Int32LE(3) == [3, 0, 0, 0];
    assert fields[0].offset == 0 && FieldEnd(fields[0]) == 4;
    assert fields[1].offset == 4 && FieldEnd(fields[1]) == 7;
    assert fields[2].offset == 8 && FieldEnd(fields[2]) == 12;
    assert fields[3].offset == 12 && FieldEnd(fields[3]) == 16;
    assert fields[4].offset == 16 && FieldEnd(fields[4]) == 20;
    assert fields[5].offset == 20 && FieldEnd(fields[5]) == 24;
    forall i | i == 7 || 24 <= i < HeaderSize
      ensures !InField(fields, i)
    {
      forall j | 0 <= j < |fields|
        ensures !(fields[j].offset <= i < FieldEnd(fields[j]))
      {
      }
    }
  }

  /** The header as the six writes of createHeader, one after another. */
  lemma HeaderWrites(stitchCount: int, colorCount: int, width: int, height: int)
    ensures HeaderBytes(stitchCount, colorCount, width, height)
      == Put(Put(Put(Put(Put(Put(Zeros(HeaderSize), 0, Int32LE(|Signature|)), 4, Signature),
           8, Int32LE(stitchCount)), 12, Int32LE(colorCount)), 16, Int32LE(width)), 20, Int32LE(height))
  {
    var fields := HeaderFields(stitchCount, colorCount, width, height);
    var z := Zeros(HeaderSize);
    assert fields[..0] == [];
    PutAllSnoc(z, fields, 0);
    PutAllSnoc(z, fields, 1);
    PutAllSnoc(z, fields, 2);
    PutAllSnoc(z, fields, 3);
    PutAllSnoc(z, fields, 4);
    PutAllSnoc(z, fields, 5);
    assert fields[..6] == fields;
  }

  /** The header writes for rounded sizes. */
  method WriteHeader(stitchCount: int, colorCount: int, width: int, height: int) returns (header: seq<byte>)
    ensures header == HeaderBytes(stitchCount, colorCount, width, height)
  {
    var buf := new byte[HeaderSize](_ => 0);
    assert buf[..] == Zeros(HeaderSize);
    Store(buf, 0, Int32LE(|Signature|));
    Store(buf, 4, Signature);
    Store(buf, 8, Int32LE(stitchCount));
    Store(buf, 12, Int32LE(colorCount));
    Store(buf, 16, Int32LE(width));
    Store(buf, 20, Int32LE(height));
    header := buf[..];
    HeaderWrites(stitchCount, colorCount, width, height);
  }

  method CreateHeader(p: StitchPattern) returns (header: seq<byte>)
    ensures header == Vp3Header(p)
  {
    var width := Round(p.dimensions.width * 10.0);
    var height := Round(p.dimensions.height * 10.0);
    header := WriteHeader(|p.stitches|, |p.colors|, width, height);
  }

  // ---------------------------------------------------------------------
  // Stitch records

  /** The bytes a stitch writes for its rounded delta; a stop carries the colour counter. */
  function MoveBytes(kind: StitchType, dx: int, dy: int, colorIndex: int): seq<byte> {
    match kind
    case Jump => [0x80, Low8(dx), Low8(dy)]
    case Stop => [0xF8, Low8(colorIndex)]
    case End => [0xFF]
    case _ => [Low8(dx), Low8(dy)]
  }

  /**
   * The colour counter when the loop reaches stitch i: the stops among
   * stitches 1 to i - 1, since the first stitch is skipped before the switch.
   */
  function Counter(s: seq<StitchPoint>, i: nat): nat
    requires i <= |s|
  {
    if i <= 1 then 0 else CountKind(s[1..i], Stop)
  }

  /** The bytes of stitch k + 1, whose delta is `Math.round((stitch - prev) * 10)`. */
  function Move(s: seq<StitchPoint>, k: nat): seq<byte>
    requires k + 1 < |s|
  {
    MoveBytes(s[k + 1].kind, Round((s[k + 1].x - s[k].x) * 10.0), Round((s[k + 1].y - s[k].y) * 10.0), Counter(s, k + 1))
  }

  function Moves(s: seq<StitchPoint>): (parts: seq<seq<byte>>)
    requires |s| > 0
    ensures |parts| == |s| - 1
  {
    seq(|s| - 1, k requires 0 <= k < |s| - 1 => Move(s, k))
  }

  /** encodeStitches: the records laid end to end. */
  function Vp3Stream(s: seq<StitchPoint>): seq<byte> {
    if s == [] then [] else Concat(Moves(s))
  }

  /** What the loop has pushed when it reaches stitch i. */
  function Pushed(s: seq<StitchPoint>, i: nat): seq<byte>
    requires i <= |s|
  {
    if i == 0 then [] else Concat(Moves(s)[..i - 1])
  }

  /** The switch on the stitch type: the numbers pushed and the counter after. */
  method PushMove(kind: StitchType, dx: int, dy: int, currentColor: int) returns (pushed: seq<int>, nextColor: int)
    ensures Uint8Of(pushed) == MoveBytes(kind, dx, dy, currentColor)
    ensures nextColor == currentColor + (if kind == Stop then 1 else 0)
  {
    nextColor := currentColor;
    match kind {
      case Jump =>
        pushed := [0x80, Low8(dx), Low8(dy)];
      case Stop =>
        pushed := [0xF8, currentColor];
        nextColor := currentColor + 1;
      case End =>
        pushed := [0xFF];
      case _ =>
        pushed := [Low8(dx), Low8(dy)];
    }
  }

  /** One turn of the loop at stitch i > 0: its record follows what was pushed before. */
  lemma PushedStep(s: seq<StitchPoint>, i: nat, data: seq<int>, pushed: seq<int>)
    requires 0 < i < |s|
    requires Uint8Of(data) == Pushed(s, i)
    requires Uint8Of(pushed) == MoveBytes(s[i].kind, Round((s[i].x - s[i - 1].x) * 10.0), Round((s[i].y - s[i - 1].y) * 10.0), Counter(s, i))
    ensures Uint8Of(data + pushed) == Pushed(s, i + 1)
  {
    Uint8OfAppend(data, pushed);
    ConcatSnoc(Moves(s), i - 1);
    assert Moves(s)[i - 1] == Uint8Of(pushed);
  }

  /** Past stitch i > 0 the counter has counted it if it is a stop. */
  lemma CounterStep(s: seq<StitchPoint>, i: nat)
    requires 0 < i < |s|
    ensures Counter(s, i + 1) == Counter(s, i) + (if s[i].kind == Stop then 1 else 0)
  {
    if i > 1 {
      CountStep(s[1..], i - 1, Stop);
      assert s[1..][..i] == s[1..i + 1];
      assert s[1..][..i - 1] == s[1..i];
    } else {
      assert s[1..2] == [s[1]];
    }
  }

  method EncodeStitches(stitches: seq<StitchPoint>) returns (bytes: seq<byte>)
    ensures bytes == Vp3Stream(stitches)
  {
    var data: seq<int> := [];
    var currentColor := 0;
    var index := 0;
    while index < |stitches|
      invariant 0 <= index <= |stitches|
      invariant Uint8Of(data) == Pushed(stitches, index)
      invariant currentColor == Counter(stitches, index)
    {
      if index > 0 {
        var dx := Round((stitches[index].x - stitches[index - 1].x) * 10.0);
        var dy := Round((stitches[index].y - stitches[index - 1].y) * 10.0);
        var pushed;
        pushed, currentColor := PushMove(stitches[index].kind, dx, dy, currentColor);
        PushedStep(stitches, index, data, pushed);
        CounterStep(stitches, index);
        data := data + pushed;
      }
      index := index + 1;
    }
    if index > 0 {
      assert Moves(stitches)[..index - 1] == Moves(stitches);
    }
    bytes := Uint8Of(data);
  }

  /** write: the header followed by the stitch records. */
  function Vp3File(p: StitchPattern): seq<byte> {
    Vp3Header(p) + Vp3Stream(p.stitches)
  }

  method Write(p: StitchPattern) returns (data: seq<byte>)
    ensures data == Vp3File(p)
  {
    var header := CreateHeader(p);
    var stitches := EncodeStitches(p.stitches);
    data := header + stitches;
  }

  // ---------------------------------------------------------------------
  // Properties

  /** The file is the 512-byte header, then nothing for a pattern of at most one stitch. */
  lemma ShortPatternIsHeader(p: StitchPattern)
    requires |p.stitches| <= 1
    ensures Vp3File(p) == Vp3Header(p) && |Vp3File(p)| == HeaderSize
  {
  }

  /** The record of stitch k + 1 follows the records of the stitches before it. */
  lemma MoveAt(s: seq<StitchPoint>, k: nat)
    requires k + 1 < |s|
    ensures var at := |Concat(Moves(s)[..k])|;
      at + |Move(s, k)| <= |Vp3Stream(s)| && Vp3Stream(s)[at..at + |Move(s, k)|] == Move(s, k)
  {
    ChunkAt(Moves(s), k);
  }

  /**
   * A jump is 80 then the deltas, a normal stitch the deltas alone, each
   * delta within a signed byte reading back exactly; a stop is F8 and the
   * counter, an end FF.
   */
  lemma MoveDecodes(kind: StitchType, dx: int, dy: int, colorIndex: int)
    requires -128 <= dx <= 127 && -128 <= dy <= 127
    ensures var r := MoveBytes(kind, dx, dy, colorIndex);
      && (kind.Jump? ==> |r| == 3 && r[0] == 0x80 && Signed8(r[1]) == dx && Signed8(r[2]) == dy)
      && ((kind.Normal? || kind.Trim?) ==> |r| == 2 && Signed8(r[0]) == dx && Signed8(r[1]) == dy)
      && (kind.Stop? ==> r == [0xF8, colorIndex % 256])
      && (kind.End? ==> r == [0xFF])
  {
    Signed8RoundTrip(dx);
    Signed8RoundTrip(dy);
  }

  /** A later stop carries a larger counter than an earlier one. */
  lemma StopsNumbered(s: seq<StitchPoint>, i: nat, j: nat)
    requires 0 < i < j < |s| && s[i].kind == Stop
    ensures Counter(s, j) >= Counter(s, i) + 1
  {
    CountGrows(s[1..], i - 1, j - 1, Stop);
    assert s[1..][..j - 1] == s[1..j];
    assert s[1..][..i - 1] == s[1..i];
  }
}
