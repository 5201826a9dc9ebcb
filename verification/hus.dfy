/**
 * The HUS writer (src/lib/embroidery/formats/hus.ts): a 512-byte header
 * holding the length-prefixed signature "HUS", the counts and the size,
 * followed by the same stitch records as the EXP writer.
 */
module Hus {
  import opened Numeric
  import opened Types
  import opened Streams
  import Exp

  const HeaderSize := 512

  /** `new TextEncoder().encode('HUS')`. */
  const Signature: seq<byte> := [0x48, 0x55, 0x53]

  lemma SignatureIsText()
    ensures IsAscii("HUS") && AsciiCodes("HUS") == Signature
  {
  }

  /** The writes of createHeader, in order. */
  function HeaderFields(stitchCount: int, colorCount: int, width: int, height: int): (fields: seq<Field>)
    ensures FieldsFit(fields, HeaderSize) && Ascending(fields)
  {
    [ Field(0, Int32LE(|Signature|)),
      Field(4, Signature),
      Field(8, Int32LE(stitchCount)),
      Field(12, Int32LE(colorCount)),
      Field(16, Int32LE(width)),
      Field(20, Int32LE(height)) ]
  }

  function HeaderBytes(stitchCount: int, colorCount: int, width: int, height: int): (h: seq<byte>)
    ensures |h| == HeaderSize
  {
    PutAll(Zeros(HeaderSize), HeaderFields(stitchCount, colorCount, width, height))
  }

  /** createHeader: the size is `Math.round(dimension * 10)`. */
  function HusHeader(p: StitchPattern): (h: seq<byte>)
    ensures |h| == HeaderSize
  {
    HeaderBytes(|p.stitches|, |p.colors|, Round(p.dimensions.width * 10.0), Round(p.dimensions.height * 10.0))
  }

  /**
   * The header starts with the int32 3 and the bytes of "HUS", holds the
   * stitch count, colour count, width and height as int32 at 8, 12, 16 and
   * 20, and is zero everywhere else.
   */
  lemma HeaderLayout(stitchCount: int, colorCount: int, width: int, height: int)
    ensures var h := HeaderBytes(stitchCount, colorCount, width, height);
      && h[0..4] == [3, 0, 0, 0]
      && h[4..7] == AsciiCodes("HUS")
      && h[7] == 0
      && h[8..12] == Int32LE(stitchCount)
      && h[12..16] == Int32LE(colorCount)
      && h[16..20] == Int32LE(width)
      && h[20..24] == Int32LE(height)
      && forall i :: 24 <= i < HeaderSize ==> h[i] == 0
  {
    var fields := HeaderFields(stitchCount, colorCount, width, height);
    PutAllFields(Zeros(HeaderSize), fields);
    PutAllElsewhere(Zeros(HeaderSize), fields);
    SignatureIsText();
    assert Int32LE(3) == [3, 0, 0, 0];
    assert fields[0].offset == 0 && FieldEnd(fields[0]) == 4;
    assert fields[1].offset == 4 && FieldEnd(fields[1]) == 7;
    assert fields[2].offset == 8 && FieldEnd(fields[2]) == 12;
    assert fields[3].offset == 12 && FieldEnd(fields[3]) == 16;
    assert fields[4].offset == 16 && FieldEnd(fields[4]) == 20;
    assert fields[5].offset == 20 && FieldEnd(fields[5]) == 24;
    forall i | i == 7 || 24 <= i < HeaderSize
      ensures !InField(fields, i)
    {
      forall j | 0 <= j < |fields|
        ensures !(fields[j].offset <= i < FieldEnd(fields[j]))
      {
      }
    }
  }

  /** The header as the six writes of createHeader, one after another. */
  lemma HeaderWrites(stitchCount: int, colorCount: int, width: int, height: int)
    ensures HeaderBytes(stitchCount, colorCount, width, height)
      == Put(Put(Put(Put(Put(Put(Zeros(HeaderSize), 0, Int32LE(|Signature|)), 4, Signature),
           8, Int32LE(stitchCount)), 12, Int32LE(colorCount)), 16, Int32LE(width)), 20, Int32LE(height))
  {
    var fields := HeaderFields(stitchCount, colorCount, width, height);
    var z := Zeros(HeaderSize);
    assert fields[..0] == [];
    PutAllSnoc(z, fields, 0);
    PutAllSnoc(z, fields, 1);
    PutAllSnoc(z, fields, 2);
    PutAllSnoc(z, fields, 3);
    PutAllSnoc(z, fields, 4);
    PutAllSnoc(z, fields, 5);
    assert fields[..6] == fields;
  }

  /** The header writes for rounded sizes. */
  method WriteHeader(stitchCount: int, colorCount: int, width: int, height: int) returns (header: seq<byte>)
    ensures header == HeaderBytes(stitchCount, colorCount, width, height)
  {
    var buf := new byte[HeaderSize](_ => 0);
    assert buf[..] == Zeros(HeaderSize);
    Store(buf, 0, Int32LE(|Signature|));
    Store(buf, 4, Signature);
    Store(buf, 8, Int32LE(stitchCount));
    Store(buf, 12, Int32LE(colorCount));
    Store(buf, 16, Int32LE(width));
    Store(buf, 20, Int32LE(height));
    header := buf[..];
    HeaderWrites(stitchCount, colorCount, width, height);
  }

  method CreateHeader(p: StitchPattern) returns (header: seq<byte>)
    ensures header == HusHeader(p)
  {
    var width := Round(p.dimensions.width * 10.0);
    var height := Round(p.dimensions.height * 10.0);
    header := WriteHeader(|p.stitches|, |p.colors|, width, height);
  }

  /** encodeStitches: the same loop and switch as the EXP writer's. */
  method EncodeStitches(stitches: seq<StitchPoint>) returns (bytes: seq<byte>)
    ensures bytes == Exp.ExpStream(stitches)
  {
    var data: seq<int> := [];
    var index := 0;
    while index < |stitches|
      invariant 0 <= index <= |stitches|
      invariant index == 0 ==> data == []
      invariant index > 0 ==> Uint8Of(data) == Concat(Exp.Moves(stitches)[..index - 1])
    {
      if index > 0 {
        var dx := Round((stitches[index].x - stitches[index - 1].x) * 10.0);
        var dy := Round((stitches[index].y - stitches[index - 1].y) * 10.0);
        var pushed := Exp.PushMove(stitches[index].kind, dx, dy);
        Exp.MovesStep(stitches, index - 1, Uint8Of(pushed));
        Uint8OfAppend(data, pushed);
        data := data + pushed;
      }
      index := index + 1;
    }
    if index > 0 {
      assert Exp.Moves(stitches)[..index - 1] == Exp.Moves(stitches);
    }
    bytes := Uint8Of(data);
  }

  /** write: the header followed by the stitch records. */
  function HusFile(p: StitchPattern): seq<byte> {
    HusHeader(p) + Exp.ExpStream(p.stitches)
  }

  method Write(p: StitchPattern) returns (data: seq<byte>)
    ensures data == HusFile(p)
  {
    var header := CreateHeader(p);
    var stitches := EncodeStitches(p.stitches);
    data := header + stitches;
  }

  /** Past the 512-byte header the file is exactly what the EXP writer writes. */
  lemma BodyIsExp(p: StitchPattern)
    ensures |HusFile(p)| == HeaderSize + |Exp.ExpStream(p.stitches)|
    ensures HusFile(p)[..HeaderSize] == HusHeader(p)
    ensures HusFile(p)[HeaderSize..] == Exp.ExpStream(p.stitches)
  {
  }
}
