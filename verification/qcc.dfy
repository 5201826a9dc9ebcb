/**
 * The QCC writer (src/lib/embroidery/formats/qcc.ts): a 512-byte header
 * holding the length-prefixed signature "QCC", the stitch count and the
 * size, followed by a five-byte record for every stitch after the first.
 */
module Qcc {
  import opened Numeric
  import opened Types
  import opened Streams

  const HeaderSize := 512

  /** `new TextEncoder().encode('QCC')`. */
  const Signature: seq<byte> := [0x51, 0x43, 0x43]

  lemma SignatureIsText()
    ensures IsAscii("QCC") && AsciiCodes("QCC") == Signature
  {
  }

  /** The writes of createHeader, in order. */
  function HeaderFields(stitchCount: int, width: int, height: int): (fields: seq<Field>)
    ensures FieldsFit(fields, HeaderSize) && Ascending(fields)
  {
    [ Field(0, Int32LE(|Signature|)),
      Field(4, Signature),
      Field(8, Int32LE(stitchCount)),
      Field(12, Int32LE(width)),
      Field(16, Int32LE(height)) ]
  }

  function HeaderBytes(stitchCount: int, width: int, height: int): (h: seq<byte>)
    ensures |h| == HeaderSize
  {
    PutAll(Zeros(HeaderSize), HeaderFields(stitchCount, width, height))
  }

  /** createHeader: the size is `Math.round(dimension * 10)`. */
  function QccHeader(p: StitchPattern): (h: seq<byte>)
    ensures |h| == HeaderSize
  {
    HeaderBytes(|p.stitches|, Round(p.dimensions.width * 10.0), Round(p.dimensions.height * 10.0))
  }

  /**
   * The header starts with the int32 3 and the bytes of "QCC", holds the
   * stitch count, width and height as int32 at 8, 12 and 16 (no colour
   * count), and is zero everywhere else.
   */
  lemma HeaderLayout(stitchCount: int, width: int, height: int)
    ensures var h := HeaderBytes(stitchCount, width, height);
      && h[0..4] == [3, 0, 0, 0]
      && h[4..7] == AsciiCodes("QCC")
      && h[7] == 0
      && h[8..12] == Int32LE(stitchCount)
      && h[12..16] == Int32LE(width)
      && h[16..20] == Int32LE(height)
      && forall i :: 20 <= i < HeaderSize ==> h[i] == 0
  {
    var fields := HeaderFields(stitchCount, width, height);
    PutAllFields(Zeros(HeaderSize), fields);
    PutAllElsewhere(Zeros(HeaderSize), fields);
    SignatureIsText();
    assert Int32LE(3) == [3, 0, 0, 0];
    assert fields[0].offset == 0 && FieldEnd(fields[0]) == 4;
    assert fields[1].offset == 4 && FieldEnd(fields[1]) == 7;
    assert fields[2].offset == 8 && FieldEnd(fields[2]) == 12;
    assert fields[3].offset == 12 && FieldEnd(fields[3]) == 16;
    assert fields[4].offset == 16 && FieldEnd(fields[4]) == 20;
    forall i | i == 7 || 20 <= i < HeaderSize
      ensures !InField(fields, i)
    {
      forall j | 0 <= j < |fields|
        ensures !(fields[j].offset <= i < FieldEnd(fields[j]))
      {
      }
    }
  }

  /** The header as the five writes of createHeader, one after another. */
  lemma HeaderWrites(stitchCount: int, width: int, height: int)
    ensures HeaderBytes(stitchCount, width, height)
      == Put(Put(Put(Put(Put(Zeros(HeaderSize), 0, Int32LE(|Signature|)), 4, Signature),
           8, Int32LE(stitchCount)), 12, Int32LE(width)), 16, Int32LE(height))
  {
    var fields := HeaderFields(stitchCount, width, height);
    var z := Zeros(HeaderSize);
    assert fields[..0] == [];
    PutAllSnoc(z, fields, 0);
    PutAllSnoc(z, fields, 1);
    PutAllSnoc(z, fields, 2);
    PutAllSnoc(z, fields, 3);
    PutAllSnoc(z, fields, 4);
    assert fields[..5] == fields;
  }

  /** The header writes for rounded sizes. */
  method WriteHeader(stitchCount: int, width: int, height: int) returns (header: seq<byte>)
    ensures header == HeaderBytes(stitchCount, width, height)
  {
    var buf := new byte[HeaderSize](_ => 0);
    assert buf[..] == Zeros(HeaderSize);
    Store(buf, 0, Int32LE(|Signature|));
    Store(buf, 4, Signature);
    Store(buf, 8, Int32LE(stitchCount));
    Store(buf, 12, Int32LE(width));
    Store(buf, 16, Int32LE(height));
    header := buf[..];
    HeaderWrites(stitchCount, width, height);
  }

  method CreateHeader(p: StitchPattern) returns (header: seq<byte>)
    ensures header == QccHeader(p)
  {
    var width := Round(p.dimensions.width * 10.0);
    var height := Round(p.dimensions.height * 10.0);
    header := WriteHeader(|p.stitches|, width, height);
  }

  // ---------------------------------------------------------------------
  // Stitch records

  /** The five bytes of a record: 00, then dx and dy as 16-bit two's complement, low byte first. */
  function RecordBytes(dx: int, dy: int): (r: seq<byte>)
    ensures |r| == 5
  {
    [0x00, Low8(dx), Low8(dx / 256), Low8(dy), Low8(dy / 256)]
  }

  /** The record of stitch k + 1, whose delta is `Math.round((stitch - prev) * 10)`; its type is not read. */
  function Move(s: seq<StitchPoint>, k: nat): (r: seq<byte>)
    requires k + 1 < |s|
    ensures |r| == 5
  {
    RecordBytes(Round((s[k + 1].x - s[k].x) * 10.0), Round((s[k + 1].y - s[k].y) * 10.0))
  }

  function Moves(s: seq<StitchPoint>): (parts: seq<seq<byte>>)
    requires |s| > 0
    ensures |parts| == |s| - 1 && Uniform(parts, 5)
  {
    seq(|s| - 1, k requires 0 <= k < |s| - 1 => Move(s, k))
  }

  /** encodeStitches: the records laid end to end. */
  function QccStream(s: seq<StitchPoint>): seq<byte> {
    if s == [] then [] else Concat(Moves(s))
  }

  /** What the loop has pushed when it reaches stitch i. */
  function Pushed(s: seq<StitchPoint>, i: nat): seq<byte>
    requires i <= |s|
  {
    if i == 0 then [] else Concat(Moves(s)[..i - 1])
  }

  /** The three pushes of one turn: `dx & 0xFF`, `(dx >> 8) & 0xFF`, likewise for dy. */
  method PushRecord(dx: int, dy: int) returns (pushed: seq<byte>)
    ensures pushed == RecordBytes(dx, dy)
  {
    pushed := [0x00];
    pushed := pushed + [Low8(dx), Low8(dx / 256)];
    pushed := pushed + [Low8(dy), Low8(dy / 256)];
  }

  /** One turn of the loop at stitch i > 0: its record follows what was pushed before. */
  lemma PushedStep(s: seq<StitchPoint>, i: nat, data: seq<byte>, pushed: seq<byte>)
    requires 0 < i < |s|
    requires data == Pushed(s, i)
    requires pushed == RecordBytes(Round((s[i].x - s[i - 1].x) * 10.0), Round((s[i].y - s[i - 1].y) * 10.0))
    ensures data + pushed == Pushed(s, i + 1)
  {
    ConcatSnoc(Moves(s), i - 1);
  }

  method EncodeStitches(stitches: seq<StitchPoint>) returns (data: seq<byte>)
    ensures data == QccStream(stitches)
  {
    data := [];
    var index := 0;
    while index < |stitches|
      invariant 0 <= index <= |stitches|
      invariant data == Pushed(stitches, index)
    {
      if index > 0 {
        var dx := Round((stitches[index].x - stitches[index - 1].x) * 10.0);
        var dy := Round((stitches[index].y - stitches[index - 1].y) * 10.0);
        var pushed := PushRecord(dx, dy);
        PushedStep(stitches, index, data, pushed);
        data := data + pushed;
      }
      index := index + 1;
    }
    if index > 0 {
      assert Moves(stitches)[..index - 1] == Moves(stitches);
    }
  }

  /** write: the header followed by the stitch records. */
  function QccFile(p: StitchPattern): seq<byte> {
    QccHeader(p) + QccStream(p.stitches)
  }

  method Write(p: StitchPattern) returns (data: seq<byte>)
    ensures data == QccFile(p)
  {
    var header := CreateHeader(p);
    var stitches := EncodeStitches(p.stitches);
    data := header + stitches;
  }

  // ---------------------------------------------------------------------
  // Properties

  /** The file is 512 + 5·(n − 1) bytes for n ≥ 1 stitches, and the bare header for none. */
  lemma FileLength(p: StitchPattern)
    ensures |QccFile(p)| == HeaderSize + (if p.stitches == [] then 0 else 5 * (|p.stitches| - 1))
  {
    if p.stitches != [] {
      UniformLength(Moves(p.stitches), 5);
    }
  }

  /** The record of stitch k + 1 sits at 5k in the stream, starting with 00 whatever the stitch type. */
  lemma MoveAt(s: seq<StitchPoint>, k: nat)
    requires k + 1 < |s|
    ensures 5 * k + 5 <= |QccStream(s)|
    ensures QccStream(s)[5 * k..5 * k + 5] == Move(s, k)
    ensures QccStream(s)[5 * k] == 0x00
  {
    UniformChunkAt(Moves(s), 5, k);
  }

  /** A delta that fits in 16 bits reads back from its two bytes as a signed 16-bit value. */
  lemma Int16RoundTrip(d: int)
    requires -0x8000 <= d <= 0x7FFF
    ensures Signed16(Low8(d), Low8(d / 256)) == d
  {
    ModStep(d, 256, 256);
    if d < 0 {
      DivModUnique(d, 256 * 256, -1, d + 0x1_0000);
    } else {
      DivModUnique(d, 256 * 256, 0, d);
    }
  }

  /** A record reads back as the rounded delta whenever both components fit in 16 bits. */
  lemma RecordDecodes(dx: int, dy: int)
    requires -0x8000 <= dx <= 0x7FFF && -0x8000 <= dy <= 0x7FFF
    ensures var r := RecordBytes(dx, dy);
      r[0] == 0x00 && Signed16(r[1], r[2]) == dx && Signed16(r[3], r[4]) == dy
  {
    Int16RoundTrip(dx);
    Int16RoundTrip(dy);
  }
}
