/**
 * The JEF writer (src/lib/embroidery/formats/jef.ts): a 128-byte header of
 * little-endian int32 fields, then two bytes per stitch after the first,
 * in a buffer of two bytes per stitch whose last two bytes stay zero.
 */
module Jef {
  import opened Numeric
  import opened Types
  import opened Streams

  const HeaderSize := 128

  /** The magic number stored at offset 0. */
  const Magic := 0x4A45_4600

  // ---------------------------------------------------------------------
  // Header

  /** The five `setInt32` writes of createHeader. */
  function HeaderFields(stitchCount: int, colorCount: int, width: int, height: int): (fields: seq<Field>)
    ensures FieldsFit(fields, HeaderSize) && Ascending(fields)
  {
    [ Field(0, Int32LE(Magic)),
      Field(4, Int32LE(stitchCount)),
      Field(8, Int32LE(colorCount)),
      Field(12, Int32LE(width)),
      Field(16, Int32LE(height)) ]
  }

  /** The header for the given counts and rounded size. */
  function HeaderBytes(stitchCount: int, colorCount: int, width: int, height: int): (h: seq<byte>)
    ensures |h| == HeaderSize
  {
    PutAll(Zeros(HeaderSize), HeaderFields(stitchCount, colorCount, width, height))
  }

  /** createHeader: the size is `Math.round(dimension * 10)`. */
  function JefHeader(p: StitchPattern): (h: seq<byte>)
    ensures |h| == HeaderSize
  {
    HeaderBytes(|p.stitches|, |p.colors|, Round(p.dimensions.width * 10.0), Round(p.dimensions.height * 10.0))
  }

  lemma MagicBytes()
    ensures Int32LE(Magic) == [0x00, 0x46, 0x45, 0x4A]
  {
  }

  /**
   * The header holds the magic 00 46 45 4A, the stitch count, the colour
   * count, the width and the height as int32 at 0, 4, 8, 12 and 16, and zeros
   * from 20 on.
   */
  lemma HeaderLayout(stitchCount: int, colorCount: int, width: int, height: int)
    ensures var h := HeaderBytes(stitchCount, colorCount, width, height);
      && h[0..4] == [0x00, 0x46, 0x45, 0x4A]
      && h[4..8] == Int32LE(stitchCount)
      && h[8..12] == Int32LE(colorCount)
      && h[12..16] == Int32LE(width)
      && h[16..20] == Int32LE(height)
      && forall i :: 20 <= i < HeaderSize ==> h[i] == 0
  {
    var fields := HeaderFields(stitchCount, colorCount, width, height);
    PutAllFields(Zeros(HeaderSize), fields);
    PutAllElsewhere(Zeros(HeaderSize), fields);
    MagicBytes();
    assert fields[0].offset == 0 && FieldEnd(fields[0]) == 4;
    assert fields[1].offset == 4 && FieldEnd(fields[1]) == 8;
    assert fields[2].offset == 8 && FieldEnd(fields[2]) == 12;
    assert fields[3].offset == 12 && FieldEnd(fields[3]) == 16;
    assert fields[4].offset == 16 && FieldEnd(fields[4]) == 20;
    forall i | 20 <= i < HeaderSize
      ensures !InField(fields, i)
    {
      forall j | 0 <= j < |fields|
        ensures !(fields[j].offset <= i < FieldEnd(fields[j]))
      {
      }
    }
  }

  /** The header as the five writes of createHeader, one after another. */
  lemma HeaderWrites(stitchCount: int, colorCount: int, width: int, height: int)
    ensures HeaderBytes(stitchCount, colorCount, width, height)
      == Put(Put(Put(Put(Put(Zeros(HeaderSize), 0, Int32LE(Magic)), 4, Int32LE(stitchCount)),
           8, Int32LE(colorCount)), 12, Int32LE(width)), 16, Int32LE(height))
  {
    var fields := HeaderFields(stitchCount, colorCount, width, height);
    var z := Zeros(HeaderSize);
    assert fields[..0] == [];
    PutAllSnoc(z, fields, 0);
    PutAllSnoc(z, fields, 1);
    PutAllSnoc(z, fields, 2);
    PutAllSnoc(z, fields, 3);
    PutAllSnoc(z, fields, 4);
    assert fields[..5] == fields;
  }

  /** The header writes for rounded sizes. */
  method WriteHeader(stitchCount: int, colorCount: int, width: int, height: int) returns (header: seq<byte>)
    ensures header == HeaderBytes(stitchCount, colorCount, width, height)
  {
    var buf := new byte[HeaderSize](_ => 0);
    assert buf[..] == Zeros(HeaderSize);
    Store(buf, 0, Int32LE(Magic));
    Store(buf, 4, Int32LE(stitchCount));
    Store(buf, 8, Int32LE(colorCount));
    Store(buf, 12, Int32LE(width));
    Store(buf, 16, Int32LE(height));
    header := buf[..];
    HeaderWrites(stitchCount, colorCount, width, height);
  }

  method CreateHeader(p: StitchPattern) returns (header: seq<byte>)
    ensures header == JefHeader(p)
  {
    var width := Round(p.dimensions.width * 10.0);
    var height := Round(p.dimensions.height * 10.0);
    header := WriteHeader(|p.stitches|, |p.colors|, width, height);
  }

  // ---------------------------------------------------------------------
  // Stitch bytes

  /** A jump byte, `0x80 | (d & 0x7F)`. */
  function JumpByte(d: int): byte {
    OrByte(0x80, Low7(d))
  }

  /** The two bytes a stitch writes for its rounded delta. */
  function MoveBytes(kind: StitchType, dx: int, dy: int): (r: seq<byte>)
    ensures |r| == 2
  {
    match kind
    case Jump => [JumpByte(dx), JumpByte(dy)]
    case Stop => [0xF3, 0]
    case End => [0xF0, 0]
    case _ => [Low7(dx), Low7(dy)]
  }

  /** The bytes of stitch k + 1, whose delta is `Math.round((stitch - prev) * 10)`. */
  function Move(s: seq<StitchPoint>, k: nat): (r: seq<byte>)
    requires k + 1 < |s|
    ensures |r| == 2
  {
    MoveBytes(s[k + 1].kind, Round((s[k + 1].x - s[k].x) * 10.0), Round((s[k + 1].y - s[k].y) * 10.0))
  }

  /** The writes of every stitch after the first. */
  function Moves(s: seq<StitchPoint>): (parts: seq<seq<byte>>)
    requires |s| > 0
    ensures |parts| == |s| - 1 && Uniform(parts, 2)
  {
    seq(|s| - 1, k requires 0 <= k < |s| - 1 => Move(s, k))
  }

  /**
   * encodeStitches: a zeroed buffer of two bytes per stitch; the first stitch
   * writes nothing, so the last two bytes are never written.
   */
  function JefStream(s: seq<StitchPoint>): seq<byte> {
    if s == [] then [] else Concat(Moves(s)) + [0, 0]
  }

  /** The switch on the stitch type. */
  method EncodeMove(kind: StitchType, dx: int, dy: int) returns (b0: byte, b1: byte)
    ensures [b0, b1] == MoveBytes(kind, dx, dy)
  {
    match kind {
      case Jump =>
        b0, b1 := OrByte(0x80, Low7(dx)), OrByte(0x80, Low7(dy));
      case Stop =>
        b0, b1 := 0xF3, 0;
      case End =>
        b0, b1 := 0xF0, 0;
      case _ =>
        b0, b1 := Low7(dx), Low7(dy);
    }
  }

  /** One turn of the loop: the bytes of stitch k + 1 follow those written before. */
  lemma MovesStep(s: seq<StitchPoint>, k: nat, pair: seq<byte>)
    requires k + 1 < |s|
    requires pair == Move(s, k)
    ensures Concat(Moves(s)[..k + 1]) == Concat(Moves(s)[..k]) + pair
  {
    ConcatSnoc(Moves(s), k);
  }

  /** The bytes the loop has written once it has visited the first n stitches. */
  function Written(s: seq<StitchPoint>, n: nat): (r: seq<byte>)
    requires n <= |s|
    ensures |r| == 2 * MaxInt(n - 1, 0)
  {
    if n == 0 then [] else UniformLength(Moves(s)[..n - 1], 2); Concat(Moves(s)[..n - 1])
  }

  /** The buffer after writing the bytes of stitch i at offset 2(i - 1). */
  lemma WriteMove(s: seq<StitchPoint>, i: nat, offset: nat, before: seq<byte>, b0: byte, b1: byte)
    requires 0 < i < |s| && offset == 2 * (i - 1)
    requires before == Written(s, i) + Zeros(2 * |s| - offset)
    requires [b0, b1] == Move(s, i - 1)
    ensures before[offset := b0][offset + 1 := b1] == Written(s, i + 1) + Zeros(2 * |s| - (offset + 2))
  {
    var written := Written(s, i);
    assert |written| == offset;
    assert Written(s, i + 1) == written + [b0, b1] by {
      MovesStep(s, i - 1, [b0, b1]);
    }
    FillPair(written, 2 * |s| - offset, b0, b1);
  }

  method EncodeStitches(stitches: seq<StitchPoint>) returns (data: seq<byte>)
    ensures data == JefStream(stitches)
  {
    var buf := new byte[|stitches| * 2](_ => 0);
    var offset := 0;
    var index := 0;
    while index < |stitches|
      invariant 0 <= index <= |stitches| && offset == 2 * MaxInt(index - 1, 0)
      invariant buf[..] == Written(stitches, index) + Zeros(2 * |stitches| - offset)
    {
      if index > 0 {
        var dx := Round((stitches[index].x - stitches[index - 1].x) * 10.0);
        var dy := Round((stitches[index].y - stitches[index - 1].y) * 10.0);
        var b0, b1 := EncodeMove(stitches[index].kind, dx, dy);
        assert [b0, b1] == Move(stitches, index - 1);
        ghost var before := buf[..];
        buf[offset] := b0;
        buf[offset + 1] := b1;
        ghost var first: seq<byte> := before[offset := b0];
        assert buf[..] == first[offset + 1 := b1];
        WriteMove(stitches, index, offset, before, b0, b1);
        offset := offset + 2;
      } else {
        assert Written(stitches, 1) == [] by {
          assert Moves(stitches)[..0] == [];
        }
      }
      index := index + 1;
    }
    if index > 0 {
      assert Moves(stitches)[..index - 1] == Moves(stitches);
    }
    data := buf[..];
  }

  /** write: the header followed by the stitch bytes. */
  function JefFile(p: StitchPattern): seq<byte> {
    JefHeader(p) + JefStream(p.stitches)
  }

  method Write(p: StitchPattern) returns (data: seq<byte>)
    ensures data == JefFile(p)
  {
    var header := CreateHeader(p);
    var stitches := EncodeStitches(p.stitches);
    data := header + stitches;
  }

  // ---------------------------------------------------------------------
  // Properties

  /** The file is 128 + 2·n bytes for n stitches. */
  lemma FileLength(p: StitchPattern)
    ensures |JefFile(p)| == HeaderSize + 2 * |p.stitches|
  {
    if p.stitches != [] {
      UniformLength(Moves(p.stitches), 2);
    }
  }

  /** The bytes of stitch k + 1 sit at 2k and 2k + 1 of the stream; the last two bytes are zero. */
  lemma MoveAt(s: seq<StitchPoint>, k: nat)
    requires k + 1 < |s|
    ensures 2 * k + 2 <= |JefStream(s)|
    ensures JefStream(s)[2 * k..2 * k + 2] == Move(s, k)
  {
    UniformChunkAt(Moves(s), 2, k);
    SliceOfFirst(Concat(Moves(s)), [0, 0], 2 * k, 2 * k + 2);
  }

  /** The first stitch writes nothing, so the buffer ends with two zero bytes. */
  lemma StreamTail(s: seq<StitchPoint>)
    requires |s| > 0
    ensures |JefStream(s)| == 2 * |s|
    ensures JefStream(s)[2 * |s| - 2..] == [0, 0]
  {
    UniformLength(Moves(s), 2);
  }

  /** A byte's low seven bits read as a signed 7-bit delta. */
  function Signed7(b: byte): int {
    var v := b % 128;
    if v >= 64 then v - 128 else v
  }

  /**
   * A jump byte has its top bit set and keeps `d & 0x7F` below it; a normal
   * byte is `d & 0x7F`, top bit clear; a stop writes F3 00 and an end F0 00.
   */
  lemma MoveLayout(kind: StitchType, dx: int, dy: int)
    ensures var r := MoveBytes(kind, dx, dy);
      && (kind.Jump? ==> r[0] == 0x80 + dx % 128 && r[1] == 0x80 + dy % 128)
      && (kind.Stop? ==> r == [0xF3, 0x00])
      && (kind.End? ==> r == [0xF0, 0x00])
      && ((kind.Normal? || kind.Trim?) ==> r[0] == dx % 128 && r[1] == dy % 128)
      && (kind.Jump? || kind.Normal? || kind.Trim? ==> (r[0] >= 0x80 <==> kind.Jump?) && (r[1] >= 0x80 <==> kind.Jump?))
  {
    OrTopBit(Low7(dx));
    OrTopBit(Low7(dy));
  }

  /** A delta within ±63 reads back from the low seven bits of its byte, jump or not. */
  lemma DeltaDecodes(d: int)
    requires -64 <= d < 64
    ensures Signed7(Low7(d)) == d
    ensures Signed7(JumpByte(d)) == d
  {
    Low7Small(d);
    var v := Low7(d);
    SevenBitsBack(v);
    OrTopBit(v);
    assert JumpByte(d) == 128 + v;
  }

  /** The low seven bits of a delta within ±63: the delta itself, or 128 more when negative. */
  lemma Low7Small(d: int)
    requires -64 <= d < 64
    ensures Low7(d) == if d < 0 then d + 128 else d
  {
    if d < 0 {
      DivModUnique(d, 128, -1, d + 128);
    } else {
      DivModUnique(d, 128, 0, d);
    }
  }

  /** A seven-bit value is its own low seven bits, with or without the top bit above it. */
  lemma SevenBitsBack(v: int)
    requires 0 <= v < 128
    ensures v % 128 == v && (128 + v) % 128 == v
  {
    DivModUnique(128 + v, 128, 1, v);
    DivModUnique(v, 128, 0, v);
  }
}
