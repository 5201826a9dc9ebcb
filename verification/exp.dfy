/**
 * The EXP writer (src/lib/embroidery/formats/exp.ts): no header, and for
 * every stitch after the first a variable-length record of magnitudes
 * followed by one 0x20 byte per negative axis.
 */
module Exp {
  import opened Numeric
  import opened Types
  import opened Streams

  /** The byte pushed after the magnitudes for each negative axis. */
  const SignByte := 0x20

  /** A jump magnitude, `0x80 | Math.abs(d)`, as the Uint8Array keeps it. */
  function JumpByte(d: int): byte {
    Low8(Or(0x80, Abs(d)))
  }

  /** A normal magnitude, `Math.abs(d)`, as the Uint8Array keeps it. */
  function MagnitudeByte(d: int): byte {
    Low8(Abs(d))
  }

  /** How many of the two deltas are negative. */
  function NegativeAxes(dx: int, dy: int): nat {
    (if dx < 0 then 1 else 0) + (if dy < 0 then 1 else 0)
  }

  /** One sign byte for dx < 0, then one for dy < 0. */
  function SignBytes(dx: int, dy: int): (r: seq<byte>)
    ensures |r| == NegativeAxes(dx, dy)
  {
    (if dx < 0 then [SignByte] else []) + (if dy < 0 then [SignByte] else [])
  }

  /** The bytes a stitch writes for its rounded delta. */
  function MoveBytes(kind: StitchType, dx: int, dy: int): seq<byte> {
    match kind
    case Jump => [JumpByte(dx), JumpByte(dy)] + SignBytes(dx, dy)
    case Stop => [0xF0]
    case End => [0xF8]
    case _ => [MagnitudeByte(dx), MagnitudeByte(dy)] + SignBytes(dx, dy)
  }

  /** The bytes of stitch k + 1, whose delta is `Math.round((stitch - prev) * 10)`. */
  function Move(s: seq<StitchPoint>, k: nat): seq<byte>
    requires k + 1 < |s|
  {
    MoveBytes(s[k + 1].kind, Round((s[k + 1].x - s[k].x) * 10.0), Round((s[k + 1].y - s[k].y) * 10.0))
  }

  /** The records of every stitch after the first. */
  function Moves(s: seq<StitchPoint>): (parts: seq<seq<byte>>)
    requires |s| > 0
    ensures |parts| == |s| - 1
  {
    seq(|s| - 1, k requires 0 <= k < |s| - 1 => Move(s, k))
  }

  /** encodeStitches: the records laid end to end. */
  function ExpStream(s: seq<StitchPoint>): seq<byte> {
    if s == [] then [] else Concat(Moves(s))
  }

  /** The switch on the stitch type: the numbers pushed for one stitch. */
  method PushMove(kind: StitchType, dx: int, dy: int) returns (pushed: seq<int>)
    ensures Uint8Of(pushed) == MoveBytes(kind, dx, dy)
  {
    match kind {
      case Jump =>
        pushed := [Or(0x80, Abs(dx)), Or(0x80, Abs(dy))];
      case Stop =>
        pushed := [0xF0];
      case End =>
        pushed := [0xF8];
      case _ =>
        pushed := [Abs(dx), Abs(dy)];
    }
    if !kind.Stop? && !kind.End? {
      if dx < 0 {
        pushed := pushed + [SignByte];
      }
      if dy < 0 {
        pushed := pushed + [SignByte];
      }
    }
  }

  /** One turn of the loop: the record of stitch k + 1 follows those pushed before. */
  lemma MovesStep(s: seq<StitchPoint>, k: nat, record: seq<byte>)
    requires k + 1 < |s|
    requires record == MoveBytes(s[k + 1].kind, Round((s[k + 1].x - s[k].x) * 10.0), Round((s[k + 1].y - s[k].y) * 10.0))
    ensures Concat(Moves(s)[..k + 1]) == Concat(Moves(s)[..k]) + record
  {
    ConcatSnoc(Moves(s), k);
  }

  method EncodeStitches(stitches: seq<StitchPoint>) returns (bytes: seq<byte>)
    ensures bytes == ExpStream(stitches)
  {
    var data: seq<int> := [];
    var index := 0;
    while index < |stitches|
      invariant 0 <= index <= |stitches|
      invariant index == 0 ==> data == []
      invariant index > 0 ==> Uint8Of(data) == Concat(Moves(stitches)[..index - 1])
    {
      if index > 0 {
        var dx := Round((stitches[index].x - stitches[index - 1].x) * 10.0);
        var dy := Round((stitches[index].y - stitches[index - 1].y) * 10.0);
        var pushed := PushMove(stitches[index].kind, dx, dy);
        MovesStep(stitches, index - 1, Uint8Of(pushed));
        Uint8OfAppend(data, pushed);
        data := data + pushed;
      }
      index := index + 1;
    }
    if index > 0 {
      assert Moves(stitches)[..index - 1] == Moves(stitches);
    }
    bytes := Uint8Of(data);
  }

  /** write: the file is the stitch records alone. */
  method Write(p: StitchPattern) returns (data: seq<byte>)
    ensures data == ExpStream(p.stitches)
  {
    data := EncodeStitches(p.stitches);
  }

  // ---------------------------------------------------------------------
  // Properties

  /** A pattern of at most one stitch gives an empty file. */
  lemma ShortPatternIsEmpty(s: seq<StitchPoint>)
    requires |s| <= 1
    ensures ExpStream(s) == []
  {
  }

  /** The record of stitch k + 1 follows the records of the stitches before it. */
  lemma MoveAt(s: seq<StitchPoint>, k: nat)
    requires k + 1 < |s|
    ensures var at := |Concat(Moves(s)[..k])|;
      at + |Move(s, k)| <= |ExpStream(s)| && ExpStream(s)[at..at + |Move(s, k)|] == Move(s, k)
  {
    ChunkAt(Moves(s), k);
  }

  /**
   * A stop is F0 and an end F8; a jump is two bytes with the top bit set over
   * the low seven bits of |dx| and |dy|, a normal stitch the low eight bits of
   * |dx| and |dy|; either is followed by one 0x20 per negative axis.
   */
  lemma MoveLayout(kind: StitchType, dx: int, dy: int)
    ensures var r := MoveBytes(kind, dx, dy);
      && (kind.Stop? ==> r == [0xF0])
      && (kind.End? ==> r == [0xF8])
      && (!kind.Stop? && !kind.End? ==>
            && |r| == 2 + NegativeAxes(dx, dy)
            && (forall i :: 2 <= i < |r| ==> r[i] == SignByte))
      && (kind.Jump? ==> r[0] == 0x80 + Abs(dx) % 0x80 && r[1] == 0x80 + Abs(dy) % 0x80)
      && ((kind.Normal? || kind.Trim?) ==> r[0] == Abs(dx) % 0x100 && r[1] == Abs(dy) % 0x100)
  {
    OrTopBitLow8(Abs(dx));
    OrTopBitLow8(Abs(dy));
  }

  /**
   * For deltas under 128 in size the record reads back: the top bit of the
   * first byte says jump, the low seven bits give |dx| and |dy|, and the
   * number of bytes after them gives the number of negative axes.
   */
  lemma MagnitudesDecode(kind: StitchType, dx: int, dy: int)
    requires kind.Jump? || kind.Normal? || kind.Trim?
    requires Abs(dx) < 0x80 && Abs(dy) < 0x80
    ensures var r := MoveBytes(kind, dx, dy);
      && (r[0] >= 0x80 <==> kind.Jump?) && (r[1] >= 0x80 <==> kind.Jump?)
      && r[0] % 0x80 == Abs(dx) && r[1] % 0x80 == Abs(dy)
      && |r| - 2 == NegativeAxes(dx, dy)
  {
    MoveLayout(kind, dx, dy);
    var r := MoveBytes(kind, dx, dy);
    DivModUnique(Abs(dx), 0x80, 0, Abs(dx));
    DivModUnique(Abs(dy), 0x80, 0, Abs(dy));
    DivModUnique(Abs(dx), 0x100, 0, Abs(dx));
    DivModUnique(Abs(dy), 0x100, 0, Abs(dy));
    DivModUnique(r[0], 0x80, r[0] / 0x80, Abs(dx));
    DivModUnique(r[1], 0x80, r[1] / 0x80, Abs(dy));
  }

  /**
   * The sign bytes do not say which axis is negative: a move of (-1, 2) and
   * one of (1, -2) give the same record.
   */
  lemma SignBytesDoNotNameAxis(kind: StitchType)
    requires kind.Jump? || kind.Normal? || kind.Trim?
    ensures MoveBytes(kind, -1, 2) == MoveBytes(kind, 1, -2)
  {
  }
}
