/**
 * The DST writer (src/lib/embroidery/formats/dst.ts): a 512-byte text header
 * followed by three-byte stitch records, in the layout the code writes.
 */
module Dst {
  import opened Wrappers
  import opened Numeric
  import opened Types
  import opened Streams

  datatype Bounds = Bounds(minX: real, maxX: real, minY: real, maxY: real)

  /** Coordinates as the converter hands them to the writers: whole numbers. */
  predicate MachineCoordinates(s: seq<StitchPoint>) {
    forall i :: 0 <= i < |s| ==> Integral(s[i].x) && Integral(s[i].y)
  }

  /** calculateBounds: the extreme coordinates, each attained by some stitch. */
  function CalculateBounds(s: seq<StitchPoint>): (b: Bounds)
    requires |s| > 0
    ensures forall i :: 0 <= i < |s| ==> b.minX <= s[i].x <= b.maxX && b.minY <= s[i].y <= b.maxY
    ensures exists i :: 0 <= i < |s| && s[i].x == b.minX
    ensures exists i :: 0 <= i < |s| && s[i].x == b.maxX
    ensures exists i :: 0 <= i < |s| && s[i].y == b.minY
    ensures exists i :: 0 <= i < |s| && s[i].y == b.maxY
  {
    if |s| == 1 then Bounds(s[0].x, s[0].x, s[0].y, s[0].y)
    else
      var b := CalculateBounds(s[..|s| - 1]);
      var t := s[|s| - 1];
      Bounds(MinReal(b.minX, t.x), MaxReal(b.maxX, t.x), MinReal(b.minY, t.y), MaxReal(b.maxY, t.y))
  }

  /** The twelve header lines, in order. */
  function HeaderLines(p: StitchPattern): (lines: seq<string>)
    requires |p.stitches| > 0 && MachineCoordinates(p.stitches)
    ensures |lines| == 12
  {
    HeaderLinesFor(|p.stitches|, |p.colors|, CalculateBounds(p.stitches))
  }

  /** The header lines for a stitch count, a colour count and the design's bounds. */
  function HeaderLinesFor(stitches: nat, colors: nat, b: Bounds): (lines: seq<string>)
    ensures |lines| == 12
  {
    [ "LA:Design Studio",
      Tagged("ST:", stitches),
      Tagged("CO:", colors),
      Tagged("+X:", b.maxX.Floor),
      Tagged("-X:", Abs(b.minX.Floor)),
      Tagged("+Y:", b.maxY.Floor),
      Tagged("-Y:", Abs(b.minY.Floor)),
      "AX:+0",
      "AY:+0",
      "MX:+0",
      "MY:+0",
      "PD:******" ]
  }

  /**
   * The header opens with the fixed label, and its ST and CO lines read back
   * as the stitch count and the colour count.
   */
  lemma HeaderCounts(stitches: nat, colors: nat, b: Bounds)
    ensures var lines := HeaderLinesFor(stitches, colors, b);
      lines[0] == "LA:Design Studio" &&
      |lines[1]| > 3 && lines[1][..3] == "ST:" && DigitsValue(lines[1][3..]) == stitches &&
      |lines[2]| > 3 && lines[2][..3] == "CO:" && DigitsValue(lines[2][3..]) == colors
  {
    var lines := HeaderLinesFor(stitches, colors, b);
    assert lines[1] == Tagged("ST:", stitches);
    assert lines[2] == Tagged("CO:", colors);
    TaggedCount("ST:", stitches);
    TaggedCount("CO:", colors);
  }

  /** A header line: a three-character tag followed by the decimal text of a number. */
  function Tagged(tag: string, n: int): string {
    tag + Decimal(n)
  }

  /** A three-letter tag followed by the decimal text of a count: the count reads back after the tag. */
  lemma TaggedCount(tag: string, n: nat)
    requires |tag| == 3
    ensures |Tagged(tag, n)| > 3 && Tagged(tag, n)[..3] == tag && DigitsValue(Tagged(tag, n)[3..]) == n
  {
    DigitsRoundTrip(n);
    assert (tag + Decimal(n))[3..] == Digits(n);
  }

  /** `lines.join('\r\n') + '\r\n'`: every line terminated by CR LF. */
  function CrlfLines(lines: seq<string>): (text: string)
    ensures |text| >= 2 * |lines|
  {
    if lines == [] then "" else lines[0] + "\r\n" + CrlfLines(lines[1..])
  }

  /** The header text is the concatenation of its lines, each followed by CR LF. */
  lemma {:induction false} CrlfLinesSplit(lines: seq<string>, k: nat)
    requires k <= |lines|
    ensures CrlfLines(lines) == CrlfLines(lines[..k]) + CrlfLines(lines[k..])
  {
    if k > 0 {
      CrlfLinesSplit(lines[1..], k - 1);
      assert lines[1..][..k - 1] == lines[..k][1..];
      assert lines[1..][k - 1..] == lines[k..];
    } else {
      assert lines[k..] == lines;
    }
  }

  function HeaderText(p: StitchPattern): string
    requires |p.stitches| > 0 && MachineCoordinates(p.stitches)
  {
    CrlfLines(HeaderLines(p))
  }

  /**
   * The header block: the encoded text at offset 0 and zeros after it. A text
   * longer than 512 bytes makes `Uint8Array.set` throw a RangeError.
   */
  function HeaderBytes(p: StitchPattern): (r: Result<seq<byte>, Error>)
    requires |p.stitches| > 0 && MachineCoordinates(p.stitches)
    ensures r.Success? <==> |Utf8(HeaderText(p))| <= 512
    ensures r.Success? ==> |r.value| == 512
    ensures r.Success? ==> r.value[..|Utf8(HeaderText(p))|] == Utf8(HeaderText(p))
    ensures r.Success? ==> forall i :: |Utf8(HeaderText(p))| <= i < 512 ==> r.value[i] == 0
  {
    var text := Utf8(HeaderText(p));
    if |text| > 512 then Failure(PlainError("offset is out of bounds"))
    else
      PutContents(Zeros(512), 0, text);
      Success(Put(Zeros(512), 0, text))
  }

  /** createHeader: a zeroed 512-byte block with the encoded header text copied in. */
  method CreateHeader(p: StitchPattern) returns (r: Result<seq<byte>, Error>)
    requires |p.stitches| > 0 && MachineCoordinates(p.stitches)
    ensures r == HeaderBytes(p)
  {
    var text := Utf8(HeaderText(p));
    if |text| > 512 {
      return Failure(PlainError("offset is out of bounds"));
    }
    var block := CopyIntoBlock(text);
    r := Success(block);
  }

  /** `new Uint8Array(512)` followed by `set(text)`. */
  method CopyIntoBlock(text: seq<byte>) returns (block: seq<byte>)
    requires |text| <= 512
    ensures block == Put(Zeros(512), 0, text)
  {
    var view := new byte[512](_ => 0);
    var i := 0;
    while i < |text|
      invariant 0 <= i <= |text|
      invariant forall k :: 0 <= k < 512 ==> view[k] == if k < i then text[k] else 0
    {
      view[i] := text[i];
      i := i + 1;
    }
    PutContents(Zeros(512), 0, text);
    assert view[..] == Put(Zeros(512), 0, text);
    block := view[..];
  }

  /** The type bits `encodeStitchDelta` ORs into the third byte; trim falls under the default. */
  function TypeBits(kind: StitchType): byte {
    match kind
    case Jump => 0x83
    case Stop => 0xC3
    case End => 0xF3
    case _ => 0x03
  }

  function Clamp121(d: int): (c: int)
    ensures -121 <= c <= 121
    ensures -121 <= d <= 121 ==> c == d
  {
    MaxInt(-121, MinInt(121, d))
  }

  /**
   * The third byte of a record for clamped magnitudes x and y: both high
   * nibbles ORed together (`((y & 0xF0) >> 4) | ((x & 0xF0) >> 4)`), then the
   * sign bits, then the type bits.
   */
  function ControlByte(x: int, y: int, negX: bool, negY: bool, kind: StitchType): byte
    requires 0 <= x <= 121 && 0 <= y <= 121
  {
    var high := OrByte(y / 16, x / 16);
    var signed := OrByte(OrByte(high, if negX then 0x20 else 0), if negY then 0x40 else 0);
    OrByte(signed, TypeBits(kind))
  }

  /**
   * The control byte always has its two low bits set; its top bit marks a
   * jump, stop or end; for normal, trim and jump records bits 5 and 6 are the
   * signs of x and y.
   */
  lemma ControlByteBits(x: int, y: int, negX: bool, negY: bool, kind: StitchType)
    requires 0 <= x <= 121 && 0 <= y <= 121
    ensures Bit(ControlByte(x, y, negX, negY, kind), 0) && Bit(ControlByte(x, y, negX, negY, kind), 1)
    ensures Bit(ControlByte(x, y, negX, negY, kind), 7) <==> !(kind.Normal? || kind.Trim?)
    ensures (kind.Normal? || kind.Trim? || kind.Jump?) ==>
      ((Bit(ControlByte(x, y, negX, negY, kind), 5) <==> negX)
       && (Bit(ControlByte(x, y, negX, negY, kind), 6) <==> negY))
  {
    var high := OrByte(y / 16, x / 16);
    assert Pow2(3) == 8;
    OrBound(y / 16, x / 16, 3);
    BitAboveBound(high, 3, 5);
    BitAboveBound(high, 3, 6);
    BitAboveBound(high, 3, 7);
    ControlBit(x, y, negX, negY, kind, 0);
    ControlBit(x, y, negX, negY, kind, 1);
    ControlBit(x, y, negX, negY, kind, 5);
    ControlBit(x, y, negX, negY, kind, 6);
    ControlBit(x, y, negX, negY, kind, 7);
    TypeBitsBits(kind);
    assert Bit(0x20, 5) && !Bit(0x20, 0) && !Bit(0x20, 1) && !Bit(0x20, 6) && !Bit(0x20, 7);
    assert Bit(0x40, 6) && !Bit(0x40, 0) && !Bit(0x40, 1) && !Bit(0x40, 5) && !Bit(0x40, 7);
  }

  /** The type bits: both low bits, the top bit except for normal and trim, no sign bits for those and jump. */
  lemma TypeBitsBits(kind: StitchType)
    ensures Bit(TypeBits(kind), 0) && Bit(TypeBits(kind), 1)
    ensures Bit(TypeBits(kind), 7) <==> !(kind.Normal? || kind.Trim?)
    ensures (kind.Normal? || kind.Trim? || kind.Jump?) ==> !Bit(TypeBits(kind), 5) && !Bit(TypeBits(kind), 6)
  {
    match kind
    case Jump =>
      assert Bit(0x83, 0) && Bit(0x83, 1) && Bit(0x83, 7) && !Bit(0x83, 5) && !Bit(0x83, 6);
    case Stop =>
      assert Bit(0xC3, 0) && Bit(0xC3, 1) && Bit(0xC3, 7);
    case End =>
      assert Bit(0xF3, 0) && Bit(0xF3, 1) && Bit(0xF3, 7);
    case _ =>
      assert Bit(0x03, 0) && Bit(0x03, 1) && !Bit(0x03, 7) && !Bit(0x03, 5) && !Bit(0x03, 6);
  }

  /** A bit of the control byte is set when it is set in the high nibbles, a sign flag or the type bits. */
  lemma ControlBit(x: int, y: int, negX: bool, negY: bool, kind: StitchType, k: nat)
    requires 0 <= x <= 121 && 0 <= y <= 121
    ensures Bit(ControlByte(x, y, negX, negY, kind), k) <==>
      Bit(OrByte(y / 16, x / 16), k) || (negX && Bit(0x20, k)) || (negY && Bit(0x40, k)) || Bit(TypeBits(kind), k)
  {
    var sx: byte := if negX then 0x20 else 0;
    var sy: byte := if negY then 0x40 else 0;
    var high := OrByte(y / 16, x / 16);
    var withX := OrByte(high, sx);
    var signed := OrByte(withX, sy);
    OrBit(signed, TypeBits(kind), k);
    OrBit(withX, sy, k);
    OrBit(high, sx, k);
    BitOfZero(k);
  }

  /**
   * encodeStitchDelta: the clamped magnitudes' low nibbles (`y & 0x0F`,
   * `x & 0x0F`) in bytes 0 and 1, then the control byte.
   */
  function EncodeStitchDelta(dx: int, dy: int, kind: StitchType): (r: seq<byte>)
    ensures |r| == 3
  {
    var cx := Clamp121(dx);
    var cy := Clamp121(dy);
    [Abs(cy) % 16, Abs(cx) % 16, ControlByte(Abs(cx), Abs(cy), cx < 0, cy < 0, kind)]
  }

  /**
   * The layout of one record: deltas clamped to ±121, low nibbles below 16,
   * the low two control bits always set, the top bit set exactly for jump,
   * stop and end, and the sign bits for normal, trim and jump records.
   */
  lemma DeltaRecordLayout(dx: int, dy: int, kind: StitchType)
    ensures var r := EncodeStitchDelta(dx, dy, kind);
      && r[0] < 16 && r[1] < 16
      && r[0] == Abs(Clamp121(dy)) % 16 && r[1] == Abs(Clamp121(dx)) % 16
      && Bit(r[2], 0) && Bit(r[2], 1)
      && (Bit(r[2], 7) <==> !(kind.Normal? || kind.Trim?))
      && ((kind.Normal? || kind.Trim? || kind.Jump?) ==>
          ((Bit(r[2], 5) <==> dx < 0) && (Bit(r[2], 6) <==> dy < 0)))
  {
    var cx := Clamp121(dx);
    var cy := Clamp121(dy);
    ControlByteBits(Abs(cx), Abs(cy), cx < 0, cy < 0, kind);
  }

  /** The initial record and the end-of-file marker. */
  lemma MarkerRecords()
    ensures EncodeStitchDelta(0, 0, Normal) == [0x00, 0x00, 0x03]
  {
  }

  /** How many records a move of (dx, dy) is split into. */
  function StepCount(dx: int, dy: int): (steps: int)
    ensures Abs(dx) > 121 || Abs(dy) > 121 ==> steps >= 2
  {
    MaxInt(Ceil(Abs(dx) as real / 121.0), Ceil(Abs(dy) as real / 121.0))
  }

  /**
   * The i-th sub-delta of a split move of d in `steps` steps of `step` =
   * d/steps, as written: the last one computed from what remains.
   */
  function SplitMove(d: int, step: real, steps: int, i: int): int {
    Round(if i == steps - 1 then d as real - Covered(step, i) else step)
  }

  /** `step * i`: the distance i whole steps cover. */
  function Covered(step: real, i: int): real
    decreases i
  {
    if i <= 0 then 0.0 else Covered(step, i - 1) + step
  }

  lemma {:induction false} CoveredIsProduct(step: real, i: nat)
    ensures Covered(step, i) == step * i as real
  {
    if i > 0 {
      CoveredIsProduct(step, i - 1);
      assert step * (i - 1) as real + step == step * i as real;
    }
  }

  /** Records i.. of a split move; all are jumps except the last, which carries the stitch type. */
  function SplitRecords(dx: int, dy: int, stepX: real, stepY: real, steps: int, i: nat, kind: StitchType): (r: seq<byte>)
    ensures |r| == if i < steps then 3 * (steps - i) else 0
    decreases steps - i
  {
    if i >= steps then []
    else SplitRecord(dx, dy, stepX, stepY, steps, i, kind) + SplitRecords(dx, dy, stepX, stepY, steps, i + 1, kind)
  }

  /** Record i of a split move: the i-th sub-delta, a jump unless it is the last. */
  function SplitRecord(dx: int, dy: int, stepX: real, stepY: real, steps: int, i: nat, kind: StitchType): (r: seq<byte>)
    ensures |r| == 3
  {
    EncodeStitchDelta(SplitMove(dx, stepX, steps, i), SplitMove(dy, stepY, steps, i), if i == steps - 1 then kind else Jump)
  }

  /** One turn of the split loop: record i moves from the pending part to the written part. */
  lemma SplitRecordsStep(dx: int, dy: int, stepX: real, stepY: real, steps: int, i: nat, kind: StitchType, written: seq<byte>)
    requires i < steps
    ensures written + SplitRecords(dx, dy, stepX, stepY, steps, i, kind)
      == (written + SplitRecord(dx, dy, stepX, stepY, steps, i, kind))
        + SplitRecords(dx, dy, stepX, stepY, steps, i + 1, kind)
  {
  }

  /** The records one stitch contributes for a rounded move of (dx, dy). */
  function MoveRecords(dx: int, dy: int, kind: StitchType): seq<byte> {
    if Abs(dx) > 121 || Abs(dy) > 121 then
      var steps := StepCount(dx, dy);
      SplitRecords(dx, dy, dx as real / steps as real, dy as real / steps as real, steps, 0, kind)
    else EncodeStitchDelta(dx, dy, kind)
  }

  /** The records of the stitches, each measured from the previous stitch, the first from (lastX, lastY). */
  function Records(s: seq<StitchPoint>, lastX: real, lastY: real): seq<byte> {
    if s == [] then []
    else StitchRecords(s[0], lastX, lastY) + Records(s[1..], s[0].x, s[0].y)
  }

  /** The records of one stitch, its move rounded from (lastX, lastY). */
  function StitchRecords(p: StitchPoint, lastX: real, lastY: real): seq<byte> {
    MoveRecords(Round(p.x - lastX), Round(p.y - lastY), p.kind)
  }

  /** One turn of the encoding loop: stitch i's records move from the pending part to the written part. */
  lemma RecordsStep(s: seq<StitchPoint>, i: nat, lastX: real, lastY: real, written: seq<byte>)
    requires i < |s|
    ensures written + Records(s[i..], lastX, lastY)
      == (written + StitchRecords(s[i], lastX, lastY)) + Records(s[i + 1..], s[i].x, s[i].y)
  {
    RecordsAt(s, i, lastX, lastY);
    AppendAssoc(written, StitchRecords(s[i], lastX, lastY), Records(s[i + 1..], s[i].x, s[i].y));
  }

  /** The records from stitch i on: stitch i's, then those of the rest measured from it. */
  lemma RecordsAt(s: seq<StitchPoint>, i: nat, lastX: real, lastY: real)
    requires i < |s|
    ensures Records(s[i..], lastX, lastY) == StitchRecords(s[i], lastX, lastY) + Records(s[i + 1..], s[i].x, s[i].y)
  {
    assert s[i..][0] == s[i];
    assert s[i..][1..] == s[i + 1..];
  }

  /** The whole stitch stream: the initial record, the stitches from (0, 0), the end marker. */
  function StitchStream(s: seq<StitchPoint>): seq<byte> {
    EncodeStitchDelta(0, 0, Normal) + Records(s, 0.0, 0.0) + [0x00, 0x00, 0xF3]
  }

  /** The inner loop of encodeStitches for a long move: `steps` records of `step`-sized sub-deltas. */
  method EncodeSplit(dx: int, dy: int, stepX: real, stepY: real, steps: int, kind: StitchType) returns (data: seq<byte>)
    ensures data == SplitRecords(dx, dy, stepX, stepY, steps, 0, kind)
  {
    ghost var all := SplitRecords(dx, dy, stepX, stepY, steps, 0, kind);
    data := [];
    var i := 0;
    assert data + all == all;
    while i < steps
      invariant 0 <= i && (steps >= 0 ==> i <= steps)
      invariant data + SplitRecords(dx, dy, stepX, stepY, steps, i, kind) == all
    {
      var isLastStep := i == steps - 1;
      var record := EncodeStitchDelta(SplitMove(dx, stepX, steps, i), SplitMove(dy, stepY, steps, i), if isLastStep then kind else Jump);
      assert record == SplitRecord(dx, dy, stepX, stepY, steps, i, kind);
      SplitRecordsStep(dx, dy, stepX, stepY, steps, i, kind, data);
      data := data + record;
      i := i + 1;
    }
    assert SplitRecords(dx, dy, stepX, stepY, steps, i, kind) == [];
  }

  /** The body of the encoding loop for one stitch: a single record, or the split jumps. */
  method EncodeMove(dx: int, dy: int, kind: StitchType) returns (data: seq<byte>)
    ensures data == MoveRecords(dx, dy, kind)
  {
    if Abs(dx) > 121 || Abs(dy) > 121 {
      var steps := MaxInt(Ceil(Abs(dx) as real / 121.0), Ceil(Abs(dy) as real / 121.0));
      data := EncodeSplit(dx, dy, dx as real / steps as real, dy as real / steps as real, steps, kind);
    } else {
      data := EncodeStitchDelta(dx, dy, kind);
    }
  }

  /** encodeStitches. */
  method EncodeStitches(stitches: seq<StitchPoint>) returns (data: seq<byte>)
    ensures data == StitchStream(stitches)
  {
    data := EncodeStitchDelta(0, 0, Normal);
    var lastX, lastY := 0.0, 0.0;
    var i := 0;
    while i < |stitches|
      invariant 0 <= i <= |stitches|
      invariant data + Records(stitches[i..], lastX, lastY)
        == EncodeStitchDelta(0, 0, Normal) + Records(stitches, 0.0, 0.0)
    {
      var move := EncodeMove(Round(stitches[i].x - lastX), Round(stitches[i].y - lastY), stitches[i].kind);
      RecordsStep(stitches, i, lastX, lastY, data);
      data := data + move;
      lastX, lastY := stitches[i].x, stitches[i].y;
      i := i + 1;
    }
    data := data + [0x00, 0x00, 0xF3];
  }

  /** write: the header block followed by the stitch stream. */
  function DstFile(p: StitchPattern): (r: Result<seq<byte>, Error>)
    requires |p.stitches| > 0 && MachineCoordinates(p.stitches)
    ensures r.Success? <==> HeaderBytes(p).Success?
    ensures r.Success? ==> |r.value| == 512 + |StitchStream(p.stitches)|
    ensures r.Success? ==> r.value[..512] == HeaderBytes(p).value && r.value[512..] == StitchStream(p.stitches)
  {
    match HeaderBytes(p)
    case Failure(e) => Failure(e)
    case Success(header) => Success(header + StitchStream(p.stitches))
  }

  /** DSTWriter.write. */
  method Write(p: StitchPattern) returns (r: Result<seq<byte>, Error>)
    requires |p.stitches| > 0 && MachineCoordinates(p.stitches)
    ensures r == DstFile(p)
  {
    var header := CreateHeader(p);
    if header.Failure? {
      return Failure(header.error);
    }
    var stitchData := EncodeStitches(p.stitches);
    r := Success(header.value + stitchData);
  }

  // ---------------------------------------------------------------------
  // Properties of the stream

  /** The number of records the stitches contribute: one per short move, StepCount per long one. */
  function RecordCount(s: seq<StitchPoint>, lastX: real, lastY: real): nat {
    if s == [] then 0
    else
      var dx := Round(s[0].x - lastX);
      var dy := Round(s[0].y - lastY);
      (if Abs(dx) > 121 || Abs(dy) > 121 then StepCount(dx, dy) else 1) + RecordCount(s[1..], s[0].x, s[0].y)
  }

  /** The stream is whole three-byte records: 512 + 3·(records) bytes in the file. */
  lemma {:induction false} RecordsLength(s: seq<StitchPoint>, lastX: real, lastY: real)
    ensures |Records(s, lastX, lastY)| == 3 * RecordCount(s, lastX, lastY)
    ensures RecordCount(s, lastX, lastY) >= |s|
  {
    if s != [] {
      RecordsLength(s[1..], s[0].x, s[0].y);
    }
  }

  lemma StreamLength(s: seq<StitchPoint>)
    ensures |StitchStream(s)| == 3 * (RecordCount(s, 0.0, 0.0) + 2)
  {
    RecordsLength(s, 0.0, 0.0);
  }

  /** The stream opens with 00 00 03 and closes with 00 00 F3. */
  lemma StreamMarkers(s: seq<StitchPoint>)
    ensures StitchStream(s)[..3] == [0x00, 0x00, 0x03]
    ensures StitchStream(s)[|StitchStream(s)| - 3..] == [0x00, 0x00, 0xF3]
  {
    MarkerRecords();
  }

  /** A move within ±121 on both axes is one record carrying the stitch's own type. */
  lemma ShortMoveIsOneRecord(dx: int, dy: int, kind: StitchType)
    requires Abs(dx) <= 121 && Abs(dy) <= 121
    ensures |MoveRecords(dx, dy, kind)| == 3
    ensures Bit(MoveRecords(dx, dy, kind)[2], 7) <==> !(kind.Normal? || kind.Trim?)
    ensures MoveRecords(dx, dy, kind)[0] == Abs(dy) % 16 && MoveRecords(dx, dy, kind)[1] == Abs(dx) % 16
  {
    DeltaRecordLayout(dx, dy, kind);
  }

  /**
   * Record j of a split move: a jump of the j-th sub-delta, except the last,
   * which carries the stitch type.
   */
  lemma {:induction false} SplitRecordAt(dx: int, dy: int, stepX: real, stepY: real, steps: int, i: nat, kind: StitchType, j: nat)
    requires i <= j < steps
    ensures SplitRecords(dx, dy, stepX, stepY, steps, i, kind)[3 * (j - i)..3 * (j - i) + 3]
      == SplitRecord(dx, dy, stepX, stepY, steps, j, kind)
    decreases j - i
  {
    var head := SplitRecord(dx, dy, stepX, stepY, steps, i, kind);
    var tail := SplitRecords(dx, dy, stepX, stepY, steps, i + 1, kind);
    assert SplitRecords(dx, dy, stepX, stepY, steps, i, kind) == head + tail;
    if i < j {
      SplitRecordAt(dx, dy, stepX, stepY, steps, i + 1, kind, j);
      SliceOfSecond(head, tail, 3 * (j - i), 3 * (j - i) + 3);
    } else {
      SliceOfFirst(head, tail, 0, 3);
      assert head[0..3] == head;
    }
  }

  /** A long move yields StepCount records, all jumps but the last, which carries the stitch type. */
  lemma LongMoveRecords(dx: int, dy: int, kind: StitchType, j: nat)
    requires Abs(dx) > 121 || Abs(dy) > 121
    requires j < StepCount(dx, dy)
    ensures |MoveRecords(dx, dy, kind)| == 3 * StepCount(dx, dy)
    ensures j < StepCount(dx, dy) - 1 ==> Bit(MoveRecords(dx, dy, kind)[3 * j + 2], 7)
    ensures j == StepCount(dx, dy) - 1 ==>
      (Bit(MoveRecords(dx, dy, kind)[3 * j + 2], 7) <==> !(kind.Normal? || kind.Trim?))
  {
    var steps := StepCount(dx, dy);
    var stepX, stepY := dx as real / steps as real, dy as real / steps as real;
    SplitRecordAt(dx, dy, stepX, stepY, steps, 0, kind, j);
    var k := if j == steps - 1 then kind else Jump;
    DeltaRecordLayout(SplitMove(dx, stepX, steps, j), SplitMove(dy, stepY, steps, j), k);
    var rec := MoveRecords(dx, dy, kind)[3 * j..3 * j + 3];
    assert MoveRecords(dx, dy, kind)[3 * j + 2] == rec[2];
  }

  /** The total a split moves along one axis, as written. */
  function SplitTotal(d: int, steps: int, n: nat): int
    requires steps > 0
  {
    if n == 0 then 0 else SplitTotal(d, steps, n - 1) + SplitMove(d, d as real / steps as real, steps, n - 1)
  }

  /**
   * Over the reals the "remaining" last step equals every other step, so every
   * sub-delta is round(d/steps).
   */
  lemma SplitMovesAreEqual(d: int, steps: int, i: int)
    requires steps > 0 && 0 <= i < steps
    ensures SplitMove(d, d as real / steps as real, steps, i) == Round(d as real / steps as real)
  {
    var step := d as real / steps as real;
    if i == steps - 1 {
      CoveredIsProduct(step, i);
      assert step * steps as real == d as real;
      assert d as real - step * i as real == step;
    }
  }

  /** A split moves steps·round(d/steps) in all, which can differ from d. */
  lemma {:induction false} SplitTotalIsMultiple(d: int, steps: int, n: nat)
    requires 0 < steps && n <= steps
    ensures SplitTotal(d, steps, n) == n * Round(d as real / steps as real)
  {
    if n > 0 {
      SplitTotalIsMultiple(d, steps, n - 1);
      SplitMovesAreEqual(d, steps, n - 1);
    }
  }

  /** A move of 250 along x is written as three jumps of 83: 249 in all, one short. */
  lemma SplitLosesRemainder()
    ensures StepCount(250, 0) == 3
    ensures SplitTotal(250, 3, 3) == 249
  {
    SplitTotalIsMultiple(250, 3, 3);
    assert Round(250.0 / 3.0) == 83;
  }

  // ---------------------------------------------------------------------
  // The split as evidently intended: cumulative rounding, so the sub-deltas add up

  /** The rounded position after k of the steps steps of a move of d. */
  function Share(d: int, steps: int, k: int): int
    requires steps > 0
  {
    Round(d as real * k as real / steps as real)
  }

  /** The i-th sub-delta when each step rounds the running total rather than the step. */
  function CorrectedSplitMove(d: int, steps: int, i: int): int
    requires steps > 0
  {
    Share(d, steps, i + 1) - Share(d, steps, i)
  }

  function CorrectedSplitSum(d: int, steps: int, n: nat): int
    requires steps > 0
  {
    if n == 0 then 0 else CorrectedSplitSum(d, steps, n - 1) + CorrectedSplitMove(d, steps, n - 1)
  }

  /** The first n corrected sub-deltas add up to the rounded share of n steps. */
  lemma {:induction false} CorrectedPartialSum(d: int, steps: int, n: nat)
    requires steps > 0
    ensures CorrectedSplitSum(d, steps, n) == Share(d, steps, n)
  {
    if n > 0 {
      CorrectedPartialSum(d, steps, n - 1);
    } else {
      assert d as real * 0.0 == 0.0;
    }
  }

  lemma WholeShare(d: int, steps: int)
    requires steps > 0
    ensures d as real * steps as real / steps as real == d as real
  {
  }

  /** All the corrected sub-deltas together move exactly d. */
  lemma CorrectedSplitIsExact(d: int, steps: int)
    requires steps > 0
    ensures CorrectedSplitSum(d, steps, steps) == d
  {
    CorrectedPartialSum(d, steps, steps);
    WholeShare(d, steps);
    RoundOfInt(d);
  }
}
