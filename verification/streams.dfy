/**
 * Byte streams built the way the writers build them: one chunk of bytes per
 * stitch pushed onto a growing array, then the array flattened into a buffer.
 */
module Streams {
  import opened Numeric

  /** The chunks laid end to end. */
  function Concat<T>(parts: seq<seq<T>>): (r: seq<T>)
    ensures |parts| == 0 ==> r == []
  {
    if parts == [] then [] else Concat(parts[..|parts| - 1]) + parts[|parts| - 1]
  }

  /** Pushing one more chunk appends its bytes. */
  lemma ConcatSnoc<T>(parts: seq<seq<T>>, i: nat)
    requires i < |parts|
    ensures Concat(parts[..i + 1]) == Concat(parts[..i]) + parts[i]
  {
    assert parts[..i + 1][..i] == parts[..i];
  }

  /** Concatenation seen from the front: the first part, then the rest. */
  lemma {:induction false} ConcatHead<T>(parts: seq<seq<T>>)
    requires parts != []
    ensures Concat(parts) == parts[0] + Concat(parts[1..])
  {
    if |parts| > 1 {
      var n := |parts| - 1;
      ConcatHead(parts[..n]);
      assert parts[..n][0] == parts[0];
      assert parts[..n][1..] == parts[1..][..n - 1];
      assert parts[1..][n - 1] == parts[n];
    }
  }

  /** The total number of bytes in the chunks. */
  function TotalLength<T>(parts: seq<seq<T>>): nat {
    if parts == [] then 0 else TotalLength(parts[..|parts| - 1]) + |parts[|parts| - 1]|
  }

  lemma {:induction false} ConcatLength<T>(parts: seq<seq<T>>)
    ensures |Concat(parts)| == TotalLength(parts)
  {
    if parts != [] {
      ConcatLength(parts[..|parts| - 1]);
    }
  }

  /** The bytes of the first i chunks are a prefix of the bytes of all of them. */
  lemma {:induction false} ConcatPrefix<T>(parts: seq<seq<T>>, i: nat)
    requires i <= |parts|
    ensures |Concat(parts[..i])| <= |Concat(parts)|
    ensures Concat(parts)[..|Concat(parts[..i])|] == Concat(parts[..i])
    decreases |parts| - i
  {
    if i < |parts| {
      ConcatSnoc(parts, i);
      ConcatPrefix(parts, i + 1);
      var a := Concat(parts[..i]);
      var b := Concat(parts[..i + 1]);
      assert b[..|a|] == a;
      assert Concat(parts)[..|a|] == Concat(parts)[..|b|][..|a|];
    } else {
      assert parts[..i] == parts;
    }
  }

  /** Chunk i sits in the stream right after the bytes of the chunks before it. */
  lemma ChunkAt<T>(parts: seq<seq<T>>, i: nat)
    requires i < |parts|
    ensures |Concat(parts[..i])| + |parts[i]| <= |Concat(parts)|
    ensures Concat(parts)[|Concat(parts[..i])|..|Concat(parts[..i])| + |parts[i]|] == parts[i]
  {
    ConcatSnoc(parts, i);
    ConcatPrefix(parts, i + 1);
    var a := Concat(parts[..i]);
    var b := Concat(parts[..i + 1]);
    assert Concat(parts)[|a|..|a| + |parts[i]|] == b[|a|..];
  }

  lemma AppendAssoc<T>(a: seq<T>, b: seq<T>, c: seq<T>)
    ensures a + (b + c) == (a + b) + c
  {
  }

  /** A slice lying wholly in the second part of a concatenation. */
  lemma SliceOfSecond<T>(a: seq<T>, b: seq<T>, lo: nat, hi: nat)
    requires |a| <= lo <= hi <= |a| + |b|
    ensures (a + b)[lo..hi] == b[lo - |a|..hi - |a|]
  {
  }

  /** A slice lying wholly in the first part of a concatenation. */
  lemma SliceOfFirst<T>(a: seq<T>, b: seq<T>, lo: nat, hi: nat)
    requires lo <= hi <= |a|
    ensures (a + b)[lo..hi] == a[lo..hi]
  {
  }

  /** A byte read back as a signed 8-bit integer. */
  function Signed8(b: byte): int {
    if b >= 128 then b - 256 else b
  }

  /** `d & 0xFF` reads back as d whenever d fits in a signed byte. */
  lemma Signed8RoundTrip(d: int)
    requires -128 <= d <= 127
    ensures Signed8(Low8(d)) == d
  {
    if d < 0 {
      DivModUnique(d, 256, -1, d + 256);
    }
  }

  /** A 16-bit little-endian pair read back as a signed 16-bit integer. */
  function Signed16(lo: byte, hi: byte): int {
    var u := lo + 256 * hi;
    if u >= 0x8000 then u - 0x1_0000 else u
  }

  /** A DataView or typed-array write of `bytes` at `offset` into a buffer that holds them. */
  method Store(buf: array<byte>, offset: nat, bytes: seq<byte>)
    requires offset + |bytes| <= buf.Length
    modifies buf
    ensures buf[..] == Put(old(buf[..]), offset, bytes)
  {
    var i := 0;
    PutContents(old(buf[..]), offset, bytes[..0]);
    while i < |bytes|
      invariant 0 <= i <= |bytes|
      invariant buf[..] == Put(old(buf[..]), offset, bytes[..i])
    {
      PutContents(old(buf[..]), offset, bytes[..i]);
      PutContents(old(buf[..]), offset, bytes[..i + 1]);
      buf[offset + i] := bytes[i];
      i := i + 1;
    }
    assert bytes[..i] == bytes;
  }

  /** `new Uint8Array(numbers)`: each number pushed kept modulo 256. */
  function Uint8Of(values: seq<int>): (r: seq<byte>)
    ensures |r| == |values|
  {
    seq(|values|, i requires 0 <= i < |values| => Low8(values[i]))
  }

  lemma Uint8OfAppend(a: seq<int>, b: seq<int>)
    ensures Uint8Of(a + b) == Uint8Of(a) + Uint8Of(b)
  {
  }

  // ---------------------------------------------------------------------
  // Chunks of one size

  predicate Uniform(parts: seq<seq<byte>>, size: nat) {
    forall j :: 0 <= j < |parts| ==> |parts[j]| == size
  }

  lemma {:induction false} UniformLength(parts: seq<seq<byte>>, size: nat)
    requires Uniform(parts, size)
    ensures |Concat(parts)| == size * |parts|
  {
    if parts != [] {
      var n := |parts| - 1;
      assert Uniform(parts[..n], size) by {
        forall j | 0 <= j < n
          ensures |parts[..n][j]| == size
        {
          assert parts[..n][j] == parts[j];
        }
      }
      UniformLength(parts[..n], size);
      MulSucc(size, n);
    }
  }

  lemma MulSucc(a: nat, n: nat)
    ensures a * n + a == a * (n + 1)
  {
  }

  /** With chunks of one size, chunk k occupies bytes size·k up to size·(k+1). */
  lemma UniformChunkAt(parts: seq<seq<byte>>, size: nat, k: nat)
    requires Uniform(parts, size) && k < |parts|
    ensures size * k + size <= |Concat(parts)|
    ensures Concat(parts)[size * k..size * k + size] == parts[k]
  {
    ChunkAt(parts, k);
    UniformLength(parts[..k], size);
  }

  /**
   * Two more bytes written at the end of what is filled so far, in a buffer
   * whose unfilled tail is still zero.
   */
  lemma FillPair(written: seq<byte>, rest: nat, b0: byte, b1: byte)
    requires rest >= 2
    ensures (written + Zeros(rest))[|written| := b0][|written| + 1 := b1] == (written + [b0, b1]) + Zeros(rest - 2)
  {
  }

  // ---------------------------------------------------------------------
  // Fixed-offset header fields

  /** A value a header writer stores at a fixed offset. */
  datatype Field = Field(offset: nat, bytes: seq<byte>)

  function FieldEnd(f: Field): nat {
    f.offset + |f.bytes|
  }

  /** Every field lies inside a buffer of n bytes. */
  predicate FieldsFit(fields: seq<Field>, n: nat) {
    forall j :: 0 <= j < |fields| ==> FieldEnd(fields[j]) <= n
  }

  /** The fields come in increasing offset order and do not overlap. */
  predicate Ascending(fields: seq<Field>) {
    forall i, j :: 0 <= i < j < |fields| ==> FieldEnd(fields[i]) <= fields[j].offset
  }

  predicate InField(fields: seq<Field>, i: nat) {
    exists j :: 0 <= j < |fields| && fields[j].offset <= i < FieldEnd(fields[j])
  }

  /** The fields written into the buffer one after another. */
  function PutAll(buf: seq<byte>, fields: seq<Field>): (r: seq<byte>)
    requires FieldsFit(fields, |buf|)
    ensures |r| == |buf|
  {
    if fields == [] then buf
    else
      var last := fields[|fields| - 1];
      Put(PutAll(buf, fields[..|fields| - 1]), last.offset, last.bytes)
  }

  /** Writing one more field. */
  lemma PutAllSnoc(buf: seq<byte>, fields: seq<Field>, k: nat)
    requires FieldsFit(fields, |buf|) && k < |fields|
    ensures PutAll(buf, fields[..k + 1]) == Put(PutAll(buf, fields[..k]), fields[k].offset, fields[k].bytes)
  {
    assert fields[..k + 1][..k] == fields[..k];
  }

  /** Each field reads back as written. */
  lemma {:induction false} PutAllFields(buf: seq<byte>, fields: seq<Field>)
    requires FieldsFit(fields, |buf|) && Ascending(fields)
    ensures forall j :: 0 <= j < |fields| ==> PutAll(buf, fields)[fields[j].offset..FieldEnd(fields[j])] == fields[j].bytes
  {
    if fields != [] {
      var n := |fields| - 1;
      var init := fields[..n];
      var last := fields[n];
      assert forall j :: 0 <= j < n ==> init[j] == fields[j];
      PutAllFields(buf, init);
      var before := PutAll(buf, init);
      PutSlice(before, last.offset, last.bytes);
      forall j | 0 <= j < n
        ensures PutAll(buf, fields)[fields[j].offset..FieldEnd(fields[j])] == fields[j].bytes
      {
        PutKeeps(before, last.offset, last.bytes, fields[j].offset, FieldEnd(fields[j]));
      }
    }
  }

  /** Every byte outside the fields is the buffer's own. */
  lemma {:induction false} PutAllElsewhere(buf: seq<byte>, fields: seq<Field>)
    requires FieldsFit(fields, |buf|)
    ensures forall i :: 0 <= i < |buf| && !InField(fields, i) ==> PutAll(buf, fields)[i] == buf[i]
  {
    if fields != [] {
      var n := |fields| - 1;
      var init := fields[..n];
      var last := fields[n];
      assert forall j :: 0 <= j < n ==> init[j] == fields[j];
      PutAllElsewhere(buf, init);
      var before := PutAll(buf, init);
      PutContents(before, last.offset, last.bytes);
      forall i | 0 <= i < |buf| && !InField(fields, i)
        ensures PutAll(buf, fields)[i] == buf[i]
      {
        assert !(last.offset <= i < FieldEnd(last));
        assert !InField(init, i);
      }
    }
  }
}
