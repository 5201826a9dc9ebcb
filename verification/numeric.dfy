/**
 * The JavaScript number operations the library relies on, written out over
 * Dafny's unbounded integers and exact reals: Math.round/Math.ceil, the byte
 * masks and typed-array stores, little-endian DataView writes, TextEncoder
 * (UTF-8) and the decimal rendering of an integer in a template string.
 */
module Numeric {

  /** A value stored in a Uint8Array cell or written by DataView.setUint8/setInt8. */
  type byte = b: int | 0 <= b < 256

  /**
   * The transcendental functions of Math, which the model does not define:
   * every operation that needs one of them receives them as a parameter.
   */
  datatype MathLib = MathLib(
    sqrt: real -> real,
    cos: real -> real,
    sin: real -> real,
    atan2: (real, real) -> real,
    pi: real)

  /** `Math.min(...xs)` over a non-empty list: the least element. */
  function Minimum(xs: seq<real>): (m: real)
    requires |xs| > 0
    ensures forall i :: 0 <= i < |xs| ==> m <= xs[i]
    ensures exists i :: 0 <= i < |xs| && xs[i] == m
  {
    if |xs| == 1 then xs[0]
    else
      var rest := Minimum(xs[..|xs| - 1]);
      assert forall i :: 0 <= i < |xs| - 1 ==> xs[..|xs| - 1][i] == xs[i];
      MinReal(rest, xs[|xs| - 1])
  }

  /** `Math.max(...xs)` over a non-empty list: the greatest element. */
  function Maximum(xs: seq<real>): (m: real)
    requires |xs| > 0
    ensures forall i :: 0 <= i < |xs| ==> xs[i] <= m
    ensures exists i :: 0 <= i < |xs| && xs[i] == m
  {
    if |xs| == 1 then xs[0]
    else
      var rest := Maximum(xs[..|xs| - 1]);
      assert forall i :: 0 <= i < |xs| - 1 ==> xs[..|xs| - 1][i] == xs[i];
      MaxReal(rest, xs[|xs| - 1])
  }

  /** Math.round: the nearest integer, halves rounded towards +infinity. */
  function Round(x: real): int {
    (x + 0.5).Floor
  }

  /** Math.ceil. */
  function Ceil(x: real): int {
    -((-x).Floor)
  }

  /** A number with no fractional part, such as the result of Math.round. */
  predicate Integral(x: real) {
    x == x.Floor as real
  }

  function Abs(n: int): nat {
    if n < 0 then -n else n
  }

  function AbsReal(x: real): real {
    if x < 0.0 then -x else x
  }

  function MinReal(a: real, b: real): real {
    if a <= b then a else b
  }

  function MaxReal(a: real, b: real): real {
    if a >= b then a else b
  }

  function MinInt(a: int, b: int): int {
    if a <= b then a else b
  }

  function MaxInt(a: int, b: int): int {
    if a >= b then a else b
  }

  lemma RoundBounds(x: real)
    ensures x - 0.5 < Round(x) as real <= x + 0.5
  {
  }

  lemma RoundOfInt(n: int)
    ensures Round(n as real) == n
  {
  }

  lemma RoundMonotone(x: real, y: real)
    requires x <= y
    ensures Round(x) <= Round(y)
  {
  }

  lemma CeilBounds(x: real)
    ensures x <= Ceil(x) as real < x + 1.0
  {
  }

  lemma PositiveProduct(a: real, b: real)
    requires a > 0.0 && b > 0.0
    ensures a * b > 0.0
  {
  }

  /**
   * Comparing a non-negative length against a non-negative constant is the
   * same as comparing its square against the constant's square; this is why
   * the model compares squared distances where the source takes a square root.
   */
  lemma SquareCompare(d: real, dsq: real, c: real)
    requires 0.0 <= d && d * d == dsq && 0.0 <= c
    ensures (d < c) <==> (dsq < c * c)
    ensures (d > c) <==> (dsq > c * c)
  {
    assert dsq - c * c == (d - c) * (d + c);
    if d > c {
      PositiveProduct(d - c, d + c);
    } else if d < c {
      PositiveProduct(c - d, d + c);
    }
  }

  /**
   * Whether a function is the square root on the non-negative reals, as
   * `Math.sqrt` is up to rounding. The model never defines `sqrt`; lemmas
   * that need its meaning take this as a hypothesis.
   */
  ghost predicate IsSqrt(sqrt: real -> real) {
    forall v: real :: 0.0 <= v ==> 0.0 <= sqrt(v) && sqrt(v) * sqrt(v) == v
  }

  /** A square root exceeds t exactly when its argument exceeds t², and always does for a negative t. */
  lemma SqrtAbove(sqrt: real -> real, v: real, t: real)
    requires IsSqrt(sqrt) && 0.0 <= v
    ensures sqrt(v) > t <==> t < 0.0 || v > t * t
  {
    if t >= 0.0 {
      SquareCompare(sqrt(v), v, t);
    }
  }

  /** A square root is zero exactly at zero. */
  lemma SqrtZero(sqrt: real -> real, v: real)
    requires 0.0 <= v
    ensures IsSqrt(sqrt) ==> (sqrt(v) == 0.0 <==> v == 0.0)
  {
    if IsSqrt(sqrt) {
      SquareCompare(sqrt(v), v, 0.0);
    }
  }

  /** `v & 0xFF`, and the value a Uint8Array or DataView.setInt8/setUint8 keeps of v. */
  function Low8(v: int): byte {
    v % 256
  }

  /** `v & 0x7F`. */
  function Low7(v: int): int {
    v % 128
  }

  function Pow2(k: nat): (r: nat)
    ensures r > 0
  {
    if k == 0 then 1 else 2 * Pow2(k - 1)
  }

  /** Bit k of v, `(v >> k) & 1`. */
  predicate Bit(v: nat, k: nat) {
    if k == 0 then v % 2 == 1 else Bit(v / 2, k - 1)
  }

  /** Bitwise OR of non-negative integers, `a | b`, bit by bit from the lowest. */
  function Or(a: nat, b: nat): nat
    decreases a + b
  {
    if a == 0 then b
    else if b == 0 then a
    else 2 * Or(a / 2, b / 2) + (if a % 2 == 1 || b % 2 == 1 then 1 else 0)
  }

  lemma {:induction false} BitOfZero(k: nat)
    ensures !Bit(0, k)
  {
    if k > 0 {
      BitOfZero(k - 1);
    }
  }

  /** A bit of an OR is set exactly when it is set in either operand. */
  lemma {:induction false} OrBit(a: nat, b: nat, k: nat)
    ensures Bit(Or(a, b), k) <==> Bit(a, k) || Bit(b, k)
    decreases a + b
  {
    if a == 0 || b == 0 {
      BitOfZero(k);
    } else {
      var high := Or(a / 2, b / 2);
      var low := if a % 2 == 1 || b % 2 == 1 then 1 else 0;
      var r := Or(a, b);
      assert r == 2 * high + low;
      assert r / 2 == high && r % 2 == low;
      if k > 0 {
        assert Bit(r, k) == Bit(high, k - 1);
        assert Bit(a, k) == Bit(a / 2, k - 1) && Bit(b, k) == Bit(b / 2, k - 1);
        OrBit(a / 2, b / 2, k - 1);
      }
    }
  }

  /** No bit at or above position n is set in a number below 2^n. */
  lemma {:induction false} BitAboveBound(v: nat, n: nat, k: nat)
    requires v < Pow2(n) && n <= k
    ensures !Bit(v, k)
  {
    if n > 0 {
      BitAboveBound(v / 2, n - 1, k - 1);
    } else {
      BitOfZero(k);
    }
  }

  /** The OR of two n-bit numbers is an n-bit number. */
  lemma {:induction false} OrBound(a: nat, b: nat, n: nat)
    requires a < Pow2(n) && b < Pow2(n)
    ensures Or(a, b) < Pow2(n)
    decreases a + b
  {
    if a != 0 && b != 0 {
      OrBound(a / 2, b / 2, n - 1);
    }
  }

  /** `a | b` on two bytes. */
  function OrByte(a: byte, b: byte): byte {
    OrBound(a, b, 8);
    Or(a, b)
  }

  /**
   * Peeling the low digit in base m off v and then reducing the rest modulo p
   * is the same as reducing v modulo m·p.
   */
  lemma ModStep(v: int, m: int, p: int)
    requires m > 0 && p > 0
    ensures v % (m * p) == v % m + m * ((v / m) % p)
  {
    var w := v / m;
    var q := w / p;
    var r := w % p;
    var t := m * r + v % m;
    MulDistrib(m, p * q, r);
    MulAssoc(m, p, q);
    assert v == (m * p) * q + t;
    MulBelow(m, r, p);
    DivModUnique(v, m * p, q, t);
  }

  lemma MulDistrib(m: int, a: int, b: int)
    ensures m * (a + b) == m * a + m * b
  {
  }

  lemma MulAssoc(m: int, p: int, q: int)
    ensures m * (p * q) == (m * p) * q
  {
  }

  lemma MulBelow(m: int, r: int, p: int)
    requires m > 0 && 0 <= r < p
    ensures 0 <= m * r <= m * p - m
  {
    MulDistrib(m, r, p - r - 1);
  }

  /** Setting bit k of a number below 2^(k+1) adds 2^k to its low k bits. */
  lemma {:induction false} OrPow2(k: nat, v: nat)
    requires v < 2 * Pow2(k)
    ensures Or(Pow2(k), v) == Pow2(k) + v % Pow2(k)
  {
    if k > 0 && v != 0 {
      var p := Pow2(k - 1);
      OrPow2(k - 1, v / 2);
      ModStep(v, 2, p);
    }
  }

  /** Modulo 2^(k+1), setting bit k of any v adds 2^k to its low k bits. */
  lemma {:induction false} OrPow2Mod(k: nat, v: nat)
    ensures Or(Pow2(k), v) % (2 * Pow2(k)) == Pow2(k) + v % Pow2(k)
  {
    if v == 0 {
      DivModUnique(Pow2(k), 2 * Pow2(k), 0, Pow2(k));
      DivModUnique(0, Pow2(k), 0, 0);
    } else if k == 0 {
      assert Or(1, v) == 2 * Or(0, v / 2) + 1;
      DivModUnique(Or(1, v), 2, Or(0, v / 2), 1);
      DivModUnique(v, 1, v, 0);
    } else {
      var p := Pow2(k - 1);
      var b := v % 2;
      assert Pow2(k) == 2 * p && Pow2(k) / 2 == p && Pow2(k) % 2 == 0;
      var x := Or(p, v / 2);
      var y := Or(Pow2(k), v);
      assert y == 2 * x + b;
      DivModUnique(y, 2, x, b);
      OrPow2Mod(k - 1, v / 2);
      assert x % (2 * p) == p + (v / 2) % p;
      ModStep(y, 2, 2 * p);
      assert y % (2 * (2 * p)) == b + 2 * (x % (2 * p));
      ModStep(v, 2, p);
      assert v % (2 * p) == b + 2 * ((v / 2) % p);
      assert y % (2 * Pow2(k)) == Pow2(k) + v % Pow2(k);
    }
  }

  /** `0x80 | v` kept by a Uint8Array: the top bit set over the low seven bits of v. */
  lemma OrTopBitLow8(v: nat)
    ensures Low8(Or(0x80, v)) == 0x80 + v % 0x80
  {
    assert Pow2(7) == 0x80;
    OrPow2Mod(7, v);
  }

  /** Setting the top bit of a byte, `0x80 | v`, keeps its low seven bits. */
  lemma OrTopBit(v: byte)
    ensures Or(0x80, v) == 0x80 + v % 0x80
  {
    assert Pow2(7) == 0x80;
    OrPow2(7, v);
  }

  /** `n` bytes of `v`, least significant first, as DataView's little-endian setters write them. */
  function LittleEndian(v: int, n: nat): (r: seq<byte>)
    ensures |r| == n
    decreases n
  {
    if n == 0 then [] else [Low8(v)] + LittleEndian(v / 256, n - 1)
  }

  /** DataView.setInt32(offset, v, true) and setUint32(offset, v, true). */
  function Int32LE(v: int): (r: seq<byte>)
    ensures |r| == 4
  {
    LittleEndian(v, 4)
  }

  /** DataView.setUint16(offset, v, true). */
  function Uint16LE(v: int): (r: seq<byte>)
    ensures |r| == 2
  {
    LittleEndian(v, 2)
  }

  function Pow256(n: nat): (r: nat)
    ensures r > 0
  {
    if n == 0 then 1 else 256 * Pow256(n - 1)
  }

  /** The unsigned value of a little-endian byte string. */
  function Unsigned(bytes: seq<byte>): nat {
    if bytes == [] then 0 else bytes[0] + 256 * Unsigned(bytes[1..])
  }

  lemma ProductZero(m: int, d: int, e: int)
    requires m > 0 && m * d == e && -m < e < m
    ensures d == 0
  {
  }

  /** Euclidean division is determined by its quotient and remainder. */
  lemma DivModUnique(v: int, m: int, q: int, t: int)
    requires m > 0 && v == m * q + t && 0 <= t < m
    ensures v / m == q && v % m == t
  {
    ProductZero(m, q - v / m, v % m - t);
  }

  /** A little-endian write keeps exactly the value modulo 256^n. */
  lemma {:induction false} LittleEndianValue(v: int, n: nat)
    ensures Unsigned(LittleEndian(v, n)) == v % Pow256(n)
    decreases n
  {
    if n > 0 {
      var rest := LittleEndian(v / 256, n - 1);
      assert LittleEndian(v, n)[1..] == rest;
      LittleEndianValue(v / 256, n - 1);
      ModStep(v, 256, Pow256(n - 1));
    }
  }

  /** Reading back a signed 32-bit little-endian field gives the value written. */
  lemma Int32RoundTrip(v: int)
    requires -0x8000_0000 <= v < 0x8000_0000
    ensures var u := Unsigned(Int32LE(v)); (if u >= 0x8000_0000 then u - 0x1_0000_0000 else u) == v
  {
    LittleEndianValue(v, 4);
    assert Pow256(4) == 0x1_0000_0000;
    if v < 0 {
      DivModUnique(v, 0x1_0000_0000, -1, v + 0x1_0000_0000);
    } else {
      DivModUnique(v, 0x1_0000_0000, 0, v);
    }
  }

  function Zeros(n: nat): (r: seq<byte>)
    ensures |r| == n && forall i :: 0 <= i < n ==> r[i] == 0
  {
    seq(n, _ => 0)
  }

  /**
   * `bytes` written over `buf` from `offset` on: a DataView or typed-array
   * write into a buffer that holds them.
   */
  function Put(buf: seq<byte>, offset: nat, bytes: seq<byte>): (r: seq<byte>)
    requires offset + |bytes| <= |buf|
    ensures |r| == |buf|
  {
    buf[..offset] + bytes + buf[offset + |bytes|..]
  }

  /** After the write, the written range holds the bytes and every other byte is as before. */
  lemma PutContents(buf: seq<byte>, offset: nat, bytes: seq<byte>)
    requires offset + |bytes| <= |buf|
    ensures forall i :: 0 <= i < |buf| ==>
      Put(buf, offset, bytes)[i] == if offset <= i < offset + |bytes| then bytes[i - offset] else buf[i]
  {
  }

  /** The written range reads back as the bytes written. */
  lemma PutSlice(buf: seq<byte>, offset: nat, bytes: seq<byte>)
    requires offset + |bytes| <= |buf|
    ensures Put(buf, offset, bytes)[offset..offset + |bytes|] == bytes
  {
  }

  /** A range the write does not touch is unchanged. */
  lemma PutKeeps(buf: seq<byte>, offset: nat, bytes: seq<byte>, lo: nat, hi: nat)
    requires offset + |bytes| <= |buf| && lo <= hi <= |buf|
    requires hi <= offset || offset + |bytes| <= lo
    ensures Put(buf, offset, bytes)[lo..hi] == buf[lo..hi]
  {
    PutContents(buf, offset, bytes);
  }

  /** TextEncoder.encode for one character: its UTF-8 encoding. */
  function Utf8Char(c: char): (r: seq<byte>)
    ensures 1 <= |r| <= 4
    ensures |r| == 1 <==> (c as int) < 0x80
  {
    var v := c as int;
    if v < 0x80 then [v]
    else if v < 0x800 then [0xC0 + v / 64, 0x80 + v % 64]
    else if v < 0x10000 then [0xE0 + v / 4096, 0x80 + (v / 64) % 64, 0x80 + v % 64]
    else [0xF0 + v / 262144, 0x80 + (v / 4096) % 64, 0x80 + (v / 64) % 64, 0x80 + v % 64]
  }

  /** TextEncoder.encode: the UTF-8 bytes of a string. */
  function Utf8(s: string): (r: seq<byte>)
    ensures |r| >= |s|
  {
    if s == [] then [] else Utf8Char(s[0]) + Utf8(s[1..])
  }

  predicate IsAscii(s: string) {
    forall i :: 0 <= i < |s| ==> (s[i] as int) < 0x80
  }

  /** On ASCII text, TextEncoder yields one byte per character, equal to its code. */
  lemma {:induction false} Utf8Ascii(s: string)
    requires IsAscii(s)
    ensures |Utf8(s)| == |s|
    ensures forall i :: 0 <= i < |s| ==> Utf8(s)[i] == s[i] as int
  {
    if s != [] {
      Utf8Ascii(s[1..]);
    }
  }

  /** The character codes of ASCII text, one byte each. */
  function AsciiCodes(s: string): (r: seq<byte>)
    requires IsAscii(s)
    ensures |r| == |s|
  {
    seq(|s|, i requires 0 <= i < |s| => s[i] as int)
  }

  lemma AsciiUtf8(s: string)
    requires IsAscii(s)
    ensures Utf8(s) == AsciiCodes(s)
  {
    Utf8Ascii(s);
  }

  lemma {:induction false} Utf8Append(s: string, t: string)
    ensures Utf8(s + t) == Utf8(s) + Utf8(t)
  {
    if s == [] {
      assert s + t == t;
    } else {
      assert (s + t)[1..] == s[1..] + t;
      Utf8Append(s[1..], t);
    }
  }

  function DigitChar(d: int): char
    requires 0 <= d < 10
  {
    "0123456789"[d]
  }

  function Digits(n: nat): (r: string)
    ensures |r| >= 1 && IsAscii(r)
  {
    if n < 10 then [DigitChar(n)] else Digits(n / 10) + [DigitChar(n % 10)]
  }

  /** The text of an integer in a template literal, `${n}`. */
  function Decimal(n: int): (r: string)
    ensures |r| >= 1 && IsAscii(r)
  {
    if n < 0 then "-" + Digits(-n) else Digits(n)
  }

  /** The value a decimal digit string denotes. */
  function DigitsValue(s: string): int {
    if s == [] then 0 else 10 * DigitsValue(s[..|s| - 1]) + ((s[|s| - 1] as int) - ('0' as int))
  }

  /** The decimal text of a natural number reads back as that number. */
  lemma {:induction false} DigitsRoundTrip(n: nat)
    ensures DigitsValue(Digits(n)) == n
  {
    if n >= 10 {
      DigitsRoundTrip(n / 10);
      var s := Digits(n);
      assert s[..|s| - 1] == Digits(n / 10);
    }
  }
}
