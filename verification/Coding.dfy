/** Bytes and fixed-width integers (util/coding.h, util/coding.cc). */
module Coding {
  import opened Sequences

  type Byte = x: int | 0 <= x < 256
  type Uint32 = x: int | 0 <= x < 0x1_0000_0000

  function Power2(n: nat): nat {
    if n == 0 then 1 else 2 * Power2(n - 1)
  }

  ghost predicate Fits64(n: nat) {
    n < 0x1_0000_0000_0000_0000
  }

  /** The little-endian bytes of v, as EncodeFixed32 and EncodeFixed64 lay them out. */
  function Fixed(v: nat, width: nat): (bytes: seq<Byte>)
    ensures |bytes| == width
  {
    if width == 0 then [] else [v % 256] + Fixed(v / 256, width - 1)
  }

  function Power256(width: nat): nat {
    if width == 0 then 1 else 256 * Power256(width - 1)
  }

  function FromFixed(bytes: seq<Byte>): (v: nat)
    ensures v < Power256(|bytes|)
  {
    if bytes == [] then 0 else bytes[0] + 256 * FromFixed(bytes[1..])
  }

  lemma {:induction false} FixedRoundTrip(v: nat, width: nat)
    requires v < Power256(width)
    ensures FromFixed(Fixed(v, width)) == v
  {
    if width > 0 {
      FixedRoundTrip(v / 256, width - 1);
      assert Fixed(v, width)[1..] == Fixed(v / 256, width - 1);
    }
  }

  /** And bytes are the bytes of the number they make. */
  lemma {:induction false} BytesRoundTrip(bytes: seq<Byte>)
    ensures Fixed(FromFixed(bytes), |bytes|) == bytes
  {
    if bytes != [] {
      BytesRoundTrip(bytes[1..]);
      LowByte(bytes[0], FromFixed(bytes[1..]));
    }
  }

  lemma LowByte(b: Byte, high: nat)
    ensures (b + 256 * high) % 256 == b && (b + 256 * high) / 256 == high
  {
  }

  /** Two, four and eight bytes, written out: the lowest come first. */
  lemma FixedBytes(v: nat)
    ensures Fixed(v, 2) == [v % 256, v / 0x100 % 256]
    ensures Fixed(v, 4) == [v % 256, v / 0x100 % 256, v / 0x1_0000 % 256, v / 0x100_0000 % 256]
    ensures Fixed(v, 8) == [v % 256, v / 0x100 % 256, v / 0x1_0000 % 256, v / 0x100_0000 % 256,
                            v / 0x1_0000_0000 % 256, v / 0x100_0000_0000 % 256, v / 0x1_0000_0000_0000 % 256,
                            v / 0x100_0000_0000_0000 % 256]
  {
    FixedFour(v, 0);
    FixedFour(v, 4);
    FixedFour(v / 0x1_0000_0000, 0);
    FixedTwo(v);
    assert Fixed(v, 0) == [] && Fixed(v / 0x1_0000_0000 / 0x1_0000_0000, 0) == [];
    hide Fixed;
    HighQuotients(v);
  }

  lemma HighQuotients(v: nat)
    ensures v / 0x1_0000_0000 / 0x100 == v / 0x100_0000_0000
    ensures v / 0x1_0000_0000 / 0x1_0000 == v / 0x1_0000_0000_0000
    ensures v / 0x1_0000_0000 / 0x100_0000 == v / 0x100_0000_0000_0000
  {
  }

  lemma FixedTwo(v: nat)
    ensures Fixed(v, 2) == [v % 256, v / 0x100 % 256]
  {
    assert Fixed(v / 256, 1) == [v / 256 % 256] + Fixed(v / 256 / 256, 0);
  }

  lemma FixedFour(v: nat, more: nat)
    ensures Fixed(v, 4 + more) ==
              [v % 256, v / 0x100 % 256, v / 0x1_0000 % 256, v / 0x100_0000 % 256] + Fixed(v / 0x1_0000_0000, more)
  {
    var v1, v2, v3, v4 := v / 0x100, v / 0x1_0000, v / 0x100_0000, v / 0x1_0000_0000;
    assert v2 == v1 / 256 && v3 == v2 / 256 && v4 == v3 / 256;
    assert Fixed(v3, 1 + more) == [v3 % 256] + Fixed(v4, more);
    assert Fixed(v2, 2 + more) == [v2 % 256] + Fixed(v3, 1 + more);
    assert Fixed(v1, 3 + more) == [v1 % 256] + Fixed(v2, 2 + more);
    assert Fixed(v, 4 + more) == [v % 256] + Fixed(v1, 3 + more);
  }

  // ---------------------------------------------------------------- numbers in a buffer

  /** Byte i, as a number of any size. */
  function ByteAt(b: seq<Byte>, i: nat): nat
    requires i < |b|
  {
    b[i]
  }

  function U16At(b: seq<Byte>, p: nat): nat
    requires p + 2 <= |b|
  {
    ByteAt(b, p) + 0x100 * ByteAt(b, p + 1)
  }

  function U32At(b: seq<Byte>, p: nat): nat
    requires p + 4 <= |b|
  {
    ByteAt(b, p) + 0x100 * ByteAt(b, p + 1) + 0x1_0000 * ByteAt(b, p + 2) + 0x100_0000 * ByteAt(b, p + 3)
  }

  function U64At(b: seq<Byte>, p: nat): nat
    requires p + 8 <= |b|
  {
    ByteAt(b, p) + 0x100 * ByteAt(b, p + 1) + 0x1_0000 * ByteAt(b, p + 2) + 0x100_0000 * ByteAt(b, p + 3)
    + 0x1_0000_0000 * ByteAt(b, p + 4) + 0x100_0000_0000 * ByteAt(b, p + 5) + 0x1_0000_0000_0000 * ByteAt(b, p + 6)
    + 0x100_0000_0000_0000 * ByteAt(b, p + 7)
  }

  /** What DecodeFixed32 and DecodeFixed64 read. */
  lemma FromFixedAt(b: seq<Byte>, p: nat)
    ensures p + 2 <= |b| ==> FromFixed(b[p..p + 2]) == U16At(b, p)
    ensures p + 4 <= |b| ==> FromFixed(b[p..p + 4]) == U32At(b, p)
    ensures p + 8 <= |b| ==> FromFixed(b[p..p + 8]) == U64At(b, p)
  {
    if p + 2 <= |b| {
      FromFixedNext(b, p, 2);
      FromFixedNext(b, p + 1, 1);
    }
    if p + 4 <= |b| {
      FromFixedFour(b, p, 0);
    }
    if p + 8 <= |b| {
      FromFixedFour(b, p, 4);
      FromFixedFour(b, p + 4, 0);
    }
  }

  lemma FromFixedFour(b: seq<Byte>, p: nat, more: nat)
    requires p + 4 + more <= |b|
    ensures FromFixed(b[p..p + 4 + more]) == U32At(b, p) + 0x1_0000_0000 * FromFixed(b[p + 4..p + 4 + more])
    ensures FromFixed(b[p + 4..p + 4]) == 0
  {
    FromFixedNext(b, p, 4 + more);
    FromFixedNext(b, p + 1, 3 + more);
    FromFixedNext(b, p + 2, 2 + more);
    FromFixedNext(b, p + 3, 1 + more);
  }

  lemma FromFixedNext(b: seq<Byte>, p: nat, n: nat)
    requires n > 0 && p + n <= |b|
    ensures FromFixed(b[p..p + n]) == b[p] + 256 * FromFixed(b[p + 1..p + n])
    ensures n == 1 ==> FromFixed(b[p + 1..p + n]) == 0
  {
    assert b[p..p + n][1..] == b[p + 1..p + n];
  }

  const FIXED32_BYTES: nat := 4

  function Fixed32(v: Uint32): (bytes: seq<Byte>)
    ensures |bytes| == 4
  {
    Fixed(v, FIXED32_BYTES)
  }

  function FromFixed32(bytes: seq<Byte>): (v: Uint32)
    requires |bytes| == 4
  {
    assert Power256(4) == 0x1_0000_0000;
    FromFixed(bytes)
  }

  lemma Fixed32RoundTrip(v: Uint32)
    ensures FromFixed32(Fixed32(v)) == v
  {
    assert Power256(4) == 0x1_0000_0000;
    FixedRoundTrip(v, 4);
  }

  // ---------------------------------------------------------------- arrays of fixed32 numbers

  function FixedArray(values: seq<nat>): (bytes: seq<Byte>)
    ensures |bytes| == 4 * |values|
  {
    if values == [] then [] else FixedArray(values[..|values| - 1]) + Fixed(values[|values| - 1], FIXED32_BYTES)
  }

  lemma {:induction false} FixedArrayAt(data: seq<Byte>, start: nat, values: seq<nat>, j: nat)
    requires At(data, start, FixedArray(values)) && j < |values|
    ensures At(data, start + 4 * j, Fixed(values[j], FIXED32_BYTES))
    decreases |values|
  {
    hide Fixed;
    var n := |values| - 1;
    SplitAt(data, start, FixedArray(values[..n]), Fixed(values[n], FIXED32_BYTES));
    if j < n {
      FixedArrayAt(data, start, values[..n], j);
    }
  }

  lemma FixedAt(data: seq<Byte>, p: nat, v: nat)
    requires v < 0x1_0000_0000 && At(data, p, Fixed(v, FIXED32_BYTES))
    ensures FromFixed32(data[p..p + 4]) == v
  {
    hide Fixed;
    Fixed32RoundTrip(v);
  }
}
