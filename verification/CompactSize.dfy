/** Bitcoin's CompactSize integers (src/bigInts.c). */
module CompactSizes {
  import opened Keys
  import opened Coding

  const EIGHT: nat := 8
  const TWO: nat := 2

  /** CompactSizeEncode: one byte, or a prefix and two, four or eight bytes. */
  function Encode(v: nat): (bytes: seq<Byte>)
    ensures |bytes| > 0 && (bytes[0] == 0 <==> v == 0)
  {
    if v <= 252 then [v]
    else if v <= 0xffff then [0xfd] + Fixed(v, TWO)
    else if v <= 0xffff_ffff then [0xfe] + Fixed(v, FIXED32_BYTES)
    else [0xff] + Fixed(v, EIGHT)
  }

  /** How many bytes CompactSizeDecode looks at. */
  function Width(first: Byte): nat {
    if first <= 0xfc then 0 else if first == 0xfd then TWO else if first == 0xfe then FIXED32_BYTES else EIGHT
  }

  /** The number and the number of bytes it takes; none if the buffer ends before. */
  function Decode(data: seq<Byte>): (r: Option<(nat, nat)>)
    ensures r.Some? ==> 0 < r.value.1 <= |data|
  {
    if data == [] then None
    else
      var w := Width(data[0]);
      if |data| < 1 + w then None
      else if w == 0 then Some((data[0] as nat, 1))
      else Some((FromFixed(data[1..1 + w]), 1 + w))
  }

  /** The four forms, byte by byte: a number below 253, or 0xfd, 0xfe or 0xff and a little-endian number. */
  lemma DecodeBytes(d: seq<Byte>)
    ensures |d| >= 1 && d[0] < 253 ==> Decode(d) == Some((d[0] as nat, 1))
    ensures |d| >= 3 && d[0] == 0xfd ==> Decode(d) == Some((U16At(d, 1), 3))
    ensures |d| >= 5 && d[0] == 0xfe ==> Decode(d) == Some((U32At(d, 1), 5))
    ensures |d| >= 9 && d[0] == 0xff ==> Decode(d) == Some((U64At(d, 1), 9))
    ensures |d| == 0 || (d[0] == 0xfd && |d| < 3) || (d[0] == 0xfe && |d| < 5) || (d[0] == 0xff && |d| < 9) ==> Decode(d) == None
  {
    hide FromFixed;
    FromFixedAt(d, 1);
  }

  /** The shortest of the four forms is written. */
  lemma EncodeBytesOf(v: nat)
    ensures v < 253 ==> Encode(v) == [v]
    ensures 253 <= v < 0x1_0000 ==> Encode(v) == [0xfd, v % 256, v / 256]
    ensures 0x1_0000 <= v < 0x1_0000_0000 ==>
              Encode(v) == [0xfe, v % 256, v / 0x100 % 256, v / 0x1_0000 % 256, v / 0x100_0000]
  {
    hide Fixed;
    FixedBytes(v);
  }

  lemma RoundTrip(v: nat, rest: seq<Byte>)
    requires v < 0x1_0000_0000_0000_0000
    ensures Decode(Encode(v) + rest) == Some((v, |Encode(v)|))
  {
    hide Fixed, FromFixed;
    assert Power256(2) == 0x1_0000 && Power256(4) == 0x1_0000_0000 && Power256(8) == 0x1_0000_0000_0000_0000;
    var data := Encode(v) + rest;
    var w := Width(data[0]);
    if w > 0 {
      FixedRoundTrip(v, w);
      assert data[1..1 + w] == Fixed(v, w);
    }
  }

  /** CompactSizeDecode, branch by branch.  Where the data ends too early it reports the whole size and
      leaves the value unwritten; without any data it writes 0. */
  method CompactSizeDecode(data: seq<Byte>) returns (size: nat, value: Option<nat>)
    ensures Decode(data).Some? ==> (size, value) == (Decode(data).value.1, Some(Decode(data).value.0))
    ensures Decode(data).None? ==> size == |data| && value == if data == [] then Some(0) else None
  {
    if |data| == 0 {
      return 0, Some(0);
    }
    var first := data[0];
    if first <= 0xfc {
      return 1, Some(first as nat);
    }
    if first == 0xfd {
      if |data| < 3 {
        return |data|, None;
      }
      size, value := 3, Some(Little(data, 1, 2));
    } else if first == 0xfe {
      if |data| < 5 {
        return |data|, None;
      }
      size, value := 5, Some(Little(data, 1, 4));
    } else {
      if |data| < 9 {
        return |data|, None;
      }
      size, value := 9, Some(Little(data, 1, 8));
    }
  }

  /** n bytes, the lowest first. */
  function Little(data: seq<Byte>, p: nat, n: nat): nat
    requires p + n <= |data|
  {
    FromFixed(data[p..p + n])
  }
}
