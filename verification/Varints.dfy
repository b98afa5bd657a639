/** Variable-length integers and length-prefixed strings (util/coding.cc). */
module Varints {
  import opened Keys
  import opened Coding

  const MAX_VARINT32_LENGTH: nat := 5

  /** Seven bits a byte, lowest first; all bytes but the last have the top bit set. */
  function Varint(v: nat): (bytes: seq<Byte>)
    ensures |bytes| > 0 && (bytes[0] < 128 <==> |bytes| == 1)
    ensures |bytes| == 1 ==> bytes[0] == v
  {
    if v < 128 then [v] else [v % 128 + 128] + Varint(v / 128)
  }

  /** One, two and three bytes, and how longer ones begin. */
  lemma VarintBytes(v: nat)
    ensures v < 0x80 ==> Varint(v) == [v]
    ensures 0x80 <= v < 0x4000 ==> Varint(v) == [v % 0x80 + 0x80, v / 0x80]
    ensures 0x4000 <= v < 0x20_0000 ==> Varint(v) == [v % 0x80 + 0x80, v / 0x80 % 0x80 + 0x80, v / 0x4000]
    ensures v >= 0x80 ==> Varint(v) == [v % 0x80 + 0x80] + Varint(v / 0x80)
  {
    if v >= 0x4000 {
      assert v / 0x80 / 0x80 == v / 0x4000;
      assert Varint(v / 0x80) == [v / 0x80 % 0x80 + 0x80] + Varint(v / 0x4000);
    }
  }

  /** The number at the front of the input and the bytes it takes, of at most n. */
  function FromVarint(input: seq<Byte>, n: nat): (r: Option<(nat, nat)>)
    ensures r.Some? ==> 0 < r.value.1 <= |input|
    decreases n
  {
    if n == 0 || input == [] then None
    else if input[0] < 128 then Some((input[0] as nat, 1))
    else match FromVarint(input[1..], n - 1)
      case None => None
      case Some((v, k)) => Some((input[0] as nat - 128 + 128 * v, k + 1))
  }

  /** Decoding adds seven bits of each byte up to the first one below 128, shortest form or not, and fails
      if there is none among the bytes it may look at. */
  lemma VarintValues(input: seq<Byte>, n: nat)
    ensures n >= 1 && |input| >= 1 && input[0] < 128 ==> FromVarint(input, n) == Some((input[0] as nat, 1))
    ensures n >= 2 && |input| >= 2 && input[0] >= 128 && input[1] < 128 ==>
              FromVarint(input, n) == Some((input[0] - 128 + 128 * ByteAt(input, 1), 2))
    ensures n >= 3 && |input| >= 3 && input[0] >= 128 && input[1] >= 128 && input[2] < 128 ==>
              FromVarint(input, n) ==
                Some((input[0] - 128 + 128 * (ByteAt(input, 1) - 128) + 0x4000 * ByteAt(input, 2), 3))
  {
    if n >= 2 && |input| >= 2 && input[0] >= 128 {
      var rest := input[1..];
      assert rest[0] == input[1];
      if n >= 3 && |input| >= 3 && input[1] >= 128 {
        assert rest[1..][0] == input[2];
      }
    }
  }

  lemma {:induction false} EndlessVarint(input: seq<Byte>, n: nat)
    requires forall i :: 0 <= i < n && i < |input| ==> input[i] >= 128
    ensures FromVarint(input, n) == None
    decreases n
  {
    if n > 0 && input != [] {
      assert forall i :: 0 <= i < n - 1 && i < |input| - 1 ==> input[1..][i] == input[i + 1];
      EndlessVarint(input[1..], n - 1);
    }
  }

  function Power128(n: nat): nat {
    if n == 0 then 1 else 128 * Power128(n - 1)
  }

  lemma {:induction false} VarintRoundTrip(v: nat, rest: seq<Byte>, n: nat)
    requires n > 0 && v < Power128(n)
    ensures FromVarint(Varint(v) + rest, n) == Some((v, |Varint(v)|))
    decreases n
  {
    if v >= 128 {
      assert n > 1 && v / 128 < Power128(n - 1);
      VarintRoundTrip(v / 128, rest, n - 1);
      assert (Varint(v) + rest)[1..] == Varint(v / 128) + rest;
    }
  }

  lemma {:induction false} VarintLength(v: nat, n: nat)
    requires n > 0 && v < Power128(n)
    ensures |Varint(v)| <= n
    decreases n
  {
    if v >= 128 {
      assert n > 1 && v / 128 < Power128(n - 1);
      VarintLength(v / 128, n - 1);
    }
  }

  const MAX_VARINT64_LENGTH: nat := 10

  /** GetVarint64: a number of at most ten bytes, in 64-bit arithmetic. */
  function GetVarint64(input: seq<Byte>): (r: Option<(nat, nat)>)
    ensures r.Some? ==> 0 < r.value.1 <= |input|
  {
    match FromVarint(input, MAX_VARINT64_LENGTH)
    case None => None
    case Some((v, k)) => Some((v % 0x1_0000_0000_0000_0000, k))
  }

  lemma Varint64RoundTrip(v: nat, rest: seq<Byte>)
    requires v < 0x1_0000_0000_0000_0000
    ensures GetVarint64(Varint(v) + rest) == Some((v, |Varint(v)|)) && |Varint(v)| <= 10
  {
    hide Varint, FromVarint;
    assert Power128(10) > 0x1_0000_0000_0000_0000;
    VarintRoundTrip(v, rest, 10);
    VarintLength(v, 10);
  }

  /** EncodeVarint64: one loop. */
  method EncodeVarint64(n: nat) returns (bytes: seq<Byte>)
    ensures bytes == Varint(n)
  {
    bytes := [];
    var v := n;
    while v >= 128
      invariant Varint(n) == bytes + Varint(v)
    {
      assert Varint(v) == [v % 128 + 128] + Varint(v / 128);
      bytes := bytes + [v % 128 + 128];
      v := v / 128;
    }
    bytes := bytes + [v];
  }

  /** GetVarint32: a number of at most five bytes, in 32-bit arithmetic. */
  function GetVarint32(input: seq<Byte>): (r: Option<(Uint32, nat)>)
    ensures r.Some? ==> 0 < r.value.1 <= |input|
  {
    match FromVarint(input, MAX_VARINT32_LENGTH)
    case None => None
    case Some((v, k)) => Some((v % 0x1_0000_0000, k))
  }

  lemma Varint32RoundTrip(v: Uint32, rest: seq<Byte>)
    ensures GetVarint32(Varint(v) + rest) == Some((v, |Varint(v)|))
  {
    hide Varint, FromVarint;
    assert Power128(5) > 0x1_0000_0000;
    VarintRoundTrip(v, rest, 5);
  }

  /** EncodeVarint32: the unrolled encoder. */
  method EncodeVarint32(v: Uint32) returns (bytes: seq<Byte>)
    ensures bytes == Varint(v)
  {
    if v < 0x80 {
      bytes := [v];
    } else if v < 0x4000 {
      bytes := [v % 128 + 128, v / 0x80];
    } else if v < 0x20_0000 {
      bytes := [v % 128 + 128, v / 0x80 % 128 + 128, v / 0x4000];
    } else if v < 0x1000_0000 {
      bytes := [v % 128 + 128, v / 0x80 % 128 + 128, v / 0x4000 % 128 + 128, v / 0x20_0000];
    } else {
      bytes := [v % 128 + 128, v / 0x80 % 128 + 128, v / 0x4000 % 128 + 128, v / 0x20_0000 % 128 + 128, v / 0x1000_0000];
    }
    assert v / 0x80 / 128 == v / 0x4000 && v / 0x4000 / 128 == v / 0x20_0000 && v / 0x20_0000 / 128 == v / 0x1000_0000;
    if v >= 0x80 { assert Varint(v) == [v % 128 + 128] + Varint(v / 0x80); }
    if v >= 0x4000 { assert Varint(v / 0x80) == [v / 0x80 % 128 + 128] + Varint(v / 0x4000); }
    if v >= 0x20_0000 { assert Varint(v / 0x4000) == [v / 0x4000 % 128 + 128] + Varint(v / 0x20_0000); }
    if v >= 0x1000_0000 { assert Varint(v / 0x20_0000) == [v / 0x20_0000 % 128 + 128] + Varint(v / 0x1000_0000); }
  }

  /** GetVarint32PtrFallback: the decoding loop; adding stands for the bitwise or of disjoint bits. */
  method GetVarint32Ptr(input: seq<Byte>) returns (r: Option<(Uint32, nat)>)
    ensures r == GetVarint32(input)
  {
    hide FromVarint, Accumulated;
    var result: nat, scale: nat, i: nat := 0, 1, 0;
    AccumulateStart(input, MAX_VARINT32_LENGTH);
    while i < MAX_VARINT32_LENGTH && i < |input|
      invariant i <= MAX_VARINT32_LENGTH && i <= |input|
      invariant FromVarint(input, MAX_VARINT32_LENGTH) ==
                Accumulated(result, scale, i, FromVarint(input[i..], MAX_VARINT32_LENGTH - i))
    {
      var b: nat := input[i];
      Accumulate(result, scale, i, input[i..], MAX_VARINT32_LENGTH - i);
      assert input[i..][1..] == input[i + 1..];
      i := i + 1;
      if b >= 128 {
        result := result + (b - 128) * scale;
        scale := 128 * scale;
      } else {
        result := result + b * scale;
        return Some((result % 0x1_0000_0000, i));
      }
    }
    AccumulateEnd(result, scale, i, input[i..], MAX_VARINT32_LENGTH - i);
    r := None;
  }

  /** What the loop will have computed if the rest of the input decodes like this. */
  function Accumulated(result: nat, scale: nat, i: nat, rest: Option<(nat, nat)>): Option<(nat, nat)> {
    match rest
    case None => None
    case Some((v, k)) => Some((result + scale * v, i + k))
  }

  lemma AccumulateStart(input: seq<Byte>, n: nat)
    ensures FromVarint(input, n) == Accumulated(0, 1, 0, FromVarint(input[0..], n))
  {
    hide FromVarint;
    assert input[0..] == input;
  }

  lemma AccumulateEnd(result: nat, scale: nat, i: nat, input: seq<Byte>, n: nat)
    requires n == 0 || input == []
    ensures Accumulated(result, scale, i, FromVarint(input, n)) == None
  {
  }

  lemma Accumulate(result: nat, scale: nat, i: nat, input: seq<Byte>, n: nat)
    requires n > 0 && input != []
    ensures var b: nat := input[0];
            Accumulated(result, scale, i, FromVarint(input, n)) ==
              if b < 128 then Some((result + b * scale, i + 1))
              else Accumulated(result + (b - 128) * scale, 128 * scale, i + 1, FromVarint(input[1..], n - 1))
  {
    var rest := FromVarint(input[1..], n - 1);
    if rest.Some? && input[0] >= 128 {
      Distribute(scale, input[0] - 128, rest.value.0);
    }
  }

  lemma Distribute(scale: nat, b: nat, v: nat)
    ensures scale * (b + 128 * v) == b * scale + 128 * scale * v
  {
  }
}
