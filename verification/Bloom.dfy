/** The bloom filter policy (util/bloom.cc), for any hash function. */
module Bloom {
  import opened Coding

  // ---------------------------------------------------------------- bits in bytes

  predicate TestBit(b: nat, i: nat) {
    if i == 0 then b % 2 == 1 else TestBit(b / 2, i - 1)
  }

  /** The byte with bit i set. */
  function SetBit(b: nat, i: nat): nat {
    if i == 0 then (if b % 2 == 1 then b else b + 1) else b % 2 + 2 * SetBit(b / 2, i - 1)
  }

  lemma {:induction false} SetBitSets(b: nat, i: nat, j: nat)
    ensures TestBit(SetBit(b, i), j) <==> j == i || TestBit(b, j)
  {
    if i == 0 {
      if j > 0 { assert (b + 1) / 2 == b / 2 || b % 2 == 1; }
    } else if j > 0 {
      SetBitSets(b / 2, i - 1, j - 1);
    }
  }

  lemma {:induction false} SetBitFits(b: nat, i: nat, n: nat)
    requires i < n && b < Power2(n)
    ensures SetBit(b, i) < Power2(n)
  {
    if i > 0 { SetBitFits(b / 2, i - 1, n - 1); }
  }

  predicate HasBit(bytes: seq<Byte>, pos: nat)
    requires pos < 8 * |bytes|
  {
    TestBit(bytes[pos / 8], pos % 8)
  }

  function WithBit(bytes: seq<Byte>, pos: nat): (r: seq<Byte>)
    requires pos < 8 * |bytes|
    ensures |r| == |bytes|
  {
    assert Power2(8) == 256;
    SetBitFits(bytes[pos / 8], pos % 8, 8);
    bytes[pos / 8 := SetBit(bytes[pos / 8], pos % 8)]
  }

  lemma WithBitSets(bytes: seq<Byte>, pos: nat, q: nat)
    requires pos < 8 * |bytes| && q < 8 * |bytes|
    ensures HasBit(WithBit(bytes, pos), q) <==> q == pos || HasBit(bytes, q)
  {
    if q / 8 == pos / 8 {
      SetBitSets(bytes[pos / 8], pos % 8, q % 8);
      assert q == pos <==> q % 8 == pos % 8;
    }
  }

  // ---------------------------------------------------------------- probing

  /** Rotate right by 17 bits. */
  function Delta(h: Uint32): Uint32 {
    h / 0x2_0000 + (h % 0x2_0000) * 0x8000
  }

  /** Addition that wraps at 32 bits. */
  function Plus(a: Uint32, b: Uint32): Uint32 {
    (a as int + b as int) % 0x1_0000_0000
  }

  /** The j-th hash of double hashing. */
  function Probe(h: Uint32, j: nat): Uint32 {
    if j == 0 then h else Plus(Probe(h, j - 1), Delta(h))
  }

  /** The bit that a hash picks in a bitmap of the given number of bytes. */
  function BitPos(h: Uint32, bytes: nat): (pos: nat)
    requires bytes > 0
    ensures pos < 8 * bytes
  {
    h % (8 * bytes)
  }

  /** The first n probes of a key all hit set bits. */
  ghost predicate ProbesSet(bytes: seq<Byte>, h: Uint32, n: nat)
    requires bytes != []
  {
    forall j :: 0 <= j < n ==> HasBit(bytes, BitPos(Probe(h, j), |bytes|))
  }

  lemma {:induction false} ZeroByte(i: nat)
    ensures !TestBit(0, i)
  {
    if i > 0 { ZeroByte(i - 1); }
  }

  lemma NothingProbed(h: Uint32, bytes: nat)
    requires bytes > 0
    ensures forall q :: !Probed(h, 0, bytes, q)
  {
  }

  /** One of the first n probes of h picks bit q. */
  ghost predicate Probed(h: Uint32, n: nat, bytes: nat, q: nat)
    requires bytes > 0
  {
    exists j :: 0 <= j < n && q == Probe(h, j) % (8 * bytes)
  }

  lemma ProbedOneMore(h: Uint32, n: nat, bytes: nat, q: nat)
    requires bytes > 0
    ensures Probed(h, n + 1, bytes, q) <==> Probed(h, n, bytes, q) || q == BitPos(Probe(h, n), bytes)
  {
    hide Probe;
  }

  /** Double hashing: each probe adds h rotated right by 17 bits, in 32 bits. */
  lemma ProbeNext(h: Uint32, j: nat)
    ensures Probe(h, 0) == h
    ensures Probe(h, j + 1) == (Probe(h, j) + (h / 0x2_0000 + h % 0x2_0000 * 0x8000)) % 0x1_0000_0000
  {
  }

  lemma TestNext(b: nat, i: nat)
    ensures TestBit(b, 0) <==> b % 2 == 1
    ensures TestBit(b, i + 1) <==> TestBit(b / 2, i)
  {
  }

  /** Bit 8 * i + j of a filter is the bit of weight 2^j of byte i. */
  lemma BitWeights(bytes: seq<Byte>, i: nat)
    requires i < |bytes|
    ensures HasBit(bytes, 8 * i) <==> bytes[i] % 2 == 1
    ensures HasBit(bytes, 8 * i + 1) <==> bytes[i] / 2 % 2 == 1
    ensures HasBit(bytes, 8 * i + 2) <==> bytes[i] / 4 % 2 == 1
    ensures HasBit(bytes, 8 * i + 3) <==> bytes[i] / 8 % 2 == 1
    ensures HasBit(bytes, 8 * i + 4) <==> bytes[i] / 16 % 2 == 1
    ensures HasBit(bytes, 8 * i + 5) <==> bytes[i] / 32 % 2 == 1
    ensures HasBit(bytes, 8 * i + 6) <==> bytes[i] / 64 % 2 == 1
    ensures HasBit(bytes, 8 * i + 7) <==> bytes[i] / 128 % 2 == 1
  {
    hide TestBit, HasBit;
    var b := bytes[i];
    HasBits(bytes, i);
    LowBits(b);
    LowBits(b / 16);
    HighBit(b, 0);
    HighBit(b, 1);
    HighBit(b, 2);
    HighBit(b, 3);
  }

  lemma HasBits(bytes: seq<Byte>, i: nat)
    requires i < |bytes|
    ensures forall j :: 0 <= j < 8 ==> HasBit(bytes, 8 * i + j) == TestBit(bytes[i], j)
  {
    hide TestBit;
  }

  lemma HighBit(b: nat, i: nat)
    ensures TestBit(b, i + 4) <==> TestBit(b / 16, i)
  {
    hide TestBit;
    TestNext(b, i + 3);
    TestNext(b / 2, i + 2);
    TestNext(b / 4, i + 1);
    TestNext(b / 8, i);
  }

  lemma LowBits(b: nat)
    ensures TestBit(b, 0) <==> b % 2 == 1
    ensures TestBit(b, 1) <==> b / 2 % 2 == 1
    ensures TestBit(b, 2) <==> b / 4 % 2 == 1
    ensures TestBit(b, 3) <==> b / 8 % 2 == 1
  {
    hide TestBit;
    TestNext(b, 0);
    TestNext(b, 1);
    TestNext(b, 2);
    TestNext(b / 2, 0);
    TestNext(b / 2, 1);
    TestNext(b / 4, 0);
    TestNext(b / 8, 0);
    TestNext(b / 4, 1);
    TestNext(b / 2, 2);
  }

  class BloomFilterPolicy {
    const bitsPerKey: nat
    const k: nat
    const hash: seq<Byte> -> Uint32

    /** k stands for bitsPerKey * 0.69, rounded down and brought into the range 1 to 30. */
    constructor (bitsPerKey: nat, k: nat, hash: seq<Byte> -> Uint32)
      requires 1 <= k <= 30
      ensures this.bitsPerKey == bitsPerKey && this.k == k && this.hash == hash
    {
      this.bitsPerKey := bitsPerKey;
      this.k := k;
      this.hash := hash;
    }

    /** What KeyMayMatch answers. */
    ghost predicate MayMatch(key: seq<Byte>, filter: seq<Byte>) {
      |filter| >= 2 &&
      var bitmap := filter[..|filter| - 1];
      var probes := filter[|filter| - 1];
      probes > 30 || ProbesSet(bitmap, hash(key), probes)
    }

    /** Bit q is set exactly if it is one of the probes of some key. */
    ghost predicate Exactly(bitmap: seq<Byte>, keys: seq<seq<Byte>>)
      requires bitmap != []
    {
      forall q :: 0 <= q < 8 * |bitmap| ==> (HasBit(bitmap, q) <==> SomeProbes(keys, |bitmap|, q))
    }

    ghost predicate SomeProbes(keys: seq<seq<Byte>>, bytes: nat, q: nat)
      requires bytes > 0
    {
      exists a :: 0 <= a < |keys| && Probed(hash(keys[a]), k, bytes, q)
    }

    /** At least 64 bits, otherwise bitsPerKey for each key; no bit is set without need; the last byte is k. */
    ghost predicate IsFilterOf(filter: seq<Byte>, keys: seq<seq<Byte>>) {
      && |filter| == ((if |keys| * bitsPerKey < 64 then 64 else |keys| * bitsPerKey) + 7) / 8 + 1
      && |filter| >= 2 && filter[|filter| - 1] == k
      && Exactly(filter[..|filter| - 1], keys)
    }

    lemma NoneSet(bitmap: seq<Byte>)
      requires bitmap != [] && forall i :: 0 <= i < |bitmap| ==> bitmap[i] == 0
      ensures Exactly(bitmap, [])
    {
      forall q | 0 <= q < 8 * |bitmap| ensures !HasBit(bitmap, q) {
        ZeroByte(q % 8);
      }
    }

    lemma OneKeyMore(before: seq<Byte>, bitmap: seq<Byte>, keys: seq<seq<Byte>>, i: nat)
      requires before != [] && |bitmap| == |before| && i < |keys| && Exactly(before, keys[..i])
      requires forall q :: 0 <= q < 8 * |bitmap| ==>
                 (HasBit(bitmap, q) <==> HasBit(before, q) || Probed(hash(keys[i]), k, |bitmap|, q))
      ensures Exactly(bitmap, keys[..i + 1])
    {
      hide HasBit, Probed;
      var old', new' := keys[..i], keys[..i + 1];
      assert new'[i] == keys[i] && forall a :: 0 <= a < i ==> new'[a] == old'[a];
      forall q | 0 <= q < 8 * |bitmap| ensures HasBit(bitmap, q) <==> SomeProbes(new', |bitmap|, q) {
        assert SomeProbes(new', |bitmap|, q) <==> SomeProbes(old', |bitmap|, q) || Probed(hash(keys[i]), k, |bitmap|, q);
      }
    }

    /** Every key that goes into a filter matches it, and what was in dst before stays. */
    method CreateFilter(keys: seq<seq<Byte>>, dst: seq<Byte>) returns (dst': seq<Byte>)
      requires 1 <= k <= 30
      ensures dst <= dst' && forall key :: key in keys ==> MayMatch(key, dst'[|dst|..])
      ensures IsFilterOf(dst'[|dst|..], keys)
    {
      var bits := |keys| * bitsPerKey;
      if bits < 64 {
        bits := 64;
      }
      var bytes := (bits + 7) / 8;
      var bitmap: seq<Byte> := seq(bytes, _ => 0);
      NoneSet(bitmap);
      assert keys[..0] == [] && keys[..|keys|] == keys;
      for i := 0 to |keys|
        invariant |bitmap| == bytes && Exactly(bitmap, keys[..i])
        invariant forall a :: 0 <= a < i ==> ProbesSet(bitmap, hash(keys[a]), k)
      {
        ghost var before := bitmap;
        bitmap := AddKey(bitmap, hash(keys[i]));
        forall a | 0 <= a < i ensures ProbesSet(bitmap, hash(keys[a]), k) {
          assert ProbesSet(before, hash(keys[a]), k);
        }
        OneKeyMore(before, bitmap, keys, i);
      }
      dst' := dst + bitmap + [k];
      assert dst'[|dst|..] == bitmap + [k];
      assert (bitmap + [k])[..|bitmap|] == bitmap;
    }

    method AddKey(bitmap: seq<Byte>, h: Uint32) returns (bitmap': seq<Byte>)
      requires bitmap != []
      ensures |bitmap'| == |bitmap| && ProbesSet(bitmap', h, k)
      ensures forall q :: 0 <= q < 8 * |bitmap| ==> (HasBit(bitmap', q) <==> HasBit(bitmap, q) || Probed(h, k, |bitmap|, q))
    {
      hide HasBit, WithBit, Delta, BitPos, Probed;
      var g, delta := h, Delta(h);
      bitmap' := bitmap;
      NothingProbed(h, |bitmap|);
      for j := 0 to k
        invariant |bitmap'| == |bitmap| && g == Probe(h, j) && ProbesSet(bitmap', h, j)
        invariant forall q :: 0 <= q < 8 * |bitmap| ==> (HasBit(bitmap', q) <==> HasBit(bitmap, q) || Probed(h, j, |bitmap|, q))
      {
        var bitpos := BitPos(g, |bitmap|);
        ghost var before := bitmap';
        bitmap' := WithBit(bitmap', bitpos);
        forall q | 0 <= q < 8 * |bitmap|
          ensures HasBit(bitmap', q) <==> q == bitpos || HasBit(before, q)
          ensures Probed(h, j + 1, |bitmap|, q) <==> Probed(h, j, |bitmap|, q) || q == bitpos
        {
          WithBitSets(before, bitpos, q);
          ProbedOneMore(h, j, |bitmap|, q);
        }
        g := Plus(g, delta);
      }
    }

    method KeyMayMatch(key: seq<Byte>, filter: seq<Byte>) returns (r: bool)
      ensures r == MayMatch(key, filter)
      // Too short for a filter; reserved for other encodings.
      ensures |filter| < 2 ==> !r
      ensures |filter| >= 2 && filter[|filter| - 1] > 30 ==> r
    {
      hide TestBit, Delta, BitPos;
      if |filter| < 2 {
        return false;
      }
      ghost var bitmap := filter[..|filter| - 1];
      var bytes := |filter| - 1;
      var probes := filter[|filter| - 1];
      if probes > 30 {
        return true;
      }
      var h := hash(key);
      var delta := Delta(h);
      for j := 0 to probes
        invariant h == Probe(hash(key), j) && ProbesSet(bitmap, hash(key), j)
      {
        var bitpos := BitPos(h, bytes);
        assert bitmap[bitpos / 8] == filter[bitpos / 8];
        if !TestBit(filter[bitpos / 8], bitpos % 8) {
          assert !HasBit(bitmap, BitPos(Probe(hash(key), j), |bitmap|));
          return false;
        }
        h := Plus(h, delta);
      }
      r := true;
    }
  }
}
