/** Blocks of tables: prefix-compressed entries, then the offsets of the restart points
    (table/block_builder.cc, and DecodeEntry in table/block.cc). */
module Blocks {
  import opened Keys
  import opened Coding
  import opened Sequences
  import opened Varints

  datatype KeyValue = KeyValue(key: seq<Byte>, value: seq<Byte>)

  function EntryHeader(shared: nat, nonShared: nat, valueLength: nat): (h: seq<Byte>)
    ensures |h| >= 3
  {
    Varint(shared) + Varint(nonShared) + Varint(valueLength)
  }

  /** An entry that takes the first `shared` bytes of its key from the entry before. */
  function EntryBytes(kv: KeyValue, shared: nat): (bytes: seq<Byte>)
    requires shared <= |kv.key|
    ensures |bytes| >= 3
  {
    EntryHeader(shared, |kv.key| - shared, |kv.value|) + (kv.key[shared..] + kv.value)
  }

  /** With lengths below 128: three length bytes, what of the key is not shared, the value. */
  lemma ShortEntryBytes(kv: KeyValue, shared: nat)
    requires shared <= |kv.key| && |kv.key| < 128 && |kv.value| < 128
    ensures EntryBytes(kv, shared) == [shared, |kv.key| - shared, |kv.value|] + kv.key[shared..] + kv.value
  {
  }

  /** What DecodeEntry finds: the three lengths and the offset behind them. */
  datatype Decoded = Decoded(shared: nat, nonShared: nat, valueLength: nat, offset: nat)

  function DecodeEntry(data: seq<Byte>, p: nat, limit: nat): (r: Option<Decoded>)
    requires p <= limit <= |data|
    ensures r.Some? ==> p < r.value.offset <= limit
  {
    if limit - p < 3 then None
    else
      var header :=
        if data[p] < 128 && data[p + 1] < 128 && data[p + 2] < 128
        then Some(Decoded(data[p], data[p + 1], data[p + 2], p + 3))
        else DecodeHeader(data, p, limit);
      if header.None? || limit - header.value.offset < (header.value.nonShared + header.value.valueLength) % 0x1_0000_0000
      then None
      else header
  }

  /** The slow path: three varints. */
  function DecodeHeader(data: seq<Byte>, p: nat, limit: nat): (r: Option<Decoded>)
    requires p <= limit <= |data|
    ensures r.Some? ==> p < r.value.offset <= limit
  {
    var a := GetVarint32(data[p..limit]);
    if a.None? then None
    else
      var q := p + a.value.1;
      var b := GetVarint32(data[q..limit]);
      if b.None? then None
      else
        var r := q + b.value.1;
        var c := GetVarint32(data[r..limit]);
        if c.None? then None else Some(Decoded(a.value.0, b.value.0, c.value.0, r + c.value.1))
  }

  lemma GetVarintAt(data: seq<Byte>, p: nat, limit: nat, v: Uint32)
    requires At(data, p, Varint(v)) && p + |Varint(v)| <= limit <= |data|
    ensures GetVarint32(data[p..limit]) == Some((v, |Varint(v)|))
  {
    hide Varint, GetVarint32;
    var rest := data[p + |Varint(v)|..limit];
    assert data[p..limit] == Varint(v) + rest;
    Varint32RoundTrip(v, rest);
  }

  lemma DecodesHeader(data: seq<Byte>, p: nat, limit: nat, shared: Uint32, nonShared: Uint32, valueLength: Uint32)
    requires var h := EntryHeader(shared, nonShared, valueLength); At(data, p, h) && p + |h| <= limit <= |data|
    ensures DecodeHeader(data, p, limit) ==
              Some(Decoded(shared, nonShared, valueLength, p + |EntryHeader(shared, nonShared, valueLength)|))
    // The fast path reads the same header.
    ensures data[p] < 128 && data[p + 1] < 128 && data[p + 2] < 128 ==>
              data[p] == shared && data[p + 1] == nonShared && data[p + 2] == valueLength
              && |EntryHeader(shared, nonShared, valueLength)| == 3
  {
    hide GetVarint32, Varint;
    var a, b, c := Varint(shared), Varint(nonShared), Varint(valueLength);
    SplitAt(data, p, a + b, c);
    SplitAt(data, p, a, b);
    GetVarintAt(data, p, limit, shared);
    GetVarintAt(data, p + |a|, limit, nonShared);
    GetVarintAt(data, p + |a| + |b|, limit, valueLength);
    assert data[p] == a[0] && data[p + |a|] == b[0] && data[p + |a| + |b|] == c[0];
  }

  /** Decoding finds the lengths of an entry, and behind them its key suffix and its value. */
  lemma DecodesEntry(data: seq<Byte>, p: nat, limit: nat, kv: KeyValue, shared: nat)
    requires shared <= |kv.key| && At(data, p, EntryBytes(kv, shared))
    requires p + |EntryBytes(kv, shared)| <= limit <= |data| < 0x1_0000_0000
    requires |kv.key| < 0x1_0000_0000
    ensures var q := p + |EntryHeader(shared, |kv.key| - shared, |kv.value|)|;
            DecodeEntry(data, p, limit) == Some(Decoded(shared, |kv.key| - shared, |kv.value|, q))
            && At(data, q, kv.key[shared..]) && At(data, q + |kv.key| - shared, kv.value)
            && p + |EntryBytes(kv, shared)| == q + |kv.key| - shared + |kv.value|
  {
    hide DecodeHeader, EntryHeader;
    var h := EntryHeader(shared, |kv.key| - shared, |kv.value|);
    SplitAt(data, p, h, kv.key[shared..] + kv.value);
    SplitAt(data, p + |h|, kv.key[shared..], kv.value);
    DecodesHeader(data, p, limit, shared, |kv.key| - shared, |kv.value|);
  }

  // ---------------------------------------------------------------- the layout of a block

  /** Where the entries of a block are, how much of its key each shares, and which are restart points. */
  datatype Layout = Layout(es: seq<KeyValue>, offsets: seq<nat>, shared: seq<nat>, restarts: seq<nat>)

  function PrevKey(es: seq<KeyValue>, i: nat): seq<Byte>
    requires i <= |es|
  {
    if i == 0 then [] else es[i - 1].key
  }

  /** Key = shared prefix of the previous key, followed by the rest. */
  ghost predicate SharesPrefix(prev: seq<Byte>, shared: nat, key: seq<Byte>) {
    shared <= |prev| && shared <= |key| && prev[..shared] == key[..shared]
  }

  ghost predicate HasShape(l: Layout) {
    && |l.offsets| == |l.es| + 1 && |l.shared| == |l.es|
    && |l.restarts| > 0 && l.restarts[0] == 0
    && l.offsets[0] == 0
    && (forall j :: 0 <= j < |l.restarts| ==> l.restarts[j] <= |l.es|)
    && (forall j :: 0 < j < |l.restarts| ==> l.restarts[j] < |l.es|)
    && (forall j, k :: 0 <= j < k < |l.restarts| ==> l.restarts[j] < l.restarts[k])
    && (forall j :: 0 <= j < |l.restarts| && l.restarts[j] < |l.es| ==> l.shared[l.restarts[j]] == 0)
  }

  ghost predicate EntryAt(data: seq<Byte>, l: Layout, i: nat)
    requires HasShape(l) && i < |l.es|
  {
    && SharesPrefix(PrevKey(l.es, i), l.shared[i], l.es[i].key)
    && At(data, l.offsets[i], EntryBytes(l.es[i], l.shared[i]))
    && l.offsets[i + 1] == l.offsets[i] + |EntryBytes(l.es[i], l.shared[i])|
    && |l.es[i].key| < 0x1_0000_0000
  }

  ghost predicate IsLayout(data: seq<Byte>, l: Layout) {
    HasShape(l) && forall i :: 0 <= i < |l.es| ==> EntryAt(data, l, i)
  }

  function EntriesEnd(l: Layout): nat
    requires |l.offsets| == |l.es| + 1
  {
    l.offsets[|l.es|]
  }

  lemma {:induction false} OffsetsIncrease(data: seq<Byte>, l: Layout, i: nat, k: nat)
    requires IsLayout(data, l) && i < k <= |l.es|
    ensures l.offsets[i] + 3 <= l.offsets[k]
    decreases k
  {
    hide EntryBytes;
    assert EntryAt(data, l, k - 1);
    if i < k - 1 {
      OffsetsIncrease(data, l, i, k - 1);
    }
  }

  /** Entries are in the order of their offsets. */
  lemma OffsetOrder(data: seq<Byte>, l: Layout, i: nat, k: nat)
    requires IsLayout(data, l) && i <= |l.es| && k <= |l.es|
    ensures l.offsets[i] < l.offsets[k] <==> i < k
    ensures l.offsets[i] == l.offsets[k] <==> i == k
  {
    hide IsLayout;
    if i < k { OffsetsIncrease(data, l, i, k); }
    if k < i { OffsetsIncrease(data, l, k, i); }
  }

  /** The restart array holds the offsets of the restart points. */
  function RestartOffsets(l: Layout): (r: seq<nat>)
    requires HasShape(l)
    ensures |r| == |l.restarts|
  {
    seq(|l.restarts|, j requires 0 <= j < |l.restarts| => l.offsets[l.restarts[j]])
  }

  /** A finished block: entries, restart array, number of restart points. */
  ghost predicate HasBlockLayout(block: seq<Byte>, l: Layout) {
    && IsLayout(block, l)
    && |block| == EntriesEnd(l) + 4 * |l.restarts| + 4
    && At(block, EntriesEnd(l), FixedArray(RestartOffsets(l)) + Fixed(|l.restarts|, FIXED32_BYTES))
  }

  /** Offsets in a block are 32-bit numbers, so a block that is too long cannot be read. */
  ghost predicate IsBlock(block: seq<Byte>, l: Layout) {
    HasBlockLayout(block, l) && |block| < 0x1_0000_0000
  }

  /** The restart point with a given index, read from the restart array. */
  lemma RestartPoint(block: seq<Byte>, l: Layout, j: nat)
    requires IsBlock(block, l) && j < |l.restarts|
    ensures EntriesEnd(l) + 4 * j + 4 <= |block|
    ensures FromFixed32(block[EntriesEnd(l) + 4 * j..EntriesEnd(l) + 4 * j + 4]) == l.offsets[l.restarts[j]]
  {
    hide Fixed, FixedArray, EntryAt, FromFixed32;
    SplitAt(block, EntriesEnd(l), FixedArray(RestartOffsets(l)), Fixed(|l.restarts|, FIXED32_BYTES));
    FixedArrayAt(block, EntriesEnd(l), RestartOffsets(l), j);
    OffsetOrder(block, l, l.restarts[j], |l.es|);
    FixedAt(block, EntriesEnd(l) + 4 * j, l.offsets[l.restarts[j]]);
  }

  lemma NumberOfRestarts(block: seq<Byte>, l: Layout)
    requires IsBlock(block, l)
    ensures FromFixed32(block[|block| - 4..|block|]) == |l.restarts|
  {
    hide Fixed, FixedArray, EntryAt, FromFixed32;
    SplitAt(block, EntriesEnd(l), FixedArray(RestartOffsets(l)), Fixed(|l.restarts|, FIXED32_BYTES));
    FixedAt(block, |block| - 4, |l.restarts|);
  }
}
