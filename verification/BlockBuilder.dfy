/** BlockBuilder (table/block_builder.cc). */
module BlockBuilding {
  import opened Coding
  import opened Sequences
  import opened Varints
  import opened Blocks

  const EMPTY_LAYOUT := Layout([], [0], [], [0])

  /** The layout after one more entry, which may be a restart point. */
  function Extended(l: Layout, kv: KeyValue, shared: nat, restart: bool): Layout
    requires HasShape(l) && shared <= |kv.key|
  {
    Layout(l.es + [kv], l.offsets + [EntriesEnd(l) + |EntryBytes(kv, shared)|], l.shared + [shared],
           l.restarts + if restart then [|l.es|] else [])
  }

  lemma ExtendedLayout(data: seq<Byte>, l: Layout, kv: KeyValue, shared: nat, restart: bool)
    requires IsLayout(data, l) && |data| == EntriesEnd(l) && |kv.key| < 0x1_0000_0000
    requires SharesPrefix(PrevKey(l.es, |l.es|), shared, kv.key)
    requires restart ==> l.es != [] && shared == 0
    ensures IsLayout(data + EntryBytes(kv, shared), Extended(l, kv, shared, restart))
  {
    hide EntryBytes;
    var data', l' := data + EntryBytes(kv, shared), Extended(l, kv, shared, restart);
    ExtendedShape(l, kv, shared, restart);
    forall i | 0 <= i < |l'.es| ensures EntryAt(data', l', i) {
      if i < |l.es| {
        assert EntryAt(data, l, i);
        assert At(data', l.offsets[i], EntryBytes(l.es[i], l.shared[i])) by {
          var n := l.offsets[i] + |EntryBytes(l.es[i], l.shared[i])|;
          assert data'[l.offsets[i]..n] == data[l.offsets[i]..n];
        }
        assert PrevKey(l'.es, i) == PrevKey(l.es, i);
      } else {
        assert PrevKey(l'.es, i) == PrevKey(l.es, i);
        assert data'[|data|..|data'|] == EntryBytes(kv, shared);
      }
    }
  }

  lemma ExtendedShape(l: Layout, kv: KeyValue, shared: nat, restart: bool)
    requires HasShape(l) && shared <= |kv.key|
    requires restart ==> l.es != [] && shared == 0
    requires l.es == [] ==> shared == 0
    ensures HasShape(Extended(l, kv, shared, restart))
    ensures RestartOffsets(Extended(l, kv, shared, restart)) ==
              RestartOffsets(l) + if restart then [EntriesEnd(l)] else []
  {
    hide EntryBytes;
  }

  /** The entry shares as much of its key with the one before as it can. */
  ghost predicate SharesAll(l: Layout, i: nat)
    requires HasShape(l) && i < |l.es|
  {
    var prev, key, shared := PrevKey(l.es, i), l.es[i].key, l.shared[i];
    shared == |prev| || shared == |key| || (shared < |prev| && shared < |key| && prev[shared] != key[shared])
  }

  /** Every `interval` entries there is a restart point, and all other entries share what they can. */
  ghost predicate Regular(l: Layout, interval: nat) {
    && HasShape(l)
    && (forall j :: 0 < j < |l.restarts| ==> l.restarts[j] == l.restarts[j - 1] + interval)
    && |l.es| <= l.restarts[|l.restarts| - 1] + interval
    && forall i :: 0 <= i < |l.es| && i !in l.restarts ==> SharesAll(l, i)
  }

  lemma ExtendedRegular(l: Layout, kv: KeyValue, shared: nat, restart: bool, interval: nat)
    requires Regular(l, interval) && interval >= 1 && shared <= |kv.key|
    requires restart <==> |l.es| == l.restarts[|l.restarts| - 1] + interval
    requires restart ==> l.es != [] && shared == 0
    requires l.es == [] ==> shared == 0
    requires SharesPrefix(PrevKey(l.es, |l.es|), shared, kv.key)
    requires !restart ==> var prev := PrevKey(l.es, |l.es|); shared < |prev| && shared < |kv.key| ==> prev[shared] != kv.key[shared]
    ensures Regular(Extended(l, kv, shared, restart), interval)
  {
    hide EntryBytes;
    ExtendedShape(l, kv, shared, restart);
    var l' := Extended(l, kv, shared, restart);
    forall i | 0 <= i < |l'.es| && i !in l'.restarts ensures SharesAll(l', i) {
      assert PrevKey(l'.es, i) == PrevKey(l.es, i);
      if i < |l.es| {
        assert i !in l.restarts && SharesAll(l, i);
      }
    }
  }

  lemma RegularBounds(l: Layout, interval: nat)
    requires Regular(l, interval)
    ensures HasShape(l) && |l.es| <= l.restarts[|l.restarts| - 1] + interval
  {
  }

  class BlockBuilder {
    const restartInterval: nat
    var buffer: seq<Byte>
    var restarts: seq<nat>
    var counter: nat
    var finished: bool
    var lastKey: seq<Byte>
    ghost var layout: Layout  // everything added so far

    ghost predicate Valid()
      reads this
    {
      && restartInterval >= 1 && !finished
      && IsLayout(buffer, layout) && |buffer| == EntriesEnd(layout)
      && restarts == RestartOffsets(layout)
      && lastKey == PrevKey(layout.es, |layout.es|)
      && Regular(layout, restartInterval) && counter == |layout.es| - layout.restarts[|layout.restarts| - 1]
    }

    constructor (restartInterval: nat)
      requires restartInterval >= 1
      ensures Valid() && layout.es == []
    {
      this.restartInterval := restartInterval;
      buffer, restarts, counter, finished, lastKey := [], [0], 0, false, [];
      layout := EMPTY_LAYOUT;
    }

    method Reset()
      requires restartInterval >= 1
      modifies this
      ensures Valid() && layout.es == []
    {
      buffer := [];
      restarts := [0];
      counter := 0;
      finished := false;
      lastKey := [];
      layout := EMPTY_LAYOUT;
    }

    method Add(key: seq<Byte>, value: seq<Byte>)
      requires Valid() && |key| < 0x1_0000_0000 && |value| < 0x1_0000_0000
      modifies this
      ensures Valid() && layout.es == old(layout.es) + [KeyValue(key, value)]
    {
      hide EntryBytes, IsLayout, Regular;
      RegularBounds(layout, restartInterval);
      var shared, restart := 0, counter >= restartInterval;
      if counter < restartInterval {
        shared := SharedLength(lastKey, key);
      } else {
        restarts := restarts + [|buffer|];
        counter := 0;
      }
      ghost var kv := KeyValue(key, value);
      ExtendedLayout(buffer, layout, kv, shared, restart);
      ExtendedShape(layout, kv, shared, restart);
      ExtendedRegular(layout, kv, shared, restart, restartInterval);
      var entry := EncodeEntry(key, value, shared);
      buffer := buffer + entry;
      layout := Extended(layout, kv, shared, restart);
      lastKey := lastKey[..shared] + key[shared..];
      assert lastKey == key;
      counter := counter + 1;
    }

    /** How much of its key an entry can share with the entry before. */
    static method SharedLength(lastKey: seq<Byte>, key: seq<Byte>) returns (shared: nat)
      ensures SharesPrefix(lastKey, shared, key)
      ensures shared < |lastKey| && shared < |key| ==> lastKey[shared] != key[shared]
    {
      shared := 0;
      var minLength := if |lastKey| < |key| then |lastKey| else |key|;
      while shared < minLength && lastKey[shared] == key[shared]
        invariant shared <= minLength && lastKey[..shared] == key[..shared]
      {
        shared := shared + 1;
      }
    }

    static method EncodeEntry(key: seq<Byte>, value: seq<Byte>, shared: nat) returns (bytes: seq<Byte>)
      requires shared <= |key| < 0x1_0000_0000 && |value| < 0x1_0000_0000
      ensures bytes == EntryBytes(KeyValue(key, value), shared)
    {
      hide Varint;
      var nonShared := |key| - shared;
      var a := EncodeVarint32(shared);
      var b := EncodeVarint32(nonShared);
      var c := EncodeVarint32(|value|);
      bytes := a + b + c;
      bytes := bytes + key[shared..shared + nonShared];
      bytes := bytes + value;
      assert bytes == (a + b + c) + (key[shared..] + value);
    }

    function CurrentSizeEstimate(): nat
      reads this
    {
      |buffer| + |restarts| * 4 + 4
    }

    /** The finished block holds exactly what was added. */
    method Finish() returns (block: seq<Byte>)
      requires Valid()
      modifies this
      ensures finished && layout == old(layout) && HasBlockLayout(block, layout) && Regular(layout, restartInterval)
      ensures |block| == old(CurrentSizeEstimate())
    {
      hide IsLayout, Fixed, Regular;
      ghost var entries := buffer;
      for i := 0 to |restarts|
        invariant layout == old(layout) && restarts == old(restarts)
        invariant buffer == entries + FixedArray(restarts[..i])
      {
        assert restarts[..i + 1][..i] == restarts[..i];
        buffer := buffer + Fixed(restarts[i], FIXED32_BYTES);
      }
      assert restarts[..|restarts|] == restarts;
      ghost var tail := FixedArray(restarts) + Fixed(|restarts|, FIXED32_BYTES);
      buffer := buffer + Fixed(|restarts|, FIXED32_BYTES);
      finished := true;
      block := buffer;
      assert block == entries + tail && block[|entries|..|block|] == tail;
      LayoutOfPrefix(entries, block, layout);
    }
  }

  lemma LayoutOfPrefix(data: seq<Byte>, longer: seq<Byte>, l: Layout)
    requires IsLayout(data, l) && data <= longer
    ensures IsLayout(longer, l)
  {
    hide EntryBytes;
    forall i | 0 <= i < |l.es| ensures EntryAt(longer, l, i) {
      assert EntryAt(data, l, i);
      var n := l.offsets[i] + |EntryBytes(l.es[i], l.shared[i])|;
      assert longer[l.offsets[i]..n] == data[l.offsets[i]..n];
    }
  }
}
