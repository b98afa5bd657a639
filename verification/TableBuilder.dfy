/** TableBuilder (table/table_builder.cc): entries in key order become the bytes of a table. */
module TableBuilding {
  import opened Keys
  import opened Coding
  import opened Sequences
  import opened Blocks
  import opened BlockIterator
  import opened BlockBuilding
  import opened Bloom
  import opened FilterBlocks
  import opened TableFormat
  import opened TableLayout
  import InternalKeys
  import Bytewise
  import Crc32c

  // ---------------------------------------------------------------- how the description grows

  /** Index entries so far: each leads to its part and separates it from the entry behind it. */
  ghost predicate IndexSoFar(entries: seq<KeyValue>, starts: seq<nat>, parts: seq<Part>, index: seq<KeyValue>) {
    forall i :: 0 <= i < |index| ==> IndexEntry(entries, starts, parts, index, i) && starts[i + 1] < |entries|
  }

  lemma AddEntryKeepsOrder(entries: seq<KeyValue>, kv: KeyValue)
    requires InOrder(entries) && |kv.key| >= InternalKeys.TAG_BYTES
    requires entries != [] ==> InternalKeys.Compare(entries[|entries| - 1].key, kv.key) < 0
    ensures InOrder(entries + [kv])
  {
    hide InternalKeys.Compare;
    var n, longer := |entries|, entries + [kv];
    forall i, j | 0 <= i < j < |longer| ensures InternalKeys.Compare(longer[i].key, longer[j].key) < 0 {
      if j == n && i < n - 1 {
        InternalKeys.CompareOrders(entries[i].key, entries[n - 1].key, kv.key);
      }
    }
  }

  lemma AddEntryKeepsParts(file: seq<Byte>, entries: seq<KeyValue>, starts: seq<nat>, parts: seq<Part>, kv: KeyValue)
    requires PartsHold(file, entries, starts, parts)
    ensures PartsHold(file, entries + [kv], starts, parts)
  {
    hide PartAt;
    forall i | 0 <= i < |parts| ensures PartHolds(entries + [kv], starts, parts, i) {
      assert PartHolds(entries, starts, parts, i);
      assert (entries + [kv])[starts[i]..starts[i + 1]] == entries[starts[i]..starts[i + 1]];
    }
  }

  lemma AddEntryKeepsIndex(entries: seq<KeyValue>, starts: seq<nat>, parts: seq<Part>, index: seq<KeyValue>, kv: KeyValue)
    requires IndexSoFar(entries, starts, parts, index)
    ensures IndexSoFar(entries + [kv], starts, parts, index)
  {
    hide InternalKeys.CutsBetween, Bytewise.Compare;
    forall i | 0 <= i < |index|
      ensures IndexEntry(entries + [kv], starts, parts, index, i) && starts[i + 1] < |entries + [kv]|
    {
      assert IndexEntry(entries, starts, parts, index, i) && starts[i + 1] < |entries|;
      assert (entries + [kv])[starts[i]..starts[i + 1]] == entries[starts[i]..starts[i + 1]];
    }
  }

  lemma AppendKeepsPart(file: seq<Byte>, more: seq<Byte>, p: Part)
    requires PartAt(file, p)
    ensures PartAt(file + more, p)
  {
    hide Stored, HasBlockLayout;
    AtAppend(file, more, p.handle.offset, Stored(p.contents));
  }

  lemma AtAppend<T>(s: seq<T>, more: seq<T>, a: nat, x: seq<T>)
    requires At(s, a, x)
    ensures At(s + more, a, x)
  {
    assert (s + more)[a..a + |x|] == s[a..a + |x|];
  }

  lemma AppendKeepsParts(file: seq<Byte>, more: seq<Byte>, entries: seq<KeyValue>, starts: seq<nat>, parts: seq<Part>)
    requires PartsHold(file, entries, starts, parts)
    ensures PartsHold(file + more, entries, starts, parts)
  {
    hide PartAt, PartHolds;
    forall i | 0 <= i < |parts| ensures PartAt(file + more, parts[i]) {
      AppendKeepsPart(file, more, parts[i]);
    }
  }

  /** A block that is appended to the file is a part of it. */
  lemma AppendedPart(file: seq<Byte>, contents: seq<Byte>, l: Layout)
    requires HasBlockLayout(contents, l)
    ensures PartAt(file + Stored(contents), Part(BlockHandle(|file|, |contents|), contents, l))
  {
    hide Stored, HasBlockLayout;
    AppendedAt(file, Stored(contents));
  }

  lemma AppendedAt<T>(s: seq<T>, x: seq<T>)
    ensures At(s + x, |s|, x)
  {
  }

  lemma AddPart(file: seq<Byte>, entries: seq<KeyValue>, starts: seq<nat>, parts: seq<Part>, p: Part)
    requires PartsHold(file, entries, starts, parts) && PartAt(file, p)
    requires starts[|parts|] < |entries| && p.layout.es == entries[starts[|parts|]..]
    ensures PartsHold(file, entries, starts + [|entries|], parts + [p])
  {
    hide PartAt;
    var starts', parts' := starts + [|entries|], parts + [p];
    forall i | 0 <= i < |parts'| ensures PartHolds(entries, starts', parts', i) && PartAt(file, parts'[i]) {
      if i < |parts| {
        assert PartHolds(entries, starts, parts, i);
      } else {
        assert entries[starts[i]..|entries|] == entries[starts[i]..];
      }
    }
  }

  lemma AddPartKeepsIndex(entries: seq<KeyValue>, starts: seq<nat>, parts: seq<Part>, index: seq<KeyValue>, p: Part)
    requires IndexSoFar(entries, starts, parts, index)
    ensures IndexSoFar(entries, starts + [|entries|], parts + [p], index)
  {
    hide Separator;
    var starts' := starts + [|entries|];
    forall i | 0 <= i < |index|
      ensures IndexEntry(entries, starts', parts + [p], index, i) && starts'[i + 1] < |entries|
    {
      assert IndexEntry(entries, starts, parts, index, i);
      assert starts'[i] == starts[i] && starts'[i + 1] == starts[i + 1] && (parts + [p])[i] == parts[i];
    }
  }

  // ---------------------------------------------------------------- what the filter has been told

  /** The filter builder knows every user key together with the offset of its block. */
  ghost predicate Told(added: set<(nat, Key)>, entries: seq<KeyValue>, starts: seq<nat>, parts: seq<Part>, offset: nat)
    requires |starts| == |parts| + 1
  {
    && (forall i, j :: 0 <= i < |parts| && starts[i] <= j < starts[i + 1] && j < |entries| ==>
          (parts[i].handle.offset, InternalKeys.UserKey(entries[j].key)) in added)
    && (forall j :: starts[|parts|] <= j < |entries| ==> (offset, InternalKeys.UserKey(entries[j].key)) in added)
  }

  lemma TellEntry(added: set<(nat, Key)>, entries: seq<KeyValue>, starts: seq<nat>, parts: seq<Part>, offset: nat, kv: KeyValue)
    requires |starts| == |parts| + 1 && Told(added, entries, starts, parts, offset)
    requires forall i :: 0 <= i < |parts| ==> PartHolds(entries, starts, parts, i)
    ensures Told(added + {(offset, InternalKeys.UserKey(kv.key))}, entries + [kv], starts, parts, offset)
  {
    hide InternalKeys.UserKey;
    var entries' := entries + [kv];
    forall i, j | 0 <= i < |parts| && starts[i] <= j < starts[i + 1] && j < |entries'|
      ensures (parts[i].handle.offset, InternalKeys.UserKey(entries'[j].key)) in added
    {
      assert PartHolds(entries, starts, parts, i);
    }
  }

  lemma TellPart(added: set<(nat, Key)>, entries: seq<KeyValue>, starts: seq<nat>, parts: seq<Part>, p: Part, offset': nat)
    requires |starts| == |parts| + 1 && Told(added, entries, starts, parts, p.handle.offset)
    ensures Told(added, entries, starts + [|entries|], parts + [p], offset')
  {
    hide InternalKeys.UserKey;
  }

  lemma ToldCovers(added: set<(nat, Key)>, entries: seq<KeyValue>, starts: seq<nat>, parts: seq<Part>, offset: nat,
                   groups: seq<set<Key>>)
    requires |starts| == |parts| + 1 && Told(added, entries, starts, parts, offset)
    requires forall o, k :: (o, k) in added && o / FILTER_BASE < |groups| ==> k in groups[o / FILTER_BASE]
    ensures FilterCovers(entries, starts, parts, groups)
  {
    hide InternalKeys.UserKey;
  }

  // ---------------------------------------------------------------- a table under construction

  /** What has been added and what has become of it: `told` is what the filter builder knows. */
  datatype Progress = Progress(file: seq<Byte>, entries: seq<KeyValue>, starts: seq<nat>, parts: seq<Part>,
                               index: seq<KeyValue>, data: seq<KeyValue>, lastKey: seq<Byte>,
                               pending: bool, pendingHandle: BlockHandle, told: Option<set<(nat, Key)>>)

  ghost predicate Building(b: Progress) {
    && InOrder(b.entries) && PartsHold(b.file, b.entries, b.starts, b.parts)
    && b.starts[|b.parts|] <= |b.entries| && b.data == b.entries[b.starts[|b.parts|]..]
    && (b.entries != [] ==> b.lastKey == b.entries[|b.entries| - 1].key && |b.lastKey| < 0x1_0000_0000)
    && IndexSoFar(b.entries, b.starts, b.parts, b.index)
    && |b.index| == (if b.pending then |b.parts| - 1 else |b.parts|)
    && (b.pending ==> b.parts != [] && b.pendingHandle == b.parts[|b.parts| - 1].handle
                      && b.starts[|b.parts|] == |b.entries|)
    && (b.told.Some? ==> Told(b.told.value, b.entries, b.starts, b.parts, |b.file|))
  }

  lemma NothingBuilt(handle: BlockHandle, told: Option<set<(nat, Key)>>)
    requires told.Some? ==> told.value == {}
    ensures Building(Progress([], [], [0], [], [], [], [], false, handle, told))
  {
  }

  /** A pending index entry has a last key to separate from. */
  lemma PendingKey(b: Progress)
    requires Building(b) && b.pending
    ensures b.entries != [] && InternalKeys.TAG_BYTES <= |b.lastKey| < 0x1_0000_0000
  {
    hide IndexSoFar, Told, PartAt;
    assert PartHolds(b.entries, b.starts, b.parts, |b.parts| - 1);
  }

  /** The progress after one more entry; `separator` is the key of the index entry that was pending. */
  function Added(b: Progress, kv: KeyValue, separator: seq<Byte>): Progress {
    b.(entries := b.entries + [kv], data := b.data + [kv], lastKey := kv.key,
       index := b.index + if b.pending then [KeyValue(separator, EncodeHandle(b.pendingHandle))] else [],
       pending := false,
       told := if b.told.Some? then Some(b.told.value + {(|b.file|, InternalKeys.UserKey(kv.key))}) else None)
  }

  lemma AddedKeepsBuilding(b: Progress, kv: KeyValue, separator: seq<Byte>)
    requires Building(b) && InternalKeys.TAG_BYTES <= |kv.key| < 0x1_0000_0000
    requires b.entries != [] ==> InternalKeys.Compare(b.entries[|b.entries| - 1].key, kv.key) < 0
    requires b.pending ==> separator == b.lastKey || InternalKeys.CutsBetween(b.lastKey, separator, kv.key)
    ensures Building(Added(b, kv, separator))
  {
    hide InternalKeys.Compare, InternalKeys.CutsBetween, PartAt, IndexSoFar, Told, EncodeHandle, InternalKeys.UserKey, InOrder;
    AddEntryKeepsOrder(b.entries, kv);
    AddEntryKeepsParts(b.file, b.entries, b.starts, b.parts, kv);
    AddEntryKeepsIndex(b.entries, b.starts, b.parts, b.index, kv);
    if b.told.Some? {
      TellEntry(b.told.value, b.entries, b.starts, b.parts, |b.file|, kv);
    }
    if b.pending {
      assert PartHolds(b.entries, b.starts, b.parts, |b.parts| - 1);
      assert PartHolds(b.entries + [kv], b.starts, b.parts, |b.parts| - 1);
      NewIndexEntry(b.entries, kv, b.starts, b.parts, b.index, separator);
    } else {
      assert b.index + [] == b.index;
    }
  }

  /** The new index entry separates the last part from the entry that is being added. */
  lemma NewIndexEntry(entries: seq<KeyValue>, kv: KeyValue, starts: seq<nat>, parts: seq<Part>, index: seq<KeyValue>, key: seq<Byte>)
    requires parts != [] && |starts| == |parts| + 1 && |index| == |parts| - 1
    requires IndexSoFar(entries + [kv], starts, parts, index)
    requires PartHolds(entries + [kv], starts, parts, |parts| - 1) && starts[|parts|] == |entries|
    requires key == entries[|entries| - 1].key || InternalKeys.CutsBetween(entries[|entries| - 1].key, key, kv.key)
    ensures IndexSoFar(entries + [kv], starts, parts, index + [KeyValue(key, EncodeHandle(parts[|parts| - 1].handle))])
  {
    hide InternalKeys.CutsBetween, Bytewise.Compare, EncodeHandle;
    var index' := index + [KeyValue(key, EncodeHandle(parts[|parts| - 1].handle))];
    forall i | 0 <= i < |index'|
      ensures IndexEntry(entries + [kv], starts, parts, index', i) && starts[i + 1] < |entries + [kv]|
    {
      if i < |index| { assert IndexEntry(entries + [kv], starts, parts, index, i); }
    }
  }

  /** The progress after the data block has been written. */
  function Flushed(b: Progress, contents: seq<Byte>, l: Layout): Progress {
    var handle := BlockHandle(|b.file|, |contents|);
    b.(file := b.file + Stored(contents), starts := b.starts + [|b.entries|],
       parts := b.parts + [Part(handle, contents, l)], data := [], pending := true, pendingHandle := handle)
  }

  lemma FlushedKeepsBuilding(b: Progress, contents: seq<Byte>, l: Layout)
    requires Building(b) && b.data != [] && HasBlockLayout(contents, l) && l.es == b.data
    ensures Building(Flushed(b, contents, l)) && !b.pending
  {
    hide PartAt, IndexSoFar, Told, HasBlockLayout, InOrder, PartHolds, Stored;
    var p := Part(BlockHandle(|b.file|, |contents|), contents, l);
    AppendedPart(b.file, contents, l);
    AppendKeepsParts(b.file, Stored(contents), b.entries, b.starts, b.parts);
    AddPart(b.file + Stored(contents), b.entries, b.starts, b.parts, p);
    AddPartKeepsIndex(b.entries, b.starts, b.parts, b.index, p);
    if b.told.Some? {
      TellPart(b.told.value, b.entries, b.starts, b.parts, p, |b.file + Stored(contents)|);
    }
    assert b.entries[|b.entries|..] == [];
  }

  // ---------------------------------------------------------------- the finished table

  /** The last index entry is a key at or past the last key. */
  lemma FinishedIndex(b: Progress, separator: seq<Byte>)
    requires Building(b) && b.data == []
    requires b.pending ==> separator == b.lastKey ||
                           Bytewise.Compare(InternalKeys.UserKey(b.lastKey), InternalKeys.UserKey(separator)) < 0
    ensures var index := b.index + if b.pending then [KeyValue(separator, EncodeHandle(b.pendingHandle))] else [];
            |index| == |b.parts| && forall i :: 0 <= i < |b.parts| ==> IndexEntry(b.entries, b.starts, b.parts, index, i)
    ensures |b.starts| == |b.parts| + 1 && b.starts[|b.parts|] == |b.entries|
  {
    hide EncodeHandle, InternalKeys.CutsBetween, Bytewise.Compare, InternalKeys.UserKey, PartAt, Told, InOrder;
    var index := b.index + if b.pending then [KeyValue(separator, EncodeHandle(b.pendingHandle))] else [];
    assert |b.data| == |b.entries| - b.starts[|b.parts|];
    if b.pending {
      assert PartHolds(b.entries, b.starts, b.parts, |b.parts| - 1);
    }
    forall i | 0 <= i < |b.parts| ensures IndexEntry(b.entries, b.starts, b.parts, index, i) {
      if i < |b.index| { assert IndexEntry(b.entries, b.starts, b.parts, b.index, i); }
    }
  }

  /** The blocks that Finish appends, one after the other. */
  datatype Tail = Tail(filter: Option<FilterPart>, meta: seq<Byte>, metaLayout: Layout, index: seq<Byte>, indexLayout: Layout)

  function WithFilter(file: seq<Byte>, t: Tail): seq<Byte> {
    if t.filter.Some? then file + Stored(FilterBlocks.Contents(t.filter.value.data, t.filter.value.offsets)) else file
  }

  function WithMeta(file: seq<Byte>, t: Tail): seq<Byte> {
    WithFilter(file, t) + Stored(t.meta)
  }

  function WithIndex(file: seq<Byte>, t: Tail): seq<Byte> {
    WithMeta(file, t) + Stored(t.index)
  }

  function MetaPart(file: seq<Byte>, t: Tail): Part {
    Part(BlockHandle(|WithFilter(file, t)|, |t.meta|), t.meta, t.metaLayout)
  }

  function IndexPart(file: seq<Byte>, t: Tail): Part {
    Part(BlockHandle(|WithMeta(file, t)|, |t.index|), t.index, t.indexLayout)
  }

  function Finished(file: seq<Byte>, t: Tail): seq<Byte> {
    WithIndex(file, t) + EncodeFooter(MetaPart(file, t).handle, IndexPart(file, t).handle)
  }

  function ShapeOf(b: Progress, t: Tail): TableShape {
    TableShape(b.entries, b.starts, b.parts, IndexPart(b.file, t), MetaPart(b.file, t), t.filter)
  }

  ghost predicate GoodFilter(b: Progress, policy: BloomFilterPolicy?, filter: Option<FilterPart>) {
    filter.Some? ==>
      var f := filter.value;
      policy != null && Filters(policy, f.data, f.offsets, f.groups)
      && f.handle == BlockHandle(|b.file|, |FilterBlocks.Contents(f.data, f.offsets)|)
      && |b.starts| == |b.parts| + 1 && FilterCovers(b.entries, b.starts, b.parts, f.groups)
  }

  lemma FinishedIsTable(b: Progress, policy: BloomFilterPolicy?, separator: seq<Byte>, t: Tail)
    requires Building(b) && b.data == [] && GoodFilter(b, policy, t.filter)
    requires b.pending ==> separator == b.lastKey ||
                           Bytewise.Compare(InternalKeys.UserKey(b.lastKey), InternalKeys.UserKey(separator)) < 0
    requires HasBlockLayout(t.meta, t.metaLayout) && t.metaLayout.es == MetaEntries(t.filter)
    requires HasBlockLayout(t.index, t.indexLayout)
    requires t.indexLayout.es == b.index + if b.pending then [KeyValue(separator, EncodeHandle(b.pendingHandle))] else []
    ensures IsTable(Finished(b.file, t), policy, ShapeOf(b, t))
  {
    hide EncodeHandle, InternalKeys.UserKey, Bytewise.Compare, HasBlockLayout, PartAt, IndexEntry, IndexSoFar, Stored, FilterCovers;
    hide EncodeFooter, FilterBlocks.Contents, Filters, MetaEntries, InOrder, PartHolds;
    FinishedIndex(b, separator);
    var f1, f2, f3 := WithFilter(b.file, t), WithMeta(b.file, t), WithIndex(b.file, t);
    var footer := EncodeFooter(MetaPart(b.file, t).handle, IndexPart(b.file, t).handle);
    AppendedPart(f1, t.meta, t.metaLayout);
    AppendedPart(f2, t.index, t.indexLayout);
    AppendKeepsPart(f2, Stored(t.index), MetaPart(b.file, t));
    AppendKeepsPart(f3, footer, MetaPart(b.file, t));
    AppendKeepsPart(f3, footer, IndexPart(b.file, t));
    var more := Finished(b.file, t)[|b.file|..];
    assert Finished(b.file, t) == b.file + more;
    AppendKeepsParts(b.file, more, b.entries, b.starts, b.parts);
    if t.filter.Some? {
      FilterStays(b, policy, t);
    }
    assert Finished(b.file, t)[|f3|..] == footer;
  }

  lemma FilterStays(b: Progress, policy: BloomFilterPolicy?, t: Tail)
    requires GoodFilter(b, policy, t.filter) && t.filter.Some?
    ensures FilterAt(Finished(b.file, t), policy, t.filter.value)
  {
    hide Stored, EncodeFooter, FilterBlocks.Contents, Filters, FilterCovers;
    var stored := Stored(FilterBlocks.Contents(t.filter.value.data, t.filter.value.offsets));
    var footer := EncodeFooter(MetaPart(b.file, t).handle, IndexPart(b.file, t).handle);
    AppendedAt(b.file, stored);
    AtAppend(WithFilter(b.file, t), Stored(t.meta), |b.file|, stored);
    AtAppend(WithMeta(b.file, t), Stored(t.index), |b.file|, stored);
    AtAppend(WithIndex(b.file, t), footer, |b.file|, stored);
  }

  class TableBuilder {
    const blockSize: nat
    const restartInterval: nat
    const policy: BloomFilterPolicy?
    const dataBlock: BlockBuilder
    const indexBlock: BlockBuilder
    const filterBlock: FilterBlockBuilder?
    var file: seq<Byte>
    var offset: nat
    var lastKey: seq<Byte>
    var closed: bool
    var pendingIndexEntry: bool
    var pendingHandle: BlockHandle
    ghost var entries: seq<KeyValue>
    ghost var starts: seq<nat>
    ghost var parts: seq<Part>

    ghost predicate Objects()
      reads this, dataBlock, indexBlock, filterBlock
    {
      && dataBlock != indexBlock && dataBlock.Valid() && indexBlock.Valid()
      && restartInterval >= 1
      && (policy == null <==> filterBlock == null)
      && (filterBlock != null ==> filterBlock.Valid() && filterBlock.policy == policy
                                  && |filterBlock.groups| == offset / FILTER_BASE)
    }

    ghost function Now(): Progress
      reads this, dataBlock, indexBlock, filterBlock
    {
      Progress(file, entries, starts, parts, indexBlock.layout.es, dataBlock.layout.es, lastKey,
               pendingIndexEntry, pendingHandle, if filterBlock == null then None else Some(filterBlock.added))
    }

    ghost predicate Valid()
      reads this, dataBlock, indexBlock, filterBlock
    {
      Objects() && offset == |file| && Building(Now()) && !closed
    }

    constructor (blockSize: nat, restartInterval: nat, policy: BloomFilterPolicy?)
      requires restartInterval >= 1 && (policy != null ==> 1 <= policy.k <= 30)
      ensures Valid() && entries == [] && this.policy == policy
      ensures fresh(dataBlock) && fresh(indexBlock) && (filterBlock != null ==> fresh(filterBlock))
    {
      hide Building, IsLayout, BlockBuilder.Valid, FilterBlockBuilder.Valid;
      this.blockSize := blockSize;
      this.restartInterval := restartInterval;
      this.policy := policy;
      var data := new BlockBuilder(restartInterval);
      var index := new BlockBuilder(1);
      this.dataBlock := data;
      this.indexBlock := index;
      var filter: FilterBlockBuilder? := null;
      if policy != null {
        filter := new FilterBlockBuilder(policy);
        filter.StartBlock(0);
      }
      this.filterBlock := filter;
      file, offset, lastKey, closed, pendingIndexEntry := [], 0, [], false, false;
      pendingHandle := BlockHandle(0, 0);
      entries, starts, parts := [], [0], [];
      new;
      NothingBuilt(pendingHandle, Now().told);
    }

    method Add(key: seq<Byte>, value: seq<Byte>)
      requires Valid() && InternalKeys.TAG_BYTES <= |key| < 0x1_0000_0000 && |value| < 0x1_0000_0000
      requires entries != [] ==> InternalKeys.Compare(entries[|entries| - 1].key, key) < 0
      modifies this, dataBlock, indexBlock, filterBlock
      ensures Valid() && entries == old(entries) + [KeyValue(key, value)]
      // A data block is written when it has reached its size, and only then.
      ensures dataBlock.layout.es == [] || dataBlock.CurrentSizeEstimate() < blockSize
      ensures parts == old(parts) || (|parts| == |old(parts)| + 1 && parts[|old(parts)|].handle.size >= blockSize)
    {
      hide Building;
      AddEntry(key, value);
      if dataBlock.CurrentSizeEstimate() >= blockSize {
        Flush();
      }
    }

    method AddEntry(key: seq<Byte>, value: seq<Byte>)
      requires Valid() && InternalKeys.TAG_BYTES <= |key| < 0x1_0000_0000 && |value| < 0x1_0000_0000
      requires entries != [] ==> InternalKeys.Compare(entries[|entries| - 1].key, key) < 0
      modifies this, dataBlock, indexBlock, filterBlock
      ensures Valid() && entries == old(entries) + [KeyValue(key, value)] && parts == old(parts)
    {
      hide Building, InternalKeys.CutsBetween, EncodeHandle, InternalKeys.UserKey, IsLayout, BlockBuilder.Valid, FilterBlockBuilder.Valid;
      ghost var b, kv := Now(), KeyValue(key, value);
      if pendingIndexEntry {
        PendingKey(b);
        EmitIndexEntry(key);
      }
      AddedKeepsBuilding(b, kv, lastKey);
      ghost var b' := Added(b, kv, lastKey);
      if filterBlock != null {
        filterBlock.AddKey(InternalKeys.UserKey(key), offset);
      }
      lastKey := key;
      dataBlock.Add(key, value);
      entries := entries + [kv];
      assert Now() == b';
    }

    /** The index entry of the last block is made when the next key is known: a separator of the two. */
    method EmitIndexEntry(key: seq<Byte>)
      requires indexBlock.Valid() && pendingIndexEntry
      requires InternalKeys.TAG_BYTES <= |lastKey| < 0x1_0000_0000 && |key| >= InternalKeys.TAG_BYTES
      modifies this`lastKey, this`pendingIndexEntry, indexBlock
      ensures indexBlock.Valid() && !pendingIndexEntry
      ensures lastKey == old(lastKey) || InternalKeys.CutsBetween(old(lastKey), lastKey, key)
      ensures indexBlock.layout.es == old(indexBlock.layout.es) + [KeyValue(lastKey, EncodeHandle(pendingHandle))]
    {
      hide InternalKeys.CutsBetween, EncodeHandle, Bytewise.IsSeparator, Fixed;
      lastKey := InternalKeys.FindShortestSeparator(lastKey, key);
      var handleEncoding := EncodeHandle(pendingHandle);
      indexBlock.Add(lastKey, handleEncoding);
      pendingIndexEntry := false;
    }

    /** Finish the data block, if there is anything in it. */
    method Flush()
      requires Valid()
      modifies this, dataBlock, indexBlock, filterBlock
      ensures Valid() && entries == old(entries) && dataBlock.layout.es == []
      ensures parts == old(parts)
              || (|parts| == |old(parts)| + 1 && parts[|old(parts)|].handle.size == old(dataBlock.CurrentSizeEstimate()))
    {
      hide Building, HasBlockLayout, Stored, IsLayout;
      BufferEmpty(dataBlock);
      if dataBlock.buffer == [] {
        return;
      }
      ghost var b, l := Now(), dataBlock.layout;
      var contents := WriteBlock(dataBlock);
      FlushedKeepsBuilding(b, contents, l);
      pendingHandle := BlockHandle(offset - |contents| - BLOCK_TRAILER_SIZE, |contents|);
      pendingIndexEntry := true;
      starts := starts + [|entries|];
      parts := parts + [Part(pendingHandle, contents, l)];
      if filterBlock != null {
        filterBlock.StartBlock(offset);
      }
      assert Now() == Flushed(b, contents, l);
    }

    /** The file becomes a table with everything that was added. */
    method Finish() returns (ghost shape: TableShape)
      requires Valid()
      modifies this, dataBlock, indexBlock, filterBlock
      ensures closed && shape.entries == old(entries) && IsTable(file, policy, shape)
    {
      hide Building, IsLayout, HasBlockLayout, Stored, EncodeHandle, IsTable, Bytewise.Compare, InternalKeys.UserKey, FilterKey;
      hide Bytewise.IsSuccessor, Fixed, InternalKeys.TagOf, EncodeFooter, BlockBuilder.Valid, Filters, FilterCovers;
      Flush();
      closed := true;
      ghost var b := Now();
      var filterHandle := BlockHandle(offset, 0);
      ghost var filter: Option<FilterPart> := None;
      if filterBlock != null {
        filterHandle, filter := WriteFilter(b);
      }
      ghost var metaLayout;
      var metaContents: seq<Byte>;
      var metaHandle, indexHandle;
      metaHandle, metaContents, metaLayout := WriteMeta(filterHandle, filter);
      if pendingIndexEntry {
        PendingKey(b);
        lastKey := InternalKeys.FindShortSuccessor(lastKey);
        var handleEncoding := EncodeHandle(pendingHandle);
        indexBlock.Add(lastKey, handleEncoding);
        pendingIndexEntry := false;
      }
      ghost var indexLayout := indexBlock.layout;
      var indexContents := WriteBlock(indexBlock);
      indexHandle := BlockHandle(offset - |indexContents| - BLOCK_TRAILER_SIZE, |indexContents|);
      var footer := EncodeFooter(metaHandle, indexHandle);
      file := file + footer;
      offset := offset + |footer|;
      ghost var t := Tail(filter, metaContents, metaLayout, indexContents, indexLayout);
      FinishedIsTable(b, policy, lastKey, t);
      assert file == Finished(b.file, t);
      shape := ShapeOf(b, t);
    }

    method WriteFilter(ghost b: Progress) returns (handle: BlockHandle, ghost filter: Option<FilterPart>)
      requires Objects() && filterBlock != null && offset == |file| && Building(b) && b.told == Some(filterBlock.added)
      requires b.file == file
      modifies this`file, this`offset, filterBlock
      ensures offset == |file| && filter.Some? && handle == filter.value.handle
      ensures file == b.file + Stored(FilterBlocks.Contents(filter.value.data, filter.value.offsets))
      ensures GoodFilter(b, policy, filter)
    {
      hide Stored, Filters, BlockBuilder.Valid, FilterBlocks.Contents;
      var contents := filterBlock.Finish();
      handle := BlockHandle(offset, |contents|);
      WriteRawBlock(contents);
      filter := Some(FilterPart(handle, filterBlock.result, filterBlock.filterOffsets, filterBlock.groups));
      ToldCovers(filterBlock.added, b.entries, b.starts, b.parts, |b.file|, filterBlock.groups);
    }

    method WriteMeta(filterHandle: BlockHandle, ghost filter: Option<FilterPart>)
      returns (handle: BlockHandle, contents: seq<Byte>, ghost l: Layout)
      requires offset == |file| && restartInterval >= 1
      requires filterBlock != null <==> filter.Some?
      requires filter.Some? ==> filterHandle == filter.value.handle
      modifies this`file, this`offset
      ensures HasBlockLayout(contents, l) && l.es == MetaEntries(filter)
      ensures handle == BlockHandle(|old(file)|, |contents|)
      ensures file == old(file) + Stored(contents) && offset == |file|
    {
      hide HasBlockLayout, Stored, EncodeHandle, IsLayout;
      var metaIndexBlock := new BlockBuilder(restartInterval);
      if filterBlock != null {
        var handleEncoding := EncodeHandle(filterHandle);
        metaIndexBlock.Add(FilterKey(), handleEncoding);
      }
      l := metaIndexBlock.layout;
      contents := WriteBlock(metaIndexBlock);
      handle := BlockHandle(offset - |contents| - BLOCK_TRAILER_SIZE, |contents|);
    }

    method WriteBlock(block: BlockBuilder) returns (contents: seq<Byte>)
      requires block.Valid() && offset == |file|
      modifies this`file, this`offset, block
      ensures block.Valid() && block.layout.es == []
      ensures HasBlockLayout(contents, old(block.layout)) && |contents| == old(block.CurrentSizeEstimate())
      ensures file == old(file) + Stored(contents) && offset == old(offset) + |contents| + BLOCK_TRAILER_SIZE == |file|
    {
      hide HasBlockLayout, Stored, IsLayout;
      contents := block.Finish();
      WriteRawBlock(contents);
      block.Reset();
    }

    method WriteRawBlock(contents: seq<Byte>)
      requires offset == |file|
      modifies this`file, this`offset
      ensures file == old(file) + Stored(contents) && offset == old(offset) + |contents| + BLOCK_TRAILER_SIZE == |file|
    {
      hide Crc32c.Extended, Crc32c.Mask, Fixed32;
      file := file + contents;
      var crc := Crc32c.Value(contents);
      crc := Crc32c.Extend(crc, [NO_COMPRESSION]);
      Crc32c.ExtendConcat(0, contents, [NO_COMPRESSION]);
      var trailer := [NO_COMPRESSION] + Fixed32(Crc32c.Mask(crc));
      assert trailer == BlockTrailer(contents);
      file := file + trailer;
      offset := offset + |contents| + BLOCK_TRAILER_SIZE;
    }
  }

  lemma BufferEmpty(b: BlockBuilder)
    requires b.Valid()
    ensures b.buffer == [] <==> b.layout.es == []
  {
    OffsetOrder(b.buffer, b.layout, 0, |b.layout.es|);
  }
}
