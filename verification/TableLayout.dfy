/** What a table file holds and where (doc/table_format.md): data blocks in key order, an index block
    with one separator per data block, a metaindex block, perhaps a filter block, and a footer. */
module TableLayout {
  import opened Keys
  import opened Coding
  import opened Sequences
  import opened Blocks
  import opened BlockIterator
  import opened Bloom
  import opened FilterBlocks
  import opened TableFormat
  import InternalKeys
  import Bytewise

  /** A block in a file. */
  datatype Part = Part(handle: BlockHandle, contents: seq<Byte>, layout: Layout)

  ghost predicate PartAt(file: seq<Byte>, p: Part) {
    && At(file, p.handle.offset, Stored(p.contents)) && p.handle.size == |p.contents|
    && HasBlockLayout(p.contents, p.layout)
  }

  ghost predicate InOrder(entries: seq<KeyValue>) {
    && Increasing(InternalKeys.Compare, entries)
    && forall i :: 0 <= i < |entries| ==> |entries[i].key| >= InternalKeys.TAG_BYTES
  }

  /** Part i holds the entries from starts[i] up to starts[i + 1]. */
  ghost predicate PartHolds(entries: seq<KeyValue>, starts: seq<nat>, parts: seq<Part>, i: nat) {
    && i < |parts| && i + 1 < |starts|
    && starts[i] < starts[i + 1] <= |entries|
    && parts[i].layout.es == entries[starts[i]..starts[i + 1]]
  }

  ghost predicate PartsHold(file: seq<Byte>, entries: seq<KeyValue>, starts: seq<nat>, parts: seq<Part>) {
    && |starts| == |parts| + 1 && starts[0] == 0
    && (forall i :: 0 <= i < |parts| ==> PartHolds(entries, starts, parts, i))
    && (forall i :: 0 <= i < |parts| ==> PartAt(file, parts[i]))
  }

  /** The separator between the entry that ends a part and the next entry, if there is one. */
  ghost predicate Separator(entries: seq<KeyValue>, end: nat, key: seq<Byte>)
    requires 0 < end <= |entries|
  {
    var last := entries[end - 1].key;
    || key == last
    || (end < |entries| && InternalKeys.CutsBetween(last, key, entries[end].key))
    || (end == |entries| && Bytewise.Compare(InternalKeys.UserKey(last), InternalKeys.UserKey(key)) < 0)
  }

  /** Index entry i leads to part i. */
  ghost predicate IndexEntry(entries: seq<KeyValue>, starts: seq<nat>, parts: seq<Part>, index: seq<KeyValue>, i: nat) {
    && i < |index| && PartHolds(entries, starts, parts, i)
    && Separator(entries, starts[i + 1], index[i].key)
    && index[i].value == EncodeHandle(parts[i].handle)
  }

  datatype FilterPart = FilterPart(handle: BlockHandle, data: seq<Byte>, offsets: seq<nat>, groups: seq<set<Key>>)

  ghost predicate InFilter(groups: seq<set<Key>>, offset: nat, key: Key) {
    offset / FILTER_BASE < |groups| ==> key in groups[offset / FILTER_BASE]
  }

  /** Every user key of a data block is in the filter for that block's offset. */
  ghost predicate FilterCovers(entries: seq<KeyValue>, starts: seq<nat>, parts: seq<Part>, groups: seq<set<Key>>)
    requires |starts| == |parts| + 1
  {
    forall i, j :: 0 <= i < |parts| && starts[i] <= j < starts[i + 1] && j < |entries| ==>
      InFilter(groups, parts[i].handle.offset, InternalKeys.UserKey(entries[j].key))
  }

  ghost predicate FilterAt(file: seq<Byte>, policy: BloomFilterPolicy, f: FilterPart) {
    && At(file, f.handle.offset, Stored(Contents(f.data, f.offsets)))
    && f.handle.size == |Contents(f.data, f.offsets)|
    && Filters(policy, f.data, f.offsets, f.groups)
  }

  /** "filter." and the name of the policy. */
  function FilterKey(): seq<Byte> {
    [102, 105, 108, 116, 101, 114, 46, 108, 101, 118, 101, 108, 100, 98, 46, 66, 117, 105, 108, 116, 105, 110,
     66, 108, 111, 111, 109, 70, 105, 108, 116, 101, 114, 50]
  }

  lemma FilterKeyIs(i: nat)
    requires i < |FilterKey()|
    ensures |FilterKey()| == |"filter.leveldb.BuiltinBloomFilter2"|
    ensures FilterKey()[i] == "filter.leveldb.BuiltinBloomFilter2"[i] as int
  {
  }

  datatype TableShape = TableShape(entries: seq<KeyValue>, starts: seq<nat>, parts: seq<Part>, index: Part, metaindex: Part,
                         filter: Option<FilterPart>)

  /** The file is a table with these entries, built with this policy. */
  ghost predicate IsTable(file: seq<Byte>, policy: BloomFilterPolicy?, t: TableShape) {
    && InOrder(t.entries)
    && PartsHold(file, t.entries, t.starts, t.parts) && t.starts[|t.parts|] == |t.entries|
    && |t.index.layout.es| == |t.parts|
    && (forall i :: 0 <= i < |t.parts| ==> IndexEntry(t.entries, t.starts, t.parts, t.index.layout.es, i))
    && PartAt(file, t.index) && PartAt(file, t.metaindex)
    && |file| >= FOOTER_LENGTH && file[|file| - FOOTER_LENGTH..] == EncodeFooter(t.metaindex.handle, t.index.handle)
    && t.metaindex.layout.es == MetaEntries(t.filter)
    && (t.filter.Some? ==>
          policy != null && FilterAt(file, policy, t.filter.value)
          && FilterCovers(t.entries, t.starts, t.parts, t.filter.value.groups))
  }

  function MetaEntries(filter: Option<FilterPart>): seq<KeyValue> {
    if filter.Some? then [KeyValue(FilterKey(), EncodeHandle(filter.value.handle))] else []
  }

  // ---------------------------------------------------------------- finding an entry through the index

  lemma {:induction false} StartsIncrease(entries: seq<KeyValue>, starts: seq<nat>, parts: seq<Part>, a: nat, b: nat)
    requires |starts| == |parts| + 1 && a < b <= |parts|
    requires forall i :: 0 <= i < |parts| ==> PartHolds(entries, starts, parts, i)
    ensures starts[a] < starts[b]
    decreases b
  {
    assert PartHolds(entries, starts, parts, b - 1);
    if a < b - 1 { StartsIncrease(entries, starts, parts, a, b - 1); }
  }

  /** Separator i is at or past every entry of part i and before every entry behind it. */
  lemma SeparatorSeparates(entries: seq<KeyValue>, starts: seq<nat>, parts: seq<Part>, index: seq<KeyValue>, i: nat, j: nat)
    requires InOrder(entries) && IndexEntry(entries, starts, parts, index, i) && j < |entries|
    ensures j < starts[i + 1] ==> InternalKeys.Compare(entries[j].key, index[i].key) <= 0
    ensures j >= starts[i + 1] ==> InternalKeys.Compare(index[i].key, entries[j].key) < 0
  {
    hide InternalKeys.Compare, Bytewise.Compare;
    var end := starts[i + 1];
    var last, key := entries[end - 1].key, index[i].key;
    if j < end - 1 { assert InternalKeys.Compare(entries[j].key, last) < 0; }
    if key == last {
      SelfCompare(last);
    } else if end < |entries| {
      InternalKeys.CutSeparates(last, key, entries[end].key);
      InternalKeys.CompareOrders(entries[j].key, last, key);
      InternalKeys.CompareOrders(key, entries[end].key, entries[j].key);
    } else {
      UserOrderDecides(last, key);
      InternalKeys.CompareOrders(entries[j].key, last, key);
    }
  }

  lemma SelfCompare(k: seq<Byte>)
    ensures InternalKeys.Compare(k, k) == 0
  {
    Bytewise.RankKeepsOrder(InternalKeys.UserKey(k), InternalKeys.UserKey(k));
  }

  lemma UserOrderDecides(a: seq<Byte>, b: seq<Byte>)
    requires Bytewise.Compare(InternalKeys.UserKey(a), InternalKeys.UserKey(b)) < 0
    ensures InternalKeys.Compare(a, b) < 0
  {
  }

  lemma IndexIncreases(t: TableShape)
    requires InOrder(t.entries) && |t.starts| == |t.parts| + 1 && |t.index.layout.es| == |t.parts|
    requires forall i :: 0 <= i < |t.parts| ==> IndexEntry(t.entries, t.starts, t.parts, t.index.layout.es, i)
    ensures Increasing(InternalKeys.Compare, t.index.layout.es)
  {
    hide InternalKeys.Compare, InternalKeys.CutsBetween;
    var index := t.index.layout.es;
    forall i | 0 <= i < |t.parts| ensures PartHolds(t.entries, t.starts, t.parts, i) {
      assert IndexEntry(t.entries, t.starts, t.parts, index, i);
    }
    forall a, b | 0 <= a < b < |index| ensures InternalKeys.Compare(index[a].key, index[b].key) < 0 {
      assert IndexEntry(t.entries, t.starts, t.parts, index, b);
      var j := t.starts[b + 1] - 1;
      StartsIncrease(t.entries, t.starts, t.parts, a + 1, b + 1);
      SeparatorSeparates(t.entries, t.starts, t.parts, index, a, j);
      SeparatorSeparates(t.entries, t.starts, t.parts, index, b, j);
      InternalKeys.CompareOrders(index[a].key, t.entries[j].key, index[b].key);
    }
  }

  /** A search in the index leads to the one part that can hold the first entry at or past the target:
      that entry is in the part, or it is the next entry and then has another user key. */
  lemma IndexSearch(t: TableShape, target: seq<Byte>, b: nat, p: nat)
    requires InOrder(t.entries) && |t.starts| == |t.parts| + 1 && |t.index.layout.es| == |t.parts|
    requires t.starts[0] == 0 && t.starts[|t.parts|] == |t.entries|
    requires forall i :: 0 <= i < |t.parts| ==> IndexEntry(t.entries, t.starts, t.parts, t.index.layout.es, i)
    requires IsSeekPosition(InternalKeys.Compare, t.index.layout.es, target, b)
    requires IsSeekPosition(InternalKeys.Compare, t.entries, target, p)
    ensures b == |t.parts| ==> p == |t.entries|
    ensures b < |t.parts| ==> t.starts[b] <= p <= t.starts[b + 1]
    ensures b < |t.parts| && p == t.starts[b + 1] && p < |t.entries| ==>
              InternalKeys.UserKey(t.entries[p].key) != InternalKeys.UserKey(target)
  {
    hide InternalKeys.Compare, InternalKeys.CutsBetween;
    var index := t.index.layout.es;
    if b > 0 {
      BeforeSeparator(t, target, b - 1, p);
    }
    if b < |t.parts| {
      AtSeparator(t, target, b, p);
    }
  }

  lemma BeforeSeparator(t: TableShape, target: seq<Byte>, i: nat, p: nat)
    requires InOrder(t.entries) && IndexEntry(t.entries, t.starts, t.parts, t.index.layout.es, i)
    requires InternalKeys.Compare(t.index.layout.es[i].key, target) < 0
    requires IsSeekPosition(InternalKeys.Compare, t.entries, target, p)
    ensures p >= t.starts[i + 1]
  {
    hide InternalKeys.Compare, InternalKeys.CutsBetween;
    if p < t.starts[i + 1] {
      SeparatorSeparates(t.entries, t.starts, t.parts, t.index.layout.es, i, p);
      InternalKeys.CompareOrders(t.entries[p].key, t.index.layout.es[i].key, target);
    }
  }

  lemma AtSeparator(t: TableShape, target: seq<Byte>, i: nat, p: nat)
    requires InOrder(t.entries) && IndexEntry(t.entries, t.starts, t.parts, t.index.layout.es, i)
    requires InternalKeys.Compare(t.index.layout.es[i].key, target) >= 0
    requires IsSeekPosition(InternalKeys.Compare, t.entries, target, p)
    ensures p <= t.starts[i + 1]
    ensures p == t.starts[i + 1] && p < |t.entries| ==>
              InternalKeys.UserKey(t.entries[p].key) != InternalKeys.UserKey(target)
  {
    hide InternalKeys.Compare, InternalKeys.UserKey, Bytewise.Compare;
    var end, key := t.starts[i + 1], t.index.layout.es[i].key;
    InternalKeys.CompareOrders(target, key, target);
    InternalKeys.CompareOrders(key, target, key);
    if p > end {
      SeparatorSeparates(t.entries, t.starts, t.parts, t.index.layout.es, i, end);
      InternalKeys.CompareOrders(key, t.entries[end].key, target);
    } else if p == end && p < |t.entries| {
      if key != t.entries[end - 1].key {
        InternalKeys.CutSeparates(t.entries[end - 1].key, key, t.entries[end].key);
        SelfCompare(t.entries[end].key);
      }
    }
  }
}
