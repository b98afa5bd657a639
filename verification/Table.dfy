/** Table::Open, Table::InternalGet (table/table.cc) and the lookup of a user key through them
    (db/table_cache.cc), from the bytes of the file. */
module Tables {
  import opened Keys
  import opened Coding
  import opened Blocks
  import opened BlockIterator
  import opened Bloom
  import opened FilterBlocks
  import opened TableFormat
  import opened TableLayout
  import InternalKeys
  import Bytewise
  import Lookup
  import Reads
  import Versions

  /** Anything in a file of less than 2^32 bytes is found where its handle says. */
  lemma ReadPart(file: seq<Byte>, p: Part, rest: seq<Byte>, verifyChecksums: bool)
    requires |file| < 0x1_0000_0000 && PartAt(file, p)
    ensures DecodeHandle(EncodeHandle(p.handle) + rest) == Some((p.handle, |EncodeHandle(p.handle)|))
    ensures ReadBlock(file, p.handle, verifyChecksums) == Some(p.contents)
    ensures IsBlock(p.contents, p.layout)
  {
    hide DecodeHandle, EncodeHandle, ReadBlock, BlockTrailer, HasBlockLayout;
    HandleRoundTrip(p.handle, rest);
    ReadStored(file, p.handle.offset, p.contents, verifyChecksums);
    assert p.handle == BlockHandle(p.handle.offset, |p.contents|);
  }

  lemma ReadFilterPart(file: seq<Byte>, policy: BloomFilterPolicy, f: FilterPart, verifyChecksums: bool)
    requires |file| < 0x1_0000_0000 && FilterAt(file, policy, f)
    ensures DecodeHandle(EncodeHandle(f.handle)) == Some((f.handle, |EncodeHandle(f.handle)|))
    ensures ReadBlock(file, f.handle, verifyChecksums) == Some(Contents(f.data, f.offsets))
    ensures |Contents(f.data, f.offsets)| < 0x1_0000_0000
  {
    hide DecodeHandle, EncodeHandle, ReadBlock, BlockTrailer, Contents, Filters;
    HandleRoundTrip(f.handle, []);
    assert EncodeHandle(f.handle) + [] == EncodeHandle(f.handle);
    ReadStored(file, f.handle.offset, Contents(f.data, f.offsets), verifyChecksums);
    assert f.handle == BlockHandle(f.handle.offset, |Contents(f.data, f.offsets)|);
  }

  lemma BytewiseIsOrder()
    ensures IsOrder(Bytewise.Compare)
  {
    hide Bytewise.Compare;
    forall a, b, c | Bytewise.Compare(a, b) < 0 && Bytewise.Compare(b, c) < 0 ensures Bytewise.Compare(a, c) < 0 {
      Bytewise.CompareOrders(a, b, c);
    }
  }

  lemma {:induction false} SeekPositionExists(es: seq<KeyValue>, target: seq<Byte>) returns (p: nat)
    ensures IsSeekPosition(InternalKeys.Compare, es, target, p)
  {
    hide InternalKeys.Compare;
    if es == [] || InternalKeys.Compare(es[0].key, target) >= 0 {
      p := 0;
    } else {
      var q := SeekPositionExists(es[1..], target);
      p := q + 1;
    }
  }

  lemma SeekInPart(es: seq<KeyValue>, start: nat, end: nat, target: seq<Byte>, p: nat, q: nat)
    requires start <= p <= end <= |es|
    requires IsSeekPosition(InternalKeys.Compare, es, target, p)
    requires IsSeekPosition(InternalKeys.Compare, es[start..end], target, q)
    ensures p == start + q
  {
    hide InternalKeys.Compare;
    assert forall i :: start <= i < end ==> es[i] == es[start..end][i - start];
  }

  /** What Version::Get's callback SaveValue makes of the entry it is given. */
  datatype SaverState = NotFound | Found(value: seq<Byte>) | Deleted | Corrupt

  function SaveValue(kv: KeyValue, k: seq<Byte>): SaverState {
    if !InternalKeys.WellFormed(kv.key) then Corrupt
    else if InternalKeys.UserKey(kv.key) != k then NotFound
    else if InternalKeys.TagOf(kv.key) % 256 == 1 then Found(kv.value)
    else Deleted
  }

  ghost predicate AllWellFormed(es: seq<KeyValue>) {
    forall i :: 0 <= i < |es| ==> InternalKeys.WellFormed(es[i].key)
  }

  /** Entry i is for user key k and has a sequence number at or below s. */
  ghost predicate VisibleAt(es: seq<KeyValue>, k: seq<Byte>, s: nat, i: int) {
    0 <= i < |es| && InternalKeys.UserKey(es[i].key) == k && InternalKeys.TagOf(es[i].key) / 256 <= s
  }

  /** Of these, it has the largest. */
  ghost predicate NewestAt(es: seq<KeyValue>, k: seq<Byte>, s: nat, i: int) {
    && VisibleAt(es, k, s, i)
    && forall j :: VisibleAt(es, k, s, j) ==> InternalKeys.TagOf(es[j].key) / 256 <= InternalKeys.TagOf(es[i].key) / 256
  }

  ghost predicate Answers(es: seq<KeyValue>, k: seq<Byte>, s: nat, state: SaverState) {
    match state
    case NotFound => forall i :: !VisibleAt(es, k, s, i)
    case Found(value) => exists i :: NewestAt(es, k, s, i) && InternalKeys.TagOf(es[i].key) % 256 == 1 && es[i].value == value
    case Deleted => exists i :: NewestAt(es, k, s, i) && InternalKeys.TagOf(es[i].key) % 256 == 0
    case Corrupt => false
  }

  /** A seek to the lookup key of k and s stops at the newest visible entry of k, if there is one. */
  lemma SeekFindsNewest(es: seq<KeyValue>, k: seq<Byte>, s: nat, p: nat)
    requires InOrder(es) && AllWellFormed(es) && s <= MAX_SEQUENCE
    requires IsSeekPosition(InternalKeys.Compare, es, k + Fixed(PackSequenceAndType(s, TypeValue), 8), p)
    ensures p < |es| && InternalKeys.UserKey(es[p].key) == k ==> NewestAt(es, k, s, p)
    ensures (p < |es| ==> InternalKeys.UserKey(es[p].key) != k) ==> forall i :: !VisibleAt(es, k, s, i)
  {
    hide InternalKeys.Compare, InternalKeys.UserKey, InternalKeys.TagOf, Fixed, Bytewise.Compare;
    forall i | VisibleAt(es, k, s, i)
      ensures p <= i && InternalKeys.UserKey(es[p].key) == k
      ensures InternalKeys.TagOf(es[i].key) / 256 <= InternalKeys.TagOf(es[p].key) / 256
    {
      NotBefore(es[i].key, k, s);
      if p < i {
        assert InternalKeys.Compare(es[p].key, es[i].key) < 0;
        BetweenLookupAndEntry(es[p].key, es[i].key, k, s);
      }
    }
    if p < |es| && InternalKeys.UserKey(es[p].key) == k {
      NotBefore(es[p].key, k, s);
    }
  }

  /** The lookup key stands before exactly the entries of k that are visible. */
  lemma NotBefore(key: seq<Byte>, k: seq<Byte>, s: nat)
    requires InternalKeys.WellFormed(key) && InternalKeys.UserKey(key) == k && s <= MAX_SEQUENCE
    ensures InternalKeys.Compare(key, k + Fixed(PackSequenceAndType(s, TypeValue), 8)) >= 0 <==>
              InternalKeys.TagOf(key) / 256 <= s
  {
    hide InternalKeys.UserKey, InternalKeys.TagOf, Fixed, Bytewise.Compare;
    InternalKeys.EncodedParts(k, s, TypeValue);
    Bytewise.RankKeepsOrder(k, k);
  }

  /** What stands between the lookup key of k and an entry of k is an entry of k, and newer. */
  lemma BetweenLookupAndEntry(first: seq<Byte>, second: seq<Byte>, k: seq<Byte>, s: nat)
    requires InternalKeys.UserKey(second) == k && s <= MAX_SEQUENCE
    requires InternalKeys.Compare(first, k + Fixed(PackSequenceAndType(s, TypeValue), 8)) >= 0
    requires InternalKeys.Compare(first, second) < 0
    ensures InternalKeys.UserKey(first) == k && InternalKeys.TagOf(second) <= InternalKeys.TagOf(first)
  {
    hide InternalKeys.UserKey, InternalKeys.TagOf, Fixed, Bytewise.Compare;
    InternalKeys.EncodedParts(k, s, TypeValue);
    Bytewise.RankKeepsOrder(InternalKeys.UserKey(first), k);
  }

  function EntriesOf(es: seq<KeyValue>): (r: seq<Entry>)
    ensures |r| == |es| && forall i :: 0 <= i < |es| ==> r[i] == Entry(InternalKeys.KeyOf(es[i].key), es[i].value)
  {
    seq(|es|, i requires 0 <= i < |es| => Entry(InternalKeys.KeyOf(es[i].key), es[i].value))
  }

  /** Keys in order as bytes are in order as internal keys. */
  lemma EntriesSorted(es: seq<KeyValue>)
    requires InOrder(es) && AllWellFormed(es)
    ensures Sorted(EntriesOf(es))
  {
    hide InternalKeys.Compare, InternalKeys.KeyOf, InternalKeys.WellFormed, Less;
    forall i, j | 0 <= i < j < |es| ensures Less(EntriesOf(es)[i].key, EntriesOf(es)[j].key) {
      InternalKeys.WellFormedOrder(es[i].key, es[j].key);
    }
  }

  function StateOf(state: SaverState): Lookup.SaverState
    requires !state.Corrupt?
  {
    match state
    case NotFound => Lookup.NotFound
    case Found(value) => Lookup.Found(value)
    case Deleted => Lookup.Deleted
  }

  /** Entry i as the file has it. */
  lemma SameEntry(es: seq<KeyValue>, i: nat, k: seq<Byte>, s: nat)
    requires i < |es|
    ensures VisibleAt(es, k, s, i) <==> Reads.Visible(EntriesOf(es)[i], Bytewise.Rank(k), s)
    ensures EntriesOf(es)[i].key.seqno == InternalKeys.TagOf(es[i].key) / 256
  {
    hide InternalKeys.UserKey, InternalKeys.TagOf, Bytewise.Rank;
    Bytewise.RankKeepsOrder(InternalKeys.UserKey(es[i].key), k);
  }

  lemma NewestIsRead(es: seq<KeyValue>, f: Versions.File, k: seq<Byte>, s: nat, i: nat)
    requires i < |es| && NewestAt(es, k, s, i) && f.entries == EntriesOf(es)
    ensures Reads.IsNewest(Versions.FileEntries(f), Bytewise.Rank(k), s, EntriesOf(es)[i])
  {
    hide InternalKeys.UserKey, InternalKeys.TagOf, Bytewise.Rank, EntriesOf, VisibleAt, Reads.Visible;
    SameEntry(es, i, k, s);
    assert f.entries[i] in f.entries;
    forall o | o in f.entries && Reads.Visible(o, Bytewise.Rank(k), s) ensures o.key.seqno <= f.entries[i].key.seqno {
      var j :| 0 <= j < |f.entries| && f.entries[j] == o;
      SameEntry(es, j, k, s);
    }
  }

  /** The bytes of a table answer as the file does that version lookups are about. */
  lemma AnswersAsFile(es: seq<KeyValue>, f: Versions.File, k: seq<Byte>, s: nat, state: SaverState)
    requires es != [] && InOrder(es) && AllWellFormed(es) && Answers(es, k, s, state)
    requires f.entries == EntriesOf(es) && Reads.DistinctSeqnos(Versions.FileEntries(f))
    requires f.smallest == InternalKeys.KeyOf(es[0].key) && f.largest == InternalKeys.KeyOf(es[|es| - 1].key)
    ensures Lookup.TableGet(f, Bytewise.Rank(k), s) == StateOf(state)
  {
    hide InternalKeys.UserKey, InternalKeys.TagOf, Bytewise.Rank, Lookup.TableGet, EntriesOf;
    hide InternalKeys.WellFormed, InOrder, Sorted;
    var r := Bytewise.Rank(k);
    EntriesSorted(es);
    Lookup.TableGetIsExact(f, r, s);
    if state == NotFound {
      forall o | o in f.entries ensures !Reads.Visible(o, r, s) {
        var j :| 0 <= j < |f.entries| && f.entries[j] == o;
        SameEntry(es, j, k, s);
      }
    } else {
      var tagType := if state.Found? then 1 else 0;
      var i :| NewestAt(es, k, s, i) && InternalKeys.TagOf(es[i].key) % 256 == tagType && (state.Found? ==> es[i].value == state.value);
      NewestIsRead(es, f, k, s, i);
      assert Lookup.StateOf(f.entries[i]) == StateOf(state);
      forall e | Reads.IsNewest(Versions.FileEntries(f), r, s, e) ensures e == f.entries[i] {
      }
    }
  }

  class Table {
    const file: seq<Byte>
    const verifyChecksums: bool
    const indexContents: seq<Byte>
    const filter: FilterBlockReader?
    ghost const shape: TableShape
    ghost const policy: BloomFilterPolicy?  // the one the table was built with

    ghost predicate Ok()
      reads this, filter
    {
      && IsTable(file, policy, shape) && |file| < 0x1_0000_0000
      && indexContents == shape.index.contents
      && (filter != null ==> shape.filter.Some? && policy != null && filter.policy == policy
                             && filter.Describes(shape.filter.value.data, shape.filter.value.offsets)
                             && |filter.contents| < 0x1_0000_0000)
    }

    constructor (file: seq<Byte>, verifyChecksums: bool, indexContents: seq<Byte>, filter: FilterBlockReader?,
                 ghost policy: BloomFilterPolicy?, ghost shape: TableShape)
      ensures this.file == file && this.verifyChecksums == verifyChecksums && this.indexContents == indexContents
      ensures this.filter == filter && this.policy == policy && this.shape == shape
    {
      this.file := file;
      this.verifyChecksums := verifyChecksums;
      this.indexContents := indexContents;
      this.filter := filter;
      this.policy := policy;
      this.shape := shape;
    }

    /** Opening a table succeeds and finds its filter if a filter policy is given: the policy with the
        name that the filter was stored under, which is the one it was built with. */
    static method Open(file: seq<Byte>, readPolicy: BloomFilterPolicy?, verifyChecksums: bool,
                       ghost policy: BloomFilterPolicy?, ghost shape: TableShape) returns (table: Table?)
      requires IsTable(file, policy, shape) && |file| < 0x1_0000_0000
      requires readPolicy != null && shape.filter.Some? ==> readPolicy == policy
      ensures table != null && table.Ok() && table.shape == shape
      ensures table.filter != null <==> readPolicy != null && shape.filter.Some?
    {
      hide IsTable, FilterKey;
      FooterOfTable(file, policy, shape, verifyChecksums);
      if |file| < FOOTER_LENGTH {
        return null;
      }
      var handles := DecodeFooter(file[|file| - FOOTER_LENGTH..]);
      if handles.None? {
        return null;
      }
      var contents := ReadBlock(file, handles.value.1, verifyChecksums);
      if contents.None? {
        return null;
      }
      var filter: FilterBlockReader? := null;
      if readPolicy != null {
        filter := ReadMeta(file, readPolicy, verifyChecksums, handles.value.0, policy, shape);
      }
      table := new Table(file, verifyChecksums, contents.value, filter, policy, shape);
    }

    static method ReadMeta(file: seq<Byte>, readPolicy: BloomFilterPolicy, verifyChecksums: bool, handle: BlockHandle,
                           ghost policy: BloomFilterPolicy?, ghost shape: TableShape) returns (filter: FilterBlockReader?)
      requires IsTable(file, policy, shape) && |file| < 0x1_0000_0000 && handle == shape.metaindex.handle
      requires shape.filter.Some? ==> readPolicy == policy
      ensures filter != null <==> shape.filter.Some?
      ensures filter != null ==> fresh(filter) && filter.policy == readPolicy
      ensures filter != null ==> filter.Describes(shape.filter.value.data, shape.filter.value.offsets)
      ensures filter != null ==> |filter.contents| < 0x1_0000_0000
    {
      hide IsTable, FilterKey, Bytewise.Compare, DecodeHandle, EncodeHandle, Contents;
      MetaOfTable(file, policy, shape, verifyChecksums);
      filter := null;
      var contents := ReadBlock(file, handle, verifyChecksums);
      if contents.None? {
        return;
      }
      var value := FindMeta(contents.value, FilterKey(), shape.metaindex.layout);
      if value.Some? {
        var filterHandle := DecodeHandle(value.value);
        if filterHandle.Some? {
          var block := ReadBlock(file, filterHandle.value.0, verifyChecksums);
          if block.Some? {
            filter := new FilterBlockReader(readPolicy, block.value);
          }
        }
      }
    }

    /** The value that a metaindex block has for a key. */
    static method FindMeta(contents: seq<Byte>, key: seq<Byte>, ghost layout: Layout) returns (value: Option<seq<Byte>>)
      requires IsBlock(contents, layout) && |layout.es| <= 1
      ensures value == if |layout.es| == 1 && layout.es[0].key == key then Some(layout.es[0].value) else None
    {
      hide Bytewise.Compare, IsBlock;
      BytewiseIsOrder();
      var iter := new BlockIter(Bytewise.Compare, contents, layout);
      ghost var pos := iter.Seek(key);
      iter.ValidIsPosition(pos);
      Bytewise.RankKeepsOrder(key, key);
      value := None;
      if iter.Valid() && iter.key == key {
        value := Some(iter.data[iter.valueStart..iter.valueStart + iter.valueLength]);
      }
    }

    /** Deliver the first entry of the right block at or past the target. */
    method InternalGet(target: seq<Byte>) returns (delivered: Option<KeyValue>, ghost p: nat)
      requires Ok()
      ensures IsSeekPosition(InternalKeys.Compare, shape.entries, target, p)
      ensures delivered.Some? ==> p < |shape.entries| && delivered.value == shape.entries[p]
      // No key is lost, filter or not.
      ensures p < |shape.entries| && InternalKeys.UserKey(shape.entries[p].key) == InternalKeys.UserKey(target) ==>
                delivered == Some(shape.entries[p])
    {
      hide IsTable, InternalKeys.Compare, InternalKeys.UserKey;
      p := SeekPositionExists(shape.entries, target);
      ghost var t := shape;
      IndexOfTable(file, policy, shape);
      InternalKeys.CompareIsOrder();
      var iiter := new BlockIter(InternalKeys.Compare, indexContents, shape.index.layout);
      ghost var b := iiter.Seek(target);
      iiter.ValidIsPosition(b);
      IndexFinds(file, policy, shape, target, b, p);
      delivered := None;
      if iiter.Valid() {
        var handleValue := iiter.data[iiter.valueStart..iiter.valueStart + iiter.valueLength];
        delivered := GetInBlock(handleValue, target, b, p);
      }
    }

    /** TableCache::Get with SaveValue, at the lookup key of a user key and a sequence number: the newest
        visible entry of that user key decides. */
    method Get(k: seq<Byte>, s: nat) returns (state: SaverState)
      requires Ok() && s <= MAX_SEQUENCE
      ensures AllWellFormed(shape.entries) ==> Answers(shape.entries, k, s, state)
    {
      hide IsTable, InternalKeys.Compare, InternalKeys.UserKey, InternalKeys.TagOf, Fixed, InOrder;
      var delivered, p := InternalGet(k + Fixed(PackSequenceAndType(s, TYPE_FOR_SEEK), 8));
      state := if delivered.Some? then SaveValue(delivered.value, k) else NotFound;
      if AllWellFormed(shape.entries) {
        PartsOfTable(file, policy, shape);
        SeekFindsNewest(shape.entries, k, s, p);
        InternalKeys.EncodedParts(k, s, TypeValue);
      }
    }

    /** Ask the filter, then search the block. */
    method GetInBlock(handleValue: seq<Byte>, target: seq<Byte>, ghost b: nat, ghost p: nat)
      returns (delivered: Option<KeyValue>)
      requires Ok() && b < |shape.parts| && |shape.starts| == |shape.parts| + 1
      requires handleValue == EncodeHandle(shape.parts[b].handle)
      requires IsSeekPosition(InternalKeys.Compare, shape.entries, target, p)
      requires shape.starts[b] <= p <= shape.starts[b + 1] <= |shape.entries|
      ensures delivered.Some? ==> p < |shape.entries| && delivered.value == shape.entries[p]
      ensures p < shape.starts[b + 1] && InternalKeys.UserKey(shape.entries[p].key) == InternalKeys.UserKey(target) ==>
                delivered == Some(shape.entries[p])
    {
      hide IsTable, InternalKeys.Compare, InternalKeys.UserKey, DecodeHandle, EncodeHandle, Filters;
      PartOfTable(file, policy, shape, b, verifyChecksums);
      delivered := None;
      var handle := DecodeHandle(handleValue);
      var mayMatch := true;
      if filter != null && handle.Some? {
        ghost var f := shape.filter.value;
        FilterOfTable(file, policy, shape);
        mayMatch := filter.KeyMayMatch(handle.value.0.offset, InternalKeys.UserKey(target), f.data, f.offsets, f.groups);
        assert p < shape.starts[b + 1] ==> InFilter(f.groups, handle.value.0.offset, InternalKeys.UserKey(shape.entries[p].key));
      }
      if mayMatch && handle.Some? {
        var contents := ReadBlock(file, handle.value.0, verifyChecksums);
        if contents.Some? {
          delivered := SeekBlock(contents.value, target, b, p);
        }
      }
    }

    method SeekBlock(contents: seq<Byte>, target: seq<Byte>, ghost b: nat, ghost p: nat) returns (delivered: Option<KeyValue>)
      requires |shape.starts| == |shape.parts| + 1 && PartHolds(shape.entries, shape.starts, shape.parts, b)
      requires InOrder(shape.entries) && contents == shape.parts[b].contents && IsBlock(contents, shape.parts[b].layout)
      requires IsSeekPosition(InternalKeys.Compare, shape.entries, target, p)
      requires shape.starts[b] <= p <= shape.starts[b + 1]
      ensures delivered == if p < shape.starts[b + 1] then Some(shape.entries[p]) else None
    {
      hide InternalKeys.Compare, IsBlock;
      InternalKeys.CompareIsOrder();
      var iter := new BlockIter(InternalKeys.Compare, contents, shape.parts[b].layout);
      ghost var q := iter.Seek(target);
      iter.ValidIsPosition(q);
      SeekInPart(shape.entries, shape.starts[b], shape.starts[b + 1], target, p, q);
      delivered := None;
      if iter.Valid() {
        delivered := Some(KeyValue(iter.key, iter.data[iter.valueStart..iter.valueStart + iter.valueLength]));
      }
    }
  }

  // ---------------------------------------------------------------- what IsTable says about each piece

  lemma FooterOfTable(file: seq<Byte>, policy: BloomFilterPolicy?, t: TableShape, verifyChecksums: bool)
    requires IsTable(file, policy, t) && |file| < 0x1_0000_0000
    ensures |file| >= FOOTER_LENGTH
    ensures DecodeFooter(file[|file| - FOOTER_LENGTH..]) == Some((t.metaindex.handle, t.index.handle))
    ensures ReadBlock(file, t.index.handle, verifyChecksums) == Some(t.index.contents)
  {
    hide InOrder, PartsHold, IndexEntry, DecodeFooter, EncodeFooter, ReadBlock, BlockTrailer, HasBlockLayout;
    FooterRoundTrip(t.metaindex.handle, t.index.handle);
    ReadPart(file, t.index, [], verifyChecksums);
  }

  lemma MetaOfTable(file: seq<Byte>, policy: BloomFilterPolicy?, t: TableShape, verifyChecksums: bool)
    requires IsTable(file, policy, t) && |file| < 0x1_0000_0000
    ensures ReadBlock(file, t.metaindex.handle, verifyChecksums) == Some(t.metaindex.contents)
    ensures IsBlock(t.metaindex.contents, t.metaindex.layout)
    ensures t.metaindex.layout.es == MetaEntries(t.filter)
    ensures t.filter.Some? ==>
              var f := t.filter.value;
              DecodeHandle(EncodeHandle(f.handle)) == Some((f.handle, |EncodeHandle(f.handle)|))
              && ReadBlock(file, f.handle, verifyChecksums) == Some(Contents(f.data, f.offsets))
              && |Contents(f.data, f.offsets)| < 0x1_0000_0000
  {
    hide InOrder, PartsHold, IndexEntry, EncodeFooter, ReadBlock, BlockTrailer, HasBlockLayout, DecodeHandle, Contents;
    ReadPart(file, t.metaindex, [], verifyChecksums);
    if t.filter.Some? {
      ReadFilterPart(file, policy, t.filter.value, verifyChecksums);
    }
  }

  lemma IndexOfTable(file: seq<Byte>, policy: BloomFilterPolicy?, t: TableShape)
    requires IsTable(file, policy, t) && |file| < 0x1_0000_0000
    ensures IsBlock(t.index.contents, t.index.layout) && Increasing(InternalKeys.Compare, t.index.layout.es)
  {
    hide InOrder, PartsHold, IndexEntry, EncodeFooter, BlockTrailer, HasBlockLayout, InternalKeys.Compare, Increasing;
    hide EncodeHandle, DecodeHandle, ReadBlock;
    ReadPart(file, t.index, [], false);
    PartsOfTable(file, policy, t);
    PartsCount(file, t.entries, t.starts, t.parts);
    IndexIncreases(t);
  }

  lemma PartsOfTable(file: seq<Byte>, policy: BloomFilterPolicy?, t: TableShape)
    requires IsTable(file, policy, t)
    ensures InOrder(t.entries) && PartsHold(file, t.entries, t.starts, t.parts)
    ensures t.starts[|t.parts|] == |t.entries| && |t.index.layout.es| == |t.parts|
  {
    hide InOrder, IndexEntry, EncodeFooter, PartAt, PartHolds;
  }

  lemma PartsCount(file: seq<Byte>, entries: seq<KeyValue>, starts: seq<nat>, parts: seq<Part>)
    requires PartsHold(file, entries, starts, parts)
    ensures |starts| == |parts| + 1 && starts[0] == 0
  {
  }

  lemma IndexFinds(file: seq<Byte>, policy: BloomFilterPolicy?, t: TableShape, target: seq<Byte>, b: nat, p: nat)
    requires IsTable(file, policy, t)
    requires IsSeekPosition(InternalKeys.Compare, t.index.layout.es, target, b)
    requires IsSeekPosition(InternalKeys.Compare, t.entries, target, p)
    ensures |t.index.layout.es| == |t.parts| && |t.starts| == |t.parts| + 1
    ensures b == |t.parts| ==> p == |t.entries|
    ensures b < |t.parts| ==>
              t.index.layout.es[b].value == EncodeHandle(t.parts[b].handle)
              && t.starts[b] <= p <= t.starts[b + 1] <= |t.entries|
    ensures b < |t.parts| && p == t.starts[b + 1] && p < |t.entries| ==>
              InternalKeys.UserKey(t.entries[p].key) != InternalKeys.UserKey(target)
  {
    hide InOrder, EncodeFooter, PartAt, InternalKeys.Compare, InternalKeys.UserKey;
    PartsOfTable(file, policy, t);
    IndexSearch(t, target, b, p);
    if b < |t.parts| {
      assert IndexEntry(t.entries, t.starts, t.parts, t.index.layout.es, b);
    }
  }

  lemma PartOfTable(file: seq<Byte>, policy: BloomFilterPolicy?, t: TableShape, b: nat, verifyChecksums: bool)
    requires IsTable(file, policy, t) && |file| < 0x1_0000_0000 && b < |t.parts|
    ensures InOrder(t.entries) && PartHolds(t.entries, t.starts, t.parts, b)
    ensures DecodeHandle(EncodeHandle(t.parts[b].handle)) == Some((t.parts[b].handle, |EncodeHandle(t.parts[b].handle)|))
    ensures ReadBlock(file, t.parts[b].handle, verifyChecksums) == Some(t.parts[b].contents)
    ensures IsBlock(t.parts[b].contents, t.parts[b].layout)
  {
    hide InOrder, IndexEntry, EncodeFooter, EncodeHandle, DecodeHandle, ReadBlock, BlockTrailer, HasBlockLayout;
    PartsOfTable(file, policy, t);
    ReadPart(file, t.parts[b], [], verifyChecksums);
    assert EncodeHandle(t.parts[b].handle) + [] == EncodeHandle(t.parts[b].handle);
  }

  lemma FilterOfTable(file: seq<Byte>, policy: BloomFilterPolicy?, t: TableShape)
    requires IsTable(file, policy, t) && t.filter.Some?
    ensures policy != null && |t.starts| == |t.parts| + 1
    ensures Filters(policy, t.filter.value.data, t.filter.value.offsets, t.filter.value.groups)
    ensures FilterCovers(t.entries, t.starts, t.parts, t.filter.value.groups)
  {
    hide InOrder, IndexEntry, EncodeFooter, PartAt, PartHolds;
  }
}
