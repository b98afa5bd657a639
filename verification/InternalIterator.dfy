/** The iterator over everything a database stores (NewInternalIterator in db/db_impl.cc, AddIterators in
    db/version_set.cc), and what a DBIter over it walks. */
module InternalIterators {
  import opened Keys
  import opened Reads
  import opened Versions
  import opened CompactionWork
  import opened MergedInput
  import opened Engine
  import DbIterator
  import MergedCursors

  /** The entries of the first n levels. */
  ghost function FirstLevels(v: Version, n: nat): set<Entry>
    requires n <= NUM_LEVELS
  {
    set l, e | 0 <= l < n && e in LevelEntries(v[l]) :: e
  }

  lemma JoinRuns(a: seq<seq<Entry>>, allA: set<Entry>, b: seq<seq<Entry>>, allB: set<Entry>)
    requires RunsOk(a, allA) && RunsOk(b, allB)
    requires forall x, y :: x in allA && y in allB ==> x.key != y.key
    ensures RunsOk(a + b, allA + allB)
  {
    var runs := a + b;
    forall e ensures e in allA + allB <==> exists i :: 0 <= i < |runs| && e in runs[i] {
      if e in allA {
        var i :| 0 <= i < |a| && e in a[i];
        assert e in runs[i];
      }
      if e in allB {
        var i :| 0 <= i < |b| && e in b[i];
        assert e in runs[|a| + i];
      }
      forall i | 0 <= i < |runs| && e in runs[i] ensures e in allA + allB {
        assert if i < |a| then e in a[i] else e in b[i - |a|];
      }
    }
    forall i, j, x: Entry, y: Entry | 0 <= i < j < |runs| && x in runs[i] && y in runs[j] ensures x.key != y.key {
      if i < |a| {
        assert x in a[i] && x in allA;
        if j >= |a| { assert y in b[j - |a|] && y in allB; }
      } else {
        assert x in b[i - |a|] && y in b[j - |a|];
      }
    }
  }

  /** Different layers share no internal key. */
  lemma NewerIsApart(newer: set<Entry>, older: set<Entry>)
    requires NewerThan(newer, older)
    ensures forall x, y :: x in newer && y in older ==> x.key != y.key
  {
  }

  /** The run of the next level, which shares no key with the levels above. */
  lemma NextLevel(v: Version, l: nat)
    requires Versions.Valid(v) && 0 < l < NUM_LEVELS
    ensures Sorted(Concat(v[l])) && Run(Concat(v[l])) == LevelEntries(v[l])
    ensures v[l] == [] ==> LevelEntries(v[l]) == {}
    ensures forall x, y :: x in FirstLevels(v, l) && y in Concat(v[l]) ==> x.key != y.key
    ensures FirstLevels(v, l + 1) == FirstLevels(v, l) + LevelEntries(v[l])
  {
    ConcatSorted(v[l]);
    assert NewerThan(FirstLevels(v, l), LevelEntries(v[l]));
  }

  lemma AllLevels(v: Version)
    ensures FirstLevels(v, NUM_LEVELS) == VersionEntries(v)
  {
  }

  /** One run for each memtable, each level-0 file and each other level. */
  method CollectRuns(mem: seq<Entry>, imm: Option<seq<Entry>>, v: Version) returns (runs: seq<seq<Entry>>)
    requires Versions.Valid(v) && Sorted(mem) && (imm.Some? ==> Sorted(imm.value))
    requires Layered(Run(mem), if imm.Some? then Run(imm.value) else {}, VersionEntries(v))
    ensures RunsOk(runs, Run(mem) + (if imm.Some? then Run(imm.value) else {}) + VersionEntries(v))
  {
    hide RunsOk;
    SingleRunOk(mem, Run(mem));
    runs := [mem];
    ghost var all := Run(mem);
    if imm.Some? {
      NewerIsApart(all, Run(imm.value));
      AppendRun(runs, all, imm.value);
      runs, all := runs + [imm.value], all + Run(imm.value);
    }
    var tables := TableRuns(v);
    NewerIsApart(all, VersionEntries(v));
    JoinRuns(runs, all, tables, VersionEntries(v));
    assert all == Run(mem) + if imm.Some? then Run(imm.value) else {};
    runs := runs + tables;
  }

  /** Version::AddIterators. */
  method TableRuns(v: Version) returns (runs: seq<seq<Entry>>)
    requires Versions.Valid(v)
    ensures RunsOk(runs, VersionEntries(v))
  {
    hide RunsOk, Versions.Valid, FirstLevels, LevelEntries, VersionEntries, Sorted, Concat;
    FilesOfLevel0(v);
    runs := FileRuns(v[0]);
    for l := 1 to NUM_LEVELS
      invariant RunsOk(runs, FirstLevels(v, l))
    {
      NextLevel(v, l);
      if v[l] != [] {
        AppendRun(runs, FirstLevels(v, l), Concat(v[l]));
        runs := runs + [Concat(v[l])];
      } else {
        assert FirstLevels(v, l + 1) == FirstLevels(v, l);
      }
    }
    AllLevels(v);
  }

  lemma FilesOfLevel0(v: Version)
    requires Versions.Valid(v)
    ensures RunsOk(FileRuns(v[0]), LevelEntries(v[0])) && LevelEntries(v[0]) == FirstLevels(v, 1)
  {
    LevelEntriesDistinct(v);
    FileRunsOk(v[0], v[0]);
  }

  lemma LevelEntriesDistinct(v: Version)
    requires DistinctSeqnos(VersionEntries(v))
    ensures DistinctKeys(LevelEntries(v[0]))
  {
    assert LevelEntries(v[0]) <= VersionEntries(v);
  }

  /** A merging iterator over everything that is stored. */
  method NewInternalIterator(mem: seq<Entry>, imm: Option<seq<Entry>>, v: Version, ghost d: Db, ghost h: set<Entry>)
    returns (iter: Merger.MergingIterator)
    requires Invariant(d, h) && d.mem == mem && d.imm == imm && d.version == v
    ensures fresh(iter) && (forall c :: c in iter.children ==> fresh(c)) && iter.Ok() && !iter.Valid()
    ensures Sorted(iter.merged) && Run(iter.merged) == Stored(d)
  {
    StoredIsApart(d, h);
    var runs := CollectRuns(mem, imm, v);
    ghost var merged := SortedUnion(Stored(d));
    var children := OpenRuns(runs);
    OpenedUnion(runs, Stored(d), merged, children);
    iter := new Merger.MergingIterator(children, merged);
  }

  lemma StoredIsApart(d: Db, h: set<Entry>)
    requires Invariant(d, h)
    ensures Versions.Valid(d.version) && Sorted(d.mem) && (d.imm.Some? ==> Sorted(d.imm.value))
    ensures Layered(Run(d.mem), if d.imm.Some? then Run(d.imm.value) else {}, VersionEntries(d.version))
    ensures Stored(d) == Run(d.mem) + (if d.imm.Some? then Run(d.imm.value) else {}) + VersionEntries(d.version)
    ensures DistinctKeys(Stored(d))
  {
    assert Run(ImmRun(d)) == if d.imm.Some? then Run(d.imm.value) else {};
    assert DistinctSeqnos(Stored(d));
  }

  /** A DBIter over a merging iterator. */
  method NewDbIterator(merging: Merger.MergingIterator, s: nat) returns (iter: DbIterator.DBIter)
    requires merging.Ok() && !merging.Valid() && Sorted(merging.merged)
    ensures fresh(iter) && fresh(iter.iter) && iter.iter.repr == MergedCursors.Footprint(merging)
    ensures iter.Ok() && !iter.valid && iter.sequence == s && iter.Es() == merging.merged
  {
    var cursor := new MergedCursors.MergedCursor(merging);
    hide MergedCursors.MergedCursor.Ok;
    iter := new DbIterator.DBIter(cursor, s);
  }

  /** The live user keys at s in ascending order, with the values that h has for them. */
  ghost predicate Walks(live: seq<Entry>, h: set<Entry>, s: nat) {
    && (forall i, j :: 0 <= i < j < |live| ==> live[i].key.ukey < live[j].key.ukey)
    && (forall k, v :: Read(h, k, s) == Some(v) <==> exists i :: 0 <= i < |live| && live[i].key.ukey == k && live[i].value == v)
  }

  /** A DBIter over what is stored, at a sequence number that a reader may use, walks the readable map
      of the history of all writes. */
  lemma IteratorWalksHistory(iter: DbIterator.DBIter, d: Db, h: set<Entry>)
    requires Invariant(d, h) && ReadsAgree(d, h) && SmallestSnapshot(d) <= iter.sequence
    requires Sorted(iter.Es()) && Run(iter.Es()) == Stored(d)
    ensures Walks(iter.Live(), h, iter.sequence)
  {
    hide Read, DbIterator.View, Invariant, ReadsAgree, Sorted;
    StoredDescends(d, h, iter.Es());
    DbIterator.ViewIsReadableMap(iter.Es(), iter.sequence);
    assert iter.Live() == DbIterator.View(iter.Es(), |iter.Es()|, iter.sequence);
    forall k ensures Read(Run(iter.Es()), k, iter.sequence) == Read(h, k, iter.sequence) {
      AgreesAt(d, h, k, iter.sequence);
    }
  }

  lemma StoredDescends(d: Db, h: set<Entry>, es: seq<Entry>)
    requires Invariant(d, h) && Sorted(es) && Run(es) == Stored(d)
    ensures SeqnosDescend(es)
  {
    assert DistinctSeqnos(Run(es));
    forall a, b | 0 <= a < b < |es| && es[a].key.ukey == es[b].key.ukey ensures es[a].key.seqno > es[b].key.seqno {
      assert es[a] in Run(es) && es[b] in Run(es);
      EarlierSameKeyIsNewer(es[a], es[b], Run(es));
    }
  }
}
