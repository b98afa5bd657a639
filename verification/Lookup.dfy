/** Point lookup in a version: FindFile and Version::Get (db/version_set.cc) over the table lookup
    of Table::InternalGet and its SaveValue callback. */
module Lookup {
  import opened Keys
  import opened Reads
  import opened Versions

  ghost predicate LargestAscending(files: seq<File>) {
    forall i, j :: 0 <= i < j < |files| ==> Less(files[i].largest, files[j].largest)
  }

  /** The first file whose largest key is at or past `key`. */
  method FindFile(files: seq<File>, key: IKey) returns (right: nat)
    requires LargestAscending(files)
    ensures right <= |files|
    ensures forall i :: 0 <= i < right ==> Less(files[i].largest, key)
    ensures forall i :: right <= i < |files| ==> !Less(files[i].largest, key)
  {
    var left := 0;
    right := |files|;
    while left < right
      invariant left <= right <= |files|
      invariant forall i :: 0 <= i < left ==> Less(files[i].largest, key)
      invariant forall i :: right <= i < |files| ==> !Less(files[i].largest, key)
    {
      var mid := (left + right) / 2;
      if Compare(files[mid].largest, key) < 0 {
        left := mid + 1;
      } else {
        right := mid;
      }
    }
  }

  lemma DisjointAscends(files: seq<File>)
    requires AllWellFormed(files) && Disjoint(files)
    ensures LargestAscending(files)
  {
    forall i, j | 0 <= i < j < |files| ensures Less(files[i].largest, files[j].largest) {
      EndsAreEntries(files[j]);
    }
  }

  datatype SaverState = NotFound | Found(value: Bytes) | Deleted

  function StateOf(e: Entry): SaverState {
    if e.key.typ.TypeValue? then Found(e.value) else Deleted
  }

  /** Seek the table to the first entry at or past the lookup key and keep it if it has the
      wanted user key. */
  function TableGet(f: File, k: UserKey, s: nat): SaverState {
    var i := LowerBound(f.entries, LookupKey(k, s));
    if i < |f.entries| && f.entries[i].key.ukey == k then StateOf(f.entries[i]) else NotFound
  }

  /** One seek answers for the whole file. */
  lemma TableGetIsExact(f: File, k: UserKey, s: nat)
    requires WellFormed(f)
    ensures TableGet(f, k, s) == NotFound ==> NothingVisible(FileEntries(f), k, s)
    ensures TableGet(f, k, s) != NotFound ==>
              exists e :: IsNewest(FileEntries(f), k, s, e) && TableGet(f, k, s) == StateOf(e)
  {
    var i := LowerBound(f.entries, LookupKey(k, s));
    forall o | o in f.entries && Visible(o, k, s)
      ensures i < |f.entries| && f.entries[i].key.ukey == k && o.key.seqno <= f.entries[i].key.seqno
    {
      var j :| 0 <= j < |f.entries| && f.entries[j] == o;
      VisibleIffNotBefore(o.key, k, s);
      LowerBoundSplits(f.entries, LookupKey(k, s), j);
    }
    if TableGet(f, k, s) != NotFound {
      VisibleIffNotBefore(f.entries[i].key, k, s);
      assert IsNewest(FileEntries(f), k, s, f.entries[i]);
    }
  }

  ghost predicate CoversKey(f: File, k: UserKey) {
    f.smallest.ukey <= k <= f.largest.ukey
  }

  lemma VisibleIsCovered(f: File, k: UserKey, s: nat)
    requires WellFormed(f) && !NothingVisible(FileEntries(f), k, s)
    ensures CoversKey(f, k)
  {
    var e :| e in FileEntries(f) && Visible(e, k, s);
    EntryWithinFile(f, e);
  }

  /** In a level above 0 only the file that FindFile returns can hold the newest visible entry. */
  lemma FoundFileDecides(files: seq<File>, r: nat, k: UserKey, s: nat)
    requires AllWellFormed(files) && Disjoint(files) && r <= |files|
    requires forall i :: 0 <= i < r ==> Less(files[i].largest, LookupKey(k, s))
    requires forall i :: r <= i < |files| ==> !Less(files[i].largest, LookupKey(k, s))
    ensures r == |files| || files[r].smallest.ukey > k ==> NothingVisible(LevelEntries(files), k, s)
    ensures r < |files| && NothingVisible(FileEntries(files[r]), k, s) ==>
              NothingVisible(LevelEntries(files), k, s)
    ensures r < |files| ==> forall e :: IsNewest(FileEntries(files[r]), k, s, e) ==>
              IsNewest(LevelEntries(files), k, s, e)
  {
    forall o | o in LevelEntries(files) && Visible(o, k, s)
      ensures r < |files| && files[r].smallest.ukey <= k
      ensures exists e :: e in files[r].entries && Visible(e, k, s) && o.key.seqno <= e.key.seqno
    {
      var f :| f in files && o in f.entries;
      var j :| 0 <= j < |files| && files[j] == f;
      EntryWithinFile(f, o);
      VisibleIffNotBefore(o.key, k, s);
      assert r <= j;
      if r < j {
        EndsAreEntries(files[r]);
        var last :| last in files[r].entries && last.key == files[r].largest;
        assert Visible(last, k, s) by { VisibleIffNotBefore(last.key, k, s); }
      }
    }
  }

  /** std::sort(NewestFirst): by decreasing file number. */
  function SortNewestFirst(fs: seq<File>): (r: seq<File>)
    ensures |r| == |fs|
    ensures forall g :: g in r <==> g in fs
    ensures forall i, j :: 0 <= i < j < |r| ==> r[i].number >= r[j].number
  {
    if fs == [] then [] else InsertNewestFirst(fs[0], SortNewestFirst(fs[1..]))
  }

  function InsertNewestFirst(f: File, fs: seq<File>): (r: seq<File>)
    requires forall i, j :: 0 <= i < j < |fs| ==> fs[i].number >= fs[j].number
    ensures |r| == |fs| + 1
    ensures forall g :: g in r <==> g == f || g in fs
    ensures forall i, j :: 0 <= i < j < |r| ==> r[i].number >= r[j].number
  {
    if fs == [] || f.number >= fs[0].number then [f] + fs
    else
      var rest := InsertNewestFirst(f, fs[1..]);
      assert forall g :: g in fs[1..] ==> fs[0].number >= g.number;
      assert forall g :: g in rest ==> fs[0].number >= g.number;
      [fs[0]] + rest
  }

  /** Version::Get: level 0 newest file first, then one binary-searched file per level, stopping at
      the first entry found. */
  method Get(v: Version, k: UserKey, s: nat) returns (value: Option<Bytes>)
    requires Versions.Valid(v)
    ensures value == Read(VersionEntries(v), k, s)
  {
    hide LevelEntries, NewerThan;
    var level := 0;
    while level < NUM_LEVELS
      invariant 0 <= level <= NUM_LEVELS
      invariant forall l :: 0 <= l < level ==> NothingVisible(LevelEntries(v[l]), k, s)
    {
      var st;
      if level == 0 {
        st := GetLevel0(v[0], k, s);
      } else {
        st := GetDeeper(v[level], k, s);
      }
      if st != NotFound {
        ghost var e :| IsNewest(LevelEntries(v[level]), k, s, e) && st == StateOf(e);
        NewestOfFirstLevel(v, level, k, s, e);
        return if st.Found? then Some(st.value) else None;
      }
      level := level + 1;
    }
    assert NothingVisible(VersionEntries(v), k, s);
    value := None;
  }

  /** A level above 0 in Version::Get: at most one file, found by binary search. */
  method GetDeeper(files: seq<File>, k: UserKey, s: nat) returns (st: SaverState)
    requires AllWellFormed(files) && Disjoint(files)
    ensures st == NotFound ==> NothingVisible(LevelEntries(files), k, s)
    ensures st != NotFound ==> exists e :: IsNewest(LevelEntries(files), k, s, e) && st == StateOf(e)
  {
    DisjointAscends(files);
    var index := FindFile(files, LookupKey(k, s));
    FoundFileDecides(files, index, k, s);
    st := NotFound;
    if index < |files| && files[index].smallest.ukey <= k {
      st := TableGet(files[index], k, s);
      TableGetIsExact(files[index], k, s);
    }
  }

  /** The level-0 part of Version::Get: every overlapping file, in order from newest to oldest. */
  method GetLevel0(files: seq<File>, k: UserKey, s: nat) returns (st: SaverState)
    requires AllWellFormed(files) && DistinctNumbers(files) && NumbersOrderLevel0(files)
    ensures st == NotFound ==> NothingVisible(LevelEntries(files), k, s)
    ensures st != NotFound ==> exists e :: IsNewest(LevelEntries(files), k, s, e) && st == StateOf(e)
  {
    var tmp := [];
    for i := 0 to |files|
      invariant forall f :: f in tmp <==> f in files[..i] && CoversKey(f, k)
    {
      var f := files[i];
      if k >= f.smallest.ukey && k <= f.largest.ukey {
        tmp := tmp + [f];
      }
    }
    assert files[..|files|] == files;
    var sorted := SortNewestFirst(tmp);
    assert forall f :: f in sorted <==> f in files && CoversKey(f, k);
    for i := 0 to |sorted|
      invariant forall j :: 0 <= j < i ==> NothingVisible(FileEntries(sorted[j]), k, s)
    {
      assert sorted[i] in files;
      st := TableGet(sorted[i], k, s);
      TableGetIsExact(sorted[i], k, s);
      if st != NotFound {
        ghost var e :| IsNewest(FileEntries(sorted[i]), k, s, e) && st == StateOf(e);
        assert IsNewest(LevelEntries(files), k, s, e) by { NewestFileDecides(files, sorted, i, k, s, e); }
        return;
      }
    }
    NoFileNoEntry(files, sorted, k, s);
    st := NotFound;
  }

  lemma NoFileNoEntry(files: seq<File>, sorted: seq<File>, k: UserKey, s: nat)
    requires AllWellFormed(files)
    requires forall f :: f in sorted <==> f in files && CoversKey(f, k)
    requires forall j :: 0 <= j < |sorted| ==> NothingVisible(FileEntries(sorted[j]), k, s)
    ensures NothingVisible(LevelEntries(files), k, s)
  {
    forall o | o in LevelEntries(files) ensures !Visible(o, k, s) {
      var f :| f in files && o in f.entries;
      assert o in FileEntries(f);
      if Visible(o, k, s) {
        VisibleIsCovered(f, k, s);
      }
    }
  }

  lemma NewestFileDecides(files: seq<File>, sorted: seq<File>, i: nat, k: UserKey, s: nat, e: Entry)
    requires AllWellFormed(files) && DistinctNumbers(files) && NumbersOrderLevel0(files)
    requires forall f :: f in sorted <==> f in files && CoversKey(f, k)
    requires forall a, b :: 0 <= a < b < |sorted| ==> sorted[a].number >= sorted[b].number
    requires i < |sorted| && IsNewest(FileEntries(sorted[i]), k, s, e)
    requires forall j :: 0 <= j < i ==> NothingVisible(FileEntries(sorted[j]), k, s)
    ensures IsNewest(LevelEntries(files), k, s, e)
  {
    assert sorted[i] in files;
    forall o | o in LevelEntries(files) && Visible(o, k, s) ensures o.key.seqno <= e.key.seqno {
      var f :| f in files && o in f.entries;
      assert o in FileEntries(f);
      VisibleIsCovered(f, k, s);
      var j :| 0 <= j < |sorted| && sorted[j] == f;
      if f != sorted[i] {
        var x :| 0 <= x < |files| && files[x] == f;
        var y :| 0 <= y < |files| && files[y] == sorted[i];
        assert f.number != sorted[i].number;
        assert NewerThan(FileEntries(sorted[i]), FileEntries(f));
      }
    }
  }

  /** Entries never hop across levels, so the first level with a visible entry decides. */
  lemma NewestOfFirstLevel(v: Version, level: nat, k: UserKey, s: nat, e: Entry)
    requires Versions.Valid(v) && level < NUM_LEVELS
    requires forall l :: 0 <= l < level ==> NothingVisible(LevelEntries(v[l]), k, s)
    requires IsNewest(LevelEntries(v[level]), k, s, e)
    ensures Read(VersionEntries(v), k, s) == ValueOf(e)
  {
    forall o | o in VersionEntries(v) && Visible(o, k, s) ensures o.key.seqno <= e.key.seqno {
      var l :| 0 <= l < NUM_LEVELS && o in LevelEntries(v[l]);
      if l > level {
        assert NewerThan(LevelEntries(v[level]), LevelEntries(v[l]));
      }
    }
    ReadNewest(VersionEntries(v), k, s, e);
  }
}
