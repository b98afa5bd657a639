/** A compaction rewrites entries; this module says when it changes what can be read. */
module CompactionMeaning {
  import opened Keys
  import opened Reads
  import opened Versions
  import opened CompactionInputs
  import opened CompactionWork
  import InputSelection

  ghost function InputEntries(c: Compaction): set<Entry> {
    LevelEntries(c.inputs0) + LevelEntries(c.inputs1)
  }

  /** The entries at the output level in files that were not selected. */
  ghost function LeftBehind(v: Version, c: Compaction): set<Entry>
    requires c.level + 1 < NUM_LEVELS
  {
    set f, e | f in v[c.level + 1] && f !in c.inputs1 && e in f.entries :: e
  }

  /** The iterator over all inputs yields each of their entries once, in key order. */
  ghost predicate IsMergedInput(c: Compaction, input: seq<Entry>) {
    Sorted(input) && forall e :: e in input <==> e in InputEntries(c)
  }

  /** The surviving entries of a compaction as a set. */
  ghost predicate KeptExactly(v: Version, c: Compaction, snapshot: nat, kept: set<Entry>) {
    && kept <= InputEntries(c)
    && forall e :: e in InputEntries(c) ==>
         (e in kept <==> !HiddenByInput(c, e, snapshot) && !Obsolete(v, c.level, e, snapshot))
  }

  ghost predicate HiddenByInput(c: Compaction, e: Entry, snapshot: nat) {
    exists n :: n in InputEntries(c) && n.key.ukey == e.key.ukey && e.key.seqno < n.key.seqno <= snapshot
  }

  lemma InputsAreInVersion(v: Version, c: Compaction)
    requires WellChosen(v, c)
    ensures forall f :: f in c.inputs1 ==> f in v[c.level + 1]
    ensures LevelEntries(c.inputs0) <= LevelEntries(v[c.level])
    ensures LevelEntries(c.inputs1) <= LevelEntries(v[c.level + 1])
    ensures InputEntries(c) <= VersionEntries(v)
  {
    InputSelection.OverlappingMembers(v[c.level + 1], Some(LowUser(c.inputs0)), Some(HighUser(c.inputs0)));
    LevelsAreInVersion(v, c.level);
    LevelsAreInVersion(v, c.level + 1);
  }

  lemma LevelsAreInVersion(v: Version, l: nat)
    requires l < NUM_LEVELS
    ensures LevelEntries(v[l]) <= VersionEntries(v)
  {
  }

  /** The loop keeps exactly the entries that no newer input entry hides at the snapshot and that
      are not obsolete deletion markers. */
  lemma LoopKeepsExactly(v: Version, c: Compaction, input: seq<Entry>, snapshot: nat, kept: set<Entry>)
    requires DistinctSeqnos(InputEntries(c)) && IsMergedInput(c, input)
    requires forall e :: e in kept <==> e in Kept(v, c.level, input, |input|, snapshot)
    ensures KeptExactly(v, c, snapshot, kept)
    // In full: dropped is what a newer input entry of the key hides, and what is a deletion marker at or
    // below the snapshot with no file around its key more than one level down.
    ensures forall e :: e in InputEntries(c) ==>
              (e !in kept <==>
                || (exists n :: n in InputEntries(c) && n.key.ukey == e.key.ukey && e.key.seqno < n.key.seqno <= snapshot)
                || (e.key.typ.TypeDeletion? && e.key.seqno <= snapshot
                    && forall l, f :: c.level + 2 <= l < 7 && f in v[l] ==> !(f.smallest.ukey <= e.key.ukey <= f.largest.ukey)))
  {
    ObsoleteMeans(v, c.level, snapshot);
    KeptMembers(v, c.level, input, |input|, snapshot);
    MergedSeqnosDescend(c, input);
    SortedInjective(input);
    forall e | e in InputEntries(c)
      ensures e in kept <==> !HiddenByInput(c, e, snapshot) && !Obsolete(v, c.level, e, snapshot)
    {
      assert e in input;
      var i :| 0 <= i < |input| && input[i] == e;
      HiddenMeansByInput(c, input, i, snapshot);
    }
  }

  lemma ObsoleteMeans(v: Version, level: nat, snapshot: nat)
    ensures forall e :: Obsolete(v, level, e, snapshot) <==>
              e.key.typ.TypeDeletion? && e.key.seqno <= snapshot
              && forall l, f :: level + 2 <= l < 7 && f in v[l] ==> !(f.smallest.ukey <= e.key.ukey <= f.largest.ukey)
  {
    forall k
      ensures IsBase(v, level, k) <==>
                forall l, f :: level + 2 <= l < 7 && f in v[l] ==> !(f.smallest.ukey <= k <= f.largest.ukey)
    {
    }
  }

  lemma MergedSeqnosDescend(c: Compaction, input: seq<Entry>)
    requires DistinctSeqnos(InputEntries(c)) && IsMergedInput(c, input)
    ensures SeqnosDescend(input)
  {
    forall a, b | 0 <= a < b < |input| && input[a].key.ukey == input[b].key.ukey
      ensures input[a].key.seqno > input[b].key.seqno
    {
      assert input[a] in input && input[b] in input;
      EarlierSameKeyIsNewer(input[a], input[b], InputEntries(c));
    }
  }

  lemma HiddenMeansByInput(c: Compaction, input: seq<Entry>, i: nat, snapshot: nat)
    requires IsMergedInput(c, input) && SeqnosDescend(input) && i < |input|
    ensures Hidden(input, i, snapshot) <==> HiddenByInput(c, input[i], snapshot)
  {
    HiddenMeans(input, i, snapshot);
    forall j | 0 <= j < |input| ensures input[j] in InputEntries(c) { assert input[j] in input; }
    forall n | n in InputEntries(c) ensures exists j :: 0 <= j < |input| && input[j] == n { assert n in input; }
  }

  lemma SortedInjective(input: seq<Entry>)
    requires Sorted(input)
    ensures forall i, j :: 0 <= i < |input| && 0 <= j < |input| && input[i] == input[j] ==> i == j
  {
    forall i, j | 0 <= i < j < |input| ensures input[i] != input[j] {}
  }

  // ---------------------------------------------------------------- the meaning

  /** What can be read after the compaction is read from here. */
  ghost function After(v: Version, c: Compaction, kept: set<Entry>): set<Entry> {
    VersionEntries(v) - InputEntries(c) + kept
  }

  /** The one way a compaction can bring a deleted value back.  The newest entry of k at the snapshot
      is a deletion marker that is dropped as obsolete, while a file of the output level that was not
      selected still holds an older value of k.  SetupOtherInputs looks for such boundary files only
      in the upper of the two levels. */
  ghost predicate Uncovers(v: Version, c: Compaction, snapshot: nat, k: UserKey)
    requires c.level + 1 < NUM_LEVELS
  {
    exists t ::
      && IsNewest(VersionEntries(v), k, snapshot, t)
      && t in InputEntries(c)
      && Obsolete(v, c.level, t, snapshot)
      && Read(LeftBehind(v, c), k, t.key.seqno).Some?
  }

  lemma OlderIsNotAbove(v: Version, tl: nat, t: Entry, l: nat, o: Entry)
    requires LevelsOrdered(v) && tl < NUM_LEVELS && l < NUM_LEVELS
    requires t in LevelEntries(v[tl]) && o in LevelEntries(v[l])
    requires o.key.ukey == t.key.ukey && o.key.seqno <= t.key.seqno
    ensures l >= tl
  {
  }

  lemma OlderIsSelected(files: seq<File>, inputs: seq<File>, t: Entry, o: Entry)
    requires LeavesOnlyNewer(files, inputs)
    requires t in LevelEntries(inputs) && o in LevelEntries(files)
    requires o.key.ukey == t.key.ukey && o.key.seqno <= t.key.seqno
    ensures o in LevelEntries(inputs)
  {
    var f :| f in inputs && t in f.entries;
    var g :| g in files && o in g.entries;
    assert t in FileEntries(f) && o in FileEntries(g);
    assert g !in inputs ==> NewerThan(FileEntries(g), FileEntries(f));
  }

  /** An entry older than a selected one, and not itself selected, is further down or left behind at
      the output level. */
  lemma OlderUnselected(v: Version, c: Compaction, t: Entry, o: Entry)
    requires LevelsOrdered(v) && WellChosen(v, c)
    requires t in InputEntries(c) && o in VersionEntries(v) && o !in InputEntries(c)
    requires o.key.ukey == t.key.ukey && o.key.seqno < t.key.seqno
    ensures o in LeftBehind(v, c) || exists l :: c.level + 2 <= l < NUM_LEVELS && o in LevelEntries(v[l])
  {
    InputsAreInVersion(v, c);
    var l :| 0 <= l < NUM_LEVELS && o in LevelEntries(v[l]);
    var tl := if t in LevelEntries(c.inputs0) then c.level else c.level + 1;
    OlderIsNotAbove(v, tl, t, l, o);
    if l == c.level {
      OlderIsSelected(v[c.level], c.inputs0, t, o);
    } else if l == c.level + 1 {
      var g :| g in v[l] && o in g.entries;
      assert g !in c.inputs1;
    }
  }

  lemma CoveredKeyIsNotBase(v: Version, level: nat, l: nat, o: Entry)
    requires ValidLevels(v) && level + 2 <= l < NUM_LEVELS && o in LevelEntries(v[l])
    ensures !IsBase(v, level, o.key.ukey)
  {
    var g :| g in v[l] && o in g.entries;
    var i :| 0 <= i < |v[l]| && v[l][i] == g;
    EntryWithinFile(g, o);
  }

  /** Once a newest-at-the-snapshot marker is dropped, what shows through is what was left behind. */
  lemma DroppedMarkerShows(v: Version, c: Compaction, snapshot: nat, kept: set<Entry>, s: nat, t: Entry)
    requires Versions.Valid(v) && WellChosen(v, c) && KeptExactly(v, c, snapshot, kept)
    requires snapshot <= s && t.key.seqno <= snapshot && t in InputEntries(c)
    requires IsNewest(VersionEntries(v), t.key.ukey, s, t)
    requires Obsolete(v, c.level, t, snapshot)
    ensures Read(After(v, c, kept), t.key.ukey, s) == Read(LeftBehind(v, c), t.key.ukey, t.key.seqno)
  {
    var k := t.key.ukey;
    forall o ensures (o in After(v, c, kept) && Visible(o, k, s)) <==> (o in LeftBehind(v, c) && Visible(o, k, t.key.seqno)) {
      if o in After(v, c, kept) && Visible(o, k, s) {
        SurvivorIsLeftBehind(v, c, snapshot, kept, s, t, o);
      }
      if o in LeftBehind(v, c) && Visible(o, k, t.key.seqno) {
        LeftBehindIsUnselected(v, c, o);
      }
    }
    InputsAreInVersion(v, c);
    LeftBehindIsInVersion(v, c);
    SameVisibleSameRead(After(v, c, kept), s, LeftBehind(v, c), t.key.seqno, k);
  }

  lemma SameVisibleSameRead(a: set<Entry>, s: nat, b: set<Entry>, s': nat, k: UserKey)
    requires DistinctSeqnos(a) && DistinctSeqnos(b)
    requires forall o :: (o in a && Visible(o, k, s)) <==> (o in b && Visible(o, k, s'))
    ensures Read(a, k, s) == Read(b, k, s')
  {
    if !NothingVisible(a, k, s) {
      var e := NewestExists(a, k, s);
      ReadNewest(a, k, s, e);
      ReadNewest(b, k, s', e);
    }
  }

  lemma SurvivorIsLeftBehind(v: Version, c: Compaction, snapshot: nat, kept: set<Entry>, s: nat, t: Entry, o: Entry)
    requires LevelsOrdered(v) && DistinctSeqnos(VersionEntries(v)) && ValidLevels(v)
    requires WellChosen(v, c) && KeptExactly(v, c, snapshot, kept)
    requires snapshot <= s && t.key.seqno <= snapshot && t in InputEntries(c)
    requires IsNewest(VersionEntries(v), t.key.ukey, s, t)
    requires Obsolete(v, c.level, t, snapshot)
    requires o in After(v, c, kept) && Visible(o, t.key.ukey, s)
    ensures o in LeftBehind(v, c) && o.key.seqno <= t.key.seqno
  {
    InputsAreInVersion(v, c);
    assert o in VersionEntries(v);
    assert o == t || o.key.seqno < t.key.seqno;
    assert o in InputEntries(c) && o != t ==> HiddenByInput(c, o, snapshot);
    if o !in InputEntries(c) {
      OlderUnselected(v, c, t, o);
      if o !in LeftBehind(v, c) {
        var l :| c.level + 2 <= l < NUM_LEVELS && o in LevelEntries(v[l]);
        CoveredKeyIsNotBase(v, c.level, l, o);
      }
    }
  }

  lemma LeftBehindIsInVersion(v: Version, c: Compaction)
    requires c.level + 1 < NUM_LEVELS
    ensures LeftBehind(v, c) <= LevelEntries(v[c.level + 1]) <= VersionEntries(v)
  {
    LevelsAreInVersion(v, c.level + 1);
  }

  /** An entry occurs in one file only, so one that was left behind is not also selected. */
  lemma LeftBehindIsUnselected(v: Version, c: Compaction, o: Entry)
    requires ValidLevels(v) && LevelsOrdered(v) && WellChosen(v, c)
    requires o in LeftBehind(v, c)
    ensures o in VersionEntries(v) && o !in InputEntries(c)
  {
    InputsAreInVersion(v, c);
    LeftBehindIsInVersion(v, c);
    if o in LevelEntries(c.inputs0) {
      OlderIsNotAbove(v, c.level + 1, o, c.level, o);
    }
    if o in LevelEntries(c.inputs1) {
      var g :| g in v[c.level + 1] && g !in c.inputs1 && o in g.entries;
      var f :| f in c.inputs1 && o in f.entries;
      EntryInOneFile(v[c.level + 1], f, g, o);
    }
  }

  lemma EntryInOneFile(files: seq<File>, f: File, g: File, e: Entry)
    requires AllWellFormed(files) && Disjoint(files)
    requires f in files && g in files && e in f.entries && e in g.entries
    ensures f == g
  {
    var i :| 0 <= i < |files| && files[i] == f;
    var j :| 0 <= j < |files| && files[j] == g;
    if i < j {
      EarlierFileEarlierEntries(files, i, j, e, e);
    } else if j < i {
      EarlierFileEarlierEntries(files, j, i, e, e);
    }
  }

  /** If the newest visible entry of a user key does not survive, it was an obsolete marker. */
  lemma DroppedNewestIsMarker(v: Version, c: Compaction, snapshot: nat, kept: set<Entry>, k: UserKey, s: nat, e: Entry)
    requires Versions.Valid(v) && WellChosen(v, c) && KeptExactly(v, c, snapshot, kept)
    requires snapshot <= s && IsNewest(VersionEntries(v), k, s, e) && e !in After(v, c, kept)
    ensures e in InputEntries(c) && Obsolete(v, c.level, e, snapshot)
    ensures IsNewest(VersionEntries(v), k, snapshot, e)
  {
    InputsAreInVersion(v, c);
    assert !HiddenByInput(c, e, snapshot);
  }

  /** An uncovered key was not there, and now it is. */
  lemma UncoveredIsRead(v: Version, c: Compaction, snapshot: nat, kept: set<Entry>, k: UserKey)
    requires Versions.Valid(v) && WellChosen(v, c) && KeptExactly(v, c, snapshot, kept)
    requires Uncovers(v, c, snapshot, k)
    ensures Read(VersionEntries(v), k, snapshot) == None && Read(After(v, c, kept), k, snapshot).Some?
  {
    var t :| IsNewest(VersionEntries(v), k, snapshot, t) && t in InputEntries(c) && Obsolete(v, c.level, t, snapshot)
      && Read(LeftBehind(v, c), k, t.key.seqno).Some?;
    DroppedMarkerShows(v, c, snapshot, kept, snapshot, t);
    ReadNewest(VersionEntries(v), k, snapshot, t);
  }

  /** Compaction preserves the read of k at every sequence number from the smallest snapshot on,
      exactly when it does not uncover k. */
  lemma CompactionPreservesReads(v: Version, c: Compaction, snapshot: nat, kept: set<Entry>, k: UserKey)
    requires Versions.Valid(v) && WellChosen(v, c) && KeptExactly(v, c, snapshot, kept)
    ensures (forall s :: snapshot <= s ==> Read(After(v, c, kept), k, s) == Read(VersionEntries(v), k, s))
              <==> !Uncovers(v, c, snapshot, k)
  {
    var before, after := VersionEntries(v), After(v, c, kept);
    InputsAreInVersion(v, c);
    assert after <= before;
    if Uncovers(v, c, snapshot, k) {
      UncoveredIsRead(v, c, snapshot, kept, k);
    } else {
      forall s | snapshot <= s ensures Read(after, k, s) == Read(before, k, s) {
        if !NothingVisible(before, k, s) {
          var e := NewestExists(before, k, s);
          ReadNewest(before, k, s, e);
          if e in after {
            ReadNewest(after, k, s, e);
          } else {
            DroppedNewestIsMarker(v, c, snapshot, kept, k, s, e);
            DroppedMarkerShows(v, c, snapshot, kept, s, e);
          }
        }
      }
    }
  }

  /** A guard that can be checked on user keys alone: no file left behind at the output level shares a
      user key with a selected file of that level. */
  ghost predicate OutputLevelClosed(v: Version, c: Compaction)
    requires c.level + 1 < NUM_LEVELS
  {
    forall a, b :: a in LeftBehind(v, c) && b in LevelEntries(c.inputs1) ==> a.key.ukey != b.key.ukey
  }

  lemma ClosedUncoversNothing(v: Version, c: Compaction, snapshot: nat, k: UserKey)
    requires Versions.Valid(v) && WellChosen(v, c) && OutputLevelClosed(v, c)
    ensures !Uncovers(v, c, snapshot, k)
  {
    forall t | IsNewest(VersionEntries(v), k, snapshot, t) && t in InputEntries(c)
      ensures Read(LeftBehind(v, c), k, t.key.seqno) == None
    {
      forall o | o in LeftBehind(v, c) ensures o.key.ukey != k {
        if o.key.ukey == k && t in LevelEntries(c.inputs0) {
          SharedKeyIsSelected(v, c, t, o);
        }
      }
    }
  }

  /** A file of the output level that shares a user key with the first input list is selected. */
  lemma SharedKeyIsSelected(v: Version, c: Compaction, t: Entry, o: Entry)
    requires ValidLevels(v) && WellChosen(v, c)
    requires t in LevelEntries(c.inputs0) && o.key.ukey == t.key.ukey
    ensures o !in LeftBehind(v, c)
  {
    var f :| f in c.inputs0 && t in f.entries;
    var i :| 0 <= i < |v[c.level]| && v[c.level][i] == f;
    EntryWithinFile(f, t);
    InputSelection.RangeCoversFiles(c.inputs0);
    var lo, hi := LowUser(c.inputs0), HighUser(c.inputs0);
    assert lo <= t.key.ukey <= hi;
    forall g | g in v[c.level + 1] && o in g.entries ensures g in c.inputs1 {
      SharedKeyOverlaps(v[c.level + 1], g, o, lo, hi);
    }
  }

  lemma SharedKeyOverlaps(files: seq<File>, g: File, o: Entry, lo: UserKey, hi: UserKey)
    requires AllWellFormed(files) && g in files && o in g.entries && lo <= o.key.ukey <= hi
    ensures g in InputSelection.Overlapping(files, Some(lo), Some(hi))
  {
    EntryWithinFile(g, o);
    InputSelection.OverlappingMembers(files, Some(lo), Some(hi));
  }
}
