/** What a flush, a trivial move and a compaction install keep of a version's invariants
    (DBImpl::WriteLevel0Table, BackgroundCompaction and InstallCompactionResults in db/db_impl.cc). */
module VersionSteps {
  import opened Keys
  import opened Reads
  import opened Versions
  import opened VersionBuilder
  import opened CompactionInputs
  import opened CompactionMeaning
  import InputSelection

  /** A new table is put at a level. */
  ghost predicate Flushed(v: Version, level: nat, f: File, v': Version) {
    && SortedVersion(v')
    && forall l, g :: 0 <= l < NUM_LEVELS ==> (g in v'[l] <==> g in v[l] || (l == level && g == f))
  }

  /** Whether a compaction leaves a file of a level where it is. */
  ghost predicate Stays(c: Compaction, l: int, g: File) {
    !(l == c.level && g in c.inputs0) && !(l == c.level + 1 && g in c.inputs1)
  }

  ghost predicate RewrittenLevel(files: seq<File>, c: Compaction, l: int, outputs: seq<File>, files': seq<File>) {
    forall g {:trigger g in files'} :: g in files' <==> (g in files && Stays(c, l, g)) || (l == c.level + 1 && g in outputs)
  }

  /** The inputs of a compaction are replaced by its outputs; a trivial move is the case where the
      only output is the only input. */
  ghost predicate Rewritten(v: Version, c: Compaction, outputs: seq<File>, v': Version) {
    && SortedVersion(v')
    && forall l :: 0 <= l < NUM_LEVELS ==> RewrittenLevel(v[l], c, l, outputs, v'[l])
  }

  /** The internal-key ranges of two files do not meet. */
  predicate RangesApart(f: File, g: File) {
    Less(f.largest, g.smallest) || Less(g.largest, f.smallest)
  }

  ghost predicate PairwiseApart(fs: seq<File>) {
    forall f, g :: f in fs && g in fs && f != g ==> RangesApart(f, g)
  }

  lemma DisjointIsPairwiseApart(fs: seq<File>)
    requires Disjoint(fs)
    ensures PairwiseApart(fs)
  {
    forall f, g | f in fs && g in fs && f != g ensures RangesApart(f, g) {
      var i :| 0 <= i < |fs| && fs[i] == f;
      var j :| 0 <= j < |fs| && fs[j] == g;
      assert i < j || j < i;
    }
  }

  lemma PairwiseApartIsDisjoint(fs: seq<File>)
    requires PairwiseApart(fs) && SortedFiles(fs) && AllWellFormed(fs)
    ensures Disjoint(fs)
  {
    forall i, j | 0 <= i < j < |fs| ensures Less(fs[i].largest, fs[j].smallest) {
      assert fs[i] in fs && fs[j] in fs && FileLess(fs[i], fs[j]);
      EndsAreEntries(fs[i]);
      EndsAreEntries(fs[j]);
    }
  }

  lemma MembersWellFormed(fs: seq<File>)
    ensures AllWellFormed(fs) <==> forall f :: f in fs ==> WellFormed(f)
  {
  }

  ghost predicate Injective(fs: seq<File>) {
    forall f, g :: f in fs && g in fs && f.number == g.number ==> f == g
  }

  lemma InjectiveIsDistinct(fs: seq<File>)
    requires Injective(fs) && SortedFiles(fs)
    ensures DistinctNumbers(fs)
  {
    forall i, j | 0 <= i < j < |fs| ensures fs[i].number != fs[j].number {
      assert fs[i] in fs && fs[j] in fs && FileLess(fs[i], fs[j]);
    }
  }

  lemma DistinctIsInjective(fs: seq<File>)
    requires DistinctNumbers(fs)
    ensures Injective(fs)
  {
  }

  // ---------------------------------------------------------------- flush

  lemma FlushedEntries(v: Version, level: nat, f: File, v': Version)
    requires Flushed(v, level, f, v') && level < NUM_LEVELS
    ensures forall l :: 0 <= l < NUM_LEVELS ==>
              LevelEntries(v'[l]) == if l == level then LevelEntries(v[l]) + FileEntries(f) else LevelEntries(v[l])
    ensures VersionEntries(v') == VersionEntries(v) + FileEntries(f)
  {
    forall l | 0 <= l < NUM_LEVELS
      ensures LevelEntries(v'[l]) == if l == level then LevelEntries(v[l]) + FileEntries(f) else LevelEntries(v[l])
    {
      assert forall g :: g in v'[l] <==> g in v[l] || (l == level && g == f);
    }
    FlushedVersionEntries(v, level, f, v');
  }

  lemma FlushedVersionEntries(v: Version, level: nat, f: File, v': Version)
    requires level < NUM_LEVELS
    requires forall l :: 0 <= l < NUM_LEVELS ==>
               LevelEntries(v'[l]) == if l == level then LevelEntries(v[l]) + FileEntries(f) else LevelEntries(v[l])
    ensures VersionEntries(v') == VersionEntries(v) + FileEntries(f)
  {
    forall e | e in FileEntries(f) ensures e in VersionEntries(v') { assert e in LevelEntries(v'[level]); }
    forall e | e in VersionEntries(v) ensures e in VersionEntries(v') {
      var l :| 0 <= l < NUM_LEVELS && e in LevelEntries(v[l]);
      assert e in LevelEntries(v'[l]);
    }
  }

  /** What PickLevelForMemTableOutput promises about the level it returns. */
  ghost predicate MayFlushTo(v: Version, level: nat, f: File) {
    level < NUM_LEVELS &&
    (level > 0 ==> forall l :: 0 <= l <= level ==> !InputSelection.LevelMeets(v[l], f.smallest.ukey, f.largest.ukey))
  }

  lemma NoSharedKeyAbove(files: seq<File>, f: File, d: Entry, e: Entry)
    requires WellFormed(f) && AllWellFormed(files)
    requires !InputSelection.LevelMeets(files, f.smallest.ukey, f.largest.ukey)
    requires d in LevelEntries(files) && e in FileEntries(f)
    ensures d.key.ukey != e.key.ukey
  {
    var g :| g in files && d in g.entries;
    EntryWithinFile(g, d);
    EntryWithinFile(f, e);
    assert !InputSelection.Overlaps(g, Some(f.smallest.ukey), Some(f.largest.ukey));
  }

  lemma FlushKeepsLevelOrder(v: Version, level: nat, f: File, v': Version)
    requires Versions.Valid(v) && WellFormed(f) && MayFlushTo(v, level, f) && Flushed(v, level, f, v')
    requires NewerThan(FileEntries(f), VersionEntries(v))
    ensures LevelsOrdered(v')
  {
    FlushedEntries(v, level, f, v');
    forall a, b | 0 <= a < b < NUM_LEVELS ensures NewerThan(LevelEntries(v'[a]), LevelEntries(v'[b])) {
      forall x, y | x in LevelEntries(v'[a]) && y in LevelEntries(v'[b]) && x.key.ukey == y.key.ukey
        ensures x.key.seqno > y.key.seqno
      {
        if b == level && y in FileEntries(f) {
          NoSharedKeyAbove(v[a], f, x, y);
        } else if a == level && x in FileEntries(f) {
          LevelsAreInVersion(v, b);
        } else {
          assert NewerThan(LevelEntries(v[a]), LevelEntries(v[b]));
        }
      }
    }
  }

  lemma FlushKeepsDisjoint(files: seq<File>, f: File, files': seq<File>)
    requires AllWellFormed(files) && Disjoint(files) && WellFormed(f)
    requires !InputSelection.LevelMeets(files, f.smallest.ukey, f.largest.ukey)
    requires SortedFiles(files') && forall g :: g in files' <==> g in files || g == f
    ensures Disjoint(files')
  {
    MembersWellFormed(files');
    DisjointIsPairwiseApart(files);
    forall g | g in files ensures RangesApart(f, g) {
      assert !InputSelection.Overlaps(g, Some(f.smallest.ukey), Some(f.largest.ukey));
    }
    PairwiseApartIsDisjoint(files');
  }

  lemma SameMembersDisjoint(files: seq<File>, files': seq<File>)
    requires AllWellFormed(files) && Disjoint(files) && SortedFiles(files')
    requires forall g :: g in files' ==> g in files
    ensures AllWellFormed(files') && Disjoint(files')
  {
    MembersWellFormed(files');
    DisjointIsPairwiseApart(files);
    PairwiseApartIsDisjoint(files');
  }

  ghost predicate NumbersBelow(v: Version, next: nat) {
    forall l, f :: 0 <= l < NUM_LEVELS && f in v[l] ==> f.number < next
  }

  /** A flush to a level that the new table may go to keeps every invariant of a version. */
  lemma FlushKeepsValid(v: Version, level: nat, f: File, v': Version)
    requires Versions.Valid(v) && WellFormed(f) && MayFlushTo(v, level, f) && Flushed(v, level, f, v')
    requires NewerThan(FileEntries(f), VersionEntries(v)) && DistinctSeqnos(VersionEntries(v) + FileEntries(f))
    requires NumbersBelow(v, f.number)
    ensures Versions.Valid(v')
  {
    forall l | 0 <= l < NUM_LEVELS
      ensures AllWellFormed(v'[l]) && DistinctNumbers(v'[l])
      ensures l > 0 ==> Disjoint(v'[l])
    {
      MembersWellFormed(v[l]);
      MembersWellFormed(v'[l]);
      DistinctIsInjective(v[l]);
      InjectiveIsDistinct(v'[l]);
      if l > 0 {
        if l == level { FlushKeepsDisjoint(v[l], f, v'[l]); } else { SameMembersDisjoint(v[l], v'[l]); }
      }
    }
    forall g, h | g in v'[0] && h in v'[0] && g.number > h.number
      ensures NewerThan(FileEntries(g), FileEntries(h))
    {
      if g == f { LevelsAreInVersion(v, 0); FileInLevel(v[0], h); }
    }
    FlushKeepsLevelOrder(v, level, f, v');
    FlushedEntries(v, level, f, v');
  }

  lemma FileInLevel(files: seq<File>, f: File)
    requires f in files
    ensures FileEntries(f) <= LevelEntries(files)
  {
  }

  // ---------------------------------------------------------------- compaction and trivial move

  /** What is needed of the outputs: their entries come from the inputs and they do not overlap. */
  ghost predicate GoodOutputs(c: Compaction, outputs: seq<File>) {
    AllWellFormed(outputs) && PairwiseApart(outputs) && LevelEntries(outputs) <= InputEntries(c)
  }

  /** A file left at the output level lies entirely before or entirely after all inputs. */
  lemma UnselectedIsApart(v: Version, c: Compaction, h: File, o: File)
    requires ValidLevels(v) && WellChosen(v, c)
    requires h in v[c.level + 1] && h !in c.inputs1
    requires WellFormed(o) && FileEntries(o) <= InputEntries(c)
    ensures RangesApart(h, o)
  {
    var lo, hi := LowUser(c.inputs0), HighUser(c.inputs0);
    InputSelection.OverlappingMembers(v[c.level + 1], Some(lo), Some(hi));
    EndsAreEntries(o);
    var first :| first in o.entries && first.key == o.smallest;
    var last :| last in o.entries && last.key == o.largest;
    assert first in FileEntries(o) && last in FileEntries(o);
    if h.largest.ukey < lo {
      InputIsAfter(v, c, h, first);
    } else {
      assert h.smallest.ukey > hi;
      InputIsBefore(v, c, h, last);
    }
  }

  lemma InputIsAfter(v: Version, c: Compaction, h: File, e: Entry)
    requires ValidLevels(v) && WellChosen(v, c)
    requires h in v[c.level + 1] && h.largest.ukey < LowUser(c.inputs0)
    requires e in InputEntries(c)
    ensures Less(h.largest, e.key)
  {
    hide NewerThan;
    var lo := LowUser(c.inputs0);
    MembersWellFormed(v[c.level]);
    MembersWellFormed(v[c.level + 1]);
    if e in LevelEntries(c.inputs0) {
      var f :| f in c.inputs0 && e in f.entries;
      InputSelection.RangeCoversFiles(c.inputs0);
      EntryWithinFile(f, e);
    } else {
      var g :| g in c.inputs1 && e in g.entries;
      InputSelection.OverlappingMembers(v[c.level + 1], Some(lo), Some(HighUser(c.inputs0)));
      DisjointIsPairwiseApart(v[c.level + 1]);
      assert g != h && RangesApart(g, h);
      EntryWithinFile(g, e);
      EndsAreEntries(h);
    }
  }

  lemma InputIsBefore(v: Version, c: Compaction, h: File, e: Entry)
    requires ValidLevels(v) && WellChosen(v, c)
    requires h in v[c.level + 1] && h.smallest.ukey > HighUser(c.inputs0)
    requires e in InputEntries(c)
    ensures Less(e.key, h.smallest)
  {
    var hi := HighUser(c.inputs0);
    MembersWellFormed(v[c.level]);
    MembersWellFormed(v[c.level + 1]);
    if e in LevelEntries(c.inputs0) {
      var f :| f in c.inputs0 && e in f.entries;
      InputSelection.RangeCoversFiles(c.inputs0);
      EntryWithinFile(f, e);
    } else {
      var g :| g in c.inputs1 && e in g.entries;
      InputSelection.OverlappingMembers(v[c.level + 1], Some(LowUser(c.inputs0)), Some(hi));
      DisjointIsPairwiseApart(v[c.level + 1]);
      assert g != h && RangesApart(g, h);
      EntryWithinFile(g, e);
      EndsAreEntries(h);
    }
  }

  lemma RewriteKeepsDisjoint(v: Version, c: Compaction, outputs: seq<File>, v': Version, l: nat)
    requires ValidLevels(v) && WellChosen(v, c) && GoodOutputs(c, outputs) && Rewritten(v, c, outputs, v')
    requires l < NUM_LEVELS
    ensures AllWellFormed(v'[l])
    ensures l > 0 ==> Disjoint(v'[l])
  {
    MembersWellFormed(v[l]);
    MembersWellFormed(v'[l]);
    MembersWellFormed(outputs);
    if l == c.level + 1 {
      DisjointIsPairwiseApart(v[l]);
      forall f, g | f in v'[l] && g in v'[l] && f != g ensures RangesApart(f, g) {
        if f in outputs && g !in outputs {
          FileInLevel(outputs, f);
          UnselectedIsApart(v, c, g, f);
        } else if g in outputs && f !in outputs {
          FileInLevel(outputs, g);
          UnselectedIsApart(v, c, f, g);
        }
      }
      PairwiseApartIsDisjoint(v'[l]);
    } else if l > 0 {
      forall g | g in v'[l] ensures g in v[l] {}
      SameMembersDisjoint(v[l], v'[l]);
    }
  }

  /** Where an entry of the rewritten version was before. */
  lemma RewrittenEntryWasThere(v: Version, c: Compaction, outputs: seq<File>, v': Version, l: nat, e: Entry)
    requires WellChosen(v, c) && GoodOutputs(c, outputs) && Rewritten(v, c, outputs, v')
    requires l < NUM_LEVELS && e in LevelEntries(v'[l])
    ensures l == c.level ==> exists f :: f in v[l] && f !in c.inputs0 && e in f.entries
    ensures e in LevelEntries(v[l]) || (l == c.level + 1 && e in LevelEntries(c.inputs0))
  {
    InputsAreInVersion(v, c);
    var f :| f in v'[l] && e in f.entries;
    if f in outputs && l == c.level + 1 {
      assert e in LevelEntries(outputs);
    }
  }

  lemma RewriteKeepsLevelOrder(v: Version, c: Compaction, outputs: seq<File>, v': Version)
    requires LevelsOrdered(v) && WellChosen(v, c) && GoodOutputs(c, outputs) && Rewritten(v, c, outputs, v')
    ensures LevelsOrdered(v')
  {
    forall a, b | 0 <= a < b < NUM_LEVELS ensures NewerThan(LevelEntries(v'[a]), LevelEntries(v'[b])) {
      forall x, y | x in LevelEntries(v'[a]) && y in LevelEntries(v'[b]) && x.key.ukey == y.key.ukey
        ensures x.key.seqno > y.key.seqno
      {
        RewrittenEntryWasThere(v, c, outputs, v', a, x);
        RewrittenEntryWasThere(v, c, outputs, v', b, y);
        RewrittenOrder(v, c, a, b, x, y);
      }
    }
  }

  lemma RewrittenOrder(v: Version, c: Compaction, a: nat, b: nat, x: Entry, y: Entry)
    requires LevelsOrdered(v) && WellChosen(v, c) && a < b < NUM_LEVELS && x.key.ukey == y.key.ukey
    requires a == c.level ==> exists f :: f in v[a] && f !in c.inputs0 && x in f.entries
    requires x in LevelEntries(v[a]) || (a == c.level + 1 && x in LevelEntries(c.inputs0))
    requires y in LevelEntries(v[b]) || (b == c.level + 1 && y in LevelEntries(c.inputs0))
    ensures x.key.seqno > y.key.seqno
  {
    InputsAreInVersion(v, c);
    var a' := if x in LevelEntries(v[a]) then a else c.level;
    var b' := if y in LevelEntries(v[b]) then b else c.level;
    if x.key.seqno <= y.key.seqno {
      OlderIsNotAbove(v, b', y, a', x);
      assert a == c.level && b == c.level + 1;
      var f :| f in v[a] && f !in c.inputs0 && x in f.entries;
      var g :| g in c.inputs0 && y in g.entries;
      OlderIsSelectedFile(v[c.level], c.inputs0, f, g, x, y);
    }
  }

  lemma OlderIsSelectedFile(files: seq<File>, inputs: seq<File>, f: File, g: File, x: Entry, y: Entry)
    requires LeavesOnlyNewer(files, inputs) && f in files && f !in inputs && g in inputs
    requires x in f.entries && y in g.entries && x.key.ukey == y.key.ukey
    ensures x.key.seqno > y.key.seqno
  {
    assert x in FileEntries(f) && y in FileEntries(g);
  }

  ghost predicate GloballyDistinct(v: Version) {
    forall a, b, f, g :: 0 <= a < NUM_LEVELS && 0 <= b < NUM_LEVELS && f in v[a] && g in v[b] && f.number == g.number ==>
      a == b && f == g
  }

  /** The entries of a rewritten version. */
  lemma RewrittenEntries(v: Version, c: Compaction, outputs: seq<File>, v': Version)
    requires ValidLevels(v) && LevelsOrdered(v) && NumbersOrderLevel0(v[0]) && DistinctNumbers(v[0])
    requires WellChosen(v, c) && GoodOutputs(c, outputs) && Rewritten(v, c, outputs, v')
    ensures VersionEntries(v') == After(v, c, LevelEntries(outputs))
  {
    forall e ensures e in VersionEntries(v') <==> e in After(v, c, LevelEntries(outputs)) {
      if e in VersionEntries(v') {
        var l :| 0 <= l < NUM_LEVELS && e in LevelEntries(v'[l]);
        RewrittenEntryIsAfter(v, c, outputs, v', l, e);
      }
      if e in LevelEntries(outputs) {
        assert forall f :: f in outputs ==> f in v'[c.level + 1];
        assert e in LevelEntries(v'[c.level + 1]);
      } else if e in After(v, c, LevelEntries(outputs)) {
        AfterEntryIsRewritten(v, c, outputs, v', e);
      }
    }
  }

  lemma RewrittenEntryIsAfter(v: Version, c: Compaction, outputs: seq<File>, v': Version, l: nat, e: Entry)
    requires ValidLevels(v) && LevelsOrdered(v) && NumbersOrderLevel0(v[0]) && DistinctNumbers(v[0])
    requires WellChosen(v, c) && Rewritten(v, c, outputs, v')
    requires l < NUM_LEVELS && e in LevelEntries(v'[l])
    ensures e in After(v, c, LevelEntries(outputs))
  {
    var f :| f in v'[l] && e in f.entries;
    if l == c.level + 1 && f in outputs {
      assert e in LevelEntries(outputs);
    } else {
      UnselectedNotInput(v, c, l, f, e);
    }
  }

  lemma AfterEntryIsRewritten(v: Version, c: Compaction, outputs: seq<File>, v': Version, e: Entry)
    requires WellChosen(v, c) && Rewritten(v, c, outputs, v')
    requires e in VersionEntries(v) && e !in InputEntries(c)
    ensures e in VersionEntries(v')
  {
    var l :| 0 <= l < NUM_LEVELS && e in LevelEntries(v[l]);
    var f :| f in v[l] && e in f.entries;
    assert f in c.inputs0 ==> e in LevelEntries(c.inputs0);
    assert f in c.inputs1 ==> e in LevelEntries(c.inputs1);
    assert f in v'[l] && e in LevelEntries(v'[l]);
  }

  /** An entry of a file that is not an input is not an entry of any input. */
  lemma UnselectedNotInput(v: Version, c: Compaction, l: nat, f: File, e: Entry)
    requires ValidLevels(v) && LevelsOrdered(v) && NumbersOrderLevel0(v[0]) && DistinctNumbers(v[0]) && WellChosen(v, c)
    requires l < NUM_LEVELS && f in v[l] && e in f.entries
    requires !(l == c.level && f in c.inputs0) && !(l == c.level + 1 && f in c.inputs1)
    ensures e in VersionEntries(v) && e !in InputEntries(c)
  {
    InputsAreInVersion(v, c);
    LevelsAreInVersion(v, l);
    assert e in LevelEntries(v[l]);
    if e in InputEntries(c) {
      var il := if e in LevelEntries(c.inputs0) then c.level else c.level + 1;
      var inputs := if e in LevelEntries(c.inputs0) then c.inputs0 else c.inputs1;
      OlderIsNotAbove(v, il, e, l, e);
      OlderIsNotAbove(v, l, e, il, e);
      var g :| g in inputs && e in g.entries;
      if l == 0 {
        SharedLevel0File(v[0], f, g, e);
      } else {
        EntryInOneFile(v[l], f, g, e);
      }
    }
  }

  lemma SharedLevel0File(files: seq<File>, f: File, g: File, e: Entry)
    requires NumbersOrderLevel0(files) && DistinctNumbers(files)
    requires f in files && g in files && e in f.entries && e in g.entries
    ensures f == g
  {
    DistinctIsInjective(files);
    assert e in FileEntries(f) && e in FileEntries(g);
    assert f.number > g.number ==> NewerThan(FileEntries(f), FileEntries(g));
    assert g.number > f.number ==> NewerThan(FileEntries(g), FileEntries(f));
  }

  /** Installing a compaction whose outputs are good keeps every invariant of a version. */
  lemma RewriteKeepsValid(v: Version, c: Compaction, outputs: seq<File>, v': Version)
    requires Versions.Valid(v) && WellChosen(v, c) && GoodOutputs(c, outputs) && Rewritten(v, c, outputs, v')
    requires GloballyDistinct(v')
    ensures Versions.Valid(v')
  {
    forall l | 0 <= l < NUM_LEVELS
      ensures AllWellFormed(v'[l]) && DistinctNumbers(v'[l])
      ensures l > 0 ==> Disjoint(v'[l])
    {
      RewriteKeepsDisjoint(v, c, outputs, v', l);
      InjectiveIsDistinct(v'[l]);
    }
    RewriteKeepsLevel0(v, c, outputs, v');
    RewriteKeepsLevelOrder(v, c, outputs, v');
    RewriteAddsNothing(v, c, outputs, v');
  }

  lemma RewriteKeepsLevel0(v: Version, c: Compaction, outputs: seq<File>, v': Version)
    requires NumbersOrderLevel0(v[0]) && Rewritten(v, c, outputs, v')
    ensures NumbersOrderLevel0(v'[0])
  {
    forall f | f in v'[0] ensures f in v[0] {}
  }

  lemma RewriteAddsNothing(v: Version, c: Compaction, outputs: seq<File>, v': Version)
    requires Versions.Valid(v) && WellChosen(v, c) && GoodOutputs(c, outputs) && Rewritten(v, c, outputs, v')
    ensures VersionEntries(v') <= VersionEntries(v)
    ensures DistinctSeqnos(VersionEntries(v'))
  {
    RewrittenEntries(v, c, outputs, v');
    InputsAreInVersion(v, c);
  }
}
