/** A flush in the middle of a compaction (DoCompactionWork in db/db_impl.cc looks for a full memtable
    before every entry).  Its level is picked from the version that the compaction started from, so it does
    not know the files that the compaction is writing. */
module MidCompaction {
  import opened Keys
  import opened Reads
  import opened Versions
  import opened VersionBuilder
  import opened CompactionInputs
  import opened CompactionMeaning
  import opened VersionSteps
  import InputSelection

  /** Version v is compacted; meanwhile f is flushed, which gives v1; then the compaction is installed. */
  ghost predicate Interleaved(v: Version, c: Compaction, outputs: seq<File>, level: nat, f: File, v1: Version, v2: Version) {
    && Versions.Valid(v) && GloballyDistinct(v) && WellChosen(v, c) && GoodOutputs(c, outputs)
    && WellFormed(f) && MayFlushTo(v, level, f) && Flushed(v, level, f, v1)
    && Rewritten(v1, c, outputs, v2)
  }

  /** The flushed table is newer than all tables, and the new files have numbers of their own. */
  ghost predicate IsNew(v: Version, outputs: seq<File>, f: File) {
    && NewerThan(FileEntries(f), VersionEntries(v)) && DistinctSeqnos(VersionEntries(v) + FileEntries(f))
    && NumbersBelow(v, f.number) && Injective(outputs)
    && (forall o :: o in outputs ==> o.number != f.number)
    && (forall l, g, o :: 0 <= l < NUM_LEVELS && g in v[l] && o in outputs ==> o.number != g.number)
  }

  /** A level without one of its files. */
  function Without(fs: seq<File>, f: File): (r: seq<File>)
    ensures forall g :: g in r <==> g in fs && g != f
  {
    if fs == [] then [] else
      var r := Without(fs[..|fs| - 1], f);
      assert fs == fs[..|fs| - 1] + [fs[|fs| - 1]];
      if fs[|fs| - 1] == f then r else r + [fs[|fs| - 1]]
  }

  lemma {:induction false} WithoutSorted(fs: seq<File>, f: File)
    requires SortedFiles(fs)
    ensures SortedFiles(Without(fs, f))
  {
    if fs != [] {
      var init, last := fs[..|fs| - 1], fs[|fs| - 1];
      WithoutSorted(init, f);
      forall i | 0 <= i < |Without(init, f)| ensures FileLess(Without(init, f)[i], last) {
        assert Without(init, f)[i] in init;
      }
    }
  }

  /** The version that the compaction would have installed without the flush. */
  lemma Alone(v: Version, c: Compaction, outputs: seq<File>, level: nat, f: File, v1: Version, v2: Version) returns (v': Version)
    requires Interleaved(v, c, outputs, level, f, v1, v2) && IsNew(v, outputs, f)
    ensures Rewritten(v, c, outputs, v') && Flushed(v', level, f, v2)
  {
    hide Versions.Valid, GloballyDistinct, WellChosen, GoodOutputs, WellFormed, MayFlushTo, NewerThan, DistinctSeqnos;
    v' := seq(NUM_LEVELS, l requires 0 <= l < NUM_LEVELS => Without(v2[l], f));
    forall l | 0 <= l < NUM_LEVELS ensures SortedFiles(v'[l]) { WithoutSorted(v2[l], f); }
    forall l | 0 <= l < NUM_LEVELS
      ensures RewrittenLevel(v[l], c, l, outputs, v'[l])
      ensures forall g :: g in v2[l] <==> g in v'[l] || (l == level && g == f)
    {
      assert RewrittenLevel(v1[l], c, l, outputs, v2[l]);
      FlushedIsNoInput(v, c, outputs, f, l);
    }
  }

  lemma FlushedIsNoInput(v: Version, c: Compaction, outputs: seq<File>, f: File, l: int)
    requires WellChosen(v, c) && IsNew(v, outputs, f)
    ensures Stays(c, l, f) && f !in outputs && (0 <= l < NUM_LEVELS ==> f !in v[l])
  {
    InputsAreInVersion(v, c);
  }

  lemma AloneNumbers(v: Version, c: Compaction, outputs: seq<File>, f: File, v': Version)
    requires GloballyDistinct(v) && WellChosen(v, c) && Rewritten(v, c, outputs, v') && IsNew(v, outputs, f)
    ensures GloballyDistinct(v')
    ensures forall l, g :: 0 <= l < NUM_LEVELS && g in v'[l] ==> g.number != f.number && (l == 0 ==> g.number < f.number)
  {
    assert c.level + 1 < NUM_LEVELS;
    hide Rewritten, NewerThan, DistinctSeqnos, WellChosen;
    forall a: nat, b: nat, g, h | a < NUM_LEVELS && b < NUM_LEVELS && g in v'[a] && h in v'[b] && g.number == h.number
      ensures a == b && g == h
    {
      Origin(v, c, outputs, v', a, g);
      Origin(v, c, outputs, v', b, h);
    }
    AloneNumbersBelow(v, c, outputs, f, v');
  }

  lemma AloneNumbersBelow(v: Version, c: Compaction, outputs: seq<File>, f: File, v': Version)
    requires Rewritten(v, c, outputs, v') && IsNew(v, outputs, f)
    ensures forall l, g :: 0 <= l < NUM_LEVELS && g in v'[l] ==> g.number != f.number && (l == 0 ==> g.number < f.number)
  {
    hide Rewritten, NewerThan, DistinctSeqnos;
    forall l: nat, g | l < NUM_LEVELS && g in v'[l] ensures g.number != f.number && (l == 0 ==> g.number < f.number) {
      Origin(v, c, outputs, v', l, g);
    }
  }

  lemma Origin(v: Version, c: Compaction, outputs: seq<File>, v': Version, l: nat, g: File)
    requires Rewritten(v, c, outputs, v') && l < NUM_LEVELS && g in v'[l]
    ensures g in v[l] || (l == c.level + 1 && g in outputs)
  {
    assert RewrittenLevel(v[l], c, l, outputs, v'[l]);
  }

  /** A newer table joins a level; it shares no user key with what is above. */
  ghost predicate Joins(v: Version, level: nat, f: File, v': Version) {
    && WellFormed(f) && level < NUM_LEVELS && Flushed(v, level, f, v')
    && NewerThan(FileEntries(f), VersionEntries(v)) && DistinctSeqnos(VersionEntries(v) + FileEntries(f))
    && (forall l, g :: 0 <= l < NUM_LEVELS && g in v[l] ==> g.number != f.number && (l == 0 ==> g.number < f.number))
    && (forall l, d, e :: 0 <= l < level && d in LevelEntries(v[l]) && e in FileEntries(f) ==> d.key.ukey != e.key.ukey)
  }

  /** Then all invariants hold again exactly if it meets no file of its level. */
  lemma JoinKeepsValid(v: Version, level: nat, f: File, v': Version)
    requires Versions.Valid(v) && Joins(v, level, f, v')
    ensures Versions.Valid(v') <==> (level > 0 ==> forall g :: g in v[level] ==> RangesApart(g, f))
  {
    assert level < NUM_LEVELS;
    JoinKeepsOrder(v, level, f, v');
    JoinKeepsNumbers(v, level, f, v');
    JoinKeepsSeqnos(v, level, f, v');
    JoinedLevels(v, level, f, v');
    hide Joins, DistinctSeqnos, Disjoint, LevelsOrdered, NumbersOrderLevel0, DistinctNumbers, AllWellFormed, VersionEntries, RangesApart;
  }

  lemma JoinKeepsSeqnos(v: Version, level: nat, f: File, v': Version)
    requires Joins(v, level, f, v')
    ensures DistinctSeqnos(VersionEntries(v'))
  {
    FlushedEntries(v, level, f, v');
  }

  lemma JoinedLevels(v: Version, level: nat, f: File, v': Version)
    requires ValidLevels(v) && Joins(v, level, f, v')
    ensures (forall l :: 0 < l < NUM_LEVELS ==> Disjoint(v'[l])) <==> (level > 0 ==> forall g :: g in v[level] ==> RangesApart(g, f))
  {
    hide Disjoint, RangesApart, WellFormed, NewerThan, DistinctSeqnos;
    if level > 0 {
      JoinIsApart(v[level], f, v'[level]);
    }
    forall l | 0 < l < NUM_LEVELS && l != level ensures Disjoint(v'[l]) { SameMembersDisjoint(v[l], v'[l]); }
  }

  lemma JoinIsApart(files: seq<File>, f: File, files': seq<File>)
    requires AllWellFormed(files) && Disjoint(files) && WellFormed(f) && f !in files
    requires SortedFiles(files') && forall g :: g in files' <==> g in files || g == f
    ensures Disjoint(files') <==> forall g :: g in files ==> RangesApart(g, f)
  {
    MembersWellFormed(files);
    MembersWellFormed(files');
    DisjointIsPairwiseApart(files);
    if Disjoint(files') {
      DisjointIsPairwiseApart(files');
    }
    if forall g :: g in files ==> RangesApart(g, f) {
      PairwiseApartIsDisjoint(files');
    }
  }

  lemma JoinKeepsOrder(v: Version, level: nat, f: File, v': Version)
    requires LevelsOrdered(v) && Joins(v, level, f, v')
    ensures LevelsOrdered(v')
  {
    FlushedEntries(v, level, f, v');
    forall a, b | 0 <= a < b < NUM_LEVELS ensures NewerThan(LevelEntries(v'[a]), LevelEntries(v'[b])) {
      LevelsAreInVersion(v, b);
      assert NewerThan(LevelEntries(v[a]), LevelEntries(v[b]));
    }
  }

  lemma JoinKeepsNumbers(v: Version, level: nat, f: File, v': Version)
    requires Versions.Valid(v) && Joins(v, level, f, v')
    ensures forall l :: 0 <= l < NUM_LEVELS ==> AllWellFormed(v'[l]) && DistinctNumbers(v'[l])
    ensures NumbersOrderLevel0(v'[0])
  {
    forall l | 0 <= l < NUM_LEVELS ensures AllWellFormed(v'[l]) && DistinctNumbers(v'[l]) {
      MembersWellFormed(v[l]);
      MembersWellFormed(v'[l]);
      DistinctIsInjective(v[l]);
      InjectiveIsDistinct(v'[l]);
    }
    forall g, h | g in v'[0] && h in v'[0] && g.number > h.number ensures NewerThan(FileEntries(g), FileEntries(h)) {
      if g == f { LevelsAreInVersion(v, 0); FileInLevel(v[0], h); }
    }
  }

  /** No file above the level of f, before or after the compaction, shares a user key with it. */
  lemma AloneSharesNoKey(v: Version, c: Compaction, outputs: seq<File>, level: nat, f: File, v': Version, l: nat, d: Entry, e: Entry)
    requires Versions.Valid(v) && WellChosen(v, c) && GoodOutputs(c, outputs) && Rewritten(v, c, outputs, v')
    requires WellFormed(f) && MayFlushTo(v, level, f) && l < level
    requires d in LevelEntries(v'[l]) && e in FileEntries(f)
    ensures d.key.ukey != e.key.ukey
  {
    RewrittenEntryWasThere(v, c, outputs, v', l, d);
    if d in LevelEntries(v[l]) {
      NoSharedKeyAbove(v[l], f, d, e);
    } else {
      InputsAreInVersion(v, c);
      NoSharedKeyAbove(v[c.level], f, d, e);
    }
  }

  /** After the interleaving, all invariants of a version hold if and only if the table was not flushed to
      the output level, or meets no output there.  What is stored is as it should be in any case. */
  lemma InstallAfterFlush(v: Version, c: Compaction, outputs: seq<File>, level: nat, f: File, v1: Version, v2: Version)
    requires Interleaved(v, c, outputs, level, f, v1, v2) && IsNew(v, outputs, f)
    ensures Versions.Valid(v2) <==> (level == c.level + 1 ==> forall o :: o in outputs ==> RangesApart(o, f))
    ensures VersionEntries(v2) == CompactionMeaning.After(v, c, LevelEntries(outputs)) + FileEntries(f)
  {
    hide Flushed, Rewritten, GoodOutputs, NewerThan, DistinctSeqnos, RangesApart, WellFormed, VersionEntries, MayFlushTo;
    var v' := Alone(v, c, outputs, level, f, v1, v2);
    AloneIsValid(v, c, outputs, f, v');
    AloneJoins(v, c, outputs, level, f, v1, v2, v');
    JoinKeepsValid(v', level, f, v2);
    FlushLevel(v, level, f);
    FlushedEntries(v', level, f, v2);
    if level > 0 {
      MeetsOnlyOutputs(v, c, outputs, level, f, v');
    }
  }

  lemma FlushLevel(v: Version, level: nat, f: File)
    requires MayFlushTo(v, level, f)
    ensures level < NUM_LEVELS
  {
  }

  lemma AloneIsValid(v: Version, c: Compaction, outputs: seq<File>, f: File, v': Version)
    requires Versions.Valid(v) && GloballyDistinct(v) && WellChosen(v, c) && GoodOutputs(c, outputs)
    requires Rewritten(v, c, outputs, v') && IsNew(v, outputs, f)
    ensures Versions.Valid(v') && VersionEntries(v') == CompactionMeaning.After(v, c, LevelEntries(outputs))
  {
    AloneNumbers(v, c, outputs, f, v');
    RewriteKeepsValid(v, c, outputs, v');
    RewrittenEntries(v, c, outputs, v');
  }

  lemma AloneJoins(v: Version, c: Compaction, outputs: seq<File>, level: nat, f: File, v1: Version, v2: Version, v': Version)
    requires Interleaved(v, c, outputs, level, f, v1, v2) && IsNew(v, outputs, f)
    requires Rewritten(v, c, outputs, v') && Flushed(v', level, f, v2)
    requires VersionEntries(v') == CompactionMeaning.After(v, c, LevelEntries(outputs))
    ensures Joins(v', level, f, v2)
  {
    hide Flushed, Rewritten, GoodOutputs, NewerThan, DistinctSeqnos, WellFormed, VersionEntries, Versions.Valid, IsNew, WellChosen;
    AloneEntries(v, c, outputs, f, v');
    AloneNumbers(v, c, outputs, f, v');
    hide MayFlushTo;
    FlushLevel(v, level, f);
    forall l, d, e | 0 <= l < level && d in LevelEntries(v'[l]) && e in FileEntries(f) ensures d.key.ukey != e.key.ukey {
      AloneSharesNoKey(v, c, outputs, level, f, v', l, d, e);
    }
  }

  lemma AloneEntries(v: Version, c: Compaction, outputs: seq<File>, f: File, v': Version)
    requires WellChosen(v, c) && GoodOutputs(c, outputs) && IsNew(v, outputs, f)
    requires VersionEntries(v') == CompactionMeaning.After(v, c, LevelEntries(outputs))
    ensures NewerThan(FileEntries(f), VersionEntries(v')) && DistinctSeqnos(VersionEntries(v') + FileEntries(f))
  {
    InputsAreInVersion(v, c);
    assert VersionEntries(v') <= VersionEntries(v);
  }

  /** Only outputs can be in the way of f: its level was picked with the other files in view. */
  lemma MeetsOnlyOutputs(v: Version, c: Compaction, outputs: seq<File>, level: nat, f: File, v': Version)
    requires WellChosen(v, c) && Rewritten(v, c, outputs, v') && 0 < level && MayFlushTo(v, level, f)
    ensures (forall g :: g in v'[level] ==> RangesApart(g, f)) <==> (level == c.level + 1 ==> forall o :: o in outputs ==> RangesApart(o, f))
  {
    assert RewrittenLevel(v[level], c, level, outputs, v'[level]);
    forall g | g in v[level] ensures RangesApart(g, f) {
      assert !InputSelection.Overlaps(g, Some(f.smallest.ukey), Some(f.largest.ukey));
    }
  }
}
