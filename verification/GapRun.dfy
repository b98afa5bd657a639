/** A run after which a flush in the middle of a compaction leaves two overlapping files at one level.

    Keys a and c are written and flushed twice, first to level 2, then to level 1, each time into a file
    of its own.  A compaction of both files of level 1 writes one file that reaches from a to c.  Meanwhile
    a key b between them is written and flushed.  No file meets b, so its table goes to level 2, and there
    it lies inside the range of the output. */
module GapRun {
  import opened Keys
  import opened Reads
  import opened Versions
  import opened VersionBuilder
  import opened CompactionInputs
  import opened CompactionWork
  import opened CompactionMeaning
  import opened VersionSteps
  import opened Engine
  import opened MidCompaction
  import opened InputSelection
  import Bytewise
  import Coding
  import Revival

  /** A key is written, the memtable becomes full, and its table is flushed. */
  lemma RoundIsRun(ds: seq<Db>, steps: seq<Step>, k: UserKey, value: Bytes, level: nat, size: nat, v': Version)
    returns (ds': seq<Db>, steps': seq<Step>)
    requires Engine.IsRun(ds, steps)
    requires var d := ds[|steps|];
             && d.mem == [] && d.imm == None && d.lastSequence + 1 < MAX_SEQUENCE
             && var f := NewFile(d.nextFileNumber + 1, size, [Entry(IKey(k, d.lastSequence + 1, TypeValue), value)]);
             && MayFlushTo(d.version, level, f) && Flushed(d.version, level, f, v')
    ensures Engine.IsRun(ds', steps')
    ensures var d := ds[|steps|];
            ds'[|steps'|] == Db([], None, v', d.snapshots, d.lastSequence + 1, d.nextFileNumber + 2)
  {
    var d := ds[|steps|];
    var e := Entry(IKey(k, d.lastSequence + 1, TypeValue), value);
    var batch := [Update(TypeValue, k, value)];
    assert BatchEntries(batch, d.lastSequence + 1) == [e];
    Revival.OneInserted([], e);
    var d1 := d.(mem := [e], lastSequence := d.lastSequence + 1);
    var d2 := d1.(mem := [], imm := Some([e]), nextFileNumber := d.nextFileNumber + 1);
    var d3 := d2.(imm := None, version := v', nextFileNumber := d.nextFileNumber + 2);
    assert WriteStep(d, batch, d1) && SwitchStep(d1, d2) && FlushStep(d2, level, size, d3);
    hide WriteStep, SwitchStep, FlushStep, MayFlushTo, Flushed;
    ds' := ds + [d1, d2, d3];
    steps' := steps + [Step.Write(batch), SwitchMemTable, Flush(level, size)];
    var n := |steps|;
    forall i | 0 <= i < n ensures TakeStep(ds'[i], steps'[i], ds'[i + 1]) { assert TakeStep(ds[i], steps[i], ds[i + 1]); }
    assert ds'[n] == d && ds'[n + 1] == d1 && ds'[n + 2] == d2 && ds'[n + 3] == d3;
  }

  /** The keys, and what the one-entry tables take on disk. */
  datatype Gap = Gap(a: seq<Coding.Byte>, b: seq<Coding.Byte>, c: seq<Coding.Byte>, value: Bytes, size: nat)

  ghost predicate IsGap(p: Gap) {
    Bytewise.Compare(p.a, p.b) < 0 && Bytewise.Compare(p.b, p.c) < 0
  }

  function EntryOf(p: Gap, key: seq<Coding.Byte>, seqno: nat): Entry {
    Entry(IKey(Bytewise.Rank(key), seqno, TypeValue), p.value)
  }

  function TableOf(p: Gap, key: seq<Coding.Byte>, seqno: nat, number: nat): File {
    NewFile(number, p.size, [EntryOf(p, key, seqno)])
  }

  function LowerA(p: Gap): File { TableOf(p, p.a, 1, 3) }
  function LowerC(p: Gap): File { TableOf(p, p.c, 2, 5) }
  function UpperA(p: Gap): File { TableOf(p, p.a, 3, 7) }
  function UpperC(p: Gap): File { TableOf(p, p.c, 4, 9) }
  function Output(p: Gap): File { NewFile(10, p.size, [EntryOf(p, p.a, 3), EntryOf(p, p.c, 4)]) }
  function Between(p: Gap): File { TableOf(p, p.b, 5, 12) }

  function Before(p: Gap): Version { Revival.Tables([UpperA(p), UpperC(p)], [LowerA(p), LowerC(p)]) }
  function During(p: Gap): Version { Revival.Tables([UpperA(p), UpperC(p)], [LowerA(p), Between(p), LowerC(p)]) }
  function AfterAll(p: Gap): Version { Revival.Tables([], [Output(p), Between(p)]) }

  function Both(p: Gap): Compaction {
    Compaction(1, [UpperA(p), UpperC(p)], [LowerA(p), LowerC(p)], [], UpperC(p).largest)
  }

  lemma KeysOrder(p: Gap)
    requires IsGap(p)
    ensures Bytewise.Rank(p.a) < Bytewise.Rank(p.b) < Bytewise.Rank(p.c)
  {
    Bytewise.RankKeepsOrder(p.a, p.b);
    Bytewise.RankKeepsOrder(p.b, p.c);
  }

  lemma OneFileMeets(f: File, lo: UserKey, hi: UserKey)
    ensures LevelMeets([f], lo, hi) <==> Overlaps(f, Some(lo), Some(hi))
  {
    assert [f][0] == f;
  }

  /** The run that leads to the compaction. */
  lemma RunBefore(p: Gap) returns (ds: seq<Db>, steps: seq<Step>)
    requires IsGap(p)
    ensures Engine.IsRun(ds, steps) && ds[|steps|] == Db([], None, Before(p), [], 4, 10)
  {
    KeysOrder(p);
    hide Engine.IsRun;
    EmptyIsRun();
    ds, steps := [EMPTY_DB], [];
    FirstFlushes(p);
    LastFlushes(p);
    ds, steps := RoundIsRun(ds, steps, Bytewise.Rank(p.a), p.value, 2, p.size, Revival.Tables([], [LowerA(p)]));
    ds, steps := RoundIsRun(ds, steps, Bytewise.Rank(p.c), p.value, 2, p.size, Revival.Tables([], [LowerA(p), LowerC(p)]));
    ds, steps := RoundIsRun(ds, steps, Bytewise.Rank(p.a), p.value, 1, p.size, Revival.Tables([UpperA(p)], [LowerA(p), LowerC(p)]));
    ds, steps := RoundIsRun(ds, steps, Bytewise.Rank(p.c), p.value, 1, p.size, Before(p));
  }

  lemma EmptyIsRun()
    ensures Engine.IsRun([EMPTY_DB], [])
  {
  }

  lemma FirstFlushes(p: Gap)
    requires IsGap(p)
    ensures Flushed(EMPTY_VERSION, 2, LowerA(p), Revival.Tables([], [LowerA(p)])) && MayFlushTo(EMPTY_VERSION, 2, LowerA(p))
    ensures Flushed(Revival.Tables([], [LowerA(p)]), 2, LowerC(p), Revival.Tables([], [LowerA(p), LowerC(p)]))
    ensures MayFlushTo(Revival.Tables([], [LowerA(p)]), 2, LowerC(p))
  {
    KeysOrder(p);
    OneFileMeets(LowerA(p), Bytewise.Rank(p.c), Bytewise.Rank(p.c));
  }

  lemma LastFlushes(p: Gap)
    requires IsGap(p)
    ensures Flushed(Revival.Tables([], [LowerA(p), LowerC(p)]), 1, UpperA(p), Revival.Tables([UpperA(p)], [LowerA(p), LowerC(p)]))
    ensures MayFlushTo(Revival.Tables([], [LowerA(p), LowerC(p)]), 1, UpperA(p))
    ensures Flushed(Revival.Tables([UpperA(p)], [LowerA(p), LowerC(p)]), 1, UpperC(p), Before(p))
    ensures MayFlushTo(Revival.Tables([UpperA(p)], [LowerA(p), LowerC(p)]), 1, UpperC(p))
  {
    KeysOrder(p);
    OneFileMeets(UpperA(p), Bytewise.Rank(p.c), Bytewise.Rank(p.c));
  }

  // ---------------------------------------------------------------- the compaction and the flush in it

  lemma BothIsChosen(p: Gap)
    requires IsGap(p)
    ensures WellChosen(Before(p), Both(p))
  {
    KeysOrder(p);
    var lo, hi := Some(Bytewise.Rank(p.a)), Some(Bytewise.Rank(p.c));
    Revival.OneFileOverlaps(LowerA(p), lo.value, hi.value);
    assert [LowerA(p), LowerC(p)][..1] == [LowerA(p)];
    assert Overlapping([LowerA(p), LowerC(p)], lo, hi) == [LowerA(p), LowerC(p)];
    assert [UpperA(p), UpperC(p)][..1] == [UpperA(p)];
    assert LargestKey([UpperA(p)]) == UpperA(p).largest && SmallestKey([UpperA(p)]) == UpperA(p).smallest;
    assert LowUser([UpperA(p), UpperC(p)]) == lo.value && HighUser([UpperA(p), UpperC(p)]) == hi.value;
  }

  function Merged(p: Gap): seq<Entry> {
    [EntryOf(p, p.a, 3), EntryOf(p, p.a, 1), EntryOf(p, p.c, 4), EntryOf(p, p.c, 2)]
  }

  lemma TwoFilesEntries(f: File, g: File)
    ensures LevelEntries([f, g]) == FileEntries(f) + FileEntries(g)
  {
    assert f in [f, g] && g in [f, g];
  }

  lemma MergedIs(p: Gap)
    requires IsGap(p)
    ensures IsMergedInput(Both(p), Merged(p))
  {
    KeysOrder(p);
    TwoFilesEntries(UpperA(p), UpperC(p));
    TwoFilesEntries(LowerA(p), LowerC(p));
    var input := Merged(p);
    assert InputEntries(Both(p)) == {input[0], input[1], input[2], input[3]};
  }

  /** The output is what the compaction keeps: no snapshot needs the older values. */
  lemma OutputIsKept(p: Gap)
    requires IsGap(p)
    ensures HoldKept(Before(p), Both(p), 4, [Output(p)])
  {
    MergedIs(p);
    MergedIsKept(p);
    assert [Output(p)][..0] == [] && Concat([Output(p)]) == Output(p).entries && |Merged(p)| == 4;
    hide IsMergedInput, Kept, Concat, Before;
  }

  lemma OutputIsGood(p: Gap)
    requires IsGap(p)
    ensures GoodOutputs(Both(p), [Output(p)])
  {
    KeysOrder(p);
    TwoFilesEntries(UpperA(p), UpperC(p));
    TwoFilesEntries(LowerA(p), LowerC(p));
    Revival.OneFileEntries(Output(p));
  }

  lemma MergedIsKept(p: Gap)
    requires IsGap(p)
    ensures Kept(Before(p), 1, Merged(p), 4, 4) == Output(p).entries
  {
    KeysOrder(p);
    var input, v := Merged(p), Before(p);
    assert Kept(v, 1, input, 1, 4) == [input[0]];
    assert Kept(v, 1, input, 2, 4) == [input[0]];
    assert Kept(v, 1, input, 3, 4) == [input[0], input[2]];
  }

  lemma FlushBetween(p: Gap)
    requires IsGap(p)
    ensures MayFlushTo(Before(p), 2, Between(p)) && Flushed(Before(p), 2, Between(p), During(p))
  {
    KeysOrder(p);
  }

  lemma InstallAfter(p: Gap)
    requires IsGap(p)
    ensures Rewritten(During(p), Both(p), [Output(p)], AfterAll(p))
  {
    KeysOrder(p);
    Revival.MovedDown(During(p), Both(p), [Output(p)], AfterAll(p));
  }

  lemma BetweenIsNew(p: Gap)
    requires IsGap(p)
    ensures IsNew(Before(p), [Output(p)], Between(p))
  {
    hide Less;
    KeysOrder(p);
    BeforeEntries(p);
  }

  lemma BeforeEntries(p: Gap)
    ensures VersionEntries(Before(p)) == {EntryOf(p, p.a, 3), EntryOf(p, p.a, 1), EntryOf(p, p.c, 4), EntryOf(p, p.c, 2)}
  {
    TwoFilesEntries(UpperA(p), UpperC(p));
    TwoFilesEntries(LowerA(p), LowerC(p));
    var v := Before(p);
    assert v[1] == [UpperA(p), UpperC(p)] && v[2] == [LowerA(p), LowerC(p)];
    forall e | e in LevelEntries(v[1]) || e in LevelEntries(v[2]) ensures e in VersionEntries(v) {}
  }

  /** The level is the one that PickLevelForMemTableOutput chooses. */
  lemma LevelIsPicked(p: Gap, maxFileSize: nat)
    requires IsGap(p)
    ensures IsPicked(Before(p), Bytewise.Rank(p.b), Bytewise.Rank(p.b), maxFileSize, 2)
  {
    FlushBetween(p);
    var k := Bytewise.Rank(p.b);
    NothingMeets(Before(p)[2], k, maxFileSize);
    NothingMeets(Before(p)[3], k, maxFileSize);
  }

  lemma EmptyOrNot(files: seq<File>)
    ensures files == [] || exists f :: f in files
  {
    if files != [] { assert files[0] in files; }
  }

  lemma NothingMeets(files: seq<File>, k: UserKey, maxFileSize: nat)
    requires !LevelMeets(files, k, k)
    ensures !TooManyBytes(files, k, k, maxFileSize)
  {
    OverlappingMembers(files, Some(k), Some(k));
    EmptyOrNot(Overlapping(files, Some(k), Some(k)));
  }

  /** A run of the database, a compaction of its last version and a table flushed meanwhile to the level
      that is picked for it: installing the compaction then breaks the version. */
  lemma OverlapHappens(p: Gap, maxFileSize: nat) returns (ds: seq<Db>, steps: seq<Step>)
    requires IsGap(p)
    ensures Engine.IsRun(ds, steps) && ds[|steps|].version == Before(p)
    ensures HoldKept(Before(p), Both(p), SmallestSnapshot(ds[|steps|]), [Output(p)])
    ensures Interleaved(Before(p), Both(p), [Output(p)], 2, Between(p), During(p), AfterAll(p))
    ensures IsNew(Before(p), [Output(p)], Between(p))
    ensures IsPicked(Before(p), Bytewise.Rank(p.b), Bytewise.Rank(p.b), maxFileSize, 2)
    ensures !Versions.Valid(AfterAll(p))
  {
    ds, steps := RunBefore(p);
    RunKeepsInvariant(ds, steps, |steps|);
    BothIsChosen(p);
    OutputIsKept(p);
    OutputIsGood(p);
    FlushBetween(p);
    InstallAfter(p);
    BetweenIsNew(p);
    LevelIsPicked(p, maxFileSize);
    OutputCovers(p);
    BetweenIsWellFormed(p);
    hide Engine.IsRun, Before, During, AfterAll, Both, IsNew, Flushed, Rewritten, WellChosen, GoodOutputs, MayFlushTo, HoldKept, IsPicked;
    InstallAfterFlush(Before(p), Both(p), [Output(p)], 2, Between(p), During(p), AfterAll(p));
  }

  lemma BetweenIsWellFormed(p: Gap)
    ensures WellFormed(Between(p))
  {
  }

  lemma OutputCovers(p: Gap)
    requires IsGap(p)
    ensures !RangesApart(Output(p), Between(p)) && Output(p) in [Output(p)] && Both(p).level == 1
  {
    KeysOrder(p);
  }
}
