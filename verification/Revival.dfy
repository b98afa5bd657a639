/** A run in which a deleted value comes back: what RunKeepsReads excludes does happen.

    Two keys a < b are enough.  A value of a lies at level 2.  A table with a newer value of a, a deletion
    marker for b and an older value of b is flushed to level 1 and merged into level 2 while a snapshot
    needs everything, and the output reaches its size limit just at the marker, as it does with a key b
    of two megabytes.  So the marker and the value that it deletes are in different files of level 2.
    Later another value of a is flushed to level 1: its compaction draws in the file with the marker, but
    not the one with the value, and drops the marker. */
module Revival {
  import opened Keys
  import opened Reads
  import opened Versions
  import opened VersionBuilder
  import opened CompactionInputs
  import opened CompactionWork
  import opened CompactionMeaning
  import opened VersionSteps
  import opened Engine
  import Bytewise
  import Coding

  /** The keys, the values that are written for them, what a table of given entries takes on disk, and
      the limit for a file. */
  datatype Case = Case(a: seq<Coding.Byte>, b: seq<Coding.Byte>, bottom: Bytes, old': Bytes, first: Bytes, second: Bytes,
                       fileSize: seq<Entry> -> nat, maxFileSize: nat)

  function K1(p: Case): UserKey { Bytewise.Rank(p.a) }
  function K2(p: Case): UserKey { Bytewise.Rank(p.b) }

  function Bottom(p: Case): Entry { Entry(IKey(K1(p), 1, TypeValue), p.bottom) }
  function OldValue(p: Case): Entry { Entry(IKey(K2(p), 2, TypeValue), p.old') }
  function First(p: Case): Entry { Entry(IKey(K1(p), 3, TypeValue), p.first) }
  function Marker(p: Case): Entry { Entry(IKey(K2(p), 4, TypeDeletion), []) }
  function Second(p: Case): Entry { Entry(IKey(K1(p), 5, TypeValue), p.second) }

  /** The file is full just at the marker, and flushed tables do not meet too many bytes. */
  ghost predicate Applies(p: Case) {
    && Bytewise.Compare(p.a, p.b) < 0
    && p.fileSize([First(p)]) < p.maxFileSize
    && p.fileSize([First(p), Bottom(p)]) < p.maxFileSize
    && p.maxFileSize <= p.fileSize([First(p), Bottom(p), Marker(p)]) <= InputSelection.MaxGrandParentOverlapBytes(p.maxFileSize)
    && p.fileSize([Bottom(p)]) <= InputSelection.MaxGrandParentOverlapBytes(p.maxFileSize)
  }

  /** The bytes of internal keys and values, of which a table without much compression consists. */
  function ContentBytes(a: seq<Coding.Byte>, b: seq<Coding.Byte>, es: seq<Entry>): nat {
    if es == [] then 0
    else
      var last := es[|es| - 1];
      ContentBytes(a, b, es[..|es| - 1]) + (if last.key.ukey == Bytewise.Rank(a) then |a| else |b|) + TAG_BYTES + |last.value|
  }

  const TAG_BYTES: nat := 8

  /** For instance a key b as long as a file may be, with a short key and short values otherwise. */
  lemma LongKeyApplies(a: seq<Coding.Byte>, b: seq<Coding.Byte>, bottom: Bytes, old': Bytes, first: Bytes, second: Bytes, maxFileSize: nat)
    requires Bytewise.Compare(a, b) < 0 && |b| == maxFileSize
    requires 2 * (|a| + TAG_BYTES) + |first| + |bottom| < maxFileSize
    ensures Applies(Case(a, b, bottom, old', first, second, es => ContentBytes(a, b, es), maxFileSize))
  {
    var p := Case(a, b, bottom, old', first, second, es => ContentBytes(a, b, es), maxFileSize);
    Bytewise.RankKeepsOrder(a, b);
    var es := [First(p), Bottom(p), Marker(p)];
    assert es[..2] == [First(p), Bottom(p)] && es[..2][..1] == [First(p)] && [First(p)][..0] == [] && [Bottom(p)][..0] == [];
    assert ContentBytes(a, b, []) == 0;
    assert ContentBytes(a, b, [First(p)]) == |a| + TAG_BYTES + |first|;
    assert ContentBytes(a, b, [Bottom(p)]) == |a| + TAG_BYTES + |bottom|;
    assert ContentBytes(a, b, es[..2]) == 2 * (|a| + TAG_BYTES) + |first| + |bottom|;
    assert ContentBytes(a, b, es) == ContentBytes(a, b, es[..2]) + |b| + TAG_BYTES;
  }

  function FileOf(p: Case, number: nat, entries: seq<Entry>): File
    requires entries != []
  {
    NewFile(number, p.fileSize(entries), entries)
  }

  function BottomFile(p: Case): File { FileOf(p, 3, [Bottom(p)]) }
  function MarkerFile(p: Case): File { FileOf(p, 5, [First(p), Marker(p), OldValue(p)]) }
  function Lower(p: Case): File { FileOf(p, 6, [First(p), Bottom(p), Marker(p)]) }
  function Old(p: Case): File { FileOf(p, 7, [OldValue(p)]) }
  function Upper(p: Case): File { FileOf(p, 9, [Second(p)]) }
  function Last(p: Case): File { FileOf(p, 10, [Second(p)]) }

  function Cutting(p: Case): Compaction { Compaction(1, [MarkerFile(p)], [BottomFile(p)], [], MarkerFile(p).largest) }
  function Reviving(p: Case): Compaction { Compaction(1, [Upper(p)], [Lower(p)], [], Upper(p).largest) }

  function Tables(level1: seq<File>, level2: seq<File>): Version {
    [[], level1, level2, [], [], [], []]
  }

  // ---------------------------------------------------------------- the states

  const RUN_LENGTH: nat := 14

  function StepAt(p: Case, n: nat): Step
    requires n < RUN_LENGTH
  {
    if n == 0 then Step.Write([Update(TypeValue, K1(p), p.bottom)])
    else if n == 1 then SwitchMemTable
    else if n == 2 then Flush(2, p.fileSize([Bottom(p)]))
    else if n == 3 then Step.Write([Update(TypeValue, K2(p), p.old')])
    else if n == 4 then TakeSnapshot
    else if n == 5 then Step.Write([Update(TypeValue, K1(p), p.first), Update(TypeDeletion, K2(p), [])])
    else if n == 6 then SwitchMemTable
    else if n == 7 then Flush(1, p.fileSize([First(p), Marker(p), OldValue(p)]))
    else if n == 8 then Compact(Cutting(p), [Lower(p), Old(p)])
    else if n == 9 then Step.ReleaseSnapshot(0)
    else if n == 10 then Step.Write([Update(TypeValue, K1(p), p.second)])
    else if n == 11 then SwitchMemTable
    else if n == 12 then Flush(1, p.fileSize([Second(p)]))
    else Compact(Reviving(p), [Last(p)])
  }

  function StateAt(p: Case, n: nat): Db
    requires n <= RUN_LENGTH
  {
    if n == 0 then EMPTY_DB
    else if n == 1 then Db([Bottom(p)], None, EMPTY_VERSION, [], 1, 2)
    else if n == 2 then Db([], Some([Bottom(p)]), EMPTY_VERSION, [], 1, 3)
    else if n == 3 then Db([], None, Tables([], [BottomFile(p)]), [], 1, 4)
    else if n == 4 then Db([OldValue(p)], None, Tables([], [BottomFile(p)]), [], 2, 4)
    else if n == 5 then Db([OldValue(p)], None, Tables([], [BottomFile(p)]), [2], 2, 4)
    else if n == 6 then Db([First(p), Marker(p), OldValue(p)], None, Tables([], [BottomFile(p)]), [2], 4, 4)
    else if n == 7 then Db([], Some([First(p), Marker(p), OldValue(p)]), Tables([], [BottomFile(p)]), [2], 4, 5)
    else if n == 8 then Db([], None, Tables([MarkerFile(p)], [BottomFile(p)]), [2], 4, 6)
    else if n == 9 then Db([], None, Tables([], [Lower(p), Old(p)]), [2], 4, 8)
    else if n == 10 then Db([], None, Tables([], [Lower(p), Old(p)]), [], 4, 8)
    else if n == 11 then Db([Second(p)], None, Tables([], [Lower(p), Old(p)]), [], 5, 8)
    else if n == 12 then Db([], Some([Second(p)]), Tables([], [Lower(p), Old(p)]), [], 5, 9)
    else if n == 13 then Db([], None, Tables([Upper(p)], [Lower(p), Old(p)]), [], 5, 10)
    else Db([], None, Tables([], [Last(p), Old(p)]), [], 5, 11)
  }

  function States(p: Case): seq<Db> {
    seq(RUN_LENGTH + 1, n requires 0 <= n <= RUN_LENGTH => StateAt(p, n))
  }

  function Steps(p: Case): seq<Step> {
    seq(RUN_LENGTH, n requires 0 <= n < RUN_LENGTH => StepAt(p, n))
  }

  lemma EntriesOrder(p: Case)
    requires Applies(p)
    ensures Less(Second(p).key, First(p).key) && Less(First(p).key, Bottom(p).key)
    ensures Less(Bottom(p).key, Marker(p).key) && Less(Marker(p).key, OldValue(p).key)
    ensures Less(Second(p).key, Bottom(p).key) && Less(First(p).key, Marker(p).key) && Less(First(p).key, OldValue(p).key)
    ensures Less(Second(p).key, Marker(p).key) && Less(Bottom(p).key, OldValue(p).key) && Less(Second(p).key, OldValue(p).key)
    ensures K1(p) < K2(p)
  {
    Bytewise.RankKeepsOrder(p.a, p.b);
  }

  // ---------------------------------------------------------------- the writes

  lemma Writes(p: Case)
    requires Applies(p)
    ensures WriteStep(StateAt(p, 0), StepAt(p, 0).batch, StateAt(p, 1))
    ensures WriteStep(StateAt(p, 3), StepAt(p, 3).batch, StateAt(p, 4))
    ensures WriteStep(StateAt(p, 5), StepAt(p, 5).batch, StateAt(p, 6))
    ensures WriteStep(StateAt(p, 10), StepAt(p, 10).batch, StateAt(p, 11))
  {
    EntriesOrder(p);
    Batches(p);
    OneInserted([], Bottom(p));
    OneInserted([], OldValue(p));
    OneInserted([], Second(p));
    TwoInserted([OldValue(p)], First(p), Marker(p));
  }

  lemma Batches(p: Case)
    ensures BatchEntries(StepAt(p, 0).batch, 1) == [Bottom(p)]
    ensures BatchEntries(StepAt(p, 3).batch, 2) == [OldValue(p)]
    ensures BatchEntries(StepAt(p, 5).batch, 3) == [First(p), Marker(p)]
    ensures BatchEntries(StepAt(p, 10).batch, 5) == [Second(p)]
  {
  }

  lemma OneInserted(es: seq<Entry>, e: Entry)
    ensures InsertAll(es, [e]) == Insert(es, e)
  {
    assert [e][..0] == [];
    assert InsertAll(es, []) == es;
  }

  lemma TwoInserted(es: seq<Entry>, e: Entry, f: Entry)
    requires |es| == 1 && Less(e.key, f.key) && Less(f.key, es[0].key) && Less(e.key, es[0].key)
    ensures InsertAll(es, [e, f]) == [e, f] + es
  {
    OneInserted(es, e);
    assert [e, f][..1] == [e];
    assert ([e] + es)[1..] == es;
    assert Insert([e] + es, f) == [e] + Insert(es, f);
  }

  // ---------------------------------------------------------------- the flushes

  /** A table that meets nothing down to this level may be flushed there. */
  lemma FlushTo(v: Version, level: nat, f: File, v': Version)
    requires SortedVersion(v) && level <= 2 && v[level] == [] && v' == v[level := [f]]
    requires forall l :: 0 <= l <= level ==> v[l] == []
    ensures Flushed(v, level, f, v') && MayFlushTo(v, level, f)
  {
  }

  lemma Flushes(p: Case)
    requires Applies(p)
    ensures FlushStep(StateAt(p, 2), 2, StepAt(p, 2).size, StateAt(p, 3))
    ensures FlushStep(StateAt(p, 7), 1, StepAt(p, 7).size, StateAt(p, 8))
    ensures FlushStep(StateAt(p, 12), 1, StepAt(p, 12).size, StateAt(p, 13))
  {
    EntriesOrder(p);
    FlushTo(EMPTY_VERSION, 2, BottomFile(p), Tables([], [BottomFile(p)]));
    FlushTo(Tables([], [BottomFile(p)]), 1, MarkerFile(p), Tables([MarkerFile(p)], [BottomFile(p)]));
    FlushTo(Tables([], [Lower(p), Old(p)]), 1, Upper(p), Tables([Upper(p)], [Lower(p), Old(p)]));
  }

  // ---------------------------------------------------------------- the compactions

  lemma OneFileEntries(f: File)
    ensures LevelEntries([f]) == FileEntries(f)
  {
    assert f in [f];
  }

  lemma OneFileOverlaps(f: File, lo: UserKey, hi: UserKey)
    requires InputSelection.Overlaps(f, Some(lo), Some(hi))
    ensures InputSelection.Overlapping([f], Some(lo), Some(hi)) == [f]
  {
    assert [f][..0] == [];
    assert InputSelection.Overlapping([], Some(lo), Some(hi)) == [];
  }

  lemma FirstOfTwoOverlaps(f: File, g: File, lo: UserKey, hi: UserKey)
    requires InputSelection.Overlaps(f, Some(lo), Some(hi)) && !InputSelection.Overlaps(g, Some(lo), Some(hi))
    ensures InputSelection.Overlapping([f, g], Some(lo), Some(hi)) == [f]
  {
    OneFileOverlaps(f, lo, hi);
    assert [f, g][..1] == [f];
  }

  lemma CuttingIsChosen(p: Case)
    requires Applies(p)
    ensures WellChosen(StateAt(p, 8).version, Cutting(p))
  {
    EntriesOrder(p);
    OneFileOverlaps(BottomFile(p), K1(p), K2(p));
  }

  lemma RevivingIsChosen(p: Case)
    requires Applies(p)
    ensures WellChosen(StateAt(p, 13).version, Reviving(p))
  {
    EntriesOrder(p);
    FirstOfTwoOverlaps(Lower(p), Old(p), K1(p), K1(p));
  }

  function CutInput(p: Case): seq<Entry> { [First(p), Bottom(p), Marker(p), OldValue(p)] }
  function ReviveInput(p: Case): seq<Entry> { [Second(p), First(p), Bottom(p), Marker(p)] }

  lemma Inputs(p: Case)
    requires Applies(p)
    ensures IsMergedInput(Cutting(p), CutInput(p)) && IsMergedInput(Reviving(p), ReviveInput(p))
  {
    EntriesOrder(p);
    OneFileEntries(MarkerFile(p));
    OneFileEntries(BottomFile(p));
    OneFileEntries(Upper(p));
    OneFileEntries(Lower(p));
    assert InputEntries(Cutting(p)) == FileEntries(MarkerFile(p)) + FileEntries(BottomFile(p));
    assert InputEntries(Reviving(p)) == FileEntries(Upper(p)) + FileEntries(Lower(p));
  }

  /** The snapshot at 2 needs both values, and it is too old for the marker to be dropped. */
  lemma CutKeepsAll(p: Case)
    requires Applies(p)
    ensures Kept(StateAt(p, 8).version, 1, CutInput(p), 4, 2) == CutInput(p)
  {
    EntriesOrder(p);
    var input, v := CutInput(p), StateAt(p, 8).version;
    assert Kept(v, 1, input, 1, 2) == input[..1];
    assert Kept(v, 1, input, 2, 2) == input[..2];
    assert Kept(v, 1, input, 3, 2) == input[..3];
  }

  /** No snapshot needs the older entries, and below the output level there is nothing to hide. */
  lemma ReviveKeepsOne(p: Case)
    requires Applies(p)
    ensures Kept(StateAt(p, 13).version, 1, ReviveInput(p), 4, 5) == [Second(p)]
  {
    EntriesOrder(p);
    var input, v := ReviveInput(p), StateAt(p, 13).version;
    assert Kept(v, 1, input, 1, 5) == [Second(p)];
    assert Kept(v, 1, input, 2, 5) == [Second(p)];
    assert Kept(v, 1, input, 3, 5) == [Second(p)];
  }

  lemma OutputsAre(p: Case)
    requires Applies(p)
    ensures OutputsNumbered([Lower(p), Old(p)], 6) && Concat([Lower(p), Old(p)]) == CutInput(p)
    ensures OutputsNumbered([Last(p)], 10) && Concat([Last(p)]) == [Second(p)]
  {
    EntriesOrder(p);
    OutputsWellFormed(p);
    hide WellFormed, Lower, Old, Last, CutInput;
    OutputsHold(p);
    OneOutput(Last(p));
    TwoOutputs(Lower(p), Old(p));
  }

  lemma OutputsHold(p: Case)
    ensures Lower(p).number == 6 && Old(p).number == 7 && Last(p).number == 10 && Last(p).entries == [Second(p)]
    ensures Lower(p).entries + Old(p).entries == CutInput(p)
  {
  }

  lemma OutputsWellFormed(p: Case)
    requires Applies(p)
    ensures WellFormed(Lower(p)) && WellFormed(Old(p)) && WellFormed(Last(p))
  {
    EntriesOrder(p);
  }

  lemma OneOutput(f: File)
    requires WellFormed(f)
    ensures OutputsNumbered([f], f.number) && Concat([f]) == f.entries
  {
    assert [f][..0] == [] && Concat([]) == [];
  }

  lemma TwoOutputs(f: File, g: File)
    requires WellFormed(f) && WellFormed(g) && g.number == f.number + 1
    ensures OutputsNumbered([f, g], f.number) && Concat([f, g]) == f.entries + g.entries
  {
    OneOutput(f);
    assert [f, g][..1] == [f];
  }

  lemma Held(p: Case)
    requires Applies(p)
    ensures HoldKept(StateAt(p, 8).version, Cutting(p), 2, [Lower(p), Old(p)])
    ensures HoldKept(StateAt(p, 13).version, Reviving(p), 5, [Last(p)])
  {
    hide IsMergedInput, Kept, Concat, StateAt;
    Inputs(p);
    CutKeepsAll(p);
    ReviveKeepsOne(p);
    OutputsAre(p);
    assert |CutInput(p)| == 4 && |ReviveInput(p)| == 4;
  }

  lemma MovedDown(v: Version, c: Compaction, outputs: seq<File>, v': Version)
    requires c.level == 1 && SortedVersion(v') && (forall l :: 0 <= l < NUM_LEVELS && l != 1 && l != 2 ==> v'[l] == v[l])
    requires forall g :: g in v'[1] <==> g in v[1] && g !in c.inputs0
    requires forall g :: g in v'[2] <==> (g in v[2] && g !in c.inputs1) || g in outputs
    ensures Rewritten(v, c, outputs, v')
  {
    forall l | 0 <= l < NUM_LEVELS ensures RewrittenLevel(v[l], c, l, outputs, v'[l]) {}
  }

  lemma CutTables(p: Case)
    requires Applies(p)
    ensures Rewritten(StateAt(p, 8).version, Cutting(p), [Lower(p), Old(p)], StateAt(p, 9).version)
  {
    EntriesOrder(p);
    MovedDown(Tables([MarkerFile(p)], [BottomFile(p)]), Cutting(p), [Lower(p), Old(p)], Tables([], [Lower(p), Old(p)]));
  }

  lemma RevivedTables(p: Case)
    requires Applies(p)
    ensures Rewritten(StateAt(p, 13).version, Reviving(p), [Last(p)], StateAt(p, 14).version)
  {
    EntriesOrder(p);
    MovedDown(Tables([Upper(p)], [Lower(p), Old(p)]), Reviving(p), [Last(p)], Tables([], [Last(p), Old(p)]));
  }

  lemma Compacts(v: Version, snapshots: seq<nat>, last: nat, next: nat, c: Compaction, outputs: seq<File>, v': Version)
    requires WellChosen(v, c) && Rewritten(v, c, outputs, v') && OutputsNumbered(outputs, next)
    requires HoldKept(v, c, SmallestSnapshot(Db([], None, v, snapshots, last, next)), outputs)
    ensures CompactStep(Db([], None, v, snapshots, last, next), c, outputs, Db([], None, v', snapshots, last, next + |outputs|))
  {
    hide HoldKept, OutputsNumbered, Rewritten;
  }

  lemma CompactSteps(p: Case)
    requires Applies(p)
    ensures CompactStep(StateAt(p, 8), Cutting(p), [Lower(p), Old(p)], StateAt(p, 9))
    ensures CompactStep(StateAt(p, 13), Reviving(p), [Last(p)], StateAt(p, 14))
  {
    hide WellChosen, HoldKept, OutputsNumbered, Rewritten, CompactStep, Concat;
    CuttingIsChosen(p);
    RevivingIsChosen(p);
    Held(p);
    OutputsAre(p);
    CutTables(p);
    RevivedTables(p);
    Compacts(StateAt(p, 8).version, [2], 4, 6, Cutting(p), [Lower(p), Old(p)], StateAt(p, 9).version);
    Compacts(StateAt(p, 13).version, [], 5, 10, Reviving(p), [Last(p)], StateAt(p, 14).version);
  }

  // ---------------------------------------------------------------- the run

  lemma StepTaken(p: Case, n: nat)
    requires Applies(p) && n < RUN_LENGTH
    ensures TakeStep(StateAt(p, n), StepAt(p, n), StateAt(p, n + 1))
  {
    hide WriteStep, FlushStep, CompactStep, Applies;
    if n == 0 || n == 3 || n == 5 || n == 10 { Writes(p); }
    else if n == 2 || n == 7 || n == 12 { Flushes(p); }
    else if n == 8 || n == 13 { CompactSteps(p); }
  }

  lemma RunIsRun(p: Case)
    requires Applies(p)
    ensures Engine.IsRun(States(p), Steps(p))
  {
    assert StateAt(p, 0) == EMPTY_DB;
    hide StateAt, StepAt, TakeStep, Applies;
    forall n | 0 <= n < RUN_LENGTH ensures TakeStep(States(p)[n], Steps(p)[n], States(p)[n + 1]) {
      StepTaken(p, n);
    }
  }

  /** What has been written after n steps. */
  function WrittenBy(p: Case, n: nat): set<Entry>
    requires n <= RUN_LENGTH
  {
    if n == 0 then {}
    else if n <= 3 then {Bottom(p)}
    else if n <= 5 then {Bottom(p), OldValue(p)}
    else if n <= 10 then {Bottom(p), OldValue(p), First(p), Marker(p)}
    else {Bottom(p), OldValue(p), First(p), Marker(p), Second(p)}
  }

  lemma HistoryStep(p: Case, n: nat)
    requires n < RUN_LENGTH
    ensures HistoryAfter(StateAt(p, n), WrittenBy(p, n), StepAt(p, n)) == WrittenBy(p, n + 1)
  {
    Batches(p);
  }

  lemma {:induction false} RunHistory(p: Case, n: nat)
    requires Engine.IsRun(States(p), Steps(p)) && n <= RUN_LENGTH
    ensures History(States(p), Steps(p), n) == WrittenBy(p, n)
  {
    hide StateAt, StepAt, WrittenBy, TakeStep, HistoryAfter;
    if n == 0 {
      NothingWritten(p);
    } else {
      RunHistory(p, n - 1);
      HistoryStep(p, n - 1);
    }
  }

  lemma NothingWritten(p: Case)
    ensures WrittenBy(p, 0) == {}
  {
  }

  /** In the end the deleted value of b is read, where the history of writes has no value. */
  lemma DeletedValueIsRead(p: Case)
    requires Applies(p)
    ensures Engine.IsRun(States(p), Steps(p))
    ensures Read(Stored(States(p)[RUN_LENGTH]), K2(p), 5) == Some(p.old')
    ensures Read(History(States(p), Steps(p), RUN_LENGTH), K2(p), 5) == None
  {
    RunIsRun(p);
    RunHistory(p, RUN_LENGTH);
    StoredInTheEnd(p);
    ReadsInTheEnd(p);
  }

  lemma ReadsInTheEnd(p: Case)
    requires Applies(p)
    ensures Read({Second(p), OldValue(p)}, K2(p), 5) == Some(p.old')
    ensures Read(WrittenBy(p, RUN_LENGTH), K2(p), 5) == None
  {
    EntriesOrder(p);
    ReadNewest({Second(p), OldValue(p)}, K2(p), 5, OldValue(p));
    ReadNewest(WrittenBy(p, RUN_LENGTH), K2(p), 5, Marker(p));
  }

  lemma StoredInTheEnd(p: Case)
    ensures Stored(StateAt(p, RUN_LENGTH)) == {Second(p), OldValue(p)}
  {
    var v := Tables([], [Last(p), Old(p)]);
    assert v[2] == [Last(p), Old(p)] && Last(p) in v[2] && Old(p) in v[2];
    assert Second(p) in Last(p).entries && OldValue(p) in Old(p).entries;
    assert Second(p) in LevelEntries(v[2]) && OldValue(p) in LevelEntries(v[2]);
  }

  /** There are such runs of the database for any two keys, whatever is written for them. */
  lemma ReadsCanDisagree(p: Case)
    requires Applies(p)
    ensures exists ds, steps :: Engine.IsRun(ds, steps) && !ReadsAgree(ds[|steps|], History(ds, steps, |steps|))
  {
    DeletedValueIsRead(p);
    NoSnapshotLeft(p);
    hide StateAt, StepAt, TakeStep, Applies, Read, Engine.IsRun;
    var ds, steps := States(p), Steps(p);
    assert |steps| == RUN_LENGTH;
    assert !ReadsAgree(ds[|steps|], History(ds, steps, |steps|)) by {
      if ReadsAgree(ds[|steps|], History(ds, steps, |steps|)) {
        AgreesAt(ds[|steps|], History(ds, steps, |steps|), K2(p), 5);
      }
    }
  }

  lemma NoSnapshotLeft(p: Case)
    ensures SmallestSnapshot(States(p)[RUN_LENGTH]) == 5
  {
  }

  // ---------------------------------------------------------------- no choice of files helps

  /** Before the last step, whatever files are selected from level 1, the marker is among the inputs and
      the value that it deletes is not. */
  lemma RevivingInputs(p: Case, c: Compaction)
    requires Applies(p) && WellChosen(StateAt(p, 13).version, c) && c.level == 1
    ensures c.inputs0 == [Upper(p)] && c.inputs1 == [Lower(p)]
  {
    EntriesOrder(p);
    SingleInput(StateAt(p, 13).version[1], Upper(p), c.inputs0);
    FirstOfTwoOverlaps(Lower(p), Old(p), K1(p), K1(p));
  }

  lemma SingleInput(files: seq<File>, f: File, inputs: seq<File>)
    requires files == [f] && inputs != [] && DistinctNumbers(inputs) && forall g :: g in inputs ==> g in files
    ensures inputs == [f]
  {
    forall i | 0 <= i < |inputs| ensures inputs[i] == f { assert inputs[i] in inputs; }
    assert |inputs| <= 1 || inputs[0].number == inputs[1].number;
  }

  lemma MarkerIsNewest(p: Case)
    requires Applies(p)
    ensures IsNewest(VersionEntries(StateAt(p, 13).version), K2(p), 5, Marker(p))
    ensures Obsolete(StateAt(p, 13).version, 1, Marker(p), 5)
  {
    EntriesOrder(p);
    var v := Tables([Upper(p)], [Lower(p), Old(p)]);
    assert v[1] == [Upper(p)] && v[2] == [Lower(p), Old(p)] && v[2][0] == Lower(p);
    assert Lower(p) in v[2] && Lower(p).entries[2] == Marker(p) && Marker(p) in Lower(p).entries && Marker(p) in LevelEntries(v[2]);
    forall o | o in VersionEntries(v) && Visible(o, K2(p), 5) ensures o.key.seqno <= 4 {
      var l :| 0 <= l < NUM_LEVELS && o in LevelEntries(v[l]);
      assert l == 1 || l == 2;
    }
  }

  /** The run reaches this version, so it satisfies the invariants. */
  lemma ReachedIsValid(p: Case)
    requires Applies(p)
    ensures Versions.Valid(StateAt(p, 13).version)
  {
    RunIsRun(p);
    RunKeepsInvariant(States(p), Steps(p), 13);
  }

  lemma ReachedUncovers(p: Case, c: Compaction)
    requires Applies(p) && WellChosen(StateAt(p, 13).version, c) && c.level == 1
    ensures Uncovers(StateAt(p, 13).version, c, 5, K2(p))
  {
    var v := StateAt(p, 13).version;
    RevivingInputs(p, c);
    MarkerIsNewest(p);
    OneFileEntries(Lower(p));
    assert Lower(p).entries[2] == Marker(p) && Marker(p) in Lower(p).entries;
    assert v[2] == [Lower(p), Old(p)] && v[2][1] == Old(p) && Old(p).entries[0] == OldValue(p);
    LeftBehindIs(p, c);
    ReadNewest({OldValue(p)}, K2(p), 4, OldValue(p));
  }

  lemma LeftBehindIs(p: Case, c: Compaction)
    requires c.level == 1 && c.inputs1 == [Lower(p)]
    ensures LeftBehind(StateAt(p, 13).version, c) == {OldValue(p)}
  {
    var v := StateAt(p, 13).version;
    assert v[2] == [Lower(p), Old(p)] && v[2][1] == Old(p) && Old(p) in v[2];
    assert OldValue(p) in Old(p).entries;
  }

  /** Level 1 of this version can be compacted, and every compaction of it, whatever files are selected
      and wherever the outputs are cut, makes the deleted value readable. */
  lemma UncoveringCompaction(p: Case, c: Compaction, kept: set<Entry>)
    requires Applies(p) && WellChosen(StateAt(p, 13).version, c) && c.level == 1
    requires KeptExactly(StateAt(p, 13).version, c, 5, kept)
    ensures WellChosen(StateAt(p, 13).version, Reviving(p))
    ensures Read(VersionEntries(StateAt(p, 13).version), K2(p), 5) == None
    ensures Read(CompactionMeaning.After(StateAt(p, 13).version, c, kept), K2(p), 5).Some?
  {
    hide StateAt, Applies;
    RevivingIsChosen(p);
    ReachedIsValid(p);
    ReachedUncovers(p, c);
    UncoveredIsRead(StateAt(p, 13).version, c, 5, kept, K2(p));
  }
}
