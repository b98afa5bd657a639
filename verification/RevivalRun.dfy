/** The same run as calls of the database's methods, each of which makes its own choices. */
module RevivalRun {
  import opened Keys
  import opened Reads
  import opened Versions
  import opened VersionBuilder
  import opened CompactionInputs
  import opened CompactionWork
  import opened CompactionMeaning
  import opened VersionSteps
  import opened Engine
  import opened DbImplementation
  import opened Revival

  // ---------------------------------------------------------------- the steps leave no choice

  lemma SortedVersionsEqual(a: Version, b: Version)
    requires SortedVersion(a) && SortedVersion(b)
    requires forall l: nat, f :: l < NUM_LEVELS ==> (f in a[l] <==> f in b[l])
    ensures a == b
  {
    forall l: nat | l < NUM_LEVELS ensures a[l] == b[l] { SortedFilesUnique(a[l], b[l]); }
  }

  lemma FlushedUnique(v: Version, level: nat, f: File, a: Version, b: Version)
    requires Flushed(v, level, f, a) && Flushed(v, level, f, b)
    ensures a == b
  {
    SortedVersionsEqual(a, b);
  }

  lemma RewrittenUnique(v: Version, c: Compaction, c': Compaction, outputs: seq<File>, a: Version, b: Version)
    requires c.level == c'.level && c.inputs0 == c'.inputs0 && c.inputs1 == c'.inputs1
    requires Rewritten(v, c, outputs, a) && Rewritten(v, c', outputs, b)
    ensures a == b
  {
    forall l: nat, f | l < NUM_LEVELS ensures f in a[l] <==> f in b[l] {
      assert RewrittenLevel(v[l], c, l, outputs, a[l]) && RewrittenLevel(v[l], c', l, outputs, b[l]);
    }
    SortedVersionsEqual(a, b);
  }

  lemma {:induction false} SortedRunsEqual(a: seq<Entry>, b: seq<Entry>)
    requires Sorted(a) && Sorted(b) && forall e :: e in a <==> e in b
    ensures a == b
  {
    hide Less;
    assert a != [] ==> a[0] in b;
    assert b != [] ==> b[0] in a;
    if a != [] {
      LeastEntry(a, b[0]);
      LeastEntry(b, a[0]);
      LeastTail(a);
      LeastTail(b);
      assert a == [a[0]] + a[1..] && b == [b[0]] + b[1..];
      SortedRunsEqual(a[1..], b[1..]);
    }
  }

  lemma LeastEntry(a: seq<Entry>, e: Entry)
    requires Sorted(a) && a != []
    ensures e in a ==> e == a[0] || (Less(a[0].key, e.key) && !Less(e.key, a[0].key))
  {
  }

  lemma LeastTail(a: seq<Entry>)
    requires Sorted(a) && a != []
    ensures Sorted(a[1..]) && forall e :: e in a[1..] <==> e in a && e != a[0]
  {
    forall i | 0 < i < |a| ensures a[i] != a[0] { assert Less(a[0].key, a[i].key); }
    assert a == [a[0]] + a[1..];
  }

  // ---------------------------------------------------------------- the level of each flush

  /** A table goes to the one level allowed if the levels below the first that it meets are free. */
  lemma PickedLevel(v: Version, lo: UserKey, hi: UserKey, maxFileSize: nat, level: nat)
    requires InputSelection.IsPicked(v, lo, hi, maxFileSize, level)
    requires v[0] == [] && v[1] == []
    requires InputSelection.TotalFileSize(InputSelection.Overlapping(v[2], Some(lo), Some(hi))) <= InputSelection.MaxGrandParentOverlapBytes(maxFileSize)
    requires v[3] == []
    ensures level == if InputSelection.LevelMeets(v[2], lo, hi) then 1 else 2
  {
    assert InputSelection.Overlapping([], Some(lo), Some(hi)) == [];
    assert InputSelection.TotalFileSize([]) == 0;
  }

  lemma OneFileSize(f: File)
    ensures InputSelection.TotalFileSize([f]) == f.size
  {
    assert [f][..0] == [];
    assert InputSelection.TotalFileSize([]) == 0;
  }

  lemma PickedLevels(p: Case, level: nat)
    requires Applies(p)
    ensures FlushedAsPicked(StateAt(p, 2), p.maxFileSize, level) ==> level == 2
    ensures FlushedAsPicked(StateAt(p, 7), p.maxFileSize, level) ==> level == 1
    ensures FlushedAsPicked(StateAt(p, 12), p.maxFileSize, level) ==> level == 1
  {
    EntriesOrder(p);
    assert InputSelection.Overlapping([], Some(K1(p)), Some(K1(p))) == [];
    assert InputSelection.TotalFileSize([]) == 0;
    OneFileOverlaps(BottomFile(p), K1(p), K2(p));
    FirstOfTwoOverlaps(Lower(p), Old(p), K1(p), K1(p));
    OneFileSize(BottomFile(p));
    OneFileSize(Lower(p));
    assert StateAt(p, 7).version[2][0] == BottomFile(p) && StateAt(p, 12).version[2][0] == Lower(p);
    if FlushedAsPicked(StateAt(p, 2), p.maxFileSize, level) { PickedLevel(EMPTY_VERSION, K1(p), K1(p), p.maxFileSize, level); }
    if FlushedAsPicked(StateAt(p, 7), p.maxFileSize, level) { PickedLevel(StateAt(p, 7).version, K1(p), K2(p), p.maxFileSize, level); }
    if FlushedAsPicked(StateAt(p, 12), p.maxFileSize, level) { PickedLevel(StateAt(p, 12).version, K1(p), K1(p), p.maxFileSize, level); }
  }

  // ---------------------------------------------------------------- the outputs of each compaction

  /** Nothing asks for a stop: no level below the outputs has any files. */
  function Cuts(p: Case): DbImplementation.Cutting {
    DbImplementation.Cutting(_ => false, p.fileSize)
  }

  lemma CuttingInputs(p: Case, c: Compaction)
    requires Applies(p) && WellChosen(StateAt(p, 8).version, c) && c.level == 1
    ensures c.inputs0 == [MarkerFile(p)] && c.inputs1 == [BottomFile(p)]
  {
    EntriesOrder(p);
    SingleInput(StateAt(p, 8).version[1], MarkerFile(p), c.inputs0);
    OneFileOverlaps(BottomFile(p), K1(p), K2(p));
  }

  /** The first entries of a concatenation are those of the first file. */
  lemma {:induction false} FirstRun(fs: seq<File>)
    requires fs != []
    ensures Concat(fs) == fs[0].entries + Concat(fs[1..])
  {
    if |fs| == 1 {
      assert fs[..0] == [] && fs[1..] == [];
    } else {
      FirstRun(fs[..|fs| - 1]);
      assert fs[..|fs| - 1][1..] == fs[1..][..|fs[1..]| - 1];
    }
  }

  lemma NoFiles(fs: seq<File>)
    requires AllWellFormed(fs) && Concat(fs) == []
    ensures fs == []
  {
    if fs != [] {
      FirstRun(fs);
    }
  }

  lemma OnlyFile(fs: seq<File>, e: Entry)
    requires AllWellFormed(fs) && Concat(fs) == [e]
    ensures |fs| == 1 && fs[0].entries == [e]
  {
    assert fs != [];
    FirstRun(fs);
    assert WellFormed(fs[0]);
    assert fs[0].entries == [e] && Concat(fs[1..]) == [];
    NoFiles(fs[1..]);
  }

  /** Without stops the first file is as long as it can be. */
  lemma {:induction false} FirstCut(p: Case, input: seq<Entry>, fs: seq<File>)
    requires Applies(p) && AllWellFormed(fs) && Concat(fs) == CutInput(p)
    requires CutRightly(LimitsOf(Cuts(p), p.maxFileSize, |input|), input, |input|, RunsOf(fs))
    ensures |fs| == 2 && fs[0].entries == CutInput(p)[..3] && fs[1].entries == [OldValue(p)]
  {
    hide Applies, WellFormed, CutRightly;
    FirstIsPrefix(fs, CutInput(p));
    FirstEnds(p, input, fs);
    FirstLength(p, LimitsOf(Cuts(p), p.maxFileSize, |input|), fs[0].entries);
    OnlyFile(fs[1..], OldValue(p));
  }

  lemma FirstIsPrefix(fs: seq<File>, es: seq<Entry>)
    requires AllWellFormed(fs) && Concat(fs) == es && es != []
    ensures fs != [] && 0 < |fs[0].entries| <= |es| && fs[0].entries == es[..|fs[0].entries|]
    ensures AllWellFormed(fs[1..]) && Concat(fs[1..]) == es[|fs[0].entries|..]
  {
    FirstRun(fs);
    assert WellFormed(fs[0]);
  }

  /** A first file that is not all there is has been closed because it was full. */
  lemma {:induction false} FirstEnds(p: Case, input: seq<Entry>, fs: seq<File>)
    requires CutRightly(LimitsOf(Cuts(p), p.maxFileSize, |input|), input, |input|, RunsOf(fs)) && fs != []
    ensures FullOnlyAtEnd(LimitsOf(Cuts(p), p.maxFileSize, |input|), fs[0].entries)
    ensures Concat(fs[1..]) != [] ==> IsFull(LimitsOf(Cuts(p), p.maxFileSize, |input|), fs[0].entries)
  {
    var lim, runs := LimitsOf(Cuts(p), p.maxFileSize, |input|), RunsOf(fs);
    assert runs[0] == fs[0].entries;
    hide IsFull;
    if |fs| > 1 {
      assert EndsBefore(lim, input, |input|, runs[0], runs[1][0].key);
    } else {
      assert fs[1..] == [];
    }
  }

  lemma FirstLength(p: Case, lim: Limits, es: seq<Entry>)
    requires Applies(p) && lim.fileSize == p.fileSize && lim.maxFileSize == p.maxFileSize
    requires 0 < |es| <= 4 && es == CutInput(p)[..|es|] && FullOnlyAtEnd(lim, es) && (|es| < 4 ==> IsFull(lim, es))
    ensures |es| == 3
  {
    assert CutInput(p)[..1] == [First(p)] && CutInput(p)[..2] == [First(p), Bottom(p)];
    assert CutInput(p)[..3] == [First(p), Bottom(p), Marker(p)];
    FullPrefix(lim, es, CutInput(p), 3);
  }

  lemma FullPrefix(lim: Limits, es: seq<Entry>, all: seq<Entry>, m: nat)
    requires FullOnlyAtEnd(lim, es) && es <= all && 0 < m <= |all| && IsFull(lim, all[..m])
    ensures |es| <= m
  {
    var k := if |es| < m then |es| else m;
    assert es[..k] == all[..k];
  }

  lemma CutOutputs(p: Case, c: Compaction, outputs: seq<File>)
    requires Applies(p) && WellChosen(StateAt(p, 8).version, c) && c.level == 1
    requires Produces(StateAt(p, 8), c, Cuts(p), p.maxFileSize, outputs)
    ensures outputs == [Lower(p), Old(p)]
  {
    hide WellChosen, StateAt, Applies, ProducedFrom;
    var input :| ProducedFrom(StateAt(p, 8), c, Cuts(p), p.maxFileSize, outputs, input);
    StateNumbers(p);
    CutRuns(p, c, outputs, input);
    FilesAre(outputs, 6, p.fileSize);
    assert CutInput(p)[..3] == [First(p), Bottom(p), Marker(p)];
    assert outputs == [outputs[0], outputs[1]];
  }

  lemma StateNumbers(p: Case)
    ensures StateAt(p, 8).nextFileNumber == 6 && SmallestSnapshot(StateAt(p, 8)) == 2
    ensures StateAt(p, 13).nextFileNumber == 10 && SmallestSnapshot(StateAt(p, 13)) == 5
  {
  }

  lemma CutRuns(p: Case, c: Compaction, outputs: seq<File>, input: seq<Entry>)
    requires Applies(p) && WellChosen(StateAt(p, 8).version, c) && c.level == 1 && AllWellFormed(outputs)
    requires ProducedFrom(StateAt(p, 8), c, Cuts(p), p.maxFileSize, outputs, input)
    ensures |outputs| == 2 && outputs[0].entries == CutInput(p)[..3] && outputs[1].entries == [OldValue(p)]
  {
    hide WellChosen, Applies, IsMergedInput, Kept, Concat, CutRightly, AllWellFormed, StateAt;
    StateNumbers(p);
    CuttingInputs(p, c);
    Inputs(p);
    SameMergedInput(c, Revival.Cutting(p), input, CutInput(p));
    CutKeepsAll(p);
    assert |CutInput(p)| == 4;
    FirstCut(p, input, outputs);
  }

  lemma SameMergedInput(c: Compaction, c': Compaction, input: seq<Entry>, input': seq<Entry>)
    requires c.inputs0 == c'.inputs0 && c.inputs1 == c'.inputs1 && IsMergedInput(c, input) && IsMergedInput(c', input')
    ensures input == input'
  {
    SortedRunsEqual(input, input');
  }

  /** A file is determined by its number, its entries and the size of its table. */
  lemma FilesAre(fs: seq<File>, first: nat, fileSize: seq<Entry> -> nat)
    requires OutputsNumbered(fs, first) && SizesAre(fileSize, fs)
    ensures forall k :: 0 <= k < |fs| ==> fs[k].entries != [] && fs[k] == NewFile(first + k, fileSize(fs[k].entries), fs[k].entries)
  {
    forall k | 0 <= k < |fs| ensures fs[k].entries != [] && fs[k] == NewFile(first + k, fileSize(fs[k].entries), fs[k].entries) {
      assert WellFormed(fs[k]);
    }
  }

  lemma ReviveRuns(p: Case, c: Compaction, outputs: seq<File>, input: seq<Entry>)
    requires Applies(p) && WellChosen(StateAt(p, 13).version, c) && c.level == 1 && AllWellFormed(outputs)
    requires ProducedFrom(StateAt(p, 13), c, Cuts(p), p.maxFileSize, outputs, input)
    ensures |outputs| == 1 && outputs[0].entries == [Second(p)]
  {
    hide WellChosen, Applies, IsMergedInput, Kept, Concat, CutRightly, AllWellFormed, StateAt;
    StateNumbers(p);
    RevivingInputs(p, c);
    Inputs(p);
    SameMergedInput(c, Reviving(p), input, ReviveInput(p));
    ReviveKeepsOne(p);
    assert |ReviveInput(p)| == 4;
    OnlyFile(outputs, Second(p));
  }

  lemma ReviveOutputs(p: Case, c: Compaction, outputs: seq<File>)
    requires Applies(p) && WellChosen(StateAt(p, 13).version, c) && c.level == 1
    requires Produces(StateAt(p, 13), c, Cuts(p), p.maxFileSize, outputs)
    ensures outputs == [Last(p)]
  {
    hide WellChosen, StateAt, Applies, ProducedFrom;
    var input :| ProducedFrom(StateAt(p, 13), c, Cuts(p), p.maxFileSize, outputs, input);
    StateNumbers(p);
    ReviveRuns(p, c, outputs, input);
    FilesAre(outputs, 10, p.fileSize);
  }

  // ---------------------------------------------------------------- what each call leads to

  /** A step of another kind than flush and compaction has one outcome. */
  lemma PlainStep(p: Case, n: nat, d: Db)
    requires Applies(p) && n < RUN_LENGTH && TakeStep(StateAt(p, n), StepAt(p, n), d)
    requires !StepAt(p, n).Flush? && !StepAt(p, n).Compact?
    ensures d == StateAt(p, n + 1)
  {
    StepTaken(p, n);
    hide StateAt, Applies, BatchEntries, InsertAll;
  }

  lemma FlushTaken(p: Case, n: nat, level: nat, d: Db)
    requires Applies(p) && n < RUN_LENGTH && StepAt(p, n).Flush? && FlushedAsPicked(StateAt(p, n), p.maxFileSize, level)
    requires TakeStep(StateAt(p, n), Flush(level, StepAt(p, n).size), d)
    ensures d == StateAt(p, n + 1)
  {
    StepTaken(p, n);
    PickedLevels(p, level);
    FlushStates(p, n);
    assert StepAt(p, n) == Flush(level, StepAt(p, n).size);
    hide StateAt, Applies, Flushed, FlushedAsPicked, StepAt;
    var d0, size := StateAt(p, n), StepAt(p, n).size;
    FlushedUnique(d0.version, level, NewFile(d0.nextFileNumber, size, d0.imm.value), d.version, StateAt(p, n + 1).version);
  }

  lemma FlushStates(p: Case, n: nat)
    requires n < RUN_LENGTH && StepAt(p, n).Flush?
    ensures n == 2 || n == 7 || n == 12
    ensures StateAt(p, n).imm.Some? && StateAt(p, n).imm.value != []
  {
  }

  lemma CompactTaken(p: Case, n: nat, c: Compaction, outputs: seq<File>, d: Db)
    requires Applies(p) && (n == 8 || n == 13) && c.level == 1 && WellChosen(StateAt(p, n).version, c)
    requires Produces(StateAt(p, n), c, Cuts(p), p.maxFileSize, outputs)
    requires TakeStep(StateAt(p, n), Compact(c, outputs), d)
    ensures d == StateAt(p, n + 1)
  {
    StepTaken(p, n);
    hide StateAt, Applies, Produces, WellChosen, HoldKept, OutputsNumbered, Rewritten;
    if n == 8 {
      CuttingInputs(p, c);
      CutOutputs(p, c, outputs);
    } else {
      RevivingInputs(p, c);
      ReviveOutputs(p, c, outputs);
    }
    RewrittenUnique(StateAt(p, n).version, c, StepAt(p, n).c, outputs, d.version, StateAt(p, n + 1).version);
  }

  // ---------------------------------------------------------------- the calls

  ghost predicate Reached(db: DBImpl, p: Case, n: nat)
    requires n <= RUN_LENGTH
    reads db, db.mem, db.imm, db.snapshots
  {
    db.Valid() && db.State() == StateAt(p, n) && db.history == WrittenBy(p, n) && db.maxFileSize == p.maxFileSize
  }

  method WriteNext(db: DBImpl, p: Case, ghost n: nat, batch: seq<Update>)
    requires Applies(p) && n < RUN_LENGTH && Reached(db, p, n) && StepAt(p, n) == Step.Write(batch)
    modifies db, db.mem
    ensures Reached(db, p, n + 1) && db.mem == old(db.mem) && db.imm == old(db.imm)
  {
    RoomFor(p, n, batch);
    hide StateAt, WrittenBy, TakeStep, Good, Applies, StepAt;
    HistoryStep(p, n);
    var heights := seq(|batch|, _ => 1);
    db.Write(batch, heights);
    PlainStep(p, n, db.State());
  }

  lemma RoomFor(p: Case, n: nat, batch: seq<Update>)
    requires n < RUN_LENGTH && StepAt(p, n) == Step.Write(batch)
    ensures StateAt(p, n).lastSequence + |batch| < MAX_SEQUENCE
  {
  }

  method SwitchNext(db: DBImpl, p: Case, ghost n: nat)
    requires Applies(p) && n < RUN_LENGTH && Reached(db, p, n) && StepAt(p, n) == SwitchMemTable && db.imm == null
    modifies db
    ensures Reached(db, p, n + 1) && fresh(db.mem) && db.imm == old(db.mem)
  {
    hide StateAt, WrittenBy, TakeStep, Good, Applies, StepAt;
    HistoryStep(p, n);
    db.SwitchMemTable();
    PlainStep(p, n, db.State());
  }

  /** The background thread writes the full memtable. */
  method FlushNext(db: DBImpl, p: Case, ghost n: nat, size: nat)
    requires Applies(p) && n < RUN_LENGTH && Reached(db, p, n) && StepAt(p, n).Flush? && StepAt(p, n).size == size && db.imm != null
    modifies db
    ensures Reached(db, p, n + 1) && db.mem == old(db.mem) && db.imm == null
  {
    hide StateAt, WrittenBy, TakeStep, Good, Applies, StepAt, FlushedAsPicked, Produces;
    HistoryStep(p, n);
    ghost var step := db.BackgroundCompaction(Manual(1, None, None), size, Cuts(p));
    FlushTaken(p, n, step.value.level, db.State());
  }

  /** The background thread compacts level 1, over the whole range of keys. */
  method CompactNext(db: DBImpl, p: Case, ghost n: nat)
    requires Applies(p) && (n == 8 || n == 13) && Reached(db, p, n) && db.imm == null
    modifies db
    ensures Reached(db, p, n + 1) && db.mem == old(db.mem) && db.imm == null
  {
    SomethingToCompact(p, n);
    hide StateAt, WrittenBy, Takes, Good, Applies, StepAt, FlushedAsPicked, Produces, WellChosen, InputSelection.Overlapping;
    ghost var intact := db.intact;
    ghost var step := db.BackgroundCompaction(Manual(1, None, None), 0, Cuts(p));
    CompactOutcome(p, n, intact, step.value.c, step.value.outputs, db.State(), db.history, db.intact);
  }

  lemma CompactOutcome(p: Case, n: nat, intact: bool, c: Compaction, outputs: seq<File>, d: Db, h: set<Entry>, intact': bool)
    requires Applies(p) && (n == 8 || n == 13) && c.level == 1 && WellChosen(StateAt(p, n).version, c)
    requires Produces(StateAt(p, n), c, Cuts(p), p.maxFileSize, outputs)
    requires Takes(StateAt(p, n), WrittenBy(p, n), intact, Compact(c, outputs), d, h, intact')
    ensures d == StateAt(p, n + 1) && h == WrittenBy(p, n + 1)
  {
    CompactTaken(p, n, c, outputs, d);
    HistoryStep(p, n);
    SomethingToCompact(p, n);
  }

  lemma SomethingToCompact(p: Case, n: nat)
    requires n == 8 || n == 13
    ensures InputSelection.Overlapping(StateAt(p, n).version[1], None, None) != []
    ensures StepAt(p, n).Compact?
  {
  }

  /** The deletion of b, the last write for this key, is undone: after it b has a value again. */
  method DeletedValueReturns(p: Case) returns (db: DBImpl, value: Option<Bytes>)
    requires Applies(p)
    ensures fresh(db) && db.Valid()
    ensures value == Some(p.old') && Read(db.history, K2(p), db.lastSequence) == None
  {
    StepsAre(p);
    hide WrittenBy, StateAt, StepAt, Good, Applies, Reached;
    db := Open(p);
    Round(db, p, 0, [Update(TypeValue, K1(p), p.bottom)], p.fileSize([Bottom(p)]));
    WriteNext(db, p, 3, [Update(TypeValue, K2(p), p.old')]);
    var snapshot := SnapshotNext(db, p);
    Round(db, p, 5, [Update(TypeValue, K1(p), p.first), Update(TypeDeletion, K2(p), [])],
          p.fileSize([First(p), Marker(p), OldValue(p)]));
    CompactNext(db, p, 8);
    ReleaseNext(db, p, snapshot);
    Round(db, p, 10, [Update(TypeValue, K1(p), p.second)], p.fileSize([Second(p)]));
    CompactNext(db, p, 13);
    value := GetLast(db, p);
  }

  /** A batch is written, the memtable becomes full, and the background thread flushes it. */
  method Round(db: DBImpl, p: Case, ghost n: nat, batch: seq<Update>, size: nat)
    requires Applies(p) && n + 3 <= RUN_LENGTH && Reached(db, p, n) && db.imm == null
    requires StepAt(p, n) == Step.Write(batch) && StepAt(p, n + 1) == SwitchMemTable
    requires StepAt(p, n + 2).Flush? && StepAt(p, n + 2).size == size
    modifies db, db.mem
    ensures Reached(db, p, n + 3) && fresh(db.mem) && db.imm == null
  {
    hide WrittenBy, StateAt, StepAt, Good, Applies, Reached;
    WriteNext(db, p, n, batch);
    SwitchNext(db, p, n + 1);
    FlushNext(db, p, n + 2, size);
  }

  lemma StepsAre(p: Case)
    ensures StepAt(p, 0) == Step.Write([Update(TypeValue, K1(p), p.bottom)])
    ensures StepAt(p, 3) == Step.Write([Update(TypeValue, K2(p), p.old')])
    ensures StepAt(p, 5) == Step.Write([Update(TypeValue, K1(p), p.first), Update(TypeDeletion, K2(p), [])])
    ensures StepAt(p, 10) == Step.Write([Update(TypeValue, K1(p), p.second)])
    ensures StepAt(p, 1) == StepAt(p, 6) == StepAt(p, 11) == SwitchMemTable
    ensures StepAt(p, 2) == Flush(2, p.fileSize([Bottom(p)]))
    ensures StepAt(p, 7) == Flush(1, p.fileSize([First(p), Marker(p), OldValue(p)]))
    ensures StepAt(p, 12) == Flush(1, p.fileSize([Second(p)]))
  {
  }

  method Open(p: Case) returns (db: DBImpl)
    ensures fresh(db) && fresh(db.mem) && fresh(db.snapshots) && db.imm == null && Reached(db, p, 0)
  {
    hide Good;
    db := new DBImpl(p.maxFileSize);
    Start(p);
  }

  lemma Start(p: Case)
    ensures StateAt(p, 0) == EMPTY_DB && WrittenBy(p, 0) == {}
  {
  }

  method SnapshotNext(db: DBImpl, p: Case) returns (snapshot: nat)
    requires Applies(p) && Reached(db, p, 4)
    modifies db, db.snapshots
    ensures Reached(db, p, 5) && db.mem == old(db.mem) && db.imm == old(db.imm) && db.snapshots.list == [snapshot]
  {
    NoSnapshots(p);
    hide StateAt, WrittenBy, TakeStep, Good, Applies, StepAt;
    HistoryStep(p, 4);
    snapshot := db.GetSnapshot();
    PlainStep(p, 4, db.State());
  }

  lemma NoSnapshots(p: Case)
    ensures StateAt(p, 4).snapshots == [] && StepAt(p, 4) == TakeSnapshot && StepAt(p, 9) == Step.ReleaseSnapshot(0)
  {
  }

  method ReleaseNext(db: DBImpl, p: Case, snapshot: nat)
    requires Applies(p) && Reached(db, p, 9) && db.snapshots.list == [snapshot]
    modifies db, db.snapshots
    ensures Reached(db, p, 10) && db.mem == old(db.mem) && db.imm == old(db.imm)
  {
    NoSnapshots(p);
    hide StateAt, WrittenBy, TakeStep, Good, Applies, StepAt;
    HistoryStep(p, 9);
    db.ReleaseSnapshot(snapshot, 0);
    PlainStep(p, 9, db.State());
  }

  method GetLast(db: DBImpl, p: Case) returns (value: Option<Bytes>)
    requires Applies(p) && Reached(db, p, RUN_LENGTH)
    ensures db.Valid() && value == Some(p.old') && Read(db.history, K2(p), db.lastSequence) == None
  {
    hide TakeStep, Invariant, ReadsAgree;
    LastSequenceIs(p);
    StoredInTheEnd(p);
    ReadsInTheEnd(p);
    hide StateAt, WrittenBy, Good, Applies, Read;
    value := db.Get(K2(p), None);
  }

  lemma LastSequenceIs(p: Case)
    ensures StateAt(p, RUN_LENGTH).lastSequence == 5
  {
  }
}
