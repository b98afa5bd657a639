/** DBImpl (db/db_impl.cc): the methods that change the database, each proved to take one step of the
    state machine, and the read that goes through it. */
module DbImplementation {
  import opened Keys
  import opened Reads
  import opened Versions
  import opened VersionBuilder
  import opened CompactionInputs
  import opened CompactionWork
  import opened CompactionMeaning
  import opened VersionSteps
  import opened Engine
  import Manifest
  import MergedInput
  import InternalIterators
  import DbIterator
  import Merger
  import MemTables
  import opened SkipListClass
  import opened SnapshotLists

  // ---------------------------------------------------------------- edits

  function FlushEdit(level: nat, f: File): Edit {
    Edit({}, [(level, f)])
  }

  lemma FlushEditInstalls(v: Version, level: nat, f: File, v': Version)
    requires SortedVersion(v) && level < NUM_LEVELS && NumbersBelow(v, f.number)
    ensures LevelsInRange(FlushEdit(level, f)) && Manifest.Fresh(FlushEdit(level, f), v)
    ensures Manifest.Installs(v, FlushEdit(level, f), v') ==> Flushed(v, level, f, v')
  {
    var e := FlushEdit(level, f);
    assert forall l: nat, g :: (l, g) in e.added <==> l == level && g == f;
    assert Manifest.Fresh(e, v);
    if Manifest.Installs(v, e, v') {
      forall l: nat, g | l < NUM_LEVELS ensures g in v'[l] <==> g in v[l] || (l == level && g == f) {
        Manifest.InstalledMembers(v, e, v', l);
      }
    }
  }

  /** The numbers of the files of one level. */
  function NumbersOf(level: nat, files: seq<File>): set<(nat, nat)> {
    set i | 0 <= i < |files| :: (level, files[i].number)
  }

  function AddedAt(level: nat, files: seq<File>): seq<(nat, File)> {
    seq(|files|, i requires 0 <= i < |files| => (level, files[i]))
  }

  /** Compaction::AddInputDeletions and the AddFile calls of InstallCompactionResults. */
  function CompactionEdit(c: Compaction, outputs: seq<File>): Edit {
    Edit(NumbersOf(c.level, c.inputs0) + NumbersOf(c.level + 1, c.inputs1), AddedAt(c.level + 1, outputs))
  }

  lemma NumberIsInput(files: seq<File>, inputs: seq<File>, level: nat, f: File)
    requires Injective(files) && f in files && forall g :: g in inputs ==> g in files
    ensures (level, f.number) in NumbersOf(level, inputs) <==> f in inputs
  {
    if f in inputs {
      var i :| 0 <= i < |inputs| && inputs[i] == f;
      assert (level, inputs[i].number) in NumbersOf(level, inputs);
    }
    if (level, f.number) in NumbersOf(level, inputs) {
      var i :| 0 <= i < |inputs| && inputs[i].number == f.number;
      assert inputs[i] in inputs;
    }
  }

  lemma CompactionEditFresh(v: Version, c: Compaction, outputs: seq<File>)
    requires c.level + 1 < NUM_LEVELS && DistinctNumbers(outputs)
    requires forall f, g :: f in outputs && g in v[c.level + 1] ==> f.number != g.number
    ensures LevelsInRange(CompactionEdit(c, outputs)) && Manifest.Fresh(CompactionEdit(c, outputs), v)
    ensures forall l: nat, f :: (l, f) in CompactionEdit(c, outputs).added <==> l == c.level + 1 && f in outputs
  {
    var e := CompactionEdit(c, outputs);
    forall l: nat, f ensures (l, f) in e.added <==> l == c.level + 1 && f in outputs {
      if f in outputs {
        var i :| 0 <= i < |outputs| && outputs[i] == f;
        assert e.added[i] == (c.level + 1, f);
      }
    }
    forall l: nat | l < NUM_LEVELS ensures AddsFresh(e.added, l, v[l]) {
      assert forall g :: AddsNumber(e.added, l, g) ==> exists f :: (l, f) in e.added && f.number == g;
    }
  }

  lemma CompactionEditInstalls(v: Version, c: Compaction, outputs: seq<File>, v': Version)
    requires ValidLevels(v) && WellChosen(v, c) && DistinctNumbers(outputs)
    requires forall l :: 0 <= l < NUM_LEVELS ==> DistinctNumbers(v[l])
    requires forall f, g :: f in outputs && g in v[c.level + 1] ==> f.number != g.number
    requires Manifest.Installs(v, CompactionEdit(c, outputs), v')
    ensures Rewritten(v, c, outputs, v')
  {
    var e := CompactionEdit(c, outputs);
    CompactionEditFresh(v, c, outputs);
    forall l: nat | l < NUM_LEVELS ensures RewrittenLevel(v[l], c, l, outputs, v'[l]) {
      Manifest.InstalledMembers(v, e, v', l);
      CompactionEditDeletes(v, c, outputs, l);
    }
  }

  /** What a compaction's edit deletes are its inputs. */
  lemma CompactionEditDeletes(v: Version, c: Compaction, outputs: seq<File>, l: nat)
    requires WellChosen(v, c) && l < NUM_LEVELS && forall m :: 0 <= m < NUM_LEVELS ==> DistinctNumbers(v[m])
    ensures forall f :: f in v[l] ==> ((l, f.number) in CompactionEdit(c, outputs).deleted <==> !Stays(c, l, f))
  {
    InputsAreInVersion(v, c);
    DistinctIsInjective(v[l]);
    forall f | f in v[l] ensures (l, f.number) in CompactionEdit(c, outputs).deleted <==> !Stays(c, l, f) {
      if l == c.level { NumberIsInput(v[l], c.inputs0, l, f); }
      if l == c.level + 1 { NumberIsInput(v[l], c.inputs1, l, f); }
    }
  }

  // ---------------------------------------------------------------- the database

  // What the head of a memtable holds is never read.
  const ANY_ENTRY := Entry(IKey(0.0, 0, TypeValue), [])

  /** What the background thread found to do. */
  datatype Work =
    | Automatic(level: nat, index: nat)  // the level and file that size or seeks asked for
    | Manual(level: nat, begin: Option<UserKey>, end: Option<UserKey>)

  /** How output files are cut; neither choice affects what can be read. */
  datatype Cutting = Cutting(stopBefore: nat -> bool, fileSize: seq<Entry> -> nat)

  function LimitsOf(cutting: Cutting, maxFileSize: nat, n: nat): (lim: Limits)
    ensures |lim.stopBefore| == n
  {
    Limits(seq(n, i requires 0 <= i => cutting.stopBefore(i)), cutting.fileSize, maxFileSize)
  }

  /** The level of a flushed memtable is the one PickLevel chooses. */
  ghost predicate FlushedAsPicked(d: Db, maxFileSize: nat, level: nat) {
    d.imm.Some? && d.imm.value != [] ==>
      InputSelection.IsPicked(d.version, d.imm.value[0].key.ukey, d.imm.value[|d.imm.value| - 1].key.ukey, maxFileSize, level)
  }

  /** The outputs are what the compaction loop makes of the merged inputs. */
  ghost predicate Produces(d: Db, c: Compaction, cutting: Cutting, maxFileSize: nat, outputs: seq<File>) {
    && OutputsNumbered(outputs, d.nextFileNumber) && SizesAre(cutting.fileSize, outputs)
    && exists input :: ProducedFrom(d, c, cutting, maxFileSize, outputs, input)
  }

  ghost predicate ProducedFrom(d: Db, c: Compaction, cutting: Cutting, maxFileSize: nat, outputs: seq<File>, input: seq<Entry>) {
    && IsMergedInput(c, input)
    && Concat(outputs) == Kept(d.version, c.level, input, |input|, SmallestSnapshot(d))
    && CutRightly(LimitsOf(cutting, maxFileSize, |input|), input, |input|, RunsOf(outputs))
  }

  /** The compaction that the background work asks for. */
  ghost predicate IsChosen(v: Version, work: Work, maxFileSize: nat, c: Compaction) {
    match work
    case Automatic(level, index) =>
      level < NUM_LEVELS && index < |v[level]| && IsPickedFor(v, level, v[level][index], maxFileSize, c)
    case Manual(level, begin, end) => IsRangeOf(v, level, begin, end, maxFileSize, c)
  }

  /** One step, with the history of writes and whether every deleted value is still covered. */
  ghost predicate Takes(d: Db, h: set<Entry>, intact: bool, step: Step, d': Db, h': set<Entry>, intact': bool) {
    && TakeStep(d, step, d')
    && h' == HistoryAfter(d, h, step)
    && intact' == (intact && RevivesNothing(d, step))
  }

  ghost predicate Good(d: Db, h: set<Entry>, intact: bool) {
    Invariant(d, h) && (intact ==> ReadsAgree(d, h))
  }

  lemma TakesKeepsGood(d: Db, h: set<Entry>, intact: bool, step: Step, d': Db, h': set<Entry>, intact': bool)
    requires Good(d, h, intact) && Takes(d, h, intact, step, d', h', intact')
    ensures Good(d', h', intact')
  {
    StepKeepsInvariant(d, h, step, d');
    if intact' {
      StepKeepsReads(d, h, step, d');
    }
  }

  class DBImpl {
    var mem: SkipList
    var imm: SkipList?
    var current: Version
    const snapshots: SnapshotList
    var lastSequence: nat
    var nextFileNumber: nat
    const maxFileSize: nat

    ghost var history: set<Entry>  // every entry ever written
    ghost var intact: bool         // no compaction has revived a deleted value

    ghost predicate Objects()
      reads this, mem, imm, snapshots
    {
      mem.Valid() && (imm != null ==> imm.Valid() && imm != mem) && snapshots.Valid()
    }

    ghost function State(): Db
      requires Objects()
      reads this, mem, imm, snapshots
    {
      Db(mem.List(), if imm == null then None else Some(imm.List()), current, snapshots.Numbers(), lastSequence, nextFileNumber)
    }

    ghost predicate Valid()
      reads this, mem, imm, snapshots
    {
      Objects() && Good(State(), history, intact)
    }

    constructor (maxFileSize: nat)
      ensures Valid() && State() == EMPTY_DB && history == {} && intact && this.maxFileSize == maxFileSize
      ensures fresh(mem) && fresh(snapshots) && imm == null
    {
      this.maxFileSize := maxFileSize;
      var table := new SkipList(ANY_ENTRY);
      var list := new SnapshotList();
      mem, imm, current, snapshots, lastSequence, nextFileNumber := table, null, EMPTY_VERSION, list, 0, 2;
      history, intact := {}, true;
      new;
      EmptyDbInvariant();
    }

    /** What a method has done: it took this step. */
    twostate predicate Took(step: Step)
      requires old(Objects()) && Objects()
      reads this, mem, imm, snapshots
    {
      Takes(old(State()), old(history), old(intact), step, State(), history, intact)
    }

    twostate lemma TookKeepsValid(step: Step)
      requires old(Valid()) && Objects() && Took(step)
      ensures Valid()
    {
      TakesKeepsGood(old(State()), old(history), old(intact), step, State(), history, intact);
    }

    /** The memtable part of DBImpl::Write: the batch gets the next sequence numbers.  The heights are
        those that the skip list draws. */
    method Write(batch: seq<Update>, heights: seq<nat>)
      requires Valid() && lastSequence + |batch| < MAX_SEQUENCE
      requires |heights| == |batch| && forall h :: h in heights ==> 1 <= h <= 12
      modifies this, mem
      ensures Valid() && Took(Step.Write(batch)) && mem == old(mem) && imm == old(imm)
    {
      hide Invariant, ReadsAgree, Sorted;
      ghost var d := State();
      var added := BatchEntries(batch, lastSequence + 1);
      StoredBefore(d, history);
      InsertInto(added, heights);
      lastSequence := lastSequence + |batch|;
      history := history + Run(added);
      TookKeepsValid(Step.Write(batch));
    }

    /** WriteBatchInternal::InsertInto: one memtable insertion for each update of the batch, in order. */
    method InsertInto(added: seq<Entry>, heights: seq<nat>)
      requires mem.Valid() && forall x :: x in mem.List() ==> x.key.seqno <= lastSequence
      requires forall i :: 0 <= i < |added| ==> added[i].key.seqno == lastSequence + 1 + i
      requires |heights| == |added| && forall h :: h in heights ==> 1 <= h <= SkipLists.MAX_HEIGHT
      modifies mem
      ensures mem.Valid() && mem.List() == InsertAll(old(mem.List()), added)
    {
      for i := 0 to |added|
        invariant mem.Valid() && mem.List() == InsertAll(old(mem.List()), added[..i])
        invariant forall x :: x in mem.List() ==> x.key.seqno <= lastSequence + i
      {
        assert added[..i + 1][..i] == added[..i];
        assert heights[i] in heights;
        ghost var before := mem.List();
        MemTables.ListIsSorted(mem);
        mem.Insert(added[i], heights[i]);
        InsertSorted(before, added[i]);
      }
      assert added[..|added|] == added;
    }

    /** MakeRoomForWrite's switch to a new memtable and log file. */
    method SwitchMemTable()
      requires Valid() && imm == null
      modifies this
      ensures Valid() && Took(Step.SwitchMemTable) && imm == old(mem) && fresh(mem)
      ensures State() == old(State()).(mem := [], imm := Some(old(mem.List())), nextFileNumber := old(nextFileNumber) + 1)
    {
      nextFileNumber := nextFileNumber + 1;
      imm := mem;
      mem := new SkipList(ANY_ENTRY);
      TookKeepsValid(Step.SwitchMemTable);
    }

    /** CompactMemTable: write the immutable memtable as a table, at the level PickLevel chooses. */
    method CompactMemTable(size: nat) returns (ghost level: nat)
      requires Valid() && imm != null
      modifies this
      ensures Valid() && Took(Flush(level, size)) && mem == old(mem) && imm == null
      ensures FlushedAsPicked(old(State()), maxFileSize, level)
    {
      hide TakeStep, Good;
      var v, l := WriteImm(size);
      level := l;
      ghost var d := State();
      ghost var d' := d.(imm := None, version := v, nextFileNumber := d.nextFileNumber + 1);
      TakesKeepsGood(d, history, intact, Flush(level, size), d', history, intact);
      DropImm(v);
    }

    method DropImm(v: Version)
      requires Objects()
      modifies `current, `nextFileNumber, `imm
      ensures Objects() && imm == null
      ensures State() == old(State()).(imm := None, version := v, nextFileNumber := old(nextFileNumber) + 1)
    {
      current := v;
      nextFileNumber := nextFileNumber + 1;
      imm := null;
    }

    /** The table file of the immutable memtable, and the version that has it. */
    method WriteImm(size: nat) returns (v: Version, level: nat)
      requires Valid() && imm != null
      ensures TakeStep(State(), Flush(level, size), State().(imm := None, version := v, nextFileNumber := nextFileNumber + 1))
      ensures FlushedAsPicked(State(), maxFileSize, level)
    {
      hide Invariant, TablesOk, MayFlushTo, Flushed, WellFormed, TakeStep, InputSelection.BoundedSeqnos, ReadsAgree;
      hide InputSelection.IsPicked;
      ghost var d, h := State(), history;
      BoundedInVersion(d, h);
      var entries := MemTables.Drain(imm);
      v, level := current, 0;
      if entries != [] {
        ImmFile(d, h, size);
        v, level := WriteLevel0Table(NewFile(nextFileNumber, size, entries));
      }
      FlushTaken(d, level, size, v);
    }

    method WriteLevel0Table(f: File) returns (v: Version, level: nat)
      requires TablesOk(current, f.number) && InputSelection.BoundedSeqnos(current)
      requires WellFormed(f)
      ensures MayFlushTo(current, level, f) && Flushed(current, level, f, v)
      ensures InputSelection.IsPicked(current, f.smallest.ukey, f.largest.ukey, maxFileSize, level)
    {
      level := InputSelection.PickLevelForMemTableOutput(current, f.smallest.ukey, f.largest.ukey, maxFileSize);
      FlushEditInstalls(current, level, f, current);
      v := Manifest.LogAndApply(current, FlushEdit(level, f));
      FlushEditInstalls(current, level, f, v);
    }

    /** BackgroundCompaction: a pending memtable first, then a manual or automatic compaction. */
    method BackgroundCompaction(work: Work, size: nat, cutting: Cutting) returns (ghost step: Option<Step>)
      requires Valid()
      requires work.level + 1 < NUM_LEVELS && (work.Automatic? ==> work.index < |current[work.level]|)
      modifies this
      ensures Valid() && mem == old(mem) && imm == null
      ensures step.Some? ==> Took(step.value)
      ensures step.None? ==> State() == old(State()) && history == old(history) && intact == old(intact)
      ensures old(imm) != null ==>
                step.Some? && step.value.Flush? && step.value.size == size && FlushedAsPicked(old(State()), maxFileSize, step.value.level)
      // A compaction is the one for the level and file, or the range; it is a trivial move if it moves one
      // file, meets none on the next level, and not more than ten files' worth two levels down.
      ensures old(imm) == null && work.Automatic? ==> step.Some? && (step.value.Move? || step.value.Compact?)
      ensures old(imm) == null && step.Some? ==>
                (step.value.Move? || step.value.Compact?) && IsChosen(old(current), work, maxFileSize, step.value.c)
                && (step.value.Move? <==>
                      work.Automatic? && |step.value.c.inputs0| == 1 && step.value.c.inputs1 == []
                      && InputSelection.TotalFileSize(step.value.c.grandparents) <= 10 * maxFileSize)
      ensures old(imm) == null && work.Manual? ==>
                if step.None? then InputSelection.Overlapping(current[work.level], work.begin, work.end) == []
                else step.value.Compact? && step.value.c.level == work.level && WellChosen(old(current), step.value.c)
      ensures step.Some? && step.value.Compact? ==>
                Produces(old(State()), step.value.c, cutting, maxFileSize, step.value.outputs)
    {
      hide Takes, IsChosen, Produces;
      if imm != null {
        ghost var level := CompactMemTable(size);
        return Some(Flush(level, size));
      }
      var c := ChooseCompaction(work);
      if c.None? {
        return None;
      }
      if work.Automatic? && IsTrivialMove(c.value) {
        MoveFile(c.value);
        return Some(Move(c.value));
      }
      ghost var outputs := RunCompaction(c.value, cutting);
      return Some(Compact(c.value, outputs));
    }

    method ChooseCompaction(work: Work) returns (c: Option<Compaction>)
      requires Versions.Valid(current)
      requires work.level + 1 < NUM_LEVELS && (work.Automatic? ==> work.index < |current[work.level]|)
      ensures c.Some? ==> WellChosen(current, c.value) && c.value.level == work.level
      ensures c.Some? ==> IsChosen(current, work, maxFileSize, c.value)
      ensures work.Automatic? ==> c.Some? && current[work.level][work.index] in c.value.inputs0
      ensures work.Manual? && c.None? ==> InputSelection.Overlapping(current[work.level], work.begin, work.end) == []
    {
      ValidVersionLevel(current, work.level);
      ValidVersionLevel(current, work.level + 1);
      match work
      case Manual(level, begin, end) =>
        c := CompactRange(current, level, begin, end, maxFileSize);
      case Automatic(level, index) =>
        var r := PickCompaction(current, level, current[level][index], maxFileSize);
        c := Some(r);
    }

    predicate IsTrivialMove(c: Compaction) {
      |c.inputs0| == 1 && |c.inputs1| == 0 &&
      InputSelection.TotalFileSize(c.grandparents) <= InputSelection.MaxGrandParentOverlapBytes(maxFileSize)
    }

    /** The trivial move in BackgroundCompaction. */
    method MoveFile(c: Compaction)
      requires Valid() && imm == null && WellChosen(current, c) && |c.inputs0| == 1 && c.inputs1 == []
      modifies this
      ensures Valid() && Took(Move(c)) && mem == old(mem) && imm == null
    {
      MoveIsFresh(current, c);
      CompactionEditFresh(current, c, c.inputs0);
      var v := Manifest.LogAndApply(current, CompactionEdit(c, c.inputs0));
      CompactionEditInstalls(current, c, c.inputs0, v);
      AppendVersion(v, nextFileNumber, Move(c));
    }

    /** DoCompactionWork and InstallCompactionResults. */
    method RunCompaction(c: Compaction, cutting: Cutting) returns (ghost outputs: seq<File>)
      requires Valid() && imm == null && WellChosen(current, c)
      modifies this
      ensures Valid() && Took(Compact(c, outputs)) && mem == old(mem) && imm == null
      ensures Produces(old(State()), c, cutting, maxFileSize, outputs)
    {
      var outs, next, v := CompactFiles(c, cutting);
      outputs := outs;
      AppendVersion(v, next, Compact(c, outs));
    }

    /** VersionSet::AppendVersion, with the file numbers used up. */
    method AppendVersion(v: Version, next: nat, ghost step: Step)
      requires Valid() && !step.Write? && TakeStep(State(), step, State().(version := v, nextFileNumber := next))
      modifies this
      ensures Valid() && Took(step) && mem == old(mem) && imm == old(imm)
    {
      hide TakeStep, RevivesNothing;
      ghost var d, h, still := State(), history, intact && RevivesNothing(State(), step);
      ghost var d' := d.(version := v, nextFileNumber := next);
      TakesKeepsGood(d, h, intact, step, d', h, still);
      SetVersion(v, next, still);
    }

    method SetVersion(v: Version, next: nat, ghost still: bool)
      requires Objects()
      modifies `current, `nextFileNumber, `intact
      ensures Objects() && State() == old(State()).(version := v, nextFileNumber := next) && intact == still
    {
      current, nextFileNumber, intact := v, next, still;
    }

    method CompactFiles(c: Compaction, cutting: Cutting) returns (outs: seq<File>, next: nat, v: Version)
      requires Valid() && imm == null && WellChosen(current, c)
      ensures TakeStep(State(), Compact(c, outs), State().(version := v, nextFileNumber := next))
      ensures Produces(State(), c, cutting, maxFileSize, outs)
    {
      hide Invariant, TablesOk, TakeStep, ReadsAgree, WellChosen, Rewritten, Sorted, Versions.Valid;
      ghost var d := State();
      StateTables(d, history, c);
      var smallestSnapshot := OldestNeeded();
      var input := MergedInput.MakeInput(current, c);
      MergedInputSorted(c, input);
      var limits := LimitsOf(cutting, maxFileSize, |input|);
      outs, next := DoCompactionWork(current, c.level, input, smallestSnapshot, limits, nextFileNumber);
      v := InstallCompactionResults(c, outs);
      assert State() == d;
      assert ProducedFrom(d, c, cutting, maxFileSize, outs, input);
      CompactionSteps(d, c, input, outs, v);
    }

    /** The oldest sequence number that compaction must keep readable. */
    method OldestNeeded() returns (s: nat)
      requires Objects()
      ensures s == SmallestSnapshot(State())
      ensures s == if State().snapshots == [] then lastSequence else State().snapshots[0]
    {
      s := lastSequence;
      var none := snapshots.IsEmpty();
      if !none {
        s := snapshots.Oldest();
      }
    }

    method InstallCompactionResults(c: Compaction, outs: seq<File>) returns (v: Version)
      requires TablesOk(current, nextFileNumber) && WellChosen(current, c) && OutputsNumbered(outs, nextFileNumber)
      ensures Rewritten(current, c, outs, v)
    {
      OutputsAreFresh(current, c, outs, nextFileNumber);
      CompactionEditFresh(current, c, outs);
      v := Manifest.LogAndApply(current, CompactionEdit(c, outs));
      CompactionEditInstalls(current, c, outs, v);
    }

    method GetSnapshot() returns (snapshot: nat)
      requires Valid()
      modifies this, snapshots
      ensures Valid() && Took(TakeSnapshot) && mem == old(mem) && imm == old(imm)
      ensures snapshots.list == old(snapshots.list) + [snapshot]
      // Its number is the last sequence number, and nothing else changes.
      ensures State() == old(State()).(snapshots := old(State().snapshots) + [old(lastSequence)])
      ensures history == old(history) && intact == old(intact)
    {
      SnapshotsBelow(State(), history);
      snapshot := snapshots.New(lastSequence);
      TookKeepsValid(TakeSnapshot);
    }

    method ReleaseSnapshot(snapshot: nat, ghost index: nat)
      requires Valid() && index < |snapshots.list| && snapshots.list[index] == snapshot
      modifies this, snapshots
      ensures Valid() && Took(Step.ReleaseSnapshot(index)) && mem == old(mem) && imm == old(imm)
      ensures State() == old(State()).(snapshots := old(State().snapshots[..index] + State().snapshots[index + 1..]))
      ensures history == old(history) && intact == old(intact)
    {
      snapshots.Delete(snapshot, index);
      TookKeepsValid(Step.ReleaseSnapshot(index));
    }

    /** DBImpl::Get at a live snapshot, or at the last sequence number when none is given: the memtable,
        then the immutable memtable, then the current version; the first place that knows the key answers. */
    method Get(k: UserKey, snapshot: Option<nat>) returns (value: Option<Bytes>)
      requires Valid() && (snapshot.Some? ==> snapshot.value in snapshots.Numbers())
      ensures var s := if snapshot.Some? then snapshot.value else lastSequence;
              value == Read(Stored(State()), k, s) && (intact ==> value == Read(history, k, s))
    {
      var s := if snapshot.Some? then snapshot.value else lastSequence;
      assert SmallestSnapshot(State()) <= s;
      LookupInLayers(State(), history, k, s);
      var st := MemTables.Find(mem, k, s);
      if st != Lookup.NotFound {
        return ValueOfState(st);
      }
      if imm != null {
        st := MemTables.Find(imm, k, s);
        if st != Lookup.NotFound {
          return ValueOfState(st);
        }
      }
      value := Lookup.Get(current, k, s);
    }

    /** One merging iterator over the memtables and the tables; a memtable's child is a cursor over its
        entries in key order. */
    method NewInternalIterator() returns (iter: Merger.MergingIterator)
      requires Valid()
      ensures fresh(iter) && (forall c :: c in iter.children ==> fresh(c)) && iter.Ok() && !iter.Valid()
      ensures Sorted(iter.merged) && Run(iter.merged) == Stored(State())
    {
      var m := MemTables.Drain(mem);
      var i := None;
      if imm != null {
        var entries := MemTables.Drain(imm);
        i := Some(entries);
      }
      iter := InternalIterators.NewInternalIterator(m, i, current, State(), history);
    }

    /** DBImpl::NewIterator at a live snapshot, or at the last sequence number when none is given. */
    method NewIterator(snapshot: Option<nat>) returns (iter: DbIterator.DBIter)
      requires Valid() && (snapshot.Some? ==> snapshot.value in snapshots.Numbers())
      ensures fresh(iter) && fresh(iter.iter) && fresh(iter.iter.repr) && iter.Ok() && !iter.valid
      ensures iter.sequence == if snapshot.Some? then snapshot.value else lastSequence
      ensures intact ==> InternalIterators.Walks(iter.Live(), history, iter.sequence)
    {
      hide Invariant, ReadsAgree, InternalIterators.Walks, Merger.MergingIterator.Ok, Sorted, Stored;
      ghost var d, h := State(), history;
      var s := if snapshot.Some? then snapshot.value else lastSequence;
      SnapshotIsReadable(d, h, s);
      var merging := NewInternalIterator();
      assert Run(merging.merged) == Stored(d);
      iter := InternalIterators.NewDbIterator(merging, s);
      assert forall i :: 0 <= i < |merging.children| ==> merging.children[i] in merging.children;
      if intact {
        InternalIterators.IteratorWalksHistory(iter, d, h);
      }
    }
  }

  /** The table that an immutable memtable becomes. */
  lemma ImmFile(d: Db, h: set<Entry>, size: nat)
    requires Invariant(d, h) && d.imm.Some? && d.imm.value != []
    ensures WellFormed(NewFile(d.nextFileNumber, size, d.imm.value)) && TablesOk(d.version, d.nextFileNumber)
  {
    NewFileWellFormed(d.nextFileNumber, size, d.imm.value);
  }

  lemma FlushTaken(d: Db, level: nat, size: nat, v: Version)
    requires d.imm.Some?
    requires d.imm.value == [] ==> v == d.version
    requires d.imm.value != [] ==>
               var f := NewFile(d.nextFileNumber, size, d.imm.value); MayFlushTo(d.version, level, f) && Flushed(d.version, level, f, v)
    ensures TakeStep(d, Flush(level, size), d.(imm := None, version := v, nextFileNumber := d.nextFileNumber + 1))
  {
  }

  lemma SnapshotIsReadable(d: Db, h: set<Entry>, s: nat)
    requires Invariant(d, h) && (s in d.snapshots || s == d.lastSequence)
    ensures SmallestSnapshot(d) <= s
  {
  }

  lemma StoredBefore(d: Db, h: set<Entry>)
    requires Invariant(d, h)
    ensures forall x :: x in d.mem ==> x.key.seqno <= d.lastSequence
  {
    assert forall x :: x in d.mem ==> x in Run(d.mem) && x in Stored(d);
  }

  lemma SnapshotsBelow(d: Db, h: set<Entry>)
    requires Invariant(d, h)
    ensures forall n :: n in d.snapshots ==> n <= d.lastSequence
  {
  }

  lemma StateTables(d: Db, h: set<Entry>, c: Compaction)
    requires Invariant(d, h) && WellChosen(d.version, c)
    ensures TablesOk(d.version, d.nextFileNumber) && Versions.Valid(d.version) && ValidLevels(d.version)
    ensures SmallestSnapshot(d) < MAX_SEQUENCE && c.level + 1 < NUM_LEVELS
  {
  }

  lemma MergedInputSorted(c: Compaction, input: seq<Entry>)
    requires IsMergedInput(c, input)
    ensures Sorted(input)
  {
  }

  lemma CompactionSteps(d: Db, c: Compaction, input: seq<Entry>, outputs: seq<File>, v: Version)
    requires d.imm.None? && WellChosen(d.version, c) && IsMergedInput(c, input)
    requires Concat(outputs) == Kept(d.version, c.level, input, |input|, SmallestSnapshot(d))
    requires OutputsNumbered(outputs, d.nextFileNumber) && Rewritten(d.version, c, outputs, v)
    ensures TakeStep(d, Compact(c, outputs), d.(version := v, nextFileNumber := d.nextFileNumber + |outputs|))
  {
  }

  lemma BoundedInVersion(d: Db, h: set<Entry>)
    requires Invariant(d, h)
    ensures InputSelection.BoundedSeqnos(d.version)
  {
    forall l, f | 0 <= l < NUM_LEVELS && f in d.version[l] ensures f.largest.seqno <= MAX_SEQUENCE {
      EndsAreEntries(f);
      var e :| e in f.entries && e.key == f.largest;
      assert e in FileEntries(f) && e in LevelEntries(d.version[l]) && e in VersionEntries(d.version);
      assert e in Stored(d) && e in h;
    }
  }

  lemma MoveIsFresh(v: Version, c: Compaction)
    requires GloballyDistinct(v) && WellChosen(v, c) && |c.inputs0| == 1
    ensures forall f, g :: f in c.inputs0 && g in v[c.level + 1] ==> f.number != g.number
  {
  }

  lemma OutputsAreFresh(v: Version, c: Compaction, outputs: seq<File>, next: nat)
    requires NumbersBelow(v, next) && OutputsNumbered(outputs, next) && c.level + 1 < NUM_LEVELS
    ensures DistinctNumbers(outputs)
    ensures forall f, g :: f in outputs && g in v[c.level + 1] ==> f.number != g.number
  {
    OutputNumbers(outputs, next);
  }
}
