/** The database as a state machine: memtables, a version, snapshots, and the steps that writers and
    the background thread take (db/db_impl.cc).  The specification is the history of all writes. */
module Engine {
  import opened Keys
  import opened Reads
  import opened Versions
  import opened VersionBuilder
  import opened CompactionInputs
  import opened CompactionWork
  import opened CompactionMeaning
  import opened VersionSteps
  import Lookup

  datatype Db = Db(mem: seq<Entry>, imm: Option<seq<Entry>>, version: Version,
                   snapshots: seq<nat>, lastSequence: nat, nextFileNumber: nat)

  const EMPTY_DB := Db([], None, EMPTY_VERSION, [], 0, 2)

  datatype Update = Update(typ: ValueType, ukey: UserKey, value: Bytes)

  datatype Step =
    | Write(batch: seq<Update>)
    | SwitchMemTable
    | Flush(level: nat, size: nat)
    | Compact(c: Compaction, outputs: seq<File>)
    | Move(c: Compaction)
    | TakeSnapshot
    | ReleaseSnapshot(index: nat)

  function ImmRun(d: Db): seq<Entry> {
    if d.imm.Some? then d.imm.value else []
  }

  ghost function InMemory(d: Db): set<Entry> {
    Run(d.mem) + Run(ImmRun(d))
  }

  ghost function Stored(d: Db): set<Entry> {
    InMemory(d) + VersionEntries(d.version)
  }

  /** The oldest sequence number that any reader may still use. */
  function SmallestSnapshot(d: Db): nat {
    if d.snapshots == [] then d.lastSequence else d.snapshots[0]
  }

  // ---------------------------------------------------------------- the steps

  /** A batch takes consecutive sequence numbers. */
  function BatchEntries(batch: seq<Update>, first: nat): seq<Entry> {
    seq(|batch|, i requires 0 <= i < |batch| => Entry(IKey(batch[i].ukey, first + i, batch[i].typ), batch[i].value))
  }

  function InsertAll(es: seq<Entry>, added: seq<Entry>): seq<Entry> {
    if added == [] then es else Insert(InsertAll(es, added[..|added| - 1]), added[|added| - 1])
  }

  ghost predicate WriteStep(d: Db, batch: seq<Update>, d': Db) {
    && d.lastSequence + |batch| < MAX_SEQUENCE
    && d' == d.(mem := InsertAll(d.mem, BatchEntries(batch, d.lastSequence + 1)),
                lastSequence := d.lastSequence + |batch|)
  }

  /** The new memtable gets a new log file, so a file number is used. */
  ghost predicate SwitchStep(d: Db, d': Db) {
    d.imm.None? && d' == d.(mem := [], imm := Some(d.mem), nextFileNumber := d.nextFileNumber + 1)
  }

  ghost predicate FlushStep(d: Db, level: nat, size: nat, d': Db) {
    && d.imm.Some?
    && d' == d.(imm := None, version := d'.version, nextFileNumber := d.nextFileNumber + 1)
    && if d.imm.value == [] then d'.version == d.version
       else
         var f := NewFile(d.nextFileNumber, size, d.imm.value);
         MayFlushTo(d.version, level, f) && Flushed(d.version, level, f, d'.version)
  }

  /** The outputs hold what the compaction loop keeps of the merged inputs. */
  ghost predicate HoldKept(v: Version, c: Compaction, s: nat, outputs: seq<File>)
    requires c.level + 1 < NUM_LEVELS
  {
    exists input :: IsMergedInput(c, input) && Concat(outputs) == Kept(v, c.level, input, |input|, s)
  }

  ghost predicate CompactStep(d: Db, c: Compaction, outputs: seq<File>, d': Db) {
    && d.imm.None? && WellChosen(d.version, c)
    && HoldKept(d.version, c, SmallestSnapshot(d), outputs)
    && OutputsNumbered(outputs, d.nextFileNumber)
    && Rewritten(d.version, c, outputs, d'.version)
    && d' == d.(version := d'.version, nextFileNumber := d.nextFileNumber + |outputs|)
  }

  ghost predicate MoveStep(d: Db, c: Compaction, d': Db) {
    && d.imm.None? && WellChosen(d.version, c) && |c.inputs0| == 1 && c.inputs1 == []
    && Rewritten(d.version, c, c.inputs0, d'.version)
    && d' == d.(version := d'.version)
  }

  ghost predicate TakeStep(d: Db, step: Step, d': Db) {
    match step
    case Write(batch) => WriteStep(d, batch, d')
    case SwitchMemTable => SwitchStep(d, d')
    case Flush(level, size) => FlushStep(d, level, size, d')
    case Compact(c, outputs) => CompactStep(d, c, outputs, d')
    case Move(c) => MoveStep(d, c, d')
    case TakeSnapshot => d' == d.(snapshots := d.snapshots + [d.lastSequence])
    case ReleaseSnapshot(i) => i < |d.snapshots| && d' == d.(snapshots := d.snapshots[..i] + d.snapshots[i + 1..])
  }

  /** The history grows by what is written and by nothing else. */
  ghost function HistoryAfter(d: Db, h: set<Entry>, step: Step): set<Entry> {
    if step.Write? then h + Run(BatchEntries(step.batch, d.lastSequence + 1)) else h
  }

  // ---------------------------------------------------------------- the invariants

  ghost predicate SnapshotsOrdered(d: Db) {
    && (forall i, j :: 0 <= i < j < |d.snapshots| ==> d.snapshots[i] <= d.snapshots[j])
    && (forall i :: 0 <= i < |d.snapshots| ==> d.snapshots[i] <= d.lastSequence)
  }

  ghost predicate TablesOk(v: Version, next: nat) {
    Versions.Valid(v) && SortedVersion(v) && NumbersBelow(v, next) && GloballyDistinct(v)
  }

  ghost predicate Layered(mem: set<Entry>, imm: set<Entry>, tables: set<Entry>) {
    NewerThan(mem, imm) && NewerThan(mem + imm, tables)
  }

  ghost predicate Recorded(stored: set<Entry>, h: set<Entry>, last: nat) {
    stored <= h && DistinctSeqnos(h) && forall e :: e in h ==> e.key.seqno <= last
  }

  /** Holds in every reachable state. */
  ghost predicate Invariant(d: Db, h: set<Entry>) {
    && Sorted(d.mem) && Sorted(ImmRun(d))
    && TablesOk(d.version, d.nextFileNumber)
    && Layered(Run(d.mem), Run(ImmRun(d)), VersionEntries(d.version))
    && Recorded(Stored(d), h, d.lastSequence)
    && d.lastSequence < MAX_SEQUENCE
    && SnapshotsOrdered(d)
  }

  /** What is stored reads like the history at every sequence number a reader may use. */
  ghost predicate ReadsAgree(d: Db, h: set<Entry>) {
    forall k, s :: SmallestSnapshot(d) <= s ==> Read(Stored(d), k, s) == Read(h, k, s)
  }

  /** A compaction brings k back: the tables uncover it, and no memtable hides it. */
  ghost predicate Revives(d: Db, c: Compaction, k: UserKey)
    requires c.level + 1 < NUM_LEVELS
  {
    Uncovers(d.version, c, SmallestSnapshot(d), k) && NothingVisible(InMemory(d), k, SmallestSnapshot(d))
  }

  /** What goes wrong, if anything does, goes wrong in a compaction. */
  ghost predicate RevivesNothing(d: Db, step: Step) {
    step.Compact? && step.c.level + 1 < NUM_LEVELS ==> forall k :: !Revives(d, step.c, k)
  }

  // ---------------------------------------------------------------- writes

  lemma {:induction false} InsertAllSorted(es: seq<Entry>, added: seq<Entry>, bound: nat)
    requires Sorted(es) && forall x :: x in es ==> x.key.seqno <= bound
    requires forall i :: 0 <= i < |added| ==> added[i].key.seqno == bound + 1 + i
    ensures Sorted(InsertAll(es, added))
    ensures forall x :: x in InsertAll(es, added) <==> x in es || x in added
  {
    if added != [] {
      var n := |added| - 1;
      InsertAllSorted(es, added[..n], bound);
      forall x | x in InsertAll(es, added[..n]) ensures x.key.seqno < added[n].key.seqno {
        if x in added[..n] {
          var i :| 0 <= i < n && added[i] == x;
        }
      }
      InsertSorted(InsertAll(es, added[..n]), added[n]);
      assert added == added[..n] + [added[n]];
    }
  }

  lemma BatchIsNewest(batch: seq<Update>, first: nat, older: set<Entry>)
    requires forall e :: e in older ==> e.key.seqno < first
    requires DistinctSeqnos(older)
    ensures forall e :: e in Run(BatchEntries(batch, first)) ==> first <= e.key.seqno < first + |batch|
    ensures NewerThan(Run(BatchEntries(batch, first)), older)
    ensures DistinctSeqnos(Run(BatchEntries(batch, first)) + older)
  {
    var added := BatchEntries(batch, first);
    forall e | e in Run(added) ensures first <= e.key.seqno < first + |batch| {
      var i :| 0 <= i < |added| && added[i] == e;
    }
    forall a, b | a in Run(added) && b in Run(added) && a.key.seqno == b.key.seqno ensures a == b {
      var i :| 0 <= i < |added| && added[i] == a;
      var j :| 0 <= j < |added| && added[j] == b;
    }
    UnionDistinct(Run(added), older);
  }

  lemma UnionDistinct(newer: set<Entry>, older: set<Entry>)
    requires NewerThan(newer, older) && DistinctSeqnos(newer) && DistinctSeqnos(older)
    ensures DistinctSeqnos(newer + older)
  {
  }

  lemma LayerOnTop(added: set<Entry>, mem: set<Entry>, imm: set<Entry>, tables: set<Entry>, h: set<Entry>)
    requires Layered(mem, imm, tables) && NewerThan(added, h) && mem + imm + tables <= h
    ensures Layered(mem + added, imm, tables)
  {
  }

  lemma WriteStores(d: Db, h: set<Entry>, batch: seq<Update>, d': Db)
    requires Sorted(d.mem) && Recorded(Stored(d), h, d.lastSequence) && WriteStep(d, batch, d')
    ensures Sorted(d'.mem) && Run(d'.mem) == Run(d.mem) + Run(BatchEntries(batch, d.lastSequence + 1))
    ensures ImmRun(d') == ImmRun(d)
    ensures Stored(d') == Stored(d) + Run(BatchEntries(batch, d.lastSequence + 1))
  {
    var added := BatchEntries(batch, d.lastSequence + 1);
    assert forall x :: x in d.mem ==> x in Stored(d);
    InsertAllSorted(d.mem, added, d.lastSequence);
  }

  lemma WriteKeepsInvariant(d: Db, h: set<Entry>, batch: seq<Update>, d': Db)
    requires Invariant(d, h) && WriteStep(d, batch, d')
    ensures Invariant(d', h + Run(BatchEntries(batch, d.lastSequence + 1)))
  {
    WriteStores(d, h, batch, d');
    WriteRecords(d, h, batch);
    LayerOnTop(Run(BatchEntries(batch, d.lastSequence + 1)), Run(d.mem), Run(ImmRun(d)), VersionEntries(d.version), h);
    assert SnapshotsOrdered(d');
  }

  lemma WriteRecords(d: Db, h: set<Entry>, batch: seq<Update>)
    requires Recorded(Stored(d), h, d.lastSequence)
    ensures NewerThan(Run(BatchEntries(batch, d.lastSequence + 1)), h)
    ensures DistinctSeqnos(h + Run(BatchEntries(batch, d.lastSequence + 1)))
    ensures Recorded(Stored(d) + Run(BatchEntries(batch, d.lastSequence + 1)),
                     h + Run(BatchEntries(batch, d.lastSequence + 1)), d.lastSequence + |batch|)
  {
    BatchIsNewest(batch, d.lastSequence + 1, h);
    var added := Run(BatchEntries(batch, d.lastSequence + 1));
    assert h + added == added + h;
  }

  lemma WriteKeepsReads(d: Db, h: set<Entry>, batch: seq<Update>, d': Db)
    requires Sorted(d.mem) && Recorded(Stored(d), h, d.lastSequence) && SnapshotsOrdered(d)
    requires WriteStep(d, batch, d') && ReadsAgree(d, h)
    ensures ReadsAgree(d', h + Run(BatchEntries(batch, d.lastSequence + 1)))
  {
    var added := Run(BatchEntries(batch, d.lastSequence + 1));
    var stored := Stored(d);
    assert Stored(d') == stored + added by { WriteStores(d, h, batch, d'); }
    assert NewerThan(added, h) && DistinctSeqnos(h + added) by { WriteRecords(d, h, batch); }
    var low := SmallestSnapshot(d);
    assert low <= SmallestSnapshot(d');
    AddNewestEverywhere(added, stored, h, low);
    ReadsAgreeFrom(d', h + added, stored + added, low);
  }

  lemma ReadsAgreeFrom(d: Db, h: set<Entry>, stored: set<Entry>, low: nat)
    requires Stored(d) == stored && low <= SmallestSnapshot(d)
    requires forall k, s :: low <= s ==> Read(stored, k, s) == Read(h, k, s)
    ensures ReadsAgree(d, h)
  {
  }

  lemma AddNewestEverywhere(added: set<Entry>, stored: set<Entry>, h: set<Entry>, low: nat)
    requires stored <= h && DistinctSeqnos(h + added) && NewerThan(added, h)
    requires forall k, s :: low <= s ==> Read(stored, k, s) == Read(h, k, s)
    ensures forall k, s :: low <= s ==> Read(stored + added, k, s) == Read(h + added, k, s)
  {
    forall k, s | low <= s ensures Read(stored + added, k, s) == Read(h + added, k, s) {
      AddNewest(added, stored, h, k, s);
    }
  }

  lemma AddNewest(added: set<Entry>, stored: set<Entry>, h: set<Entry>, k: UserKey, s: nat)
    requires stored <= h && DistinctSeqnos(h + added) && NewerThan(added, h)
    requires Read(stored, k, s) == Read(h, k, s)
    ensures Read(stored + added, k, s) == Read(h + added, k, s)
  {
    assert stored + added == added + stored && h + added == added + h;
    ReadUnion(added, stored, k, s);
    ReadUnion(added, h, k, s);
  }

  // ---------------------------------------------------------------- memtable switch and flush

  lemma SwitchKeepsInvariant(d: Db, h: set<Entry>, d': Db)
    requires Invariant(d, h) && SwitchStep(d, d')
    ensures Invariant(d', h) && Stored(d') == Stored(d)
  {
    assert Run([]) == {};
    assert InMemory(d') == InMemory(d);
  }

  lemma NewFileWellFormed(number: nat, size: nat, es: seq<Entry>)
    requires Sorted(es) && es != []
    ensures WellFormed(NewFile(number, size, es)) && FileEntries(NewFile(number, size, es)) == Run(es)
  {
  }

  lemma FlushKeepsNumbers(v: Version, level: nat, f: File, v': Version, next: nat)
    requires Flushed(v, level, f, v') && NumbersBelow(v, next) && GloballyDistinct(v) && f.number == next
    ensures NumbersBelow(v', next + 1) && GloballyDistinct(v')
  {
  }

  lemma FlushKeepsTables(v: Version, level: nat, f: File, v': Version, next: nat)
    requires TablesOk(v, next) && WellFormed(f) && MayFlushTo(v, level, f) && Flushed(v, level, f, v')
    requires NewerThan(FileEntries(f), VersionEntries(v)) && DistinctSeqnos(VersionEntries(v) + FileEntries(f))
    requires f.number == next
    ensures TablesOk(v', next + 1)
  {
    FlushKeepsValid(v, level, f, v');
    FlushKeepsNumbers(v, level, f, v', next);
  }

  lemma FlushKeepsInvariant(d: Db, h: set<Entry>, level: nat, size: nat, d': Db)
    requires Invariant(d, h) && FlushStep(d, level, size, d')
    ensures Invariant(d', h) && Stored(d') == Stored(d)
  {
    if d.imm.value == [] {
      FlushNothing(d, d');
      assert TablesOk(d.version, d.nextFileNumber + 1);
    } else {
      FlushFile(d, h, level, size, d');
    }
  }

  lemma FlushNothing(d: Db, d': Db)
    requires d.imm == Some([]) && d'.imm == None && d'.mem == d.mem && d'.version == d.version
    ensures Run(ImmRun(d')) == Run(ImmRun(d)) == {} && Stored(d') == Stored(d)
  {
    hide VersionEntries;
    assert Run([]) == {};
  }

  lemma FlushFile(d: Db, h: set<Entry>, level: nat, size: nat, d': Db)
    requires Invariant(d, h) && FlushStep(d, level, size, d') && d.imm.value != []
    ensures Invariant(d', h) && Stored(d') == Stored(d)
  {
    hide TablesOk, NewerThan, MayFlushTo, Flushed, VersionEntries, DistinctSeqnos, Recorded, Layered;
    var f, mem, imm, tables := NewFile(d.nextFileNumber, size, d.imm.value), Run(d.mem), Run(d.imm.value), VersionEntries(d.version);
    NewFileWellFormed(d.nextFileNumber, size, d.imm.value);
    RecordedParts(mem, imm, tables, h, d.lastSequence);
    LayerDown(mem, imm, tables);
    assert Layered(mem, imm, tables) && MayFlushTo(d.version, level, f);
    FlushKeepsTables(d.version, level, f, d'.version, d.nextFileNumber);
    MayFlushLevel(d.version, level, f);
    FlushedEntries(d.version, level, f, d'.version);
    FlushedState(d, d', imm);
  }

  lemma MayFlushLevel(v: Version, level: nat, f: File)
    requires MayFlushTo(v, level, f)
    ensures level < NUM_LEVELS
  {
  }

  lemma RecordedParts(mem: set<Entry>, imm: set<Entry>, tables: set<Entry>, h: set<Entry>, last: nat)
    requires Recorded(mem + imm + tables, h, last)
    ensures DistinctSeqnos(tables + imm)
  {
  }

  lemma FlushedState(d: Db, d': Db, imm: set<Entry>)
    requires d.imm.Some? && imm == Run(d.imm.value) && d'.imm == None && d'.mem == d.mem
    requires VersionEntries(d'.version) == VersionEntries(d.version) + imm
    ensures ImmRun(d') == [] && Run(ImmRun(d')) == {} && Stored(d') == Stored(d)
  {
    hide VersionEntries;
    assert Run([]) == {};
  }

  lemma LayerDown(mem: set<Entry>, imm: set<Entry>, tables: set<Entry>)
    requires Layered(mem, imm, tables)
    ensures NewerThan(imm, tables) && Layered(mem, {}, tables + imm)
  {
  }

  // ---------------------------------------------------------------- compaction and move

  lemma RewriteKeepsNumbers(v: Version, c: Compaction, outputs: seq<File>, v': Version, next: nat, next': nat)
    requires c.level + 1 < NUM_LEVELS
    requires Rewritten(v, c, outputs, v') && NumbersBelow(v, next) && GloballyDistinct(v) && next <= next'
    requires forall f :: f in outputs ==> f.number < next'
    // An output has a new number, or it is the moved file.
    requires forall f :: f in outputs ==> f.number >= next || (f in c.inputs0 && f in v[c.level])
    requires Injective(outputs)
    ensures NumbersBelow(v', next') && GloballyDistinct(v')
  {
    forall a, b, f, g | 0 <= a < NUM_LEVELS && 0 <= b < NUM_LEVELS && f in v'[a] && g in v'[b] && f.number == g.number
      ensures a == b && f == g
    {
      RewrittenFileOrigin(v, c, outputs, v', a, f);
      RewrittenFileOrigin(v, c, outputs, v', b, g);
    }
    forall a, f | 0 <= a < NUM_LEVELS && f in v'[a] ensures f.number < next' {
      RewrittenFileOrigin(v, c, outputs, v', a, f);
    }
  }

  lemma RewrittenFileOrigin(v: Version, c: Compaction, outputs: seq<File>, v': Version, l: nat, f: File)
    requires Rewritten(v, c, outputs, v') && l < NUM_LEVELS && f in v'[l]
    ensures (f in v[l] && Stays(c, l, f)) || (l == c.level + 1 && f in outputs)
  {
    assert RewrittenLevel(v[l], c, l, outputs, v'[l]);
  }

  lemma CompactOutputsAreGood(d: Db, c: Compaction, outputs: seq<File>, d': Db)
    requires DistinctSeqnos(VersionEntries(d.version)) && CompactStep(d, c, outputs, d')
    ensures GoodOutputs(c, outputs)
    ensures KeptExactly(d.version, c, SmallestSnapshot(d), LevelEntries(outputs))
  {
    var s := SmallestSnapshot(d);
    var input :| IsMergedInput(c, input) && Concat(outputs) == Kept(d.version, c.level, input, |input|, s);
    KeptSorted(d.version, c.level, input, |input|, s);
    OutputsPartition(outputs);
    InputsAreInVersion(d.version, c);
    assert DistinctSeqnos(InputEntries(c));
    LoopKeepsExactly(d.version, c, input, s, LevelEntries(outputs));
    DisjointIsPairwiseApart(outputs);
  }

  lemma OutputNumbers(outputs: seq<File>, first: nat)
    requires OutputsNumbered(outputs, first)
    ensures forall f :: f in outputs ==> first <= f.number < first + |outputs|
    ensures Injective(outputs)
  {
    forall f, g | f in outputs && g in outputs && f.number == g.number ensures f == g {
      var i :| 0 <= i < |outputs| && outputs[i] == f;
      var j :| 0 <= j < |outputs| && outputs[j] == g;
    }
  }

  lemma RewriteKeepsTables(v: Version, c: Compaction, outputs: seq<File>, v': Version, next: nat, next': nat)
    requires TablesOk(v, next) && WellChosen(v, c) && GoodOutputs(c, outputs) && Rewritten(v, c, outputs, v')
    requires NumbersBelow(v', next') && GloballyDistinct(v')
    ensures TablesOk(v', next')
    ensures VersionEntries(v') == After(v, c, LevelEntries(outputs)) <= VersionEntries(v)
  {
    RewriteKeepsValid(v, c, outputs, v');
    RewrittenEntries(v, c, outputs, v');
    InputsAreInVersion(v, c);
  }

  lemma TablesShrink(mem: set<Entry>, imm: set<Entry>, tables: set<Entry>, tables': set<Entry>, h: set<Entry>, last: nat)
    requires Layered(mem, imm, tables) && Recorded(mem + imm + tables, h, last) && tables' <= tables
    ensures Layered(mem, imm, tables') && Recorded(mem + imm + tables', h, last)
  {
  }

  lemma CompactKeepsTables(d: Db, c: Compaction, outputs: seq<File>, d': Db)
    requires TablesOk(d.version, d.nextFileNumber) && CompactStep(d, c, outputs, d')
    ensures TablesOk(d'.version, d'.nextFileNumber)
    ensures VersionEntries(d'.version) == After(d.version, c, LevelEntries(outputs)) <= VersionEntries(d.version)
    ensures KeptExactly(d.version, c, SmallestSnapshot(d), LevelEntries(outputs))
  {
    CompactOutputsAreGood(d, c, outputs, d');
    OutputNumbers(outputs, d.nextFileNumber);
    RewriteKeepsNumbers(d.version, c, outputs, d'.version, d.nextFileNumber, d'.nextFileNumber);
    RewriteKeepsTables(d.version, c, outputs, d'.version, d.nextFileNumber, d'.nextFileNumber);
  }

  lemma CompactKeepsInvariant(d: Db, h: set<Entry>, c: Compaction, outputs: seq<File>, d': Db)
    requires Invariant(d, h) && CompactStep(d, c, outputs, d')
    ensures Invariant(d', h)
  {
    hide TablesOk, VersionEntries, Rewritten, HoldKept;
    CompactKeepsTables(d, c, outputs, d');
    TablesShrink(Run(d.mem), Run(ImmRun(d)), VersionEntries(d.version), VersionEntries(d'.version), h, d.lastSequence);
  }

  /** A compaction keeps all reads that are still possible exactly if it revives nothing. */
  lemma CompactKeepsReads(d: Db, h: set<Entry>, c: Compaction, outputs: seq<File>, d': Db)
    requires Invariant(d, h) && CompactStep(d, c, outputs, d') && ReadsAgree(d, h)
    ensures ReadsAgree(d', h) <==> forall k :: !Revives(d, c, k)
  {
    AroundCompaction(d, h, c, outputs, d');
    hide *;
    var low := SmallestSnapshot(d);
    if k :| Revives(d, c, k) {
      KeyAfterCompaction(d, c, LevelEntries(outputs), k);
      AgreesAt(d, h, k, low);
      if ReadsAgree(d', h) { AgreesAt(d', h, k, low); }
    } else {
      forall k, s | low <= s ensures Read(Stored(d'), k, s) == Read(h, k, s) {
        KeyAfterCompaction(d, c, LevelEntries(outputs), k);
        AgreesAt(d, h, k, s);
      }
      AgreesEverywhere(d', h);
    }
  }

  lemma AgreesAt(d: Db, h: set<Entry>, k: UserKey, s: nat)
    requires ReadsAgree(d, h) && SmallestSnapshot(d) <= s
    ensures Read(Stored(d), k, s) == Read(h, k, s)
  {
    hide Read;
  }

  lemma AgreesEverywhere(d: Db, h: set<Entry>)
    requires forall k, s :: SmallestSnapshot(d) <= s ==> Read(Stored(d), k, s) == Read(h, k, s)
    ensures ReadsAgree(d, h)
  {
    hide Read;
  }

  lemma AroundCompaction(d: Db, h: set<Entry>, c: Compaction, outputs: seq<File>, d': Db)
    requires Invariant(d, h) && CompactStep(d, c, outputs, d')
    ensures Versions.Valid(d.version) && WellChosen(d.version, c) && c.level + 1 < NUM_LEVELS
    ensures KeptExactly(d.version, c, SmallestSnapshot(d), LevelEntries(outputs))
    ensures NewerThan(InMemory(d), VersionEntries(d.version)) && DistinctSeqnos(InMemory(d) + VersionEntries(d.version))
    ensures SmallestSnapshot(d') == SmallestSnapshot(d)
    ensures Stored(d') == InMemory(d) + CompactionMeaning.After(d.version, c, LevelEntries(outputs))
  {
    hide VersionEntries, Rewritten, HoldKept, KeptExactly, CompactionMeaning.After, NewerThan, DistinctSeqnos, Versions.Valid, LevelEntries;
    CompactKeepsTables(d, c, outputs, d');
    MemoryIsNewer(d, h);
    assert InMemory(d') == InMemory(d);
  }

  lemma MemoryIsNewer(d: Db, h: set<Entry>)
    requires Invariant(d, h)
    ensures Versions.Valid(d.version)
    ensures NewerThan(InMemory(d), VersionEntries(d.version)) && DistinctSeqnos(InMemory(d) + VersionEntries(d.version))
  {
    assert DistinctSeqnos(Stored(d));
  }

  /** What one user key reads like after a compaction, under memtables that are newer than all tables. */
  lemma KeyAfterCompaction(d: Db, c: Compaction, kept: set<Entry>, k: UserKey)
    requires Versions.Valid(d.version) && WellChosen(d.version, c) && KeptExactly(d.version, c, SmallestSnapshot(d), kept)
    requires NewerThan(InMemory(d), VersionEntries(d.version)) && DistinctSeqnos(InMemory(d) + VersionEntries(d.version))
    ensures var before, after, low := Stored(d), InMemory(d) + CompactionMeaning.After(d.version, c, kept), SmallestSnapshot(d);
            && (Revives(d, c, k) ==> Read(after, k, low) != Read(before, k, low))
            && (!Revives(d, c, k) ==> forall s :: low <= s ==> Read(after, k, s) == Read(before, k, s))
  {
    assert c.level + 1 < NUM_LEVELS;
    hide Read, Versions.Valid, WellChosen, KeptExactly, Uncovers, VersionEntries, CompactionMeaning.After, NewerThan, DistinctSeqnos, NothingVisible;
    var low := SmallestSnapshot(d);
    var before, after := VersionEntries(d.version), CompactionMeaning.After(d.version, c, kept);
    AfterIsSubset(d.version, c, low, kept);
    CompactionPreservesReads(d.version, c, low, kept, k);
    if Uncovers(d.version, c, low, k) {
      UncoveredIsRead(d.version, c, low, kept, k);
      UnderMemory(InMemory(d), before, after, k, low, low);
    } else {
      forall s | low <= s ensures Read(InMemory(d) + after, k, s) == Read(InMemory(d) + before, k, s) {
        UnderMemory(InMemory(d), before, after, k, low, s);
      }
    }
    if !NothingVisible(InMemory(d), k, low) {
      forall s | low <= s ensures Read(InMemory(d) + after, k, s) == Read(InMemory(d) + before, k, s) {
        UnderMemory(InMemory(d), before, after, k, low, s);
      }
    }
  }

  lemma UnderMemory(mem: set<Entry>, before: set<Entry>, after: set<Entry>, k: UserKey, low: nat, s: nat)
    requires NewerThan(mem, before) && DistinctSeqnos(mem + before) && after <= before && low <= s
    ensures NothingVisible(mem, k, s) ==> Read(mem + after, k, s) == Read(after, k, s) && Read(mem + before, k, s) == Read(before, k, s)
    ensures !NothingVisible(mem, k, s) ==> Read(mem + after, k, s) == Read(mem + before, k, s)
    ensures !NothingVisible(mem, k, low) ==> !NothingVisible(mem, k, s)
  {
    hide Read;
    ReadUnion(mem, before, k, s);
    ReadUnion(mem, after, k, s);
  }

  lemma AfterIsSubset(v: Version, c: Compaction, low: nat, kept: set<Entry>)
    requires WellChosen(v, c) && KeptExactly(v, c, low, kept)
    ensures After(v, c, kept) <= VersionEntries(v)
  {
    InputsAreInVersion(v, c);
  }

  lemma MoveKeepsInvariant(d: Db, h: set<Entry>, c: Compaction, d': Db)
    requires Invariant(d, h) && MoveStep(d, c, d')
    ensures Invariant(d', h) && Stored(d') == Stored(d)
  {
    MoveKeepsTables(d.version, c, d'.version, d.nextFileNumber);
  }

  lemma MoveKeepsTables(v: Version, c: Compaction, v': Version, next: nat)
    requires TablesOk(v, next) && WellChosen(v, c) && |c.inputs0| == 1 && c.inputs1 == []
    requires Rewritten(v, c, c.inputs0, v')
    ensures TablesOk(v', next) && VersionEntries(v') == VersionEntries(v)
  {
    MovedFileIsGood(v, c);
    RewriteKeepsNumbers(v, c, c.inputs0, v', next, next);
    RewriteKeepsTables(v, c, c.inputs0, v', next, next);
    InputsAreInVersion(v, c);
  }

  lemma MovedFileIsGood(v: Version, c: Compaction)
    requires ValidLevels(v) && WellChosen(v, c) && |c.inputs0| == 1 && c.inputs1 == []
    ensures GoodOutputs(c, c.inputs0) && Injective(c.inputs0)
    ensures InputEntries(c) == LevelEntries(c.inputs0)
  {
    var f := c.inputs0[0];
    assert c.inputs0 == [f] && f in c.inputs0 && WellFormed(f);
  }

  // ---------------------------------------------------------------- runs

  lemma SnapshotStepKeeps(d: Db, h: set<Entry>, step: Step, d': Db)
    requires Invariant(d, h) && TakeStep(d, step, d') && (step.TakeSnapshot? || step.ReleaseSnapshot?)
    ensures Invariant(d', h) && Stored(d') == Stored(d) && SmallestSnapshot(d) <= SmallestSnapshot(d')
  {
    assert InMemory(d') == InMemory(d);
  }

  /** Every step keeps the invariant. */
  lemma StepKeepsInvariant(d: Db, h: set<Entry>, step: Step, d': Db)
    requires Invariant(d, h) && TakeStep(d, step, d')
    ensures Invariant(d', HistoryAfter(d, h, step))
  {
    match step
    case Write(batch) => WriteKeepsInvariant(d, h, batch, d');
    case SwitchMemTable => SwitchKeepsInvariant(d, h, d');
    case Flush(level, size) => FlushKeepsInvariant(d, h, level, size, d');
    case Compact(c, outputs) => CompactKeepsInvariant(d, h, c, outputs, d');
    case Move(c) => MoveKeepsInvariant(d, h, c, d');
    case _ => SnapshotStepKeeps(d, h, step, d');
  }

  /** A step leaves all reads that are still possible as the history has them, exactly if it is not a
      compaction that revives something. */
  lemma StepKeepsReads(d: Db, h: set<Entry>, step: Step, d': Db)
    requires Invariant(d, h) && TakeStep(d, step, d') && ReadsAgree(d, h)
    ensures ReadsAgree(d', HistoryAfter(d, h, step)) <==> RevivesNothing(d, step)
  {
    var h' := HistoryAfter(d, h, step);
    if step.Write? {
      WriteKeepsReads(d, h, step.batch, d');
      assert h' == h + Run(BatchEntries(step.batch, d.lastSequence + 1));
    } else {
      assert h' == h;
      if step.Compact? {
        CompactKeepsReads(d, h, step.c, step.outputs, d');
      } else {
        QuietStep(d, h, step, d');
        ReadsAgreeFrom(d', h, Stored(d), SmallestSnapshot(d));
      }
    }
  }

  /** The other steps store the same entries. */
  lemma QuietStep(d: Db, h: set<Entry>, step: Step, d': Db)
    requires Invariant(d, h) && TakeStep(d, step, d') && !step.Write? && !step.Compact?
    ensures Stored(d') == Stored(d) && SmallestSnapshot(d) <= SmallestSnapshot(d')
  {
    match step
    case SwitchMemTable => SwitchKeepsInvariant(d, h, d');
    case Flush(level, size) => FlushKeepsInvariant(d, h, level, size, d');
    case Move(c) => MoveKeepsInvariant(d, h, c, d');
    case _ => SnapshotStepKeeps(d, h, step, d');
  }

  /** A run from an empty database. */
  ghost predicate IsRun(ds: seq<Db>, steps: seq<Step>) {
    && |ds| == |steps| + 1 && ds[0] == EMPTY_DB
    && forall i :: 0 <= i < |steps| ==> TakeStep(ds[i], steps[i], ds[i + 1])
  }

  ghost function History(ds: seq<Db>, steps: seq<Step>, n: nat): set<Entry>
    requires IsRun(ds, steps) && n <= |steps|
  {
    if n == 0 then {} else HistoryAfter(ds[n - 1], History(ds, steps, n - 1), steps[n - 1])
  }

  lemma EmptyDbInvariant()
    ensures Invariant(EMPTY_DB, {}) && ReadsAgree(EMPTY_DB, {})
  {
    EmptyVersionEntries();
    EmptyVersionOk();
    assert Stored(EMPTY_DB) == {};
  }

  lemma EmptyVersionEntries()
    ensures forall l :: 0 <= l < NUM_LEVELS ==> EMPTY_VERSION[l] == [] && LevelEntries(EMPTY_VERSION[l]) == {}
    ensures VersionEntries(EMPTY_VERSION) == {}
  {
    assert forall l :: 0 <= l < NUM_LEVELS ==> EMPTY_VERSION[l] == [];
    assert LevelEntries([]) == {};
  }

  lemma EmptyVersionOk()
    ensures TablesOk(EMPTY_VERSION, 2)
  {
    EmptyVersionEntries();
  }

  /** The invariants hold after every step of every run. */
  lemma {:induction false} RunKeepsInvariant(ds: seq<Db>, steps: seq<Step>, n: nat)
    requires IsRun(ds, steps) && n <= |steps|
    ensures Invariant(ds[n], History(ds, steps, n))
  {
    hide TakeStep, Invariant;
    if n == 0 {
      EmptyDbInvariant();
    } else {
      RunKeepsInvariant(ds, steps, n - 1);
      StepKeepsInvariant(ds[n - 1], History(ds, steps, n - 1), steps[n - 1], ds[n - 1 + 1]);
    }
  }

  /** Reads agree with the history after every step of a run so far: every read that is still possible,
      at a live snapshot or at the last sequence number, is the read of the history of writes. */
  ghost predicate AlwaysAgrees(ds: seq<Db>, steps: seq<Step>, n: nat)
    requires IsRun(ds, steps) && n <= |steps|
  {
    forall i :: 0 <= i <= n ==> ReadsAgree(ds[i], History(ds, steps, i))
  }

  /** They do so exactly if no compaction of the run has revived anything. */
  lemma {:induction false} RunKeepsReads(ds: seq<Db>, steps: seq<Step>, n: nat)
    requires IsRun(ds, steps) && n <= |steps|
    ensures AlwaysAgrees(ds, steps, n) <==> forall i :: 0 <= i < n ==> RevivesNothing(ds[i], steps[i])
  {
    hide ReadsAgree, RevivesNothing, TakeStep;
    if n == 0 {
      EmptyDbInvariant();
    } else {
      RunKeepsReads(ds, steps, n - 1);
      if AlwaysAgrees(ds, steps, n - 1) {
        RunKeepsInvariant(ds, steps, n - 1);
        StepKeepsReads(ds[n - 1], History(ds, steps, n - 1), steps[n - 1], ds[n - 1 + 1]);
      }
      assert AlwaysAgrees(ds, steps, n) <==> AlwaysAgrees(ds, steps, n - 1) && ReadsAgree(ds[n], History(ds, steps, n));
    }
  }

  // ---------------------------------------------------------------- point lookup

  /** MemTable::Get: one seek, as in a table. */
  function MemTableGet(es: seq<Entry>, k: UserKey, s: nat): Lookup.SaverState {
    var i := LowerBound(es, LookupKey(k, s));
    if i < |es| && es[i].key.ukey == k then Lookup.StateOf(es[i]) else Lookup.NotFound
  }

  lemma MemTableGetIsExact(es: seq<Entry>, k: UserKey, s: nat)
    requires Sorted(es) && DistinctSeqnos(Run(es))
    ensures MemTableGet(es, k, s) == Lookup.NotFound ==> NothingVisible(Run(es), k, s)
    ensures MemTableGet(es, k, s) != Lookup.NotFound ==>
              !NothingVisible(Run(es), k, s) && Read(Run(es), k, s) == ValueOfState(MemTableGet(es, k, s))
  {
    if es != [] {
      var f := NewFile(0, 0, es);
      NewFileWellFormed(0, 0, es);
      Lookup.TableGetIsExact(f, k, s);
      if MemTableGet(es, k, s) != Lookup.NotFound {
        var e :| IsNewest(Run(es), k, s, e) && MemTableGet(es, k, s) == Lookup.StateOf(e);
        ReadNewest(Run(es), k, s, e);
      }
    }
  }

  function ValueOfState(st: Lookup.SaverState): Option<Bytes> {
    if st.Found? then Some(st.value) else None
  }

  /** Memtables are newer than tables, so an early exit is final. */
  lemma LookupInLayers(d: Db, h: set<Entry>, k: UserKey, s: nat)
    requires Invariant(d, h)
    ensures MemTableGet(d.mem, k, s) != Lookup.NotFound ==>
              Read(Stored(d), k, s) == ValueOfState(MemTableGet(d.mem, k, s))
    ensures MemTableGet(d.mem, k, s) == Lookup.NotFound && MemTableGet(ImmRun(d), k, s) != Lookup.NotFound ==>
              Read(Stored(d), k, s) == ValueOfState(MemTableGet(ImmRun(d), k, s))
    ensures MemTableGet(d.mem, k, s) == Lookup.NotFound && MemTableGet(ImmRun(d), k, s) == Lookup.NotFound ==>
              Read(Stored(d), k, s) == Read(VersionEntries(d.version), k, s)
  {
    var mem, imm, tables := Run(d.mem), Run(ImmRun(d)), VersionEntries(d.version);
    assert DistinctSeqnos(mem + imm + tables);
    ReadLayers(mem, imm, tables, k, s);
    MemTableGetIsExact(d.mem, k, s);
    MemTableGetIsExact(ImmRun(d), k, s);
  }

  lemma ReadLayers(mem: set<Entry>, imm: set<Entry>, tables: set<Entry>, k: UserKey, s: nat)
    requires Layered(mem, imm, tables) && DistinctSeqnos(mem + imm + tables)
    ensures Read(mem + imm + tables, k, s) ==
              if !NothingVisible(mem, k, s) then Read(mem, k, s)
              else if !NothingVisible(imm, k, s) then Read(imm, k, s)
              else Read(tables, k, s)
  {
    ReadUnion(mem + imm, tables, k, s);
    assert DistinctSeqnos(mem + imm);
    ReadUnion(mem, imm, k, s);
  }
}
