/** The records that a database writes to its manifest: for every run over byte-string keys they exist,
    and their bytes mean the edits of the run. */
module ManifestRecords {
  import opened Keys
  import opened Reads
  import opened Coding
  import opened Versions
  import opened VersionBuilder
  import opened CompactionInputs
  import opened CompactionWork
  import opened CompactionMeaning
  import opened VersionSteps
  import opened Engine
  import opened Manifest
  import opened ManifestRuns
  import opened ManifestFile
  import opened DbImplementation
  import Bytewise
  import InternalKeys
  import VersionEdits

  // ---------------------------------------------------------------- what record bytes mean

  /** A new-file record names the file with these numbers and these two keys. */
  lemma NewFileMeans(n: nat, z: nat, u1: seq<Byte>, s1: nat, t1: ValueType, u2: seq<Byte>, s2: nat, t2: ValueType,
                     tables: nat -> seq<Entry>)
    requires s1 <= MAX_SEQUENCE && s2 <= MAX_SEQUENCE
    ensures FileOf(VersionEdits.FileMetaData(n, z, u1 + Fixed(PackSequenceAndType(s1, t1), 8), u2 + Fixed(PackSequenceAndType(s2, t2), 8)), tables)
              == File(n, z, IKey(Bytewise.Rank(u1), s1, t1), IKey(Bytewise.Rank(u2), s2, t2), tables(n))
  {
    hide Fixed, InternalKeys.KeyOf, Bytewise.Rank;
    InternalKeys.KeyOfEncoded(u1, s1, t1);
    InternalKeys.KeyOfEncoded(u2, s2, t2);
  }

  /** A record deletes the pairs it lists and adds its new files in order, each at its own level. */
  lemma RecordMeans(e: VersionEdits.VersionEdit, tables: nat -> seq<Entry>)
    ensures forall l: nat, n: nat :: (l, n) in Meaning(e, tables).deleted <==> (l, n) in e.deletedFiles
    ensures |Meaning(e, tables).added| == |e.newFiles|
    ensures forall i :: 0 <= i < |e.newFiles| ==>
              Meaning(e, tables).added[i] == (e.newFiles[i].0, FileOf(e.newFiles[i].1, tables))
  {
    hide FileOf;
    forall l: nat, n: nat ensures (l, n) in Meaning(e, tables).deleted <==> (l, n) in e.deletedFiles {
      if (l, n) in e.deletedFiles {
        var i :| 0 <= i < |e.deletedFiles| && e.deletedFiles[i] == (l, n);
      }
    }
  }

  // ---------------------------------------------------------------- sets of pairs in order

  lemma {:induction false} InsertPairSorted(ds: seq<(nat, nat)>, d: (nat, nat))
    requires VersionEdits.SortedPairs(ds)
    ensures VersionEdits.SortedPairs(VersionEdits.InsertPair(ds, d))
    ensures forall x :: x in VersionEdits.InsertPair(ds, d) <==> x in ds || x == d
  {
    if ds != [] && !VersionEdits.PairLess(ds[|ds| - 1], d) && ds[|ds| - 1] != d {
      var init, last := ds[..|ds| - 1], ds[|ds| - 1];
      InsertPairSorted(init, d);
      assert ds == init + [last];
      var r := VersionEdits.InsertPair(init, d);
      forall i | 0 <= i < |r| ensures VersionEdits.PairLess(r[i], last) {
        assert r[i] in r;
      }
    }
  }

  lemma {:induction false} SortPairs(s: set<(nat, nat)>) returns (ds: seq<(nat, nat)>)
    ensures VersionEdits.SortedPairs(ds) && forall x :: x in ds <==> x in s
    decreases |s|
  {
    if s == {} {
      ds := [];
    } else {
      var d :| d in s;
      var rest := SortPairs(s - {d});
      InsertPairSorted(rest, d);
      ds := VersionEdits.InsertPair(rest, d);
    }
  }

  // ---------------------------------------------------------------- the record of an edit

  type Text = UserKey -> seq<Byte>

  /** k is the rank of a byte string that an internal key can hold. */
  ghost predicate IsText(text: Text, k: UserKey) {
    Bytewise.Rank(text(k)) == k && |text(k)| + 8 < 0x1_0000_0000
  }

  function KeyBytes(text: Text, k: IKey): seq<Byte> {
    text(k.ukey) + Fixed(PackSequenceAndType(k.seqno, k.typ), 8)
  }

  function MetaOf(text: Text, f: File): VersionEdits.FileMetaData {
    VersionEdits.FileMetaData(f.number, f.size, KeyBytes(text, f.smallest), KeyBytes(text, f.largest))
  }

  ghost predicate FileFits(f: File, text: Text, tables: nat -> seq<Entry>) {
    && Fits64(f.number) && Fits64(f.size) && tables(f.number) == f.entries
    && IsText(text, f.smallest.ukey) && f.smallest.seqno <= MAX_SEQUENCE
    && IsText(text, f.largest.ukey) && f.largest.seqno <= MAX_SEQUENCE
  }

  ghost predicate EditIsWritable(e: Edit, text: Text, tables: nat -> seq<Entry>) {
    && (forall p :: p in e.deleted ==> p.0 < NUM_LEVELS && Fits64(p.1))
    && (forall i :: 0 <= i < |e.added| ==> e.added[i].0 < NUM_LEVELS && FileFits(e.added[i].1, text, tables))
  }

  lemma MetaMeansFile(f: File, text: Text, tables: nat -> seq<Entry>)
    requires FileFits(f, text, tables)
    ensures FileOf(MetaOf(text, f), tables) == f
    ensures VersionEdits.Short(KeyBytes(text, f.smallest)) && VersionEdits.Short(KeyBytes(text, f.largest))
  {
    hide Fixed, FileOf, Bytewise.Rank;
    var a, b := f.smallest, f.largest;
    NewFileMeans(f.number, f.size, text(a.ukey), a.seqno, a.typ, text(b.ukey), b.seqno, b.typ, tables);
  }

  /** The fields that VersionEdit::EncodeTo writes for an edit. */
  lemma RecordOf(e: Edit, text: Text, tables: nat -> seq<Entry>) returns (r: VersionEdits.VersionEdit)
    requires EditIsWritable(e, text, tables)
    ensures VersionEdits.EditFits(r) && Meaning(r, tables) == e
    ensures r.newFiles == seq(|e.added|, i requires 0 <= i < |e.added| => (e.added[i].0, MetaOf(text, e.added[i].1)))
  {
    hide FileOf, MetaOf, FileFits, VersionEdits.InsertPair;
    var ds := SortPairs(e.deleted);
    var ns := seq(|e.added|, i requires 0 <= i < |e.added| => (e.added[i].0, MetaOf(text, e.added[i].1)));
    r := VersionEdits.VersionEdit(None, None, None, None, None, [], ds, ns);
    RecordMeans(r, tables);
    forall i | 0 <= i < |e.added| ensures Meaning(r, tables).added[i] == e.added[i] {
      MetaMeansFile(e.added[i].1, text, tables);
    }
    assert Meaning(r, tables).added == e.added;
    assert Meaning(r, tables).deleted == e.deleted;
    RecordFits(e, text, tables, r);
  }

  lemma RecordFits(e: Edit, text: Text, tables: nat -> seq<Entry>, r: VersionEdits.VersionEdit)
    requires EditIsWritable(e, text, tables) && VersionEdits.SortedPairs(r.deletedFiles)
    requires r == VersionEdits.NO_EDIT.(deletedFiles := r.deletedFiles, newFiles := r.newFiles)
    requires forall d :: d in r.deletedFiles ==> d in e.deleted
    requires r.newFiles == seq(|e.added|, i requires 0 <= i < |e.added| => (e.added[i].0, MetaOf(text, e.added[i].1)))
    ensures VersionEdits.EditFits(r)
  {
    hide KeyBytes, FileOf, VersionEdits.SortedPairs;
    var deletions, additions := VersionEdits.Deletions(r.deletedFiles), VersionEdits.Additions(r.newFiles);
    assert VersionEdits.Fields(r) == deletions + additions;
    forall f | f in deletions ensures VersionEdits.FieldFits(f) {
      var i :| 0 <= i < |deletions| && deletions[i] == f;
      assert r.deletedFiles[i] in r.deletedFiles;
    }
    forall f | f in additions ensures VersionEdits.FieldFits(f) {
      var i :| 0 <= i < |additions| && additions[i] == f;
      MetaMeansFile(e.added[i].1, text, tables);
    }
  }

  // ---------------------------------------------------------------- the records of a run

  /** The keys in the tables of a state are byte strings, and numbers fit their fields. */
  ghost predicate Writable(d: Db, text: Text, tables: nat -> seq<Entry>) {
    && Fits64(d.nextFileNumber)
    && forall l, f :: 0 <= l < NUM_LEVELS && f in d.version[l] ==>
         Fits64(f.size) && tables(f.number) == f.entries && forall e :: e in f.entries ==> IsText(text, e.key.ukey)
  }

  lemma TableFits(d: Db, h: set<Entry>, l: nat, f: File, text: Text, tables: nat -> seq<Entry>)
    requires Invariant(d, h) && Writable(d, text, tables) && l < NUM_LEVELS && f in d.version[l]
    ensures FileFits(f, text, tables)
  {
    hide IsText, Invariant;
    TableBounds(d, h, l, f);
    var first, last := f.entries[0], f.entries[|f.entries| - 1];
    assert first in f.entries && last in f.entries;
  }

  lemma TableBounds(d: Db, h: set<Entry>, l: nat, f: File)
    requires Invariant(d, h) && l < NUM_LEVELS && f in d.version[l]
    ensures f.number < d.nextFileNumber && WellFormed(f)
    ensures forall e :: e in f.entries ==> e.key.seqno <= MAX_SEQUENCE
  {
    hide Layered, GloballyDistinct, SortedVersion, DistinctSeqnos, Sorted;
    forall e | e in f.entries ensures e.key.seqno <= MAX_SEQUENCE {
      assert e in FileEntries(f) && e in LevelEntries(d.version[l]) && e in VersionEntries(d.version);
      assert e in Stored(d) && e in h;
    }
  }

  lemma SnapshotIsWritable(d: Db, h: set<Entry>, text: Text, tables: nat -> seq<Entry>)
    requires Invariant(d, h) && Writable(d, text, tables)
    ensures EditIsWritable(SnapshotOf(d.version), text, tables)
  {
    hide Invariant, Writable, FileFits;
    var e := SnapshotOf(d.version);
    SnapshotMembers(d.version, NUM_LEVELS);
    forall i | 0 <= i < |e.added| ensures e.added[i].0 < NUM_LEVELS && FileFits(e.added[i].1, text, tables) {
      assert (e.added[i].0, e.added[i].1) in e.added;
      TableFits(d, h, e.added[i].0, e.added[i].1, text, tables);
    }
  }

  /** What a compaction deletes was in the version. */
  lemma DeletesFiles(v: Version, c: Compaction, outputs: seq<File>, p: (nat, nat))
    requires WellChosen(v, c) && p in CompactionEdit(c, outputs).deleted
    ensures p.0 < NUM_LEVELS && exists f :: f in v[p.0] && f.number == p.1
  {
    LevelOfCompaction(v, c);
    InputsOfVersion(v, c);
    hide WellChosen;
    if p in NumbersOf(c.level, c.inputs0) {
      var i :| 0 <= i < |c.inputs0| && p == (c.level, c.inputs0[i].number);
      assert c.inputs0[i] in v[c.level];
    } else {
      assert p in NumbersOf(c.level + 1, c.inputs1);
      var i :| 0 <= i < |c.inputs1| && p == (c.level + 1, c.inputs1[i].number);
      assert c.inputs1[i] in c.inputs1;
    }
  }

  lemma InputsOfVersion(v: Version, c: Compaction)
    requires WellChosen(v, c)
    ensures forall f :: f in c.inputs0 ==> f in v[c.level]
    ensures forall f :: f in c.inputs1 ==> f in v[c.level + 1]
  {
    InputsAreInVersion(v, c);
  }

  lemma StepDeletes(d: Db, step: Step, d': Db, p: (nat, nat))
    requires TakeStep(d, step, d') && p in EditOf(d, step).deleted
    ensures p.0 < NUM_LEVELS && exists f :: f in d.version[p.0] && f.number == p.1
  {
    hide WellChosen, Rewritten, HoldKept, CompactionEdit, OutputsNumbered;
    match step
    case Compact(c, outputs) => DeletesFiles(d.version, c, outputs, p);
    case Move(c) => DeletesFiles(d.version, c, c.inputs0, p);
    case _ =>
  }

  lemma StepIsWritable(d: Db, h: set<Entry>, step: Step, d': Db, text: Text, tables: nat -> seq<Entry>)
    requires Invariant(d, h) && TakeStep(d, step, d') && Writable(d, text, tables) && Writable(d', text, tables)
    ensures EditIsWritable(EditOf(d, step), text, tables)
  {
    hide Invariant, TakeStep, EditOf, FileFits, Installs, Fresh, IsText;
    var e := EditOf(d, step);
    StepInstalls(d, h, step, d');
    StepKeepsInvariant(d, h, step, d');
    AddsInRange(d, h, step, d');
    forall i | 0 <= i < |e.added| ensures e.added[i].0 < NUM_LEVELS && FileFits(e.added[i].1, text, tables) {
      var l, f := e.added[i].0, e.added[i].1;
      assert (l, f) in e.added;
      InstalledMembers(d.version, e, d'.version, l);
      TableFits(d', HistoryAfter(d, h, step), l, f, text, tables);
    }
    forall p | p in e.deleted ensures p.0 < NUM_LEVELS && Fits64(p.1) {
      StepDeletes(d, step, d', p);
      var f :| f in d.version[p.0] && f.number == p.1;
      TableFits(d, h, p.0, f, text, tables);
      NumberFits(f, text, tables);
    }
  }

  lemma NumberFits(f: File, text: Text, tables: nat -> seq<Entry>)
    requires FileFits(f, text, tables)
    ensures Fits64(f.number)
  {
  }

  lemma AddsInRange(d: Db, h: set<Entry>, step: Step, d': Db)
    requires Invariant(d, h) && TakeStep(d, step, d')
    ensures LevelsInRange(EditOf(d, step))
  {
    hide Invariant, WellChosen, Rewritten, Flushed, MayFlushTo, HoldKept, OutputsNumbered;
    match step
    case Flush(level, size) =>
      if d.imm.Some? && d.imm.value != [] { MayFlushLevel(d.version, level, NewFile(d.nextFileNumber, size, d.imm.value)); }
    case Compact(c, outputs) => LevelOfCompaction(d.version, c);
    case Move(c) => LevelOfCompaction(d.version, c);
    case _ =>
  }

  /** From any state of a run on, a database can log its manifest: records that fit their encoding and
      mean the snapshot and the edits of the steps. */
  lemma RecordsExist(ds: seq<Db>, steps: seq<Step>, k: nat, text: Text, tables: nat -> seq<Entry>)
    returns (records: seq<VersionEdits.VersionEdit>)
    requires Engine.IsRun(ds, steps) && k <= |steps|
    requires forall i :: k <= i <= |steps| ==> Writable(ds[i], text, tables)
    ensures Records(ds, steps, k, records, tables)
  {
    hide EditIsWritable, Writable, Meaning, SnapshotOf, EditOf, TakeStep, Invariant, VersionEdits.EditFits;
    RunKeepsInvariant(ds, steps, k);
    SnapshotIsWritable(ds[k], History(ds, steps, k), text, tables);
    var first := RecordOf(SnapshotOf(ds[k].version), text, tables);
    records := [first];
    for n := k to |steps|
      invariant |records| == 1 + n - k && records[0] == first
      invariant forall e :: e in records ==> VersionEdits.EditFits(e)
      invariant forall i :: k <= i < n ==> Meaning(records[1 + i - k], tables) == EditOf(ds[i], steps[i])
    {
      RunKeepsInvariant(ds, steps, n);
      StepIsWritable(ds[n], History(ds, steps, n), steps[n], ds[n + 1], text, tables);
      var next := RecordOf(EditOf(ds[n], steps[n]), text, tables);
      records := records + [next];
    }
  }
}
