/** From the bytes of a manifest file to the version that is recovered from it, crashes included. */
module ManifestFile {
  import opened Keys
  import opened Versions
  import opened VersionBuilder
  import opened Engine
  import opened Manifest
  import opened ManifestRuns
  import opened LogFormat
  import opened LogRoundTrip
  import Coding
  import InternalKeys
  import VersionEdits

  /** A file's metadata with the entries of the table of its number. */
  function FileOf(m: VersionEdits.FileMetaData, tables: nat -> seq<Entry>): File {
    File(m.number, m.fileSize, InternalKeys.KeyOf(m.smallest), InternalKeys.KeyOf(m.largest), tables(m.number))
  }

  /** What a manifest record says about files. */
  function Meaning(e: VersionEdits.VersionEdit, tables: nat -> seq<Entry>): Edit {
    Edit(set i | 0 <= i < |e.deletedFiles| :: e.deletedFiles[i],
         seq(|e.newFiles|, i requires 0 <= i < |e.newFiles| => (e.newFiles[i].0, FileOf(e.newFiles[i].1, tables))))
  }

  function Meanings(es: seq<VersionEdits.VersionEdit>, tables: nat -> seq<Entry>): (r: seq<Edit>)
    ensures |r| == |es| && forall i :: 0 <= i < |es| ==> r[i] == Meaning(es[i], tables)
  {
    seq(|es|, i requires 0 <= i < |es| => Meaning(es[i], tables))
  }

  /** The records of a manifest that was begun at state k of a run: the snapshot, then every step's edit. */
  ghost predicate Records(ds: seq<Db>, steps: seq<Step>, k: nat, records: seq<VersionEdits.VersionEdit>, tables: nat -> seq<Entry>)
    requires Engine.IsRun(ds, steps) && k <= |steps|
  {
    && |records| == 1 + |steps| - k && (forall e :: e in records ==> VersionEdits.EditFits(e))
    && Meaning(records[0], tables) == SnapshotOf(ds[k].version)
    && forall i :: k <= i < |steps| ==> Meaning(records[1 + i - k], tables) == EditOf(ds[i], steps[i])
  }

  function Decoded(file: seq<Coding.Byte>): seq<VersionEdits.VersionEdit> {
    VersionEdits.DecodeRecords(ReadAll(file, 0).0)
  }

  /** A crash leaves some first bytes of the manifest.  If the snapshot is among them, recovery restores
      the version that was current after the last step whose record is complete. */
  lemma CutManifestRecovers(ds: seq<Db>, steps: seq<Step>, k: nat, records: seq<VersionEdits.VersionEdit>, tables: nat -> seq<Entry>,
                            cut: nat, recovered: Version)
    requires Engine.IsRun(ds, steps) && k <= |steps| && Records(ds, steps, k, records, tables)
    requires cut <= |LogBytes(VersionEdits.EncodeEdits(records))|
    ensures var es := Meanings(Decoded(LogBytes(VersionEdits.EncodeEdits(records))[..cut]), tables);
            && |es| <= |records|
            && (forall i :: 0 <= i < |es| ==> LevelsInRange(es[i]))
            && (es != [] && Saved(EMPTY_VERSION, RecoveredState(es[0], es[1..]), recovered) ==>
                  recovered == ds[k + |es| - 1].version)
  {
    hide Meaning, EditOf, SnapshotOf, TakeStep, Saved, LevelsInRange, LogBytes, ReadAll, VersionEdits.DecodeRecords, VersionEdits.EncodeEdits;
    RecordsInRange(ds, steps, k, records, tables);
    var n := CompleteReadBack(records, cut);
    var es := Meanings(records[..n], tables);
    if n > 0 && Saved(EMPTY_VERSION, RecoveredState(es[0], es[1..]), recovered) {
      PrefixRecovers(ds, steps, k, records, tables, n, recovered);
    }
  }

  lemma CompleteReadBack(records: seq<VersionEdits.VersionEdit>, cut: nat) returns (n: nat)
    requires (forall e :: e in records ==> VersionEdits.EditFits(e)) && cut <= |LogBytes(VersionEdits.EncodeEdits(records))|
    ensures n <= |records| && Decoded(LogBytes(VersionEdits.EncodeEdits(records))[..cut]) == records[..n]
  {
    hide LogBytes, ReadAll, VersionEdits.DecodeRecords, VersionEdits.EncodeEdits;
    n := CompleteRecords(VersionEdits.EncodeEdits(records), cut);
    VersionEdits.ManifestReadsBack(records, cut);
  }

  lemma RecordsInRange(ds: seq<Db>, steps: seq<Step>, k: nat, records: seq<VersionEdits.VersionEdit>, tables: nat -> seq<Entry>)
    requires Engine.IsRun(ds, steps) && k <= |steps| && Records(ds, steps, k, records, tables)
    ensures forall i :: 0 <= i < |records| ==> LevelsInRange(Meaning(records[i], tables))
  {
    hide Meaning, EditOf, SnapshotOf, EditsOf, TakeStep, Installs;
    RunLogsManifest(ds, steps, k);
    forall i | 0 <= i < |records| ensures LevelsInRange(Meaning(records[i], tables)) {
      if i == 0 {
        SnapshotInRange(ds[k].version);
      } else {
        EditInRange(ds, steps, k, k + i - 1);
        assert records[1 + (k + i - 1) - k] == records[i];
      }
    }
  }

  lemma SnapshotInRange(v: Version)
    ensures LevelsInRange(SnapshotOf(v))
  {
  }

  lemma EditInRange(ds: seq<Db>, steps: seq<Step>, k: nat, i: nat)
    requires Engine.IsRun(ds, steps) && k <= i < |steps| && LiveRun(VersionsOf(ds)[k..], EditsOf(ds, steps)[k..])
    ensures LevelsInRange(EditOf(ds[i], steps[i]))
  {
    assert EditsOf(ds, steps)[k..][i - k] == EditOf(ds[i], steps[i]);
  }

  lemma PrefixRecovers(ds: seq<Db>, steps: seq<Step>, k: nat, records: seq<VersionEdits.VersionEdit>, tables: nat -> seq<Entry>,
                       n: nat, recovered: Version)
    requires Engine.IsRun(ds, steps) && k <= |steps| && Records(ds, steps, k, records, tables) && 0 < n <= |records|
    requires forall i :: 0 <= i < |records| ==> LevelsInRange(Meaning(records[i], tables))
    requires var es := Meanings(records[..n], tables); Saved(EMPTY_VERSION, RecoveredState(es[0], es[1..]), recovered)
    ensures recovered == ds[k + n - 1].version
  {
    hide Meaning, EditOf, SnapshotOf, TakeStep, Installs, Saved, LevelsInRange, LiveRun;
    var m := k + n - 1;
    var ds', steps' := ds[..m + 1], steps[..m];
    PrefixIsRun(ds, steps, m);
    RunLogsManifest(ds', steps', k);
    var es := Meanings(records[..n], tables);
    assert es[1..] == EditsOf(ds', steps')[k..] by {
      forall i | 0 <= i < n - 1 ensures es[1..][i] == EditsOf(ds', steps')[k..][i] {
        assert es[1 + i] == Meaning(records[1 + (k + i) - k], tables) == EditOf(ds[k + i], steps[k + i]);
      }
    }
    RunIsRecovered(ds', steps', k, recovered);
  }

  lemma PrefixIsRun(ds: seq<Db>, steps: seq<Step>, m: nat)
    requires Engine.IsRun(ds, steps) && m <= |steps|
    ensures Engine.IsRun(ds[..m + 1], steps[..m])
  {
    hide TakeStep;
    forall i | 0 <= i < m ensures TakeStep(ds[..m + 1][i], steps[..m][i], ds[..m + 1][i + 1]) {
      assert TakeStep(ds[i], steps[i], ds[i + 1]);
    }
  }
}
