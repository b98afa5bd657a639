/** Table files, versions and the invariants that every version of a database satisfies
    (db/version_edit.h, db/version_set.h). */
module Versions {
  import opened Keys
  import opened Reads

  const NUM_LEVELS := 7

  /** A file's metadata together with the entries of the table it names. */
  datatype File = File(number: nat, size: nat, smallest: IKey, largest: IKey, entries: seq<Entry>)

  type Version = v: seq<seq<File>> | |v| == NUM_LEVELS witness [[], [], [], [], [], [], []]

  ghost predicate WellFormed(f: File) {
    && f.entries != []
    && Sorted(f.entries)
    && f.smallest == f.entries[0].key
    && f.largest == f.entries[|f.entries| - 1].key
  }

  ghost predicate AllWellFormed(fs: seq<File>) {
    forall i :: 0 <= i < |fs| ==> WellFormed(fs[i])
  }

  ghost function FileEntries(f: File): set<Entry> {
    set e | e in f.entries
  }

  ghost function LevelEntries(fs: seq<File>): set<Entry> {
    set f, e | f in fs && e in f.entries :: e
  }

  ghost function VersionEntries(v: Version): set<Entry> {
    set l, e | 0 <= l < NUM_LEVELS && e in LevelEntries(v[l]) :: e
  }

  /** Levels above 0: the files are in key order and their internal-key ranges do not meet. */
  ghost predicate Disjoint(fs: seq<File>) {
    forall i, j :: 0 <= i < j < |fs| ==> Less(fs[i].largest, fs[j].smallest)
  }

  /** Every entry of a user key in `newer` has a larger sequence number than every one in `older`. */
  ghost predicate NewerThan(newer: set<Entry>, older: set<Entry>) {
    forall a, b :: a in newer && b in older && a.key.ukey == b.key.ukey ==> a.key.seqno > b.key.seqno
  }

  /** Level 0: a file with a larger number holds newer entries of every user key the two share. */
  ghost predicate NumbersOrderLevel0(fs: seq<File>) {
    forall f, g :: f in fs && g in fs && f.number > g.number ==> NewerThan(FileEntries(f), FileEntries(g))
  }

  ghost predicate DistinctNumbers(fs: seq<File>) {
    forall i, j :: 0 <= i < j < |fs| ==> fs[i].number != fs[j].number
  }

  /** Entries of a user key are newer in a lower-numbered level than in a higher-numbered one. */
  ghost predicate LevelsOrdered(v: Version) {
    forall a, b :: 0 <= a < b < NUM_LEVELS ==> NewerThan(LevelEntries(v[a]), LevelEntries(v[b]))
  }

  /** The shape of each level on its own. */
  ghost predicate ValidLevels(v: Version) {
    && (forall l :: 0 <= l < NUM_LEVELS ==> AllWellFormed(v[l]))
    && (forall l :: 0 < l < NUM_LEVELS ==> Disjoint(v[l]))
  }

  /** What the reader, the compaction and the file search rely on. */
  ghost predicate Valid(v: Version) {
    && ValidLevels(v)
    && (forall l :: 0 <= l < NUM_LEVELS ==> DistinctNumbers(v[l]))
    && NumbersOrderLevel0(v[0])
    && LevelsOrdered(v)
    && DistinctSeqnos(VersionEntries(v))
  }

  lemma EntryWithinFile(f: File, e: Entry)
    requires WellFormed(f) && e in f.entries
    ensures AtMost(f.smallest, e.key) && AtMost(e.key, f.largest)
    ensures f.smallest.ukey <= e.key.ukey <= f.largest.ukey
  {
    var i :| 0 <= i < |f.entries| && f.entries[i] == e;
  }

  lemma EndsAreEntries(f: File)
    requires WellFormed(f)
    ensures exists e :: e in f.entries && e.key == f.smallest
    ensures exists e :: e in f.entries && e.key == f.largest
    ensures AtMost(f.smallest, f.largest)
    ensures f.smallest.ukey <= f.largest.ukey
  {
    assert f.entries[0] in f.entries;
    EntryWithinFile(f, f.entries[0]);
    assert f.entries[|f.entries| - 1] in f.entries;
  }

  /** In a level above 0 the entries of an earlier file all come before those of a later one. */
  lemma EarlierFileEarlierEntries(fs: seq<File>, i: nat, j: nat, x: Entry, y: Entry)
    requires AllWellFormed(fs) && Disjoint(fs) && i < j < |fs|
    requires x in fs[i].entries && y in fs[j].entries
    ensures Less(x.key, y.key)
  {
    EntryWithinFile(fs[i], x);
    EntryWithinFile(fs[j], y);
  }

  lemma EarlierSameKeyIsNewer(x: Entry, y: Entry, es: set<Entry>)
    requires Less(x.key, y.key) && x.key.ukey == y.key.ukey
    requires x in es && y in es && DistinctSeqnos(es)
    ensures x.key.seqno > y.key.seqno
  {
  }

  lemma SliceSnoc<T>(s: seq<T>, a: nat, b: nat)
    requires a <= b < |s|
    ensures s[a..b + 1] == s[a..b] + [s[b]]
  {
  }
}
