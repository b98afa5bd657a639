/** VersionSet::MakeInputIterator (db/version_set.cc) and a forward scan of what it yields. */
module MergedInput {
  import opened Keys
  import opened Reads
  import opened Versions
  import opened CompactionInputs
  import opened CompactionWork
  import opened CompactionMeaning
  import Sequences
  import Cursors
  import Merger
  import VersionSteps

  /** One run per file at level 0, where files overlap, and one concatenation for any other level. */
  function InputRuns(c: Compaction): seq<seq<Entry>> {
    (if c.level == 0 then FileRuns(c.inputs0) else [Concat(c.inputs0)]) +
    (if c.inputs1 == [] then [] else [Concat(c.inputs1)])
  }

  function FileRuns(files: seq<File>): seq<seq<Entry>> {
    seq(|files|, i requires 0 <= i < |files| => files[i].entries)
  }

  lemma {:induction false} ConcatSorted(files: seq<File>)
    requires AllWellFormed(files) && Disjoint(files)
    ensures Sorted(Concat(files))
    ensures forall e :: e in Concat(files) <==> e in LevelEntries(files)
  {
    if files != [] {
      var n := |files| - 1;
      var init, last := files[..n], files[n];
      ConcatSorted(init);
      assert files == init + [last];
      var a := Concat(init);
      forall i, j | 0 <= i < |a| && 0 <= j < |last.entries| ensures Less(a[i].key, last.entries[j].key) {
        assert a[i] in LevelEntries(init);
        var f :| f in init && a[i] in f.entries;
        var x :| 0 <= x < n && files[x] == f;
        EarlierFileEarlierEntries(files, x, n, a[i], last.entries[j]);
      }
    }
  }

  /** An entry is in one run only, and runs cover exactly the inputs. */
  ghost predicate RunsOk(runs: seq<seq<Entry>>, all: set<Entry>) {
    && (forall i :: 0 <= i < |runs| ==> Sorted(runs[i]))
    && (forall i, j, x, y :: 0 <= i < j < |runs| && x in runs[i] && y in runs[j] ==> x.key != y.key)
    && (forall e :: e in all <==> exists i :: 0 <= i < |runs| && e in runs[i])
  }

  ghost predicate DistinctKeys(es: set<Entry>) {
    forall a, b :: a in es && b in es && a.key == b.key ==> a == b
  }

  lemma FileRunsOk(files: seq<File>, inputs: seq<File>)
    requires AllWellFormed(inputs) && NumbersOrderLevel0(files) && DistinctNumbers(files) && DistinctNumbers(inputs)
    requires (forall f :: f in inputs ==> f in files) && DistinctKeys(LevelEntries(inputs))
    ensures RunsOk(FileRuns(inputs), LevelEntries(inputs))
  {
    hide NumbersOrderLevel0, DistinctNumbers, DistinctKeys;
    var runs := FileRuns(inputs);
    forall i, j, x: Entry, y: Entry | 0 <= i < j < |runs| && x in runs[i] && y in runs[j] ensures x.key != y.key {
      SharedEntry(files, inputs, i, j, x, y);
    }
    forall e ensures e in LevelEntries(inputs) <==> exists i :: 0 <= i < |runs| && e in runs[i] {
      if e in LevelEntries(inputs) {
        var f :| f in inputs && e in f.entries;
        var i :| 0 <= i < |inputs| && inputs[i] == f;
        assert e in runs[i];
      }
      forall i | 0 <= i < |runs| && e in runs[i] ensures e in LevelEntries(inputs) {
        assert inputs[i] in inputs;
      }
    }
  }

  lemma SharedEntry(files: seq<File>, inputs: seq<File>, i: nat, j: nat, x: Entry, y: Entry)
    requires NumbersOrderLevel0(files) && DistinctNumbers(files) && DistinctNumbers(inputs)
    requires (forall f :: f in inputs ==> f in files) && DistinctKeys(LevelEntries(inputs))
    requires i < j < |inputs| && x in inputs[i].entries && y in inputs[j].entries
    ensures x.key != y.key
  {
    assert inputs[i] in inputs && inputs[j] in inputs;
    assert x in LevelEntries(inputs) && y in LevelEntries(inputs);
    if x.key == y.key {
      VersionSteps.SharedLevel0File(files, inputs[i], inputs[j], x);
    }
  }

  lemma SingleRunOk(run: seq<Entry>, all: set<Entry>)
    requires Sorted(run) && forall e :: e in run <==> e in all
    ensures RunsOk([run], all)
  {
    var runs := [run];
    forall e ensures e in all <==> exists i :: 0 <= i < |runs| && e in runs[i] {
      assert e in run ==> e in runs[0];
    }
  }

  lemma Runs0Ok(v: Version, c: Compaction)
    requires ValidLevels(v) && NumbersOrderLevel0(v[0]) && DistinctNumbers(v[0]) && WellChosen(v, c)
    requires DistinctKeys(LevelEntries(c.inputs0))
    ensures RunsOk(if c.level == 0 then FileRuns(c.inputs0) else [Concat(c.inputs0)], LevelEntries(c.inputs0))
  {
    assert AllWellFormed(c.inputs0) by {
      assert forall i :: 0 <= i < |c.inputs0| ==> c.inputs0[i] in c.inputs0;
    }
    if c.level == 0 {
      FileRunsOk(v[0], c.inputs0);
    } else {
      ConcatSorted(c.inputs0);
      SingleRunOk(Concat(c.inputs0), LevelEntries(c.inputs0));
    }
  }

  lemma AppendRun(runs: seq<seq<Entry>>, all: set<Entry>, run: seq<Entry>)
    requires RunsOk(runs, all) && Sorted(run)
    requires forall x, y :: x in all && y in run ==> x.key != y.key
    ensures RunsOk(runs + [run], all + Run(run))
  {
    var more := runs + [run];
    forall e ensures e in all + Run(run) <==> exists i :: 0 <= i < |more| && e in more[i] {
      if e in all {
        var i :| 0 <= i < |runs| && e in runs[i];
        assert e in more[i];
      }
      if e in run { assert e in more[|runs|]; }
    }
    forall i, j, x: Entry, y: Entry | 0 <= i < j < |more| && x in more[i] && y in more[j] ensures x.key != y.key {
      assert more[i] == runs[i];
      if j == |runs| { assert x in all; }
    }
  }

  lemma InputKeysDistinct(v: Version, c: Compaction)
    requires DistinctSeqnos(VersionEntries(v)) && WellChosen(v, c)
    ensures DistinctKeys(InputEntries(c)) && DistinctKeys(LevelEntries(c.inputs0))
  {
    InputsAreInVersion(v, c);
  }

  lemma InputRunsOk(v: Version, c: Compaction)
    requires Versions.Valid(v) && WellChosen(v, c)
    ensures RunsOk(InputRuns(c), InputEntries(c)) && DistinctKeys(InputEntries(c))
  {
    InputKeysDistinct(v, c);
    Runs0Ok(v, c);
    var runs0 := if c.level == 0 then FileRuns(c.inputs0) else [Concat(c.inputs0)];
    if c.inputs1 == [] {
      assert InputRuns(c) == runs0 && InputEntries(c) == LevelEntries(c.inputs0);
    } else {
      Inputs1Run(v, c);
      LevelsShareNoKey(v, c);
      AppendRun(runs0, LevelEntries(c.inputs0), Concat(c.inputs1));
    }
  }

  lemma Inputs1Run(v: Version, c: Compaction)
    requires ValidLevels(v) && WellChosen(v, c)
    ensures Sorted(Concat(c.inputs1)) && Run(Concat(c.inputs1)) == LevelEntries(c.inputs1)
  {
    var files := v[c.level + 1];
    var a, b := OverlappingIsRun(files, Some(LowUser(c.inputs0)), Some(HighUser(c.inputs0)));
    assert c.inputs1 == files[a..b];
    ConcatSorted(c.inputs1);
  }

  lemma LevelsShareNoKey(v: Version, c: Compaction)
    requires LevelsOrdered(v) && WellChosen(v, c)
    ensures forall x, y :: x in LevelEntries(c.inputs0) && y in LevelEntries(c.inputs1) ==> x.key != y.key
  {
    InputsAreInVersion(v, c);
    assert NewerThan(LevelEntries(v[c.level]), LevelEntries(v[c.level + 1]));
  }

  /** A finite set of entries with distinct keys as a sorted run. */
  lemma SortedUnion(es: set<Entry>) returns (r: seq<Entry>)
    requires DistinctKeys(es)
    ensures Sorted(r) && forall e :: e in r <==> e in es
  {
    if es == {} {
      r := [];
    } else {
      var e :| e in es;
      r := SortedUnion(es - {e});
      InsertSorted(r, e);
      r := Insert(r, e);
    }
  }

  /** The entries that the compaction's input iterator yields from SeekToFirst to its end. */
  method MakeInput(v: Version, c: Compaction) returns (input: seq<Entry>)
    requires Versions.Valid(v) && WellChosen(v, c)
    ensures IsMergedInput(c, input)
  {
    InputRunsOk(v, c);
    ghost var merged := SortedUnion(InputEntries(c));
    input := MergeRuns(InputRuns(c), InputEntries(c), merged);
  }

  method MergeRuns(runs: seq<seq<Entry>>, ghost all: set<Entry>, ghost merged: seq<Entry>) returns (input: seq<Entry>)
    requires RunsOk(runs, all) && Sorted(merged) && forall e :: e in merged <==> e in all
    ensures input == merged
  {
    var children := OpenRuns(runs);
    OpenedUnion(runs, all, merged, children);
    var iter := new Merger.MergingIterator(children, merged);
    assert forall c :: c in iter.children ==> fresh(c);
    input := Drain(iter);
  }

  ghost predicate Opened(children: seq<Cursors.Cursor>, runs: seq<seq<Entry>>)
    reads children
  {
    && |children| == |runs| && Sequences.Distinct(children)
    && forall j :: 0 <= j < |runs| ==> children[j].Ok() && children[j].entries == runs[j]
  }

  method OpenRuns(runs: seq<seq<Entry>>) returns (children: seq<Cursors.Cursor>)
    requires forall i :: 0 <= i < |runs| ==> Sorted(runs[i])
    ensures Opened(children, runs) && forall c :: c in children ==> fresh(c)
  {
    children := [];
    for i := 0 to |runs|
      invariant Opened(children, runs[..i]) && forall c :: c in children ==> fresh(c)
    {
      var child := new Cursors.Cursor(runs[i]);
      children := children + [child];
    }
    assert runs[..|runs|] == runs;
  }

  lemma OpenedUnion(runs: seq<seq<Entry>>, all: set<Entry>, merged: seq<Entry>, children: seq<Cursors.Cursor>)
    requires RunsOk(runs, all) && Sorted(merged) && (forall e :: e in merged <==> e in all) && Opened(children, runs)
    ensures Merger.KeysApart(children) && Merger.IsUnion(children, merged)
    ensures forall c :: c in children ==> c.Ok()
  {
    forall e ensures e in merged <==> exists i :: 0 <= i < |children| && e in children[i].entries {
      if e in all {
        var i :| 0 <= i < |runs| && e in runs[i];
        assert e in children[i].entries;
      }
      forall i | 0 <= i < |children| && e in children[i].entries ensures e in all {
        assert e in runs[i];
      }
    }
  }

  method Drain(iter: Merger.MergingIterator) returns (input: seq<Entry>)
    requires iter.Shape()
    modifies iter, set c | c in iter.children
    ensures input == iter.merged
  {
    hide Merger.MergingIterator.Shape, Sorted;
    iter.SeekToFirst();
    input := [];
    while iter.Valid()
      invariant iter.Ok()
      invariant iter.Pos() == |input| <= |iter.merged|
      invariant forall i :: 0 <= i < |input| ==> input[i] == iter.merged[i]
      decreases |iter.merged| - |input|
    {
      var e := Take(iter);
      input := input + [e];
    }
  }

  method Take(iter: Merger.MergingIterator) returns (e: Entry)
    requires iter.Ok() && iter.Valid()
    modifies iter, set c | c in iter.children
    ensures iter.Ok() && iter.Pos() == old(iter.Pos()) + 1
    ensures old(iter.Pos()) < |iter.merged| && e == iter.merged[old(iter.Pos())]
  {
    iter.CurrentIsAtPos();
    e := iter.Entry();
    iter.Next();
  }
}
