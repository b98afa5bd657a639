/** The merge-and-drop loop of a compaction: DBImpl::DoCompactionWork (db/db_impl.cc) and
    Compaction::IsBaseLevelForKey (db/version_set.cc). */
module CompactionWork {
  import opened Keys
  import opened Versions
  import opened CompactionInputs
  import Lookup

  /** No file more than one level below the compaction can hold user key k. */
  predicate IsBase(v: Version, level: nat, k: UserKey) {
    forall l, i | level + 2 <= l < NUM_LEVELS && 0 <= i < |v[l]| :: !(v[l][i].smallest.ukey <= k <= v[l][i].largest.ukey)
  }

  /** The part of a Compaction object that answers base-level questions: one pointer per level, only
      ever moved forward, because questions come in key order. */
  class BaseLevelPointers {
    const version: Version
    const level: nat
    var levelPtrs: seq<nat>
    ghost var last: Option<UserKey>  // the previous question

    ghost predicate Valid()
      reads this
    {
      && ValidLevels(version)
      && |levelPtrs| == NUM_LEVELS
      && (forall l :: 0 <= l < NUM_LEVELS ==> levelPtrs[l] <= |version[l]|)
      && (forall l, i :: 0 <= l < NUM_LEVELS && 0 <= i < levelPtrs[l] ==>
            last.Some? && version[l][i].largest.ukey < last.value)
    }

    constructor (version: Version, level: nat)
      requires ValidLevels(version)
      ensures Valid() && last == None && this.version == version && this.level == level
    {
      this.version := version;
      this.level := level;
      levelPtrs := [0, 0, 0, 0, 0, 0, 0];
      last := None;
    }

    method IsBaseLevelForKey(k: UserKey) returns (base: bool)
      requires Valid() && (last.Some? ==> last.value <= k)
      modifies this
      ensures Valid() && last == Some(k)
      ensures base <==> IsBase(version, level, k)
    {
      last := Some(k);
      var lvl := level + 2;
      while lvl < NUM_LEVELS
        invariant Valid() && last == Some(k)
        invariant forall l, i :: level + 2 <= l < lvl && l < NUM_LEVELS && 0 <= i < |version[l]| ==> !Lookup.CoversKey(version[l][i], k)
      {
        var files := version[lvl];
        while levelPtrs[lvl] < |files|
          invariant Valid() && last == Some(k)
          decreases |files| - levelPtrs[lvl]
        {
          var f := files[levelPtrs[lvl]];
          if k <= f.largest.ukey {
            if k >= f.smallest.ukey {
              assert !IsBase(version, level, k);
              return false;
            }
            LaterFilesAreAbove(files, levelPtrs[lvl], k);
            break;
          }
          levelPtrs := levelPtrs[lvl := levelPtrs[lvl] + 1];
        }
        lvl := lvl + 1;
      }
      base := true;
    }
  }

  lemma LaterFilesAreAbove(files: seq<File>, p: nat, k: UserKey)
    requires AllWellFormed(files) && Disjoint(files) && p < |files|
    requires k < files[p].smallest.ukey
    ensures forall i :: p <= i < |files| ==> k < files[i].smallest.ukey
  {
    EndsAreEntries(files[p]);
  }

  // ---------------------------------------------------------------- what is dropped

  /** Rule (A): the previous entry has the same user key and is already visible at the snapshot. */
  predicate Hidden(input: seq<Entry>, i: nat, snapshot: nat)
    requires i < |input|
  {
    i > 0 && input[i - 1].key.ukey == input[i].key.ukey && input[i - 1].key.seqno <= snapshot
  }

  /** The deletion marker is visible at the snapshot and has nothing further down to hide. */
  predicate Obsolete(v: Version, level: nat, e: Entry, snapshot: nat) {
    e.key.typ.TypeDeletion? && e.key.seqno <= snapshot && IsBase(v, level, e.key.ukey)
  }

  predicate Dropped(v: Version, level: nat, input: seq<Entry>, i: nat, snapshot: nat)
    requires i < |input|
  {
    Hidden(input, i, snapshot) || Obsolete(v, level, input[i], snapshot)
  }

  /** The entries among the first n that survive, in order. */
  function Kept(v: Version, level: nat, input: seq<Entry>, n: nat, snapshot: nat): seq<Entry>
    requires n <= |input|
  {
    if n == 0 then [] else
      Kept(v, level, input, n - 1, snapshot) +
      (if Dropped(v, level, input, n - 1, snapshot) then [] else [input[n - 1]])
  }

  lemma {:induction false} KeptMembers(v: Version, level: nat, input: seq<Entry>, n: nat, snapshot: nat)
    requires n <= |input|
    ensures forall e :: e in Kept(v, level, input, n, snapshot) <==>
              exists i :: 0 <= i < n && input[i] == e && !Dropped(v, level, input, i, snapshot)
  {
    if n > 0 {
      KeptMembers(v, level, input, n - 1, snapshot);
    }
  }

  lemma {:induction false} KeptSorted(v: Version, level: nat, input: seq<Entry>, n: nat, snapshot: nat)
    requires n <= |input| && Sorted(input)
    ensures Sorted(Kept(v, level, input, n, snapshot))
  {
    if n > 0 {
      KeptSorted(v, level, input, n - 1, snapshot);
      KeptMembers(v, level, input, n - 1, snapshot);
      var k := Kept(v, level, input, n - 1, snapshot);
      forall j | 0 <= j < |k| ensures Less(k[j].key, input[n - 1].key) {
        assert k[j] in k;
      }
    }
  }

  /** In sorted input, hidden means that some newer entry of the user key is visible at the snapshot. */
  lemma HiddenMeans(input: seq<Entry>, i: nat, snapshot: nat)
    requires Sorted(input) && i < |input|
    requires forall a, b :: 0 <= a < b < |input| && input[a].key.ukey == input[b].key.ukey ==>
               input[a].key.seqno > input[b].key.seqno
    ensures Hidden(input, i, snapshot) <==>
              exists j :: 0 <= j < |input| && input[j].key.ukey == input[i].key.ukey
                && input[i].key.seqno < input[j].key.seqno <= snapshot
  {
    if Hidden(input, i, snapshot) {
      assert input[i - 1].key.seqno <= snapshot;
    }
    forall j | 0 <= j < |input| && input[j].key.ukey == input[i].key.ukey
        && input[i].key.seqno < input[j].key.seqno <= snapshot
      ensures Hidden(input, i, snapshot)
    {
      assert j < i;
      assert Less(input[j].key, input[i - 1].key) || j == i - 1;
      assert Less(input[i - 1].key, input[i].key);
    }
  }

  // ---------------------------------------------------------------- the loop

  function Concat(fs: seq<File>): seq<Entry> {
    if fs == [] then [] else Concat(fs[..|fs| - 1]) + fs[|fs| - 1].entries
  }

  function NewFile(number: nat, size: nat, entries: seq<Entry>): File
    requires entries != []
  {
    File(number, size, entries[0].key, entries[|entries| - 1].key, entries)
  }

  /** What the per-key variables of the loop remember after the first i entries. */
  ghost predicate Remembers(input: seq<Entry>, i: nat, currentUserKey: Option<UserKey>, lastSequenceForKey: nat)
    requires i <= |input|
  {
    if i == 0 then currentUserKey == None
    else currentUserKey == Some(input[i - 1].key.ukey) && lastSequenceForKey == input[i - 1].key.seqno
  }

  ghost predicate AskedUpTo(pointers: BaseLevelPointers, v: Version, level: nat, input: seq<Entry>, i: nat)
    requires i <= |input|
    reads pointers
  {
    && pointers.Valid() && pointers.version == v && pointers.level == level
    && (pointers.last.Some? ==> i > 0 && pointers.last.value <= input[i - 1].key.ukey)
  }

  /** The decision of the loop on one entry, with its updates of the per-key variables. */
  method DropEntry(pointers: BaseLevelPointers, ghost v: Version, ghost level: nat, input: seq<Entry>, i: nat,
                   current: Option<UserKey>, lastSeen: nat, smallestSnapshot: nat)
    returns (drop: bool, currentUserKey: Option<UserKey>, lastSequenceForKey: nat)
    requires i < |input| && Sorted(input) && smallestSnapshot < MAX_SEQUENCE
    requires AskedUpTo(pointers, v, level, input, i) && Remembers(input, i, current, lastSeen)
    modifies pointers
    ensures AskedUpTo(pointers, v, level, input, i + 1)
    ensures Remembers(input, i + 1, currentUserKey, lastSequenceForKey)
    ensures drop <==> Dropped(v, level, input, i, smallestSnapshot)
  {
    var key := input[i].key;
    drop, currentUserKey, lastSequenceForKey := false, current, lastSeen;
    assert i > 0 ==> input[i - 1].key.ukey <= key.ukey;
    if currentUserKey != Some(key.ukey) {
      currentUserKey := Some(key.ukey);
      lastSequenceForKey := MAX_SEQUENCE;
    }
    if lastSequenceForKey <= smallestSnapshot {
      drop := true;
    } else if key.typ.TypeDeletion? && key.seqno <= smallestSnapshot {
      drop := pointers.IsBaseLevelForKey(key.ukey);
    }
    lastSequenceForKey := key.seqno;
  }

  ghost predicate OutputsNumbered(outputs: seq<File>, firstNumber: nat) {
    AllWellFormed(outputs) && forall i :: 0 <= i < |outputs| ==> outputs[i].number == firstNumber + i
  }

  // ---------------------------------------------------------------- where outputs are cut

  /** What closes an output file early: being told to stop before an entry of the input, which stands
      for the overlap with grandparents, and the size of the table so far. */
  datatype Limits = Limits(stopBefore: seq<bool>, fileSize: seq<Entry> -> nat, maxFileSize: nat)

  ghost predicate IsFull(lim: Limits, es: seq<Entry>) {
    lim.fileSize(es) >= lim.maxFileSize
  }

  /** No file grows on after it has reached the limit. */
  ghost predicate FullOnlyAtEnd(lim: Limits, es: seq<Entry>) {
    forall m :: 0 < m < |es| ==> !IsFull(lim, es[..m])
  }

  /** No file goes on over an entry before which the loop was told to stop. */
  ghost predicate NoStopWithin(lim: Limits, input: seq<Entry>, n: nat, es: seq<Entry>)
    requires n <= |input| == |lim.stopBefore| && es != []
  {
    forall i :: 0 <= i < n && lim.stopBefore[i] ==>
      !Less(es[0].key, input[i].key) || !AtMost(input[i].key, es[|es| - 1].key)
  }

  /** A file ends because it is full, or because the loop was told to stop before what follows. */
  ghost predicate EndsBefore(lim: Limits, input: seq<Entry>, n: nat, es: seq<Entry>, next: IKey)
    requires n <= |input| == |lim.stopBefore| && es != []
  {
    IsFull(lim, es) ||
    exists i :: 0 <= i < n && lim.stopBefore[i] && Less(es[|es| - 1].key, input[i].key) && AtMost(input[i].key, next)
  }

  /** The rule for cutting: it leaves no choice. */
  ghost predicate CutRightly(lim: Limits, input: seq<Entry>, n: nat, runs: seq<seq<Entry>>)
    requires n <= |input| == |lim.stopBefore|
  {
    && (forall k :: 0 <= k < |runs| ==> runs[k] != [] && FullOnlyAtEnd(lim, runs[k]) && NoStopWithin(lim, input, n, runs[k]))
    && (forall k :: 0 < k < |runs| ==> runs[k] != [] && EndsBefore(lim, input, n, runs[k - 1], runs[k][0].key))
  }

  /** The file that is still open, after the first n entries of the input. */
  ghost predicate OpenRightly(lim: Limits, input: seq<Entry>, n: nat, runs: seq<seq<Entry>>, open: seq<Entry>)
    requires n <= |input| == |lim.stopBefore| && forall k :: 0 <= k < |runs| ==> runs[k] != []
  {
    && (forall m :: 0 < m <= |open| ==> !IsFull(lim, open[..m]))
    && (open != [] ==> forall i :: 0 <= i < n && lim.stopBefore[i] ==> !Less(open[0].key, input[i].key))
    && (runs != [] ==>
          var last := runs[|runs| - 1];
          if open != [] then EndsBefore(lim, input, n, last, open[0].key)
          else IsFull(lim, last) || exists i :: 0 <= i < n && lim.stopBefore[i] && Less(last[|last| - 1].key, input[i].key))
  }

  ghost predicate AllBefore(runs: seq<seq<Entry>>, open: seq<Entry>, key: IKey) {
    && (forall k, j :: 0 <= k < |runs| && 0 <= j < |runs[k]| ==> Less(runs[k][j].key, key))
    && (forall j :: 0 <= j < |open| ==> Less(open[j].key, key))
  }

  /** What is ahead does not concern a file that is closed. */
  lemma StillCut(lim: Limits, input: seq<Entry>, i: nat, runs: seq<seq<Entry>>)
    requires i < |input| == |lim.stopBefore| && CutRightly(lim, input, i, runs) && AllBefore(runs, [], input[i].key)
    ensures CutRightly(lim, input, i + 1, runs)
  {
    hide IsFull, FullOnlyAtEnd;
    forall k | 0 <= k < |runs| ensures NoStopWithin(lim, input, i + 1, runs[k]) {
      assert Less(runs[k][|runs[k]| - 1].key, input[i].key) && NoStopWithin(lim, input, i, runs[k]);
    }
    forall k | 0 < k < |runs| ensures EndsBefore(lim, input, i + 1, runs[k - 1], runs[k][0].key) {
      StillEnds(lim, input, i, runs[k - 1], runs[k][0].key);
    }
  }

  lemma StillEnds(lim: Limits, input: seq<Entry>, i: nat, es: seq<Entry>, next: IKey)
    requires i < |input| == |lim.stopBefore| && es != [] && EndsBefore(lim, input, i, es, next)
    ensures EndsBefore(lim, input, i + 1, es, next)
  {
  }

  lemma GoOn(lim: Limits, input: seq<Entry>, i: nat, runs: seq<seq<Entry>>, open: seq<Entry>)
    requires i < |input| == |lim.stopBefore| && (forall k :: 0 <= k < |runs| ==> runs[k] != [])
    requires OpenRightly(lim, input, i, runs, open) && (open != [] ==> !lim.stopBefore[i])
    ensures OpenRightly(lim, input, i + 1, runs, open)
  {
    hide IsFull;
    if runs != [] && open != [] { StillEnds(lim, input, i, runs[|runs| - 1], open[0].key); }
  }

  lemma Stop(lim: Limits, input: seq<Entry>, i: nat, runs: seq<seq<Entry>>, open: seq<Entry>)
    requires i < |input| == |lim.stopBefore| && CutRightly(lim, input, i + 1, runs) && OpenRightly(lim, input, i, runs, open)
    requires open != [] && lim.stopBefore[i] && Less(open[|open| - 1].key, input[i].key)
    ensures CutRightly(lim, input, i + 1, runs + [open]) && OpenRightly(lim, input, i + 1, runs + [open], [])
  {
    hide IsFull;
    assert FullOnlyAtEnd(lim, open) && NoStopWithin(lim, input, i + 1, open);
    if runs != [] { StillEnds(lim, input, i, runs[|runs| - 1], open[0].key); }
    var runs' := runs + [open];
    assert forall k :: 0 <= k < |runs| ==> runs'[k] == runs[k];
  }

  lemma AddToOpen(lim: Limits, input: seq<Entry>, i: nat, runs: seq<seq<Entry>>, open: seq<Entry>)
    requires i < |input| == |lim.stopBefore| && Sorted(input)
    requires CutRightly(lim, input, i + 1, runs) && OpenRightly(lim, input, i + 1, runs, open)
    requires open != [] ==> !lim.stopBefore[i]
    ensures var open' := open + [input[i]];
            if IsFull(lim, open') then CutRightly(lim, input, i + 1, runs + [open']) && OpenRightly(lim, input, i + 1, runs + [open'], [])
            else OpenRightly(lim, input, i + 1, runs, open')
  {
    hide IsFull;
    var open' := open + [input[i]];
    assert open'[..|open'|] == open';
    forall m | 0 < m < |open'| ensures !IsFull(lim, open'[..m]) { assert open'[..m] == open[..m]; }
    forall j | 0 <= j <= i ensures AtMost(input[j].key, input[i].key) {}
    assert NoStopWithin(lim, input, i + 1, open');
    if runs != [] {
      assert EndsBefore(lim, input, i + 1, runs[|runs| - 1], open'[0].key);
    }
  }

  /** The entries of each file. */
  function RunsOf(fs: seq<File>): (runs: seq<seq<Entry>>)
    ensures |runs| == |fs|
  {
    seq(|fs|, i requires 0 <= i < |fs| => fs[i].entries)
  }

  lemma KeptBefore(v: Version, level: nat, input: seq<Entry>, i: nat, snapshot: nat, outputs: seq<File>, open: seq<Entry>)
    requires i < |input| && Sorted(input) && Concat(outputs) + open == Kept(v, level, input, i, snapshot)
    ensures AllBefore(RunsOf(outputs), open, input[i].key)
  {
    KeptMembers(v, level, input, i, snapshot);
    var kept := Kept(v, level, input, i, snapshot);
    forall e | e in kept ensures Less(e.key, input[i].key) {}
    forall k, j | 0 <= k < |outputs| && 0 <= j < |outputs[k].entries| ensures outputs[k].entries[j] in kept {
      InConcat(outputs, k, j);
    }
    forall j | 0 <= j < |open| ensures open[j] in kept { assert kept[|Concat(outputs)| + j] == open[j]; }
  }

  lemma {:induction false} InConcat(fs: seq<File>, k: nat, j: nat)
    requires k < |fs| && j < |fs[k].entries|
    ensures fs[k].entries[j] in Concat(fs)
    decreases |fs|
  {
    if k < |fs| - 1 { InConcat(fs[..|fs| - 1], k, j); }
  }

  /** DBImpl::DoCompactionWork up to the installation of its outputs. */
  method DoCompactionWork(v: Version, level: nat, input: seq<Entry>, smallestSnapshot: nat, lim: Limits, firstNumber: nat)
    returns (outputs: seq<File>, nextNumber: nat)
    requires ValidLevels(v) && Sorted(input) && |lim.stopBefore| == |input|
    requires smallestSnapshot < MAX_SEQUENCE
    ensures Concat(outputs) == Kept(v, level, input, |input|, smallestSnapshot)
    ensures CutRightly(lim, input, |input|, RunsOf(outputs))
    ensures OutputsNumbered(outputs, firstNumber)
    ensures SizesAre(lim.fileSize, outputs)
    ensures nextNumber == firstNumber + |outputs|
  {
    hide Progress, ValidLevels, Dropped, Kept, CutRightly, OutputsNumbered;
    var pointers := new BaseLevelPointers(v, level);
    var currentUserKey: Option<UserKey> := None;
    var lastSequenceForKey := MAX_SEQUENCE;
    var builder: seq<Entry> := [];  // entries of the open output file
    outputs := [];
    NoProgress(v, level, input, smallestSnapshot, lim, firstNumber);
    for i := 0 to |input|
      invariant fresh(pointers) && AskedUpTo(pointers, v, level, input, i)
      invariant Remembers(input, i, currentUserKey, lastSequenceForKey)
      invariant Progress(v, level, input, i, i, smallestSnapshot, lim, firstNumber, outputs, builder)
    {
      StopProgress(v, level, input, i, smallestSnapshot, lim, firstNumber, outputs, builder);
      if lim.stopBefore[i] && builder != [] {
        outputs, builder := FinishOutputFile(outputs, builder, firstNumber, lim.fileSize);
      }
      var drop;
      drop, currentUserKey, lastSequenceForKey :=
        DropEntry(pointers, v, level, input, i, currentUserKey, lastSequenceForKey, smallestSnapshot);
      EntryProgress(v, level, input, i, smallestSnapshot, lim, firstNumber, outputs, builder);
      if !drop {
        builder := builder + [input[i]];
        if lim.fileSize(builder) >= lim.maxFileSize {
          outputs, builder := FinishOutputFile(outputs, builder, firstNumber, lim.fileSize);
        }
      }
    }
    EndProgress(v, level, input, smallestSnapshot, lim, firstNumber, outputs, builder);
    if builder != [] {
      outputs, builder := FinishOutputFile(outputs, builder, firstNumber, lim.fileSize);
    }
    nextNumber := firstNumber + |outputs|;
  }

  /** The open file as the next output. */
  function Closed(outputs: seq<File>, builder: seq<Entry>, firstNumber: nat, fileSize: seq<Entry> -> nat): seq<File>
    requires builder != []
  {
    outputs + [NewFile(firstNumber + |outputs|, fileSize(builder), builder)]
  }

  ghost predicate SizesAre(fileSize: seq<Entry> -> nat, outputs: seq<File>) {
    forall k :: 0 <= k < |outputs| ==> outputs[k].size == fileSize(outputs[k].entries)
  }

  /** The state of the loop with the first i entries handled and the first n tests for stopping made. */
  ghost predicate Progress(v: Version, level: nat, input: seq<Entry>, i: nat, n: nat, snapshot: nat, lim: Limits,
                           firstNumber: nat, outputs: seq<File>, builder: seq<Entry>)
    requires i <= |input| && n <= |input| == |lim.stopBefore|
  {
    && Concat(outputs) + builder == Kept(v, level, input, i, snapshot)
    && Sorted(builder) && OutputsNumbered(outputs, firstNumber) && SizesAre(lim.fileSize, outputs)
    && CutRightly(lim, input, n, RunsOf(outputs)) && OpenRightly(lim, input, n, RunsOf(outputs), builder)
  }

  lemma NoProgress(v: Version, level: nat, input: seq<Entry>, snapshot: nat, lim: Limits, firstNumber: nat)
    requires |input| == |lim.stopBefore|
    ensures Progress(v, level, input, 0, 0, snapshot, lim, firstNumber, [], [])
  {
  }

  lemma ClosedFile(outputs: seq<File>, builder: seq<Entry>, firstNumber: nat, fileSize: seq<Entry> -> nat)
    requires builder != [] && Sorted(builder) && OutputsNumbered(outputs, firstNumber) && SizesAre(fileSize, outputs)
    ensures var outputs' := Closed(outputs, builder, firstNumber, fileSize);
            && Concat(outputs') == Concat(outputs) + builder && RunsOf(outputs') == RunsOf(outputs) + [builder]
            && OutputsNumbered(outputs', firstNumber) && SizesAre(fileSize, outputs')
  {
    var outputs' := Closed(outputs, builder, firstNumber, fileSize);
    assert outputs'[..|outputs|] == outputs;
  }

  lemma StopProgress(v: Version, level: nat, input: seq<Entry>, i: nat, snapshot: nat, lim: Limits, firstNumber: nat,
                     outputs: seq<File>, builder: seq<Entry>)
    requires i < |input| == |lim.stopBefore| && Sorted(input)
    requires Progress(v, level, input, i, i, snapshot, lim, firstNumber, outputs, builder)
    ensures if lim.stopBefore[i] && builder != [] then
              Progress(v, level, input, i, i + 1, snapshot, lim, firstNumber, Closed(outputs, builder, firstNumber, lim.fileSize), [])
            else Progress(v, level, input, i, i + 1, snapshot, lim, firstNumber, outputs, builder)
  {
    hide CutRightly, OpenRightly, Kept, Concat, OutputsNumbered, Sorted, SizesAre, RunsOf;
    KeptBefore(v, level, input, i, snapshot, outputs, builder);
    StillCut(lim, input, i, RunsOf(outputs));
    if lim.stopBefore[i] && builder != [] {
      Stop(lim, input, i, RunsOf(outputs), builder);
      ClosedFile(outputs, builder, firstNumber, lim.fileSize);
      EmptySorted();
    } else {
      RunsNotEmpty(lim, input, i, RunsOf(outputs));
      GoOn(lim, input, i, RunsOf(outputs), builder);
    }
  }

  lemma RunsNotEmpty(lim: Limits, input: seq<Entry>, n: nat, runs: seq<seq<Entry>>)
    requires n <= |input| == |lim.stopBefore| && CutRightly(lim, input, n, runs)
    ensures forall k :: 0 <= k < |runs| ==> runs[k] != []
  {
  }

  lemma EmptySorted()
    ensures Sorted([])
  {
  }

  lemma EntryProgress(v: Version, level: nat, input: seq<Entry>, i: nat, snapshot: nat, lim: Limits, firstNumber: nat,
                      outputs: seq<File>, builder: seq<Entry>)
    requires i < |input| == |lim.stopBefore| && Sorted(input)
    requires Progress(v, level, input, i, i + 1, snapshot, lim, firstNumber, outputs, builder)
    requires builder != [] ==> !lim.stopBefore[i]
    ensures var builder' := builder + [input[i]];
            if Dropped(v, level, input, i, snapshot) then
              Progress(v, level, input, i + 1, i + 1, snapshot, lim, firstNumber, outputs, builder)
            else if IsFull(lim, builder') then
              Progress(v, level, input, i + 1, i + 1, snapshot, lim, firstNumber, Closed(outputs, builder', firstNumber, lim.fileSize), [])
            else Progress(v, level, input, i + 1, i + 1, snapshot, lim, firstNumber, outputs, builder')
  {
    hide CutRightly, OpenRightly, Concat, OutputsNumbered, Sorted, SizesAre, IsFull, RunsOf;
    if Dropped(v, level, input, i, snapshot) {
      assert Kept(v, level, input, i + 1, snapshot) == Kept(v, level, input, i, snapshot);
    } else {
      AddKeepsOrder(v, level, input, i, snapshot, Concat(outputs), builder);
      AddToOpen(lim, input, i, RunsOf(outputs), builder);
      if IsFull(lim, builder + [input[i]]) {
        ClosedFile(outputs, builder + [input[i]], firstNumber, lim.fileSize);
        EmptySorted();
      }
    }
  }

  lemma EndProgress(v: Version, level: nat, input: seq<Entry>, snapshot: nat, lim: Limits, firstNumber: nat,
                    outputs: seq<File>, builder: seq<Entry>)
    requires |input| == |lim.stopBefore| && Progress(v, level, input, |input|, |input|, snapshot, lim, firstNumber, outputs, builder)
    ensures var outputs' := if builder != [] then Closed(outputs, builder, firstNumber, lim.fileSize) else outputs;
            && Concat(outputs') == Kept(v, level, input, |input|, snapshot)
            && CutRightly(lim, input, |input|, RunsOf(outputs'))
            && OutputsNumbered(outputs', firstNumber) && SizesAre(lim.fileSize, outputs')
  {
    hide Kept, Sorted, IsFull;
    if builder != [] {
      ClosedFile(outputs, builder, firstNumber, lim.fileSize);
      var runs := RunsOf(outputs);
      assert FullOnlyAtEnd(lim, builder) && NoStopWithin(lim, input, |input|, builder);
      assert forall k :: 0 <= k < |runs| ==> (runs + [builder])[k] == runs[k];
    }
  }

  lemma AddKeepsOrder(v: Version, level: nat, input: seq<Entry>, i: nat, snapshot: nat, done: seq<Entry>, builder: seq<Entry>)
    requires i < |input| && Sorted(input)
    requires done + builder == Kept(v, level, input, i, snapshot)
    requires !Dropped(v, level, input, i, snapshot)
    ensures done + (builder + [input[i]]) == Kept(v, level, input, i + 1, snapshot)
    ensures Sorted(builder + [input[i]])
  {
    KeptSorted(v, level, input, i + 1, snapshot);
    assert done + (builder + [input[i]]) == (done + builder) + [input[i]];
    SuffixSorted(done, builder + [input[i]]);
  }

  lemma SuffixSorted(a: seq<Entry>, b: seq<Entry>)
    requires Sorted(a + b)
    ensures Sorted(b)
  {
    forall i, j | 0 <= i < j < |b| ensures Less(b[i].key, b[j].key) {
      assert (a + b)[|a| + i] == b[i] && (a + b)[|a| + j] == b[j];
    }
  }

  method FinishOutputFile(outputs: seq<File>, builder: seq<Entry>, firstNumber: nat, fileSize: seq<Entry> -> nat)
    returns (outputs': seq<File>, builder': seq<Entry>)
    requires builder != []
    ensures outputs' == Closed(outputs, builder, firstNumber, fileSize) && builder' == []
  {
    outputs' := outputs + [NewFile(firstNumber + |outputs|, fileSize(builder), builder)];
    builder' := [];
  }

  /** Cutting a sorted run into files gives disjoint files with the same entries. */
  lemma {:induction false} OutputsPartition(outputs: seq<File>)
    requires AllWellFormed(outputs) && Sorted(Concat(outputs))
    ensures Disjoint(outputs)
    ensures forall e :: e in Concat(outputs) <==> e in LevelEntries(outputs)
  {
    if outputs != [] {
      var n := |outputs| - 1;
      var init, last := outputs[..n], outputs[n];
      assert AllWellFormed(init);
      assert Sorted(Concat(init)) by {
        assert forall i :: 0 <= i < |Concat(init)| ==> Concat(outputs)[i] == Concat(init)[i];
      }
      OutputsPartition(init);
      assert outputs == init + [last];
      forall i | 0 <= i < n ensures Less(outputs[i].largest, last.smallest) {
        EndsAreEntries(outputs[i]);
        var e :| e in outputs[i].entries && e.key == outputs[i].largest;
        assert outputs[i] in init && e in LevelEntries(init);
        var x :| 0 <= x < |Concat(init)| && Concat(init)[x] == e;
        assert Concat(outputs)[x] == e && Concat(outputs)[|Concat(init)|] == last.entries[0];
      }
    }
  }
}
