/** The two input sets of a compaction: PickCompaction, CompactRange and SetupOtherInputs
    (db/version_set.cc). */
module CompactionInputs {
  import opened Keys
  import opened Reads
  import opened Versions
  import opened InputSelection

  datatype Compaction = Compaction(level: nat, inputs0: seq<File>, inputs1: seq<File>,
                                   grandparents: seq<File>, compactPointer: IKey)

  ghost predicate IsRun(files: seq<File>, inputs: seq<File>) {
    exists a, b :: 0 <= a < b <= |files| && inputs == files[a..b]
  }

  ghost predicate IsClosedSelection(files: seq<File>, inputs: seq<File>) {
    exists lo, hi :: inputs == Overlapping(files, lo, hi) && ClosedRange(files, lo, hi)
  }

  /** How the first input list of a compaction arises: closed under overlap at level 0, where files
      may share keys, and a run of neighbouring files above. */
  ghost predicate IsSelection(files: seq<File>, level: nat, inputs: seq<File>) {
    inputs != [] && if level == 0 then IsClosedSelection(files, inputs) else IsRun(files, inputs)
  }

  /** A file left behind holds only newer entries of any user key it shares with a selected one. */
  ghost predicate LeavesOnlyNewer(files: seq<File>, inputs: seq<File>) {
    forall f, g :: f in inputs && g in files && g !in inputs ==> NewerThan(FileEntries(g), FileEntries(f))
  }

  function LowUser(inputs: seq<File>): UserKey requires inputs != [] { SmallestKey(inputs).ukey }
  function HighUser(inputs: seq<File>): UserKey requires inputs != [] { LargestKey(inputs).ukey }

  /** What the compaction and the trivial move rely on. */
  ghost predicate WellChosen(v: Version, c: Compaction) {
    && c.level + 1 < NUM_LEVELS
    && c.inputs0 != []
    && (forall f :: f in c.inputs0 ==> f in v[c.level])
    && DistinctNumbers(c.inputs0)
    && (c.level > 0 ==> Disjoint(c.inputs0))
    && LeavesOnlyNewer(v[c.level], c.inputs0)
    && c.inputs1 == Overlapping(v[c.level + 1], Some(LowUser(c.inputs0)), Some(HighUser(c.inputs0)))
  }

  /** What a level must look like for inputs to be selected from it. */
  ghost predicate LevelOk(files: seq<File>, level: nat) {
    && AllWellFormed(files) && DistinctNumbers(files)
    && (level > 0 ==> Disjoint(files))
    && DistinctSeqnos(LevelEntries(files))
  }

  lemma ValidVersionLevel(v: Version, l: nat)
    requires Versions.Valid(v) && l < NUM_LEVELS
    ensures LevelOk(v[l], l)
  {
    assert LevelEntries(v[l]) <= VersionEntries(v);
  }

  lemma {:induction false} OverlappingDistinct(files: seq<File>, lo: Option<UserKey>, hi: Option<UserKey>)
    requires DistinctNumbers(files)
    ensures DistinctNumbers(Overlapping(files, lo, hi))
  {
    if files != [] {
      var n := |files| - 1;
      OverlappingDistinct(files[..n], lo, hi);
      OverlappingMembers(files[..n], lo, hi);
      var before := Overlapping(files[..n], lo, hi);
      forall i | 0 <= i < |before| ensures before[i].number != files[n].number {
        assert before[i] in before;
      }
    }
  }

  /** Widening the range can only add files, and adds none only if the list stays the same. */
  lemma {:induction false} OverlappingGrows(files: seq<File>, lo: Option<UserKey>, hi: Option<UserKey>,
                                            lo': Option<UserKey>, hi': Option<UserKey>)
    requires Contains(lo', hi', lo, hi)
    ensures |Overlapping(files, lo, hi)| <= |Overlapping(files, lo', hi')|
    ensures |Overlapping(files, lo, hi)| == |Overlapping(files, lo', hi')| ==>
              Overlapping(files, lo, hi) == Overlapping(files, lo', hi')
  {
    if files != [] {
      OverlappingGrows(files[..|files| - 1], lo, hi, lo', hi');
    }
  }

  lemma BetweenOverlaps(files: seq<File>, i: nat, j: nat, k: nat, lo: Option<UserKey>, hi: Option<UserKey>)
    requires AllWellFormed(files) && Disjoint(files) && i <= j <= k < |files|
    requires Overlaps(files[i], lo, hi) && Overlaps(files[k], lo, hi)
    ensures Overlaps(files[j], lo, hi)
  {
    EndsAreEntries(files[i]);
    EndsAreEntries(files[j]);
    EndsAreEntries(files[k]);
  }

  lemma {:induction false} OverlapsInterval(files: seq<File>, n: nat, lo: Option<UserKey>, hi: Option<UserKey>)
    returns (a: nat, b: nat)
    requires AllWellFormed(files) && Disjoint(files) && n <= |files|
    ensures a <= b <= n
    ensures forall i :: 0 <= i < n ==> (Overlaps(files[i], lo, hi) <==> a <= i < b)
  {
    if n == 0 {
      return 0, 0;
    }
    a, b := OverlapsInterval(files, n - 1, lo, hi);
    if Overlaps(files[n - 1], lo, hi) {
      if a == b {
        a := n - 1;
      } else {
        BetweenOverlaps(files, a, n - 2, n - 1, lo, hi);
      }
      b := n;
    }
  }

  lemma {:induction false} OverlappingOfInterval(files: seq<File>, n: nat, lo: Option<UserKey>, hi: Option<UserKey>, a: nat, b: nat)
    requires a <= b <= n <= |files|
    requires forall i :: 0 <= i < n ==> (Overlaps(files[i], lo, hi) <==> a <= i < b)
    ensures Overlapping(files[..n], lo, hi) == files[a..b]
  {
    if n > 0 {
      assert files[..n][..n - 1] == files[..n - 1];
      if b == n && a < b {
        OverlappingOfInterval(files, n - 1, lo, hi, a, b - 1);
        SliceSnoc(files, a, b - 1);
      } else {
        OverlappingOfInterval(files, n - 1, lo, hi, if a == n then n - 1 else a, if a == b == n then n - 1 else b);
      }
    }
  }

  /** In key order the files that meet a range are neighbours. */
  lemma OverlappingIsRun(files: seq<File>, lo: Option<UserKey>, hi: Option<UserKey>) returns (a: nat, b: nat)
    requires AllWellFormed(files) && Disjoint(files)
    ensures a <= b <= |files| && Overlapping(files, lo, hi) == files[a..b]
    ensures forall i :: 0 <= i < |files| ==> (Overlaps(files[i], lo, hi) <==> a <= i < b)
  {
    a, b := OverlapsInterval(files, |files|, lo, hi);
    OverlappingOfInterval(files, |files|, lo, hi, a, b);
    assert files[..|files|] == files;
  }

  lemma RunLargestKey(files: seq<File>, a: nat, b: nat)
    requires AllWellFormed(files) && Disjoint(files) && a < b <= |files|
    ensures LargestKey(files[a..b]) == files[b - 1].largest
  {
    assert files[a..b][..b - a - 1] == files[a..b - 1];
    if a < b - 1 {
      RunLargestKey(files, a, b - 1);
      EndsAreEntries(files[b - 1]);
    }
  }

  /** The file that continues a run's last user key can only be its right neighbour. */
  lemma SmallestBoundaryIsNext(files: seq<File>, c: nat, f: File)
    requires AllWellFormed(files) && Disjoint(files) && 0 < c <= |files|
    requires IsSmallestBoundary(files, files[c - 1].largest, f)
    ensures c < |files| && f == files[c]
  {
    var i :| 0 <= i < |files| && files[i] == f;
    EndsAreEntries(files[c - 1]);
    EndsAreEntries(f);
    if i > c {
      EndsAreEntries(files[c]);
      assert files[c] in files && IsBoundary(files[c], files[c - 1].largest);
    }
  }

  lemma SliceExtends<T>(s: seq<T>, a: nat, b: nat, t: seq<T>)
    requires a <= b <= b + |t| <= |s|
    requires forall i :: 0 <= i < |t| ==> t[i] == s[b + i]
    ensures s[a..b] + t == s[a..b + |t|]
  {
  }

  /** Starting from a run, AddBoundaryInputs extends the run to the right. */
  lemma {:induction false} BoundaryExtendsRun(files: seq<File>, b: nat, added: seq<File>)
    requires AllWellFormed(files) && Disjoint(files) && 0 < b <= |files|
    requires BoundaryChain(files, files[b - 1].largest, added)
    ensures b + |added| <= |files|
    ensures forall i :: 0 <= i < |added| ==> added[i] == files[b + i]
  {
    hide Less;
    if added != [] {
      var n := |added| - 1;
      BoundaryExtendsRun(files, b, added[..n]);
      SmallestBoundaryIsNext(files, b + n, added[n]);
    }
  }

  lemma RunLeavesOnlyNewer(files: seq<File>, a: nat, b: nat)
    requires AllWellFormed(files) && Disjoint(files) && a < b <= |files|
    requires DistinctSeqnos(LevelEntries(files))
    requires NoBoundary(files, files[b - 1].largest)
    ensures LeavesOnlyNewer(files, files[a..b])
    ensures forall f :: f in files[a..b] ==> f in files
  {
    assert b < |files| ==> !IsBoundary(files[b], files[b - 1].largest);
    forall f, g | f in files[a..b] && g in files && g !in files[a..b]
      ensures NewerThan(FileEntries(g), FileEntries(f))
    {
      var i :| a <= i < b && files[i] == f;
      var j :| 0 <= j < |files| && files[j] == g && !(a <= j < b);
      OutsideRunIsNewer(files, a, b, i, j);
    }
  }

  lemma OutsideRunIsNewer(files: seq<File>, a: nat, b: nat, i: nat, j: nat)
    requires AllWellFormed(files) && Disjoint(files) && a <= i < b <= |files|
    requires DistinctSeqnos(LevelEntries(files))
    requires b < |files| ==> !IsBoundary(files[b], files[b - 1].largest)
    requires j < |files| && (j < a || b <= j)
    ensures NewerThan(FileEntries(files[j]), FileEntries(files[i]))
  {
    forall x, y | x in files[j].entries && y in files[i].entries && x.key.ukey == y.key.ukey
      ensures x.key.seqno > y.key.seqno
    {
      if j >= b {
        RunGap(files, i, b, j, y, x);
      } else {
        EarlierFileEarlierEntries(files, j, i, x, y);
        EarlierSameKeyIsNewer(x, y, LevelEntries(files));
      }
    }
  }

  lemma RunDistinct(files: seq<File>, a: nat, b: nat)
    requires a <= b <= |files| && DistinctNumbers(files)
    ensures DistinctNumbers(files[a..b])
    ensures Disjoint(files) ==> Disjoint(files[a..b])
  {
  }

  /** If an entry before position b and one at or after it have the same user key, then that user
      key ends the file before b and starts the file at b. */
  lemma RunGap(files: seq<File>, i: nat, b: nat, j: nat, y: Entry, x: Entry)
    requires AllWellFormed(files) && Disjoint(files) && i < b <= j < |files|
    requires y in files[i].entries && x in files[j].entries && x.key.ukey == y.key.ukey
    ensures IsBoundary(files[b], files[b - 1].largest)
  {
    EntryWithinFile(files[i], y);
    EntryWithinFile(files[j], x);
    EndsAreEntries(files[b]);
    EndsAreEntries(files[b - 1]);
  }

  lemma ClosedSelectionLeavesOnlyNewer(files: seq<File>, inputs: seq<File>)
    requires AllWellFormed(files) && IsClosedSelection(files, inputs)
    ensures LeavesOnlyNewer(files, inputs)
  {
    var lo, hi :| inputs == Overlapping(files, lo, hi) && ClosedRange(files, lo, hi);
    OverlappingMembers(files, lo, hi);
    forall f, g, x, y | f in inputs && g in files && g !in inputs &&
        x in FileEntries(g) && y in FileEntries(f)
      ensures x.key.ukey != y.key.ukey
    {
      EntryWithinFile(f, y);
      EntryWithinFile(g, x);
    }
  }

  /** At level 0 a closed selection has no boundary file left to add. */
  lemma ClosedSelectionHasNoBoundary(files: seq<File>, inputs: seq<File>)
    requires AllWellFormed(files) && IsClosedSelection(files, inputs) && inputs != []
    ensures NoBoundary(files, LargestKey(inputs))
  {
    var lo, hi :| inputs == Overlapping(files, lo, hi) && ClosedRange(files, lo, hi);
    OverlappingMembers(files, lo, hi);
    RangeCoversFiles(inputs);
    forall f | f in files ensures !IsBoundary(f, LargestKey(inputs)) {
      var g :| g in inputs && g.largest == LargestKey(inputs);
      EndsAreEntries(f);
      EndsAreEntries(g);
      assert f in inputs <==> Overlaps(f, lo, hi);
    }
  }

  /** AddBoundaryInputs turns a selection into one that leaves only newer entries behind. */
  method CloseSelection(files: seq<File>, level: nat, start: seq<File>) returns (inputs: seq<File>)
    requires LevelOk(files, level) && IsSelection(files, level, start)
    ensures IsSelection(files, level, inputs)
    ensures IsClosure(files, start, inputs)
    ensures ClosedInputs(files, level, inputs)
  {
    ghost var added;
    inputs, added := AddBoundaryInputs(files, start);
    SelectionClosed(files, level, start, added);
  }

  ghost predicate ClosedInputs(files: seq<File>, level: nat, inputs: seq<File>) {
    && (forall f :: f in inputs ==> f in files)
    && DistinctNumbers(inputs)
    && (level > 0 ==> Disjoint(inputs))
    && LeavesOnlyNewer(files, inputs)
  }

  lemma SelectionClosed(files: seq<File>, level: nat, start: seq<File>, added: seq<File>)
    requires LevelOk(files, level) && IsSelection(files, level, start)
    requires BoundaryChain(files, LargestKey(start), added) && NoBoundary(files, LastKey(LargestKey(start), added))
    ensures IsSelection(files, level, start + added) && ClosedInputs(files, level, start + added)
  {
    if level == 0 {
      ClosedSelectionHasNoBoundary(files, start);
      NoChainFromNoBoundary(files, LargestKey(start), added);
      assert start + added == start;
      ClosedSelectionLeavesOnlyNewer(files, start);
      ClosedSelectionDistinct(files, start);
    } else {
      var a, b :| 0 <= a < b <= |files| && start == files[a..b];
      RunClosed(files, a, b, added);
    }
  }

  lemma {:induction false} NoChainFromNoBoundary(files: seq<File>, largest: IKey, added: seq<File>)
    requires BoundaryChain(files, largest, added) && NoBoundary(files, largest)
    ensures added == []
  {
    if added != [] {
      NoChainFromNoBoundary(files, largest, added[..|added| - 1]);
    }
  }

  lemma RunClosed(files: seq<File>, a: nat, b: nat, added: seq<File>)
    requires AllWellFormed(files) && Disjoint(files) && DistinctNumbers(files) && DistinctSeqnos(LevelEntries(files))
    requires a < b <= |files|
    requires BoundaryChain(files, LargestKey(files[a..b]), added)
    requires NoBoundary(files, LastKey(LargestKey(files[a..b]), added))
    ensures IsRun(files, files[a..b] + added) && ClosedInputs(files, 1, files[a..b] + added)
  {
    var c := RunExtended(files, a, b, added);
    RunLeavesOnlyNewer(files, a, c);
    RunDistinct(files, a, c);
  }

  lemma RunExtended(files: seq<File>, a: nat, b: nat, added: seq<File>) returns (c: nat)
    requires AllWellFormed(files) && Disjoint(files) && a < b <= |files|
    requires BoundaryChain(files, LargestKey(files[a..b]), added)
    ensures b <= c <= |files| && files[a..b] + added == files[a..c]
    ensures LastKey(LargestKey(files[a..b]), added) == files[c - 1].largest
  {
    RunLargestKey(files, a, b);
    BoundaryExtendsRun(files, b, added);
    SliceExtends(files, a, b, added);
    c := b + |added|;
  }

  lemma ClosedSelectionDistinct(files: seq<File>, inputs: seq<File>)
    requires IsClosedSelection(files, inputs) && DistinctNumbers(files)
    ensures DistinctNumbers(inputs)
    ensures forall f :: f in inputs ==> f in files
  {
    var lo, hi :| inputs == Overlapping(files, lo, hi) && ClosedRange(files, lo, hi);
    OverlappingMembers(files, lo, hi);
    OverlappingDistinct(files, lo, hi);
  }

  /** What the first list might grow to: everything that meets the range of both lists, closed. */
  ghost predicate MayGrowTo(files: seq<File>, level: nat, base: seq<File>, inputs1: seq<File>, grown: seq<File>)
    requires base != []
  {
    exists selected ::
      && selected != []
      && IsOverlapping(files, level, Some(LowUser(base + inputs1)), Some(HighUser(base + inputs1)), selected)
      && IsClosure(files, selected, grown)
  }

  /** It grows if that gives more files, both lists together are smaller than 25 files may be, and the
      second list does not get longer. */
  ghost predicate Grows(below: seq<File>, base: seq<File>, inputs1: seq<File>, grown: seq<File>, maxFileSize: nat)
    requires grown != []
  {
    && |grown| > |base|
    && TotalFileSize(inputs1) + TotalFileSize(grown) < 25 * maxFileSize
    && |Overlapping(below, Some(LowUser(grown)), Some(HighUser(grown)))| == |inputs1|
  }

  ghost predicate FirstList(files: seq<File>, below: seq<File>, level: nat, base: seq<File>, inputs1: seq<File>,
                            maxFileSize: nat, inputs0: seq<File>)
    requires base != []
  {
    if inputs1 == [] then inputs0 == base
    else exists grown ::
      && grown != [] && MayGrowTo(files, level, base, inputs1, grown)
      && inputs0 == if Grows(below, base, inputs1, grown, maxFileSize) then grown else base
  }

  /** What SetupOtherInputs makes of a first list: `base` is that list with its boundary files. */
  ghost predicate SetUp(v: Version, level: nat, start: seq<File>, base: seq<File>, maxFileSize: nat, c: Compaction) {
    && start != [] && base != [] && level + 1 < NUM_LEVELS && c.level == level && c.inputs0 != []
    && IsClosure(v[level], start, base)
    && c.inputs1 == Overlapping(v[level + 1], Some(LowUser(base)), Some(HighUser(base)))
    && FirstList(v[level], v[level + 1], level, base, c.inputs1, maxFileSize, c.inputs0)
    && c.grandparents == (if level + 2 < NUM_LEVELS
         then Overlapping(v[level + 2], Some(LowUser(c.inputs0 + c.inputs1)), Some(HighUser(c.inputs0 + c.inputs1)))
         else [])
    && c.compactPointer == LargestKey(c.inputs0)
  }

  /** VersionSet::SetupOtherInputs. */
  method SetupOtherInputs(v: Version, level: nat, start: seq<File>, maxFileSize: nat)
    returns (c: Compaction, ghost base: seq<File>)
    requires level + 1 < NUM_LEVELS && LevelOk(v[level], level) && LevelOk(v[level + 1], level + 1)
    requires IsSelection(v[level], level, start)
    ensures c.level == level && WellChosen(v, c)
    ensures SetUp(v, level, start, base, maxFileSize, c)
    // Nothing asked for was left out, and growing the first list did not change the second.
    ensures forall f :: f in start ==> f in c.inputs0
    ensures c.inputs1 == Overlapping(v[level + 1], Some(LowUser(c.inputs0)), Some(HighUser(c.inputs0)))
  {
    hide Overlapping, LargestKey, SmallestKey, IsWidened, IsClosure, FirstList, ClosedInputs, LevelOk, IsSelection, WellChosen;
    SelectionNotEmpty(v[level], level, start);
    var inputs0 := CloseSelection(v[level], level, start);
    ClosureKeeps(v[level], start, inputs0);
    base := inputs0;
    NothingToGrow(v[level], v[level + 1], level, base, maxFileSize);
    var smallest, largest := GetRange(inputs0);
    var inputs1, _, _ := GetOverlappingInputs(v[level + 1], level + 1, Some(smallest.ukey), Some(largest.ukey));
    WidenedAbove(v[level + 1], level + 1, Some(smallest.ukey), Some(largest.ukey));
    if inputs1 != [] {
      inputs0 := ExpandInputs(v[level], v[level + 1], level, inputs0, inputs1, maxFileSize);
      smallest, largest := GetRange(inputs0);
    }
    var allStart, allLimit := GetRange(inputs0 + inputs1);
    var grandparents := [];
    if level + 2 < NUM_LEVELS {
      ghost var gLo, gHi;
      grandparents, gLo, gHi := GetOverlappingInputs(v[level + 2], level + 2, Some(allStart.ukey), Some(allLimit.ukey));
      WidenedAbove(v[level + 2], level + 2, Some(allStart.ukey), Some(allLimit.ukey));
    }
    c := Compaction(level, inputs0, inputs1, grandparents, largest);
    ClosedIsWellChosen(v, c);
  }

  lemma ClosedIsWellChosen(v: Version, c: Compaction)
    requires c.level + 1 < NUM_LEVELS && c.inputs0 != [] && ClosedInputs(v[c.level], c.level, c.inputs0)
    requires c.inputs1 == Overlapping(v[c.level + 1], Some(LowUser(c.inputs0)), Some(HighUser(c.inputs0)))
    ensures WellChosen(v, c)
  {
  }

  lemma ClosureKeeps(files: seq<File>, start: seq<File>, inputs: seq<File>)
    requires start != [] && IsClosure(files, start, inputs)
    ensures inputs != [] && forall f :: f in start ==> f in inputs
  {
    hide BoundaryChain, LargestKey;
  }

  lemma SelectionNotEmpty(files: seq<File>, level: nat, inputs: seq<File>)
    requires IsSelection(files, level, inputs)
    ensures inputs != []
  {
  }

  lemma NothingToGrow(files: seq<File>, below: seq<File>, level: nat, base: seq<File>, maxFileSize: nat)
    requires base != []
    ensures FirstList(files, below, level, base, [], maxFileSize, base)
  {
  }

  /** The part of SetupOtherInputs that grows the first list as far as the second allows. */
  method ExpandInputs(files: seq<File>, below: seq<File>, level: nat, inputs0: seq<File>, inputs1: seq<File>, maxFileSize: nat)
    returns (expanded: seq<File>)
    requires LevelOk(files, level) && inputs0 != [] && ClosedInputs(files, level, inputs0) && inputs1 != []
    requires inputs1 == Overlapping(below, Some(LowUser(inputs0)), Some(HighUser(inputs0)))
    ensures expanded != [] && ClosedInputs(files, level, expanded)
    ensures forall f :: f in inputs0 ==> f in expanded
    ensures inputs1 == Overlapping(below, Some(LowUser(expanded)), Some(HighUser(expanded)))
    ensures FirstList(files, below, level, inputs0, inputs1, maxFileSize, expanded)
  {
    var allStart, allLimit := GetRange(inputs0 + inputs1);
    var expanded0, lo, hi := GetOverlappingInputs(files, level, Some(allStart.ukey), Some(allLimit.ukey));
    ghost var selected := expanded0;
    ExpansionIsSelection(files, level, inputs0, inputs1, expanded0, lo, hi);
    expanded0 := CloseSelection(files, level, expanded0);
    assert MayGrowTo(files, level, inputs0, inputs1, expanded0);
    expanded := inputs0;
    if |expanded0| > |inputs0| &&
       TotalFileSize(inputs1) + TotalFileSize(expanded0) < ExpandedCompactionByteSizeLimit(maxFileSize)
    {
      var newStart, newLimit := GetRange(expanded0);
      var expanded1, _, _ := GetOverlappingInputs(below, level + 1, Some(newStart.ukey), Some(newLimit.ukey));
      WidenedAbove(below, level + 1, Some(newStart.ukey), Some(newLimit.ukey));
      if |expanded1| == |inputs1| {
        SubsetRange(inputs0, expanded0);
        OverlappingGrows(below, Some(LowUser(inputs0)), Some(HighUser(inputs0)), Some(newStart.ukey), Some(newLimit.ukey));
        expanded := expanded0;
      }
    }
  }

  lemma SubsetRange(small: seq<File>, big: seq<File>)
    requires small != [] && big != [] && forall f :: f in small ==> f in big
    ensures LowUser(big) <= LowUser(small) && HighUser(small) <= HighUser(big)
  {
    RangeCoversFiles(small);
    RangeCoversFiles(big);
  }

  /** The files that meet the whole range of a compaction include the ones it started from. */
  lemma ExpansionIsSelection(files: seq<File>, level: nat, inputs0: seq<File>, inputs1: seq<File>, expanded0: seq<File>,
                             lo: Option<UserKey>, hi: Option<UserKey>)
    requires LevelOk(files, level)
    requires inputs0 != [] && forall f :: f in inputs0 ==> f in files
    requires expanded0 == Overlapping(files, lo, hi)
    requires IsWidened(files, level, Some(LowUser(inputs0 + inputs1)), Some(HighUser(inputs0 + inputs1)), lo, hi)
    ensures IsSelection(files, level, expanded0)
    ensures forall f :: f in inputs0 ==> f in expanded0
  {
    RangeCoversFiles(inputs0 + inputs1);
    OverlappingMembers(files, lo, hi);
    forall f | f in inputs0 ensures f in expanded0 {
      assert f in inputs0 + inputs1;
      var i :| 0 <= i < |files| && files[i] == f;
      EndsAreEntries(f);
    }
    assert inputs0[0] in expanded0;
    if level > 0 {
      var a, b := OverlappingIsRun(files, lo, hi);
    }
  }

  /** The compaction of a file: at level 0 the file is first replaced by everything that meets its range,
      directly or by way of other files. */
  ghost predicate IsPickedFor(v: Version, level: nat, file: File, maxFileSize: nat, c: Compaction) {
    exists start, base ::
      && SetUp(v, level, start, base, maxFileSize, c)
      && if level > 0 then start == [file]
         else IsOverlapping(v[0], 0, Some(file.smallest.ukey), Some(file.largest.ukey), start)
  }

  /** VersionSet::PickCompaction for a level and a file of it, whichever of the two triggers chose them. */
  method PickCompaction(v: Version, level: nat, file: File, maxFileSize: nat) returns (c: Compaction)
    requires level + 1 < NUM_LEVELS && LevelOk(v[level], level) && LevelOk(v[level + 1], level + 1)
    requires file in v[level]
    ensures c.level == level && WellChosen(v, c)
    ensures file in c.inputs0 && IsPickedFor(v, level, file, maxFileSize, c)
  {
    hide SetUp;
    var start := [file];
    if level == 0 {
      var smallest, largest := GetRange(start);
      ghost var lo, hi;
      start, lo, hi := GetOverlappingInputs(v[0], 0, Some(smallest.ukey), Some(largest.ukey));
      FileOverlapsItself(v[0], file, lo, hi);
    } else {
      SingleFileIsRun(v[level], file);
    }
    ghost var base;
    c, base := SetupOtherInputs(v, level, start, maxFileSize);
    assert file in start;
  }

  lemma FileOverlapsItself(files: seq<File>, f: File, lo: Option<UserKey>, hi: Option<UserKey>)
    requires AllWellFormed(files) && f in files
    requires Contains(lo, hi, Some(f.smallest.ukey), Some(f.largest.ukey))
    ensures f in Overlapping(files, lo, hi)
  {
    EndsAreEntries(f);
    OverlappingMembers(files, lo, hi);
  }

  lemma SingleFileIsRun(files: seq<File>, f: File)
    requires f in files
    ensures IsRun(files, [f])
  {
    var i :| 0 <= i < |files| && files[i] == f;
    assert [f] == files[i..i + 1];
  }

  /** The size cut in CompactRange: the shortest prefix that reaches the limit, or everything. */
  method LimitSize(inputs: seq<File>, limit: nat) returns (n: nat)
    ensures n <= |inputs| && (inputs != [] ==> n > 0)
    ensures n < |inputs| ==> TotalFileSize(inputs[..n]) >= limit
    ensures forall m :: 0 < m < n ==> TotalFileSize(inputs[..m]) < limit
  {
    var total := 0;
    n := 0;
    while n < |inputs|
      invariant n <= |inputs| && total == TotalFileSize(inputs[..n])
      invariant forall m :: 0 < m <= n ==> TotalFileSize(inputs[..m]) < limit
    {
      total := total + inputs[n].size;
      n := n + 1;
      TotalFileSizeSnoc(inputs, n);
      if total >= limit {
        return;
      }
    }
  }

  lemma {:induction false} TotalFileSizeSnoc(files: seq<File>, n: nat)
    requires 0 < n <= |files|
    ensures TotalFileSize(files[..n]) == TotalFileSize(files[..n - 1]) + files[n - 1].size
  {
    if n > 1 {
      TotalFileSizeSnoc(files[1..], n - 1);
      assert files[..n][1..] == files[1..][..n - 1];
      assert files[..n - 1][1..] == files[1..][..n - 2];
    }
  }

  lemma SelectedRange(files: seq<File>, level: nat, inputs: seq<File>, lo: Option<UserKey>, hi: Option<UserKey>, n: nat)
    requires LevelOk(files, level)
    requires inputs == Overlapping(files, lo, hi) && 0 < n <= |inputs|
    requires level == 0 ==> n == |inputs| && ClosedRange(files, lo, hi)
    ensures IsSelection(files, level, inputs[..n])
  {
    if level == 0 {
      assert inputs[..n] == inputs;
    } else {
      var a, b := OverlappingIsRun(files, lo, hi);
      assert inputs[..n] == files[a..a + n];
    }
  }

  /** The first list of a manual compaction: the files that meet the range, above level 0 only as many
      as make up the size of one file. */
  ghost predicate IsSelectedFor(files: seq<File>, level: nat, begin: Option<UserKey>, end: Option<UserKey>, maxFileSize: nat,
                                inputs: seq<File>) {
    exists all :: IsOverlapping(files, level, begin, end, all) && inputs <= all
      && if level == 0 then inputs == all
         else (inputs == all || TotalFileSize(inputs) >= maxFileSize)
              && forall m :: 0 < m < |inputs| ==> TotalFileSize(inputs[..m]) < maxFileSize
  }

  ghost predicate IsRangeOf(v: Version, level: nat, begin: Option<UserKey>, end: Option<UserKey>, maxFileSize: nat, c: Compaction) {
    exists start, base ::
      SetUp(v, level, start, base, maxFileSize, c) && IsSelectedFor(v[level], level, begin, end, maxFileSize, start)
  }

  /** VersionSet::CompactRange: every file that meets the range, but above level 0 only as many as
      fit the size limit. */
  method CompactRange(v: Version, level: nat, begin: Option<UserKey>, end: Option<UserKey>, maxFileSize: nat)
    returns (r: Option<Compaction>)
    requires level + 1 < NUM_LEVELS && LevelOk(v[level], level) && LevelOk(v[level + 1], level + 1)
    ensures r.None? <==> Overlapping(v[level], begin, end) == []
    ensures r.Some? ==> r.value.level == level && WellChosen(v, r.value)
    ensures r.Some? ==> IsRangeOf(v, level, begin, end, maxFileSize, r.value)
    ensures r.Some? && level > 0 ==> Overlapping(v[level], begin, end)[0] in r.value.inputs0
    ensures r.Some? && level == 0 ==> forall f :: f in Overlapping(v[0], begin, end) ==> f in r.value.inputs0
  {
    hide SetUp, IsSelectedFor;
    var inputs := SelectRange(v[level], level, begin, end, maxFileSize);
    if inputs == [] {
      return None;
    }
    var c, base := SetupOtherInputs(v, level, inputs, maxFileSize);
    r := Some(c);
  }

  method SelectRange(files: seq<File>, level: nat, begin: Option<UserKey>, end: Option<UserKey>, maxFileSize: nat)
    returns (inputs: seq<File>)
    requires LevelOk(files, level)
    ensures inputs == [] <==> Overlapping(files, begin, end) == []
    ensures inputs != [] ==> IsSelection(files, level, inputs)
    ensures IsSelectedFor(files, level, begin, end, maxFileSize, inputs)
    ensures inputs != [] && level > 0 ==> Overlapping(files, begin, end)[0] in inputs
    ensures inputs != [] && level == 0 ==> forall f :: f in Overlapping(files, begin, end) ==> f in inputs
  {
    ghost var lo, hi;
    inputs, lo, hi := GetOverlappingInputs(files, level, begin, end);
    SelectsSomething(files, level, begin, end, lo, hi);
    ghost var all := inputs;
    assert IsOverlapping(files, level, begin, end, all);
    if inputs == [] {
      return;
    }
    var n := |inputs|;
    if level > 0 {
      n := LimitSize(inputs, maxFileSize);
    }
    SelectedRange(files, level, inputs, lo, hi, n);
    assert inputs[0] == inputs[..n][0] && inputs[..|inputs|] == inputs;
    assert forall m :: 0 < m < n ==> inputs[..n][..m] == inputs[..m];
    inputs := inputs[..n];
  }

  lemma SelectsSomething(files: seq<File>, level: nat, begin: Option<UserKey>, end: Option<UserKey>, lo: Option<UserKey>, hi: Option<UserKey>)
    requires IsWidened(files, level, begin, end, lo, hi)
    ensures forall f :: f in Overlapping(files, begin, end) ==> f in Overlapping(files, lo, hi)
    ensures Overlapping(files, begin, end) == [] <==> Overlapping(files, lo, hi) == []
  {
    WiderStillOverlaps(files, begin, end, lo, hi);
    if Overlapping(files, begin, end) == [] {
      OverlappingMembers(files, begin, end);
      assert ClosedRange(files, begin, end);
      assert Contains(begin, end, begin, end);
    } else {
      assert Overlapping(files, begin, end)[0] in Overlapping(files, lo, hi);
    }
  }

  lemma WiderStillOverlaps(files: seq<File>, lo: Option<UserKey>, hi: Option<UserKey>, lo': Option<UserKey>, hi': Option<UserKey>)
    requires Contains(lo', hi', lo, hi)
    ensures forall f :: f in Overlapping(files, lo, hi) ==> f in Overlapping(files, lo', hi')
  {
    OverlappingMembers(files, lo, hi);
    OverlappingMembers(files, lo', hi');
  }
}
