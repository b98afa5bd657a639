/** Which files a flush or a compaction touches (db/version_set.cc). */
module InputSelection {
  import opened Keys
  import opened Versions
  import Lookup

  const MAX_MEM_COMPACT_LEVEL := 2

  /** The user-key range of `f` meets [lo, hi]; None leaves that end open. */
  predicate Overlaps(f: File, lo: Option<UserKey>, hi: Option<UserKey>) {
    !(lo.Some? && f.largest.ukey < lo.value) && !(hi.Some? && f.smallest.ukey > hi.value)
  }

  /** The two ranges have a user key in common. */
  lemma OverlapMeans(f: File, lo: Option<UserKey>, hi: Option<UserKey>)
    requires f.smallest.ukey <= f.largest.ukey && (lo.Some? && hi.Some? ==> lo.value <= hi.value)
    ensures Overlaps(f, lo, hi) <==>
              exists k: UserKey ::
                InRange(Some(f.smallest.ukey), Some(f.largest.ukey), k) && InRange(lo, hi, k)
  {
    if Overlaps(f, lo, hi) {
      var k := if lo.Some? && f.smallest.ukey < lo.value then lo.value else f.smallest.ukey;
      assert InRange(Some(f.smallest.ukey), Some(f.largest.ukey), k) && InRange(lo, hi, k);
    }
  }

  predicate InRange(lo: Option<UserKey>, hi: Option<UserKey>, k: UserKey) {
    (lo.Some? ==> lo.value <= k) && (hi.Some? ==> k <= hi.value)
  }

  predicate Within(f: File, lo: Option<UserKey>, hi: Option<UserKey>) {
    (lo.Some? ==> lo.value <= f.smallest.ukey) && (hi.Some? ==> f.largest.ukey <= hi.value)
  }

  /** The files that meet the range, in level order. */
  function Overlapping(files: seq<File>, lo: Option<UserKey>, hi: Option<UserKey>): seq<File> {
    if files == [] then [] else
      var n := |files| - 1;
      Overlapping(files[..n], lo, hi) + (if Overlaps(files[n], lo, hi) then [files[n]] else [])
  }

  lemma {:induction false} OverlappingMembers(files: seq<File>, lo: Option<UserKey>, hi: Option<UserKey>)
    ensures forall f :: f in Overlapping(files, lo, hi) <==> f in files && Overlaps(f, lo, hi)
  {
    if files != [] {
      var n := |files| - 1;
      OverlappingMembers(files[..n], lo, hi);
      assert files == files[..n] + [files[n]];
    }
  }

  /** A range is closed when no file of the level sticks out of it. */
  ghost predicate ClosedRange(files: seq<File>, lo: Option<UserKey>, hi: Option<UserKey>) {
    forall f :: f in files && Overlaps(f, lo, hi) ==> Within(f, lo, hi)
  }

  /** [lo, hi] contains [lo', hi']. */
  predicate Contains(lo: Option<UserKey>, hi: Option<UserKey>, lo': Option<UserKey>, hi': Option<UserKey>) {
    && (lo.Some? ==> lo'.Some? && lo.value <= lo'.value)
    && (hi.Some? ==> hi'.Some? && hi'.value <= hi.value)
  }

  ghost function StartingBefore(files: seq<File>, lo: Option<UserKey>): set<File> {
    set f | f in files && lo.Some? && f.smallest.ukey < lo.value
  }

  ghost function EndingAfter(files: seq<File>, hi: Option<UserKey>): set<File> {
    set f | f in files && hi.Some? && f.largest.ukey > hi.value
  }

  /** The range that GetOverlappingInputs ends up with: the least closed one around [begin, end] at level
      0, and [begin, end] itself elsewhere. */
  ghost predicate IsWidened(files: seq<File>, level: nat, begin: Option<UserKey>, end: Option<UserKey>,
                            lo: Option<UserKey>, hi: Option<UserKey>) {
    && Contains(lo, hi, begin, end)
    && (level > 0 ==> lo == begin && hi == end)
    && (level == 0 ==> ClosedRange(files, lo, hi))
    && forall a, b :: Contains(a, b, begin, end) && ClosedRange(files, a, b) ==> Contains(a, b, lo, hi)
  }

  /** The files that GetOverlappingInputs finds. */
  ghost predicate IsOverlapping(files: seq<File>, level: nat, begin: Option<UserKey>, end: Option<UserKey>, inputs: seq<File>) {
    exists lo, hi :: IsWidened(files, level, begin, end, lo, hi) && inputs == Overlapping(files, lo, hi)
  }

  /** Above level 0 the range is the one that was asked for. */
  lemma WidenedAbove(files: seq<File>, level: nat, begin: Option<UserKey>, end: Option<UserKey>)
    requires level > 0
    ensures forall lo, hi :: IsWidened(files, level, begin, end, lo, hi) ==> lo == begin && hi == end
  {
  }

  /** Version::GetOverlappingInputs.  Above level 0 one pass; at level 0 the pass restarts whenever
      a file widens the range. */
  method GetOverlappingInputs(files: seq<File>, level: nat, begin: Option<UserKey>, end: Option<UserKey>)
    returns (inputs: seq<File>, ghost lo: Option<UserKey>, ghost hi: Option<UserKey>)
    ensures inputs == Overlapping(files, lo, hi) && IsWidened(files, level, begin, end, lo, hi)
  {
    inputs := [];
    var userBegin, userEnd := begin, end;
    var i := 0;
    while i < |files|
      invariant 0 <= i <= |files|
      invariant userBegin.Some? <==> begin.Some?
      invariant userEnd.Some? <==> end.Some?
      invariant Contains(userBegin, userEnd, begin, end)
      invariant level > 0 ==> userBegin == begin && userEnd == end
      invariant inputs == Overlapping(files[..i], userBegin, userEnd)
      invariant level == 0 ==> ClosedRange(files[..i], userBegin, userEnd)
      invariant forall a, b :: Contains(a, b, begin, end) && ClosedRange(files, a, b) ==>
                  Contains(a, b, userBegin, userEnd)
      decreases StartingBefore(files, userBegin), EndingAfter(files, userEnd), |files| - i
    {
      var f := files[i];
      i := i + 1;
      assert files[..i][..i - 1] == files[..i - 1];
      if userBegin.Some? && f.largest.ukey < userBegin.value {
      } else if userEnd.Some? && f.smallest.ukey > userEnd.value {
      } else {
        inputs := inputs + [f];
        if level == 0 {
          if userBegin.Some? && f.smallest.ukey < userBegin.value {
            assert f in StartingBefore(files, userBegin);
            userBegin := Some(f.smallest.ukey);
            inputs := [];
            i := 0;
          } else if userEnd.Some? && f.largest.ukey > userEnd.value {
            assert f in EndingAfter(files, userEnd);
            userEnd := Some(f.largest.ukey);
            inputs := [];
            i := 0;
          }
        }
      }
    }
    assert files[..i] == files;
    lo, hi := userBegin, userEnd;
  }

  /** SomeFileOverlapsRange: a scan over overlapping files, one binary search over disjoint ones. */
  method SomeFileOverlapsRange(disjointSorted: bool, files: seq<File>, smallest: Option<UserKey>, largest: Option<UserKey>)
    returns (overlap: bool)
    requires AllWellFormed(files)
    requires disjointSorted ==> Disjoint(files)
    requires forall f :: f in files ==> f.largest.seqno <= MAX_SEQUENCE
    ensures overlap <==> exists f :: f in files && Overlaps(f, smallest, largest)
  {
    if !disjointSorted {
      for i := 0 to |files|
        invariant forall j :: 0 <= j < i ==> !Overlaps(files[j], smallest, largest)
      {
        if !AfterFile(smallest, files[i]) && !BeforeFile(largest, files[i]) {
          assert files[i] in files && Overlaps(files[i], smallest, largest);
          return true;
        }
      }
      return false;
    }
    Lookup.DisjointAscends(files);
    var index := 0;
    if smallest.Some? {
      index := Lookup.FindFile(files, IKey(smallest.value, MAX_SEQUENCE, TYPE_FOR_SEEK));
    }
    forall j | 0 <= j < |files|
      ensures j < index ==> AfterFile(smallest, files[j])
      ensures j >= index ==> !AfterFile(smallest, files[j])
    {
      assert files[j] in files;
    }
    if index >= |files| {
      return false;
    }
    forall j | index < j < |files| ensures files[index].smallest.ukey <= files[j].smallest.ukey {
      EndsAreEntries(files[index]);
    }
    overlap := !BeforeFile(largest, files[index]);
    if overlap {
      assert files[index] in files && Overlaps(files[index], smallest, largest);
    } else {
      forall f | f in files ensures !Overlaps(f, smallest, largest) {
        var j :| 0 <= j < |files| && files[j] == f;
      }
    }
  }

  predicate AfterFile(k: Option<UserKey>, f: File) {
    k.Some? && k.value > f.largest.ukey
  }

  predicate BeforeFile(k: Option<UserKey>, f: File) {
    k.Some? && k.value < f.smallest.ukey
  }

  function TotalFileSize(files: seq<File>): nat {
    if files == [] then 0 else files[0].size + TotalFileSize(files[1..])
  }

  lemma {:induction false} TotalFileSizeConcat(a: seq<File>, b: seq<File>)
    ensures TotalFileSize(a + b) == TotalFileSize(a) + TotalFileSize(b)
    ensures |a| == 1 ==> TotalFileSize(a) == a[0].size
  {
    if a == [] {
      assert a + b == b;
    } else {
      assert (a + b)[1..] == a[1..] + b;
      TotalFileSizeConcat(a[1..], b);
    }
  }

  function MaxGrandParentOverlapBytes(maxFileSize: nat): nat { 10 * maxFileSize }
  function ExpandedCompactionByteSizeLimit(maxFileSize: nat): nat { 25 * maxFileSize }

  ghost predicate LevelMeets(files: seq<File>, lo: UserKey, hi: UserKey) {
    exists f :: f in files && Overlaps(f, Some(lo), Some(hi))
  }

  ghost predicate BoundedSeqnos(v: Version) {
    forall l, f :: 0 <= l < NUM_LEVELS && f in v[l] ==> f.largest.seqno <= MAX_SEQUENCE
  }

  /** As deep as the new table may go without passing a file that it overlaps, without overlapping too
      many bytes two levels further down, and without leaving the first levels. */
  ghost predicate IsPicked(v: Version, smallest: UserKey, largest: UserKey, maxFileSize: nat, level: nat) {
    && level <= 2
    && (level > 0 ==> forall l :: 0 <= l <= level ==> !LevelMeets(v[l], smallest, largest))
    && (forall l :: 2 <= l < level + 2 ==> !TooManyBytes(v[l], smallest, largest, maxFileSize))
    && (level < 2 ==>
          || LevelMeets(v[0], smallest, largest)
          || LevelMeets(v[level + 1], smallest, largest)
          || TooManyBytes(v[level + 2], smallest, largest, maxFileSize))
  }

  /** The files of the level that meet the range are larger than ten files may be. */
  predicate TooManyBytes(files: seq<File>, smallest: UserKey, largest: UserKey, maxFileSize: nat) {
    TotalFileSize(Overlapping(files, Some(smallest), Some(largest))) > 10 * maxFileSize
  }

  /** Version::PickLevelForMemTableOutput. */
  method PickLevelForMemTableOutput(v: Version, smallest: UserKey, largest: UserKey, maxFileSize: nat)
    returns (level: nat)
    requires ValidLevels(v) && BoundedSeqnos(v)
    ensures IsPicked(v, smallest, largest, maxFileSize, level)
  {
    hide IsWidened, Overlapping, TotalFileSize;
    level := 0;
    var overlap := SomeFileOverlapsRange(false, v[0], Some(smallest), Some(largest));
    if !overlap {
      while level < MAX_MEM_COMPACT_LEVEL
        invariant level <= MAX_MEM_COMPACT_LEVEL
        invariant forall l :: 0 <= l <= level ==> !LevelMeets(v[l], smallest, largest)
        invariant forall l :: 2 <= l < level + 2 ==> !TooManyBytes(v[l], smallest, largest, maxFileSize)
      {
        overlap := SomeFileOverlapsRange(true, v[level + 1], Some(smallest), Some(largest));
        if overlap {
          break;
        }
        if level + 2 < NUM_LEVELS {
          var overlaps, _, _ := GetOverlappingInputs(v[level + 2], level + 2, Some(smallest), Some(largest));
          WidenedAbove(v[level + 2], level + 2, Some(smallest), Some(largest));
          if TotalFileSize(overlaps) > MaxGrandParentOverlapBytes(maxFileSize) {
            break;
          }
        }
        level := level + 1;
      }
    }
  }

  // ---------------------------------------------------------------- compaction inputs

  /** FindLargestKey: the largest internal key of a non-empty list of files. */
  function LargestKey(files: seq<File>): IKey
    requires files != []
  {
    var n := |files| - 1;
    if n == 0 then files[0].largest
    else
      var k := LargestKey(files[..n]);
      if Less(k, files[n].largest) then files[n].largest else k
  }

  function SmallestKey(files: seq<File>): IKey
    requires files != []
  {
    var n := |files| - 1;
    if n == 0 then files[0].smallest
    else
      var k := SmallestKey(files[..n]);
      if Less(files[n].smallest, k) then files[n].smallest else k
  }

  lemma {:induction false} LargestKeyCovers(files: seq<File>) returns (i: nat)
    requires files != []
    ensures i < |files| && files[i].largest == LargestKey(files)
    ensures forall j :: 0 <= j < |files| ==> AtMost(files[j].largest, LargestKey(files))
  {
    var n := |files| - 1;
    if n == 0 {
      i := 0;
    } else {
      i := LargestKeyCovers(files[..n]);
      if Less(LargestKey(files[..n]), files[n].largest) { i := n; }
    }
  }

  lemma {:induction false} SmallestKeyCovers(files: seq<File>) returns (i: nat)
    requires files != []
    ensures i < |files| && files[i].smallest == SmallestKey(files)
    ensures forall j :: 0 <= j < |files| ==> AtMost(SmallestKey(files), files[j].smallest)
  {
    var n := |files| - 1;
    if n == 0 {
      i := 0;
    } else {
      i := SmallestKeyCovers(files[..n]);
      if Less(files[n].smallest, SmallestKey(files[..n])) { i := n; }
    }
  }

  lemma RangeCoversFiles(files: seq<File>)
    requires files != []
    ensures exists f :: f in files && f.largest == LargestKey(files)
    ensures exists f :: f in files && f.smallest == SmallestKey(files)
    ensures forall f :: f in files ==> AtMost(f.largest, LargestKey(files)) && AtMost(SmallestKey(files), f.smallest)
  {
    var i := LargestKeyCovers(files);
    var j := SmallestKeyCovers(files);
    assert files[i] in files && files[j] in files;
  }

  /** VersionSet::GetRange. */
  method GetRange(inputs: seq<File>) returns (smallest: IKey, largest: IKey)
    requires inputs != []
    ensures smallest == SmallestKey(inputs) && largest == LargestKey(inputs)
  {
    smallest, largest := inputs[0].smallest, inputs[0].largest;
    for i := 1 to |inputs|
      invariant smallest == SmallestKey(inputs[..i]) && largest == LargestKey(inputs[..i])
    {
      assert inputs[..i + 1][..i] == inputs[..i];
      if Compare(inputs[i].smallest, smallest) < 0 {
        smallest := inputs[i].smallest;
      }
      if Compare(inputs[i].largest, largest) > 0 {
        largest := inputs[i].largest;
      }
    }
    assert inputs[..|inputs|] == inputs;
  }

  /** `f` continues the user key that `largest` ends with. */
  predicate IsBoundary(f: File, largest: IKey) {
    Less(largest, f.smallest) && f.smallest.ukey == largest.ukey
  }

  ghost predicate IsSmallestBoundary(files: seq<File>, largest: IKey, f: File) {
    f in files && IsBoundary(f, largest) &&
    forall g :: g in files && IsBoundary(g, largest) ==> !Less(g.smallest, f.smallest)
  }

  method FindSmallestBoundaryFile(files: seq<File>, largest: IKey) returns (r: Option<File>)
    ensures r.Some? ==> IsSmallestBoundary(files, largest, r.value)
    ensures r.None? ==> forall f :: f in files ==> !IsBoundary(f, largest)
  {
    r := None;
    for i := 0 to |files|
      invariant r.Some? ==> r.value in files && IsBoundary(r.value, largest)
      invariant forall j :: 0 <= j < i && IsBoundary(files[j], largest) ==>
                  r.Some? && !Less(files[j].smallest, r.value.smallest)
    {
      if Compare(files[i].smallest, largest) > 0 && files[i].smallest.ukey == largest.ukey {
        if r.None? || Compare(files[i].smallest, r.value.smallest) < 0 {
          r := Some(files[i]);
        }
      }
    }
  }

  function LastKey(largest: IKey, added: seq<File>): IKey {
    if added == [] then largest else added[|added| - 1].largest
  }

  /** Each added file is the smallest one that continues the user key reached so far. */
  ghost predicate BoundaryChain(files: seq<File>, largest: IKey, added: seq<File>) {
    added == [] ||
    (var n := |added| - 1;
     BoundaryChain(files, largest, added[..n]) && IsSmallestBoundary(files, LastKey(largest, added[..n]), added[n]))
  }

  /** All files that continue the last user key of a list, one after the other. */
  ghost predicate IsClosure(files: seq<File>, start: seq<File>, inputs: seq<File>)
    requires start != []
  {
    exists added :: inputs == start + added && BoundaryChain(files, LargestKey(start), added)
                    && NoBoundary(files, LastKey(LargestKey(start), added))
  }

  ghost predicate NoBoundary(files: seq<File>, largest: IKey) {
    forall f :: f in files ==> !IsBoundary(f, largest)
  }

  ghost function StartingAfter(files: seq<File>, key: IKey): set<File> {
    set f | f in files && Less(key, f.smallest)
  }

  /** AddBoundaryInputs. */
  method AddBoundaryInputs(files: seq<File>, start: seq<File>) returns (inputs: seq<File>, ghost added: seq<File>)
    requires AllWellFormed(files)
    ensures inputs == start + added
    ensures start == [] ==> added == []
    ensures start != [] ==>
              BoundaryChain(files, LargestKey(start), added) && NoBoundary(files, LastKey(LargestKey(start), added))
  {
    inputs, added := start, [];
    if start == [] {
      return;
    }
    var largestKey := LargestKey(start);
    var continueSearching := true;
    while continueSearching
      invariant inputs == start + added
      invariant largestKey == LastKey(LargestKey(start), added)
      invariant BoundaryChain(files, LargestKey(start), added)
      invariant !continueSearching ==> NoBoundary(files, largestKey)
      decreases continueSearching, StartingAfter(files, largestKey)
    {
      var boundary := FindSmallestBoundaryFile(files, largestKey);
      if boundary.Some? {
        var f := boundary.value;
        BoundaryAdvances(files, largestKey, f);
        assert (added + [f])[..|added|] == added;
        added := added + [f];
        inputs := inputs + [f];
        largestKey := f.largest;
      } else {
        continueSearching := false;
      }
    }
  }

  lemma BoundaryAdvances(files: seq<File>, key: IKey, f: File)
    requires AllWellFormed(files) && IsSmallestBoundary(files, key, f)
    ensures StartingAfter(files, f.largest) < StartingAfter(files, key)
  {
    EndsAreEntries(f);
    assert f in StartingAfter(files, key) && f !in StartingAfter(files, f.largest);
  }
}
