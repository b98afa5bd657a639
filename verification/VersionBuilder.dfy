/** Version edits and the builder that accumulates them (VersionSet::Builder in db/version_set.cc,
    VersionEdit in db/version_edit.h). */
module VersionBuilder {
  import opened Keys
  import opened Versions

  /** The file part of an edit: what it deletes, as (level, number), and what it adds. */
  datatype Edit = Edit(deleted: set<(nat, nat)>, added: seq<(nat, File)>)

  ghost predicate LevelsInRange(e: Edit) {
    forall i :: 0 <= i < |e.added| ==> e.added[i].0 < NUM_LEVELS
  }

  /** BySmallestKey: by smallest key, ties broken by file number. */
  predicate FileLess(f: File, g: File) {
    Less(f.smallest, g.smallest) || (f.smallest == g.smallest && f.number < g.number)
  }

  ghost predicate SortedFiles(fs: seq<File>) {
    forall i, j :: 0 <= i < j < |fs| ==> FileLess(fs[i], fs[j])
  }

  /** Equal under BySmallestKey. */
  predicate SameSlot(f: File, g: File) {
    f.smallest == g.smallest && f.number == g.number
  }

  /** std::set::insert: nothing happens if an equal element is already there. */
  function InsertFile(fs: seq<File>, f: File): (r: seq<File>)
    requires SortedFiles(fs)
    ensures SortedFiles(r)
    ensures forall g :: g in fs ==> g in r
    ensures forall g :: g in r ==> g in fs || g == f
    ensures f in r || exists g :: g in fs && SameSlot(f, g)
  {
    if fs == [] || FileLess(f, fs[0]) then [f] + fs
    else if SameSlot(f, fs[0]) then fs
    else
      var rest := InsertFile(fs[1..], f);
      assert fs == [fs[0]] + fs[1..];
      assert forall j :: 0 <= j < |rest| ==> rest[j] in rest;
      [fs[0]] + rest
  }

  /** A sorted list is determined by its members. */
  lemma {:induction false} SortedFilesUnique(a: seq<File>, b: seq<File>)
    requires SortedFiles(a) && SortedFiles(b)
    requires forall f :: f in a <==> f in b
    ensures a == b
  {
    hide FileLess;
    assert a != [] ==> a[0] in b;
    assert b != [] ==> b[0] in a;
    if a != [] {
      FirstIsSmallest(a, b[0]);
      FirstIsSmallest(b, a[0]);
      assert a == [a[0]] + a[1..] && b == [b[0]] + b[1..];
      TailMembers(a);
      TailMembers(b);
      SortedFilesUnique(a[1..], b[1..]);
    }
  }

  lemma FirstIsSmallest(a: seq<File>, f: File)
    requires SortedFiles(a) && a != []
    ensures f in a ==> f == a[0] || (FileLess(a[0], f) && !FileLess(f, a[0]))
  {
  }

  lemma TailMembers(a: seq<File>)
    requires SortedFiles(a) && a != []
    ensures SortedFiles(a[1..]) && forall f :: f in a[1..] <==> f in a && f != a[0]
  {
    forall i | 0 < i < |a| ensures a[i] != a[0] {
      assert FileLess(a[0], a[i]);
    }
    assert a == [a[0]] + a[1..];
  }

  type NumberSets = s: seq<set<nat>> | |s| == NUM_LEVELS witness [{}, {}, {}, {}, {}, {}, {}]

  const EMPTY_VERSION: Version := [[], [], [], [], [], [], []]

  /** What a builder has accumulated: per level, the deleted numbers and the sorted added files. */
  datatype State = State(deleted: NumberSets, added: Version)

  const EMPTY_STATE := State([{}, {}, {}, {}, {}, {}, {}], EMPTY_VERSION)

  ghost predicate StateValid(s: State) {
    forall l :: 0 <= l < NUM_LEVELS ==> SortedFiles(s.added[l])
  }

  function NumbersAt(del: set<(nat, nat)>, l: nat): set<nat> {
    set d | d in del && d.0 == l :: d.1
  }

  function ApplyDeleted(s: State, del: set<(nat, nat)>): State {
    var deleted: seq<set<nat>> :=
      seq(NUM_LEVELS, l requires 0 <= l < NUM_LEVELS => s.deleted[l] + NumbersAt(del, l));
    assert |deleted| == NUM_LEVELS;
    s.(deleted := deleted)
  }

  lemma ApplyDeletedMember(s: State, del: set<(nat, nat)>, l: nat, n: nat)
    requires l < NUM_LEVELS
    ensures n in ApplyDeleted(s, del).deleted[l] <==> n in s.deleted[l] || (l, n) in del
  {
    assert n in NumbersAt(del, l) <==> (l, n) in del by {
      assert (l, n) in del ==> (l, n).1 in NumbersAt(del, l);
    }
    assert ApplyDeleted(s, del).deleted[l] == s.deleted[l] + NumbersAt(del, l);
  }

  function AddOne(s: State, added: (nat, File)): (r: State)
    requires StateValid(s) && added.0 < NUM_LEVELS
    ensures StateValid(r)
  {
    var (l, f) := added;
    State(s.deleted[l := s.deleted[l] - {f.number}], s.added[l := InsertFile(s.added[l], f)])
  }

  function ApplyAdded(s: State, added: seq<(nat, File)>): (r: State)
    requires StateValid(s)
    requires forall i :: 0 <= i < |added| ==> added[i].0 < NUM_LEVELS
    ensures StateValid(r)
  {
    if added == [] then s else AddOne(ApplyAdded(s, added[..|added| - 1]), added[|added| - 1])
  }

  /** Builder::Apply as a function on what was accumulated. */
  function ApplyEdit(s: State, e: Edit): (r: State)
    requires StateValid(s) && LevelsInRange(e)
    ensures StateValid(r)
  {
    ApplyAdded(ApplyDeleted(s, e.deleted), e.added)
  }

  ghost predicate AddsNumber(added: seq<(nat, File)>, l: nat, n: nat) {
    exists f :: (l, f) in added && f.number == n
  }

  /** No number is added twice at a level. */
  ghost predicate AddsOnce(added: seq<(nat, File)>, l: nat) {
    forall i, j :: 0 <= i < j < |added| && added[i].0 == l && added[j].0 == l ==>
      added[i].1.number != added[j].1.number
  }

  /** Numbers of the files added at a level are new there, and none is added twice. */
  ghost predicate AddsFresh(added: seq<(nat, File)>, l: nat, present: seq<File>) {
    AddsOnce(added, l) && forall g :: g in present ==> !AddsNumber(added, l, g.number)
  }

  /** What applying an edit with fresh numbers does to one level. */
  lemma {:induction false} ApplyAddedMembers(s: State, added: seq<(nat, File)>, l: nat)
    requires StateValid(s) && l < NUM_LEVELS
    requires forall i :: 0 <= i < |added| ==> added[i].0 < NUM_LEVELS
    requires AddsFresh(added, l, s.added[l])
    ensures forall f :: f in ApplyAdded(s, added).added[l] <==> f in s.added[l] || (l, f) in added
    ensures forall n :: n in ApplyAdded(s, added).deleted[l] <==> n in s.deleted[l] && !AddsNumber(added, l, n)
  {
    if added != [] {
      hide StateValid, AddsFresh;
      var n := |added| - 1;
      var init, last := added[..n], added[n];
      AddsFreshInit(added, l, s.added[l]);
      ApplyAddedMembers(s, init, l);
      var r := ApplyAdded(s, init);
      LastIsFresh(added, l, s.added[l], r.added[l]);
      AddOneMembers(r, last, l);
      assert ApplyAdded(s, added) == AddOne(r, last);
      assert forall f :: (l, f) in added <==> (l, f) in init || (l, f) == last by { assert added == init + [last]; }
    }
  }

  lemma AddsFreshInit(added: seq<(nat, File)>, l: nat, present: seq<File>)
    requires added != [] && AddsFresh(added, l, present)
    ensures AddsFresh(added[..|added| - 1], l, present)
    ensures var last := added[|added| - 1];
            forall m :: AddsNumber(added, l, m) <==> AddsNumber(added[..|added| - 1], l, m) || (last.0 == l && last.1.number == m)
  {
    assert added == added[..|added| - 1] + [added[|added| - 1]];
  }

  lemma LastIsFresh(added: seq<(nat, File)>, l: nat, present: seq<File>, now: seq<File>)
    requires added != [] && AddsFresh(added, l, present)
    requires forall f :: f in now <==> f in present || (l, f) in added[..|added| - 1]
    ensures var last := added[|added| - 1]; last.0 == l ==> forall g :: g in now ==> g.number != last.1.number
  {
    var n := |added| - 1;
    if added[n].0 == l {
      forall g | g in now ensures g.number != added[n].1.number {
        if (l, g) in added[..n] {
          var i :| 0 <= i < n && added[..n][i] == (l, g);
          assert added[i].1.number != added[n].1.number;
        } else {
          assert AddsNumber(added, l, added[n].1.number) by { assert (l, added[n].1) == added[n] && added[n] in added; }
        }
      }
    }
  }

  lemma AddOneMembers(s: State, last: (nat, File), l: nat)
    requires StateValid(s) && l < NUM_LEVELS && last.0 < NUM_LEVELS
    requires last.0 == l ==> forall g :: g in s.added[l] ==> g.number != last.1.number
    ensures forall f :: f in AddOne(s, last).added[l] <==> f in s.added[l] || (l, f) == last
    ensures forall n :: n in AddOne(s, last).deleted[l] <==> n in s.deleted[l] && !(last.0 == l && last.1.number == n)
  {
  }

  /** std::upper_bound from position `from`: how far the files not above `f` reach. */
  method UpperBound(files: seq<File>, from: nat, f: File) returns (pos: nat)
    requires SortedFiles(files) && from <= |files|
    ensures from <= pos <= |files|
    ensures forall i :: from <= i < pos ==> !FileLess(f, files[i])
    ensures forall i :: pos <= i < |files| ==> FileLess(f, files[i])
  {
    pos := from;
    while pos < |files| && !FileLess(f, files[pos])
      invariant from <= pos <= |files|
      invariant forall i :: from <= i < pos ==> !FileLess(f, files[i])
    {
      pos := pos + 1;
    }
  }

  /** Every file that was there or was added, unless its number is deleted, in BySmallestKey order. */
  ghost predicate SavedLevel(base: seq<File>, added: seq<File>, deleted: set<nat>, out: seq<File>) {
    && SortedFiles(out)
    && forall f :: f in out <==> (f in base || f in added) && f.number !in deleted
  }

  ghost predicate Apart(base: seq<File>, added: seq<File>) {
    forall f, g :: f in base && g in added ==> !SameSlot(f, g)
  }

  ghost predicate AllBelow(out: seq<File>, rest: seq<File>, from: nat) {
    forall x, i :: x in out && from <= i < |rest| ==> FileLess(x, rest[i])
  }

  /** Builder::MaybeAddFile. */
  method MaybeAddFile(deleted: set<nat>, f: File, out: seq<File>) returns (r: seq<File>)
    requires SortedFiles(out) && forall x :: x in out ==> FileLess(x, f)
    ensures SortedFiles(r)
    ensures forall x :: x in r <==> x in out || (x == f && f.number !in deleted)
  {
    if f.number in deleted {
      r := out;
    } else {
      assert forall i :: 0 <= i < |out| ==> out[i] in out;
      r := out + [f];
    }
  }

  /** One level of Builder::SaveTo: merge the added files into the base files. */
  method SaveLevel(base: seq<File>, added: seq<File>, deleted: set<nat>) returns (out: seq<File>)
    requires SortedFiles(base) && SortedFiles(added) && Apart(base, added)
    ensures SavedLevel(base, added, deleted, out)
  {
    out := [];
    var b := 0;
    for a := 0 to |added|
      invariant b <= |base| && Merging(base, b, added, a, deleted, out)
      invariant a > 0 && b < |base| ==> FileLess(added[a - 1], base[b])
    {
      var pos := UpperBound(base, b, added[a]);
      while b < pos
        invariant b <= pos && Merging(base, b, added, a, deleted, out)
      {
        assert base[b] in base && added[a] in added;
        ghost var out0 := out;
        out := MaybeAddFile(deleted, base[b], out);
        TakeBase(base, b, added, a, deleted, out0, out);
        b := b + 1;
      }
      ghost var out0 := out;
      out := MaybeAddFile(deleted, added[a], out);
      TakeAdded(base, b, added, a, deleted, out0, out);
    }
    while b < |base|
      invariant b <= |base| && Merging(base, b, added, |added|, deleted, out)
    {
      ghost var out0 := out;
      out := MaybeAddFile(deleted, base[b], out);
      TakeBase(base, b, added, |added|, deleted, out0, out);
      b := b + 1;
    }
    assert base[..b] == base && added[..|added|] == added;
  }

  /** The first b base files and the first a added ones have been merged, and the rest is above them. */
  ghost predicate Merging(base: seq<File>, b: nat, added: seq<File>, a: nat, deleted: set<nat>, out: seq<File>)
    requires b <= |base| && a <= |added|
  {
    && SavedLevel(base[..b], added[..a], deleted, out)
    && AllBelow(out, base, b) && AllBelow(out, added, a)
  }

  lemma TakeBase(base: seq<File>, b: nat, added: seq<File>, a: nat, deleted: set<nat>, out: seq<File>, out': seq<File>)
    requires SortedFiles(base) && SortedFiles(added) && b < |base| && a <= |added| && Merging(base, b, added, a, deleted, out)
    requires a < |added| ==> FileLess(base[b], added[a])
    requires SortedFiles(out') && forall x :: x in out' <==> x in out || (x == base[b] && x.number !in deleted)
    ensures Merging(base, b + 1, added, a, deleted, out')
  {
    assert base[..b + 1] == base[..b] + [base[b]];
  }

  lemma TakeAdded(base: seq<File>, b: nat, added: seq<File>, a: nat, deleted: set<nat>, out: seq<File>, out': seq<File>)
    requires SortedFiles(base) && SortedFiles(added) && b <= |base| && a < |added| && Merging(base, b, added, a, deleted, out)
    requires b < |base| ==> FileLess(added[a], base[b])
    requires SortedFiles(out') && forall x :: x in out' <==> x in out || (x == added[a] && x.number !in deleted)
    ensures Merging(base, b, added, a + 1, deleted, out')
  {
    assert added[..a + 1] == added[..a] + [added[a]];
  }

  ghost predicate SortedVersion(v: Version) {
    forall l :: 0 <= l < NUM_LEVELS ==> SortedFiles(v[l])
  }

  ghost predicate Saved(base: Version, s: State, v: Version) {
    forall l :: 0 <= l < NUM_LEVELS ==> SavedLevel(base[l], s.added[l], s.deleted[l], v[l])
  }

  class Builder {
    const base: Version
    var state: State

    ghost predicate Valid()
      reads this
    {
      SortedVersion(base) && StateValid(state)
    }

    constructor (base: Version)
      requires SortedVersion(base)
      ensures this.base == base && state == EMPTY_STATE && Valid()
    {
      this.base := base;
      state := EMPTY_STATE;
    }

    method Apply(e: Edit)
      requires Valid() && LevelsInRange(e)
      modifies this
      ensures Valid()
      ensures state == ApplyEdit(old(state), e)
    {
      state := ApplyDeleted(state, e.deleted);
      ghost var start := state;
      for i := 0 to |e.added|
        invariant StateValid(state)
        invariant state == ApplyAdded(start, e.added[..i])
      {
        var (l, f) := e.added[i];
        assert e.added[..i + 1][..i] == e.added[..i];
        state := State(state.deleted[l := state.deleted[l] - {f.number}],
                       state.added[l := InsertFile(state.added[l], f)]);
      }
      assert e.added[..|e.added|] == e.added;
    }

    method SaveTo() returns (v: Version)
      requires Valid()
      requires forall l :: 0 <= l < NUM_LEVELS ==> Apart(base[l], state.added[l])
      ensures Saved(base, state, v)
    {
      v := EMPTY_VERSION;
      for l := 0 to NUM_LEVELS
        invariant forall k :: 0 <= k < l ==> SavedLevel(base[k], state.added[k], state.deleted[k], v[k])
      {
        var out := SaveLevel(base[l], state.added[l], state.deleted[l]);
        v := v[l := out];
      }
    }
  }
}
