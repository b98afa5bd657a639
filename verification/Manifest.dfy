/** Installing edits one at a time, and recovering the same version from the manifest
    (VersionSet::LogAndApply, WriteSnapshot and Recover in db/version_set.cc). */
module Manifest {
  import opened Versions
  import opened VersionBuilder

  /** What LogAndApply makes current: the result of one builder over the current version. */
  ghost predicate Installs(v: Version, e: Edit, v': Version) {
    LevelsInRange(e) && Saved(v, ApplyEdit(EMPTY_STATE, e), v')
  }

  ghost predicate Fresh(e: Edit, v: Version) {
    forall l :: 0 <= l < NUM_LEVELS ==> AddsFresh(e.added, l, v[l])
  }

  /** VersionSet::LogAndApply, its version part. */
  method LogAndApply(current: Version, e: Edit) returns (v: Version)
    requires SortedVersion(current) && LevelsInRange(e) && Fresh(e, current)
    ensures Installs(current, e, v)
  {
    var builder := new Builder(current);
    builder.Apply(e);
    forall l | 0 <= l < NUM_LEVELS ensures Apart(current[l], builder.state.added[l]) {
      FreshAdds(e, current, l);
    }
    v := builder.SaveTo();
  }

  lemma FreshAdds(e: Edit, v: Version, l: nat)
    requires LevelsInRange(e) && Fresh(e, v) && l < NUM_LEVELS
    ensures forall f :: f in ApplyEdit(EMPTY_STATE, e).added[l] <==> (l, f) in e.added
    ensures forall n: nat :: n in ApplyEdit(EMPTY_STATE, e).deleted[l] <==> (l, n) in e.deleted && !AddsNumber(e.added, l, n)
    ensures Apart(v[l], ApplyEdit(EMPTY_STATE, e).added[l])
  {
    assert AddsFresh(e.added, l, v[l]);
    var s := ApplyDeleted(EMPTY_STATE, e.deleted);
    ApplyAddedMembers(s, e.added, l);
    forall f, g | f in v[l] && g in ApplyEdit(EMPTY_STATE, e).added[l] ensures f.number != g.number {
      assert (l, g) in e.added;
    }
    forall n: nat ensures n in s.deleted[l] <==> (l, n) in e.deleted {
      ApplyDeletedMember(EMPTY_STATE, e.deleted, l, n);
    }
  }

  /** The members of the version an edit installs. */
  lemma InstalledMembers(v: Version, e: Edit, v': Version, l: nat)
    requires Installs(v, e, v') && Fresh(e, v) && l < NUM_LEVELS
    ensures forall f :: f in v'[l] <==> (f in v[l] && (l, f.number) !in e.deleted) || (l, f) in e.added
  {
    FreshAdds(e, v, l);
    forall f | (l, f) in e.added ensures AddsNumber(e.added, l, f.number) {}
  }

  /** A sorted version with these members is the one that is installed. */
  lemma InstallsMembers(v: Version, e: Edit, v': Version)
    requires SortedVersion(v') && LevelsInRange(e) && Fresh(e, v)
    requires forall l: nat, f :: l < NUM_LEVELS ==>
               (f in v'[l] <==> (f in v[l] && (l, f.number) !in e.deleted) || (l, f) in e.added)
    ensures Installs(v, e, v')
  {
    var s := ApplyEdit(EMPTY_STATE, e);
    forall l: nat | l < NUM_LEVELS ensures SavedLevel(v[l], s.added[l], s.deleted[l], v'[l]) {
      FreshAdds(e, v, l);
      forall f | (l, f) in e.added ensures AddsNumber(e.added, l, f.number) {}
    }
  }

  /** An edit and a version determine the installed version. */
  lemma InstallsUnique(v: Version, e: Edit, a: Version, b: Version)
    requires Installs(v, e, a) && Installs(v, e, b)
    ensures a == b
  {
    forall l | 0 <= l < NUM_LEVELS ensures a[l] == b[l] {
      SortedFilesUnique(a[l], b[l]);
    }
  }

  /** VersionSet::WriteSnapshot: the whole current version as one edit. */
  method WriteSnapshot(v: Version) returns (e: Edit)
    ensures e == SnapshotOf(v)
  {
    var added: seq<(nat, File)> := [];
    for l := 0 to NUM_LEVELS
      invariant added == SnapshotAdds(v, l)
    {
      var start := added;
      for i := 0 to |v[l]|
        invariant added == start + AtLevel(l, v[l][..i])
      {
        added := added + [(l as nat, v[l][i])];
        assert v[l][..i + 1][..i] == v[l][..i];
      }
      assert v[l][..|v[l]|] == v[l];
    }
    e := Edit({}, added);
  }

  function AtLevel(l: nat, fs: seq<File>): (r: seq<(nat, File)>)
    ensures forall i :: 0 <= i < |r| ==> r[i].0 == l
  {
    if fs == [] then [] else AtLevel(l, fs[..|fs| - 1]) + [(l, fs[|fs| - 1])]
  }

  function SnapshotAdds(v: Version, n: nat): (r: seq<(nat, File)>)
    requires n <= NUM_LEVELS
    ensures forall i :: 0 <= i < |r| ==> r[i].0 < n
  {
    if n == 0 then [] else SnapshotAdds(v, n - 1) + AtLevel(n - 1, v[n - 1])
  }

  function SnapshotOf(v: Version): (e: Edit)
    ensures LevelsInRange(e)
  {
    Edit({}, SnapshotAdds(v, NUM_LEVELS))
  }

  lemma {:induction false} AtLevelAt(l: nat, fs: seq<File>)
    ensures |AtLevel(l, fs)| == |fs|
    ensures forall i :: 0 <= i < |fs| ==> AtLevel(l, fs)[i] == (l, fs[i])
  {
    if fs != [] {
      AtLevelAt(l, fs[..|fs| - 1]);
    }
  }

  lemma {:induction false} SnapshotMembers(v: Version, n: nat)
    requires n <= NUM_LEVELS
    ensures forall l: nat, f :: (l, f) in SnapshotAdds(v, n) <==> l < n && f in v[l]
  {
    if n > 0 {
      SnapshotMembers(v, n - 1);
      AtLevelMembers(n - 1, v[n - 1]);
    }
  }

  lemma AtLevelMembers(m: nat, fs: seq<File>)
    ensures forall l: nat, f :: (l, f) in AtLevel(m, fs) <==> l == m && f in fs
  {
    AtLevelAt(m, fs);
    hide AtLevel;
    forall f | f in fs ensures (m, f) in AtLevel(m, fs) {
      var i :| 0 <= i < |fs| && fs[i] == f;
      assert AtLevel(m, fs)[i] == (m, f);
    }
  }

  lemma {:induction false} SnapshotAddsOnce(v: Version, n: nat, l: nat)
    requires n <= NUM_LEVELS
    requires forall l :: 0 <= l < NUM_LEVELS ==> DistinctNumbers(v[l])
    ensures AddsOnce(SnapshotAdds(v, n), l)
  {
    if n > 0 {
      SnapshotAddsOnce(v, n - 1, l);
      AddsOnceAppend(SnapshotAdds(v, n - 1), n - 1, v[n - 1], l);
    }
  }

  lemma AddsOnceAppend(a: seq<(nat, File)>, m: nat, files: seq<File>, l: nat)
    requires AddsOnce(a, l) && DistinctNumbers(files)
    requires forall i :: 0 <= i < |a| ==> a[i].0 != m
    ensures AddsOnce(a + AtLevel(m, files), l)
  {
    AtLevelAt(m, files);
    var b := AtLevel(m, files);
    var all := a + b;
    forall i, j | 0 <= i < j < |all| && all[i].0 == l && all[j].0 == l ensures all[i].1.number != all[j].1.number {
      assert i < |a| ==> all[i] == a[i];
      assert j < |a| ==> all[j] == a[j];
      if j >= |a| {
        assert all[j] == b[j - |a|] == (m, files[j - |a|]);
        assert all[i] == b[i - |a|] == (m, files[i - |a|]);
      }
    }
  }

  // ---------------------------------------------------------------- replay

  /** VersionSet::Recover applies every edit of the manifest to one builder. */
  function ApplyEdits(s: State, es: seq<Edit>): (r: State)
    requires StateValid(s) && forall i :: 0 <= i < |es| ==> LevelsInRange(es[i])
    ensures StateValid(r)
  {
    if es == [] then s else ApplyEdit(ApplyEdits(s, es[..|es| - 1]), es[|es| - 1])
  }

  function RecoveredState(snapshot: Edit, es: seq<Edit>): (r: State)
    requires LevelsInRange(snapshot) && forall i :: 0 <= i < |es| ==> LevelsInRange(es[i])
    ensures StateValid(r)
  {
    ApplyEdits(ApplyEdit(EMPTY_STATE, snapshot), es)
  }

  /** `f` was at level l in the first version or was put there by an edit. */
  ghost predicate EverAt(v0: Version, es: seq<Edit>, l: nat, f: File)
    requires l < NUM_LEVELS
  {
    f in v0[l] || exists i :: 0 <= i < |es| && (l, f) in es[i].added
  }

  /** Every number an edit adds at a level is one that was never at that level before. */
  ghost predicate AddsUnused(v0: Version, earlier: seq<Edit>, e: Edit) {
    forall l :: 0 <= l < NUM_LEVELS ==>
      AddsOnce(e.added, l) && forall f :: EverAt(v0, earlier, l, f) ==> !AddsNumber(e.added, l, f.number)
  }

  /** A file number is put at most once at any level. */
  ghost predicate NumbersUsedOnce(v0: Version, es: seq<Edit>) {
    forall i :: 0 <= i < |es| ==> AddsUnused(v0, es[..i], es[i])
  }

  /** The versions that were current, one after each edit. */
  ghost predicate LiveRun(vs: seq<Version>, es: seq<Edit>) {
    && |vs| == |es| + 1
    && (forall i :: 0 <= i < |es| ==> LevelsInRange(es[i]))
    && (forall i :: 0 <= i < |es| ==> Installs(vs[i], es[i], vs[i + 1]))
  }

  ghost predicate Agrees(s: State, v0: Version, es: seq<Edit>, v: Version) {
    forall l, f :: 0 <= l < NUM_LEVELS ==>
      && (f in s.added[l] <==> EverAt(v0, es, l, f))
      && (f in v[l] <==> f in s.added[l] && f.number !in s.deleted[l])
  }

  lemma EverAtSnoc(v0: Version, es: seq<Edit>, e: Edit, l: nat, f: File)
    requires l < NUM_LEVELS
    ensures EverAt(v0, es + [e], l, f) <==> EverAt(v0, es, l, f) || (l, f) in e.added
  {
    assert (es + [e])[|es|] == e;
    assert forall i :: 0 <= i < |es| ==> (es + [e])[i] == es[i];
  }

  lemma AgreesStep(s: State, v0: Version, es: seq<Edit>, e: Edit, v: Version, v': Version)
    requires StateValid(s) && Agrees(s, v0, es, v) && Installs(v, e, v')
    requires AddsUnused(v0, es, e)
    ensures Agrees(ApplyEdit(s, e), v0, es + [e], v')
  {
    var t := ApplyDeleted(s, e.deleted);
    assert forall l :: 0 <= l < NUM_LEVELS ==> AddsFresh(e.added, l, s.added[l]);
    forall l | 0 <= l < NUM_LEVELS ensures AddsFresh(e.added, l, v[l]) {
      assert forall f :: f in v[l] ==> f in s.added[l];
    }
    forall l: nat, f | l < NUM_LEVELS
      ensures f in ApplyEdit(s, e).added[l] <==> EverAt(v0, es + [e], l, f)
      ensures f in v'[l] <==> f in ApplyEdit(s, e).added[l] && f.number !in ApplyEdit(s, e).deleted[l]
    {
      ApplyAddedMembers(t, e.added, l);
      EverAtSnoc(v0, es, e, l, f);
      ApplyDeletedMember(s, e.deleted, l, f.number);
      assert (l, f) in e.added ==> AddsNumber(e.added, l, f.number);
      InstalledMembers(v, e, v', l);
    }
  }

  lemma {:induction false} ReplayAgrees(vs: seq<Version>, es: seq<Edit>, n: nat)
    requires LiveRun(vs, es) && n <= |es|
    requires forall l :: 0 <= l < NUM_LEVELS ==> DistinctNumbers(vs[0][l])
    requires NumbersUsedOnce(vs[0], es)
    ensures Agrees(RecoveredState(SnapshotOf(vs[0]), es[..n]), vs[0], es[..n], vs[n])
  {
    if n == 0 {
      SnapshotAgrees(vs[0]);
    } else {
      hide StateValid, Agrees, NumbersUsedOnce;
      SnapshotMembers(vs[0], NUM_LEVELS);
      ReplayAgrees(vs, es, n - 1);
      assert es[..n][..n - 1] == es[..n - 1];
      assert es[..n] == es[..n - 1] + [es[n - 1]];
      AgreesStep(RecoveredState(SnapshotOf(vs[0]), es[..n - 1]), vs[0], es[..n - 1], es[n - 1], vs[n - 1], vs[n]);
    }
  }

  lemma SnapshotAgrees(v: Version)
    requires forall l :: 0 <= l < NUM_LEVELS ==> DistinctNumbers(v[l])
    ensures Agrees(RecoveredState(SnapshotOf(v), []), v, [], v)
  {
    SnapshotMembers(v, NUM_LEVELS);
    var s := ApplyEdit(EMPTY_STATE, SnapshotOf(v));
    forall l | 0 <= l < NUM_LEVELS
      ensures forall f :: f in s.added[l] <==> f in v[l]
      ensures s.deleted[l] == {}
    {
      SnapshotAddsOnce(v, NUM_LEVELS, l);
      ApplyAddedMembers(ApplyDeleted(EMPTY_STATE, {}), SnapshotOf(v).added, l);
    }
  }

  /** Saving once after all edits of the manifest gives the version that the edits, applied one at
      a time, made current. */
  lemma ReplayEqualsLive(vs: seq<Version>, es: seq<Edit>, recovered: Version)
    requires LiveRun(vs, es)
    requires SortedVersion(vs[0]) && forall l :: 0 <= l < NUM_LEVELS ==> DistinctNumbers(vs[0][l])
    requires NumbersUsedOnce(vs[0], es)
    requires Saved(EMPTY_VERSION, RecoveredState(SnapshotOf(vs[0]), es), recovered)
    ensures recovered == vs[|es|]
  {
    ReplayAgrees(vs, es, |es|);
    assert es[..|es|] == es;
    var live := vs[|es|];
    assert SortedVersion(live) by {
      if |es| > 0 { assert Installs(vs[|es| - 1], es[|es| - 1], vs[|es| - 1 + 1]); }
    }
    SavedAgrees(RecoveredState(SnapshotOf(vs[0]), es), vs[0], es, live, recovered);
  }

  lemma SavedAgrees(s: State, v0: Version, es: seq<Edit>, live: Version, recovered: Version)
    requires Agrees(s, v0, es, live) && SortedVersion(live) && Saved(EMPTY_VERSION, s, recovered)
    ensures recovered == live
  {
    forall l | 0 <= l < NUM_LEVELS ensures recovered[l] == live[l] {
      assert SavedLevel([], s.added[l], s.deleted[l], recovered[l]);
      SortedFilesUnique(recovered[l], live[l]);
    }
  }

  /** VersionSet::Recover, after decoding: one builder over an empty version. */
  method Recover(snapshot: Edit, es: seq<Edit>) returns (v: Version)
    requires LevelsInRange(snapshot) && forall i :: 0 <= i < |es| ==> LevelsInRange(es[i])
    ensures Saved(EMPTY_VERSION, RecoveredState(snapshot, es), v)
  {
    var builder := new Builder(EMPTY_VERSION);
    builder.Apply(snapshot);
    ghost var start := builder.state;
    for i := 0 to |es|
      invariant builder.Valid()
      invariant builder.state == ApplyEdits(start, es[..i])
    {
      assert es[..i + 1][..i] == es[..i];
      builder.Apply(es[i]);
    }
    assert es[..|es|] == es;
    v := builder.SaveTo();
  }
}
