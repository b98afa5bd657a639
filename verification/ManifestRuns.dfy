/** The manifest of a run of the database: the edits that the steps log, and what recovery makes of them. */
module ManifestRuns {
  import opened Keys
  import opened Versions
  import opened VersionBuilder
  import opened CompactionInputs
  import opened CompactionWork
  import opened VersionSteps
  import opened Engine
  import opened Manifest
  import opened DbImplementation

  const NO_EDIT := Edit({}, [])

  /** What a step logs; a step that logs nothing counts as an empty edit. */
  function EditOf(d: Db, step: Step): Edit {
    match step
    case Flush(level, size) =>
      if d.imm.None? || d.imm.value == [] then NO_EDIT else FlushEdit(level, NewFile(d.nextFileNumber, size, d.imm.value))
    case Compact(c, outputs) => CompactionEdit(c, outputs)
    case Move(c) => CompactionEdit(c, c.inputs0)
    case _ => NO_EDIT
  }

  // ---------------------------------------------------------------- each step installs its edit

  lemma NothingInstalls(v: Version)
    requires SortedVersion(v)
    ensures Fresh(NO_EDIT, v) && Installs(v, NO_EDIT, v)
  {
    InstallsMembers(v, NO_EDIT, v);
  }

  lemma FlushInstalls(v: Version, level: nat, f: File, v': Version)
    requires SortedVersion(v) && level < NUM_LEVELS && NumbersBelow(v, f.number) && Flushed(v, level, f, v')
    ensures Fresh(FlushEdit(level, f), v) && Installs(v, FlushEdit(level, f), v')
  {
    FlushEditInstalls(v, level, f, v');
    assert forall l: nat, g :: (l, g) in FlushEdit(level, f).added <==> l == level && g == f;
    InstallsMembers(v, FlushEdit(level, f), v');
  }

  lemma RewriteInstalls(v: Version, c: Compaction, outputs: seq<File>, v': Version)
    requires WellChosen(v, c) && DistinctNumbers(outputs) && Rewritten(v, c, outputs, v')
    requires forall l :: 0 <= l < NUM_LEVELS ==> DistinctNumbers(v[l])
    requires forall f, g :: f in outputs && g in v[c.level + 1] ==> f.number != g.number
    ensures Fresh(CompactionEdit(c, outputs), v) && Installs(v, CompactionEdit(c, outputs), v')
    ensures forall l: nat, f :: (l, f) in CompactionEdit(c, outputs).added <==> l == c.level + 1 && f in outputs
  {
    hide WellChosen, Fresh, Installs;
    var e := CompactionEdit(c, outputs);
    RewriteIsFresh(v, c, outputs);
    forall l: nat, f | l < NUM_LEVELS
      ensures f in v'[l] <==> (f in v[l] && (l, f.number) !in e.deleted) || (l, f) in e.added
    {
      assert RewrittenLevel(v[l], c, l, outputs, v'[l]);
      CompactionEditDeletes(v, c, outputs, l);
    }
    InstallsMembers(v, e, v');
  }

  lemma RewriteIsFresh(v: Version, c: Compaction, outputs: seq<File>)
    requires WellChosen(v, c) && DistinctNumbers(outputs)
    requires forall f, g :: f in outputs && g in v[c.level + 1] ==> f.number != g.number
    ensures Fresh(CompactionEdit(c, outputs), v) && LevelsInRange(CompactionEdit(c, outputs))
    ensures forall l: nat, f :: (l, f) in CompactionEdit(c, outputs).added <==> l == c.level + 1 && f in outputs
  {
    CompactionEditFresh(v, c, outputs);
  }

  /** The version after a step is the one that installing the step's edit makes current. */
  lemma StepInstalls(d: Db, h: set<Entry>, step: Step, d': Db)
    requires Invariant(d, h) && TakeStep(d, step, d')
    ensures Fresh(EditOf(d, step), d.version) && Installs(d.version, EditOf(d, step), d'.version)
  {
    hide Fresh, Installs, Layered, Recorded, SnapshotsOrdered, CompactionEdit, FlushEdit, SortedVersion, WellChosen, Rewritten, Flushed;
    match step
    case Flush(level, size) =>
      if d.imm.value == [] {
        NothingInstalls(d.version);
      } else {
        FlushInstalls(d.version, level, NewFile(d.nextFileNumber, size, d.imm.value), d'.version);
      }
    case Compact(c, outputs) =>
      LevelOfCompaction(d.version, c);
      OutputsAreFresh(d.version, c, outputs, d.nextFileNumber);
      RewriteInstalls(d.version, c, outputs, d'.version);
    case Move(c) =>
      LevelOfCompaction(d.version, c);
      MoveIsFresh(d.version, c);
      RewriteInstalls(d.version, c, c.inputs0, d'.version);
    case _ => NothingInstalls(d.version);
  }

  lemma LevelOfCompaction(v: Version, c: Compaction)
    requires WellChosen(v, c)
    ensures c.level + 1 < NUM_LEVELS && DistinctNumbers(c.inputs0)
  {
  }

  // ---------------------------------------------------------------- file numbers

  /** File numbers go up, and a file only moves down: where a number has been is never below where it is. */
  ghost predicate Descends(v0: Version, es: seq<Edit>, v: Version, next: nat) {
    && (forall l: nat, f :: l < NUM_LEVELS && EverAt(v0, es, l, f) ==> f.number < next)
    && (forall l: nat, f :: l < NUM_LEVELS && f in v[l] ==> EverAt(v0, es, l, f))
    && (forall a: nat, b: nat, f, g ::
          a < NUM_LEVELS && b < NUM_LEVELS && EverAt(v0, es, a, f) && g in v[b] && f.number == g.number ==> a <= b)
  }

  lemma NewFilesDescend(v0: Version, es: seq<Edit>, e: Edit, v: Version, v': Version, next: nat, next': nat)
    requires Fresh(e, v) && Installs(v, e, v') && Descends(v0, es, v, next) && next <= next'
    requires forall l: nat, f :: (l, f) in e.added ==> next <= f.number < next'
    requires forall a: nat, b: nat, f, g :: (a, f) in e.added && (b, g) in e.added ==> a == b
    ensures AddsUnused(v0, es, e) && Descends(v0, es + [e], v', next')
  {
    forall l: nat, f | l < NUM_LEVELS
      ensures EverAt(v0, es + [e], l, f) <==> EverAt(v0, es, l, f) || (l, f) in e.added
      ensures f in v'[l] ==> f in v[l] || (l, f) in e.added
    {
      EverAtSnoc(v0, es, e, l, f);
      InstalledMembers(v, e, v', l);
    }
    forall l: nat | l < NUM_LEVELS ensures AddsOnce(e.added, l) { assert AddsFresh(e.added, l, v[l]); }
  }

  lemma MoveDescends(v0: Version, es: seq<Edit>, e: Edit, v: Version, v': Version, next: nat, level: nat, f: File)
    requires Fresh(e, v) && Installs(v, e, v') && Descends(v0, es, v, next) && GloballyDistinct(v)
    requires level + 1 < NUM_LEVELS && f in v[level] && (level, f.number) in e.deleted
    requires forall l: nat, g :: (l, g) in e.added <==> l == level + 1 && g == f
    ensures AddsUnused(v0, es, e) && Descends(v0, es + [e], v', next)
  {
    hide EverAt, AddsNumber, Installs;
    forall l: nat, g | l < NUM_LEVELS
      ensures EverAt(v0, es + [e], l, g) <==> EverAt(v0, es, l, g) || (l == level + 1 && g == f)
      ensures f in v'[l] ==> l == level + 1
      ensures g in v'[l] ==> g in v[l] || (l == level + 1 && g == f)
    {
      EverAtSnoc(v0, es, e, l, g);
      InstalledMembers(v, e, v', l);
    }
    forall l: nat, g | l < NUM_LEVELS && g in v'[l] && g.number == f.number ensures l == level + 1 {
      assert g in v[l] ==> g == f;
    }
    MoveIsUnused(v0, es, e, v, next, level, f);
  }

  lemma MoveIsUnused(v0: Version, es: seq<Edit>, e: Edit, v: Version, next: nat, level: nat, f: File)
    requires Fresh(e, v) && Descends(v0, es, v, next) && level + 1 < NUM_LEVELS && f in v[level]
    requires forall l: nat, g :: (l, g) in e.added <==> l == level + 1 && g == f
    ensures AddsUnused(v0, es, e)
  {
    hide EverAt, AddsOnce;
    forall l | 0 <= l < NUM_LEVELS ensures AddsOnce(e.added, l) { assert AddsFresh(e.added, l, v[l]); }
    forall l, g | 0 <= l < NUM_LEVELS && EverAt(v0, es, l, g) ensures !AddsNumber(e.added, l, g.number) {
      WasNotThere(v0, es, v, next, level, f, l, g);
    }
  }

  lemma WasNotThere(v0: Version, es: seq<Edit>, v: Version, next: nat, level: nat, f: File, l: nat, g: File)
    requires Descends(v0, es, v, next) && level < NUM_LEVELS && f in v[level] && l < NUM_LEVELS && EverAt(v0, es, l, g)
    ensures g.number == f.number ==> l <= level
  {
  }

  lemma StepDescends(v0: Version, es: seq<Edit>, d: Db, h: set<Entry>, step: Step, d': Db)
    requires Invariant(d, h) && TakeStep(d, step, d') && Descends(v0, es, d.version, d.nextFileNumber)
    ensures AddsUnused(v0, es, EditOf(d, step))
    ensures Descends(v0, es + [EditOf(d, step)], d'.version, d'.nextFileNumber)
  {
    hide Fresh, Installs, Layered, Recorded, SnapshotsOrdered, SortedVersion, Rewritten, Flushed, Descends, AddsUnused, GloballyDistinct, NumbersBelow;
    var e := EditOf(d, step);
    StepInstalls(d, h, step, d');
    if step.Move? {
      var c := step.c;
      RewriteIsFreshMove(d.version, c);
      MoveDescends(v0, es, e, d.version, d'.version, d.nextFileNumber, c.level, c.inputs0[0]);
    } else {
      EditAddsNew(d, h, step, d');
      NewFilesDescend(v0, es, e, d.version, d'.version, d.nextFileNumber, d'.nextFileNumber);
    }
  }

  lemma RewriteIsFreshMove(v: Version, c: Compaction)
    requires GloballyDistinct(v) && WellChosen(v, c) && |c.inputs0| == 1
    ensures c.level + 1 < NUM_LEVELS && c.inputs0[0] in v[c.level]
    ensures (c.level, c.inputs0[0].number) in CompactionEdit(c, c.inputs0).deleted
    ensures forall l: nat, g :: (l, g) in CompactionEdit(c, c.inputs0).added <==> l == c.level + 1 && g == c.inputs0[0]
  {
    assert c.inputs0[0] in c.inputs0;
    MoveIsFresh(v, c);
    CompactionEditFresh(v, c, c.inputs0);
    assert forall g :: g in c.inputs0 <==> g == c.inputs0[0];
    assert (c.level, c.inputs0[0].number) in NumbersOf(c.level, c.inputs0);
  }

  lemma EditAddsNew(d: Db, h: set<Entry>, step: Step, d': Db)
    requires Invariant(d, h) && TakeStep(d, step, d') && !step.Move?
    ensures d.nextFileNumber <= d'.nextFileNumber
    ensures forall l: nat, f :: (l, f) in EditOf(d, step).added ==> d.nextFileNumber <= f.number < d'.nextFileNumber
    ensures forall a: nat, b: nat, f, g :: (a, f) in EditOf(d, step).added && (b, g) in EditOf(d, step).added ==> a == b
  {
    hide Layered, Recorded, SnapshotsOrdered, Versions.Valid, SortedVersion, GloballyDistinct, WellChosen, HoldKept, Rewritten, Flushed, MayFlushTo;
    match step
    case Compact(c, outputs) => CompactionAddsNew(d, c, outputs);
    case Flush(level, size) =>
    case _ =>
  }

  lemma CompactionAddsNew(d: Db, c: Compaction, outputs: seq<File>)
    requires WellChosen(d.version, c) && OutputsNumbered(outputs, d.nextFileNumber) && NumbersBelow(d.version, d.nextFileNumber)
    ensures forall l: nat, f :: (l, f) in CompactionEdit(c, outputs).added ==>
              l == c.level + 1 && d.nextFileNumber <= f.number < d.nextFileNumber + |outputs|
  {
    OutputsAreFresh(d.version, c, outputs, d.nextFileNumber);
    CompactionEditFresh(d.version, c, outputs);
    OutputNumbers(outputs, d.nextFileNumber);
  }

  // ---------------------------------------------------------------- runs

  function EditsOf(ds: seq<Db>, steps: seq<Step>): (es: seq<Edit>)
    requires |ds| >= |steps|
    ensures |es| == |steps|
  {
    seq(|steps|, i requires 0 <= i < |steps| => EditOf(ds[i], steps[i]))
  }

  function VersionsOf(ds: seq<Db>): (vs: seq<Version>)
    ensures |vs| == |ds|
  {
    seq(|ds|, i requires 0 <= i < |ds| => ds[i].version)
  }

  lemma {:induction false} RunDescends(ds: seq<Db>, steps: seq<Step>, n: nat)
    requires Engine.IsRun(ds, steps) && n <= |steps|
    ensures Descends(EMPTY_VERSION, EditsOf(ds, steps)[..n], ds[n].version, ds[n].nextFileNumber)
    ensures forall i :: 0 <= i < n ==> AddsUnused(EMPTY_VERSION, EditsOf(ds, steps)[..i], EditOf(ds[i], steps[i]))
  {
    hide AddsUnused, TakeStep, EditOf, Invariant;
    var es := EditsOf(ds, steps);
    if n == 0 {
      NothingEver();
    } else {
      hide Descends;
      RunDescends(ds, steps, n - 1);
      RunKeepsInvariant(ds, steps, n - 1);
      StepDescends(EMPTY_VERSION, es[..n - 1], ds[n - 1], History(ds, steps, n - 1), steps[n - 1], ds[n - 1 + 1]);
      assert es[..n] == es[..n - 1] + [es[n - 1]];
    }
  }

  lemma NothingEver()
    ensures Descends(EMPTY_VERSION, [], EMPTY_VERSION, EMPTY_DB.nextFileNumber)
  {
  }

  /** The edits of a run, from any of its states on: each is installed by its step, and no file number
      is put at a level twice. */
  lemma RunLogsManifest(ds: seq<Db>, steps: seq<Step>, k: nat)
    requires Engine.IsRun(ds, steps) && k <= |steps|
    ensures LiveRun(VersionsOf(ds)[k..], EditsOf(ds, steps)[k..])
    ensures NumbersUsedOnce(ds[k].version, EditsOf(ds, steps)[k..])
  {
    hide AddsUnused, TakeStep, Installs, Descends;
    var vs, es := VersionsOf(ds), EditsOf(ds, steps);
    forall i | 0 <= i < |es[k..]| ensures Installs(vs[k..][i], es[k..][i], vs[k..][i + 1]) && AddsUnused(ds[k].version, es[k..][..i], es[k..][i]) {
      RunKeepsInvariant(ds, steps, k + i);
      StepInstalls(ds[k + i], History(ds, steps, k + i), steps[k + i], ds[k + i + 1]);
      RunDescends(ds, steps, |steps|);
      RunDescends(ds, steps, k);
      LaterStart(ds[k].version, es, k, k + i, ds[k].nextFileNumber);
    }
    InstallsInRange(vs[k..], es[k..]);
  }

  lemma InstallsInRange(vs: seq<Version>, es: seq<Edit>)
    requires |vs| == |es| + 1 && forall i :: 0 <= i < |es| ==> Installs(vs[i], es[i], vs[i + 1])
    ensures LiveRun(vs, es)
  {
    forall i | 0 <= i < |es| ensures LevelsInRange(es[i]) { assert Installs(vs[i], es[i], vs[i + 1]); }
  }

  lemma LaterStart(v: Version, es: seq<Edit>, k: nat, n: nat, next: nat)
    requires k <= n < |es| && Descends(EMPTY_VERSION, es[..k], v, next) && AddsUnused(EMPTY_VERSION, es[..n], es[n])
    ensures AddsUnused(v, es[k..][..n - k], es[k..][n - k])
  {
    hide EverAt, AddsOnce, AddsNumber, Descends;
    assert es[k..][n - k] == es[n];
    forall l, f | 0 <= l < NUM_LEVELS && EverAt(v, es[k..][..n - k], l, f) ensures !AddsNumber(es[n].added, l, f.number) {
      EverSince(v, es, k, n, next, l, f);
      assert AddsOnce(es[n].added, l);
    }
  }

  lemma EverSince(v: Version, es: seq<Edit>, k: nat, n: nat, next: nat, l: nat, f: File)
    requires k <= n < |es| && Descends(EMPTY_VERSION, es[..k], v, next) && l < NUM_LEVELS && EverAt(v, es[k..][..n - k], l, f)
    ensures EverAt(EMPTY_VERSION, es[..n], l, f)
  {
    if f in v[l] {
      var i :| 0 <= i < k && (l, f) in es[..k][i].added;
      assert es[..n][i] == es[..k][i];
    } else {
      var i :| 0 <= i < n - k && (l, f) in es[k..][..n - k][i].added;
      assert es[..n][k + i] == es[k..][..n - k][i];
    }
  }

  lemma StateNumbers(d: Db, h: set<Entry>)
    requires Invariant(d, h)
    ensures SortedVersion(d.version) && forall l :: 0 <= l < NUM_LEVELS ==> DistinctNumbers(d.version[l])
  {
  }

  /** Recovery from the manifest of any run, begun with a snapshot of the version at any of its states,
      restores the version of the last state. */
  lemma RunIsRecovered(ds: seq<Db>, steps: seq<Step>, k: nat, recovered: Version)
    requires Engine.IsRun(ds, steps) && k <= |steps|
    requires LiveRun(VersionsOf(ds)[k..], EditsOf(ds, steps)[k..])
    requires Saved(EMPTY_VERSION, RecoveredState(SnapshotOf(ds[k].version), EditsOf(ds, steps)[k..]), recovered)
    ensures recovered == ds[|steps|].version
  {
    hide LiveRun, NumbersUsedOnce, Saved, SnapshotOf, EditsOf, TakeStep, Layered, Recorded, Versions.Valid;
    RunLogsManifest(ds, steps, k);
    RunKeepsInvariant(ds, steps, k);
    StateNumbers(ds[k], History(ds, steps, k));
    ReplayEqualsLive(VersionsOf(ds)[k..], EditsOf(ds, steps)[k..], recovered);
  }
}
