/** The write queue's groups as writes of the database. */
module GroupWrites {
  import opened Keys
  import opened Reads
  import opened Coding
  import opened GroupCommit
  import Bytewise
  import Engine
  import MemTables
  import WriteBatches

  function TypeOf(typ: Byte): ValueType {
    if typ == WriteBatches.TYPE_VALUE then TypeValue else TypeDeletion
  }

  /** An update with its key's rank. */
  function Ranked(u: WriteBatches.Update): Engine.Update {
    match u
    case Put(key, value) => Engine.Update(TypeValue, Bytewise.Rank(key), value)
    case Delete(key) => Engine.Update(TypeDeletion, Bytewise.Rank(key), [])
  }

  function RankedAll(us: seq<WriteBatches.Update>): (r: seq<Engine.Update>)
    ensures |r| == |us| && forall i :: 0 <= i < |us| ==> r[i] == Ranked(us[i])
  {
    seq(|us|, i requires 0 <= i < |us| => Ranked(us[i]))
  }

  /** The entry of the database that the queue's memtable entry stands for. */
  function EntryOf(e: WriteBatches.MemEntry): Entry {
    MemTables.EntryFor(e.sequence, TypeOf(e.typ), e.key, e.value)
  }

  ghost function EntriesIn(es: seq<WriteBatches.MemEntry>): set<Entry> {
    set e | e in es :: EntryOf(e)
  }

  /** A batch means the same to the queue and to the database. */
  lemma SameEntries(us: seq<WriteBatches.Update>, first: nat)
    ensures Run(Engine.BatchEntries(RankedAll(us), first)) == EntriesIn(WriteBatches.EntriesOf(us, first))
  {
    var a, b := Engine.BatchEntries(RankedAll(us), first), WriteBatches.EntriesOf(us, first);
    forall i | 0 <= i < |us| ensures a[i] == EntryOf(b[i]) && b[i] in b && a[i] in a {}
    forall e | e in Run(a) ensures e in EntriesIn(b) {
      var i :| 0 <= i < |a| && a[i] == e;
      assert EntryOf(b[i]) == e;
    }
    forall m | m in b ensures EntryOf(m) in Run(a) {
      var i :| 0 <= i < |b| && b[i] == m;
      assert a[i] == EntryOf(m);
    }
  }

  function WritesOf(gs: seq<Group>): (steps: seq<Engine.Step>)
    ensures |steps| == |gs|
  {
    if gs == [] then []
    else WritesOf(gs[..|gs| - 1]) + [Engine.Step.Write(RankedAll(gs[|gs| - 1].updates))]
  }

  /** Groups that succeed are a run of the database: one write after the other, each of a whole group,
      with the sequence numbers that the queue gave out, and what has been written is what the queue has
      inserted. */
  lemma {:induction false} GroupsAreWrites(gs: seq<Group>) returns (ds: seq<Engine.Db>)
    requires GroupsOk(gs) && AllOk(gs) && Next(gs) <= MAX_SEQUENCE
    ensures Engine.IsRun(ds, WritesOf(gs))
    ensures ds[|gs|].lastSequence == Next(gs) - 1
    ensures Engine.History(ds, WritesOf(gs), |gs|) == EntriesIn(Applied(gs))
  {
    if gs == [] {
      ds := [Engine.EMPTY_DB];
    } else {
      var init, g := gs[..|gs| - 1], gs[|gs| - 1];
      GroupsPrefix(gs, |gs| - 1);
      LastGroupOk(gs);
      ds := GroupsAreWrites(init);
      ds := OneMoreWrite(gs, ds);
    }
  }

  lemma OneMoreWrite(gs: seq<Group>, ds: seq<Engine.Db>) returns (ds': seq<Engine.Db>)
    requires gs != [] && AllOk(gs) && Next(gs) <= MAX_SEQUENCE && gs[|gs| - 1].base == Next(gs[..|gs| - 1])
    requires Engine.IsRun(ds, WritesOf(gs[..|gs| - 1])) && ds[|gs| - 1].lastSequence == Next(gs[..|gs| - 1]) - 1
    requires Engine.History(ds, WritesOf(gs[..|gs| - 1]), |gs| - 1) == EntriesIn(Applied(gs[..|gs| - 1]))
    ensures Engine.IsRun(ds', WritesOf(gs)) && ds'[|gs|].lastSequence == Next(gs) - 1
    ensures Engine.History(ds', WritesOf(gs), |gs|) == EntriesIn(Applied(gs))
  {
    hide Ranked, EntryOf, Engine.BatchEntries, WriteBatches.EntriesOf, Run, Engine.HistoryAfter, Engine.TakeStep;
    var n, us := |gs| - 1, gs[|gs| - 1].updates;
    assert WritesOf(gs) == WritesOf(gs[..n]) + [Engine.Step.Write(RankedAll(us))];
    assert Next(gs) == Next(gs[..n]) + |us|;
    LastApplied(gs);
    SameEntries(us, gs[n].base);
    hide Next, Applied, WritesOf, RankedAll, EntriesIn, AllOk, Engine.IsRun;
    ds' := Written(ds, WritesOf(gs[..n]), RankedAll(us));
  }

  /** The run in which the batch is written next. */
  lemma Written(ds: seq<Engine.Db>, steps: seq<Engine.Step>, batch: seq<Engine.Update>) returns (ds': seq<Engine.Db>)
    requires Engine.IsRun(ds, steps) && ds[|steps|].lastSequence + |batch| < MAX_SEQUENCE
    ensures var steps' := steps + [Engine.Step.Write(batch)];
            && Engine.IsRun(ds', steps')
            && ds'[|steps'|].lastSequence == ds[|steps|].lastSequence + |batch|
            && Engine.History(ds', steps', |steps'|)
                 == Engine.History(ds, steps, |steps|) + Run(Engine.BatchEntries(batch, ds[|steps|].lastSequence + 1))
  {
    var d := ds[|steps|];
    var d' := d.(mem := Engine.InsertAll(d.mem, Engine.BatchEntries(batch, d.lastSequence + 1)), lastSequence := d.lastSequence + |batch|);
    OneMoreStep(ds, steps, batch, d');
    ds' := ds + [d'];
    hide Engine.IsRun, Engine.History, Engine.BatchEntries, Engine.InsertAll;
  }

  lemma LastApplied(gs: seq<Group>)
    requires gs != [] && AllOk(gs)
    ensures var g := gs[|gs| - 1]; Applied(gs) == Applied(gs[..|gs| - 1]) + WriteBatches.EntriesOf(g.updates, g.base)
    ensures EntriesIn(Applied(gs)) == EntriesIn(Applied(gs[..|gs| - 1])) + EntriesIn(WriteBatches.EntriesOf(gs[|gs| - 1].updates, gs[|gs| - 1].base))
  {
    hide WriteBatches.EntriesOf, EntryOf;
    assert gs[|gs| - 1].status.Ok?;
  }

  lemma OneMoreStep(ds: seq<Engine.Db>, steps: seq<Engine.Step>, batch: seq<Engine.Update>, d': Engine.Db)
    requires Engine.IsRun(ds, steps) && Engine.WriteStep(ds[|steps|], batch, d')
    ensures var ds', steps' := ds + [d'], steps + [Engine.Step.Write(batch)];
            && Engine.IsRun(ds', steps')
            && Engine.History(ds', steps', |steps'|)
                 == Engine.History(ds, steps, |steps|) + Run(Engine.BatchEntries(batch, ds[|steps|].lastSequence + 1))
  {
    hide Engine.WriteStep, Engine.BatchEntries;
    var n, ds', steps' := |steps|, ds + [d'], steps + [Engine.Step.Write(batch)];
    forall i | 0 <= i <= n ensures Engine.TakeStep(ds'[i], steps'[i], ds'[i + 1]) {
      if i < n { assert Engine.TakeStep(ds[i], steps[i], ds[i + 1]); }
    }
    SameHistory(ds, steps, ds', steps', n);
  }

  lemma {:induction false} SameHistory(ds: seq<Engine.Db>, steps: seq<Engine.Step>, ds': seq<Engine.Db>, steps': seq<Engine.Step>, n: nat)
    requires Engine.IsRun(ds, steps) && Engine.IsRun(ds', steps') && ds <= ds' && steps <= steps' && n <= |steps|
    ensures Engine.History(ds', steps', n) == Engine.History(ds, steps, n)
  {
    hide Engine.TakeStep, Engine.HistoryAfter;
    if n > 0 { SameHistory(ds, steps, ds', steps', n - 1); }
  }

  /** Every run of the queue without errors is such a run of the database, and what is in its memtable has
      been written there. */
  lemma QueueRunIsDatabaseRun(ss: seq<State>, steps: seq<Step>, n: nat) returns (ds: seq<Engine.Db>)
    requires IsRun(ss, steps) && n <= |steps| && AllOk(ss[n].groups) && ss[n].lastSequence < MAX_SEQUENCE
    ensures Engine.IsRun(ds, WritesOf(ss[n].groups))
    ensures ds[|ss[n].groups|].lastSequence == ss[n].lastSequence
    ensures Engine.History(ds, WritesOf(ss[n].groups), |ss[n].groups|) == EntriesIn(ss[n].mem)
  {
    hide TakeStep, GroupsOk;
    RunKeepsInvariant(ss, steps, n);
    ds := GroupsAreWrites(ss[n].groups);
  }
}
