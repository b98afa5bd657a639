/** What a user sees: the history of writes reads like a map that the writes update in order, and a
    snapshot reads like the map at the time it was taken. */
module StoreContents {
  import opened Keys
  import opened Reads
  import opened Engine

  function At(m: map<UserKey, Bytes>, k: UserKey): Option<Bytes> {
    if k in m then Some(m[k]) else None
  }

  function Applied(m: map<UserKey, Bytes>, batch: seq<Update>): map<UserKey, Bytes> {
    if batch == [] then m
    else
      var before, u := Applied(m, batch[..|batch| - 1]), batch[|batch| - 1];
      if u.typ.TypeValue? then before[u.ukey := u.value] else before - {u.ukey}
  }

  /** The map after the writes among some steps. */
  function Contents(steps: seq<Step>): map<UserKey, Bytes> {
    if steps == [] then map[]
    else
      var before, last := Contents(steps[..|steps| - 1]), steps[|steps| - 1];
      if last.Write? then Applied(before, last.batch) else before
  }

  /** Everything in h is at or below s. */
  ghost predicate UpTo(h: set<Entry>, s: nat) {
    DistinctSeqnos(h) && forall e :: e in h ==> e.key.seqno <= s
  }

  lemma ReadUpdated(h: set<Entry>, s: nat, e: Entry, k: UserKey)
    requires UpTo(h, s) && e.key.seqno == s + 1
    ensures UpTo(h + {e}, s + 1)
    ensures Read(h + {e}, k, s + 1) == if e.key.ukey == k then ValueOf(e) else Read(h, k, s)
  {
    var h' := h + {e};
    if e.key.ukey == k {
      ReadNewest(h', k, s + 1, e);
    } else if NothingVisible(h, k, s) {
      assert NothingVisible(h', k, s + 1);
    } else {
      var n := NewestExists(h, k, s);
      ReadNewest(h, k, s, n);
      ReadNewest(h', k, s + 1, n);
    }
  }

  /** A batch updates the map one update after the other. */
  lemma {:induction false} ReadBatch(h: set<Entry>, s: nat, m: map<UserKey, Bytes>, batch: seq<Update>, k: UserKey)
    requires UpTo(h, s) && Read(h, k, s) == At(m, k)
    ensures UpTo(h + Run(BatchEntries(batch, s + 1)), s + |batch|)
    ensures Read(h + Run(BatchEntries(batch, s + 1)), k, s + |batch|) == At(Applied(m, batch), k)
  {
    hide UpTo, Read, BatchEntries, Run;
    if batch == [] {
      NoEntries(h, s + 1);
    } else {
      var n := |batch| - 1;
      var e := Entry(IKey(batch[n].ukey, s + 1 + n, batch[n].typ), batch[n].value);
      ReadBatch(h, s, m, batch[..n], k);
      OneEntryMore(h, s + 1, batch, e);
      ReadUpdated(h + Run(BatchEntries(batch[..n], s + 1)), s + n, e, k);
    }
  }

  lemma NoEntries(h: set<Entry>, first: nat)
    ensures h + Run(BatchEntries([], first)) == h
  {
    assert Run(BatchEntries([], first)) == {};
  }

  lemma OneEntryMore(h: set<Entry>, first: nat, batch: seq<Update>, e: Entry)
    requires batch != [] && var u := batch[|batch| - 1]; e == Entry(IKey(u.ukey, first + |batch| - 1, u.typ), u.value)
    ensures h + Run(BatchEntries(batch, first)) == h + Run(BatchEntries(batch[..|batch| - 1], first)) + {e}
  {
    assert BatchEntries(batch, first) == BatchEntries(batch[..|batch| - 1], first) + [e];
  }

  lemma NothingYet(k: UserKey)
    ensures UpTo({}, 0) && Read({}, k, 0) == None
  {
    assert NothingVisible({}, k, 0);
  }

  /** After every step of every run, a read of the history at the last sequence number is a lookup in
      the map that the writes so far have made. */
  lemma {:induction false} HistoryIsMap(ds: seq<Db>, steps: seq<Step>, n: nat, k: UserKey)
    requires IsRun(ds, steps) && n <= |steps|
    ensures UpTo(History(ds, steps, n), ds[n].lastSequence)
    ensures Read(History(ds, steps, n), k, ds[n].lastSequence) == At(Contents(steps[..n]), k)
  {
    hide FlushStep, CompactStep, MoveStep, UpTo, Applied, BatchEntries, InsertAll, Read;
    if n == 0 {
      NothingYet(k);
    } else {
      HistoryIsMap(ds, steps, n - 1, k);
      assert steps[..n][..n - 1] == steps[..n - 1];
      var d, step, d' := ds[n - 1], steps[n - 1], ds[n - 1 + 1];
      assert TakeStep(d, step, d');
      if step.Write? {
        ReadBatch(History(ds, steps, n - 1), d.lastSequence, Contents(steps[..n - 1]), step.batch, k);
      } else {
        QuietKeepsNumber(d, step, d');
      }
    }
  }

  lemma QuietKeepsNumber(d: Db, step: Step, d': Db)
    requires TakeStep(d, step, d') && !step.Write?
    ensures d'.lastSequence == d.lastSequence
  {
  }

  /** Later writes have later sequence numbers. */
  lemma ReadEarlier(h: set<Entry>, added: set<Entry>, k: UserKey, s: nat)
    requires DistinctSeqnos(h + added) && forall e :: e in added ==> e.key.seqno > s
    ensures Read(h + added, k, s) == Read(h, k, s)
  {
    if !NothingVisible(h, k, s) {
      var n := NewestExists(h, k, s);
      SameNewestSameRead(h + added, h, k, s, n);
    }
  }

  /** A read at the sequence number that was the last one in state i gives, in every later state, what
      it gave then: a lookup in the map of that time. */
  lemma {:induction false} HistoryKeepsReads(ds: seq<Db>, steps: seq<Step>, i: nat, n: nat, k: UserKey)
    requires IsRun(ds, steps) && i <= n <= |steps|
    ensures Read(History(ds, steps, n), k, ds[i].lastSequence) == At(Contents(steps[..i]), k)
    ensures ds[i].lastSequence <= ds[n].lastSequence
    decreases n - i
  {
    hide FlushStep, CompactStep, MoveStep, UpTo, Applied, Contents, BatchEntries, InsertAll, Read, DistinctSeqnos;
    if n == i {
      HistoryIsMap(ds, steps, n, k);
    } else {
      HistoryKeepsReads(ds, steps, i, n - 1, k);
      var d, step, d', h := ds[n - 1], steps[n - 1], ds[n - 1 + 1], History(ds, steps, n - 1);
      assert TakeStep(d, step, d');
      if step.Write? {
        WriteIsLater(ds, steps, n - 1);
        ReadEarlier(h, Run(BatchEntries(step.batch, d.lastSequence + 1)), k, ds[i].lastSequence);
      } else {
        QuietKeepsNumber(d, step, d');
      }
    }
  }

  lemma WriteIsLater(ds: seq<Db>, steps: seq<Step>, n: nat)
    requires IsRun(ds, steps) && n < |steps| && steps[n].Write?
    ensures var added := Run(BatchEntries(steps[n].batch, ds[n].lastSequence + 1));
            DistinctSeqnos(History(ds, steps, n) + added) && forall e :: e in added ==> e.key.seqno > ds[n].lastSequence
  {
    hide BatchEntries, TakeStep, History;
    RunKeepsInvariant(ds, steps, n);
    var h, added := History(ds, steps, n), Run(BatchEntries(steps[n].batch, ds[n].lastSequence + 1));
    BatchIsNewest(steps[n].batch, ds[n].lastSequence + 1, h);
    assert added + h == h + added;
  }

  /** What is stored in a later state reads, at a snapshot that is still live or at the last sequence
      number, like the map of the time: if no compaction has revived anything. */
  lemma SnapshotReadsThen(ds: seq<Db>, steps: seq<Step>, i: nat, n: nat, k: UserKey)
    requires IsRun(ds, steps) && i <= n <= |steps|
    requires forall j :: 0 <= j < n ==> RevivesNothing(ds[j], steps[j])
    requires ds[i].lastSequence in ds[n].snapshots || i == n
    ensures Read(Stored(ds[n]), k, ds[i].lastSequence) == At(Contents(steps[..i]), k)
  {
    hide TakeStep, RevivesNothing, Contents, Stored, Read;
    RunKeepsReads(ds, steps, n);
    RunKeepsInvariant(ds, steps, n);
    HistoryKeepsReads(ds, steps, i, n, k);
    assert ReadsAgree(ds[n], History(ds, steps, n));
  }

  /** A snapshot has the number that was the last one when it was taken, and keeps it until it is released. */
  lemma TakenSnapshot(ds: seq<Db>, steps: seq<Step>, i: nat)
    requires IsRun(ds, steps) && i < |steps| && steps[i].TakeSnapshot?
    ensures ds[i + 1].snapshots == ds[i].snapshots + [ds[i].lastSequence]
  {
    assert TakeStep(ds[i], steps[i], ds[i + 1]);
  }
}
