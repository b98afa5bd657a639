/** DBImpl::RecoverLogFile (db/db_impl.cc): the log of the write queue, replayed into a memtable. */
module LogRecovery {
  import opened Keys
  import opened Coding
  import opened LogFormat
  import opened LogRoundTrip
  import opened WriteBatches
  import opened GroupCommit
  import LogReader

  /** What replaying records leaves: the entries inserted and the highest sequence number seen. */
  datatype Recovered = Recovered(entries: seq<MemEntry>, maxSequence: nat)

  /** Sequence + Count - 1, in 64 bits. */
  function LastOf(record: Record): nat
    requires |record| >= HEADER
  {
    (FromFixed(record[..SEQUENCE_BYTES]) + FromFixed32(record[SEQUENCE_BYTES..HEADER]) - 1) % 0x1_0000_0000_0000_0000
  }

  function ReplayRecord(r: Recovered, record: Record): Recovered {
    if |record| < HEADER then r
    else
      var last := LastOf(record);
      Recovered(r.entries + Inserted(record).0, if last > r.maxSequence then last else r.maxSequence)
  }

  function Replay(records: seq<Record>): Recovered {
    if records == [] then Recovered([], 0) else ReplayRecord(Replay(records[..|records| - 1]), records[|records| - 1])
  }

  /** The replay loop, which skips records that are too short and, without paranoid checks, goes on after
      a malformed batch. */
  method RecoverLogFile(file: seq<Byte>) returns (r: Recovered)
    ensures r == Replay(ReadAll(file, 0).0)
  {
    hide ReplayRecord, Parse, ReadFrom, Inserted, ReadAll, Replay, RestOfBlock, BlockOffset;
    var reader := new LogReader.Reader(file);
    r := Recovered([], 0);
    ReplayNothing();
    ghost var done := [];
    var more := true;
    while more
      invariant reader.Valid() && fresh(reader) && reader.file == file
      invariant ReadAll(file, 0).0 == done + if more then ReadAll(file, reader.Pos()).0 else []
      invariant r == Replay(done)
      decreases more, |file| - reader.Pos()
    {
      var record;
      ReadAllNext(file, reader.Pos());
      more, record := reader.ReadRecord();
      if more {
        ReplaySnoc(done, record);
        done := done + [record];
        r := Recover(r, record);
      }
    }
    assert done + [] == done;
  }

  lemma ReplayNothing()
    ensures Replay([]) == Recovered([], 0)
  {
  }

  lemma ReplaySnoc(records: seq<Record>, record: Record)
    ensures Replay(records + [record]) == ReplayRecord(Replay(records), record)
  {
    hide ReplayRecord;
    assert (records + [record])[..|records|] == records;
  }

  lemma ReadAllNext(f: seq<Byte>, pos: nat)
    requires pos <= |f|
    ensures var r := ReadFrom(f, pos, false, []);
            ReadAll(f, pos).0 == if r.found then [r.record] + ReadAll(f, r.pos).0 else []
  {
    hide ReadFrom;
  }

  method Recover(r: Recovered, record: Record) returns (r': Recovered)
    ensures r' == ReplayRecord(r, record)
  {
    hide Inserted, FromFixed, FromFixed32;
    r' := r;
    if |record| < HEADER {
      return;
    }
    var entries, _ := Iterate(record);
    var last := LastOf(record);
    r' := Recovered(r.entries + entries, if last > r.maxSequence then last else r.maxSequence);
  }

  // ---------------------------------------------------------------- replaying the log of a run

  lemma ReplayGroup(r: Recovered, base: nat, us: seq<Update>)
    requires Fits(us) && 1 <= base && base + |us| <= MAX_SEQUENCE + 1
    ensures ReplayRecord(r, BatchBytes(base, us)) ==
              Recovered(r.entries + EntriesOf(us, base),
                        if base + |us| - 1 > r.maxSequence then base + |us| - 1 else r.maxSequence)
  {
    hide Fixed, FromFixed, FromFixed32, Inserted, Body;
    assert Power256(SEQUENCE_BYTES) == 0x1_0000_0000_0000_0000;
    BatchRoundTrip(base, us);
    var rep := BatchBytes(base, us);
    assert rep[..SEQUENCE_BYTES] == Fixed(base, SEQUENCE_BYTES);
    assert rep[SEQUENCE_BYTES..HEADER] == Fixed(|us|, FIXED32_BYTES);
    FixedRoundTrip(base, SEQUENCE_BYTES);
    FixedAt(rep, SEQUENCE_BYTES, |us|);
  }

  /** The entries of the groups that are in the log, whether or not they were inserted. */
  function LoggedEntries(gs: seq<Group>): seq<MemEntry> {
    if gs == [] then []
    else
      var g := gs[|gs| - 1];
      LoggedEntries(gs[..|gs| - 1]) + if g.logged then EntriesOf(g.updates, g.base) else []
  }

  /** No update is in the log without having been inserted; a failed sync leaves some there. */
  ghost predicate NothingExtra(gs: seq<Group>) {
    forall i :: 0 <= i < |gs| ==> (gs[i].logged && gs[i].status.Failed? ==> gs[i].updates == [])
  }

  /** The log has everything that was inserted, and what else it has are updates of failed groups. */
  lemma {:induction false} LogCoversMemory(gs: seq<Group>)
    requires GroupsOk(gs)
    ensures |Applied(gs)| <= |LoggedEntries(gs)|
    ensures LoggedEntries(gs) == Applied(gs) <==> NothingExtra(gs)
    ensures |LoggedEntries(gs)| == |Applied(gs)| ==> NothingExtra(gs)
  {
    if gs != [] {
      hide Combined, Fits, EntriesOf;
      var init, g := gs[..|gs| - 1], gs[|gs| - 1];
      GroupsPrefix(gs, |gs| - 1);
      LogCoversMemory(init);
      assert GroupOk(gs, |gs| - 1);
      assert g.status.Ok? && !g.logged ==> g.updates == [];
      NothingExtraStep(gs);
      assert |EntriesOf(g.updates, g.base)| == |g.updates|;
    }
  }

  lemma NothingExtraStep(gs: seq<Group>)
    requires gs != []
    ensures var g := gs[|gs| - 1];
            NothingExtra(gs) <==> NothingExtra(gs[..|gs| - 1]) && (g.logged && g.status.Failed? ==> g.updates == [])
  {
    var init := gs[..|gs| - 1];
    assert forall i :: 0 <= i < |init| ==> init[i] == gs[i];
    if NothingExtra(init) && (gs[|gs| - 1].logged && gs[|gs| - 1].status.Failed? ==> gs[|gs| - 1].updates == []) {
      forall i | 0 <= i < |gs| ensures gs[i].logged && gs[i].status.Failed? ==> gs[i].updates == [] {
        if i < |init| { assert init[i] == gs[i]; }
      }
    }
  }

  lemma {:induction false} NextAtLeastOne(gs: seq<Group>)
    ensures Next(gs) >= 1
  {
    if gs != [] { NextAtLeastOne(gs[..|gs| - 1]); }
  }

  /** Replaying the records of a queue's groups gives the entries of the logged ones, and no sequence
      number that was not used. */
  lemma {:induction false} ReplayGroups(gs: seq<Group>)
    requires GroupsOk(gs)
    ensures Replay(Logged(gs)).entries == LoggedEntries(gs)
    ensures Replay(Logged(gs)).maxSequence <= Next(gs) - 1
    ensures AllOk(gs) ==> Replay(Logged(gs)).maxSequence == Next(gs) - 1
  {
    hide ReplayRecord, BatchBytes, Combined, Fits;
    if gs != [] {
      var init, g := gs[..|gs| - 1], gs[|gs| - 1];
      GroupsPrefix(gs, |gs| - 1);
      ReplayGroups(init);
      assert GroupOk(gs, |gs| - 1);
      NextAtLeastOne(init);
      if g.logged {
        ReplayGroup(Replay(Logged(init)), g.base, g.updates);
        assert Logged(gs)[..|Logged(gs)| - 1] == Logged(init);
      } else {
        assert Logged(gs) == Logged(init) + [] == Logged(init);
        assert LoggedEntries(gs) == LoggedEntries(init) + [] == LoggedEntries(init);
      }
    }
  }

  lemma {:induction false} LoggedPrefix(gs: seq<Group>, k: nat)
    requires k <= |Logged(gs)|
    ensures exists j :: 0 <= j <= |gs| && Logged(gs[..j]) == Logged(gs)[..k]
  {
    hide BatchBytes;
    if k == |Logged(gs)| {
      assert gs[..|gs|] == gs && Logged(gs)[..k] == Logged(gs);
    } else {
      var init := gs[..|gs| - 1];
      LoggedPrefix(init, k);
      var j :| 0 <= j <= |init| && Logged(init[..j]) == Logged(init)[..k];
      assert init[..j] == gs[..j] && Logged(init)[..k] == Logged(gs)[..k];
    }
  }

  /** Crash recovery: whatever part of the log file survives, replaying it inserts exactly the entries of
      the logged groups among some first groups of the run, in order; a group is recovered whole or not
      at all. */
  lemma CrashKeepsWholeGroups(ss: seq<State>, steps: seq<Step>, n: nat, cut: nat)
    requires IsRun(ss, steps) && n <= |steps| && cut <= |LogBytes(ss[n].log)|
    ensures exists j :: 0 <= j <= |ss[n].groups| &&
              Replay(ReadAll(LogBytes(ss[n].log)[..cut], 0).0).entries == LoggedEntries(ss[n].groups[..j])
  {
    hide TakeStep, Logged, LoggedEntries, Applied, ReadAll, LogBytes, Replay, GroupsOk, Queued;
    RunKeepsInvariant(ss, steps, n);
    var gs := ss[n].groups;
    TruncatedLogReadsPrefix(ss[n].log, cut);
    LoggedPrefix(gs, CompleteRecords(ss[n].log, cut));
    var j :| 0 <= j <= |gs| && Logged(gs[..j]) == Logged(gs)[..CompleteRecords(ss[n].log, cut)];
    GroupsPrefix(gs, j);
    ReplayGroups(gs[..j]);
  }

  /** Replaying the whole log gives back what is in memory if and only if no failed group has left updates
      in the log; it never gives back less.  The sequence numbers it finds have been used, up to the last
      one if all groups succeeded. */
  lemma ReplayRestores(ss: seq<State>, steps: seq<Step>, n: nat)
    requires IsRun(ss, steps) && n <= |steps|
    ensures var r := Replay(ReadAll(LogBytes(ss[n].log), 0).0);
            && (r.entries == ss[n].mem <==> NothingExtra(ss[n].groups))
            && |ss[n].mem| <= |r.entries|
            && r.maxSequence <= ss[n].lastSequence
            && (AllOk(ss[n].groups) ==> r.maxSequence == ss[n].lastSequence)
  {
    hide TakeStep, Logged, LoggedEntries, Applied, ReadAll, LogBytes, Replay, GroupsOk, Queued, NothingExtra;
    RunKeepsInvariant(ss, steps, n);
    LogReadsBack(ss[n].log);
    ReplayGroups(ss[n].groups);
    LogCoversMemory(ss[n].groups);
  }
}
