/** Reading a log, whole or cut off anywhere, gives back records that were written. */
module LogRoundTrip {
  import opened Coding
  import opened Sequences
  import opened LogFormat

  /** How many of the records are complete within the first n bytes. */
  ghost function CompleteRecords(rs: seq<Record>, n: nat): (k: nat)
    ensures k <= |rs|
  {
    if rs == [] then 0
    else if |LogBytes(rs)| <= n then |rs|
    else CompleteRecords(rs[..|rs| - 1], n)
  }

  lemma LogStep(rs: seq<Record>, k: nat)
    requires k < |rs|
    ensures LogBytes(rs[..k + 1]) ==
              LogBytes(rs[..k]) + Emitted(BlockOffset(|LogBytes(rs[..k])|), rs[k], true)
  {
    assert rs[..k + 1][..k] == rs[..k];
  }

  /** The log of the first k records is the first part of the log. */
  lemma {:induction false} LogPrefix(rs: seq<Record>, k: nat)
    requires k <= |rs|
    ensures LogBytes(rs[..k]) <= LogBytes(rs)
    decreases |rs|
  {
    if k == |rs| {
      assert rs[..k] == rs;
    } else {
      LogPrefix(rs[..|rs| - 1], k);
      assert rs[..|rs| - 1][..k] == rs[..k];
    }
  }

  /** Record k stands in the log where the log of the records before it ends. */
  lemma RecordInLog(rs: seq<Record>, k: nat)
    requires k < |rs|
    ensures var pos := |LogBytes(rs[..k])|; At(LogBytes(rs), pos, Emitted(BlockOffset(pos), rs[k], true))
    ensures |LogBytes(rs[..k + 1])| == |LogBytes(rs[..k])| + |Emitted(BlockOffset(|LogBytes(rs[..k])|), rs[k], true)|
  {
    hide Emitted;
    LogStep(rs, k);
    LogPrefix(rs, k + 1);
    var pos := |LogBytes(rs[..k])|;
    var e := Emitted(BlockOffset(pos), rs[k], true);
    assert LogBytes(rs)[..pos + |e|] == LogBytes(rs[..k]) + e;
  }

  /** k is the number of complete records exactly when record k is the first incomplete one. */
  lemma {:induction false} CompleteRecordsIs(rs: seq<Record>, n: nat, k: nat)
    requires k <= |rs| && |LogBytes(rs[..k])| <= n
    requires k < |rs| ==> n < |LogBytes(rs[..k + 1])|
    ensures CompleteRecords(rs, n) == k
    decreases |rs|
  {
    hide LogBytes;
    if k == |rs| {
      assert rs[..k] == rs;
    } else {
      LogPrefix(rs, k + 1);
      var shorter := rs[..|rs| - 1];
      assert shorter[..k] == rs[..k];
      if k < |shorter| { assert shorter[..k + 1] == rs[..k + 1]; }
      CompleteRecordsIs(shorter, n, k);
    }
  }

  /** From the end of record k - 1 on, a reader of the first n bytes gets the complete records from k on. */
  lemma {:induction false} ReadRest(rs: seq<Record>, n: nat, k: nat)
    requires k <= |rs| && |LogBytes(rs[..k])| <= n <= |LogBytes(rs)|
    ensures k <= CompleteRecords(rs, n)
    ensures ReadAll(LogBytes(rs)[..n], |LogBytes(rs[..k])|) == (rs[k..CompleteRecords(rs, n)], [])
    decreases |rs| - k
  {
    hide LogBytes, ReadFrom, Parse, Emitted;
    var log := LogBytes(rs);
    var f := log[..n];
    var pos := |LogBytes(rs[..k])|;
    if k == |rs| {
      assert rs[..k] == rs;
      CompleteRecordsIs(rs, n, k);
      ParseAtEnd(f);
      ReadEof(f, pos, false, []);
      assert ReadAll(f, pos) == ([], []) && rs[k..k] == [];
    } else {
      RecordInLog(rs, k);
      OffsetOfOffset(pos);
      ReadEmitted(log, f, pos, BlockOffset(pos), rs[k], true, []);
      var next := |LogBytes(rs[..k + 1])|;
      if next <= n {
        ReadRest(rs, n, k + 1);
        assert [] + rs[k] == rs[k];
        ReadAllStep(f, pos, rs[k], next);
        assert rs[k..CompleteRecords(rs, n)] == [rs[k]] + rs[k + 1..CompleteRecords(rs, n)];
      } else {
        CompleteRecordsIs(rs, n, k);
        assert ReadAll(f, pos) == ([], []) && rs[k..k] == [];
      }
    }
  }

  lemma ReadAllStep(f: seq<Byte>, pos: nat, record: Record, next: nat)
    requires pos < next <= |f| && ReadFrom(f, pos, false, []) == ReadResult(true, record, next, [])
    ensures ReadAll(f, pos) == ([record] + ReadAll(f, next).0, ReadAll(f, next).1)
  {
    hide ReadFrom;
    var rest := ReadAll(f, next);
    assert [] + rest.1 == rest.1;
  }

  lemma OffsetOfOffset(pos: nat)
    ensures BlockOffset(BlockOffset(pos)) == BlockOffset(pos)
  {
  }

  /** Crash safety: whatever part of the log reached the disk, a reader returns exactly the records
      that are completely there, in order, and reports no corruption. */
  lemma TruncatedLogReadsPrefix(rs: seq<Record>, n: nat)
    requires n <= |LogBytes(rs)|
    ensures ReadAll(LogBytes(rs)[..n], 0) == (rs[..CompleteRecords(rs, n)], [])
  {
    hide ReadAll;
    assert rs[..0] == [] && LogBytes([]) == [];
    ReadRest(rs, n, 0);
  }

  /** Round trip: the whole log reads back as the records written. */
  lemma LogReadsBack(rs: seq<Record>)
    ensures ReadAll(LogBytes(rs), 0) == (rs, [])
  {
    hide ReadAll, LogBytes;
    var log := LogBytes(rs);
    assert log[..|log|] == log && rs[..|rs|] == rs;
    CompleteRecordsIs(rs, |log|, |rs|);
    TruncatedLogReadsPrefix(rs, |log|);
  }
}
