/** Where the fields of a serialized transaction are, byte by byte. */
module TransactionBytes {
  import opened Keys
  import opened Coding
  import opened CompactSizes
  import opened Transactions

  lemma NumberIs(b: seq<Byte>, p: nat)
    ensures p + 4 <= |b| ==> Number(b, p, U32_BYTES) == Some((U32At(b, p), p + 4))
    ensures p + 8 <= |b| ==> Number(b, p, U64_BYTES) == Some((U64At(b, p), p + 8))
  {
    hide FromFixed;
    FromFixedAt(b, p);
  }

  /** A length of n in c bytes at p, and n bytes behind it. */
  ghost predicate BytesAt(b: seq<Byte>, p: nat, n: nat, c: nat) {
    p <= |b| && Decode(b[p..]) == Some((n, c)) && n < 0x1_0000 && p + c + n <= |b|
  }

  /** Counts and lengths go into 16-bit fields. */
  lemma CountWraps(b: seq<Byte>, p: nat, v: nat, n: nat)
    requires p <= |b| && Decode(b[p..]) == Some((v, n))
    ensures Count(b, p) == Some((v % 0x1_0000, p + n))
  {
  }

  /** One length byte below 253. */
  lemma ShortLength(b: seq<Byte>, p: nat)
    requires p < |b| && b[p] < 253 && p + 1 + b[p] <= |b|
    ensures BytesAt(b, p, b[p], 1)
  {
    hide Decode;
    DecodeBytes(b[p..]);
  }

  /** 0xfd and two length bytes. */
  lemma LongLength(b: seq<Byte>, p: nat)
    requires p + 3 <= |b| && b[p] == 0xfd && p + 3 + U16At(b, p + 1) <= |b|
    ensures BytesAt(b, p, U16At(b, p + 1), 3)
  {
    hide Decode;
    DecodeBytes(b[p..]);
  }

  lemma PrefixedBytes(b: seq<Byte>, p: nat, n: nat, c: nat)
    requires BytesAt(b, p, n, c)
    ensures Prefixed(b, p) == Some((b[p + c..p + c + n], p + c + n))
  {
    hide Decode;
  }

  /** An input: 32 bytes of transaction hash, 4 of output index, the script behind its length, 4 of
      sequence number. */
  lemma InputBytes(b: seq<Byte>, p: nat, n: nat, c: nat)
    requires BytesAt(b, p + 36, n, c) && p + 36 + c + n + 4 <= |b|
    ensures ReadInput(b, p) ==
              Some((Input(b[p..p + 32], U32At(b, p + 32), b[p + 36 + c..p + 36 + c + n], U32At(b, p + 36 + c + n)), p + 40 + c + n))
  {
    hide Number, Prefixed, Decode, U32At;
    NumberIs(b, p + 32);
    PrefixedBytes(b, p + 36, n, c);
    NumberIs(b, p + 36 + c + n);
  }

  /** An output: 8 bytes of amount and the script behind its length. */
  lemma OutputBytes(b: seq<Byte>, p: nat, n: nat, c: nat)
    requires BytesAt(b, p + 8, n, c)
    ensures ReadOutput(b, p) == Some((Output(U64At(b, p), b[p + 8 + c..p + 8 + c + n]), p + 8 + c + n))
  {
    hide Number, Prefixed, Decode, U64At;
    NumberIs(b, p);
    PrefixedBytes(b, p + 8, n, c);
  }

  /** With one-byte lengths, in numbers. */
  lemma ShortInput(b: seq<Byte>, p: nat, h: seq<Byte>, vout: seq<Byte>, script: seq<Byte>, sequence: seq<Byte>)
    requires |h| == 32 && |vout| == 4 && |script| < 253 && |sequence| == 4
    requires p + 41 + |script| <= |b| && b[p..p + 41 + |script|] == h + vout + [|script|] + script + sequence
    ensures ReadInput(b, p) ==
              Some((Input(h, U32At(vout, 0), script, U32At(sequence, 0)), p + 41 + |script|))
  {
    hide ReadInput;
    var n, x := |script|, b[p..p + 41 + |script|];
    assert x[36] == n && x[..32] == h && x[37..37 + n] == script;
    assert forall i :: 0 <= i < 4 ==> x[32 + i] == vout[i];
    assert forall i :: 0 <= i < 4 ==> x[37 + n + i] == sequence[i];
    assert forall i :: 0 <= i < 41 + n ==> b[p + i] == x[i];
    assert b[p..p + 32] == x[..32] && b[p + 37..p + 37 + n] == x[37..37 + n];
    ShortLength(b, p + 36);
    InputBytes(b, p, n, 1);
  }

  lemma ShortOutput(b: seq<Byte>, p: nat, amount: seq<Byte>, script: seq<Byte>)
    requires |amount| == 8 && |script| < 253
    requires p + 9 + |script| <= |b| && b[p..p + 9 + |script|] == amount + [|script|] + script
    ensures ReadOutput(b, p) ==
              Some((Output(U64At(amount, 0), script), p + 9 + |script|))
  {
    hide ReadOutput;
    var n, x := |script|, b[p..p + 9 + |script|];
    assert x[8] == n && x[9..9 + n] == script;
    assert forall i :: 0 <= i < 8 ==> x[i] == amount[i];
    assert forall i :: 0 <= i < 9 + n ==> b[p + i] == x[i];
    assert b[p + 9..p + 9 + n] == x[9..9 + n];
    ShortLength(b, p + 8);
    OutputBytes(b, p, n, 1);
  }

  /** A list is read in order, each value from where the one before it ended. */
  lemma {:induction false} ManyInOrder<T>(read: (seq<Byte>, nat) -> Read<T>, b: seq<Byte>, p: nat, n: nat)
    ensures Many(read, b, p, 0) == Some(([], p))
    ensures read(b, p).None? ==> Many(read, b, p, n + 1) == None
    ensures read(b, p).Some? ==>
              Many(read, b, p, n + 1) == match Many(read, b, read(b, p).value.1, n)
                                         case None => None
                                         case Some((ts, q)) => Some(([read(b, p).value.0] + ts, q))
  {
    if n == 0 {
      assert Many(read, b, p, 0) == Some(([], p));
      if read(b, p).Some? {
        var (t, q) := read(b, p).value;
        assert Many(read, b, q, 0) == Some(([], q));
        assert [] + [t] == [t] + [];
      }
    } else {
      ManyInOrder(read, b, p, n - 1);
      if read(b, p).Some? && Many(read, b, p, n).Some? {
        var (t, q) := read(b, p).value;
        var (ts, q') := Many(read, b, q, n - 1).value;
        assert Many(read, b, p, n) == Some(([t] + ts, q'));
        if read(b, q').Some? {
          assert ([t] + ts) + [read(b, q').value.0] == [t] + (ts + [read(b, q').value.0]);
        }
      }
    }
  }

  lemma OneIs<T>(read: (seq<Byte>, nat) -> Read<T>, b: seq<Byte>, p: nat, t: T, q: nat)
    requires read(b, p) == Some((t, q))
    ensures Many(read, b, p, 1) == Some(([t], q)) && Many(read, b, p, 0) == Some(([], p))
  {
    ManyInOrder(read, b, p, 0);
    ManyInOrder(read, b, q, 0);
    assert [t] + [] == [t];
  }

  lemma CountByte(b: seq<Byte>, p: nat)
    requires p < |b| && b[p] < 253
    ensures Count(b, p) == Some((b[p] as nat, p + 1))
  {
    hide Decode;
    DecodeBytes(b[p..]);
  }

  /** A transaction with one input and one output, from the counts on. */
  lemma OneInOneOut(b: seq<Byte>, p: nat, n: nat, m: nat)
    requires p + 56 + n + m <= |b| && b[p] == 1 && b[p + 37] == n < 253
    requires b[p + 42 + n] == 1 && b[p + 51 + n] == m < 253
    ensures Count(b, p) == Some((1, p + 1))
    ensures Many(ReadInput, b, p + 1, 1) ==
              Some(([Input(b[p + 1..p + 33], U32At(b, p + 33), b[p + 38..p + 38 + n], U32At(b, p + 38 + n))], p + 42 + n))
    ensures Count(b, p + 42 + n) == Some((1, p + 43 + n))
    ensures Many(ReadOutput, b, p + 43 + n, 1) ==
              Some(([Output(U64At(b, p + 43 + n), b[p + 52 + n..p + 52 + n + m])], p + 52 + n + m))
  {
    hide Many, ReadInput, ReadOutput, Count, U32At, U64At;
    CountByte(b, p);
    CountByte(b, p + 42 + n);
    ShortLength(b, p + 37);
    InputBytes(b, p + 1, n, 1);
    OneIs(ReadInput, b, p + 1, ReadInput(b, p + 1).value.0, p + 42 + n);
    ShortLength(b, p + 51 + n);
    OutputBytes(b, p + 43 + n, m, 1);
    OneIs(ReadOutput, b, p + 43 + n, ReadOutput(b, p + 43 + n).value.0, p + 52 + n + m);
  }

  /** A transaction without witnesses: version, counts with inputs and outputs, lock time. */
  lemma PlainTransaction(b: seq<Byte>, p: nat, n: nat, m: nat)
    requires p + 60 + n + m <= |b| && b[p + 4] == 1 && b[p + 41] == n < 253
    requires b[p + 46 + n] == 1 && b[p + 55 + n] == m < 253
    ensures ReadTransaction(b, p) ==
              Some((Transaction(U32At(b, p), 0,
                                [Input(b[p + 5..p + 37], U32At(b, p + 37), b[p + 42..p + 42 + n], U32At(b, p + 42 + n))],
                                [Output(U64At(b, p + 47 + n), b[p + 56 + n..p + 56 + n + m])], [],
                                U32At(b, p + 56 + n + m)), p + 60 + n + m))
  {
    hide Many, ReadInput, ReadOutput, Count, Number, U32At, U64At, FromFixed;
    OneInOneOut(b, p + 4, n, m);
    FromFixedAt(b, p);
    NumberIs(b, p + 56 + n + m);
    NoneIs(ReadWitness, b, p + 56 + n + m);
  }

  lemma NoneIs<T>(read: (seq<Byte>, nat) -> Read<T>, b: seq<Byte>, p: nat)
    ensures Many(read, b, p, 0) == Some(([], p))
  {
  }

  /** With witnesses: marker 0 and a flag behind the version, and the stacks before the lock time. */
  lemma WitnessTransaction(b: seq<Byte>, p: nat, n: nat, m: nat, k: nat)
    requires p + 64 + n + m + k <= |b| && b[p + 4] == 0 && b[p + 5] >= 1 && b[p + 6] == 1 && b[p + 43] == n < 253
    requires b[p + 48 + n] == 1 && b[p + 57 + n] == m < 253 && b[p + 58 + n + m] == 1 && b[p + 59 + n + m] == k < 253
    ensures ReadTransaction(b, p) ==
              Some((Transaction(U32At(b, p), b[p + 5],
                                [Input(b[p + 7..p + 39], U32At(b, p + 39), b[p + 44..p + 44 + n], U32At(b, p + 44 + n))],
                                [Output(U64At(b, p + 49 + n), b[p + 58 + n..p + 58 + n + m])],
                                [[b[p + 60 + n + m..p + 60 + n + m + k]]],
                                U32At(b, p + 60 + n + m + k)), p + 64 + n + m + k))
  {
    hide Many, ReadInput, ReadOutput, ReadWitness, Count, Number, U32At, U64At, FromFixed;
    OneInOneOut(b, p + 6, n, m);
    FromFixedAt(b, p);
    StackBytes(b, p + 58 + n + m, k);
    OneIs(ReadWitness, b, p + 58 + n + m, ReadWitness(b, p + 58 + n + m).value.0, p + 60 + n + m + k);
    NumberIs(b, p + 60 + n + m + k);
  }

  /** A stack of one item. */
  lemma StackBytes(b: seq<Byte>, p: nat, k: nat)
    requires p + 2 + k <= |b| && b[p] == 1 && b[p + 1] == k < 253
    ensures ReadWitness(b, p) == Some(([b[p + 2..p + 2 + k]], p + 2 + k))
  {
    hide Many, Count, Prefixed, Decode;
    CountByte(b, p);
    ShortLength(b, p + 1);
    PrefixedBytes(b, p + 1, k, 1);
    OneIs(Prefixed, b, p + 1, b[p + 2..p + 2 + k], p + 2 + k);
  }
}
