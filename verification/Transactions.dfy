/** ReadTxn (src/blkdat.c) and the transaction format it reads: the serialization of BIP 144, section
    "Serialization". */
module Transactions {
  import opened Keys
  import opened Coding
  import opened Sequences
  import opened CompactSizes

  const HASH_SIZE: nat := 32
  const U32_BYTES: nat := 4
  const U64_BYTES: nat := 8

  datatype Input = Input(txid: seq<Byte>, vout: nat, scriptSig: seq<Byte>, sequence: nat)

  datatype Output = Output(amount: nat, scriptPubKey: seq<Byte>)

  type Witness = seq<seq<Byte>>

  /** The flag is 0 for a transaction without witnesses. */
  datatype Transaction = Transaction(version: nat, flag: Byte, inputs: seq<Input>, outputs: seq<Output>,
                                     witnesses: seq<Witness>, locktime: nat)

  // ---------------------------------------------------------------- the format

  function EncodeAll<T>(encode: T -> seq<Byte>, ts: seq<T>): seq<Byte> {
    if ts == [] then [] else EncodeAll(encode, ts[..|ts| - 1]) + encode(ts[|ts| - 1])
  }

  function EncodeBytes(s: seq<Byte>): seq<Byte> {
    Encode(|s|) + s
  }

  function EncodeInput(i: Input): seq<Byte> {
    i.txid + (Fixed(i.vout, U32_BYTES) + (EncodeBytes(i.scriptSig) + Fixed(i.sequence, U32_BYTES)))
  }

  function EncodeOutput(o: Output): seq<Byte> {
    Fixed(o.amount, U64_BYTES) + EncodeBytes(o.scriptPubKey)
  }

  function EncodeWitness(w: Witness): seq<Byte> {
    Encode(|w|) + EncodeAll(EncodeBytes, w)
  }

  function EncodeRest(t: Transaction): seq<Byte> {
    Encode(|t.inputs|) + (EncodeAll(EncodeInput, t.inputs) +
      (Encode(|t.outputs|) + (EncodeAll(EncodeOutput, t.outputs) +
        (EncodeAll(EncodeWitness, t.witnesses) + Fixed(t.locktime, U32_BYTES)))))
  }

  function EncodeTransaction(t: Transaction): seq<Byte> {
    Fixed(t.version, U32_BYTES) + ((if t.flag != 0 then [0, t.flag] else []) + EncodeRest(t))
  }

  predicate InputFits(i: Input) {
    |i.txid| == HASH_SIZE && i.vout < 0x1_0000_0000 && |i.scriptSig| < 0x1_0000 && i.sequence < 0x1_0000_0000
  }

  predicate OutputFits(o: Output) {
    o.amount < 0x1_0000_0000_0000_0000 && |o.scriptPubKey| < 0x1_0000
  }

  predicate ItemFits(s: seq<Byte>) {
    |s| < 0x1_0000
  }

  predicate WitnessFits(w: Witness) {
    |w| < 0x1_0000 && forall i :: 0 <= i < |w| ==> ItemFits(w[i])
  }

  /** Counts and lengths below 2^16, one witness per input if there are witnesses at all. */
  ghost predicate Fits(t: Transaction) {
    && t.version < 0x1_0000_0000 && t.locktime < 0x1_0000_0000
    && |t.inputs| < 0x1_0000 && (forall i :: 0 <= i < |t.inputs| ==> InputFits(t.inputs[i]))
    && |t.outputs| < 0x1_0000 && (forall i :: 0 <= i < |t.outputs| ==> OutputFits(t.outputs[i]))
    && |t.witnesses| == (if t.flag != 0 then |t.inputs| else 0)
    && (forall i :: 0 <= i < |t.witnesses| ==> WitnessFits(t.witnesses[i]))
  }

  // ---------------------------------------------------------------- the reader

  /** A value and the offset behind it; none if the buffer is too short, which the source does not check. */
  type Read<T> = Option<(T, nat)>

  function Take(b: seq<Byte>, p: nat, n: nat): Read<seq<Byte>> {
    if p + n <= |b| then Some((b[p..p + n], p + n)) else None
  }

  function Number(b: seq<Byte>, p: nat, n: nat): Read<nat> {
    if p + n <= |b| then Some((FromFixed(b[p..p + n]), p + n)) else None
  }

  /** CompactSizeDecode into a 16-bit field. */
  function Count(b: seq<Byte>, p: nat): Read<nat> {
    if p > |b| then None
    else match Decode(b[p..])
      case None => None
      case Some((v, n)) => Some((v % 0x1_0000, p + n))
  }

  function Prefixed(b: seq<Byte>, p: nat): Read<seq<Byte>> {
    match Count(b, p)
    case None => None
    case Some((n, q)) => Take(b, q, n)
  }

  function ReadInput(b: seq<Byte>, p: nat): Read<Input> {
    match Take(b, p, HASH_SIZE)
    case None => None
    case Some((txid, p1)) =>
      match Number(b, p1, U32_BYTES)
      case None => None
      case Some((vout, p2)) =>
        match Prefixed(b, p2)
        case None => None
        case Some((script, p3)) =>
          match Number(b, p3, U32_BYTES)
          case None => None
          case Some((sequence, p4)) => Some((Input(txid, vout, script, sequence), p4))
  }

  function ReadOutput(b: seq<Byte>, p: nat): Read<Output> {
    match Number(b, p, U64_BYTES)
    case None => None
    case Some((amount, p1)) =>
      match Prefixed(b, p1)
      case None => None
      case Some((script, p2)) => Some((Output(amount, script), p2))
  }

  /** n values, one behind the other. */
  function Many<T>(read: (seq<Byte>, nat) -> Read<T>, b: seq<Byte>, p: nat, n: nat): Read<seq<T>> {
    if n == 0 then Some(([], p))
    else match Many(read, b, p, n - 1)
      case None => None
      case Some((ts, q)) =>
        match read(b, q)
        case None => None
        case Some((t, q')) => Some((ts + [t], q'))
  }

  function ReadWitness(b: seq<Byte>, p: nat): Read<Witness> {
    match Count(b, p)
    case None => None
    case Some((n, q)) => Many(Prefixed, b, q, n)
  }

  /** The bytes at the place of marker and flag decide whether there are witnesses. */
  function ReadTransaction(b: seq<Byte>, p: nat): Read<Transaction> {
    if p + 6 > |b| then None
    else
      var segwit := b[p + 4] == 0 && b[p + 5] >= 1;
      var flag := if segwit then b[p + 5] else 0;
      ReadRest(b, if segwit then p + 6 else p + 4, FromFixed(b[p..p + 4]), flag)
  }

  function ReadRest(b: seq<Byte>, p: nat, version: nat, flag: Byte): Read<Transaction> {
    match Count(b, p)
    case None => None
    case Some((inputCount, p1)) =>
      match Many(ReadInput, b, p1, inputCount)
      case None => None
      case Some((inputs, p2)) =>
        match Count(b, p2)
        case None => None
        case Some((outputCount, p3)) =>
          match Many(ReadOutput, b, p3, outputCount)
          case None => None
          case Some((outputs, p4)) =>
            match Many(ReadWitness, b, p4, if flag != 0 then inputCount else 0)
            case None => None
            case Some((witnesses, p5)) =>
              match Number(b, p5, U32_BYTES)
              case None => None
              case Some((locktime, p6)) => Some((Transaction(version, flag, inputs, outputs, witnesses, locktime), p6))
  }

  // ---------------------------------------------------------------- reading what was written

  lemma TakeAt(b: seq<Byte>, p: nat, x: seq<Byte>)
    requires At(b, p, x)
    ensures Take(b, p, |x|) == Some((x, p + |x|))
  {
  }

  lemma NumberAt(b: seq<Byte>, p: nat, v: nat, n: nat)
    requires At(b, p, Fixed(v, n)) && v < Power256(n)
    ensures Number(b, p, n) == Some((v, p + n))
  {
    hide Fixed, FromFixed;
    FixedRoundTrip(v, n);
  }

  lemma CountAt(b: seq<Byte>, p: nat, v: nat)
    requires At(b, p, Encode(v)) && v < 0x1_0000
    ensures Count(b, p) == Some((v, p + |Encode(v)|))
  {
    hide Encode, Decode;
    var rest := b[p + |Encode(v)|..];
    assert b[p..] == Encode(v) + rest;
    RoundTrip(v, rest);
  }

  lemma PrefixedAt(b: seq<Byte>, p: nat, s: seq<Byte>)
    requires At(b, p, EncodeBytes(s)) && ItemFits(s)
    ensures Prefixed(b, p) == Some((s, p + |EncodeBytes(s)|))
  {
    hide Encode, Count;
    SplitAt(b, p, Encode(|s|), s);
    CountAt(b, p, |s|);
  }

  lemma Powers()
    ensures Power256(U32_BYTES) == 0x1_0000_0000 && Power256(U64_BYTES) == 0x1_0000_0000_0000_0000
  {
    assert Power256(4) == 0x1_0000_0000 && Power256(8) == 0x1_0000_0000_0000_0000;
  }

  lemma InputAt(b: seq<Byte>, p: nat, i: Input)
    requires At(b, p, EncodeInput(i)) && InputFits(i)
    ensures ReadInput(b, p) == Some((i, p + |EncodeInput(i)|))
  {
    hide Fixed, EncodeBytes, Take, Number, Prefixed;
    Powers();
    var vout, script, sequence := Fixed(i.vout, U32_BYTES), EncodeBytes(i.scriptSig), Fixed(i.sequence, U32_BYTES);
    SplitAt(b, p, i.txid, vout + (script + sequence));
    SplitAt(b, p + |i.txid|, vout, script + sequence);
    SplitAt(b, p + |i.txid| + |vout|, script, sequence);
    TakeAt(b, p, i.txid);
    NumberAt(b, p + HASH_SIZE, i.vout, U32_BYTES);
    PrefixedAt(b, p + HASH_SIZE + U32_BYTES, i.scriptSig);
    NumberAt(b, p + HASH_SIZE + U32_BYTES + |script|, i.sequence, U32_BYTES);
  }

  lemma OutputAt(b: seq<Byte>, p: nat, o: Output)
    requires At(b, p, EncodeOutput(o)) && OutputFits(o)
    ensures ReadOutput(b, p) == Some((o, p + |EncodeOutput(o)|))
  {
    hide Fixed, EncodeBytes, Number, Prefixed;
    Powers();
    SplitAt(b, p, Fixed(o.amount, U64_BYTES), EncodeBytes(o.scriptPubKey));
    NumberAt(b, p, o.amount, U64_BYTES);
    PrefixedAt(b, p + U64_BYTES, o.scriptPubKey);
  }

  /** Wherever the encoding of t stands in b, reading there gives t. */
  ghost predicate Reads<T>(read: (seq<Byte>, nat) -> Read<T>, encode: T -> seq<Byte>, b: seq<Byte>, t: T) {
    forall q: nat :: At(b, q, encode(t)) ==> read(b, q) == Some((t, q + |encode(t)|))
  }

  lemma {:induction false} ManyAt<T>(read: (seq<Byte>, nat) -> Read<T>, encode: T -> seq<Byte>, b: seq<Byte>, p: nat, ts: seq<T>)
    requires At(b, p, EncodeAll(encode, ts))
    requires forall i :: 0 <= i < |ts| ==> Reads(read, encode, b, ts[i])
    ensures Many(read, b, p, |ts|) == Some((ts, p + |EncodeAll(encode, ts)|))
  {
    hide At, Many, Reads, EncodeAll;
    if ts == [] {
      NoMore(read, encode, b, p);
    } else {
      var init, last := ts[..|ts| - 1], ts[|ts| - 1];
      assert ts == init + [last];
      EncodeAllLast(encode, init, last);
      SplitAt(b, p, EncodeAll(encode, init), encode(last));
      forall i | 0 <= i < |init| ensures Reads(read, encode, b, init[i]) {
        assert init[i] == ts[i];
      }
      ManyAt(read, encode, b, p, init);
      OneMore(read, encode, b, p, init, last);
    }
  }

  lemma NoMore<T>(read: (seq<Byte>, nat) -> Read<T>, encode: T -> seq<Byte>, b: seq<Byte>, p: nat)
    ensures EncodeAll(encode, []) == [] && Many(read, b, p, 0) == Some(([], p))
  {
  }

  lemma EncodeAllLast<T>(encode: T -> seq<Byte>, init: seq<T>, last: T)
    ensures EncodeAll(encode, init + [last]) == EncodeAll(encode, init) + encode(last)
  {
    assert (init + [last])[..|init|] == init;
  }

  lemma OneMore<T>(read: (seq<Byte>, nat) -> Read<T>, encode: T -> seq<Byte>, b: seq<Byte>, p: nat, init: seq<T>, last: T)
    requires Many(read, b, p, |init|) == Some((init, p + |EncodeAll(encode, init)|))
    requires Reads(read, encode, b, last) && At(b, p + |EncodeAll(encode, init)|, encode(last))
    ensures Many(read, b, p, |init| + 1) == Some((init + [last], p + |EncodeAll(encode, init + [last])|))
  {
    EncodeAllLast(encode, init, last);
    hide EncodeAll;
  }

  lemma WitnessAt(b: seq<Byte>, p: nat, w: Witness)
    requires At(b, p, EncodeWitness(w)) && WitnessFits(w)
    ensures ReadWitness(b, p) == Some((w, p + |EncodeWitness(w)|))
  {
    hide Encode, EncodeAll, Count, Many, Prefixed, EncodeBytes;
    SplitAt(b, p, Encode(|w|), EncodeAll(EncodeBytes, w));
    CountAt(b, p, |w|);
    forall i | 0 <= i < |w| ensures Reads(Prefixed, EncodeBytes, b, w[i]) {
      forall q: nat | At(b, q, EncodeBytes(w[i])) ensures Prefixed(b, q) == Some((w[i], q + |EncodeBytes(w[i])|)) {
        PrefixedAt(b, q, w[i]);
      }
    }
    ManyAt(Prefixed, EncodeBytes, b, p + |Encode(|w|)|, w);
  }

  lemma RestAt(b: seq<Byte>, p: nat, t: Transaction)
    requires At(b, p, EncodeRest(t)) && Fits(t)
    ensures ReadRest(b, p, t.version, t.flag) == Some((t, p + |EncodeRest(t)|))
  {
    hide Encode, EncodeAll, Count, Many, Number, Fixed, EncodeInput, EncodeOutput, EncodeWitness, ReadInput, ReadOutput, ReadWitness;
    hide InputFits, OutputFits, WitnessFits;
    Powers();
    var a, inputs, c := Encode(|t.inputs|), EncodeAll(EncodeInput, t.inputs), Encode(|t.outputs|);
    var outputs, witnesses := EncodeAll(EncodeOutput, t.outputs), EncodeAll(EncodeWitness, t.witnesses);
    var locktime := Fixed(t.locktime, U32_BYTES);
    var p1 := p + |a|;
    var p2 := p1 + |inputs|;
    var p3 := p2 + |c|;
    var p4 := p3 + |outputs|;
    SplitAt(b, p, a, inputs + (c + (outputs + (witnesses + locktime))));
    SplitAt(b, p1, inputs, c + (outputs + (witnesses + locktime)));
    SplitAt(b, p2, c, outputs + (witnesses + locktime));
    SplitAt(b, p3, outputs, witnesses + locktime);
    SplitAt(b, p4, witnesses, locktime);
    CountAt(b, p, |t.inputs|);
    CountAt(b, p2, |t.outputs|);
    InputsAt(b, p1, t);
    OutputsAt(b, p3, t);
    WitnessesAt(b, p4, t);
    NumberAt(b, p4 + |witnesses|, t.locktime, U32_BYTES);
  }

  lemma InputsAt(b: seq<Byte>, p: nat, t: Transaction)
    requires At(b, p, EncodeAll(EncodeInput, t.inputs)) && Fits(t)
    ensures Many(ReadInput, b, p, |t.inputs|) == Some((t.inputs, p + |EncodeAll(EncodeInput, t.inputs)|))
  {
    hide EncodeAll, Many, EncodeInput, ReadInput, InputFits;
    forall i | 0 <= i < |t.inputs| ensures Reads(ReadInput, EncodeInput, b, t.inputs[i]) {
      forall q: nat | At(b, q, EncodeInput(t.inputs[i])) ensures ReadInput(b, q) == Some((t.inputs[i], q + |EncodeInput(t.inputs[i])|)) {
        InputAt(b, q, t.inputs[i]);
      }
    }
    ManyAt(ReadInput, EncodeInput, b, p, t.inputs);
  }

  lemma OutputsAt(b: seq<Byte>, p: nat, t: Transaction)
    requires At(b, p, EncodeAll(EncodeOutput, t.outputs)) && Fits(t)
    ensures Many(ReadOutput, b, p, |t.outputs|) == Some((t.outputs, p + |EncodeAll(EncodeOutput, t.outputs)|))
  {
    hide EncodeAll, Many, EncodeOutput, ReadOutput, OutputFits;
    forall i | 0 <= i < |t.outputs| ensures Reads(ReadOutput, EncodeOutput, b, t.outputs[i]) {
      forall q: nat | At(b, q, EncodeOutput(t.outputs[i])) ensures ReadOutput(b, q) == Some((t.outputs[i], q + |EncodeOutput(t.outputs[i])|)) {
        OutputAt(b, q, t.outputs[i]);
      }
    }
    ManyAt(ReadOutput, EncodeOutput, b, p, t.outputs);
  }

  lemma WitnessesAt(b: seq<Byte>, p: nat, t: Transaction)
    requires At(b, p, EncodeAll(EncodeWitness, t.witnesses)) && Fits(t)
    ensures Many(ReadWitness, b, p, |t.witnesses|) == Some((t.witnesses, p + |EncodeAll(EncodeWitness, t.witnesses)|))
  {
    hide EncodeAll, Many, EncodeWitness, ReadWitness, WitnessFits;
    forall i | 0 <= i < |t.witnesses| ensures Reads(ReadWitness, EncodeWitness, b, t.witnesses[i]) {
      forall q: nat | At(b, q, EncodeWitness(t.witnesses[i])) ensures ReadWitness(b, q) == Some((t.witnesses[i], q + |EncodeWitness(t.witnesses[i])|)) {
        WitnessAt(b, q, t.witnesses[i]);
      }
    }
    ManyAt(ReadWitness, EncodeWitness, b, p, t.witnesses);
  }

  /** The reader takes a transaction without witnesses for one with witnesses exactly if it has no inputs
      but some outputs: then the input count is where the marker would be. */
  ghost predicate Mistakable(t: Transaction) {
    t.flag == 0 && t.inputs == [] && t.outputs != []
  }

  /** What is where the reader looks for marker and flag. */
  lemma MarkerAndFlag(b: seq<Byte>, p: nat, t: Transaction)
    requires At(b, p, EncodeTransaction(t)) && Fits(t)
    ensures p + 6 <= |b| && FromFixed(b[p..p + 4]) == t.version
    ensures t.flag != 0 ==> b[p + 4] == 0 && b[p + 5] == t.flag
    ensures t.flag == 0 ==> (b[p + 4] == 0 && b[p + 5] >= 1 <==> Mistakable(t))
    ensures At(b, if t.flag != 0 then p + 6 else p + 4, EncodeRest(t))
  {
    hide EncodeRest, EncodeAll, Fixed, FromFixed, Encode, EncodeInput, EncodeOutput, EncodeWitness, InputFits, OutputFits, WitnessFits;
    Powers();
    var marker := if t.flag != 0 then [0, t.flag] else [];
    SplitAt(b, p, Fixed(t.version, U32_BYTES), marker + EncodeRest(t));
    SplitAt(b, p + 4, marker, EncodeRest(t));
    NumberAt(b, p, t.version, U32_BYTES);
    if t.flag == 0 {
      RestBegins(t);
      assert b[p + 4..p + 4 + |EncodeRest(t)|] == EncodeRest(t);
      assert b[p + 4] == EncodeRest(t)[0] && b[p + 5] == EncodeRest(t)[1];
    } else {
      assert b[p + 4..p + 6] == marker;
    }
  }

  lemma RestBegins(t: Transaction)
    ensures |EncodeRest(t)| >= 2
    ensures EncodeRest(t)[0] == 0 <==> t.inputs == []
    ensures t.inputs == [] ==> (EncodeRest(t)[1] == 0 <==> t.outputs == [])
  {
    hide Fixed, EncodeInput, EncodeOutput, EncodeWitness;
    if t.inputs == [] {
      assert Encode(0) == [0] && EncodeAll(EncodeInput, t.inputs) == [];
      assert EncodeRest(t)[1] == Encode(|t.outputs|)[0];
    }
  }

  /** The reader recovers a transaction, and ends exactly behind it, if and only if its counts and
      lengths fit into 16 bits and it cannot be mistaken for one with witnesses.  Otherwise it does not
      recover the transaction at all, wherever it ends. */
  lemma TransactionRoundTrip(b: seq<Byte>, p: nat, t: Transaction)
    requires At(b, p, EncodeTransaction(t))
    ensures Readable(t) <==> ReadTransaction(b, p) == Some((t, p + |EncodeTransaction(t)|))
    ensures Readable(t) <==> ReadTransaction(b, p).Some? && ReadTransaction(b, p).value.0 == t
  {
    hide EncodeTransaction, ReadTransaction, Fits, Mistakable;
    WhatIsReadFits(b, p);
    if Fits(t) { FittingRoundTrip(b, p, t); }
  }

  lemma FittingRoundTrip(b: seq<Byte>, p: nat, t: Transaction)
    requires At(b, p, EncodeTransaction(t)) && Fits(t)
    ensures !Mistakable(t) ==> ReadTransaction(b, p) == Some((t, p + |EncodeTransaction(t)|))
    ensures Mistakable(t) ==> ReadTransaction(b, p).None? || ReadTransaction(b, p).value.0 != t
  {
    hide EncodeRest, FromFixed, Fixed, Fits;
    MarkerAndFlag(b, p, t);
    if Mistakable(t) {
      ReadFlag(b, p + 6, FromFixed(b[p..p + 4]), b[p + 5]);
    } else {
      RestAt(b, if t.flag != 0 then p + 6 else p + 4, t);
    }
  }

  ghost predicate Readable(t: Transaction) {
    Fits(t) && !Mistakable(t)
  }

  lemma {:induction false} ManyAll<T>(read: (seq<Byte>, nat) -> Read<T>, good: T -> bool, b: seq<Byte>, p: nat, n: nat)
    requires forall q: nat :: read(b, q).Some? ==> good(read(b, q).value.0)
    ensures Many(read, b, p, n).Some? ==>
              var ts := Many(read, b, p, n).value.0; |ts| == n && forall i :: 0 <= i < n ==> good(ts[i])
  {
    if n > 0 { ManyAll(read, good, b, p, n - 1); }
  }

  lemma PrefixedFits(b: seq<Byte>, p: nat)
    ensures Prefixed(b, p).Some? ==> ItemFits(Prefixed(b, p).value.0)
  {
    hide Decode;
  }

  lemma WitnessReadFits(b: seq<Byte>, p: nat)
    ensures ReadWitness(b, p).Some? ==> WitnessFits(ReadWitness(b, p).value.0)
  {
    hide Decode, Prefixed;
    forall q: nat ensures Prefixed(b, q).Some? ==> ItemFits(Prefixed(b, q).value.0) { PrefixedFits(b, q); }
    if Count(b, p).Some? {
      ManyAll(Prefixed, s => |s| < 0x1_0000, b, Count(b, p).value.1, Count(b, p).value.0);
    }
  }

  lemma InputReadFits(b: seq<Byte>, p: nat)
    ensures ReadInput(b, p).Some? ==> InputFits(ReadInput(b, p).value.0)
  {
    hide FromFixed, Prefixed;
    Powers();
    forall q: nat ensures Prefixed(b, q).Some? ==> ItemFits(Prefixed(b, q).value.0) { PrefixedFits(b, q); }
  }

  lemma OutputReadFits(b: seq<Byte>, p: nat)
    ensures ReadOutput(b, p).Some? ==> OutputFits(ReadOutput(b, p).value.0)
  {
    hide FromFixed, Prefixed;
    Powers();
    forall q: nat ensures Prefixed(b, q).Some? ==> ItemFits(Prefixed(b, q).value.0) { PrefixedFits(b, q); }
  }

  /** Whatever the bytes are: a transaction that is read has counts and lengths below 2^16. */
  lemma WhatIsReadFits(b: seq<Byte>, p: nat)
    ensures ReadTransaction(b, p).Some? ==> Fits(ReadTransaction(b, p).value.0)
  {
    hide FromFixed, ReadRest, Fits;
    if p + 6 <= |b| {
      Powers();
      assert |b[p..p + 4]| == U32_BYTES;
      forall q: nat, flag: Byte, version: nat | version < 0x1_0000_0000
        ensures ReadRest(b, q, version, flag).Some? ==> Fits(ReadRest(b, q, version, flag).value.0)
      {
        RestReadFits(b, q, version, flag);
      }
    }
  }

  lemma RestReadFits(b: seq<Byte>, p: nat, version: nat, flag: Byte)
    requires version < 0x1_0000_0000
    ensures ReadRest(b, p, version, flag).Some? ==> Fits(ReadRest(b, p, version, flag).value.0)
  {
    hide Decode, FromFixed, Many, ReadInput, ReadOutput, ReadWitness, InputFits, OutputFits, WitnessFits;
    Powers();
    if ReadRest(b, p, version, flag).Some? {
      var (inputCount, p1) := Count(b, p).value;
      PartsReadFit(b, p1, inputCount);
      var p2 := Many(ReadInput, b, p1, inputCount).value.1;
      var (outputCount, p3) := Count(b, p2).value;
      PartsReadFit(b, p3, outputCount);
      var p4 := Many(ReadOutput, b, p3, outputCount).value.1;
      PartsReadFit(b, p4, if flag != 0 then inputCount else 0);
    }
  }

  ghost predicate PartsFit(b: seq<Byte>, p: nat, n: nat) {
    && (Many(ReadInput, b, p, n).Some? ==>
          var r := Many(ReadInput, b, p, n).value.0; |r| == n && forall i :: 0 <= i < n ==> InputFits(r[i]))
    && (Many(ReadOutput, b, p, n).Some? ==>
          var r := Many(ReadOutput, b, p, n).value.0; |r| == n && forall i :: 0 <= i < n ==> OutputFits(r[i]))
    && (Many(ReadWitness, b, p, n).Some? ==>
          var r := Many(ReadWitness, b, p, n).value.0; |r| == n && forall i :: 0 <= i < n ==> WitnessFits(r[i]))
  }

  lemma PartsReadFit(b: seq<Byte>, p: nat, n: nat)
    ensures PartsFit(b, p, n)
  {
    hide Many, ReadInput, ReadOutput, ReadWitness, InputFits, OutputFits, WitnessFits;
    forall q: nat ensures ReadInput(b, q).Some? ==> InputFits(ReadInput(b, q).value.0) { InputReadFits(b, q); }
    forall q: nat ensures ReadOutput(b, q).Some? ==> OutputFits(ReadOutput(b, q).value.0) { OutputReadFits(b, q); }
    forall q: nat ensures ReadWitness(b, q).Some? ==> WitnessFits(ReadWitness(b, q).value.0) { WitnessReadFits(b, q); }
    ManyAll(ReadInput, InputFits, b, p, n);
    ManyAll(ReadOutput, OutputFits, b, p, n);
    ManyAll(ReadWitness, WitnessFits, b, p, n);
  }

  lemma ReadFlag(b: seq<Byte>, p: nat, version: nat, flag: Byte)
    ensures var r := ReadRest(b, p, version, flag); r.Some? ==> r.value.0.flag == flag
  {
  }

  /** Transactions, one behind the other, read back as they are, with the offset at the exact end, if
      and only if each of them does. */
  lemma TransactionsReadBack(ts: seq<Transaction>)
    ensures var b := EncodeAll(EncodeTransaction, ts);
            Many(ReadTransaction, b, 0, |ts|) == Some((ts, |b|)) <==> forall t :: t in ts ==> Readable(t)
  {
    hide EncodeAll, EncodeTransaction, ReadTransaction, Many, Readable;
    var b := EncodeAll(EncodeTransaction, ts);
    assert b[0..|b|] == b;
    assert ts[..|ts|] == ts;
    ManyTransactions(b, ts, |ts|);
    assert (forall t :: t in ts ==> Readable(t)) <==> forall i :: 0 <= i < |ts| ==> Readable(ts[i]);
  }

  /** The first n of them are read if and only if each of these is readable. */
  lemma {:induction false} ManyTransactions(b: seq<Byte>, ts: seq<Transaction>, n: nat)
    requires n <= |ts| && At(b, 0, EncodeAll(EncodeTransaction, ts[..n]))
    ensures (forall i :: 0 <= i < n ==> Readable(ts[i])) <==>
            Many(ReadTransaction, b, 0, n) == Some((ts[..n], |EncodeAll(EncodeTransaction, ts[..n])|))
    ensures (forall i :: 0 <= i < n ==> Readable(ts[i])) <==>
            Many(ReadTransaction, b, 0, n).Some? && Many(ReadTransaction, b, 0, n).value.0 == ts[..n]
  {
    hide EncodeTransaction, ReadTransaction, Readable;
    if n > 0 {
      assert ts[..n][..n - 1] == ts[..n - 1];
      SplitAt(b, 0, EncodeAll(EncodeTransaction, ts[..n - 1]), EncodeTransaction(ts[n - 1]));
      ManyTransactions(b, ts, n - 1);
      TransactionRoundTrip(b, |EncodeAll(EncodeTransaction, ts[..n - 1])|, ts[n - 1]);
      hide EncodeAll;
      assert ts[..n] == ts[..n - 1] + [ts[n - 1]];
    }
  }

  // ---------------------------------------------------------------- the loops

  lemma {:induction false} ManyStops<T>(read: (seq<Byte>, nat) -> Read<T>, b: seq<Byte>, p: nat, i: nat, n: nat)
    requires i <= n && Many(read, b, p, i).None?
    ensures Many(read, b, p, n).None?
    decreases n
  {
    if i < n { ManyStops(read, b, p, i, n - 1); }
  }

  method ReadInputs(b: seq<Byte>, p: nat, inputCount: nat) returns (r: Read<seq<Input>>)
    ensures r == Many(ReadInput, b, p, inputCount)
  {
    hide ReadInput;
    var inputs, bufferOffset: nat := [], p;
    for i := 0 to inputCount
      invariant Many(ReadInput, b, p, i) == Some((inputs, bufferOffset))
    {
      var input := ReadInput(b, bufferOffset);
      if input.None? {
        ManyStops(ReadInput, b, p, i + 1, inputCount);
        return None;
      }
      inputs := inputs + [input.value.0];
      bufferOffset := input.value.1;
    }
    r := Some((inputs, bufferOffset));
  }

  method ReadOutputs(b: seq<Byte>, p: nat, outputCount: nat) returns (r: Read<seq<Output>>)
    ensures r == Many(ReadOutput, b, p, outputCount)
  {
    hide ReadOutput;
    var outputs, bufferOffset: nat := [], p;
    for i := 0 to outputCount
      invariant Many(ReadOutput, b, p, i) == Some((outputs, bufferOffset))
    {
      var output := ReadOutput(b, bufferOffset);
      if output.None? {
        ManyStops(ReadOutput, b, p, i + 1, outputCount);
        return None;
      }
      outputs := outputs + [output.value.0];
      bufferOffset := output.value.1;
    }
    r := Some((outputs, bufferOffset));
  }

  method ReadStackItems(b: seq<Byte>, p: nat) returns (r: Read<Witness>)
    ensures r == ReadWitness(b, p)
  {
    hide Count, Prefixed;
    var stackItemsCount := Count(b, p);
    if stackItemsCount.None? {
      return None;
    }
    var items, bufferOffset: nat := [], stackItemsCount.value.1;
    for i := 0 to stackItemsCount.value.0
      invariant Many(Prefixed, b, stackItemsCount.value.1, i) == Some((items, bufferOffset))
    {
      var item := Prefixed(b, bufferOffset);
      if item.None? {
        ManyStops(Prefixed, b, stackItemsCount.value.1, i + 1, stackItemsCount.value.0);
        return None;
      }
      items := items + [item.value.0];
      bufferOffset := item.value.1;
    }
    r := Some((items, bufferOffset));
  }

  method ReadWitnesses(b: seq<Byte>, p: nat, inputCount: nat) returns (r: Read<seq<Witness>>)
    ensures r == Many(ReadWitness, b, p, inputCount)
  {
    hide ReadWitness;
    var witnesses, bufferOffset: nat := [], p;
    for i := 0 to inputCount
      invariant Many(ReadWitness, b, p, i) == Some((witnesses, bufferOffset))
    {
      var stack := ReadStackItems(b, bufferOffset);
      if stack.None? {
        ManyStops(ReadWitness, b, p, i + 1, inputCount);
        return None;
      }
      witnesses := witnesses + [stack.value.0];
      bufferOffset := stack.value.1;
    }
    r := Some((witnesses, bufferOffset));
  }

  /** The body of ReadTxn's loop over transactions. */
  method ReadOneTransaction(b: seq<Byte>, p: nat) returns (r: Read<Transaction>)
    ensures r == ReadTransaction(b, p)
  {
    hide Count, Many, Number, ReadInput, ReadOutput, ReadWitness, FromFixed;
    if p + 6 > |b| {
      return None;
    }
    var version, marker, flag := FromFixed(b[p..p + 4]), b[p + 4], b[p + 5];
    var bufferOffset := p + 4;
    var isSegwit := false;
    if marker == 0x00 && flag >= 0x01 {
      bufferOffset := bufferOffset + 2;
      isSegwit := true;
    } else {
      flag := 0;
    }
    var inputCount := Count(b, bufferOffset);
    if inputCount.None? {
      return None;
    }
    var inputs := ReadInputs(b, inputCount.value.1, inputCount.value.0);
    if inputs.None? {
      return None;
    }
    var outputCount := Count(b, inputs.value.1);
    if outputCount.None? {
      return None;
    }
    var outputs := ReadOutputs(b, outputCount.value.1, outputCount.value.0);
    if outputs.None? {
      return None;
    }
    var witnesses := ReadWitnesses(b, outputs.value.1, if isSegwit then inputCount.value.0 else 0);
    if witnesses.None? {
      return None;
    }
    var locktime := Number(b, witnesses.value.1, U32_BYTES);
    if locktime.None? {
      return None;
    }
    r := Some((Transaction(version, flag, inputs.value.0, outputs.value.0, witnesses.value.0, locktime.value.0), locktime.value.1));
  }

  /** ReadTxn: as many transactions as the block says. */
  method ReadTxn(blockBuffer: seq<Byte>, txCount: nat) returns (r: Read<seq<Transaction>>)
    ensures r == Many(ReadTransaction, blockBuffer, 0, txCount)
  {
    hide ReadTransaction;
    var transactions, bufferOffset: nat := [], 0;
    for i := 0 to txCount
      invariant Many(ReadTransaction, blockBuffer, 0, i) == Some((transactions, bufferOffset))
    {
      var transaction := ReadOneTransaction(blockBuffer, bufferOffset);
      if transaction.None? {
        ManyStops(ReadTransaction, blockBuffer, 0, i + 1, txCount);
        return None;
      }
      transactions := transactions + [transaction.value.0];
      bufferOffset := transaction.value.1;
    }
    r := Some((transactions, bufferOffset));
  }
}
