/** Write batches as byte strings (db/write_batch.cc): a sequence number, a count, then the updates. */
module WriteBatches {
  import opened Keys
  import opened Coding
  import opened Varints

  const HEADER: nat := 12
  const SEQUENCE_BYTES: nat := 8
  const TYPE_DELETION: Byte := 0
  const TYPE_VALUE: Byte := 1

  datatype Update = Put(key: seq<Byte>, value: seq<Byte>) | Delete(key: seq<Byte>)

  /** What the memtable receives for an update. */
  datatype MemEntry = MemEntry(sequence: nat, typ: Byte, key: seq<Byte>, value: seq<Byte>)

  function EntryOf(u: Update, sequence: nat): MemEntry {
    match u
    case Put(key, value) => MemEntry(sequence, TYPE_VALUE, key, value)
    case Delete(key) => MemEntry(sequence, TYPE_DELETION, key, [])
  }

  /** The updates of a batch take consecutive sequence numbers. */
  function EntriesOf(us: seq<Update>, first: nat): (es: seq<MemEntry>)
    ensures |es| == |us|
  {
    seq(|us|, i requires 0 <= i < |us| => EntryOf(us[i], first + i))
  }

  /** The i-th update of a batch at sequence number `first` is inserted at first + i, a deletion with type
      0 and no value. */
  lemma EntriesAre(us: seq<Update>, first: nat, i: nat)
    requires i < |us|
    ensures us[i].Put? ==> EntriesOf(us, first)[i] == MemEntry(first + i, 1, us[i].key, us[i].value)
    ensures us[i].Delete? ==> EntriesOf(us, first)[i] == MemEntry(first + i, 0, us[i].key, [])
  {
  }

  // ---------------------------------------------------------------- the format

  function LengthPrefixed(s: seq<Byte>): seq<Byte> {
    Varint(|s|) + s
  }

  function UpdateBytes(u: Update): (bytes: seq<Byte>)
    ensures |bytes| > 0
  {
    match u
    case Put(key, value) => [TYPE_VALUE] + (LengthPrefixed(key) + LengthPrefixed(value))
    case Delete(key) => [TYPE_DELETION] + LengthPrefixed(key)
  }

  function Body(us: seq<Update>): seq<Byte> {
    if us == [] then [] else UpdateBytes(us[0]) + Body(us[1..])
  }

  function BatchBytes(sequence: nat, us: seq<Update>): seq<Byte> {
    Fixed(sequence, SEQUENCE_BYTES) + Fixed(|us|, FIXED32_BYTES) + Body(us)
  }

  /** Eight bytes of sequence number, four of count, then the updates. */
  lemma BatchLayout(sequence: nat, us: seq<Update>)
    requires |us| < 0x1_0000_0000 && sequence < 0x1_0000_0000_0000_0000
    ensures var rep := BatchBytes(sequence, us);
            |rep| >= 12 && U64At(rep, 0) == sequence && U32At(rep, 8) == |us| && rep[12..] == Body(us)
  {
    hide Fixed, FromFixed, Body, U32At, U64At;
    var rep := BatchBytes(sequence, us);
    assert Power256(8) == 0x1_0000_0000_0000_0000;
    FixedRoundTrip(sequence, 8);
    Fixed32RoundTrip(|us|);
    assert rep[0..8] == Fixed(sequence, 8) && rep[8..12] == Fixed32(|us|);
    FromFixedAt(rep, 0);
    FromFixedAt(rep, 8);
  }

  /** Each update is its type, its key behind its length, and the value of a put likewise. */
  lemma BodyBytes(us: seq<Update>)
    requires us != []
    ensures us[0].Put? ==>
              Body(us) == [1] + Varint(|us[0].key|) + us[0].key + Varint(|us[0].value|) + us[0].value + Body(us[1..])
    ensures us[0].Delete? ==> Body(us) == [0] + Varint(|us[0].key|) + us[0].key + Body(us[1..])
    ensures Body([]) == []
  {
    assert Body(us) == UpdateBytes(us[0]) + Body(us[1..]);
    hide Body;
    UpdateIs(us[0]);
  }

  lemma UpdateIs(u: Update)
    ensures u.Put? ==> UpdateBytes(u) == [1] + Varint(|u.key|) + u.key + Varint(|u.value|) + u.value
    ensures u.Delete? ==> UpdateBytes(u) == [0] + Varint(|u.key|) + u.key
  {
    hide Varint;
    if u.Put? {
      var a, b, c, d := Varint(|u.key|), u.key, Varint(|u.value|), u.value;
      assert [1] + ((a + b) + (c + d)) == [1] + a + b + c + d;
    }
  }

  ghost predicate Fits(us: seq<Update>) {
    |us| < 0x1_0000_0000 && forall u :: u in us ==> |u.key| < 0x1_0000_0000 && (u.Put? ==> |u.value| < 0x1_0000_0000)
  }

  lemma {:induction false} BodyConcat(a: seq<Update>, b: seq<Update>)
    ensures Body(a + b) == Body(a) + Body(b)
  {
    if a == [] {
      assert a + b == b;
    } else {
      hide UpdateBytes;
      assert (a + b)[1..] == a[1..] + b && (a + b)[0] == a[0];
      BodyConcat(a[1..], b);
      assert UpdateBytes(a[0]) + (Body(a[1..]) + Body(b)) == (UpdateBytes(a[0]) + Body(a[1..])) + Body(b);
    }
  }

  // ---------------------------------------------------------------- parsing

  function GetLengthPrefixedSlice(input: seq<Byte>): (r: Option<(seq<Byte>, seq<Byte>)>)
    ensures r.Some? ==> |r.value.1| < |input|
  {
    match GetVarint32(input)
    case None => None
    case Some((len, n)) =>
      var rest := input[n..];
      if |rest| >= len then Some((rest[..len], rest[len..])) else None
  }

  /** One update and the rest of the input. */
  function ParseUpdate(input: seq<Byte>): (r: Option<(Update, seq<Byte>)>)
    ensures r.Some? ==> |r.value.1| < |input|
  {
    if input == [] then None
    else
      var key := GetLengthPrefixedSlice(input[1..]);
      if key.None? then None
      else if input[0] == TYPE_DELETION then Some((Delete(key.value.0), key.value.1))
      else if input[0] == TYPE_VALUE then
        var value := GetLengthPrefixedSlice(key.value.1);
        if value.None? then None else Some((Put(key.value.0, value.value.0), value.value.1))
      else None
  }

  /** The updates up to the end of the input or up to the first malformed one, and whether it was the end. */
  function ParseBody(input: seq<Byte>): (r: (seq<Update>, bool))
    decreases |input|
  {
    if input == [] then ([], true)
    else match ParseUpdate(input)
      case None => ([], false)
      case Some((u, rest)) => var r := ParseBody(rest); ([u] + r.0, r.1)
  }

  lemma LengthPrefixedRoundTrip(s: seq<Byte>, rest: seq<Byte>)
    requires |s| < 0x1_0000_0000
    ensures GetLengthPrefixedSlice(LengthPrefixed(s) + rest) == Some((s, rest))
  {
    hide Varint, GetVarint32;
    Varint32RoundTrip(|s|, s + rest);
    assert LengthPrefixed(s) + rest == Varint(|s|) + (s + rest);
    assert (Varint(|s|) + (s + rest))[|Varint(|s|)|..] == s + rest;
  }

  lemma UpdateRoundTrip(u: Update, rest: seq<Byte>)
    requires |u.key| < 0x1_0000_0000 && (u.Put? ==> |u.value| < 0x1_0000_0000)
    ensures ParseUpdate(UpdateBytes(u) + rest) == Some((u, rest))
  {
    hide LengthPrefixed, GetLengthPrefixedSlice;
    var input := UpdateBytes(u) + rest;
    match u
    case Put(key, value) =>
      assert input[1..] == LengthPrefixed(key) + (LengthPrefixed(value) + rest);
      LengthPrefixedRoundTrip(key, LengthPrefixed(value) + rest);
      LengthPrefixedRoundTrip(value, rest);
    case Delete(key) =>
      assert input[1..] == LengthPrefixed(key) + rest;
      LengthPrefixedRoundTrip(key, rest);
  }

  lemma {:induction false} BodyRoundTrip(us: seq<Update>)
    requires forall u :: u in us ==> |u.key| < 0x1_0000_0000 && (u.Put? ==> |u.value| < 0x1_0000_0000)
    ensures ParseBody(Body(us)) == (us, true)
  {
    if us != [] {
      hide UpdateBytes, ParseUpdate;
      UpdateRoundTrip(us[0], Body(us[1..]));
      BodyRoundTrip(us[1..]);
      assert us == [us[0]] + us[1..];
    }
  }

  /** WriteBatch::Iterate into a memtable: the entries inserted, and whether the batch was well formed. */
  function Inserted(rep: seq<Byte>): (seq<MemEntry>, bool) {
    if |rep| < HEADER then ([], false)
    else
      var body := ParseBody(rep[HEADER..]);
      (EntriesOf(body.0, FromFixed(rep[..SEQUENCE_BYTES])),
       body.1 && |body.0| == FromFixed32(rep[SEQUENCE_BYTES..HEADER]))
  }

  /** Inserting an encoded batch inserts exactly its updates, with consecutive sequence numbers. */
  lemma BatchRoundTrip(sequence: nat, us: seq<Update>)
    requires sequence < Power256(SEQUENCE_BYTES) && Fits(us)
    ensures Inserted(BatchBytes(sequence, us)) == (EntriesOf(us, sequence), true)
  {
    hide Body, ParseBody, Fixed, FromFixed32;
    var rep := BatchBytes(sequence, us);
    assert rep[..SEQUENCE_BYTES] == Fixed(sequence, SEQUENCE_BYTES) && rep[HEADER..] == Body(us);
    assert rep[SEQUENCE_BYTES..HEADER] == Fixed(|us|, FIXED32_BYTES);
    FixedRoundTrip(sequence, SEQUENCE_BYTES);
    FixedAt(rep, SEQUENCE_BYTES, |us|);
    BodyRoundTrip(us);
  }

  // ---------------------------------------------------------------- the class

  class WriteBatch {
    var rep: seq<Byte>
    ghost var sequence: nat
    ghost var updates: seq<Update>

    ghost predicate Valid()
      reads this
    {
      rep == BatchBytes(sequence, updates) && sequence < Power256(SEQUENCE_BYTES) && Fits(updates)
    }

    constructor ()
      ensures Valid() && updates == []
    {
      new;
      Clear();
    }

    method Clear()
      modifies this
      ensures Valid() && updates == []
    {
      rep := Fixed(0, SEQUENCE_BYTES) + Fixed(0, FIXED32_BYTES);
      sequence, updates := 0, [];
      assert rep + Body([]) == rep;
    }

    method Count() returns (n: nat)
      requires Valid()
      ensures n == |updates|
    {
      hide Fixed, FromFixed32, Body;
      assert rep[SEQUENCE_BYTES..HEADER] == Fixed(|updates|, FIXED32_BYTES);
      FixedAt(rep, SEQUENCE_BYTES, |updates|);
      n := FromFixed32(rep[SEQUENCE_BYTES..HEADER]);
    }

    method SetSequence(s: nat)
      requires Valid() && s < Power256(SEQUENCE_BYTES)
      modifies this
      ensures Valid() && sequence == s && updates == old(updates)
    {
      hide Fixed, Body;
      rep := Fixed(s, SEQUENCE_BYTES) + rep[SEQUENCE_BYTES..];
      sequence := s;
      assert rep == BatchBytes(sequence, updates);
    }

    method Put(key: seq<Byte>, value: seq<Byte>)
      requires Valid() && Fits(updates + [Update.Put(key, value)])
      modifies this
      ensures Valid() && sequence == old(sequence) && updates == old(updates) + [Update.Put(key, value)]
    {
      Push(Update.Put(key, value));
    }

    method Delete(key: seq<Byte>)
      requires Valid() && Fits(updates + [Update.Delete(key)])
      modifies this
      ensures Valid() && sequence == old(sequence) && updates == old(updates) + [Update.Delete(key)]
    {
      Push(Update.Delete(key));
    }

    method Push(u: Update)
      requires Valid() && Fits(updates + [u])
      modifies this
      ensures Valid() && sequence == old(sequence) && updates == old(updates) + [u]
    {
      hide Fixed, Body, UpdateBytes;
      var count := Count();
      BodyConcat(updates, [u]);
      assert Body([u]) == UpdateBytes(u) by { BodyOfOne(u); }
      rep := rep[..SEQUENCE_BYTES] + Fixed(count + 1, FIXED32_BYTES) + rep[HEADER..];
      rep := rep + UpdateBytes(u);
      updates := updates + [u];
      assert rep == BatchBytes(sequence, updates);
    }

    method Append(source: WriteBatch)
      requires Valid() && source.Valid() && Fits(updates + source.updates) && source != this
      modifies this
      ensures Valid() && sequence == old(sequence) && updates == old(updates) + source.updates
    {
      hide Fixed, Body;
      var count := Count();
      var more := source.Count();
      BodyConcat(updates, source.updates);
      rep := rep[..SEQUENCE_BYTES] + Fixed(count + more, FIXED32_BYTES) + rep[HEADER..];
      rep := rep + source.rep[HEADER..];
      updates := updates + source.updates;
      assert rep == BatchBytes(sequence, updates);
    }

    /** WriteBatchInternal::InsertInto: Iterate with a handler that adds to the memtable. */
    method InsertInto() returns (entries: seq<MemEntry>, ok: bool)
      requires Valid()
      ensures ok && entries == EntriesOf(updates, sequence)
    {
      BatchRoundTrip(sequence, updates);
      entries, ok := Iterate(rep);
    }
  }

  lemma BodyOfOne(u: Update)
    ensures Body([u]) == UpdateBytes(u)
  {
    assert [u][1..] == [];
  }

  /** The loop of WriteBatch::Iterate. */
  method Iterate(rep: seq<Byte>) returns (entries: seq<MemEntry>, ok: bool)
    ensures (entries, ok) == Inserted(rep)
  {
    hide ParseUpdate, FromFixed, FromFixed32;
    entries := [];
    if |rep| < HEADER {
      return entries, false;
    }
    var sequence := FromFixed(rep[..SEQUENCE_BYTES]);
    var input := rep[HEADER..];
    ghost var all, done := ParseBody(input), [];
    assert done + all.0 == all.0;
    while input != []
      invariant entries == EntriesOf(done, sequence)
      invariant all == (done + ParseBody(input).0, ParseBody(input).1)
      decreases |input|
    {
      var parsed := ParseUpdate(input);
      if parsed.None? {
        assert done + [] == done;
        return entries, false;
      }
      var u := parsed.value.0;
      ghost var rest := ParseBody(parsed.value.1).0;
      assert done + ([u] + rest) == (done + [u]) + rest;
      entries := entries + [EntryOf(u, sequence + |entries|)];
      done := done + [u];
      input := parsed.value.1;
    }
    assert done + [] == done;
    ok := |entries| == FromFixed32(rep[SEQUENCE_BYTES..HEADER]);
  }
}
