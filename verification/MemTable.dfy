/** The memtable (db/memtable.cc): entries as length-prefixed byte strings in a skip list. */
module MemTables {
  import opened Keys
  import opened Coding
  import opened Varints
  import opened WriteBatches
  import opened Reads
  import opened SkipListClass
  import Bytewise
  import Engine
  import Lookup

  const TAG_BYTES: nat := 8

  /** The entry that a buffer stands for; user keys are compared through their ranks. */
  function EntryFor(sequence: nat, typ: ValueType, key: seq<Byte>, value: seq<Byte>): Entry {
    Entry(IKey(Bytewise.Rank(key), sequence, typ), value)
  }

  /** What a reader of the table makes of a buffer. */
  function Decode(buf: seq<Byte>): Option<Entry> {
    match GetLengthPrefixedSlice(buf)
    case None => None
    case Some((key, rest)) =>
      if |key| < TAG_BYTES then None
      else match GetLengthPrefixedSlice(rest)
        case None => None
        case Some((value, _)) =>
          var tag := FromFixed(key[|key| - TAG_BYTES..]);
          if tag % 256 == TYPE_VALUE then Some(EntryFor(tag / 256, TypeValue, key[..|key| - TAG_BYTES], value))
          else if tag % 256 == TYPE_DELETION then Some(EntryFor(tag / 256, TypeDeletion, key[..|key| - TAG_BYTES], value))
          else None
  }

  ghost predicate EntryFits(sequence: nat, key: seq<Byte>, value: seq<Byte>) {
    sequence <= MAX_SEQUENCE && |key| + TAG_BYTES < 0x1_0000_0000 && |value| < 0x1_0000_0000
  }

  function Encoded(sequence: nat, typ: ValueType, key: seq<Byte>, value: seq<Byte>): seq<Byte> {
    LengthPrefixed(key + Fixed(PackSequenceAndType(sequence, typ), TAG_BYTES)) + LengthPrefixed(value)
  }

  /** The buffer: the length of the internal key, the user key, one byte of type, seven of sequence number,
      the length of the value, the value. */
  lemma BufferBytes(sequence: nat, typ: ValueType, key: seq<Byte>, value: seq<Byte>)
    requires EntryFits(sequence, key, value)
    ensures Encoded(sequence, typ, key, value) ==
              Varint(|key| + 8) + key + [if typ.TypeValue? then 1 else 0] + Fixed(sequence, 7) + Varint(|value|) + value
  {
    hide Varint, Fixed;
    PackedBytes(sequence, typ);
  }

  lemma PackedBytes(sequence: nat, typ: ValueType)
    ensures Fixed(PackSequenceAndType(sequence, typ), 8) == [if typ.TypeValue? then 1 else 0] + Fixed(sequence, 7)
  {
    var tag := PackSequenceAndType(sequence, typ);
    assert tag % 256 == (if typ.TypeValue? then 1 else 0) && tag / 256 == sequence;
  }

  lemma DecodeInvertsEncode(sequence: nat, typ: ValueType, key: seq<Byte>, value: seq<Byte>)
    requires EntryFits(sequence, key, value)
    ensures Decode(Encoded(sequence, typ, key, value)) == Some(EntryFor(sequence, typ, key, value))
  {
    hide LengthPrefixed, GetLengthPrefixedSlice;
    var tag := PackSequenceAndType(sequence, typ);
    var internal := key + Fixed(tag, TAG_BYTES);
    LengthPrefixedRoundTrip(internal, LengthPrefixed(value));
    LengthPrefixedRoundTrip(value, []);
    assert LengthPrefixed(value) + [] == LengthPrefixed(value);
    assert internal[|internal| - TAG_BYTES..] == Fixed(tag, TAG_BYTES) && internal[..|internal| - TAG_BYTES] == key;
    TagFits(sequence, typ);
    FixedRoundTrip(tag, TAG_BYTES);
  }

  lemma TagFits(sequence: nat, typ: ValueType)
    requires sequence <= MAX_SEQUENCE
    ensures PackSequenceAndType(sequence, typ) < Power256(TAG_BYTES)
    ensures PackSequenceAndType(sequence, typ) / 256 == sequence
    // The tag of the largest sequence number takes all eight bytes.
    ensures MAX_SEQUENCE * 256 + 255 == 0xffff_ffff_ffff_ffff
  {
    assert Power256(4) == 0x1_0000_0000;
    assert Power256(8) == 256 * (256 * (256 * (256 * Power256(4))));
  }

  class MemTable {
    const table: SkipList

    constructor (anyEntry: Entry)
      ensures table.Valid() && table.List() == [] && fresh(table)
    {
      var t := new SkipList(anyEntry);
      table := t;
    }

    /** Copy the entry into a new buffer, piece by piece, and insert the buffer. */
    method Add(sequence: nat, typ: ValueType, key: seq<Byte>, value: seq<Byte>, height: nat)
      requires table.Valid() && EntryFits(sequence, key, value) && 1 <= height <= 12
      requires forall x :: x in table.List() ==> x.key != EntryFor(sequence, typ, key, value).key
      modifies table
      ensures table.Valid() && table.List() == Insert(old(table.List()), EntryFor(sequence, typ, key, value))
    {
      var buf := EncodeVarint32(|key| + TAG_BYTES);
      buf := buf + key;
      buf := buf + Fixed(PackSequenceAndType(sequence, typ), TAG_BYTES);
      var length := EncodeVarint32(|value|);
      buf := buf + length;
      buf := buf + value;
      assert buf == Encoded(sequence, typ, key, value);
      DecodeInvertsEncode(sequence, typ, key, value);
      table.Insert(Decode(buf).value, height);
    }

    method Get(key: seq<Byte>, sequence: nat) returns (st: Lookup.SaverState)
      requires table.Valid()
      ensures st == Engine.MemTableGet(table.List(), Bytewise.Rank(key), sequence)
      ensures DistinctSeqnos(Run(table.List())) ==>
                if st == Lookup.NotFound then NothingVisible(Run(table.List()), Bytewise.Rank(key), sequence)
                else !NothingVisible(Run(table.List()), Bytewise.Rank(key), sequence)
                     && Read(Run(table.List()), Bytewise.Rank(key), sequence) == Engine.ValueOfState(st)
    {
      st := Find(table, Bytewise.Rank(key), sequence);
      if DistinctSeqnos(Run(table.List())) {
        ListIsSorted(table);
        Engine.MemTableGetIsExact(table.List(), Bytewise.Rank(key), sequence);
      }
    }
  }

  /** One seek decides: the newest visible entry, if there is any. */
  method Find(table: SkipList, k: UserKey, sequence: nat) returns (st: Lookup.SaverState)
    requires table.Valid()
    ensures st == Engine.MemTableGet(table.List(), k, sequence)
  {
    var iter := new Iterator(table);
    iter.Seek(LookupKey(k, sequence));
    ghost var pos := LowerBound(table.List(), LookupKey(k, sequence));
    assert iter.At(pos);
    st := Lookup.NotFound;
    if iter.Valid() {
      var e := iter.Key();
      if e.key.ukey == k {
        st := if e.key.typ.TypeValue? then Lookup.Found(e.value) else Lookup.Deleted;
      }
    }
  }

  /** The iteration that BuildTable makes over a memtable. */
  method Drain(table: SkipList) returns (es: seq<Entry>)
    requires table.Valid()
    ensures es == table.List()
  {
    es := [];
    var iter := new Iterator(table);
    iter.SeekToFirst();
    while iter.Valid()
      invariant iter.list == table && iter.At(|es|) && es == table.List()[..|es|]
      decreases |table.List()| - |es|
    {
      var e := iter.Key();
      iter.Next(|es|);
      es := es + [e];
    }
  }

  lemma ListIsSorted(table: SkipList)
    requires table.Valid()
    ensures Sorted(table.List())
  {
    assert SkipLists.IsLevel(table.mem, 0, table.levels[0]);
  }
}
