/** Manifest records (VersionEdit in db/version_edit.h and db/version_edit.cc): tagged fields. */
module VersionEdits {
  import opened Keys
  import opened Coding
  import opened Varints
  import opened WriteBatches
  import opened LogFormat
  import opened LogRoundTrip
  import Versions

  const COMPARATOR: nat := 1
  const LOG_NUMBER: nat := 2
  const NEXT_FILE_NUMBER: nat := 3
  const LAST_SEQUENCE: nat := 4
  const COMPACT_POINTER: nat := 5
  const DELETED_FILE: nat := 6
  const NEW_FILE: nat := 7
  const PREV_LOG_NUMBER: nat := 9

  datatype FileMetaData = FileMetaData(number: nat, fileSize: nat, smallest: seq<Byte>, largest: seq<Byte>)

  /** deletedFiles is a std::set: pairs in increasing order. */
  datatype VersionEdit = VersionEdit(
    comparator: Option<seq<Byte>>, logNumber: Option<nat>, prevLogNumber: Option<nat>, nextFileNumber: Option<nat>,
    lastSequence: Option<nat>, compactPointers: seq<(nat, seq<Byte>)>, deletedFiles: seq<(nat, nat)>,
    newFiles: seq<(nat, FileMetaData)>)

  /** One tagged field of a record. */
  datatype Field =
    | Comparator(name: seq<Byte>)
    | LogNumber(number: nat)
    | PrevLogNumber(number: nat)
    | NextFileNumber(number: nat)
    | LastSequence(number: nat)
    | CompactPointer(level: nat, key: seq<Byte>)
    | DeletedFile(level: nat, number: nat)
    | NewFile(level: nat, file: FileMetaData)

  // ---------------------------------------------------------------- encoding

  function EncodeField(f: Field): (bytes: seq<Byte>)
    ensures |bytes| > 0
  {
    match f
    case Comparator(name) => Varint(COMPARATOR) + LengthPrefixed(name)
    case LogNumber(n) => Varint(LOG_NUMBER) + Varint(n)
    case PrevLogNumber(n) => Varint(PREV_LOG_NUMBER) + Varint(n)
    case NextFileNumber(n) => Varint(NEXT_FILE_NUMBER) + Varint(n)
    case LastSequence(n) => Varint(LAST_SEQUENCE) + Varint(n)
    case CompactPointer(level, key) => Varint(COMPACT_POINTER) + (Varint(level) + LengthPrefixed(key))
    case DeletedFile(level, n) => Varint(DELETED_FILE) + (Varint(level) + Varint(n))
    case NewFile(level, m) =>
      Varint(NEW_FILE) + (Varint(level) + (Varint(m.number) + (Varint(m.fileSize) +
        (LengthPrefixed(m.smallest) + LengthPrefixed(m.largest)))))
  }

  lemma TagByte(tag: nat)
    requires tag < 128
    ensures Varint(tag) == [tag]
  {
  }

  /** The tag of each field is one byte, and what follows it. */
  lemma FieldBytes(number: nat, s: seq<Byte>)
    ensures EncodeField(Comparator(s)) == [1] + Varint(|s|) + s
    ensures EncodeField(LogNumber(number)) == [2] + Varint(number)
    ensures EncodeField(NextFileNumber(number)) == [3] + Varint(number)
    ensures EncodeField(LastSequence(number)) == [4] + Varint(number)
    ensures EncodeField(PrevLogNumber(number)) == [9] + Varint(number)
  {
    hide Varint;
    TagByte(1);
    TagByte(2);
    TagByte(3);
    TagByte(4);
    TagByte(9);
  }

  lemma LevelFieldBytes(level: nat, key: seq<Byte>, number: nat, m: FileMetaData)
    ensures EncodeField(CompactPointer(level, key)) == [5] + Varint(level) + Varint(|key|) + key
    ensures EncodeField(DeletedFile(level, number)) == [6] + Varint(level) + Varint(number)
  {
    hide Varint;
    TagByte(5);
    TagByte(6);
  }

  lemma NewFileBytes(level: nat, m: FileMetaData)
    ensures EncodeField(NewFile(level, m)) ==
              [7] + Varint(level) + Varint(m.number) + Varint(m.fileSize)
              + Varint(|m.smallest|) + m.smallest + Varint(|m.largest|) + m.largest
  {
    hide Varint;
    TagByte(7);
    var a, b, c, d := [7], Varint(level), Varint(m.number), Varint(m.fileSize);
    var e, f := LengthPrefixed(m.smallest), LengthPrefixed(m.largest);
    Flatten(a, b, c, d, e, f);
    var front := a + b + c + d;
    assert front + e == front + Varint(|m.smallest|) + m.smallest;
    assert (front + e) + f == (front + e) + Varint(|m.largest|) + m.largest;
  }

  lemma Flatten(a: seq<Byte>, b: seq<Byte>, c: seq<Byte>, d: seq<Byte>, e: seq<Byte>, f: seq<Byte>)
    ensures a + (b + (c + (d + (e + f)))) == a + b + c + d + e + f
  {
    assert c + (d + (e + f)) == c + d + e + f;
    assert a + (b + (c + d + e + f)) == a + b + (c + d + e + f);
  }

  function EncodeFields(fs: seq<Field>): seq<Byte> {
    if fs == [] then [] else EncodeField(fs[0]) + EncodeFields(fs[1..])
  }

  function Singles(e: VersionEdit): seq<Field> {
    (if e.comparator.Some? then [Comparator(e.comparator.value)] else [])
    + (if e.logNumber.Some? then [LogNumber(e.logNumber.value)] else [])
    + (if e.prevLogNumber.Some? then [PrevLogNumber(e.prevLogNumber.value)] else [])
    + (if e.nextFileNumber.Some? then [NextFileNumber(e.nextFileNumber.value)] else [])
    + (if e.lastSequence.Some? then [LastSequence(e.lastSequence.value)] else [])
  }

  function Pointers(ps: seq<(nat, seq<Byte>)>): (fs: seq<Field>)
    ensures |fs| == |ps|
  {
    seq(|ps|, i requires 0 <= i < |ps| => CompactPointer(ps[i].0, ps[i].1))
  }

  function Deletions(ds: seq<(nat, nat)>): (fs: seq<Field>)
    ensures |fs| == |ds|
  {
    seq(|ds|, i requires 0 <= i < |ds| => DeletedFile(ds[i].0, ds[i].1))
  }

  function Additions(ns: seq<(nat, FileMetaData)>): (fs: seq<Field>)
    ensures |fs| == |ns|
  {
    seq(|ns|, i requires 0 <= i < |ns| => NewFile(ns[i].0, ns[i].1))
  }

  /** The fields of an edit in the order in which EncodeTo writes them. */
  function Fields(e: VersionEdit): seq<Field> {
    Singles(e) + (Pointers(e.compactPointers) + (Deletions(e.deletedFiles) + Additions(e.newFiles)))
  }

  /** The numbers that are set come first, in this order, then pointers, deletions and new files. */
  lemma FieldsInOrder(e: VersionEdit, name: seq<Byte>, log: nat, prev: nat, next: nat, last: nat)
    requires e.comparator == Some(name) && e.logNumber == Some(log) && e.prevLogNumber == Some(prev)
    requires e.nextFileNumber == Some(next) && e.lastSequence == Some(last)
    ensures Fields(e) == [Comparator(name), LogNumber(log), PrevLogNumber(prev), NextFileNumber(next), LastSequence(last)]
                         + Pointers(e.compactPointers) + Deletions(e.deletedFiles) + Additions(e.newFiles)
  {
  }

  function Encoded(e: VersionEdit): seq<Byte> {
    EncodeFields(Fields(e))
  }

  lemma {:induction false} EncodeConcat(a: seq<Field>, b: seq<Field>)
    ensures EncodeFields(a + b) == EncodeFields(a) + EncodeFields(b)
  {
    hide EncodeField;
    if a == [] {
      assert a + b == b;
    } else {
      assert (a + b)[1..] == a[1..] + b && (a + b)[0] == a[0];
      EncodeConcat(a[1..], b);
    }
  }

  lemma EncodeSnoc(dst: seq<Byte>, fs: seq<Field>, f: Field)
    ensures dst + EncodeFields(fs + [f]) == dst + EncodeFields(fs) + EncodeField(f)
  {
    hide EncodeField;
    EncodeConcat(fs, [f]);
    assert [f][1..] == [] && EncodeFields([f]) == EncodeField(f) + [];
  }

  /** EncodeTo: the fields that are set, one after the other, then one loop for each list. */
  method EncodeTo(e: VersionEdit, dst: seq<Byte>) returns (dst': seq<Byte>)
    ensures dst' == dst + Encoded(e)
  {
    ghost var singles := Singles(e);
    dst' := EncodeSingles(e, dst);
    hide EncodeField, EncodeFields, Singles;
    ghost var done: seq<Field> := singles;
    for i := 0 to |e.compactPointers|
      invariant done == singles + Pointers(e.compactPointers)[..i] && dst' == dst + EncodeFields(done)
    {
      var f := CompactPointer(e.compactPointers[i].0, e.compactPointers[i].1);
      dst' := PutField(dst', f, dst, done);
      done := done + [f];
    }
    ghost var before := done;
    for i := 0 to |e.deletedFiles|
      invariant done == before + Deletions(e.deletedFiles)[..i] && dst' == dst + EncodeFields(done)
    {
      var f := DeletedFile(e.deletedFiles[i].0, e.deletedFiles[i].1);
      dst' := PutField(dst', f, dst, done);
      done := done + [f];
    }
    ghost var before' := done;
    for i := 0 to |e.newFiles|
      invariant done == before' + Additions(e.newFiles)[..i] && dst' == dst + EncodeFields(done)
    {
      var f := NewFile(e.newFiles[i].0, e.newFiles[i].1);
      dst' := PutField(dst', f, dst, done);
      done := done + [f];
    }
    assert done == Fields(e);
  }

  /** One branch for each field that may be set. */
  method EncodeSingles(e: VersionEdit, dst: seq<Byte>) returns (dst': seq<Byte>)
    ensures dst' == dst + EncodeFields(Singles(e))
  {
    dst' := dst;
    ghost var done: seq<Field> := [];
    NoFields();
    hide EncodeFields;
    if e.comparator.Some? {
      dst' := PutField(dst', Comparator(e.comparator.value), dst, done);
      done := done + [Comparator(e.comparator.value)];
    }
    if e.logNumber.Some? {
      dst' := PutField(dst', LogNumber(e.logNumber.value), dst, done);
      done := done + [LogNumber(e.logNumber.value)];
    }
    if e.prevLogNumber.Some? {
      dst' := PutField(dst', PrevLogNumber(e.prevLogNumber.value), dst, done);
      done := done + [PrevLogNumber(e.prevLogNumber.value)];
    }
    if e.nextFileNumber.Some? {
      dst' := PutField(dst', NextFileNumber(e.nextFileNumber.value), dst, done);
      done := done + [NextFileNumber(e.nextFileNumber.value)];
    }
    if e.lastSequence.Some? {
      dst' := PutField(dst', LastSequence(e.lastSequence.value), dst, done);
      done := done + [LastSequence(e.lastSequence.value)];
    }
    assert done == Singles(e);
  }

  method PutField(dst: seq<Byte>, f: Field, ghost dst0: seq<Byte>, ghost done: seq<Field>) returns (dst': seq<Byte>)
    requires dst == dst0 + EncodeFields(done)
    ensures dst' == dst0 + EncodeFields(done + [f])
  {
    hide EncodeField, EncodeFields;
    EncodeSnoc(dst0, done, f);
    dst' := dst + EncodeField(f);
  }

  lemma NoFields()
    ensures EncodeFields([]) == []
  {
  }

  // ---------------------------------------------------------------- decoding

  /** A value and the rest of the input. */
  type Read<T> = Option<(T, seq<Byte>)>

  function Number(input: seq<Byte>): (r: Read<nat>)
    ensures r.Some? ==> |r.value.1| < |input|
  {
    match GetVarint64(input)
    case None => None
    case Some((v, n)) => Some((v, input[n..]))
  }

  function Tag(input: seq<Byte>): (r: Read<nat>)
    ensures r.Some? ==> |r.value.1| < |input|
  {
    match GetVarint32(input)
    case None => None
    case Some((v, n)) => Some((v as nat, input[n..]))
  }

  function Level(input: seq<Byte>): (r: Read<nat>)
    ensures r.Some? ==> |r.value.1| < |input|
  {
    var v := Tag(input);
    if v.Some? && v.value.0 < Versions.NUM_LEVELS then v else None
  }

  function ParseFile(input: seq<Byte>): (r: Read<FileMetaData>)
    ensures r.Some? ==> |r.value.1| < |input|
  {
    match Number(input)
    case None => None
    case Some((number, i1)) =>
      match Number(i1)
      case None => None
      case Some((size, i2)) =>
        match GetLengthPrefixedSlice(i2)
        case None => None
        case Some((smallest, i3)) =>
          match GetLengthPrefixedSlice(i3)
          case None => None
          case Some((largest, i4)) => Some((FileMetaData(number, size, smallest, largest), i4))
  }

  /** What follows a tag. */
  function ParseTagged(tag: nat, input: seq<Byte>): (r: Read<Field>)
    ensures r.Some? ==> |r.value.1| <= |input|
  {
    if tag == COMPARATOR then
      match GetLengthPrefixedSlice(input)
      case None => None
      case Some((name, rest)) => Some((Comparator(name), rest))
    else if tag == LOG_NUMBER || tag == PREV_LOG_NUMBER || tag == NEXT_FILE_NUMBER || tag == LAST_SEQUENCE then
      match Number(input)
      case None => None
      case Some((n, rest)) =>
        Some((if tag == LOG_NUMBER then LogNumber(n) else if tag == PREV_LOG_NUMBER then PrevLogNumber(n)
              else if tag == NEXT_FILE_NUMBER then NextFileNumber(n) else LastSequence(n), rest))
    else if tag == COMPACT_POINTER || tag == DELETED_FILE || tag == NEW_FILE then
      match Level(input)
      case None => None
      case Some((level, i1)) => ParseAtLevel(tag, level, i1)
    else None
  }

  function ParseAtLevel(tag: nat, level: nat, input: seq<Byte>): (r: Read<Field>)
    ensures r.Some? ==> |r.value.1| <= |input|
  {
    if tag == COMPACT_POINTER then
      match GetLengthPrefixedSlice(input)
      case None => None
      case Some((key, rest)) => Some((CompactPointer(level, key), rest))
    else if tag == DELETED_FILE then
      match Number(input)
      case None => None
      case Some((n, rest)) => Some((DeletedFile(level, n), rest))
    else
      match ParseFile(input)
      case None => None
      case Some((file, rest)) => Some((NewFile(level, file), rest))
  }

  /** std::set::insert. */
  function InsertPair(ds: seq<(nat, nat)>, d: (nat, nat)): seq<(nat, nat)> {
    if ds == [] || PairLess(ds[|ds| - 1], d) then ds + [d]
    else if ds[|ds| - 1] == d then ds
    else InsertPair(ds[..|ds| - 1], d) + [ds[|ds| - 1]]
  }

  predicate PairLess(a: (nat, nat), b: (nat, nat)) {
    a.0 < b.0 || (a.0 == b.0 && a.1 < b.1)
  }

  function ApplyField(e: VersionEdit, f: Field): VersionEdit {
    match f
    case Comparator(name) => e.(comparator := Some(name))
    case LogNumber(n) => e.(logNumber := Some(n))
    case PrevLogNumber(n) => e.(prevLogNumber := Some(n))
    case NextFileNumber(n) => e.(nextFileNumber := Some(n))
    case LastSequence(n) => e.(lastSequence := Some(n))
    case CompactPointer(level, key) => e.(compactPointers := e.compactPointers + [(level, key)])
    case DeletedFile(level, n) => e.(deletedFiles := InsertPair(e.deletedFiles, (level, n)))
    case NewFile(level, file) => e.(newFiles := e.newFiles + [(level, file)])
  }

  /** The edit after the fields of the input, and whether the whole input was well formed. */
  function DecodeFields(e: VersionEdit, input: seq<Byte>): (r: (VersionEdit, bool))
    decreases |input|
  {
    match Tag(input)
    case None => (e, input == [])
    case Some((tag, rest)) =>
      match ParseTagged(tag, rest)
      case None => (e, false)
      case Some((f, rest')) => DecodeFields(ApplyField(e, f), rest')
  }

  /** Clear forgets everything except the compaction pointers. */
  function Cleared(e: VersionEdit): VersionEdit {
    VersionEdit(None, None, None, None, None, e.compactPointers, [], [])
  }

  method DecodeFrom(e: VersionEdit, src: seq<Byte>) returns (e': VersionEdit, ok: bool)
    ensures (e', ok) == DecodeFields(Cleared(e), src)
  {
    hide Tag, ParseTagged, ApplyField;
    var input := src;
    e' := Cleared(e);
    var tag := Tag(input);
    while tag.Some?
      invariant tag == Tag(input)
      invariant DecodeFields(e', input) == DecodeFields(Cleared(e), src)
      decreases |input|
    {
      var field := ParseTagged(tag.value.0, tag.value.1);
      if field.None? {
        return e', false;
      }
      e' := ApplyField(e', field.value.0);
      input := field.value.1;
      tag := Tag(input);
    }
    ok := input == [];
  }

  // ---------------------------------------------------------------- round trip

  ghost predicate Short(s: seq<Byte>) {
    |s| < 0x1_0000_0000
  }

  ghost predicate FieldFits(f: Field) {
    match f
    case Comparator(name) => Short(name)
    case CompactPointer(level, key) => level < Versions.NUM_LEVELS && Short(key)
    case DeletedFile(level, n) => level < Versions.NUM_LEVELS && Fits64(n)
    case NewFile(level, m) =>
      level < Versions.NUM_LEVELS && Fits64(m.number) && Fits64(m.fileSize) && Short(m.smallest) && Short(m.largest)
    case _ => Fits64(f.number)
  }

  lemma NumberRoundTrip(n: nat, rest: seq<Byte>)
    requires Fits64(n)
    ensures Number(Varint(n) + rest) == Some((n, rest))
  {
    hide Varint, GetVarint64;
    Varint64RoundTrip(n, rest);
  }

  lemma TagRoundTrip(n: nat, rest: seq<Byte>)
    requires n < 0x1_0000_0000
    ensures Tag(Varint(n) + rest) == Some((n, rest))
  {
    hide Varint, GetVarint32;
    Varint32RoundTrip(n, rest);
  }

  lemma FileRoundTrip(m: FileMetaData, rest: seq<Byte>)
    requires Fits64(m.number) && Fits64(m.fileSize) && Short(m.smallest) && Short(m.largest)
    ensures ParseFile(Varint(m.number) + (Varint(m.fileSize) + (LengthPrefixed(m.smallest) + (LengthPrefixed(m.largest) + rest))))
              == Some((m, rest))
  {
    hide Varint, LengthPrefixed, GetLengthPrefixedSlice, Number;
    LengthPrefixedRoundTrip(m.largest, rest);
    LengthPrefixedRoundTrip(m.smallest, LengthPrefixed(m.largest) + rest);
    NumberRoundTrip(m.fileSize, LengthPrefixed(m.smallest) + (LengthPrefixed(m.largest) + rest));
    NumberRoundTrip(m.number, Varint(m.fileSize) + (LengthPrefixed(m.smallest) + (LengthPrefixed(m.largest) + rest)));
  }

  function TagOf(f: Field): nat {
    match f
    case Comparator(_) => COMPARATOR
    case LogNumber(_) => LOG_NUMBER
    case PrevLogNumber(_) => PREV_LOG_NUMBER
    case NextFileNumber(_) => NEXT_FILE_NUMBER
    case LastSequence(_) => LAST_SEQUENCE
    case CompactPointer(_, _) => COMPACT_POINTER
    case DeletedFile(_, _) => DELETED_FILE
    case NewFile(_, _) => NEW_FILE
  }

  /** The encoding of a field behind its tag. */
  function Payload(f: Field): seq<Byte> {
    match f
    case Comparator(name) => LengthPrefixed(name)
    case CompactPointer(level, key) => Varint(level) + LengthPrefixed(key)
    case DeletedFile(level, n) => Varint(level) + Varint(n)
    case NewFile(level, m) =>
      Varint(level) + (Varint(m.number) + (Varint(m.fileSize) + (LengthPrefixed(m.smallest) + LengthPrefixed(m.largest))))
    case _ => Varint(f.number)
  }

  lemma PayloadRoundTrip(f: Field, rest: seq<Byte>)
    requires FieldFits(f)
    ensures ParseTagged(TagOf(f), Payload(f) + rest) == Some((f, rest))
  {
    if f.CompactPointer? || f.DeletedFile? || f.NewFile? {
      AtLevelRoundTrip(f, rest);
    } else {
      SingleRoundTrip(f, rest);
    }
  }

  lemma SingleRoundTrip(f: Field, rest: seq<Byte>)
    requires FieldFits(f) && !f.CompactPointer? && !f.DeletedFile? && !f.NewFile?
    ensures ParseTagged(TagOf(f), Payload(f) + rest) == Some((f, rest))
  {
    hide Varint, LengthPrefixed, GetLengthPrefixedSlice, Number, Level, ParseAtLevel;
    if f.Comparator? {
      LengthPrefixedRoundTrip(f.name, rest);
    } else {
      NumberRoundTrip(f.number, rest);
    }
  }

  lemma AtLevelRoundTrip(f: Field, rest: seq<Byte>)
    requires FieldFits(f) && (f.CompactPointer? || f.DeletedFile? || f.NewFile?)
    ensures ParseTagged(TagOf(f), Payload(f) + rest) == Some((f, rest))
  {
    hide Varint, LengthPrefixed, GetLengthPrefixedSlice, Number, Tag, ParseFile;
    match f
    case CompactPointer(level, key) =>
      assert Payload(f) + rest == Varint(level) + (LengthPrefixed(key) + rest);
      TagRoundTrip(level, LengthPrefixed(key) + rest);
      LengthPrefixedRoundTrip(key, rest);
    case DeletedFile(level, n) =>
      assert Payload(f) + rest == Varint(level) + (Varint(n) + rest);
      TagRoundTrip(level, Varint(n) + rest);
      NumberRoundTrip(n, rest);
    case NewFile(level, m) =>
      var file := Varint(m.number) + (Varint(m.fileSize) + (LengthPrefixed(m.smallest) + (LengthPrefixed(m.largest) + rest)));
      assert Payload(f) + rest == Varint(level) + file;
      TagRoundTrip(level, file);
      FileRoundTrip(m, rest);
    case _ =>
  }

  function ApplyAll(e: VersionEdit, fs: seq<Field>): VersionEdit
    decreases fs
  {
    if fs == [] then e else ApplyAll(ApplyField(e, fs[0]), fs[1..])
  }

  lemma {:induction false} FieldsRoundTrip(e: VersionEdit, fs: seq<Field>)
    requires forall f :: f in fs ==> FieldFits(f)
    ensures DecodeFields(e, EncodeFields(fs)) == (ApplyAll(e, fs), true)
    decreases fs
  {
    hide ApplyField, EncodeField, Tag, ParseTagged, Payload, FieldFits;
    if fs == [] {
      NothingToDecode(e);
    } else {
      var f, rest := fs[0], EncodeFields(fs[1..]);
      TagAndPayload(f, rest);
      PayloadRoundTrip(f, rest);
      FieldsRoundTrip(ApplyField(e, f), fs[1..]);
    }
  }

  lemma NothingToDecode(e: VersionEdit)
    ensures DecodeFields(e, []) == (e, true)
  {
  }

  lemma TagAndPayload(f: Field, rest: seq<Byte>)
    ensures Tag(EncodeField(f) + rest) == Some((TagOf(f), Payload(f) + rest))
  {
    hide Varint, LengthPrefixed, Tag;
    assert EncodeField(f) + rest == Varint(TagOf(f)) + (Payload(f) + rest);
    TagRoundTrip(TagOf(f), Payload(f) + rest);
  }

  lemma {:induction false} ApplyConcat(e: VersionEdit, a: seq<Field>, b: seq<Field>)
    ensures ApplyAll(e, a + b) == ApplyAll(ApplyAll(e, a), b)
    decreases a
  {
    hide ApplyField;
    if a == [] {
      assert a + b == b;
    } else {
      assert (a + b)[1..] == a[1..] + b && (a + b)[0] == a[0];
      ApplyConcat(ApplyField(e, a[0]), a[1..], b);
    }
  }

  lemma ApplyOne(e: VersionEdit, f: Field)
    ensures ApplyAll(e, [f]) == ApplyField(e, f)
  {
    hide ApplyField;
    assert [f][1..] == [];
  }

  lemma {:induction false} ApplyPointers(e: VersionEdit, ps: seq<(nat, seq<Byte>)>)
    ensures ApplyAll(e, Pointers(ps)) == e.(compactPointers := e.compactPointers + ps)
  {
    if ps == [] {
      assert e.compactPointers + ps == e.compactPointers;
    } else {
      var init, p := ps[..|ps| - 1], ps[|ps| - 1];
      ApplyPointers(e, init);
      assert Pointers(ps) == Pointers(init) + [CompactPointer(p.0, p.1)];
      ApplyConcat(e, Pointers(init), [CompactPointer(p.0, p.1)]);
      ApplyOne(ApplyAll(e, Pointers(init)), CompactPointer(p.0, p.1));
      assert e.compactPointers + init + [p] == e.compactPointers + ps;
    }
  }

  ghost predicate SortedPairs(ds: seq<(nat, nat)>) {
    forall i, j :: 0 <= i < j < |ds| ==> PairLess(ds[i], ds[j])
  }

  lemma {:induction false} ApplyDeletions(e: VersionEdit, ds: seq<(nat, nat)>)
    requires e.deletedFiles == [] && SortedPairs(ds)
    ensures ApplyAll(e, Deletions(ds)) == e.(deletedFiles := ds)
  {
    if ds != [] {
      var init, d := ds[..|ds| - 1], ds[|ds| - 1];
      ApplyDeletions(e, init);
      assert Deletions(ds) == Deletions(init) + [DeletedFile(d.0, d.1)];
      ApplyConcat(e, Deletions(init), [DeletedFile(d.0, d.1)]);
      ApplyOne(ApplyAll(e, Deletions(init)), DeletedFile(d.0, d.1));
      assert InsertPair(init, d) == init + [d] == ds;
    }
  }

  lemma {:induction false} ApplyAdditions(e: VersionEdit, ns: seq<(nat, FileMetaData)>)
    ensures ApplyAll(e, Additions(ns)) == e.(newFiles := e.newFiles + ns)
  {
    if ns == [] {
      assert e.newFiles + ns == e.newFiles;
    } else {
      var init, n := ns[..|ns| - 1], ns[|ns| - 1];
      ApplyAdditions(e, init);
      assert Additions(ns) == Additions(init) + [NewFile(n.0, n.1)];
      ApplyConcat(e, Additions(init), [NewFile(n.0, n.1)]);
      ApplyOne(ApplyAll(e, Additions(init)), NewFile(n.0, n.1));
      assert e.newFiles + init + [n] == e.newFiles + ns;
    }
  }

  lemma ApplySingles(x: VersionEdit, e: VersionEdit)
    requires x == Cleared(x)
    ensures ApplyAll(x, Singles(e)) ==
              VersionEdit(e.comparator, e.logNumber, e.prevLogNumber, e.nextFileNumber, e.lastSequence, x.compactPointers, [], [])
  {
    var a := if e.comparator.Some? then [Comparator(e.comparator.value)] else [];
    var b := if e.logNumber.Some? then [LogNumber(e.logNumber.value)] else [];
    var c := if e.prevLogNumber.Some? then [PrevLogNumber(e.prevLogNumber.value)] else [];
    var d := if e.nextFileNumber.Some? then [NextFileNumber(e.nextFileNumber.value)] else [];
    var f := if e.lastSequence.Some? then [LastSequence(e.lastSequence.value)] else [];
    var xa := x.(comparator := e.comparator);
    var xb := xa.(logNumber := e.logNumber);
    var xc := xb.(prevLogNumber := e.prevLogNumber);
    var xd := xc.(nextFileNumber := e.nextFileNumber);
    assert ApplyAll(x, a) == xa by { if e.comparator.Some? { ApplyOne(x, a[0]); } }
    assert ApplyAll(xa, b) == xb by { if e.logNumber.Some? { ApplyOne(xa, b[0]); } }
    assert ApplyAll(xb, c) == xc by { if e.prevLogNumber.Some? { ApplyOne(xb, c[0]); } }
    assert ApplyAll(xc, d) == xd by { if e.nextFileNumber.Some? { ApplyOne(xc, d[0]); } }
    assert ApplyAll(xd, f) == xd.(lastSequence := e.lastSequence) by { if e.lastSequence.Some? { ApplyOne(xd, f[0]); } }
    hide ApplyAll;
    ApplyConcat(x, a, b);
    ApplyConcat(x, a + b, c);
    ApplyConcat(x, a + b + c, d);
    ApplyConcat(x, a + b + c + d, f);
  }

  ghost predicate EditFits(e: VersionEdit) {
    SortedPairs(e.deletedFiles) && forall f :: f in Fields(e) ==> FieldFits(f)
  }

  /** Decoding an encoded edit into an edit object gives back every field; compaction pointers that the
      object held before stay in front, because Clear does not touch them. */
  lemma EditRoundTrip(old': VersionEdit, e: VersionEdit)
    requires EditFits(e)
    ensures DecodeFields(Cleared(old'), Encoded(e)) == (e.(compactPointers := old'.compactPointers + e.compactPointers), true)
  {
    hide FieldFits, ApplyAll, EncodeFields, DecodeFields;
    var x := Cleared(old');
    FieldsRoundTrip(x, Fields(e));
    var b, c, d := Pointers(e.compactPointers), Deletions(e.deletedFiles), Additions(e.newFiles);
    ApplyConcat(x, Singles(e), b + (c + d));
    ApplySingles(x, e);
    var x1 := ApplyAll(x, Singles(e));
    ApplyConcat(x1, b, c + d);
    ApplyPointers(x1, e.compactPointers);
    var x2 := ApplyAll(x1, b);
    ApplyConcat(x2, c, d);
    ApplyDeletions(x2, e.deletedFiles);
    var x3 := ApplyAll(x2, c);
    ApplyAdditions(x3, e.newFiles);
    assert x3.newFiles + e.newFiles == e.newFiles;
  }

  /** Decoding inverts encoding exactly when the object decoded into holds no compaction pointers. */
  lemma DecodeInvertsEncode(old': VersionEdit, e: VersionEdit)
    requires EditFits(e)
    ensures DecodeFields(Cleared(old'), Encoded(e)) == (e, true) <==> old'.compactPointers == []
  {
    hide FieldFits, Encoded, DecodeFields;
    EditRoundTrip(old', e);
    var before := old'.compactPointers;
    assert |before + e.compactPointers| == |before| + |e.compactPointers|;
    assert before == [] ==> before + e.compactPointers == e.compactPointers;
  }

  const NO_EDIT := VersionEdit(None, None, None, None, None, [], [], [])

  /** The records of a manifest, decoded one by one into fresh edits. */
  function DecodeRecords(rs: seq<Record>): (seq<VersionEdit>) {
    if rs == [] then [] else DecodeRecords(rs[..|rs| - 1]) + [DecodeFields(NO_EDIT, rs[|rs| - 1]).0]
  }

  function EncodeEdits(es: seq<VersionEdit>): (rs: seq<Record>)
    ensures |rs| == |es|
  {
    seq(|es|, i requires 0 <= i < |es| => Encoded(es[i]))
  }

  lemma {:induction false} DecodeRecordsOf(es: seq<VersionEdit>)
    requires forall e :: e in es ==> EditFits(e)
    ensures DecodeRecords(EncodeEdits(es)) == es
  {
    hide Encoded, DecodeFields, EditFits;
    if es != [] {
      var init, last := es[..|es| - 1], es[|es| - 1];
      DecodeRecordsOf(init);
      assert EncodeEdits(es)[..|es| - 1] == EncodeEdits(init);
      DecodeInvertsEncode(NO_EDIT, last);
    }
  }

  /** A manifest file reads back as the edits that were written to it, and a manifest that a crash cut
      off as the first of them. */
  lemma ManifestReadsBack(es: seq<VersionEdit>, cut: nat)
    requires (forall e :: e in es ==> EditFits(e)) && cut <= |LogBytes(EncodeEdits(es))|
    ensures DecodeRecords(ReadAll(LogBytes(EncodeEdits(es))[..cut], 0).0) == es[..CompleteRecords(EncodeEdits(es), cut)]
  {
    hide LogBytes, ReadAll, EditFits, Encoded, DecodeRecords, CompleteRecords;
    TruncatedLogReadsPrefix(EncodeEdits(es), cut);
    var k := CompleteRecords(EncodeEdits(es), cut);
    assert EncodeEdits(es)[..k] == EncodeEdits(es[..k]);
    DecodeRecordsOf(es[..k]);
  }
}
