/** Internal keys, entries and sorted runs of entries (db/dbformat.h, db/dbformat.cc).

    A user key is represented by its rank in the user comparator's order.  Ranks are reals, and
    module Bytewise proves that the bytewise comparator embeds into them, so nothing below depends
    on what a key looks like, only on how it compares. */
module Keys {
  type UserKey = real
  type Bytes = seq<int>

  datatype Option<+T> = None | Some(value: T)

  // The numeric values 0 and 1 are part of the packed tag, see Tag.
  datatype ValueType = TypeDeletion | TypeValue

  const TYPE_FOR_SEEK := TypeValue
  const MAX_SEQUENCE: nat := 0xff_ffff_ffff_ffff  // 2^56 - 1

  datatype IKey = IKey(ukey: UserKey, seqno: nat, typ: ValueType)

  datatype Entry = Entry(key: IKey, value: Bytes)

  function PackSequenceAndType(seqno: nat, typ: ValueType): nat {
    seqno * 256 + (if typ.TypeValue? then 1 else 0)
  }

  /** The trailing eight bytes of an internal key, read as a number. */
  function Tag(k: IKey): nat {
    PackSequenceAndType(k.seqno, k.typ)
  }

  /** Increasing user key, then decreasing sequence number, then decreasing type. */
  predicate Less(a: IKey, b: IKey) {
    a.ukey < b.ukey || (a.ukey == b.ukey && Tag(a) > Tag(b))
  }

  /** The packed tag orders by decreasing sequence number, then a value before a deletion. */
  lemma LessMeans(a: IKey, b: IKey)
    ensures Less(a, b) <==>
              || a.ukey < b.ukey
              || (a.ukey == b.ukey && a.seqno > b.seqno)
              || (a.ukey == b.ukey && a.seqno == b.seqno && a.typ.TypeValue? && b.typ.TypeDeletion?)
  {
  }

  predicate AtMost(a: IKey, b: IKey) {
    a == b || Less(a, b)
  }

  /** The comparator's three-way result. */
  function Compare(a: IKey, b: IKey): (r: int)
    ensures r < 0 <==> Less(a, b)
    ensures r > 0 <==> Less(b, a)
    ensures r == 0 <==> a == b
  {
    if a.ukey < b.ukey then -1
    else if a.ukey > b.ukey then 1
    else if Tag(a) > Tag(b) then -1
    else if Tag(a) < Tag(b) then 1
    else 0
  }

  /** Where a search for the newest entry of k at or below sequence number s starts. */
  function LookupKey(k: UserKey, s: nat): IKey {
    IKey(k, s, TYPE_FOR_SEEK)
  }

  ghost predicate Sorted(es: seq<Entry>) {
    forall i, j :: 0 <= i < j < |es| ==> Less(es[i].key, es[j].key)
  }

  /** How many entries of a sorted run are before a target: the position a seek stops at. */
  function LowerBound(es: seq<Entry>, target: IKey): (n: nat)
    ensures n <= |es|
    ensures forall i :: 0 <= i < n ==> Less(es[i].key, target)
    ensures n < |es| ==> !Less(es[n].key, target)
  {
    if es == [] || !Less(es[0].key, target) then 0 else 1 + LowerBound(es[1..], target)
  }

  /** A seek position splits a sorted run into what is before the target and what is not. */
  lemma LowerBoundSplits(es: seq<Entry>, target: IKey, i: nat)
    requires Sorted(es) && i < |es|
    ensures Less(es[i].key, target) <==> i < LowerBound(es, target)
  {
  }

  /** An entry of user key k is visible at sequence number s exactly when it is not before the
      lookup key; the seek therefore steps over the entries that are too new. */
  lemma VisibleIffNotBefore(key: IKey, k: UserKey, s: nat)
    requires key.ukey == k
    ensures key.seqno <= s <==> !Less(key, LookupKey(k, s))
  {
  }

  /** Insertion of a new key into a sorted run: what SkipList::Insert does to the list of all nodes. */
  function Insert(es: seq<Entry>, e: Entry): seq<Entry> {
    if es == [] || Less(e.key, es[0].key) then [e] + es else [es[0]] + Insert(es[1..], e)
  }

  lemma {:induction false} InsertSorted(es: seq<Entry>, e: Entry)
    requires Sorted(es) && forall x :: x in es ==> x.key != e.key
    ensures Sorted(Insert(es, e))
    ensures forall x :: x in Insert(es, e) <==> x in es || x == e
  {
    if es != [] && !Less(e.key, es[0].key) {
      InsertSorted(es[1..], e);
      var rest := Insert(es[1..], e);
      assert es == [es[0]] + es[1..];
      assert es[0] in es;
      forall j | 0 <= j < |rest| ensures Less(es[0].key, rest[j].key) {
        assert rest[j] in rest;
      }
    }
  }
}
