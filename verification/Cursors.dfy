/** The iterator interface as a position in one sorted run of entries (include/leveldb/iterator.h).
    The iterators over memtables, blocks, tables, levels and merged runs all have this meaning; an
    invalid iterator is a position past the end, whichever end it ran off. */
module Cursors {
  import opened Keys

  /** The way an iterator is moving. */
  datatype Direction = Forward | Reverse

  /** The position Prev moves to. */
  function Before(pos: nat, len: nat): nat {
    if pos == 0 then len else pos - 1
  }

  function LastOf(len: nat): nat {
    if len == 0 then 0 else len - 1
  }

  class Cursor {
    const entries: seq<Entry>
    var pos: nat

    ghost predicate Ok()
      reads this
    {
      Sorted(entries) && pos <= |entries|
    }

    predicate Valid()
      reads this
    {
      pos < |entries|
    }

    function Entry(): Entry
      requires Valid()
      reads this
    {
      entries[pos]
    }

    constructor (entries: seq<Entry>)
      requires Sorted(entries)
      ensures Ok() && this.entries == entries && !Valid()
    {
      this.entries := entries;
      pos := |entries|;
    }

    method SeekToFirst()
      requires Ok()
      modifies this
      ensures Ok() && pos == 0
    {
      pos := 0;
    }

    method SeekToLast()
      requires Ok()
      modifies this
      ensures Ok() && pos == LastOf(|entries|)
    {
      pos := LastOf(|entries|);
    }

    method Seek(target: IKey)
      requires Ok()
      modifies this
      ensures Ok() && pos == LowerBound(entries, target)
    {
      pos := LowerBound(entries, target);
    }

    method Next()
      requires Ok() && Valid()
      modifies this
      ensures Ok() && pos == old(pos) + 1
    {
      pos := pos + 1;
    }

    method Prev()
      requires Ok() && Valid()
      modifies this
      ensures Ok() && pos == Before(old(pos), |entries|)
    {
      pos := Before(pos, |entries|);
    }
  }

  /** In a sorted run the seek position of an entry's own key is that entry. */
  lemma LowerBoundOfEntry(es: seq<Entry>, i: nat)
    requires Sorted(es) && i < |es|
    ensures LowerBound(es, es[i].key) == i
  {
    LowerBoundSplits(es, es[i].key, i);
    if i > 0 { LowerBoundSplits(es, es[i].key, i - 1); }
  }
}
