/** A merging iterator behind the iterator interface: what an iterator over a database stands on. */
module MergedCursors {
  import opened Keys
  import opened Cursors
  import opened Merger

  ghost function Footprint(iter: MergingIterator): set<object> {
    {iter as object} + set i | 0 <= i < |iter.children| :: iter.children[i] as object
  }

  class MergedCursor {
    const iter: MergingIterator
    ghost const entries: seq<Entry>
    ghost const repr: set<object>
    ghost var pos: nat

    ghost predicate Ok()
      reads this, repr
      ensures Ok() ==> pos <= |entries| && Sorted(entries) && repr == Footprint(iter)
    {
      && repr == Footprint(iter) && this !in repr
      && iter.Ok() && Sorted(entries) && iter.merged == entries && pos == iter.Pos() && pos <= |entries|
      && (iter.Valid() <==> pos < |entries|)
    }

    predicate Valid()
      requires Ok()
      reads this, repr
      ensures Valid() <==> pos < |entries|
    {
      iter.Valid()
    }

    function Entry(): Entry
      requires Ok() && Valid()
      reads this, repr
      ensures pos < |entries| && Entry() == entries[pos]
    {
      iter.CurrentIsAtPos();
      iter.Entry()
    }

    constructor (iter: MergingIterator)
      requires iter.Ok() && !iter.Valid() && Sorted(iter.merged)
      ensures Ok() && !Valid() && this.iter == iter && entries == iter.merged
      ensures repr == Footprint(iter)
    {
      this.iter := iter;
      entries := iter.merged;
      repr := Footprint(iter);
      pos := |iter.merged|;
    }

    method SeekToFirst()
      requires Ok()
      modifies this, repr
      ensures Ok() && pos == 0
    {
      iter.SeekToFirst();
      Moved();
    }

    method SeekToLast()
      requires Ok()
      modifies this, repr
      ensures Ok() && pos == LastOf(|entries|)
    {
      iter.SeekToLast();
      Moved();
    }

    method Seek(target: IKey)
      requires Ok()
      modifies this, repr
      ensures Ok() && pos == LowerBound(entries, target)
    {
      iter.Seek(target);
      Moved();
    }

    method Next()
      requires Ok() && Valid()
      modifies this, repr
      ensures Ok() && pos == old(pos) + 1
    {
      iter.Next();
      Moved();
    }

    method Prev()
      requires Ok() && Valid()
      modifies this, repr
      ensures Ok() && pos == Before(old(pos), |entries|)
    {
      iter.Prev();
      Moved();
    }

    /** The position follows the merging iterator. */
    ghost method Moved()
      requires repr == Footprint(iter) && this !in repr
      requires iter.Ok() && Sorted(entries) && iter.merged == entries
      modifies `pos
      ensures Ok() && pos == old(iter.Pos())
    {
      pos := iter.Pos();
      if iter.Valid() { iter.CurrentIsAtPos(); }
    }
  }
}
