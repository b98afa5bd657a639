/** DBIter (db/db_iter.cc): a cursor over the live user keys at a sequence number, on top of a merging
    iterator over all internal entries. */
module DbIterator {
  import opened Keys
  import opened Reads
  import opened Cursors
  import opened MergedCursors

  predicate VisibleAt(es: seq<Entry>, i: nat, s: nat)
    requires i < |es|
  {
    es[i].key.seqno <= s
  }

  /** Entry i is the newest visible one of its user key, and not a deletion marker. */
  ghost predicate IsLive(es: seq<Entry>, i: nat, s: nat)
    requires i < |es|
  {
    && VisibleAt(es, i, s) && es[i].key.typ.TypeValue?
    && forall j :: 0 <= j < i && es[j].key.ukey == es[i].key.ukey ==> !VisibleAt(es, j, s)
  }

  /** The live entries among the first n, in order: what a reader at s sees. */
  ghost function View(es: seq<Entry>, n: nat, s: nat): seq<Entry>
    requires n <= |es|
  {
    if n == 0 then [] else View(es, n - 1, s) + if IsLive(es, n - 1, s) then [es[n - 1]] else []
  }

  ghost predicate NoneLive(es: seq<Entry>, a: nat, b: nat, s: nat)
    requires a <= b <= |es|
  {
    forall j :: a <= j < b ==> !IsLive(es, j, s)
  }

  lemma {:induction false} ViewSkips(es: seq<Entry>, a: nat, b: nat, s: nat)
    requires a <= b <= |es| && NoneLive(es, a, b, s)
    ensures View(es, b, s) == View(es, a, s)
    decreases b - a
  {
    if a < b {
      ViewSkips(es, a, b - 1, s);
    }
  }

  lemma {:induction false} ViewPrefix(es: seq<Entry>, a: nat, b: nat, s: nat)
    requires a <= b <= |es|
    ensures |View(es, a, s)| <= |View(es, b, s)| && View(es, a, s) == View(es, b, s)[..|View(es, a, s)|]
    decreases b - a
  {
    if a < b {
      ViewPrefix(es, a, b - 1, s);
    }
  }

  /** A live entry is in the view at the position given by the live entries before it. */
  lemma ViewAt(es: seq<Entry>, i: nat, s: nat)
    requires i < |es| && IsLive(es, i, s)
    ensures |View(es, i + 1, s)| == |View(es, i, s)| + 1
    ensures |View(es, i, s)| < |View(es, |es|, s)|
    ensures View(es, |es|, s)[|View(es, i, s)|] == es[i]
  {
    ViewPrefix(es, i + 1, |es|, s);
  }

  class DBIter {
    const iter: MergedCursor
    const sequence: nat
    var savedKey: UserKey
    var savedValue: Bytes
    var direction: Direction
    var valid: bool

    ghost function Es(): seq<Entry> {
      iter.entries
    }

    /** How many entries the internal iterator, moving backwards, has not passed yet. */
    ghost function Left(): nat
      reads iter, iter.repr
    {
      if iter.pos < |Es()| then iter.pos + 1 else 0
    }

    /** Moving forward the internal iterator is on the current entry.  Moving backwards it is before
        all entries of the current user key, and possibly also before some that are too new. */
    ghost predicate Ok()
      reads this, iter, iter.repr
    {
      && iter.Ok()
      && (valid && direction.Forward? ==> iter.Valid() && IsLive(Es(), iter.pos, sequence))
      && (valid && direction.Reverse? ==> exists m: nat :: SavedAt(m))
    }

    /** The saved key and value are those of live entry m. */
    ghost predicate SavedAt(m: nat)
      requires iter.Ok()
      reads this, iter, iter.repr
    {
      && Left() <= m < |Es()| && IsLive(Es(), m, sequence)
      && Es()[m].key.ukey == savedKey && Es()[m].value == savedValue
      && (forall j :: 0 <= j < Left() ==> Es()[j].key.ukey < savedKey)
      && (forall j :: Left() <= j < m ==> !VisibleAt(Es(), j, sequence))
    }

    /** The live entries at this iterator's sequence number. */
    ghost function Live(): seq<Entry> {
      View(Es(), |Es()|, sequence)
    }

    /** The abstract position in the live entries; past the end when not valid. */
    ghost function Pos(): nat
      requires Ok()
      reads this, iter, iter.repr
    {
      if !valid then |Live()|
      else if direction.Forward? then |View(Es(), iter.pos, sequence)|
      else |View(Es(), Left(), sequence)|
    }

    function Key(): UserKey
      requires iter.Ok() && valid && (direction.Forward? ==> iter.Valid())
      reads this, iter, iter.repr
    {
      if direction.Forward? then iter.Entry().key.ukey else savedKey
    }

    function Value(): Bytes
      requires iter.Ok() && valid && (direction.Forward? ==> iter.Valid())
      reads this, iter, iter.repr
    {
      if direction.Forward? then iter.Entry().value else savedValue
    }

    constructor (iter: MergedCursor, sequence: nat)
      requires iter.Ok()
      ensures this.iter == iter && this.sequence == sequence && Ok() && !valid
    {
      this.iter := iter;
      this.sequence := sequence;
      savedKey, savedValue := 0.0, [];
      direction := Forward;
      valid := false;
    }

    /** What key() and value() return is the live entry at the abstract position. */
    lemma CurrentIsLive()
      requires Ok() && valid
      ensures Pos() < |Live()|
      ensures Live()[Pos()].key.ukey == Key() && Live()[Pos()].value == Value()
    {
      if direction.Forward? {
        ViewAt(Es(), iter.pos, sequence);
      } else {
        var m: nat :| SavedAt(m);
        ViewSkips(Es(), Left(), m, sequence);
        ViewAt(Es(), m, sequence);
      }
    }

    // -------------------------------------------------------------- forward

    /** FindNextUserEntry stops at the first live entry from here on that is past the key to skip. */
    method FindNextUserEntry(skip0: bool)
      requires iter.Ok() && iter.Valid() && direction == Forward
      requires SkipStart(skip0, savedKey, iter.pos)
      modifies this, iter, iter.repr
      ensures iter.Ok() && direction == Forward
      ensures valid ==>
                && old(iter.pos) <= iter.pos < |Es()| && IsLive(Es(), iter.pos, sequence)
                && Wanted(skip0, old(savedKey), iter.pos)
                && NoneWanted(skip0, old(savedKey), old(iter.pos), iter.pos)
      ensures !valid ==> NoneWanted(skip0, old(savedKey), old(iter.pos), |Es()|)
    {
      hide MergedCursor.Ok;
      var skipping := skip0;
      ghost var key0, p0 := savedKey, iter.pos;
      while iter.Valid()
        invariant iter.Ok() && direction == Forward && p0 <= iter.pos
        invariant NoneWanted(skip0, key0, p0, iter.pos)
        invariant EarlierHidden(skipping, savedKey, iter.pos)
        invariant skipping ==> forall q :: iter.pos <= q < |Es()| && Es()[q].key.ukey <= savedKey ==> !(IsLive(Es(), q, sequence) && Wanted(skip0, key0, q))
        invariant skip0 ==> skipping && key0 <= savedKey
        decreases |Es()| - iter.pos
      {
        var ikey := iter.Entry().key;
        if ikey.seqno <= sequence {
          if ikey.typ.TypeDeletion? {
            savedKey := ikey.ukey;
            skipping := true;
          } else if skipping && ikey.ukey <= savedKey {
          } else {
            valid := true;
            savedKey := 0.0;
            return;
          }
        }
        iter.Next();
      }
      savedKey := 0.0;
      valid := false;
    }

    /** An entry is past the key to skip, if there is one. */
    ghost predicate Wanted(skip: bool, key: UserKey, i: nat)
      requires i < |Es()|
    {
      skip ==> Es()[i].key.ukey > key
    }

    ghost predicate NoneWanted(skip: bool, key: UserKey, a: nat, b: nat)
      requires a <= b <= |Es()|
    {
      forall j :: a <= j < b ==> !(IsLive(Es(), j, sequence) && Wanted(skip, key, j))
    }

    /** A visible entry before position p has a smaller user key than all from p on, or is skipped. */
    ghost predicate EarlierHidden(skip: bool, key: UserKey, p: nat)
      requires p <= |Es()|
    {
      forall j :: 0 <= j < p && VisibleAt(Es(), j, sequence) ==>
        (skip && Es()[j].key.ukey <= key) || forall q :: p <= q < |Es()| ==> Es()[j].key.ukey < Es()[q].key.ukey
    }

    ghost predicate SkipStart(skip: bool, key: UserKey, p: nat)
      requires p <= |Es()|
    {
      && EarlierHidden(skip, key, p)
      && (skip ==> forall q :: p <= q < |Es()| && VisibleAt(Es(), q, sequence) ==> key <= Es()[q].key.ukey)
    }

    method Seek(target: UserKey)
      requires iter.Ok()
      modifies this, iter, iter.repr
      ensures Ok()
      ensures Pos() <= |Live()|
      ensures forall i :: 0 <= i < Pos() ==> Live()[i].key.ukey < target
      ensures forall i :: Pos() <= i < |Live()| ==> Live()[i].key.ukey >= target
    {
      hide MergedCursor.Ok;
      direction := Forward;
      savedValue := [];
      savedKey := target;
      iter.Seek(LookupKey(target, sequence));
      ghost var p := iter.pos;
      SeekStart(target, p);
      if iter.Valid() {
        FindNextUserEntry(false);
      } else {
        valid := false;
      }
      LandedForward(p);
      LiveSplit(target, p);
    }

    method SeekToFirst()
      requires iter.Ok()
      modifies this, iter, iter.repr
      ensures Ok() && Pos() == 0
    {
      hide MergedCursor.Ok;
      direction := Forward;
      savedValue := [];
      iter.SeekToFirst();
      if iter.Valid() {
        FindNextUserEntry(false);
      } else {
        valid := false;
      }
      LandedForward(0);
    }

    method Next()
      requires Ok() && valid
      modifies this, iter, iter.repr
      ensures Ok() && Pos() == old(Pos()) + 1
    {
      hide MergedCursor.Ok;
      ghost var m := Current();
      if direction == Reverse {
        direction := Forward;
        if !iter.Valid() {
          iter.SeekToFirst();
        } else {
          iter.Next();
        }
        // The saved entry is still ahead, so the early return that guards this point is never taken.
        assert iter.Valid();
      } else {
        savedKey := iter.Entry().key.ukey;
      }
      ghost var p, key := iter.pos, savedKey;
      ForwardSkipStart(m, p, key);
      FindNextUserEntry(true);
      LandedPast(m, p, key);
    }

    /** The position of the current live entry among all entries. */
    ghost function Current(): (m: nat)
      requires Ok() && valid
      reads this, iter, iter.repr
      ensures m < |Es()| && IsLive(Es(), m, sequence) && |View(Es(), m, sequence)| == Pos()
      ensures if direction.Forward? then m == iter.pos else SavedAt(m)
    {
      if direction.Forward? then iter.pos else
        var m: nat :| SavedAt(m);
        ViewSkips(Es(), Left(), m, sequence);
        m
    }

    // -------------------------------------------------------------- backward

    /** FindPrevUserEntry saves the last live entry before the internal position, if there is one. */
    method FindPrevUserEntry()
      requires iter.Ok() && direction == Reverse
      modifies this, iter, iter.repr
      ensures iter.Ok()
      ensures valid ==> direction == Reverse && exists m: nat :: SavedAt(m) && m < old(Left()) && NoneLive(Es(), m + 1, old(Left()), sequence)
      ensures !valid ==> NoneLive(Es(), 0, old(Left()), sequence)
    {
      hide MergedCursor.Ok;
      var valueType := TypeDeletion;
      ghost var end, m := Left(), 0;
      while iter.Valid()
        invariant iter.Ok() && Left() <= end && direction == Reverse
        invariant valueType.TypeDeletion? ==> NoneLive(Es(), Left(), end, sequence)
        invariant valueType.TypeValue? ==> Candidate(m, end)
        decreases Left()
      {
        var ikey := iter.Entry().key;
        if ikey.seqno <= sequence {
          if !valueType.TypeDeletion? && ikey.ukey < savedKey {
            break;
          }
          valueType := ikey.typ;
          m := iter.pos;
          if valueType.TypeDeletion? {
            savedKey, savedValue := 0.0, [];
          } else {
            savedKey, savedValue := ikey.ukey, iter.Entry().value;
          }
        }
        iter.Prev();
      }
      if valueType.TypeDeletion? {
        valid := false;
        savedKey, savedValue := 0.0, [];
        direction := Forward;
      } else {
        valid := true;
        CandidateIsLive(m, end);
      }
    }

    /** Entry m is the newest visible entry met so far of the last user key that may be live. */
    ghost predicate Candidate(m: nat, end: nat)
      requires iter.Ok() && end <= |Es()|
      reads this, iter, iter.repr
    {
      && Left() <= m < end
      && VisibleAt(Es(), m, sequence) && Es()[m].key.typ.TypeValue?
      && Es()[m].key.ukey == savedKey && Es()[m].value == savedValue
      && (forall j :: Left() <= j < m ==> !VisibleAt(Es(), j, sequence))
      && NoneLive(Es(), m + 1, end, sequence)
    }

    lemma CandidateIsLive(m: nat, end: nat)
      requires iter.Ok() && end <= |Es()| && Candidate(m, end)
      requires iter.Valid() ==> iter.Entry().key.ukey < savedKey
      ensures SavedAt(m)
    {
    }

    method SeekToLast()
      requires iter.Ok()
      modifies this, iter, iter.repr
      ensures Ok() && Pos() == LastOf(|Live()|)
    {
      hide MergedCursor.Ok;
      direction := Reverse;
      savedValue := [];
      iter.SeekToLast();
      ghost var end := Left();
      FindPrevUserEntry();
      LandedBackward(end);
    }

    method Prev()
      requires Ok() && valid
      modifies this, iter, iter.repr
      ensures Ok() && Pos() == Before(old(Pos()), |Live()|)
    {
      hide MergedCursor.Ok;
      ghost var m := Current();
      if direction == Forward {
        savedKey := iter.Entry().key.ukey;
        while true
          invariant iter.Ok() && iter.Valid() && iter.pos <= m
          invariant savedKey == Es()[m].key.ukey
          invariant forall j :: iter.pos <= j <= m ==> Es()[j].key.ukey == savedKey
          decreases iter.pos
        {
          iter.Prev();
          if !iter.Valid() {
            valid := false;
            savedKey, savedValue := 0.0, [];
            NoneBeforeCurrent(m, 0);
            return;
          }
          if iter.Entry().key.ukey < savedKey {
            break;
          }
        }
        direction := Reverse;
      }
      ghost var end := Left();
      NoneBeforeCurrent(m, end);
      FindPrevUserEntry();
      LandedBackward(end);
    }

    // -------------------------------------------------------------- positions

    lemma SeekStart(target: UserKey, p: nat)
      requires iter.Ok() && p == LowerBound(Es(), LookupKey(target, sequence))
      ensures SkipStart(false, 0.0, p)
      ensures forall j :: 0 <= j < p && VisibleAt(Es(), j, sequence) ==> Es()[j].key.ukey < target
      ensures forall j :: p <= j < |Es()| ==> Es()[j].key.ukey >= target
    {
      forall j | 0 <= j < |Es()|
        ensures j < p && VisibleAt(Es(), j, sequence) ==> Es()[j].key.ukey < target
        ensures j >= p ==> Es()[j].key.ukey >= target
      {
        LowerBoundSplits(Es(), LookupKey(target, sequence), j);
        if Es()[j].key.ukey == target { VisibleIffNotBefore(Es()[j].key, target, sequence); }
      }
    }

    /** Where a forward search that skips nothing lands in the view. */
    lemma LandedForward(p: nat)
      requires iter.Ok() && direction == Forward && p <= |Es()|
      requires valid ==> p <= iter.pos < |Es()| && IsLive(Es(), iter.pos, sequence) && NoneWanted(false, 0.0, p, iter.pos)
      requires !valid ==> NoneWanted(false, 0.0, p, |Es()|)
      ensures Ok() && Pos() == |View(Es(), p, sequence)|
    {
      var q := if valid then iter.pos else |Es()|;
      assert forall j :: p <= j < q ==> Wanted(false, 0.0, j);
      ViewSkips(Es(), p, q, sequence);
    }

    /** Where a forward search past the current user key lands. */
    lemma LandedPast(m: nat, p: nat, key: UserKey)
      requires iter.Ok() && direction == Forward && p <= m < |Es()|
      requires IsLive(Es(), m, sequence) && Es()[m].key.ukey == key
      requires forall j :: p <= j < m ==> !VisibleAt(Es(), j, sequence)
      requires valid ==> p <= iter.pos < |Es()| && IsLive(Es(), iter.pos, sequence)
                           && Wanted(true, key, iter.pos) && NoneWanted(true, key, p, iter.pos)
      requires !valid ==> NoneWanted(true, key, p, |Es()|)
      ensures Ok() && Pos() == |View(Es(), m, sequence)| + 1
    {
      var q := if valid then iter.pos else |Es()|;
      assert m < q;
      forall j | m < j < q ensures !IsLive(Es(), j, sequence) {
        assert Less(Es()[m].key, Es()[j].key);
        assert Es()[j].key.ukey > key ==> Wanted(true, key, j);
      }
      ViewAt(Es(), m, sequence);
      ViewSkips(Es(), m + 1, q, sequence);
    }

    /** The current live entry splits off everything visible before it. */
    lemma ForwardSkipStart(m: nat, p: nat, key: UserKey)
      requires iter.Ok() && p <= m < |Es()| && Es()[m].key.ukey == key
      requires forall j :: 0 <= j < p ==> Es()[j].key.ukey <= key
      requires forall j :: p <= j < m ==> !VisibleAt(Es(), j, sequence)
      ensures SkipStart(true, key, p)
    {
      forall q | p <= q < |Es()| && VisibleAt(Es(), q, sequence) ensures key <= Es()[q].key.ukey {
        assert q > m ==> Less(Es()[m].key, Es()[q].key);
      }
    }

    lemma LiveSplit(target: UserKey, p: nat)
      requires iter.Ok() && p <= |Es()|
      requires forall j :: 0 <= j < p && VisibleAt(Es(), j, sequence) ==> Es()[j].key.ukey < target
      requires forall j :: p <= j < |Es()| ==> Es()[j].key.ukey >= target
      ensures |View(Es(), p, sequence)| <= |Live()|
      ensures forall i :: 0 <= i < |View(Es(), p, sequence)| ==> Live()[i].key.ukey < target
      ensures forall i :: |View(Es(), p, sequence)| <= i < |Live()| ==> Live()[i].key.ukey >= target
    {
      ViewPrefix(Es(), p, |Es()|, sequence);
      forall i | 0 <= i < |Live()|
        ensures i < |View(Es(), p, sequence)| ==> Live()[i].key.ukey < target
        ensures |View(Es(), p, sequence)| <= i ==> Live()[i].key.ukey >= target
      {
        if i < |View(Es(), p, sequence)| {
          var j := ViewOrigin(Es(), 0, p, sequence, i);
        } else {
          var j := ViewOrigin(Es(), p, |Es()|, sequence, i);
        }
      }
    }

    lemma NoneBeforeCurrent(m: nat, end: nat)
      requires iter.Ok() && end <= m < |Es()| && IsLive(Es(), m, sequence)
      requires forall j :: end <= j < m ==> Es()[j].key.ukey == Es()[m].key.ukey || !VisibleAt(Es(), j, sequence)
      ensures |View(Es(), end, sequence)| == |View(Es(), m, sequence)|
    {
      ViewSkips(Es(), end, m, sequence);
    }

    /** Where a backward search from `end` lands in the view. */
    lemma LandedBackward(end: nat)
      requires iter.Ok() && end <= |Es()|
      requires valid ==> direction == Reverse && exists m: nat :: SavedAt(m) && m < end && NoneLive(Es(), m + 1, end, sequence)
      requires !valid ==> NoneLive(Es(), 0, end, sequence)
      ensures Ok() && Pos() == Before(|View(Es(), end, sequence)|, |Live()|)
    {
      hide VisibleAt;
      if valid {
        var m: nat :| SavedAt(m) && m < end && NoneLive(Es(), m + 1, end, sequence);
        ViewSkips(Es(), Left(), m, sequence);
        ViewAt(Es(), m, sequence);
        ViewSkips(Es(), m + 1, end, sequence);
      } else {
        ViewSkips(Es(), 0, end, sequence);
      }
    }
  }

  lemma {:induction false} ViewOrigin(es: seq<Entry>, a: nat, b: nat, s: nat, i: nat) returns (j: nat)
    requires a <= b <= |es| && |View(es, a, s)| <= i < |View(es, b, s)|
    ensures a <= j < b && IsLive(es, j, s) && View(es, b, s)[i] == es[j]
    decreases b - a
  {
    if i == |View(es, b - 1, s)| {
      j := b - 1;
    } else {
      j := ViewOrigin(es, a, b - 1, s, i);
    }
  }

  // ---------------------------------------------------------------- the view is the readable map

  /** The live entries are strictly ascending in user key, and hold exactly the key-value pairs that
      can be read at s from the entries as a store. */
  lemma ViewIsReadableMap(es: seq<Entry>, s: nat)
    requires Sorted(es) && SeqnosDescend(es)
    ensures forall i, j :: 0 <= i < j < |View(es, |es|, s)| ==>
              View(es, |es|, s)[i].key.ukey < View(es, |es|, s)[j].key.ukey
    ensures forall k, v :: Read(Run(es), k, s) == Some(v) <==>
              exists i :: 0 <= i < |View(es, |es|, s)| && View(es, |es|, s)[i].key.ukey == k && View(es, |es|, s)[i].value == v
  {
    var view := View(es, |es|, s);
    ViewAscends(es, |es|, s);
    forall k, v
      ensures Read(Run(es), k, s) == Some(v) <==> exists i :: 0 <= i < |view| && view[i].key.ukey == k && view[i].value == v
    {
      forall i | 0 <= i < |view| && view[i].key.ukey == k && view[i].value == v
        ensures Read(Run(es), k, s) == Some(v)
      {
        var j := ViewOrigin(es, 0, |es|, s, i);
        LiveIsRead(es, s, j);
      }
      if Read(Run(es), k, s) == Some(v) {
        var i := ReadIsLive(es, s, k, v);
        ViewAt(es, i, s);
      }
    }
  }

  lemma {:induction false} ViewAscends(es: seq<Entry>, n: nat, s: nat)
    requires Sorted(es) && SeqnosDescend(es) && n <= |es|
    ensures forall i, j :: 0 <= i < j < |View(es, n, s)| ==> View(es, n, s)[i].key.ukey < View(es, n, s)[j].key.ukey
  {
    if n > 0 {
      ViewAscends(es, n - 1, s);
      var view := View(es, n - 1, s);
      if IsLive(es, n - 1, s) {
        forall i | 0 <= i < |view| ensures view[i].key.ukey < es[n - 1].key.ukey {
          var j := ViewOrigin(es, 0, n - 1, s, i);
          assert Less(es[j].key, es[n - 1].key);
        }
      }
    }
  }

  /** A live entry is the newest visible one of its user key. */
  lemma LiveIsRead(es: seq<Entry>, s: nat, j: nat)
    requires Sorted(es) && SeqnosDescend(es) && j < |es| && IsLive(es, j, s)
    ensures Read(Run(es), es[j].key.ukey, s) == Some(es[j].value)
  {
    var all := Run(es);
    var k := es[j].key.ukey;
    RunDistinct(es);
    forall o | o in all && Visible(o, k, s) ensures o.key.seqno <= es[j].key.seqno {
      var i :| 0 <= i < |es| && es[i] == o;
    }
    assert es[j] in all;
    ReadNewest(all, k, s, es[j]);
  }

  lemma RunDistinct(es: seq<Entry>)
    requires SeqnosDescend(es)
    ensures DistinctSeqnos(Run(es))
  {
  }

  lemma ReadIsLive(es: seq<Entry>, s: nat, k: UserKey, v: Bytes) returns (i: nat)
    requires Sorted(es) && SeqnosDescend(es) && Read(Run(es), k, s) == Some(v)
    ensures i < |es| && IsLive(es, i, s) && es[i].key.ukey == k && es[i].value == v
  {
    var all := Run(es);
    RunDistinct(es);
    var e := NewestExists(all, k, s);
    ReadNewest(all, k, s, e);
    i :| 0 <= i < |es| && es[i] == e;
    forall j | 0 <= j < i && es[j].key.ukey == k ensures !VisibleAt(es, j, s) {
      assert es[j] in all;
    }
  }
}
