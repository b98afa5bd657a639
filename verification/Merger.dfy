/** MergingIterator (table/merger.cc): a cursor over several sorted runs that moves in both directions. */
module Merger {
  import opened Keys
  import opened Cursors
  import opened Sequences

  /** The runs have no key in common. */
  ghost predicate KeysApart(children: seq<Cursor>) {
    forall i, j, x, y :: 0 <= i < j < |children| && x in children[i].entries && y in children[j].entries ==> x.key != y.key
  }

  /** One sorted run with the entries of all children. */
  ghost predicate IsUnion(children: seq<Cursor>, merged: seq<Entry>) {
    Sorted(merged) && forall e :: e in merged <==> exists i :: 0 <= i < |children| && e in children[i].entries
  }

  /** The child is at its first entry at or past `key`. */
  ghost predicate AtOrPast(c: Cursor, key: IKey)
    reads c
  {
    && c.pos <= |c.entries|
    && (forall j :: 0 <= j < c.pos ==> Less(c.entries[j].key, key))
    && (forall j :: c.pos <= j < |c.entries| ==> !Less(c.entries[j].key, key))
  }

  /** The child is at its last entry before `key`, and past the end if there is none. */
  ghost predicate JustBefore(c: Cursor, key: IKey)
    reads c
  {
    if c.pos < |c.entries| then
      (forall j :: 0 <= j <= c.pos ==> Less(c.entries[j].key, key)) &&
      (forall j :: c.pos < j < |c.entries| ==> !Less(c.entries[j].key, key))
    else
      c.pos == |c.entries| && forall j :: 0 <= j < |c.entries| ==> !Less(c.entries[j].key, key)
  }

  class MergingIterator {
    const children: seq<Cursor>
    var current: Option<nat>
    var direction: Direction
    ghost const merged: seq<Entry>

    ghost predicate Shape()
      reads this, children
    {
      && Distinct(children) && KeysApart(children) && IsUnion(children, merged)
      && (forall c :: c in children ==> c.Ok())
    }

    ghost predicate Ok()
      reads this, children
    {
      && Shape()
      && match current
         case None => true
         case Some(n) =>
           n < |children| && children[n].Valid() &&
           forall i :: 0 <= i < |children| && i != n ==>
             if direction.Forward? then AtOrPast(children[i], children[n].Entry().key)
             else JustBefore(children[i], children[n].Entry().key)
    }

    predicate Valid()
      reads this
    {
      current.Some?
    }

    function Entry(): Entry
      requires Valid() && current.value < |children| && children[current.value].Valid()
      reads this, children
    {
      children[current.value].Entry()
    }

    /** The abstract position in the union. */
    ghost function Pos(): nat
      requires Ok()
      reads this, children
    {
      if Valid() then LowerBound(merged, Entry().key) else |merged|
    }

    constructor (children: seq<Cursor>, ghost merged: seq<Entry>)
      requires Distinct(children) && KeysApart(children) && IsUnion(children, merged)
      requires forall c :: c in children ==> c.Ok()
      ensures this.children == children && this.merged == merged
      ensures Ok() && !Valid()
    {
      this.children := children;
      this.merged := merged;
      current := None;
      direction := Forward;
    }

    /** The smallest of the children's current entries. */
    method FindSmallest()
      requires Shape()
      modifies this`current
      ensures IsSmallest(children, current)
    {
      var smallest: Option<nat> := None;
      for i := 0 to |children|
        invariant smallest.Some? ==> smallest.value < i
        invariant IsSmallest(children[..i], smallest)
      {
        var child := children[i];
        assert children[..i + 1] == children[..i] + [child];
        if child.Valid() {
          if smallest.None? {
            smallest := Some(i);
          } else if Compare(child.Entry().key, children[smallest.value].Entry().key) < 0 {
            smallest := Some(i);
          }
        }
      }
      assert children[..|children|] == children;
      current := smallest;
    }

    /** The largest of the children's current entries, searched from the last child. */
    method FindLargest()
      requires Shape()
      modifies this`current
      ensures IsLargest(children, current)
    {
      hide Sorted;
      var largest: Option<nat> := None;
      for i := |children| downto 0
        invariant largest.Some? ==> largest.value >= i
        invariant IsLargestFrom(children, i, largest)
      {
        var child := children[i];
        if child.Valid() {
          if largest.None? {
            largest := Some(i);
          } else if Compare(child.Entry().key, children[largest.value].Entry().key) > 0 {
            largest := Some(i);
          }
        }
      }
      current := largest;
    }

    /** FindSmallest with all children cut at n puts the iterator at position n, moving forward. */
    method LandForward(ghost n: nat)
      requires Shape() && n <= |merged| && ForwardCut(children, merged, n)
      modifies this
      ensures Ok() && Pos() == n && direction == Forward
    {
      FindSmallest();
      direction := Forward;
      ForwardLanding(children, current, merged, n);
      if n < |merged| { LowerBoundOfEntry(merged, n); }
    }

    method LandBackward(ghost n: nat)
      requires Shape() && n <= |merged| && BackwardCut(children, merged, n)
      modifies this
      ensures Ok() && Pos() == Before(n, |merged|) && direction == Reverse
    {
      FindLargest();
      direction := Reverse;
      BackwardLanding(children, current, merged, n);
      if n > 0 { LowerBoundOfEntry(merged, n - 1); }
    }

    method SeekToFirst()
      requires Shape()
      modifies this, children
      ensures Ok() && Pos() == 0
    {
      for i := 0 to |children|
        invariant Shape()
        invariant forall j :: 0 <= j < i ==> children[j].pos == 0
      {
        children[i].SeekToFirst();
      }
      LandForward(0);
    }

    method SeekToLast()
      requires Shape()
      modifies this, children
      ensures Ok() && Pos() == LastOf(|merged|)
    {
      for i := 0 to |children|
        invariant Shape()
        invariant forall j :: 0 <= j < i ==> children[j].pos == LastOf(|children[j].entries|)
      {
        children[i].SeekToLast();
      }
      assert merged[..|merged|] == merged;
      LandBackward(|merged|);
    }

    method Seek(target: IKey)
      requires Shape()
      modifies this, children
      ensures Ok() && Pos() == LowerBound(merged, target)
    {
      for i := 0 to |children|
        invariant Shape()
        invariant forall j :: 0 <= j < i ==> children[j].pos == LowerBound(children[j].entries, target)
      {
        children[i].Seek(target);
      }
      forall i | 0 <= i < |children| ensures CutAt(children[i].entries, children[i].pos, merged, LowerBound(merged, target)) {
        assert children[i] in children;
        SeekCut(children[i].entries, merged, target);
      }
      LandForward(LowerBound(merged, target));
    }

    method Next()
      requires Ok() && Valid()
      modifies this, children
      ensures Ok() && Pos() == old(Pos()) + 1
    {
      ghost var p := Pos();
      var n := current.value;
      CurrentIsAtPos();
      if direction != Forward {
        PositionOthersAfter(n, merged[p].key);
        direction := Forward;
      }
      OthersCutAfter(children, n, merged, p);
      AdvanceCurrent(n, p);
    }

    method AdvanceCurrent(n: nat, ghost p: nat)
      requires Shape() && n < |children| && children[n].Valid()
      requires p < |merged| && merged[p] == children[n].Entry()
      requires OthersCut(children, n, merged, p + 1)
      modifies this, children[n]
      ensures Ok() && Pos() == p + 1
    {
      OwnCut(children, n, merged, p);
      children[n].Next();
      LandForward(p + 1);
    }

    /** Turning forward: every other child goes to its first entry past the current key. */
    method PositionOthersAfter(n: nat, ghost key: IKey)
      requires Shape() && current == Some(n) && n < |children| && children[n].Valid() && Entry().key == key
      modifies set c | c in children && c != children[n]
      ensures Shape()
      ensures forall i :: 0 <= i < |children| && i != n ==> AtOrPast(children[i], key)
    {
      for i := 0 to |children|
        invariant Shape() && children[n].Valid() && Entry().key == key
        invariant forall j :: 0 <= j < i && j != n ==> AtOrPast(children[j], key)
      {
        if i != n {
          assert children[i] in children && children[i] != children[n];
          assert Entry() in children[n].entries;
          PositionAfter(children[i], Entry().key);
        }
      }
    }

    method Prev()
      requires Ok() && Valid()
      modifies this, children
      ensures Ok() && Pos() == Before(old(Pos()), |merged|)
    {
      ghost var p := Pos();
      var n := current.value;
      CurrentIsAtPos();
      if direction != Reverse {
        PositionOthersBefore(n, merged[p].key);
        direction := Reverse;
      }
      OthersCutBefore(children, n, merged, p);
      OwnCut(children, n, merged, p);
      CurrentBack(n, p);
    }

    method CurrentBack(n: nat, ghost p: nat)
      requires Shape() && n < |children| && children[n].Valid() && p < |merged|
      requires OthersCutBack(children, n, merged, p) && CutAt(children[n].entries, children[n].pos, merged, p)
      modifies this, children
      ensures Ok() && Pos() == Before(p, |merged|) && direction == Reverse
    {
      hide CutAt, IsUnion, KeysApart;
      assert children[n] in children;
      children[n].Prev();
      LandBackward(p);
    }

    /** Turning back: every other child goes to its last entry before the current key. */
    method PositionOthersBefore(n: nat, ghost key: IKey)
      requires Shape() && current == Some(n) && n < |children| && children[n].Valid() && Entry().key == key
      modifies set c | c in children && c != children[n]
      ensures Shape()
      ensures forall i :: 0 <= i < |children| && i != n ==> JustBefore(children[i], key)
    {
      for i := 0 to |children|
        invariant Shape() && children[n].Valid() && Entry().key == key
        invariant forall j :: 0 <= j < i && j != n ==> JustBefore(children[j], key)
      {
        if i != n {
          assert children[i] in children && children[i] != children[n];
          PositionBefore(children[i], Entry().key);
        }
      }
    }

    /** The entry under the iterator is the entry of the union at its position. */
    lemma CurrentIsAtPos()
      requires Ok() && Valid()
      ensures Pos() < |merged| && merged[Pos()] == Entry()
    {
      var e := Entry();
      assert e in children[current.value].entries;
      assert e in merged;
      var i :| 0 <= i < |merged| && merged[i] == e;
      LowerBoundOfEntry(merged, i);
    }
  }

  lemma SeekCut(es: seq<Entry>, merged: seq<Entry>, target: IKey)
    requires Sorted(es) && Sorted(merged) && forall e :: e in es ==> e in merged
    ensures CutAt(es, LowerBound(es, target), merged, LowerBound(merged, target))
  {
    forall j | 0 <= j < |es|
      ensures j < LowerBound(es, target) ==> es[j] in merged[..LowerBound(merged, target)]
      ensures j >= LowerBound(es, target) ==> es[j] in merged[LowerBound(merged, target)..]
    {
      assert es[j] in merged;
      var m :| 0 <= m < |merged| && merged[m] == es[j];
      LowerBoundSplits(es, target, j);
      LowerBoundSplits(merged, target, m);
    }
  }

  /** First entry at or past the key, and past it if the child has the key itself. */
  method PositionAfter(child: Cursor, key: IKey)
    requires child.Ok()
    modifies child
    ensures child.Ok()
    ensures (forall e :: e in child.entries ==> e.key != key) ==> AtOrPast(child, key)
  {
    child.Seek(key);
    SeekSplits(child, key);
    if child.Valid() && Compare(key, child.Entry().key) == 0 {
      assert child.Entry() in child.entries;
      child.Next();
    }
  }

  /** Step back from the first entry at or past the key, or go to the last entry if there is none. */
  method PositionBefore(child: Cursor, key: IKey)
    requires child.Ok()
    modifies child
    ensures child.Ok() && JustBefore(child, key)
  {
    child.Seek(key);
    SeekSplits(child, key);
    if child.Valid() {
      child.Prev();
    } else {
      child.SeekToLast();
    }
  }

  ghost predicate OthersCut(children: seq<Cursor>, n: nat, merged: seq<Entry>, m: nat)
    reads children
  {
    forall j :: 0 <= j < |children| && j != n ==> CutAt(children[j].entries, children[j].pos, merged, m)
  }

  ghost predicate OthersCutBack(children: seq<Cursor>, n: nat, merged: seq<Entry>, m: nat)
    reads children
  {
    forall j :: 0 <= j < |children| && j != n ==> CutAt(children[j].entries, Ahead(children[j]), merged, m)
  }

  lemma SeekSplits(c: Cursor, key: IKey)
    requires Sorted(c.entries) && c.pos == LowerBound(c.entries, key)
    ensures AtOrPast(c, key)
  {
    forall j | 0 <= j < |c.entries| ensures j < c.pos <==> Less(c.entries[j].key, key) {
      LowerBoundSplits(c.entries, key, j);
    }
  }

  /** A child positioned at or past the key of another child is past it, as they share no key. */
  lemma AtOrPastCut(children: seq<Cursor>, i: nat, n: nat, merged: seq<Entry>, p: nat)
    requires KeysApart(children) && IsUnion(children, merged)
    requires i < |children| && n < |children| && i != n && p < |merged|
    requires merged[p] in children[n].entries && AtOrPast(children[i], merged[p].key)
    ensures CutAt(children[i].entries, children[i].pos, merged, p + 1)
  {
    var es := children[i].entries;
    forall j | 0 <= j < |es|
      ensures j < children[i].pos ==> es[j] in merged[..p + 1]
      ensures j >= children[i].pos ==> es[j] in merged[p + 1..]
    {
      assert es[j] in es && es[j] in merged;
      var m :| 0 <= m < |merged| && merged[m] == es[j];
      assert m != p;
      assert m < p ==> Less(merged[m].key, merged[p].key);
    }
  }

  lemma OthersCutAfter(children: seq<Cursor>, n: nat, merged: seq<Entry>, p: nat)
    requires KeysApart(children) && IsUnion(children, merged) && n < |children| && p < |merged|
    requires merged[p] in children[n].entries
    requires forall i :: 0 <= i < |children| && i != n ==> AtOrPast(children[i], merged[p].key)
    ensures OthersCut(children, n, merged, p + 1)
  {
    forall i | 0 <= i < |children| && i != n ensures CutAt(children[i].entries, children[i].pos, merged, p + 1) {
      AtOrPastCut(children, i, n, merged, p);
    }
  }

  lemma OthersCutBefore(children: seq<Cursor>, n: nat, merged: seq<Entry>, p: nat)
    requires IsUnion(children, merged) && p < |merged|
    requires forall i :: 0 <= i < |children| && i != n ==> JustBefore(children[i], merged[p].key)
    ensures OthersCutBack(children, n, merged, p)
  {
    forall i | 0 <= i < |children| && i != n ensures CutAt(children[i].entries, Ahead(children[i]), merged, p) {
      JustBeforeCut(children, i, merged, p);
    }
  }

  lemma JustBeforeCut(children: seq<Cursor>, i: nat, merged: seq<Entry>, p: nat)
    requires IsUnion(children, merged) && i < |children| && p < |merged|
    requires JustBefore(children[i], merged[p].key)
    ensures CutAt(children[i].entries, Ahead(children[i]), merged, p)
  {
    var es := children[i].entries;
    forall j | 0 <= j < |es|
      ensures j < Ahead(children[i]) ==> es[j] in merged[..p]
      ensures j >= Ahead(children[i]) ==> es[j] in merged[p..]
    {
      assert es[j] in es && es[j] in merged;
      var m :| 0 <= m < |merged| && merged[m] == es[j];
      assert p < m ==> Less(merged[p].key, merged[m].key);
    }
  }

  /** The current child is cut right before its own entry, and right after it once it moves on. */
  lemma OwnCut(children: seq<Cursor>, n: nat, merged: seq<Entry>, p: nat)
    requires IsUnion(children, merged) && n < |children| && p < |merged|
    requires children[n].Ok() && children[n].Valid() && children[n].Entry() == merged[p]
    ensures CutAt(children[n].entries, children[n].pos, merged, p)
    ensures CutAt(children[n].entries, children[n].pos + 1, merged, p + 1)
  {
    var es, q := children[n].entries, children[n].pos;
    forall j | 0 <= j < |es|
      ensures j < q ==> es[j] in merged[..p]
      ensures j == q ==> es[j] in merged[p..] && es[j] in merged[..p + 1]
      ensures j > q ==> es[j] in merged[p + 1..]
    {
      assert es[j] in es && es[j] in merged;
      var m :| 0 <= m < |merged| && merged[m] == es[j];
      assert j < q ==> Less(es[j].key, es[q].key);
      assert j > q ==> Less(es[q].key, es[j].key);
      assert m < p ==> Less(merged[m].key, merged[p].key);
      assert m > p ==> Less(merged[p].key, merged[m].key);
    }
    forall j | 0 <= j < q ensures es[j] in merged[..p + 1] {
      assert es[j] in merged[..p];
      assert merged[..p] == merged[..p + 1][..p];
    }
    forall j | q <= j < |es| ensures es[j] in merged[p..] {
      assert j > q ==> es[j] in merged[p + 1..];
      assert merged[p + 1..] == merged[p..][1..];
    }
  }

  // ---------------------------------------------------------------- positions in the union

  /** The first `count` entries of a child are among the first n of the union, the rest are not. */
  ghost predicate CutAt(es: seq<Entry>, count: nat, merged: seq<Entry>, n: nat) {
    && count <= |es| && n <= |merged|
    && (forall j :: 0 <= j < count ==> es[j] in merged[..n])
    && (forall j :: count <= j < |es| ==> es[j] in merged[n..])
  }

  /** How many entries a backward-moving child may still yield. */
  function Ahead(c: Cursor): nat
    reads c
  {
    if c.Valid() then c.pos + 1 else 0
  }

  ghost predicate ForwardCut(children: seq<Cursor>, merged: seq<Entry>, n: nat)
    reads children
  {
    forall i :: 0 <= i < |children| ==> CutAt(children[i].entries, children[i].pos, merged, n)
  }

  ghost predicate BackwardCut(children: seq<Cursor>, merged: seq<Entry>, n: nat)
    reads children
  {
    forall i :: 0 <= i < |children| ==> CutAt(children[i].entries, Ahead(children[i]), merged, n)
  }

  lemma CutMemberOrder(es: seq<Entry>, count: nat, merged: seq<Entry>, n: nat, j: nat)
    requires Sorted(merged) && CutAt(es, count, merged, n) && j < |es|
    ensures j < count && n < |merged| ==> Less(es[j].key, merged[n].key)
    ensures j < count && n > 0 ==> !Less(merged[n - 1].key, es[j].key)
    ensures j >= count && n < |merged| ==> !Less(es[j].key, merged[n].key)
    ensures j >= count && n > 0 ==> Less(merged[n - 1].key, es[j].key)
  {
    if j < count {
      assert es[j] in merged[..n];
    } else {
      assert es[j] in merged[n..];
    }
  }

  lemma ChildOf(children: seq<Cursor>, merged: seq<Entry>, m: nat) returns (i: nat, j: nat)
    requires IsUnion(children, merged) && m < |merged|
    ensures i < |children| && j < |children[i].entries| && children[i].entries[j] == merged[m]
  {
    assert merged[m] in merged;
    i :| 0 <= i < |children| && merged[m] in children[i].entries;
    j :| 0 <= j < |children[i].entries| && children[i].entries[j] == merged[m];
  }

  /** What FindSmallest establishes. */
  ghost predicate IsSmallest(children: seq<Cursor>, current: Option<nat>)
    reads children
  {
    match current
    case None => forall i :: 0 <= i < |children| ==> !children[i].Valid()
    case Some(n) =>
      && n < |children| && children[n].Valid()
      && forall i :: 0 <= i < |children| && children[i].Valid() ==> !Less(children[i].Entry().key, children[n].Entry().key)
  }

  ghost predicate IsLargestFrom(children: seq<Cursor>, from: nat, current: Option<nat>)
    reads children
  {
    match current
    case None => forall i :: from <= i < |children| ==> !children[i].Valid()
    case Some(n) =>
      && n < |children| && children[n].Valid()
      && forall i :: from <= i < |children| && children[i].Valid() ==> !Less(children[n].Entry().key, children[i].Entry().key)
  }

  ghost predicate IsLargest(children: seq<Cursor>, current: Option<nat>)
    reads children
  {
    IsLargestFrom(children, 0, current)
  }

  lemma CutIsAtOrPast(c: Cursor, merged: seq<Entry>, n: nat)
    requires Sorted(merged) && n < |merged| && CutAt(c.entries, c.pos, merged, n)
    ensures AtOrPast(c, merged[n].key)
  {
    forall j | 0 <= j < |c.entries| ensures j < c.pos <==> Less(c.entries[j].key, merged[n].key) {
      CutMemberOrder(c.entries, c.pos, merged, n, j);
    }
  }

  lemma CutIsJustBefore(c: Cursor, merged: seq<Entry>, n: nat)
    requires c.Ok() && Sorted(merged) && 0 < n <= |merged| && CutAt(c.entries, Ahead(c), merged, n)
    requires c.Valid() ==> c.Entry() != merged[n - 1]
    ensures JustBefore(c, merged[n - 1].key)
  {
    forall j | 0 <= j < |c.entries| ensures j < Ahead(c) <==> Less(c.entries[j].key, merged[n - 1].key) {
      CutMemberOrder(c.entries, Ahead(c), merged, n, j);
      if j < Ahead(c) {
        var m :| 0 <= m < n && merged[m] == c.entries[j];
        if m == n - 1 {
          assert j < c.pos;
          CutMemberOrder(c.entries, Ahead(c), merged, n, c.pos);
        }
      }
    }
  }

  /** If all children are cut at n, the smallest current entry is entry n of the union. */
  lemma ForwardLanding(children: seq<Cursor>, current: Option<nat>, merged: seq<Entry>, n: nat)
    requires IsUnion(children, merged) && (forall c :: c in children ==> c.Ok())
    requires ForwardCut(children, merged, n) && n <= |merged| && IsSmallest(children, current)
    ensures current.None? <==> n == |merged|
    ensures current.Some? ==> children[current.value].Entry() == merged[n]
    ensures current.Some? ==> forall i :: 0 <= i < |children| ==> AtOrPast(children[i], merged[n].key)
  {
    if n < |merged| {
      var i := FirstUncut(children, merged, n);
      var c := children[current.value];
      CutMemberOrder(c.entries, c.pos, merged, n, c.pos);
      assert c.Entry() in merged[n..];
      forall x | 0 <= x < |children| ensures AtOrPast(children[x], merged[n].key) {
        CutIsAtOrPast(children[x], merged, n);
      }
    }
  }

  /** Some child stands at entry n of the union. */
  lemma FirstUncut(children: seq<Cursor>, merged: seq<Entry>, n: nat) returns (i: nat)
    requires IsUnion(children, merged) && (forall c :: c in children ==> c.Ok())
    requires ForwardCut(children, merged, n) && n < |merged|
    ensures i < |children| && children[i].Valid() && children[i].Entry() == merged[n]
  {
    var j;
    i, j := ChildOf(children, merged, n);
    var c := children[i];
    assert c in children;
    CutMemberOrder(c.entries, c.pos, merged, n, j);
    CutMemberOrder(c.entries, c.pos, merged, n, c.pos);
  }

  /** If all children are cut at n, the largest current entry is entry n - 1 of the union. */
  lemma BackwardLanding(children: seq<Cursor>, current: Option<nat>, merged: seq<Entry>, n: nat)
    requires IsUnion(children, merged) && (forall c :: c in children ==> c.Ok())
    requires KeysApart(children) && BackwardCut(children, merged, n) && n <= |merged| && IsLargest(children, current)
    ensures current.None? <==> n == 0
    ensures current.Some? ==> n > 0 && children[current.value].Entry() == merged[n - 1]
    ensures current.Some? ==> forall i :: 0 <= i < |children| ==> current.value == i || JustBefore(children[i], merged[n - 1].key)
  {
    if n > 0 {
      var i, j := ChildOf(children, merged, n - 1);
      CutMemberOrder(children[i].entries, Ahead(children[i]), merged, n, j);
      assert children[i] in children && children[i].Valid();
      var c := children[current.value];
      assert c.Entry() == merged[n - 1] by {
        assert c.Entry() in merged[..n];
        CutMemberOrder(c.entries, Ahead(c), merged, n, c.pos);
        CutMemberOrder(children[i].entries, Ahead(children[i]), merged, n, children[i].pos);
        assert !Less(children[i].Entry().key, merged[n - 1].key);
      }
      forall x | 0 <= x < |children| && x != current.value ensures JustBefore(children[x], merged[n - 1].key) {
        assert children[x] in children;
        assert c.Entry() in c.entries;
        assert children[x].Valid() ==> children[x].Entry() in children[x].entries;
        CutIsJustBefore(children[x], merged, n);
      }
    }
  }
}
