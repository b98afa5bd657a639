/** TwoLevelIterator (table/two_level_iterator.cc): an index iterator over blocks and an iterator
    over the current block make one cursor over the concatenation of all blocks. */
module TwoLevel {
  import opened Keys
  import opened Cursors

  function Flatten(blocks: seq<seq<Entry>>): seq<Entry> {
    if blocks == [] then [] else Flatten(blocks[..|blocks| - 1]) + blocks[|blocks| - 1]
  }

  /** Where block b starts in the concatenation. */
  function Start(blocks: seq<seq<Entry>>, b: nat): nat
    requires b <= |blocks|
  {
    |Flatten(blocks[..b])|
  }

  /** Index entry b is at or past everything in block b and before everything after it. */
  ghost predicate Separates(index: seq<Entry>, blocks: seq<seq<Entry>>) {
    && |index| == |blocks| && Sorted(index)
    && (forall b :: 0 <= b < |blocks| ==> Sorted(blocks[b]))
    && (forall b, e :: 0 <= b < |blocks| && e in blocks[b] ==> AtMost(e.key, index[b].key))
    && (forall a, b, e :: 0 <= a < b < |blocks| && e in blocks[b] ==> Less(index[a].key, e.key))
  }

  lemma StartStep(blocks: seq<seq<Entry>>, b: nat)
    requires b < |blocks|
    ensures Start(blocks, b + 1) == Start(blocks, b) + |blocks[b]|
    ensures Flatten(blocks[..b + 1]) == Flatten(blocks[..b]) + blocks[b]
  {
    assert blocks[..b + 1][..b] == blocks[..b];
  }

  lemma {:induction false} FlattenPrefix(blocks: seq<seq<Entry>>, b: nat)
    requires b <= |blocks|
    ensures Start(blocks, b) <= |Flatten(blocks)|
    ensures Flatten(blocks)[..Start(blocks, b)] == Flatten(blocks[..b])
  {
    if b < |blocks| {
      var init := blocks[..|blocks| - 1];
      FlattenPrefix(init, b);
      assert init[..b] == blocks[..b];
    } else {
      assert blocks[..b] == blocks;
    }
  }

  /** Entry j of block b in the concatenation. */
  lemma FlattenAt(blocks: seq<seq<Entry>>, b: nat, j: nat)
    requires b < |blocks| && j < |blocks[b]|
    ensures Start(blocks, b) + j < |Flatten(blocks)|
    ensures Flatten(blocks)[Start(blocks, b) + j] == blocks[b][j]
  {
    StartStep(blocks, b);
    FlattenPrefix(blocks, b + 1);
    assert Flatten(blocks)[Start(blocks, b) + j] == Flatten(blocks[..b + 1])[Start(blocks, b) + j];
  }

  /** Every entry of the concatenation is in some block. */
  lemma {:induction false} BlockOf(blocks: seq<seq<Entry>>, i: nat) returns (b: nat, j: nat)
    requires i < |Flatten(blocks)|
    ensures b < |blocks| && j < |blocks[b]| && i == Start(blocks, b) + j && Flatten(blocks)[i] == blocks[b][j]
  {
    var n := |blocks| - 1;
    if i >= |Flatten(blocks[..n])| {
      b, j := n, i - |Flatten(blocks[..n])|;
    } else {
      b, j := BlockOf(blocks[..n], i);
      assert blocks[..n][..b] == blocks[..b];
    }
  }

  lemma {:induction false} FlattenSorted(index: seq<Entry>, blocks: seq<seq<Entry>>)
    requires Separates(index, blocks)
    ensures Sorted(Flatten(blocks))
  {
    forall x, y | 0 <= x < y < |Flatten(blocks)| ensures Less(Flatten(blocks)[x].key, Flatten(blocks)[y].key) {
      var a, i := BlockOf(blocks, x);
      var b, j := BlockOf(blocks, y);
      if a > b {
        StartMonotone(blocks, b + 1, a);
        StartStep(blocks, b);
      }
      if a < b {
        assert blocks[a][i] in blocks[a] && blocks[b][j] in blocks[b];
        assert AtMost(blocks[a][i].key, index[a].key);
      }
    }
  }

  lemma {:induction false} StartMonotone(blocks: seq<seq<Entry>>, a: nat, b: nat)
    requires a <= b <= |blocks|
    ensures Start(blocks, a) <= Start(blocks, b)
    decreases b - a
  {
    if a < b {
      StartMonotone(blocks, a, b - 1);
      StartStep(blocks, b - 1);
    }
  }

  class TwoLevelIterator {
    const blocks: seq<seq<Entry>>
    const index: Cursor
    var data: Cursor?
    var handle: nat  // the block that data iterates over

    ghost predicate Shape()
      reads this, index, data
    {
      && index.Ok() && Separates(index.entries, blocks)
      && data != index
      && (data != null ==> data.Ok() && handle < |blocks| && data.entries == blocks[handle])
    }

    /** The data iterator belongs to the block the index iterator is on. */
    ghost predicate InStep()
      reads this, index, data
    {
      Shape() && if index.Valid() then data != null && handle == index.pos else data == null
    }

    ghost predicate Ok()
      reads this, index, data
    {
      InStep() && (data != null ==> data.Valid())
    }

    predicate Valid()
      reads this, data
    {
      data != null && data.Valid()
    }

    function Entry(): Entry
      requires Valid()
      reads this, data
    {
      data.Entry()
    }

    ghost function All(): seq<Entry> {
      Flatten(blocks)
    }

    /** The abstract position in the concatenation. */
    ghost function Pos(): nat
      requires Ok()
      reads this, index, data
    {
      if data == null then |All()| else Start(blocks, handle) + data.pos
    }

    constructor (index: Cursor, blocks: seq<seq<Entry>>)
      requires index.Ok() && !index.Valid() && Separates(index.entries, blocks)
      ensures Ok() && this.index == index && this.blocks == blocks && !Valid()
    {
      this.index := index;
      this.blocks := blocks;
      data := null;
      handle := 0;
    }

    /** The entry under the iterator is the one at the abstract position. */
    lemma CurrentEntry()
      requires Ok() && Valid()
      ensures Pos() < |All()| && All()[Pos()] == Entry()
    {
      FlattenAt(blocks, handle, data.pos);
    }

    /** Open the block the index iterator is on, unless it is the open one already. */
    method InitDataBlock()
      requires Shape()
      modifies this
      ensures InStep() && (data == old(data) || data == null || fresh(data))
      ensures data != null && data == old(data) ==> handle == old(handle)
    {
      if !index.Valid() {
        data := null;
      } else if data != null && handle == index.pos {
      } else {
        handle := index.pos;
        data := new Cursor(blocks[index.pos]);
      }
    }

    /** From inside or past the end of the current block to the next entry. */
    method SkipEmptyDataBlocksForward(ghost target: nat)
      requires InStep()
      requires target == (if data == null then |All()|
                          else if data.Valid() then Start(blocks, handle) + data.pos
                          else Start(blocks, handle + 1))
      modifies this, index, data
      ensures Ok() && Pos() == target
      ensures data == null || data == old(data) || fresh(data)
    {
      while data == null || !data.Valid()
        invariant InStep() && (data == null || data == old(data) || fresh(data))
        invariant target == (if data == null then |All()|
                             else if data.Valid() then Start(blocks, handle) + data.pos
                             else Start(blocks, handle + 1))
        decreases |blocks| - index.pos
      {
        if !index.Valid() {
          data := null;
          return;
        }
        StartStep(blocks, handle);
        index.Next();
        InitDataBlock();
        if data != null {
          data.SeekToFirst();
          StartStep(blocks, handle);
        } else {
          assert blocks[..|blocks|] == blocks;
        }
      }
    }

    method SkipEmptyDataBlocksBackward(ghost target: nat)
      requires InStep()
      requires target == (if data == null then |All()|
                          else if data.Valid() then Start(blocks, handle) + data.pos
                          else Before(Start(blocks, handle), |All()|))
      modifies this, index, data
      ensures Ok() && Pos() == target
      ensures data == null || data == old(data) || fresh(data)
    {
      while data == null || !data.Valid()
        invariant InStep() && (data == null || data == old(data) || fresh(data))
        invariant target == (if data == null then |All()|
                             else if data.Valid() then Start(blocks, handle) + data.pos
                             else Before(Start(blocks, handle), |All()|))
        decreases if index.Valid() then index.pos + 1 else 0
      {
        if !index.Valid() {
          data := null;
          return;
        }
        ghost var b := handle;
        index.Prev();
        InitDataBlock();
        if data != null {
          data.SeekToLast();
          StartStep(blocks, handle);
        }
      }
    }

    method SeekToFirst()
      requires Shape()
      modifies this, index, data
      ensures Ok() && Pos() == 0
      ensures data == null || data == old(data) || fresh(data)
    {
      index.SeekToFirst();
      InitDataBlock();
      if data != null {
        data.SeekToFirst();
        StartStep(blocks, 0);
      }
      SkipEmptyDataBlocksForward(0);
    }

    method SeekToLast()
      requires Shape()
      modifies this, index, data
      ensures Ok() && Pos() == LastOf(|All()|)
      ensures data == null || data == old(data) || fresh(data)
    {
      index.SeekToLast();
      InitDataBlock();
      if data != null {
        data.SeekToLast();
        StartStep(blocks, handle);
        assert blocks[..|blocks|] == blocks;
      }
      SkipEmptyDataBlocksBackward(LastOf(|All()|));
    }

    method Seek(target: IKey)
      requires Shape()
      modifies this, index, data
      ensures Ok() && Pos() == LowerBound(All(), target)
      ensures data == null || data == old(data) || fresh(data)
    {
      assert |index.entries| == |blocks|;
      hide Separates, LowerBound, Flatten, Start, Sorted;
      ghost var p := LowerBound(All(), target);
      SeekLands(index.entries, blocks, target);
      index.Seek(target);
      InitDataBlock();
      if data != null {
        data.Seek(target);
      }
      SkipEmptyDataBlocksForward(p);
    }

    method Next()
      requires Ok() && Valid()
      modifies this, index, data
      ensures Ok() && Pos() == old(Pos()) + 1
      ensures data == null || data == old(data) || fresh(data)
    {
      ghost var p := Pos();
      StartStep(blocks, handle);
      data.Next();
      SkipEmptyDataBlocksForward(p + 1);
    }

    method Prev()
      requires Ok() && Valid()
      modifies this, index, data
      ensures Ok() && Pos() == Before(old(Pos()), |All()|)
      ensures data == null || data == old(data) || fresh(data)
    {
      ghost var p := Pos();
      data.Prev();
      SkipEmptyDataBlocksBackward(Before(p, |All()|));
    }
  }

  /** Seeking the index and then the block it leads to is seeking the concatenation. */
  lemma SeekLands(index: seq<Entry>, blocks: seq<seq<Entry>>, target: IKey)
    requires Separates(index, blocks)
    ensures var b := LowerBound(index, target);
            LowerBound(Flatten(blocks), target) ==
              if b == |blocks| then |Flatten(blocks)|
              else if LowerBound(blocks[b], target) < |blocks[b]| then Start(blocks, b) + LowerBound(blocks[b], target)
              else Start(blocks, b + 1)
  {
    var all, b := Flatten(blocks), LowerBound(index, target);
    var p := if b == |blocks| then |all| else Start(blocks, b) + LowerBound(blocks[b], target);
    if b < |blocks| {
      StartStep(blocks, b);
      FlattenPrefix(blocks, b + 1);
    }
    FlattenSorted(index, blocks);
    forall i | 0 <= i < |all| ensures Less(all[i].key, target) <==> i < p {
      EntryBeforeTarget(index, blocks, target, i);
    }
    hide Flatten, Separates, Less;
    LowerBoundIs(all, target, p);
  }

  lemma LowerBoundIs(es: seq<Entry>, target: IKey, p: nat)
    requires Sorted(es) && p <= |es| && forall i :: 0 <= i < |es| ==> (Less(es[i].key, target) <==> i < p)
    ensures LowerBound(es, target) == p
  {
    if p < |es| { LowerBoundSplits(es, target, p); }
    if LowerBound(es, target) < |es| { LowerBoundSplits(es, target, LowerBound(es, target)); }
  }

  lemma EntryBeforeTarget(index: seq<Entry>, blocks: seq<seq<Entry>>, target: IKey, i: nat)
    requires Separates(index, blocks) && i < |Flatten(blocks)|
    ensures var b := LowerBound(index, target);
            Less(Flatten(blocks)[i].key, target) <==>
              i < (if b == |blocks| then |Flatten(blocks)| else Start(blocks, b) + LowerBound(blocks[b], target))
  {
    var b := LowerBound(index, target);
    var c, j := BlockOf(blocks, i);
    var e := blocks[c][j];
    assert e in blocks[c];
    LowerBoundSplits(index, target, c);
    if c < b {
      assert Less(e.key, target);
      if b < |blocks| {
        StartStep(blocks, c);
        StartMonotone(blocks, c + 1, b);
      }
    } else if c > b {
      LowerBoundSplits(index, target, b);
      assert Less(index[b].key, e.key);
      StartStep(blocks, b);
      StartMonotone(blocks, b + 1, c);
    } else {
      LowerBoundSplits(blocks[b], target, j);
    }
  }
}
