/** Block and Block::Iter (table/block.cc): a cursor over the entries of a block that only knows its bytes. */
module BlockIterator {
  import opened Coding
  import opened Sequences
  import opened Blocks
  import Cursors

  type Comparator = (seq<Byte>, seq<Byte>) -> int

  ghost predicate IsOrder(cmp: Comparator) {
    forall a, b, c :: cmp(a, b) < 0 && cmp(b, c) < 0 ==> cmp(a, c) < 0
  }

  ghost predicate Increasing(cmp: Comparator, es: seq<KeyValue>) {
    forall i, j :: 0 <= i < j < |es| ==> cmp(es[i].key, es[j].key) < 0
  }

  /** The position of the first entry at or past the target. */
  ghost predicate IsSeekPosition(cmp: Comparator, es: seq<KeyValue>, target: seq<Byte>, p: nat) {
    && p <= |es|
    && (forall i :: 0 <= i < p ==> cmp(es[i].key, target) < 0)
    && (p < |es| ==> cmp(es[p].key, target) >= 0)
  }

  class BlockIter {
    const cmp: Comparator
    const data: seq<Byte>
    const restarts: nat     // offset of the restart array
    const numRestarts: nat
    ghost const layout: Layout

    var current: nat
    var restartIndex: nat
    var key: seq<Byte>
    var valueStart: nat
    var valueLength: nat

    ghost predicate Ok()
      reads this
    {
      && IsBlock(data, layout) && restarts == EntriesEnd(layout) && numRestarts == |layout.restarts|
      && IsOrder(cmp) && Increasing(cmp, layout.es)
    }

    /** The iterator stands on entry pos; it is invalid when there is none. */
    ghost predicate Positioned(pos: nat)
      reads this
    {
      && Ok() && pos <= |layout.es| && current == layout.offsets[pos]
      && if pos == |layout.es| then restartIndex == numRestarts
         else
           && key == layout.es[pos].key
           && At(data, valueStart, layout.es[pos].value) && valueLength == |layout.es[pos].value|
           && NextEntryOffset() == layout.offsets[pos + 1]
           && restartIndex < numRestarts && layout.restarts[restartIndex] <= pos
    }

    /** ParseNextKey will find entry pos. */
    ghost predicate Ready(pos: nat)
      reads this
    {
      && Ok() && pos <= |layout.es| && NextEntryOffset() == layout.offsets[pos]
      && (pos < |layout.es| ==> SharesPrefix(key, layout.shared[pos], layout.es[pos].key))
      && restartIndex < numRestarts && layout.restarts[restartIndex] <= pos
    }

    predicate Valid()
      reads this
    {
      current < restarts
    }

    lemma ValidIsPosition(pos: nat)
      requires Positioned(pos)
      ensures Valid() <==> pos < |layout.es|
    {
      OffsetOrder(data, layout, pos, |layout.es|);
    }

    function NextEntryOffset(): nat
      reads this
    {
      valueStart + valueLength
    }

    /** Block::Block and Block::NewIterator: everything is found from the end of the block. */
    constructor (cmp: Comparator, block: seq<Byte>, ghost layout: Layout)
      requires IsBlock(block, layout) && IsOrder(cmp) && Increasing(cmp, layout.es)
      ensures Positioned(|layout.es|) && this.layout == layout && this.data == block && this.cmp == cmp
    {
      NumberOfRestarts(block, layout);
      var num := FromFixed32(block[|block| - 4..|block|]);
      this.cmp := cmp;
      this.data := block;
      this.restarts := |block| - (1 + num) * 4;
      this.numRestarts := num;
      this.layout := layout;
      this.current := |block| - (1 + num) * 4;
      this.restartIndex := num;
      key, valueStart, valueLength := [], 0, 0;
    }

    function GetRestartPoint(index: nat): nat
      requires restarts + index * 4 + 4 <= |data|
    {
      FromFixed32(data[restarts + index * 4..restarts + index * 4 + 4])
    }

    lemma RestartPointIs(index: nat)
      requires Ok() && index < numRestarts
      ensures restarts + index * 4 + 4 <= |data|
      ensures GetRestartPoint(index) == layout.offsets[layout.restarts[index]]
    {
      RestartPoint(data, layout, index);
    }

    method SeekToRestartPoint(index: nat)
      requires Ok() && index < numRestarts
      modifies `key, `restartIndex, `valueStart, `valueLength
      ensures Ready(layout.restarts[index]) && restartIndex == index
    {
      RestartPointIs(index);
      key := [];
      restartIndex := index;
      valueStart := GetRestartPoint(index);
      valueLength := 0;
    }

    method ParseNextKey(ghost pos: nat) returns (ok: bool)
      requires Ready(pos)
      modifies this
      ensures Positioned(pos) && (ok <==> pos < |layout.es|)
    {
      OffsetOrder(data, layout, pos, |layout.es|);
      current := NextEntryOffset();
      if current >= restarts {
        current := restarts;
        restartIndex := numRestarts;
        return false;
      }
      LoadEntry(pos);
      AdvanceRestartIndex(pos);
      ok := true;
    }

    /** Decode the current entry into key and value. */
    method LoadEntry(ghost pos: nat)
      requires Ready(pos) && pos < |layout.es| && current == layout.offsets[pos]
      modifies `key, `valueStart, `valueLength
      ensures key == layout.es[pos].key
      ensures At(data, valueStart, layout.es[pos].value) && valueLength == |layout.es[pos].value|
      ensures NextEntryOffset() == layout.offsets[pos + 1]
    {
      hide DecodeEntry, EntryBytes, EntryHeader;
      ghost var kv, shared := layout.es[pos], layout.shared[pos];
      assert EntryAt(data, layout, pos);
      OffsetOrder(data, layout, pos + 1, |layout.es|);
      DecodesEntry(data, current, restarts, kv, shared);
      var d := DecodeEntry(data, current, restarts).value;
      assert kv.key == kv.key[..shared] + kv.key[shared..];
      key := key[..d.shared] + data[d.offset..d.offset + d.nonShared];
      valueStart := d.offset + d.nonShared;
      valueLength := d.valueLength;
    }

    method AdvanceRestartIndex(ghost pos: nat)
      requires Ok() && pos < |layout.es| && current == layout.offsets[pos]
      requires restartIndex < numRestarts && layout.restarts[restartIndex] <= pos
      modifies `restartIndex
      ensures restartIndex < numRestarts && layout.restarts[restartIndex] <= pos
    {
      hide IsBlock;
      while true
        invariant restartIndex < numRestarts && layout.restarts[restartIndex] <= pos
        decreases numRestarts - restartIndex
      {
        if restartIndex + 1 == numRestarts {
          return;
        }
        RestartPointIs(restartIndex + 1);
        RestartsIncrease(data, layout, restartIndex);
        BlockOffsetOrder(data, layout, layout.restarts[restartIndex + 1], pos);
        if GetRestartPoint(restartIndex + 1) >= current {
          return;
        }
        restartIndex := restartIndex + 1;
      }
    }

    method SeekToFirst()
      requires Ok()
      modifies this
      ensures Positioned(0)
    {
      hide IsBlock;
      FirstRestart(data, layout);
      SeekToRestartPoint(0);
      var _ := ParseNextKey(0);
    }

    method SeekToLast()
      requires Ok()
      modifies this
      ensures Positioned(Cursors.LastOf(|layout.es|))
    {
      hide IsBlock;
      FirstRestart(data, layout);
      ghost var pos := layout.restarts[numRestarts - 1];
      SeekToRestartPoint(numRestarts - 1);
      while true
        invariant Ready(pos) && (layout.es != [] ==> pos < |layout.es|)
        decreases |layout.es| - pos
      {
        var ok := ParseNextKey(pos);
        if !ok {
          return;
        }
        BlockOffsetOrder(data, layout, pos + 1, |layout.es|);
        if NextEntryOffset() >= restarts {
          return;
        }
        ReadyNext(pos);
        pos := pos + 1;
      }
    }

    /** Standing on an entry is being ready for the next one. */
    lemma ReadyNext(pos: nat)
      requires Positioned(pos) && pos < |layout.es|
      ensures Ready(pos + 1)
    {
      if pos + 1 < |layout.es| {
        assert EntryAt(data, layout, pos + 1);
      }
    }

    method Next(ghost pos: nat)
      requires Positioned(pos) && pos < |layout.es|
      modifies this
      ensures Positioned(pos + 1)
    {
      ReadyNext(pos);
      var _ := ParseNextKey(pos + 1);
    }

    /** Entries cannot be decoded backwards: go back to a restart point and forward again. */
    method Prev(ghost pos: nat)
      requires Positioned(pos) && pos < |layout.es|
      modifies this
      ensures Positioned(Cursors.Before(pos, |layout.es|))
    {
      hide IsBlock;
      FirstRestart(data, layout);
      var original := current;
      while true
        invariant Ok() && current == original
        invariant restartIndex < numRestarts && layout.restarts[restartIndex] <= pos
        decreases restartIndex
      {
        RestartPointIs(restartIndex);
        BlockOffsetOrder(data, layout, layout.restarts[restartIndex], pos);
        if GetRestartPoint(restartIndex) < original {
          break;
        }
        if restartIndex == 0 {
          current := restarts;
          restartIndex := numRestarts;
          return;
        }
        RestartsIncrease(data, layout, restartIndex - 1);
        restartIndex := restartIndex - 1;
      }
      ghost var at := layout.restarts[restartIndex];
      SeekToRestartPoint(restartIndex);
      while true
        invariant Ready(at) && at < pos
        decreases pos - at
      {
        var _ := ParseNextKey(at);
        BlockOffsetOrder(data, layout, at + 1, pos);
        if NextEntryOffset() >= original {
          return;
        }
        ReadyNext(at);
        at := at + 1;
      }
    }

    method Seek(target: seq<Byte>) returns (ghost pos: nat)
      requires Ok()
      modifies this
      ensures Positioned(pos) && IsSeekPosition(cmp, layout.es, target, pos)
    {
      hide IsBlock;
      FirstRestart(data, layout);
      var left := SearchRestarts(target);
      pos := layout.restarts[left];
      SeekToRestartPoint(left);
      while true
        invariant Ready(pos)
        invariant forall i :: 0 <= i < pos ==> cmp(layout.es[i].key, target) < 0
        decreases |layout.es| - pos
      {
        var ok := ParseNextKey(pos);
        if !ok || cmp(key, target) >= 0 {
          return;
        }
        ReadyNext(pos);
        pos := pos + 1;
      }
    }

    /** Binary search for the last restart point with a key before the target. */
    method SearchRestarts(target: seq<Byte>) returns (left: nat)
      requires Ok()
      ensures left < numRestarts
      ensures forall i :: 0 <= i < layout.restarts[left] ==> cmp(layout.es[i].key, target) < 0
    {
      hide IsBlock;
      FirstRestart(data, layout);
      left := 0;
      var right := numRestarts - 1;
      while left < right
        invariant left <= right < numRestarts
        invariant forall i :: 0 <= i < layout.restarts[left] ==> cmp(layout.es[i].key, target) < 0
      {
        var mid := (left + right + 1) / 2;
        RestartsIncrease(data, layout, mid - 1);
        var midKey := RestartKey(mid);
        if cmp(midKey, target) < 0 {
          left := mid;
        } else {
          right := mid - 1;
        }
      }
    }

    /** The key of a restart point is stored whole. */
    method RestartKey(index: nat) returns (k: seq<Byte>)
      requires Ok() && 0 < index < numRestarts
      ensures layout.restarts[index] < |layout.es| && k == layout.es[layout.restarts[index]].key
    {
      hide DecodeEntry, EntryBytes, EntryHeader;
      ghost var i := layout.restarts[index];
      RestartPointIs(index);
      assert EntryAt(data, layout, i);
      OffsetOrder(data, layout, i, |layout.es|);
      OffsetOrder(data, layout, i + 1, |layout.es|);
      var p := GetRestartPoint(index);
      DecodesEntry(data, p, restarts, layout.es[i], 0);
      var d := DecodeEntry(data, p, restarts).value;
      k := data[d.offset..d.offset + d.nonShared];
    }
  }

  lemma FirstRestart(block: seq<Byte>, l: Layout)
    requires IsBlock(block, l)
    ensures HasShape(l)
  {
  }

  lemma RestartsIncrease(block: seq<Byte>, l: Layout, j: nat)
    requires IsBlock(block, l) && j + 1 < |l.restarts|
    ensures l.restarts[j] < l.restarts[j + 1] < |l.es|
  {
  }

  lemma BlockOffsetOrder(block: seq<Byte>, l: Layout, i: nat, k: nat)
    requires IsBlock(block, l) && i <= |l.es| && k <= |l.es|
    ensures |l.offsets| == |l.es| + 1
    ensures l.offsets[i] < l.offsets[k] <==> i < k
    ensures l.offsets[i] == l.offsets[k] <==> i == k
  {
    OffsetOrder(block, l, i, k);
  }
}
