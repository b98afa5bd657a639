/** SkipList and SkipList::Iterator (db/skiplist.h) as code that changes memory in place.  Insert is
    made of the same single stores as the state machine's writer. */
module SkipListClass {
  import opened Keys
  import opened SkipLists
  import Cursors

  /** A search begins at the head. */
  lemma StartSearch(m: Memory, levels: seq<seq<nat>>, i: nat, target: Option<IKey>)
    requires WellLinked(m, levels) && i < m.maxHeight
    ensures m.maxHeight <= MAX_HEIGHT == |levels| && |levels[i]| > 0 && levels[i][0] == HEAD
    ensures OnTheWay(m, levels[i], HEAD, target)
  {
    assert IsLevel(m, i, levels[i]);
  }

  /** One turn of a search at position j of a level: on to the next node, or down from the position
      of the target, which the level below also has. */
  lemma SearchStep(m: Memory, levels: seq<seq<nat>>, i: nat, j: nat, target: Option<IKey>)
    requires WellLinked(m, levels) && i < MAX_HEIGHT && j < |levels[i]| && OnTheWay(m, levels[i], levels[i][j], target)
    ensures HasLink(m, i, levels[i][j]) && Load(m, i, levels[i][j]) == After(levels[i], j)
    ensures MoveOn(m, After(levels[i], j), target) ==>
              j + 1 < |levels[i]| && After(levels[i], j) == To(levels[i][j + 1]) && OnTheWay(m, levels[i], levels[i][j + 1], target)
    ensures !MoveOn(m, After(levels[i], j), target) ==>
              Allocated(m, levels[i]) && Position(Entries(m, levels[i]), target) == j
    ensures !MoveOn(m, After(levels[i], j), target) && i > 0 ==>
              levels[i][j] in levels[i - 1] && OnTheWay(m, levels[i - 1], levels[i][j], target)
  {
    assert IsLevel(m, i, levels[i]);
    assert i > 0 ==> Within(levels[i], levels[i - 1]);
    hide Sorted;
    var here := SearchPosition(m, i, levels[i], levels[i][j], target);
    DistinctNodes(m, i, levels[i]);
    LoadSearches(m, i, levels[i], levels[i][j], target);
  }

  class SkipList {
    var mem: Memory
    ghost var levels: seq<seq<nat>>

    ghost predicate Valid()
      reads this
    {
      WellLinked(mem, levels)
    }

    /** The entries in key order. */
    ghost function List(): seq<Entry>
      requires Valid()
      reads this
    {
      Contents(mem, levels)
    }

    /** The head's key does not matter. */
    constructor (anyEntry: Entry)
      ensures Valid() && List() == []
    {
      mem := Memory([Node(anyEntry, seq(MAX_HEIGHT, _ => Null))], 1);
      levels := seq(MAX_HEIGHT, _ => [HEAD]);
      new;
      forall i | 0 <= i < MAX_HEIGHT ensures IsLevel(mem, i, levels[i]) {
        assert levels[i] == [HEAD];
      }
    }

    method FindGreaterOrEqual(key: IKey, prev: array?<nat>) returns (next: Link)
      requires Valid() && (prev != null ==> prev.Length == MAX_HEIGHT)
      modifies prev
      ensures next == After(levels[0], LowerBound(List(), key))
      ensures prev != null ==>
                forall i :: 0 <= i < mem.maxHeight ==> prev[i] == Predecessors(mem, levels, key, MAX_HEIGHT)[i]
    {
      var x, level := HEAD, mem.maxHeight - 1;
      ghost var j: nat := 0;
      StartSearch(mem, levels, level, Some(key));
      hide WellLinked, OnTheWay, MoveOn;
      while true
        invariant 0 <= level < mem.maxHeight <= MAX_HEIGHT == |levels|
        invariant j < |levels[level]| && levels[level][j] == x && OnTheWay(mem, levels[level], x, Some(key))
        invariant prev != null ==>
                    forall i :: level < i < mem.maxHeight ==> prev[i] == Predecessors(mem, levels, key, MAX_HEIGHT)[i]
        decreases level, |levels[level]| - j
      {
        SearchStep(mem, levels, level, j, Some(key));
        next := Load(mem, level, x);
        if MoveOn(mem, next, Some(key)) {
          x := next.node;
          j := j + 1;
        } else {
          if prev != null {
            prev[level] := x;
          }
          if level == 0 {
            return;
          }
          level := level - 1;
          j :| 0 <= j < |levels[level]| && levels[level][j] == x;
        }
      }
    }

    method FindLessThan(key: IKey) returns (x: nat)
      requires Valid()
      ensures LowerBound(List(), key) < |levels[0]| && x == levels[0][LowerBound(List(), key)]
    {
      x := FindBefore(Some(key));
    }

    method FindLast() returns (x: nat)
      requires Valid()
      ensures |List()| < |levels[0]| && x == levels[0][|List()|]
    {
      x := FindBefore(None);
    }

    /** The loop that FindLessThan and FindLast share, up to the test for moving on. */
    method FindBefore(target: Option<IKey>) returns (x: nat)
      requires Valid()
      ensures Position(List(), target) < |levels[0]| && x == levels[0][Position(List(), target)]
    {
      var level := mem.maxHeight - 1;
      x := HEAD;
      ghost var j: nat := 0;
      StartSearch(mem, levels, level, target);
      hide WellLinked, OnTheWay, MoveOn;
      while true
        invariant 0 <= level < mem.maxHeight <= MAX_HEIGHT == |levels|
        invariant j < |levels[level]| && levels[level][j] == x && OnTheWay(mem, levels[level], x, target)
        decreases level, |levels[level]| - j
      {
        SearchStep(mem, levels, level, j, target);
        var next := Load(mem, level, x);
        if MoveOn(mem, next, target) {
          x := next.node;
          j := j + 1;
        } else {
          if level == 0 {
            return;
          }
          level := level - 1;
          j :| 0 <= j < |levels[level]| && levels[level][j] == x;
        }
      }
    }

    method Contains(key: IKey) returns (found: bool)
      requires Valid()
      ensures found <==> exists e :: e in List() && e.key == key
    {
      var x := FindGreaterOrEqual(key, null);
      ghost var p := LowerBound(List(), key);
      assert IsLevel(mem, 0, levels[0]);
      found := x.To? && mem.nodes[x.node].entry.key == key;
      if found {
        assert mem.nodes[x.node].entry == List()[p];
      }
      forall e | e in List() && e.key == key ensures found {
        var i :| 0 <= i < |List()| && List()[i] == e;
        Cursors.LowerBoundOfEntry(List(), i);
      }
    }

    /** Insert: `height` stands for the draw of RandomHeight. */
    method Insert(e: Entry, height: nat)
      requires Valid() && 1 <= height <= MAX_HEIGHT
      requires forall x :: x in List() ==> x.key != e.key
      modifies this
      ensures Valid() && List() == Keys.Insert(old(List()), e)
    {
      var prev := new nat[MAX_HEIGHT];
      var _ := FindGreaterOrEqual(e.key, prev);
      if height > mem.maxHeight {
        for i := mem.maxHeight to height
          invariant mem == old(mem) && levels == old(levels)
          invariant forall k :: 0 <= k < i ==> prev[k] == Predecessors(mem, levels, e.key, MAX_HEIGHT)[k]
        {
          assert IsLevel(mem, i, levels[i]) && levels[i] == [HEAD];
          prev[i] := HEAD;
        }
        RaiseKeepsLists(mem, levels, height);
        mem := mem.(maxHeight := height);
        SamePredecessors(old(mem), mem, levels, e.key);
      }
      Link(e, height, prev);
    }

    /** The second half of Insert. */
    method Link(e: Entry, height: nat, prev: array<nat>)
      requires Valid() && 1 <= height <= mem.maxHeight && prev.Length == MAX_HEIGHT
      requires forall x :: x in List() ==> x.key != e.key
      requires forall i :: 0 <= i < height ==> prev[i] == Predecessors(mem, levels, e.key, MAX_HEIGHT)[i]
      modifies this
      ensures Valid() && List() == Keys.Insert(old(List()), e)
    {
      hide Sorted, Grows, Within, LowerBound;
      ghost var prevs := Predecessors(mem, levels, e.key, height);
      ghost var w := Inserting(|mem.nodes|, height, prevs, 0, false);
      ghost var before := List();
      NewNodeKeeps(mem, levels, e, height);
      assert forall i :: 0 <= i < height ==> prevs[i] == prev[i];
      hide IsLevel, WriterOk, Predecessors, Contents, WellLinked;
      var x := |mem.nodes|;
      mem := NewNode(mem, e, height);
      for i := 0 to height
        invariant Valid() && WriterOk(mem, levels, w) && height <= mem.maxHeight
        invariant x < |mem.nodes| && mem.nodes[x].entry == e
        invariant i < height ==> w == Inserting(x, height, prevs, i, false)
        invariant List() == if i == 0 then before else Keys.Insert(before, e)
      {
        PrimeKeeps(mem, levels, w);
        mem := SetNext(mem, i, x, Load(mem, i, prev[i]));
        w := w.(primed := true);
        PublishKeepsLists(mem, levels, w);
        PublishKeepsWriter(mem, levels, w);
        levels := Published(mem, levels, w);
        mem := SetNext(mem, i, prev[i], To(x));
        w := NextLevel(w);
      }
    }
  }

  lemma SamePredecessors(m: Memory, m': Memory, levels: seq<seq<nat>>, k: IKey)
    requires WellLinked(m, levels) && WellLinked(m', levels) && m'.nodes == m.nodes
    ensures Predecessors(m', levels, k, MAX_HEIGHT) == Predecessors(m, levels, k, MAX_HEIGHT)
  {
    forall i | 0 <= i < MAX_HEIGHT
      ensures Predecessors(m', levels, k, MAX_HEIGHT)[i] == Predecessors(m, levels, k, MAX_HEIGHT)[i]
    {
      assert IsLevel(m, i, levels[i]) && Entries(m', levels[i]) == Entries(m, levels[i]);
    }
  }

  class Iterator {
    const list: SkipList
    var node: Link

    /** The iterator is at this position of the list; past the end it is invalid. */
    ghost predicate At(pos: nat)
      reads this, list
    {
      list.Valid() && pos <= |list.List()| && node == After(list.levels[0], pos)
    }

    predicate Valid()
      reads this
    {
      node.To?
    }

    constructor (list: SkipList)
      ensures this.list == list && !Valid()
    {
      this.list := list;
      node := Null;
    }

    method Key() returns (e: Entry)
      requires Valid() && exists pos: nat :: At(pos)
      ensures forall pos: nat :: At(pos) ==> pos < |list.List()| && e == list.List()[pos]
    {
      assert IsLevel(list.mem, 0, list.levels[0]);
      e := list.mem.nodes[node.node].entry;
    }

    method Next(ghost pos: nat)
      requires Valid() && At(pos)
      modifies this
      ensures At(pos + 1)
    {
      assert IsLevel(list.mem, 0, list.levels[0]);
      assert Load(list.mem, 0, list.levels[0][pos + 1]) == After(list.levels[0], pos + 1);
      node := Load(list.mem, 0, node.node);
    }

    /** There are no back links: Prev searches for the last node before the current key. */
    method Prev(ghost pos: nat)
      requires Valid() && At(pos)
      modifies this
      ensures At(Cursors.Before(pos, |list.List()|))
    {
      assert IsLevel(list.mem, 0, list.levels[0]);
      var key := list.mem.nodes[node.node].entry.key;
      assert key == list.List()[pos].key;
      Cursors.LowerBoundOfEntry(list.List(), pos);
      var x := list.FindLessThan(key);
      node := if x == HEAD then Null else To(x);
    }

    method Seek(target: IKey)
      requires list.Valid()
      modifies this
      ensures At(LowerBound(list.List(), target))
    {
      node := list.FindGreaterOrEqual(target, null);
    }

    method SeekToFirst()
      requires list.Valid()
      modifies this
      ensures At(0)
    {
      assert IsLevel(list.mem, 0, list.levels[0]);
      assert Load(list.mem, 0, list.levels[0][0]) == After(list.levels[0], 0);
      node := Load(list.mem, 0, HEAD);
    }

    method SeekToLast()
      requires list.Valid()
      modifies this
      ensures At(Cursors.LastOf(|list.List()|))
    {
      assert IsLevel(list.mem, 0, list.levels[0]);
      var x := list.FindLast();
      node := if x == HEAD then Null else To(x);
    }
  }
}
