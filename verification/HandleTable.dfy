/** HandleTable (util/cache.cc): a hash table of cache entries, chained through the entries themselves.
    Entries are named by numbers; `entries` is the part of each LRUHandle that the table uses. */
module HandleTables {
  import opened Keys
  import opened Coding
  import opened Sequences

  type Key = seq<Byte>

  datatype Node = Node(key: Key, hash: nat, nextHash: Option<nat>)

  /** A pointer to a pointer: a bucket, or the nextHash field of an entry. */
  datatype Slot = Bucket(index: nat) | NextOf(entry: nat)

  ghost function Follower(chain: seq<nat>, j: nat): Option<nat> {
    if j < |chain| then Some(chain[j]) else None
  }

  ghost function After(chain: seq<nat>, j: nat): Option<nat> {
    if j + 1 < |chain| then Some(chain[j + 1]) else None
  }

  /** Following the links from a bucket visits exactly the entries of the chain. */
  ghost predicate IsChain(list: seq<Option<nat>>, entries: map<nat, Node>, b: nat, chain: seq<nat>)
    requires b < |list|
  {
    list[b] == Follower(chain, 0) && LinkedFrom(entries, chain, 0)
  }

  /** The entries from position k on are linked. */
  ghost predicate LinkedFrom(entries: map<nat, Node>, chain: seq<nat>, k: nat) {
    && (forall j :: k <= j < |chain| ==> chain[j] in entries)
    && (forall j {:trigger After(chain, j)} :: k <= j < |chain| ==> entries[chain[j]].nextHash == After(chain, j))
  }

  /** The entries of a chain belong to its bucket and are all different. */
  ghost predicate InBucket(entries: map<nat, Node>, length: nat, b: nat, chain: seq<nat>)
    requires length > 0
  {
    && (forall j :: 0 <= j < |chain| ==> chain[j] in entries && entries[chain[j]].hash % length == b)
    && (forall i, j :: 0 <= i < j < |chain| ==> chain[i] != chain[j])
  }

  ghost predicate Chained(list: seq<Option<nat>>, entries: map<nat, Node>, chains: seq<seq<nat>>) {
    && |list| == |chains| > 0
    && forall b :: 0 <= b < |list| ==> IsChain(list, entries, b, chains[b]) && InBucket(entries, |list|, b, chains[b])
  }

  /** The chains hold exactly these entries. */
  ghost predicate Holds(chains: seq<seq<nat>>, ids: set<nat>) {
    && (forall b, e :: 0 <= b < |chains| && e in chains[b] ==> e in ids)
    && (forall e :: e in ids ==> exists b :: 0 <= b < |chains| && e in chains[b])
  }

  function Name(entries: map<nat, Node>, e: nat): (Key, nat)
    requires e in entries
  {
    (entries[e].key, entries[e].hash)
  }

  /** So that masking with the length minus one is the remainder by the length. */
  predicate PowerOfTwo(n: nat) {
    n == 1 || (n > 1 && n % 2 == 0 && PowerOfTwo(n / 2))
  }

  /** The table as a map from key and hash to the entry. */
  ghost predicate Maps(entries: map<nat, Node>, ids: set<nat>, contents: map<(Key, nat), nat>) {
    && (forall e :: e in ids ==> e in entries && Name(entries, e) in contents && contents[Name(entries, e)] == e)
    && (forall n :: n in contents ==> contents[n] in ids && contents[n] in entries && Name(entries, contents[n]) == n)
  }

  ghost predicate TableOk(list: seq<Option<nat>>, entries: map<nat, Node>, chains: seq<seq<nat>>, ids: set<nat>,
                          contents: map<(Key, nat), nat>) {
    Chained(list, entries, chains) && Holds(chains, ids) && Maps(entries, ids, contents)
  }

  class HandleTable {
    var elems: nat
    var list: seq<Option<nat>>
    var entries: map<nat, Node>
    ghost var chains: seq<seq<nat>>
    ghost var contents: map<(Key, nat), nat>
    ghost var ids: set<nat>

    /** Chains are not longer than one entry on average. */
    ghost predicate Valid()
      reads this
    {
      Linked() && elems <= |list|
    }

    ghost predicate Linked()
      reads this
    {
      && |list| > 0 && |chains| == |list| && TableOk(list, entries, chains, ids, contents)
      && elems == |contents| && PowerOfTwo(|list|)
    }

    constructor ()
      ensures Valid() && contents == map[] && ids == {}
    {
      elems := 0;
      list := [None, None, None, None];
      entries := map[];
      chains := [[], [], [], []];
      contents, ids := map[], {};
    }

    /** Where the entry with this key is linked, or would be. */
    method FindPointer(key: Key, hash: nat) returns (slot: Slot, found: Option<nat>, ghost j: nat)
      requires Valid()
      ensures var chain := chains[hash % |list|];
              j <= |chain| && found == Follower(chain, j)
              && slot == (if j == 0 then Bucket(hash % |list|) else NextOf(chain[j - 1]))
      ensures slot.Bucket? ==> slot.index < |list|
      ensures slot.NextOf? ==> slot.entry in entries
      ensures found.Some? ==> found.value in entries && Name(entries, found.value) == (key, hash)
      ensures found.Some? ==> entries[found.value].nextHash == After(chains[hash % |list|], j)
      ensures found == if (key, hash) in contents then Some(contents[(key, hash)]) else None
    {
      hide PowerOfTwo, InBucket, Holds, Maps;
      var b := hash % |list|;
      ghost var chain := chains[b];
      assert IsChain(list, entries, b, chain);
      slot := Bucket(b);
      found := list[b];
      j := 0;
      while found.Some? && !(entries[found.value].hash == hash && entries[found.value].key == key)
        invariant j <= |chain| && found == Follower(chain, j)
        invariant slot == if j == 0 then Bucket(b) else NextOf(chain[j - 1])
        invariant forall i :: 0 <= i < j ==> chain[i] in entries && Name(entries, chain[i]) != (key, hash)
        decreases |chain| - j
      {
        slot := NextOf(found.value);
        assert entries[chain[j]].nextHash == After(chain, j);
        found := entries[found.value].nextHash;
        j := j + 1;
      }
      if found.Some? {
        assert entries[chain[j]].nextHash == After(chain, j);
        assert chain[j] in chains[b];
        FoundIsNamed(list, entries, chains, ids, contents, b, chain[j]);
      } else if (key, hash) in contents {
        NamedInChain(list, entries, chains, ids, contents, key, hash);
      }
    }

    method Lookup(key: Key, hash: nat) returns (found: Option<nat>)
      requires Valid()
      ensures found == if (key, hash) in contents then Some(contents[(key, hash)]) else None
    {
      var slot;
      ghost var j;
      slot, found, j := FindPointer(key, hash);
    }

    /** A store through the pointer that FindPointer returned. */
    method Store(slot: Slot, e: Option<nat>)
      requires slot.Bucket? ==> slot.index < |list|
      requires slot.NextOf? ==> slot.entry in entries
      modifies `list, `entries
      ensures slot.Bucket? ==> list == old(list)[slot.index := e] && entries == old(entries)
      ensures slot.NextOf? ==> list == old(list) && entries == old(entries)[slot.entry := old(entries)[slot.entry].(nextHash := e)]
    {
      match slot
      case Bucket(i) => list := list[i := e];
      case NextOf(h) => entries := entries[h := entries[h].(nextHash := e)];
    }

    /** h goes in the place of an entry with the same key, or at the end of its chain. */
    method Insert(h: nat, key: Key, hash: nat) returns (old': Option<nat>)
      requires Valid() && h !in ids
      modifies this
      ensures Valid()
      ensures old' == if (key, hash) in old(contents) then Some(old(contents)[(key, hash)]) else None
      ensures contents == old(contents)[(key, hash) := h]
      ensures ids == old(ids) - (if old'.Some? then {old'.value} else {}) + {h}
    {
      hide PowerOfTwo, TableOk, Follower, After;
      ghost var l0, e0 := list, entries;
      var slot;
      ghost var j;
      slot, old', j := FindPointer(key, hash);
      ghost var b := hash % |list|;
      var node := Node(key, hash, if old'.None? then None else entries[old'.value].nextHash);
      FoundPosition(chains[b], old', j);
      InsertKeepsTable(list, entries, chains, ids, contents, b, j, old', h, node, slot);
      entries := entries[h := node];
      Store(slot, Some(h));
      chains := chains[b := Replaced(chains[b], j, old'.Some?, [h])];
      ids := ids - (if old'.Some? then {old'.value} else {}) + {h};
      contents := contents[(key, hash) := h];
      if old'.None? {
        elems := elems + 1;
        if elems > |list| {
          Resize();
        }
      }
    }

    method Remove(key: Key, hash: nat) returns (result: Option<nat>)
      requires Valid()
      modifies this
      ensures Valid()
      ensures result == if (key, hash) in old(contents) then Some(old(contents)[(key, hash)]) else None
      ensures contents == old(contents) - {(key, hash)}
      ensures ids == old(ids) - (if result.Some? then {result.value} else {})
    {
      hide PowerOfTwo, TableOk, Follower, After, Name;
      var slot;
      ghost var j;
      slot, result, j := FindPointer(key, hash);
      FoundPosition(chains[hash % |list|], result, j);
      if result.Some? {
        Unlink(slot, result.value, hash % |list|, j);
      } else {
        assert contents - {(key, hash)} == contents;
      }
    }

    /** The slot skips the entry that it points to. */
    method Unlink(slot: Slot, e: nat, ghost b: nat, ghost j: nat)
      requires Valid() && b < |chains| && j < |chains[b]| && e == chains[b][j]
      requires slot == SlotAt(b, chains[b], j) && (slot.NextOf? ==> slot.entry in entries)
      requires e in entries && entries[e].nextHash == After(chains[b], j)
      requires Name(entries, e) in contents && contents[Name(entries, e)] == e
      modifies this
      ensures Valid() && contents == old(contents) - {old(Name(entries, e))} && ids == old(ids) - {e}
    {
      hide PowerOfTwo, TableOk, After, Name;
      RemoveKeepsTable(list, entries, chains, ids, contents, b, j, e, slot);
      contents := contents - {Name(entries, e)};
      chains := chains[b := Replaced(chains[b], j, true, [])];
      ids := ids - {e};
      Store(slot, entries[e].nextHash);
      elems := elems - 1;
    }

    /** Grow the table: every entry is pushed onto the front of its new chain. */
    method Resize()
      requires Linked()
      modifies this
      ensures Valid() && (|list| == 4 || |list| < 2 * elems) && contents == old(contents) && ids == old(ids)
    {
      hide PowerOfTwo, Chained, Holds, Maps, Waiting, SameNames;
      var newLength := NewLength(elems);
      var newList: seq<Option<nat>> := seq(newLength, _ => None);
      ghost var newChains: seq<seq<nat>> := seq(newLength, _ => []);
      ghost var moved: set<nat> := {};
      ghost var e0 := entries;
      StartMoving(list, entries, chains, ids, contents, newList, newChains);
      for i := 0 to |list|
        invariant unchanged(`list) && unchanged(`chains) && unchanged(`contents) && unchanged(`ids) && unchanged(`elems)
        invariant |newList| == |newChains| == newLength
        invariant Chained(newList, entries, newChains) && Holds(newChains, moved)
        invariant Waiting(list, entries, chains, i, moved) && SameNames(e0, entries, ids)
        invariant AllIn(chains[..i], moved) && moved <= ids
      {
        ghost var e1, m1 := entries, moved;
        newList, newChains, moved := MoveChain(i, newList, newChains, moved);
        NamesTransitive(e0, e1, entries, ids);
        AllInStep(chains, i, m1, moved);
      }
      EndMoving(list, e0, entries, chains, ids, contents, moved);
      list := newList;
      chains := newChains;
    }

    /** The inner loop of Resize. */
    method MoveChain(i: nat, list0: seq<Option<nat>>, ghost chains0: seq<seq<nat>>, ghost moved0: set<nat>)
      returns (newList: seq<Option<nat>>, ghost newChains: seq<seq<nat>>, ghost moved: set<nat>)
      requires i < |list| == |chains| && Waiting(list, entries, chains, i, moved0) && Holds(chains, ids) && moved0 <= ids
      requires Chained(list0, entries, chains0) && Holds(chains0, moved0) && |list0| == |chains0|
      modifies `entries
      ensures |newList| == |newChains| == |list0| && Chained(newList, entries, newChains) && Holds(newChains, moved)
      ensures Waiting(list, entries, chains, i + 1, moved) && SameNames(old(entries), entries, ids)
      ensures moved0 <= moved <= ids && forall e :: e in chains[i] ==> e in moved
    {
      hide Chained, Holds, Waiting, SameNames;
      newList, newChains, moved := list0, chains0, moved0;
      ghost var chain := chains[i];
      StartChain(list, entries, chains, i, moved, ids);
      var h := list[i];
      ghost var k: nat := 0;
      while h.Some?
        invariant k <= |chain| && h == Follower(chain, k) && LinkedFrom(entries, chain, k) && Distinct(chain)
        invariant forall j :: k <= j < |chain| ==> chain[j] !in moved && chain[j] in ids
        invariant forall j :: 0 <= j < k ==> chain[j] in moved
        invariant |newList| == |newChains| == |list0| && Chained(newList, entries, newChains) && Holds(newChains, moved)
        invariant Waiting(list, entries, chains, i + 1, moved) && SameNames(old(entries), entries, ids)
        invariant moved0 <= moved <= ids && forall x :: x in ids ==> x in entries
        decreases |chain| - k
      {
        ghost var e, e1 := h.value, entries;
        assert entries[chain[k]].nextHash == After(chain, k);
        var next := entries[h.value].nextHash;
        newList, newChains := Push(h.value, newList, newChains, moved);
        MovedOne(list, e1, chains, i, moved, ids, e, entries);
        NamesTransitive(old(entries), e1, entries, ids);
        moved := moved + {e};
        h := next;
        k := k + 1;
      }
    }

    /** Put h in front of its chain in the new list. */
    method Push(h: nat, list0: seq<Option<nat>>, ghost chains0: seq<seq<nat>>, ghost moved: set<nat>)
      returns (newList: seq<Option<nat>>, ghost newChains: seq<seq<nat>>)
      requires h in entries && h !in moved && |list0| == |chains0| && Chained(list0, entries, chains0) && Holds(chains0, moved)
      modifies `entries
      ensures |newList| == |newChains| == |list0| && Chained(newList, entries, newChains) && Holds(newChains, moved + {h})
      ensures Relinked(old(entries), h, entries)
    {
      ghost var e0 := entries;
      var b := entries[h].hash % |list0|;
      assert IsChain(list0, entries, b, chains0[b]);
      var entry := entries[h].(nextHash := list0[b]);
      entries := entries[h := entry];
      newList := list0[b := Some(h)];
      NewNodeFrame(list0, e0, chains0, h, entry);
      SplicedChains(list0, entries, chains0, b, 0, 0, [h], newList, entries);
      SplicedIds(list0, e0, chains0, moved, b, 0, 0, [h]);
      newChains := chains0[b := chains0[b][..0] + [h] + chains0[b][0..]];
    }
  }

  lemma FoundIsNamed(list: seq<Option<nat>>, entries: map<nat, Node>, chains: seq<seq<nat>>, ids: set<nat>,
                     contents: map<(Key, nat), nat>, b: nat, e: nat)
    requires TableOk(list, entries, chains, ids, contents) && b < |chains| && e in chains[b]
    ensures e in ids && e in entries && Name(entries, e) in contents && contents[Name(entries, e)] == e
  {
    hide IsChain, InBucket;
  }

  /** An entry with a name is in the chain of the bucket of its hash. */
  lemma NamedInChain(list: seq<Option<nat>>, entries: map<nat, Node>, chains: seq<seq<nat>>, ids: set<nat>,
                     contents: map<(Key, nat), nat>, key: Key, hash: nat)
    requires TableOk(list, entries, chains, ids, contents) && (key, hash) in contents
    ensures |list| == |chains| > 0 && contents[(key, hash)] in chains[hash % |list|]
    ensures contents[(key, hash)] in entries && Name(entries, contents[(key, hash)]) == (key, hash)
  {
    var e := contents[(key, hash)];
    var b :| 0 <= b < |chains| && e in chains[b];
    var j :| 0 <= j < |chains[b]| && chains[b][j] == e;
    assert InBucket(entries, |list|, b, chains[b]);
  }

  lemma FoundPosition(chain: seq<nat>, found: Option<nat>, j: nat)
    requires j <= |chain| && found == Follower(chain, j)
    ensures found.Some? <==> j < |chain|
    ensures found.Some? ==> found.value == chain[j]
  {
  }

  // ---------------------------------------------------------------- splicing a chain

  /** A chain with the entry at position j taken out, or not, and mid put in. */
  function Replaced(chain: seq<nat>, j: nat, out: bool, mid: seq<nat>): seq<nat>
    requires if out then j < |chain| else j <= |chain|
  {
    chain[..j] + mid + chain[if out then j + 1 else j..]
  }

  /** The effect of a store through a slot. */
  function StoredList(list: seq<Option<nat>>, slot: Slot, e: Option<nat>): seq<Option<nat>>
    requires slot.Bucket? ==> slot.index < |list|
  {
    if slot.Bucket? then list[slot.index := e] else list
  }

  function StoredNodes(entries: map<nat, Node>, slot: Slot, e: Option<nat>): map<nat, Node>
    requires slot.NextOf? ==> slot.entry in entries
  {
    if slot.NextOf? then entries[slot.entry := entries[slot.entry].(nextHash := e)] else entries
  }

  /** The slot that points to position j of the chain of bucket b. */
  function SlotAt(b: nat, chain: seq<nat>, j: nat): Slot
    requires j <= |chain|
  {
    if j == 0 then Bucket(b) else NextOf(chain[j - 1])
  }

  lemma InsertKeepsTable(list: seq<Option<nat>>, entries: map<nat, Node>, chains: seq<seq<nat>>, ids: set<nat>,
                         contents: map<(Key, nat), nat>, b: nat, j: nat, old': Option<nat>, h: nat, node: Node, slot: Slot)
    requires TableOk(list, entries, chains, ids, contents) && |list| == |chains| && b < |list| && j <= |chains[b]|
    requires old' == (if (node.key, node.hash) in contents then Some(contents[(node.key, node.hash)]) else None)
    requires node.hash % |list| == b && h !in ids
    requires old'.Some? <==> j < |chains[b]|
    requires old'.Some? ==> old'.value == chains[b][j]
    requires slot == SlotAt(b, chains[b], j) && (slot.NextOf? ==> slot.entry in entries)
    requires node.nextHash == if old'.Some? then After(chains[b], j) else None
    ensures TableOk(StoredList(list, slot, Some(h)), StoredNodes(entries[h := node], slot, Some(h)),
                    chains[b := Replaced(chains[b], j, old'.Some?, [h])],
                    ids - (if old'.Some? then {old'.value} else {}) + {h}, contents[(node.key, node.hash) := h])
    ensures old'.None? ==> |contents[(node.key, node.hash) := h]| == |contents| + 1
    ensures old'.Some? ==> |contents[(node.key, node.hash) := h]| == |contents|
  {
    hide Chained, Holds, Maps;
    var k := if old'.Some? then j + 1 else j;
    var entries' := StoredNodes(entries[h := node], slot, Some(h));
    assert forall c :: 0 <= c < |chains| ==> h !in chains[c] by { ChainsInIds(chains, ids); }
    NewNodeFrame(list, entries, chains, h, node);
    SplicedChains(list, entries[h := node], chains, b, j, k, [h], StoredList(list, slot, Some(h)), entries');
    SplicedIds(list, entries, chains, ids, b, j, k, [h]);
    assert SameNames(entries, entries', ids) by { IdsInNodes(entries, ids, contents); }
    InsertedMaps(entries, ids, contents, entries', h, node.key, node.hash);
    if old'.Some? {
      assert contents[(node.key, node.hash) := h].Keys == contents.Keys;
    }
  }

  lemma StoredIsStoredAt(list: seq<Option<nat>>, entries: map<nat, Node>, b: nat, chain: seq<nat>, j: nat, e: Option<nat>)
    requires b < |list| && j <= |chain| && (SlotAt(b, chain, j).NextOf? ==> SlotAt(b, chain, j).entry in entries)
    ensures StoredAt(list, entries, b, chain, j, e, StoredList(list, SlotAt(b, chain, j), e), StoredNodes(entries, SlotAt(b, chain, j), e))
  {
  }

  lemma RemovedChains(list: seq<Option<nat>>, entries: map<nat, Node>, chains: seq<seq<nat>>, b: nat, j: nat, slot: Slot)
    requires Chained(list, entries, chains) && |list| == |chains| && b < |list| && j < |chains[b]|
    requires slot == SlotAt(b, chains[b], j) && (slot.NextOf? ==> slot.entry in entries)
    ensures Chained(StoredList(list, slot, After(chains[b], j)), StoredNodes(entries, slot, After(chains[b], j)),
                    chains[b := Replaced(chains[b], j, true, [])])
  {
    hide Chained;
    StoredIsStoredAt(list, entries, b, chains[b], j, After(chains[b], j));
    hide StoredAt, SlotAt;
    assert Follower(chains[b][..j] + [] + chains[b][j + 1..], j) == After(chains[b], j);
    SplicedChains(list, entries, chains, b, j, j + 1, [],
                  StoredList(list, slot, After(chains[b], j)), StoredNodes(entries, slot, After(chains[b], j)));
  }

  lemma StoredNodesKeepNames(entries: map<nat, Node>, slot: Slot, next: Option<nat>, ids: set<nat>)
    requires (slot.NextOf? ==> slot.entry in entries) && forall e :: e in ids ==> e in entries
    ensures SameNames(entries, StoredNodes(entries, slot, next), ids)
  {
  }

  lemma RemoveKeepsTable(list: seq<Option<nat>>, entries: map<nat, Node>, chains: seq<seq<nat>>, ids: set<nat>,
                         contents: map<(Key, nat), nat>, b: nat, j: nat, e: nat, slot: Slot)
    requires TableOk(list, entries, chains, ids, contents) && |list| == |chains| && b < |list| && j < |chains[b]|
    requires e == chains[b][j] && e in entries && Name(entries, e) in contents && contents[Name(entries, e)] == e
    requires slot == SlotAt(b, chains[b], j) && (slot.NextOf? ==> slot.entry in entries)
    requires entries[e].nextHash == After(chains[b], j)
    ensures TableOk(StoredList(list, slot, entries[e].nextHash), StoredNodes(entries, slot, entries[e].nextHash),
                    chains[b := Replaced(chains[b], j, true, [])], ids - {e}, contents - {Name(entries, e)})
    ensures |contents - {Name(entries, e)}| == |contents| - 1
  {
    hide Chained, Holds, Maps, StoredList, StoredNodes, SlotAt, After, SameNames;
    RemovedChains(list, entries, chains, b, j, slot);
    SplicedIds(list, entries, chains, ids, b, j, j + 1, []);
    IdsInNodes(entries, ids, contents);
    StoredNodesKeepNames(entries, slot, entries[e].nextHash, ids);
    RemovedMaps(entries, ids, contents, StoredNodes(entries, slot, entries[e].nextHash), entries[e].key, entries[e].hash);
  }

  lemma ChainsInIds(chains: seq<seq<nat>>, ids: set<nat>)
    requires Holds(chains, ids)
    ensures forall c, e :: 0 <= c < |chains| && e in chains[c] ==> e in ids
  {
  }

  lemma IdsInNodes(entries: map<nat, Node>, ids: set<nat>, contents: map<(Key, nat), nat>)
    requires Maps(entries, ids, contents)
    ensures forall e :: e in ids ==> e in entries
  {
  }

  /** What a store through the slot at position j of a chain does to the links. */
  ghost predicate StoredAt(list: seq<Option<nat>>, entries: map<nat, Node>, b: nat, chain: seq<nat>, j: nat, e: Option<nat>,
                           list': seq<Option<nat>>, entries': map<nat, Node>)
    requires b < |list| && j <= |chain|
  {
    if j == 0 then list' == list[b := e] && entries' == entries
    else
      list' == list && chain[j - 1] in entries && entries' == entries[chain[j - 1] := entries[chain[j - 1]].(nextHash := e)]
  }

  /** Linking the nodes mid in place of positions j to k of a chain. */
  lemma SplicedChain(list: seq<Option<nat>>, entries: map<nat, Node>, b: nat, chain: seq<nat>, j: nat, k: nat, mid: seq<nat>,
                     list': seq<Option<nat>>, entries': map<nat, Node>)
    requires b < |list| && IsChain(list, entries, b, chain) && Distinct(chain)
    requires j <= k <= |chain| && |mid| <= 1 && (mid != [] ==> mid[0] !in chain)
    requires var chain' := chain[..j] + mid + chain[k..];
             StoredAt(list, entries, b, chain, j, Follower(chain', j), list', entries')
    requires mid != [] ==> mid[0] in entries && entries[mid[0]].nextHash == Follower(chain, k)
    ensures IsChain(list', entries', b, chain[..j] + mid + chain[k..])
  {
    var chain' := chain[..j] + mid + chain[k..];
    forall i | 0 <= i < |chain'| ensures chain'[i] in entries' && entries'[chain'[i]].nextHash == After(chain', i) {
      if i < j {
        assert chain'[i] == chain[i] && chain[i] in entries && entries[chain[i]].nextHash == After(chain, i);
      } else if i >= j + |mid| {
        var o := i - j - |mid| + k;
        assert chain'[i] == chain[o] && chain[o] in entries && entries[chain[o]].nextHash == After(chain, o);
        assert After(chain', i) == After(chain, o);
      } else {
        assert chain'[i] == mid[0] && After(chain', i) == Follower(chain, k);
      }
    }
  }

  /** An entry that is in no chain can be written at will. */
  lemma NewNodeFrame(list: seq<Option<nat>>, entries: map<nat, Node>, chains: seq<seq<nat>>, h: nat, entry: Node)
    requires Chained(list, entries, chains) && forall b :: 0 <= b < |chains| ==> h !in chains[b]
    ensures Chained(list, entries[h := entry], chains)
  {
    forall b | 0 <= b < |list|
      ensures IsChain(list, entries[h := entry], b, chains[b]) && InBucket(entries[h := entry], |list|, b, chains[b])
    {
      ChainFrame(list, entries, list, entries[h := entry], b, chains[b]);
    }
  }

  /** A chain does not notice writes to other buckets and other entries. */
  lemma ChainFrame(list: seq<Option<nat>>, entries: map<nat, Node>, list': seq<Option<nat>>, entries': map<nat, Node>, b: nat, chain: seq<nat>)
    requires b < |list| == |list'| && IsChain(list, entries, b, chain) && InBucket(entries, |list|, b, chain)
    requires list'[b] == list[b] && forall e :: e in chain ==> e in entries && e in entries' && entries'[e] == entries[e]
    ensures IsChain(list', entries', b, chain) && InBucket(entries', |list'|, b, chain)
  {
    forall j | 0 <= j < |chain| ensures chain[j] in entries' && entries'[chain[j]].nextHash == After(chain, j) {
      assert entries[chain[j]].nextHash == After(chain, j);
    }
  }

  lemma SplicedChains(list: seq<Option<nat>>, entries: map<nat, Node>, chains: seq<seq<nat>>, b: nat, j: nat, k: nat, mid: seq<nat>,
                      list': seq<Option<nat>>, entries': map<nat, Node>)
    requires Chained(list, entries, chains) && b < |list| && j <= k <= |chains[b]| && |mid| <= 1
    requires mid != [] ==> mid[0] in entries && entries[mid[0]].hash % |list| == b
                           && entries[mid[0]].nextHash == Follower(chains[b], k)
    requires mid != [] ==> forall c :: 0 <= c < |chains| ==> mid[0] !in chains[c]
    requires var chain' := chains[b][..j] + mid + chains[b][k..];
             StoredAt(list, entries, b, chains[b], j, Follower(chain', j), list', entries')
    ensures Chained(list', entries', chains[b := chains[b][..j] + mid + chains[b][k..]])
  {
    var chain' := chains[b][..j] + mid + chains[b][k..];
    var chains' := chains[b := chain'];
    assert IsChain(list, entries, b, chains[b]) && InBucket(entries, |list|, b, chains[b]);
    SplicedChain(list, entries, b, chains[b], j, k, mid, list', entries');
    assert InBucket(entries', |list'|, b, chain') by { SplicedBucket(entries, |list|, b, chains[b], j, k, mid, entries'); }
    forall c | 0 <= c < |list'| ensures IsChain(list', entries', c, chains'[c]) && InBucket(entries', |list'|, c, chains'[c]) {
      if c != b {
        assert IsChain(list, entries, c, chains[c]) && InBucket(entries, |list|, c, chains[c]);
        ChainFrame(list, entries, list', entries', c, chains[c]);
      }
    }
  }

  lemma SplicedBucket(entries: map<nat, Node>, length: nat, b: nat, chain: seq<nat>, j: nat, k: nat, mid: seq<nat>,
                      entries': map<nat, Node>)
    requires length > 0 && InBucket(entries, length, b, chain) && j <= k <= |chain| && |mid| <= 1
    requires mid != [] ==> mid[0] !in chain && mid[0] in entries && entries[mid[0]].hash % length == b
    requires forall e :: e in entries ==> e in entries' && entries'[e].hash == entries[e].hash
    ensures InBucket(entries', length, b, chain[..j] + mid + chain[k..])
  {
    var chain' := chain[..j] + mid + chain[k..];
    forall i | 0 <= i < |chain'| ensures chain'[i] in entries' && entries'[chain'[i]].hash % length == b {
      if i < j {
        assert chain'[i] == chain[i];
      } else if i >= j + |mid| {
        assert chain'[i] == chain[i - j - |mid| + k];
      }
    }
  }

  /** Splicing takes out the entries from j to k and puts in the new one. */
  lemma SplicedIds(list: seq<Option<nat>>, entries: map<nat, Node>, chains: seq<seq<nat>>, ids: set<nat>, b: nat, j: nat, k: nat, mid: seq<nat>)
    requires Chained(list, entries, chains) && Holds(chains, ids) && b < |list| && j <= k <= |chains[b]| && k <= j + 1
    requires |mid| <= 1 && (mid != [] ==> mid[0] !in ids)
    ensures var ids' := ids - (if j < k then {chains[b][j]} else {}) + (if mid != [] then {mid[0]} else {});
            Holds(chains[b := chains[b][..j] + mid + chains[b][k..]], ids')
  {
    hide IsChain;
    var chain, chain' := chains[b], chains[b][..j] + mid + chains[b][k..];
    var chains' := chains[b := chain'];
    var ids' := ids - (if j < k then {chain[j]} else {}) + (if mid != [] then {mid[0]} else {});
    assert InBucket(entries, |list|, b, chain);
    ReplacedMembers(chain, j, k, mid);
    forall c, e | 0 <= c < |chains'| && e in chains'[c] ensures e in ids' {
      assert e in chains[c] || e in mid;
      if j < k { OneBucket(list, entries, chains, b, j, c); }
    }
    forall e | e in ids' ensures exists c :: 0 <= c < |chains'| && e in chains'[c] {
      if e in ids {
        var c :| 0 <= c < |chains| && e in chains[c];
        assert e in chains'[c];
      } else {
        assert e in mid && e in chains'[b];
      }
    }
  }

  lemma ReplacedMembers(chain: seq<nat>, j: nat, k: nat, mid: seq<nat>)
    requires j <= k <= |chain| && k <= j + 1
    requires forall x, y :: 0 <= x < y < |chain| ==> chain[x] != chain[y]
    ensures var chain' := chain[..j] + mid + chain[k..];
            forall e :: e in chain' <==> e in mid || (e in chain && (j < k ==> e != chain[j]))
  {
    var chain' := chain[..j] + mid + chain[k..];
    forall e | e in chain && (j < k ==> e != chain[j]) ensures e in chain' {
      var i :| 0 <= i < |chain| && chain[i] == e;
      if i < j {
        assert chain[..j][i] == e;
      } else {
        assert chain[k..][i - k] == e;
      }
    }
  }

  /** The entry at position j of chain b is in no other chain. */
  lemma OneBucket(list: seq<Option<nat>>, entries: map<nat, Node>, chains: seq<seq<nat>>, b: nat, j: nat, c: nat)
    requires Chained(list, entries, chains) && b < |list| && j < |chains[b]| && c < |list|
    ensures c != b ==> chains[b][j] !in chains[c]
  {
    assert InBucket(entries, |list|, b, chains[b]) && InBucket(entries, |list|, c, chains[c]);
  }

  ghost predicate SameNames(entries: map<nat, Node>, entries': map<nat, Node>, ids: set<nat>) {
    forall e :: e in ids ==> e in entries && e in entries' && Name(entries', e) == Name(entries, e)
  }

  lemma InsertedMaps(entries: map<nat, Node>, ids: set<nat>, contents: map<(Key, nat), nat>, entries': map<nat, Node>,
                     h: nat, key: Key, hash: nat)
    requires Maps(entries, ids, contents) && h !in ids && SameNames(entries, entries', ids)
    requires h in entries' && Name(entries', h) == (key, hash)
    ensures var ids' := ids - (if (key, hash) in contents then {contents[(key, hash)]} else {}) + {h};
            Maps(entries', ids', contents[(key, hash) := h])
  {
  }

  lemma RemovedMaps(entries: map<nat, Node>, ids: set<nat>, contents: map<(Key, nat), nat>, entries': map<nat, Node>,
                    key: Key, hash: nat)
    requires Maps(entries, ids, contents) && (key, hash) in contents && SameNames(entries, entries', ids)
    ensures Maps(entries', ids - {contents[(key, hash)]}, contents - {(key, hash)})
    ensures |contents - {(key, hash)}| == |contents| - 1
  {
    assert contents.Keys == (contents - {(key, hash)}).Keys + {(key, hash)};
  }

  // ---------------------------------------------------------------- rehashing

  /** Only the link of h has changed. */
  ghost predicate Relinked(entries: map<nat, Node>, h: nat, entries': map<nat, Node>) {
    h in entries && h in entries' && entries' == entries[h := entries[h].(nextHash := entries'[h].nextHash)]
  }

  /** The chains from i on have not been touched, and nothing in them has been moved. */
  ghost predicate Waiting(list: seq<Option<nat>>, entries: map<nat, Node>, chains: seq<seq<nat>>, i: nat, moved: set<nat>) {
    && |list| == |chains| > 0
    && (forall c :: 0 <= c < |list| ==> InBucket(entries, |list|, c, chains[c]))
    && (forall c :: i <= c < |list| ==> IsChain(list, entries, c, chains[c]))
    && (forall c, e :: i <= c < |list| && e in chains[c] ==> e !in moved)
  }

  ghost predicate AllIn(chains: seq<seq<nat>>, moved: set<nat>) {
    forall c, e :: 0 <= c < |chains| && e in chains[c] ==> e in moved
  }

  lemma AllInStep(chains: seq<seq<nat>>, i: nat, moved: set<nat>, moved': set<nat>)
    requires i < |chains| && AllIn(chains[..i], moved) && moved <= moved'
    requires forall e :: e in chains[i] ==> e in moved'
    ensures AllIn(chains[..i + 1], moved')
  {
  }

  lemma NamesTransitive(a: map<nat, Node>, b: map<nat, Node>, c: map<nat, Node>, ids: set<nat>)
    requires SameNames(a, b, ids) && SameNames(b, c, ids)
    ensures SameNames(a, c, ids)
  {
  }

  lemma StartMoving(list: seq<Option<nat>>, entries: map<nat, Node>, chains: seq<seq<nat>>, ids: set<nat>,
                    contents: map<(Key, nat), nat>, newList: seq<Option<nat>>, newChains: seq<seq<nat>>)
    requires TableOk(list, entries, chains, ids, contents) && |newList| == |newChains| > 0
    requires forall b :: 0 <= b < |newList| ==> newList[b] == None && newChains[b] == []
    ensures Chained(newList, entries, newChains) && Holds(newChains, {})
    ensures Waiting(list, entries, chains, 0, {}) && SameNames(entries, entries, ids) && AllIn(chains[..0], {})
  {
    assert forall b :: 0 <= b < |newList| ==> IsChain(newList, entries, b, newChains[b]);
  }

  lemma EndMoving(list: seq<Option<nat>>, e0: map<nat, Node>, entries: map<nat, Node>, chains: seq<seq<nat>>, ids: set<nat>,
                  contents: map<(Key, nat), nat>, moved: set<nat>)
    requires TableOk(list, e0, chains, ids, contents) && SameNames(e0, entries, ids)
    requires AllIn(chains[..|chains|], moved) && moved <= ids
    ensures moved == ids && Maps(entries, ids, contents)
  {
    assert chains[..|chains|] == chains;
  }

  lemma StartChain(list: seq<Option<nat>>, entries: map<nat, Node>, chains: seq<seq<nat>>, i: nat, moved: set<nat>, ids: set<nat>)
    requires Waiting(list, entries, chains, i, moved) && Holds(chains, ids) && i < |chains|
    ensures |list| == |chains| && IsChain(list, entries, i, chains[i]) && Distinct(chains[i])
    ensures forall e :: e in chains[i] ==> e !in moved && e in ids
    ensures Waiting(list, entries, chains, i + 1, moved) && SameNames(entries, entries, ids)
    ensures forall e :: e in ids ==> e in entries
  {
    assert forall c :: 0 <= c < |list| ==> InBucket(entries, |list|, c, chains[c]);
  }

  /** Moving an entry of chain i is not noticed in the chains behind it. */
  lemma MovedOne(list: seq<Option<nat>>, entries: map<nat, Node>, chains: seq<seq<nat>>, i: nat, moved: set<nat>, ids: set<nat>,
                 e: nat, entries': map<nat, Node>)
    requires Waiting(list, entries, chains, i + 1, moved) && i < |chains| && e in chains[i] && Relinked(entries, e, entries')
    requires forall x :: x in ids ==> x in entries
    ensures Waiting(list, entries', chains, i + 1, moved + {e}) && SameNames(entries, entries', ids)
    ensures forall x :: x in ids ==> x in entries'
  {
    assert InBucket(entries, |list|, i, chains[i]);
    forall c | 0 <= c < |list|
      ensures InBucket(entries', |list|, c, chains[c]) && (c > i ==> IsChain(list, entries', c, chains[c]) && e !in chains[c])
    {
      assert InBucket(entries, |list|, c, chains[c]);
      if c > i {
        ChainFrame(list, entries, list, entries', c, chains[c]);
      }
    }
  }

  method NewLength(elems: nat) returns (newLength: nat)
    ensures newLength >= 4 && newLength >= elems && PowerOfTwo(newLength)
    ensures newLength == 4 || newLength < 2 * elems
  {
    newLength := 4;
    assert PowerOfTwo(2) && PowerOfTwo(4);
    while newLength < elems
      invariant newLength >= 4 && PowerOfTwo(newLength) && (newLength == 4 || newLength < 2 * elems)
    {
      newLength := newLength * 2;
    }
  }
}
