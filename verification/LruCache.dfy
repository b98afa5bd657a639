/** LRUCache (util/cache.cc): a shard of the block cache.  A handle is named by a number that is never
    used again; a freed handle is one whose deleter has been called. */
module LruCaches {
  import opened Keys
  import opened Sequences
  import opened Rings
  import opened HandleTables

  const LRU: nat := 0      // dummy head of the list of evictable entries
  const IN_USE: nat := 1   // dummy head of the list of entries that clients hold

  datatype Handle = Handle(key: HandleTables.Key, hash: nat, charge: nat, inCache: bool, refs: nat)

  // ---------------------------------------------------------------- the two lists

  datatype Lists = Lists(next: map<nat, nat>, prev: map<nat, nat>, lru: seq<nat>, inUse: seq<nat>)

  ghost predicate ListsOk(ls: Lists) {
    && IsRing(ls.next, ls.prev, LRU, ls.lru) && IsRing(ls.next, ls.prev, IN_USE, ls.inUse)
    && Apart(LRU, ls.lru, IN_USE, ls.inUse)
  }

  ghost predicate Listed(ls: Lists, e: nat) {
    e in ls.lru || e in ls.inUse
  }

  function Drop(l: seq<nat>, e: nat): seq<nat> {
    if l == [] then [] else if l[0] == e then l[1..] else [l[0]] + Drop(l[1..], e)
  }

  lemma {:induction false} DropIsWithout(l: seq<nat>, j: nat)
    requires j < |l| && Distinct(l)
    ensures Drop(l, l[j]) == Without(l, j)
  {
    if j > 0 {
      DropIsWithout(l[1..], j - 1);
      assert Without(l, j) == [l[0]] + Without(l[1..], j - 1);
    }
  }

  lemma {:induction false} DropNone(l: seq<nat>, e: nat)
    requires e !in l
    ensures Drop(l, e) == l
  {
    if l != [] {
      DropNone(l[1..], e);
    }
  }

  lemma DropMembers(l: seq<nat>, j: nat)
    requires j < |l| && Distinct(l)
    ensures forall x :: x in Without(l, j) <==> x in l && x != l[j]
  {
    forall x | x in l && x != l[j] ensures x in Without(l, j) {
      var i :| 0 <= i < |l| && l[i] == x;
      assert Without(l, j)[if i < j then i else i - 1] == x;
    }
  }

  lemma TailDistinct(head: nat, l: seq<nat>)
    requires Distinct([head] + l)
    ensures Distinct(l) && head !in l
  {
    assert forall i :: 0 <= i < |l| ==> l[i] == ([head] + l)[i + 1];
    assert ([head] + l)[0] == head;
  }

  /** LRU_Remove, wherever e is. */
  function Removed(ls: Lists, e: nat): Lists
    requires e in ls.next && e in ls.prev
  {
    Lists(RemovedNext(ls.next, ls.prev, e), RemovedPrev(ls.next, ls.prev, e),
          if e in ls.lru then Drop(ls.lru, e) else ls.lru, if e in ls.inUse then Drop(ls.inUse, e) else ls.inUse)
  }

  /** LRU_Append to the list of the given head. */
  function Appended(ls: Lists, head: nat, e: nat): Lists
    requires head in ls.prev
  {
    Lists(AppendedNext(ls.next, ls.prev, head, e), AppendedPrev(ls.next, ls.prev, head, e),
          if head == LRU then ls.lru + [e] else ls.lru, if head == IN_USE then ls.inUse + [e] else ls.inUse)
  }

  lemma RemovedOk(ls: Lists, e: nat)
    requires ListsOk(ls) && Listed(ls, e)
    ensures e in ls.next && e in ls.prev && ListsOk(Removed(ls, e))
    ensures forall x :: x in Removed(ls, e).lru <==> x in ls.lru && x != e
    ensures forall x :: x in Removed(ls, e).inUse <==> x in ls.inUse && x != e
  {
    hide IsRing;
    RingDistinct(ls.next, ls.prev, LRU, ls.lru);
    RingDistinct(ls.next, ls.prev, IN_USE, ls.inUse);
    if e in ls.lru {
      var j :| 0 <= j < |ls.lru| && ls.lru[j] == e;
      RemoveKeepsRing(ls.next, ls.prev, LRU, ls.lru, j);
      RemoveLeavesOther(ls.next, ls.prev, LRU, ls.lru, j, IN_USE, ls.inUse);
      DropIsWithout(ls.lru, j);
      DropMembers(ls.lru, j);
    } else {
      var j :| 0 <= j < |ls.inUse| && ls.inUse[j] == e;
      RemoveKeepsRing(ls.next, ls.prev, IN_USE, ls.inUse, j);
      RemoveLeavesOther(ls.next, ls.prev, IN_USE, ls.inUse, j, LRU, ls.lru);
      DropIsWithout(ls.inUse, j);
      DropMembers(ls.inUse, j);
    }
  }

  lemma RingDistinct(next: map<nat, nat>, prev: map<nat, nat>, head: nat, l: seq<nat>)
    requires IsRing(next, prev, head, l)
    ensures Distinct(l) && head !in l
  {
    TailDistinct(head, l);
  }

  lemma AppendedOk(ls: Lists, head: nat, e: nat)
    requires ListsOk(ls) && !Listed(ls, e) && e > IN_USE && (head == LRU || head == IN_USE)
    ensures head in ls.prev && ListsOk(Appended(ls, head, e))
  {
    hide IsRing;
    if head == LRU {
      AppendKeepsRing(ls.next, ls.prev, LRU, ls.lru, e);
      AppendLeavesOther(ls.next, ls.prev, LRU, ls.lru, e, IN_USE, ls.inUse);
    } else {
      AppendKeepsRing(ls.next, ls.prev, IN_USE, ls.inUse, e);
      AppendLeavesOther(ls.next, ls.prev, IN_USE, ls.inUse, e, LRU, ls.lru);
    }
  }

  // ---------------------------------------------------------------- what entries cost

  function Charges(handles: map<nat, Handle>, l: seq<nat>): nat {
    if l == [] then 0
    else Charges(handles, l[1..]) + if l[0] in handles then handles[l[0]].charge else 0
  }

  lemma {:induction false} ChargesDrop(handles: map<nat, Handle>, l: seq<nat>, e: nat)
    requires e in l && e in handles
    ensures Charges(handles, Drop(l, e)) + handles[e].charge == Charges(handles, l)
  {
    if l[0] != e {
      ChargesDrop(handles, l[1..], e);
      assert ([l[0]] + Drop(l[1..], e))[1..] == Drop(l[1..], e);
    }
  }

  lemma {:induction false} ChargesAppend(handles: map<nat, Handle>, l: seq<nat>, e: nat)
    ensures Charges(handles, l + [e]) == Charges(handles, l) + if e in handles then handles[e].charge else 0
  {
    if l == [] {
      assert [] + [e] == [e] && [e][1..] == [];
    } else {
      assert (l + [e])[1..] == l[1..] + [e];
      ChargesAppend(handles, l[1..], e);
    }
  }

  lemma {:induction false} ChargesFrame(handles: map<nat, Handle>, handles': map<nat, Handle>, l: seq<nat>)
    requires forall x :: x in l ==> (x in handles <==> x in handles') && (x in handles ==> handles'[x].charge == handles[x].charge)
    ensures Charges(handles', l) == Charges(handles, l)
  {
    if l != [] {
      assert l[0] in l && forall x :: x in l[1..] ==> x in l;
      ChargesFrame(handles, handles', l[1..]);
    }
  }

  // ---------------------------------------------------------------- the cache

  /** Everything but the hash table; `clients` counts the references that clients hold. */
  datatype State = State(handles: map<nat, Handle>, lists: Lists, usage: nat, nextId: nat, freed: seq<nat>, clients: map<nat, nat>)

  ghost predicate HandleOk(s: State, e: nat)
    requires e in s.handles
  {
    var h := s.handles[e];
    && IN_USE < e < s.nextId && e in s.clients
    && h.refs == s.clients[e] + (if h.inCache then 1 else 0) && h.refs >= 1
    // Each cached entry is on exactly one list, as its references decide.
    && (e in s.lists.lru <==> h.inCache && h.refs == 1)
    && (e in s.lists.inUse <==> h.inCache && h.refs >= 2)
  }

  /** A deleter runs once: no handle is freed twice, and every handle is either live or freed. */
  ghost predicate FreedOk(s: State) {
    && (forall i, j :: 0 <= i < j < |s.freed| ==> s.freed[i] != s.freed[j])
    && (forall e :: e in s.freed ==> e !in s.handles && e < s.nextId)
    && (forall e :: IN_USE < e < s.nextId ==> e in s.handles || e in s.freed)
    && s.nextId > IN_USE
  }

  ghost predicate StateOk(s: State) {
    && ListsOk(s.lists)
    && (forall e :: Listed(s.lists, e) ==> e in s.handles)
    && (forall e :: e in s.handles ==> HandleOk(s, e))
    && s.usage == Charges(s.handles, s.lists.lru) + Charges(s.handles, s.lists.inUse)
    && FreedOk(s)
  }

  /** From one list to the end of the other. */
  function Moved(ls: Lists, head: nat, e: nat): Lists
    requires e in ls.next && e in ls.prev && head in Removed(ls, e).prev
  {
    Appended(Removed(ls, e), head, e)
  }

  lemma MovedOk(handles: map<nat, Handle>, ls: Lists, head: nat, e: nat)
    requires ListsOk(ls) && e in handles && e > IN_USE
    requires (head == IN_USE && e in ls.lru && e !in ls.inUse) || (head == LRU && e in ls.inUse && e !in ls.lru)
    ensures e in ls.next && e in ls.prev && head in Removed(ls, e).prev
    ensures var ls' := Moved(ls, head, e);
            && ListsOk(ls')
            && (forall x :: x in ls'.lru <==> if x == e then head == LRU else x in ls.lru)
            && (forall x :: x in ls'.inUse <==> if x == e then head == IN_USE else x in ls.inUse)
            && Charges(handles, ls'.lru) + Charges(handles, ls'.inUse) == Charges(handles, ls.lru) + Charges(handles, ls.inUse)
  {
    hide ListsOk;
    RemovedOk(ls, e);
    AppendedOk(Removed(ls, e), head, e);
    if head == IN_USE {
      ChargesDrop(handles, ls.lru, e);
      ChargesAppend(handles, ls.inUse, e);
    } else {
      ChargesDrop(handles, ls.inUse, e);
      ChargesAppend(handles, ls.lru, e);
    }
  }

  ghost predicate SameCharges(handles: map<nat, Handle>, handles': map<nat, Handle>, ls: Lists) {
    forall x :: Listed(ls, x) ==> x in handles && x in handles' && handles'[x].charge == handles[x].charge
  }

  lemma SameUsage(handles: map<nat, Handle>, handles': map<nat, Handle>, ls: Lists)
    requires SameCharges(handles, handles', ls)
    ensures Charges(handles', ls.lru) == Charges(handles, ls.lru) && Charges(handles', ls.inUse) == Charges(handles, ls.inUse)
  {
    assert forall x :: x in ls.lru || x in ls.inUse ==> Listed(ls, x);
    ChargesFrame(handles, handles', ls.lru);
    ChargesFrame(handles, handles', ls.inUse);
  }

  /** Ref: a client takes a reference, which moves an evictable entry to the in-use list. */
  ghost predicate RefStep(s: State, e: nat, s': State) {
    && e in s.handles && e in s.clients
    && var h := s.handles[e];
    && s'.handles == s.handles[e := h.(refs := h.refs + 1)] && s'.clients == s.clients[e := s.clients[e] + 1]
    && s'.usage == s.usage && s'.nextId == s.nextId && s'.freed == s.freed
    && if h.refs == 1 && h.inCache then
         e in s.lists.next && e in s.lists.prev && IN_USE in Removed(s.lists, e).prev && s'.lists == Moved(s.lists, IN_USE, e)
       else s'.lists == s.lists
  }

  lemma RefKeeps(s: State, e: nat, s': State)
    requires StateOk(s) && RefStep(s, e, s')
    ensures StateOk(s')
    ensures SameListed(s, s')
  {
    hide ListsOk, Moved, Charges, Removed;
    assert HandleOk(s, e);
    if s.handles[e].refs == 1 && s.handles[e].inCache {
      MovedOk(s.handles, s.lists, IN_USE, e);
    }
    SameUsage(s.handles, s'.handles, s'.lists);
    forall x | x in s'.handles ensures HandleOk(s', x) {
      assert HandleOk(s, x);
    }
  }

  /** Unref by a client: the last reference of all frees the handle, the last one but the cache's makes
      the entry evictable, as the newest. */
  ghost predicate UnrefStep(s: State, e: nat, s': State) {
    && e in s.handles && e in s.clients && s.clients[e] >= 1 && s.handles[e].refs >= 1
    && var h := s.handles[e];
    && s'.usage == s.usage && s'.nextId == s.nextId
    && if h.refs == 1 then
         s'.handles == s.handles - {e} && s'.clients == s.clients - {e} && s'.freed == s.freed + [e] && s'.lists == s.lists
       else
         && s'.handles == s.handles[e := h.(refs := h.refs - 1)] && s'.clients == s.clients[e := s.clients[e] - 1]
         && s'.freed == s.freed
         && if h.inCache && h.refs == 2 then
              e in s.lists.next && e in s.lists.prev && LRU in Removed(s.lists, e).prev && s'.lists == Moved(s.lists, LRU, e)
            else s'.lists == s.lists
  }

  lemma UnrefKeeps(s: State, e: nat, s': State)
    requires StateOk(s) && UnrefStep(s, e, s')
    ensures StateOk(s')
    ensures SameListed(s, s')
  {
    hide ListsOk, Moved, Charges, Removed;
    assert HandleOk(s, e);
    if s.handles[e].refs == 2 && s.handles[e].inCache {
      MovedOk(s.handles, s.lists, LRU, e);
    }
    SameUsage(s.handles, s'.handles, s'.lists);
    forall x | x in s'.handles ensures HandleOk(s', x) {
      assert HandleOk(s, x);
    }
  }

  /** A held entry is not evictable, and the order of those that are stays. */
  lemma RefLists(s: State, e: nat, s': State)
    requires StateOk(s) && RefStep(s, e, s')
    ensures s'.lists.lru == Drop(s.lists.lru, e)
  {
    hide ListsOk, Charges;
    assert HandleOk(s, e);
    if e !in s.lists.lru {
      DropNone(s.lists.lru, e);
    }
  }

  lemma UnrefLists(s: State, e: nat, s': State)
    requires StateOk(s) && UnrefStep(s, e, s') && e in s.handles && e in s.clients
    ensures s'.lists.lru == s.lists.lru + if s.clients[e] == 1 && s.handles[e].inCache then [e] else []
    ensures s'.freed == s.freed + if s.clients[e] == 1 && !s.handles[e].inCache then [e] else []
  {
    hide ListsOk, Charges;
    assert HandleOk(s, e);
  }

  /** FinishErase: the entry leaves its list, and the cache gives up its reference. */
  ghost predicate EraseStep(s: State, e: nat, s': State) {
    && e in s.handles && s.handles[e].inCache && s.handles[e].refs >= 1
    && e in s.lists.next && e in s.lists.prev && s'.lists == Removed(s.lists, e)
    && var h := s.handles[e];
    && s.usage >= h.charge && s'.usage == s.usage - h.charge && s'.nextId == s.nextId
    && if h.refs == 1 then
         s'.handles == s.handles - {e} && s'.clients == s.clients - {e} && s'.freed == s.freed + [e]
       else
         s'.handles == s.handles[e := h.(inCache := false, refs := h.refs - 1)] && s'.clients == s.clients
         && s'.freed == s.freed
  }

  lemma EraseKeeps(s: State, e: nat, s': State)
    requires StateOk(s) && EraseStep(s, e, s')
    ensures StateOk(s')
    ensures forall x :: Listed(s'.lists, x) <==> Listed(s.lists, x) && x != e
  {
    hide ListsOk, Charges;
    assert HandleOk(s, e);
    RemovedOk(s.lists, e);
    if e in s.lists.lru {
      ChargesDrop(s.handles, s.lists.lru, e);
    } else {
      ChargesDrop(s.handles, s.lists.inUse, e);
    }
    hide Removed;
    SameUsage(s.handles, s'.handles, s'.lists);
    forall x | x in s'.handles ensures HandleOk(s', x) {
      assert HandleOk(s, x);
    }
  }

  /** What FinishErase needs in order not to go wrong. */
  lemma CanErase(s: State, e: nat)
    requires StateOk(s) && Listed(s.lists, e)
    ensures e in s.handles && s.handles[e].inCache && s.handles[e].refs >= 1 && s.usage >= s.handles[e].charge
    ensures e in s.lists.next && e in s.lists.prev
  {
    hide ListsOk, Charges;
    assert HandleOk(s, e);
    RemovedOk(s.lists, e);
    if e in s.lists.lru {
      ChargesDrop(s.handles, s.lists.lru, e);
    } else {
      ChargesDrop(s.handles, s.lists.inUse, e);
    }
  }

  /** A new handle with one client; if it is cached, it also joins the in-use list. */
  ghost predicate NewStep(s: State, key: HandleTables.Key, hash: nat, charge: nat, cached: bool, s': State) {
    var e := s.nextId;
    && s'.handles == s.handles[e := Handle(key, hash, charge, cached, if cached then 2 else 1)]
    && s'.clients == s.clients[e := 1] && s'.nextId == e + 1 && s'.freed == s.freed
    && s'.usage == s.usage + (if cached then charge else 0)
    && if cached then IN_USE in s.lists.prev && s'.lists == Appended(s.lists, IN_USE, e) else s'.lists == s.lists
  }

  /** The new handle, after which the cache gives up the entry that it replaces. */
  ghost predicate AddStep(s: State, key: HandleTables.Key, hash: nat, charge: nat, cached: bool, contents: Contents, s': State) {
    exists s1 :: NewStep(s, key, hash, charge, cached, s1) &&
      if cached && (key, hash) in contents then EraseStep(s1, contents[(key, hash)], s') else s' == s1
  }

  /** The n oldest entries that nobody held have been freed, oldest first, and one less was not enough. */
  ghost predicate Evicted(s: State, n: nat, capacity: nat, s': State) {
    && n <= |s.lists.lru| && s'.lists.lru == s.lists.lru[n..] && s'.lists.inUse == s.lists.inUse
    && s'.freed == s.freed + s.lists.lru[..n] && s'.nextId == s.nextId
    && (forall e :: e in s'.handles <==> e in s.handles && e !in s.lists.lru[..n])
    && (forall e :: e in s'.handles ==> s'.handles[e] == s.handles[e])
    && (n > 0 ==> s.lists.lru[n - 1] in s.handles && s'.usage + s.handles[s.lists.lru[n - 1]].charge > capacity)
  }

  lemma EvictedMeans(s: State, n: nat, capacity: nat, s': State)
    requires Evicted(s, n, capacity, s')
    ensures n <= |s.lists.lru| && s'.lists.lru == s.lists.lru[n..] && s'.freed == s.freed + s.lists.lru[..n]
    ensures n > 0 ==> s.lists.lru[n - 1] in s.handles && s'.usage + s.handles[s.lists.lru[n - 1]].charge > capacity
  {
  }

  lemma NoneEvicted(s: State, capacity: nat)
    ensures Evicted(s, 0, capacity, s)
  {
  }

  lemma EvictedOneMore(s: State, n: nat, capacity: nat, s1: State, s2: State)
    requires Evicted(s, n, capacity, s1) && s1.usage > capacity && s1.lists.lru != [] && s1.lists.lru[0] in s1.handles
    requires s2.lists.lru == s1.lists.lru[1..] && s2.lists.inUse == s1.lists.inUse && s2.nextId == s1.nextId
    requires s2.handles == s1.handles - {s1.lists.lru[0]} && s2.freed == s1.freed + [s1.lists.lru[0]]
    requires s2.usage + s1.handles[s1.lists.lru[0]].charge == s1.usage
    ensures Evicted(s, n + 1, capacity, s2)
  {
    assert s.lists.lru[..n + 1] == s.lists.lru[..n] + [s1.lists.lru[0]];
  }

  lemma NewKeeps(s: State, key: HandleTables.Key, hash: nat, charge: nat, cached: bool, s': State)
    requires StateOk(s) && NewStep(s, key, hash, charge, cached, s')
    ensures StateOk(s')
    ensures forall x :: Listed(s'.lists, x) <==> Listed(s.lists, x) || (cached && x == s.nextId)
  {
    hide ListsOk, Charges;
    var e := s.nextId;
    assert forall x :: x in s.handles ==> HandleOk(s, x);
    assert e !in s.handles;
    assert !Listed(s.lists, e);
    SameUsage(s.handles, s'.handles, s.lists);
    if cached {
      AppendedOk(s.lists, IN_USE, e);
      ChargesAppend(s'.handles, s.lists.inUse, e);
    }
    forall x | x in s'.handles ensures HandleOk(s', x) {
      if x != e { assert HandleOk(s, x); }
    }
  }

  // ---------------------------------------------------------------- what callers passed

  /** What the caller of Insert passed for an entry. */
  datatype Given = Given(key: HandleTables.Key, hash: nat, charge: nat)

  /** Every handle has the key, the hash and the charge that its caller passed. */
  ghost predicate AsGiven(handles: map<nat, Handle>, given: map<nat, Given>) {
    forall e :: e in handles ==> e in given && Given(handles[e].key, handles[e].hash, handles[e].charge) == given[e]
  }

  /** The sum of the charges that were passed for some entries. */
  function Total(given: map<nat, Given>, l: seq<nat>): nat {
    if l == [] then 0
    else Total(given, l[..|l| - 1]) + if l[|l| - 1] in given then given[l[|l| - 1]].charge else 0
  }

  lemma {:induction false} ChargesAreGiven(handles: map<nat, Handle>, given: map<nat, Given>, l: seq<nat>)
    requires AsGiven(handles, given) && forall e :: e in l ==> e in handles
    ensures Charges(handles, l) == Total(given, l)
  {
    if l != [] {
      var n := |l| - 1;
      ChargesAreGiven(handles, given, l[..n]);
      assert l == l[..n] + [l[n]];
      ChargesAppend(handles, l[..n], l[n]);
    }
  }

  lemma {:induction false} TotalConcat(given: map<nat, Given>, a: seq<nat>, b: seq<nat>)
    ensures Total(given, a + b) == Total(given, a) + Total(given, b)
  {
    if b == [] {
      assert a + b == a;
    } else {
      TotalConcat(given, a, b[..|b| - 1]);
      assert (a + b)[..|a + b| - 1] == a + b[..|b| - 1];
    }
  }

  /** The cached entries, once each, and what they cost. */
  lemma UsageIsGiven(s: State, given: map<nat, Given>)
    requires StateOk(s) && AsGiven(s.handles, given)
    ensures var cached := s.lists.lru + s.lists.inUse;
            && s.usage == Total(given, cached) && Distinct(cached)
            && forall e :: e in cached <==> e in s.handles && s.handles[e].inCache
  {
    hide IsRing, Charges, Total;
    var lru, inUse := s.lists.lru, s.lists.inUse;
    forall e ensures e in lru + inUse <==> e in s.handles && s.handles[e].inCache {
      if e in lru + inUse { assert Listed(s.lists, e); }
      if e in s.handles { assert HandleOk(s, e); }
    }
    ChargesAreGiven(s.handles, given, lru);
    ChargesAreGiven(s.handles, given, inUse);
    TotalConcat(given, lru, inUse);
    RingDistinct(s.lists.next, s.lists.prev, LRU, lru);
    RingDistinct(s.lists.next, s.lists.prev, IN_USE, inUse);
    forall e | e in lru ensures e !in inUse { assert Listed(s.lists, e) && HandleOk(s, e); }
    DistinctConcat(lru, inUse);
  }

  lemma DistinctConcat(a: seq<nat>, b: seq<nat>)
    requires Distinct(a) && Distinct(b) && forall e :: e in a ==> e !in b
    ensures Distinct(a + b)
  {
    forall i, j | 0 <= i < j < |a + b| ensures (a + b)[i] != (a + b)[j] {
      if i < |a| && |a| <= j { assert a[i] in a; }
    }
  }

  lemma UnrefKeepsGiven(s: State, e: nat, s': State, given: map<nat, Given>)
    requires UnrefStep(s, e, s') && AsGiven(s.handles, given)
    ensures AsGiven(s'.handles, given)
  {
  }

  lemma RefKeepsGiven(s: State, e: nat, s': State, given: map<nat, Given>)
    requires RefStep(s, e, s') && AsGiven(s.handles, given)
    ensures AsGiven(s'.handles, given)
  {
  }

  lemma EraseKeepsGiven(s: State, e: nat, s': State, given: map<nat, Given>)
    requires EraseStep(s, e, s') && AsGiven(s.handles, given)
    ensures AsGiven(s'.handles, given)
  {
  }

  /** The new handle is what the caller passed, and replacing another entry does not touch it. */
  lemma NewIsGiven(s: State, key: HandleTables.Key, hash: nat, charge: nat, cached: bool, s1: State, s2: State,
                   contents: Contents, given: map<nat, Given>)
    requires NewStep(s, key, hash, charge, cached, s1) && s.nextId !in s.handles && !Listed(s.lists, s.nextId)
    requires Tied(s, contents) && AsGiven(s.handles, given)
    requires if cached && (key, hash) in contents then EraseStep(s1, contents[(key, hash)], s2) else s2 == s1
    ensures AsGiven(s2.handles, given[s.nextId := Given(key, hash, charge)])
    ensures s.nextId in s2.handles
            && s2.handles[s.nextId] == Handle(key, hash, charge, cached, if cached then 2 else 1)
  {
    hide Removed, Appended;
    var given' := given[s.nextId := Given(key, hash, charge)];
    assert AsGiven(s1.handles, given');
    if cached && (key, hash) in contents {
      assert contents[(key, hash)] != s.nextId;
      EraseKeepsGiven(s1, contents[(key, hash)], s2, given');
    }
  }

  type Contents = map<(HandleTables.Key, nat), nat>

  function NameOf(h: Handle): (HandleTables.Key, nat) {
    (h.key, h.hash)
  }

  /** The hash table holds exactly the cached entries, under their own names. */
  ghost predicate Tied(s: State, contents: Contents) {
    && (forall n :: n in contents ==>
          Listed(s.lists, contents[n]) && contents[n] in s.handles && NameOf(s.handles[contents[n]]) == n)
    && (forall e :: Listed(s.lists, e) ==>
          e in s.handles && NameOf(s.handles[e]) in contents && contents[NameOf(s.handles[e])] == e)
  }

  lemma TiedTo(s: State, contents: Contents, n: (HandleTables.Key, nat))
    requires Tied(s, contents)
    ensures n in contents ==> Listed(s.lists, contents[n]) && contents[n] in s.handles && NameOf(s.handles[contents[n]]) == n
    ensures n !in contents ==> Tied(s, contents - {n})
  {
    if n !in contents { assert contents - {n} == contents; }
  }

  ghost predicate SameListed(s: State, s': State) {
    forall x :: Listed(s'.lists, x) <==> Listed(s.lists, x)
  }

  lemma RefKeepsTie(s: State, e: nat, s': State, contents: Contents)
    requires StateOk(s) && RefStep(s, e, s') && Tied(s, contents)
    ensures Tied(s', contents)
  {
    hide ListsOk, Moved, Removed, Charges, StateOk;
    RefKeeps(s, e, s');
  }

  lemma UnrefKeepsTie(s: State, e: nat, s': State, contents: Contents)
    requires StateOk(s) && UnrefStep(s, e, s') && Tied(s, contents)
    ensures Tied(s', contents)
  {
    hide ListsOk, Moved, Removed, Charges;
    assert HandleOk(s, e);
    UnrefKeeps(s, e, s');
  }

  lemma EraseKeepsTie(s: State, e: nat, s': State, contents: Contents)
    requires StateOk(s) && EraseStep(s, e, s') && Tied(s, contents) && Listed(s.lists, e)
    ensures Tied(s', contents - {NameOf(s.handles[e])})
  {
    hide ListsOk, Removed, Charges, StateOk;
    EraseKeeps(s, e, s');
  }

  /** A new entry takes its name, and an entry that had it is erased. */
  lemma NewKeepsTie(s: State, key: HandleTables.Key, hash: nat, charge: nat, s1: State, s2: State, contents: Contents)
    requires StateOk(s) && NewStep(s, key, hash, charge, true, s1) && Tied(s, contents)
    requires (key, hash) in contents ==> EraseStep(s1, contents[(key, hash)], s2)
    requires (key, hash) !in contents ==> s2 == s1
    ensures Tied(s2, contents[(key, hash) := s.nextId])
  {
    hide ListsOk, Removed, Appended, Charges, StateOk, HandleOk;
    NewIsNew(s);
    NewKeeps(s, key, hash, charge, true, s1);
    if (key, hash) in contents {
      ReplacedTie(s, key, hash, charge, s1, s2, contents);
    }
  }

  lemma ReplacedTie(s: State, key: HandleTables.Key, hash: nat, charge: nat, s1: State, s2: State, contents: Contents)
    requires StateOk(s1) && NewStep(s, key, hash, charge, true, s1) && Tied(s, contents) && !Listed(s.lists, s.nextId)
    requires forall x :: Listed(s1.lists, x) <==> Listed(s.lists, x) || x == s.nextId
    requires (key, hash) in contents && EraseStep(s1, contents[(key, hash)], s2)
    ensures Tied(s2, contents[(key, hash) := s.nextId])
  {
    hide ListsOk, Removed, Appended, Charges, StateOk, HandleOk, EraseStep, NewStep, Listed;
    EraseKeeps(s1, contents[(key, hash)], s2);
    EraseKeepsNames(s1, contents[(key, hash)], s2);
    NewKeepsNames(s, key, hash, charge, s1);
  }

  lemma EraseKeepsNames(s: State, e: nat, s': State)
    requires EraseStep(s, e, s')
    ensures forall x :: x in s.handles && x != e ==> x in s'.handles && NameOf(s'.handles[x]) == NameOf(s.handles[x])
  {
  }

  lemma NewKeepsNames(s: State, key: HandleTables.Key, hash: nat, charge: nat, s': State)
    requires NewStep(s, key, hash, charge, true, s')
    ensures s.nextId in s'.handles && NameOf(s'.handles[s.nextId]) == (key, hash)
    ensures forall x :: x in s.handles && x != s.nextId ==> x in s'.handles && NameOf(s'.handles[x]) == NameOf(s.handles[x])
  {
  }

  lemma NewIsNew(s: State)
    requires StateOk(s)
    ensures s.nextId !in s.handles && !Listed(s.lists, s.nextId)
  {
    hide ListsOk, Charges;
    assert forall x :: x in s.handles ==> HandleOk(s, x);
  }

  lemma StartOk()
    ensures StateOk(State(map[], Lists(map[LRU := LRU, IN_USE := IN_USE], map[LRU := LRU, IN_USE := IN_USE], [], []), 0, 2, [], map[]))
  {
    EmptyRing(map[LRU := LRU, IN_USE := IN_USE], map[LRU := LRU, IN_USE := IN_USE], LRU);
    EmptyRing(map[LRU := LRU, IN_USE := IN_USE], map[LRU := LRU, IN_USE := IN_USE], IN_USE);
  }

  /** The oldest evictable entry is behind the head of the list. */
  lemma OldestIs(s: State)
    requires StateOk(s)
    ensures LRU in s.lists.next && s.lists.next[LRU] == if s.lists.lru == [] then LRU else s.lists.lru[0]
    ensures s.lists.lru != [] ==>
              s.lists.lru[0] in s.handles && s.handles[s.lists.lru[0]].refs == 1 && s.handles[s.lists.lru[0]].inCache
              && s.lists.lru[0] != LRU && Listed(s.lists, s.lists.lru[0])
  {
    hide Charges;
    MembersLinked(s.lists.next, s.lists.prev, LRU, s.lists.lru);
    if s.lists.lru != [] {
      assert s.lists.lru[0] in s.lists.lru && Listed(s.lists, s.lists.lru[0]);
      assert HandleOk(s, s.lists.lru[0]);
    }
  }

  lemma HeldIsInUse(s: State, e: nat)
    requires StateOk(s) && e in s.handles && Listed(s.lists, e) && e in s.clients && s.clients[e] >= 1
    ensures e in s.lists.inUse
  {
    hide ListsOk, Charges;
    assert HandleOk(s, e);
  }

  lemma OldestAlone(s: State)
    requires StateOk(s) && s.lists.lru != []
    ensures s.lists.lru[0] !in s.lists.inUse && Drop(s.lists.lru, s.lists.lru[0]) == s.lists.lru[1..]
  {
    hide IsRing, Charges;
    assert s.lists.lru[0] in s.lists.lru;
  }

  /** The entry that is evicted is not the one that was just handed out. */
  lemma Evicting(s: State, e: nat, contents: Contents)
    requires StateOk(s) && Tied(s, contents) && s.lists.lru != [] && e in s.clients && s.clients[e] == 1
    ensures e != s.lists.lru[0] && s.lists.lru[0] in s.handles
    ensures forall n :: n in contents && contents[n] == e ==> n != NameOf(s.handles[s.lists.lru[0]])
  {
    hide ListsOk, Charges;
    var oldest := s.lists.lru[0];
    assert oldest in s.lists.lru && Listed(s.lists, oldest);
    assert HandleOk(s, oldest);
  }

  /** A handle that has just been made is nowhere yet. */
  lemma NewReady(s: State, list: seq<Option<nat>>, nodes: map<nat, Node>, chains: seq<seq<nat>>, ids: set<nat>, contents: Contents)
    requires StateOk(s) && TableOk(list, nodes, chains, ids, contents) && Tied(s, contents)
    ensures s.nextId !in ids && s.nextId !in s.handles && !Listed(s.lists, s.nextId) && s.nextId > IN_USE
    ensures IN_USE in s.lists.prev
  {
    hide Charges, Chained, Holds;
    assert forall x :: x in s.handles ==> HandleOk(s, x);
    assert forall e :: e in ids ==> Name(nodes, e) in contents && contents[Name(nodes, e)] == e;
    MembersLinked(s.lists.next, s.lists.prev, IN_USE, s.lists.inUse);
  }

  lemma StillListed(s: State, s1: State, contents: Contents, key: HandleTables.Key, hash: nat)
    requires Tied(s, contents) && forall x :: Listed(s1.lists, x) <==> Listed(s.lists, x) || x == s.nextId
    ensures (key, hash) in contents ==> Listed(s1.lists, contents[(key, hash)])
  {
  }

  lemma NewIsInUse(s: State, key: HandleTables.Key, hash: nat, charge: nat, s1: State, s2: State, contents: Contents)
    requires StateOk(s2) && Tied(s2, contents[(key, hash) := s.nextId]) && Tied(s, contents) && !Listed(s.lists, s.nextId)
    requires NewStep(s, key, hash, charge, true, s1)
    requires (key, hash) in contents ==> EraseStep(s1, contents[(key, hash)], s2)
    requires (key, hash) !in contents ==> s2 == s1
    ensures s.nextId in s2.lists.inUse && s.nextId in s2.clients && s2.clients[s.nextId] == 1
  {
    hide StateOk, Removed, Appended;
    assert (key, hash) in contents[(key, hash) := s.nextId];
    HeldIsInUse(s2, s.nextId);
  }

  lemma UncachedKeepsTie(s: State, key: HandleTables.Key, hash: nat, charge: nat, s': State, contents: Contents)
    requires StateOk(s) && NewStep(s, key, hash, charge, false, s') && Tied(s, contents)
    ensures Tied(s', contents)
  {
    hide ListsOk, Charges;
    assert forall x :: x in s.handles ==> HandleOk(s, x);
  }

  /** What a cached entry is afterwards. */
  lemma NewIsIn(s: State, key: HandleTables.Key, hash: nat, charge: nat, s1: State, s2: State, contents: Contents, given: map<nat, Given>)
    requires StateOk(s) && StateOk(s2) && Tied(s, contents) && AsGiven(s.handles, given) && NewStep(s, key, hash, charge, true, s1)
    requires s.nextId !in s.handles && !Listed(s.lists, s.nextId)
    requires (key, hash) in contents ==> EraseStep(s1, contents[(key, hash)], s2)
    requires (key, hash) !in contents ==> s2 == s1
    ensures Tied(s2, contents[(key, hash) := s.nextId]) && AsGiven(s2.handles, given[s.nextId := Given(key, hash, charge)])
    ensures s.nextId in s2.lists.inUse && s.nextId in s2.clients && s2.clients[s.nextId] == 1
    ensures s.nextId in s2.handles && s2.handles[s.nextId] == Handle(key, hash, charge, true, 2)
    ensures AddStep(s, key, hash, charge, true, contents, s2)
  {
    hide StateOk, Tied, AsGiven, NewStep, EraseStep, Listed;
    NewKeepsTie(s, key, hash, charge, s1, s2, contents);
    NewIsInUse(s, key, hash, charge, s1, s2, contents);
    NewIsGiven(s, key, hash, charge, true, s1, s2, contents, given);
  }

  lemma UncachedIsOut(s: State, key: HandleTables.Key, hash: nat, charge: nat, s': State, contents: Contents, given: map<nat, Given>)
    requires StateOk(s) && Tied(s, contents) && AsGiven(s.handles, given) && NewStep(s, key, hash, charge, false, s')
    requires s.nextId !in s.handles && !Listed(s.lists, s.nextId)
    ensures Tied(s', contents) && AsGiven(s'.handles, given[s.nextId := Given(key, hash, charge)])
    ensures s.nextId in s'.handles && s'.handles[s.nextId] == Handle(key, hash, charge, false, 1)
    ensures AddStep(s, key, hash, charge, false, contents, s')
  {
    hide StateOk, Tied, AsGiven, NewStep, EraseStep, Listed;
    UncachedKeepsTie(s, key, hash, charge, s', contents);
    NewIsGiven(s, key, hash, charge, false, s', s', contents, given);
  }

  lemma RefReady(s: State, e: nat)
    requires StateOk(s) && e in s.handles
    ensures e in s.clients
    ensures s.handles[e].refs == 1 && s.handles[e].inCache ==>
              e in s.lists.next && e in s.lists.prev && IN_USE in Removed(s.lists, e).prev
  {
    hide ListsOk, Charges;
    assert HandleOk(s, e);
    if s.handles[e].refs == 1 && s.handles[e].inCache {
      MovedOk(s.handles, s.lists, IN_USE, e);
    }
  }

  lemma UnrefReady(s: State, e: nat)
    requires StateOk(s) && e in s.handles && e in s.clients && s.clients[e] >= 1
    ensures s.handles[e].refs >= 1
    ensures s.handles[e].refs == 2 && s.handles[e].inCache ==>
              e in s.lists.next && e in s.lists.prev && LRU in Removed(s.lists, e).prev
  {
    hide ListsOk, Charges;
    assert HandleOk(s, e);
    if s.handles[e].refs == 2 && s.handles[e].inCache {
      MovedOk(s.handles, s.lists, LRU, e);
    }
  }

  class LRUCache {
    const capacity: nat
    const table: HandleTable
    var usage: nat
    var handles: map<nat, Handle>
    var next: map<nat, nat>
    var prev: map<nat, nat>
    var nextId: nat
    var freed: seq<nat>             // the deleter calls so far
    ghost var lru: seq<nat>         // oldest first
    ghost var inUse: seq<nat>
    ghost var clients: map<nat, nat>
    ghost var given: map<nat, Given>

    ghost function Now(): State
      reads this
    {
      State(handles, Lists(next, prev, lru, inUse), usage, nextId, freed, clients)
    }

    ghost predicate Valid()
      reads this, table
    {
      StateOk(Now()) && table.Valid() && Tied(Now(), table.contents) && AsGiven(handles, given)
    }

    constructor (capacity: nat)
      ensures Valid() && fresh(table) && this.capacity == capacity && table.contents == map[] && handles == map[] && freed == []
    {
      this.capacity := capacity;
      var t := new HandleTable();
      this.table := t;
      usage, handles, nextId, freed := 0, map[], 2, [];
      next, prev := map[LRU := LRU, IN_USE := IN_USE], map[LRU := LRU, IN_USE := IN_USE];
      lru, inUse, clients, given := [], [], map[], map[];
      new;
      StartOk();
    }

    method LruRemove(e: nat)
      requires e in next && e in prev
      modifies `next, `prev, `lru, `inUse
      ensures Lists(next, prev, lru, inUse) == Removed(old(Lists(next, prev, lru, inUse)), e)
    {
      lru, inUse := if e in lru then Drop(lru, e) else lru, if e in inUse then Drop(inUse, e) else inUse;
      next, prev := next[prev[e] := next[e]], prev[next[e] := prev[e]];
    }

    method LruAppend(head: nat, e: nat)
      requires head in prev
      modifies `next, `prev, `lru, `inUse
      ensures Lists(next, prev, lru, inUse) == Appended(old(Lists(next, prev, lru, inUse)), head, e)
    {
      next, prev := next[e := head], prev[e := prev[head]];
      next, prev := next[prev[e] := e], prev[head := e];
      lru, inUse := if head == LRU then lru + [e] else lru, if head == IN_USE then inUse + [e] else inUse;
    }

    method Ref(e: nat)
      requires StateOk(Now()) && e in handles
      modifies `next, `prev, `lru, `inUse, `handles, `clients
      ensures StateOk(Now()) && RefStep(old(Now()), e, Now())
    {
      hide StateOk, ListsOk, Removed, Appended, Charges;
      RefReady(Now(), e);
      ghost var s := Now();
      if handles[e].refs == 1 && handles[e].inCache {
        LruRemove(e);
        LruAppend(IN_USE, e);
      }
      handles := handles[e := handles[e].(refs := handles[e].refs + 1)];
      clients := clients[e := clients[e] + 1];
      RefKeeps(s, e, Now());
    }

    /** Unref on behalf of a client. */
    method Unref(e: nat)
      requires StateOk(Now()) && e in handles && e in clients && clients[e] >= 1
      modifies `next, `prev, `lru, `inUse, `handles, `clients, `freed
      ensures StateOk(Now()) && UnrefStep(old(Now()), e, Now())
    {
      hide StateOk, ListsOk, Removed, Appended, Charges;
      UnrefReady(Now(), e);
      ghost var s := Now();
      var h := handles[e].(refs := handles[e].refs - 1);
      if h.refs == 0 {
        freed := freed + [e];
        handles := handles - {e};
        clients := clients - {e};
      } else {
        if h.inCache && h.refs == 1 {
          LruRemove(e);
          LruAppend(LRU, e);
        }
        handles := handles[e := h];
        clients := clients[e := clients[e] - 1];
      }
      UnrefKeeps(s, e, Now());
    }

    /** Finish removing an entry that has already been removed from the hash table. */
    method FinishErase(e: Option<nat>)
      requires StateOk(Now()) && (e.Some? ==> Listed(Lists(next, prev, lru, inUse), e.value))
      modifies `next, `prev, `lru, `inUse, `handles, `clients, `freed, `usage
      ensures StateOk(Now())
      ensures e.None? ==> Now() == old(Now())
      ensures e.Some? ==> EraseStep(old(Now()), e.value, Now())
    {
      hide StateOk, ListsOk, Removed, Charges;
      if e.Some? {
        CanErase(Now(), e.value);
        ghost var s := Now();
        var h := handles[e.value];
        LruRemove(e.value);
        h := h.(inCache := false);
        usage := usage - h.charge;
        h := h.(refs := h.refs - 1);
        if h.refs == 0 {
          freed := freed + [e.value];
          handles := handles - {e.value};
          clients := clients - {e.value};
        } else {
          handles := handles[e.value := h];
        }
        EraseKeeps(s, e.value, Now());
      }
    }

    /** Look an entry up, and hold it. */
    method Lookup(key: HandleTables.Key, hash: nat) returns (e: Option<nat>)
      requires Valid()
      modifies this
      ensures Valid() && freed == old(freed)
      ensures e == if (key, hash) in table.contents then Some(table.contents[(key, hash)]) else None
      ensures e.Some? ==> e.value in inUse && e.value in old(clients)
                          && clients == old(clients)[e.value := old(clients)[e.value] + 1]
      ensures e.Some? ==> RefStep(old(Now()), e.value, Now())
      ensures e.None? ==> Now() == old(Now())
      ensures given == old(given)
      // An entry that nobody held leaves the list of evictable entries; the others keep their order.
      ensures e.Some? ==> handles == old(handles)[e.value := old(handles[e.value]).(refs := old(handles[e.value].refs) + 1)]
      ensures e.Some? ==> lru == Drop(old(lru), e.value)
    {
      hide StateOk, TableOk, PowerOfTwo, Moved, Removed, AsGiven;
      e := table.Lookup(key, hash);
      if e.Some? {
        ghost var s := Now();
        Ref(e.value);
        RefKeepsTie(s, e.value, Now(), table.contents);
        HeldIsInUse(Now(), e.value);
        RefLists(s, e.value, Now());
        RefKeepsGiven(s, e.value, Now(), given);
      }
    }

    /** Give a handle back. */
    method Release(e: nat)
      requires Valid() && e in handles && e in clients && clients[e] >= 1
      modifies this
      ensures Valid() && UnrefStep(old(Now()), e, Now()) && given == old(given)
      // A cached entry that nobody holds any more is evictable, after all others.
      ensures lru == old(lru) + if old(clients[e]) == 1 && old(handles[e].inCache) then [e] else []
      // The deleter runs if the entry is not cached and nobody else holds it.
      ensures freed == old(freed) + if old(clients[e]) == 1 && !old(handles[e].inCache) then [e] else []
    {
      hide StateOk, TableOk, PowerOfTwo, UnrefStep, AsGiven, Tied;
      ghost var s := Now();
      Unref(e);
      UnrefKeepsTie(s, e, Now(), table.contents);
      UnrefKeepsGiven(s, e, Now(), given);
      UnrefLists(s, e, Now());
    }

    /** table_.Remove and FinishErase. */
    method Erase(key: HandleTables.Key, hash: nat)
      requires Valid()
      modifies this, table
      ensures Valid() && table.contents == old(table.contents) - {(key, hash)}
      ensures (key, hash) in old(table.contents) ==> EraseStep(old(Now()), old(table.contents)[(key, hash)], Now())
      ensures (key, hash) !in old(table.contents) ==> Now() == old(Now())
      ensures given == old(given)
    {
      hide StateOk, TableOk, PowerOfTwo, Removed, EraseStep, AsGiven, Tied, Listed;
      ghost var s, contents := Now(), table.contents;
      TiedTo(s, contents, (key, hash));
      var e := table.Remove(key, hash);
      FinishErase(e);
      if e.Some? {
        EraseKeepsTie(s, e.value, Now(), contents);
        EraseKeepsGiven(s, e.value, Now(), given);
      }
    }

    /** Evict the oldest entry that nobody holds. */
    method EvictOldest()
      requires Valid() && lru != [] && LRU in next && next[LRU] == lru[0] && lru[0] in handles
      modifies this, table
      ensures Valid() && lru == old(lru)[1..] && inUse == old(inUse)
      ensures handles == old(handles) - {old(lru[0])} && freed == old(freed) + [old(lru[0])]
      ensures clients == old(clients) - {old(lru[0])} && nextId == old(nextId) && given == old(given)
      ensures usage + old(handles[lru[0]].charge) == old(usage)
      ensures table.contents == old(table.contents) - {NameOf(old(handles[lru[0]]))}
    {
      hide ListsOk, Charges, TableOk, PowerOfTwo;
      ghost var s := Now();
      OldestIs(s);
      OldestAlone(s);
      var oldest := next[LRU];
      Erase(handles[oldest].key, handles[oldest].hash);
    }

    /** The part of Insert that makes the handle and puts it in the cache, if there is any capacity. */
    method AddHandle(key: HandleTables.Key, hash: nat, charge: nat)
      requires Valid()
      modifies this, table
      ensures Valid() && old(nextId) in clients && clients[old(nextId)] == 1
      ensures AddStep(old(Now()), key, hash, charge, capacity > 0, old(table.contents), Now())
      ensures capacity > 0 ==> old(nextId) in inUse && table.contents == old(table.contents)[(key, hash) := old(nextId)]
      ensures capacity == 0 ==> table.contents == old(table.contents)
      ensures given == old(given)[old(nextId) := Given(key, hash, charge)]
      ensures old(nextId) in handles
              && handles[old(nextId)] == Handle(key, hash, charge, capacity > 0, if capacity > 0 then 2 else 1)
    {
      hide StateOk, TableOk, PowerOfTwo, EraseStep, AddStep, Tied, AsGiven;
      if capacity > 0 {
        AddCached(key, hash, charge);
        return;
      }
      var e := nextId;
      ghost var s, was := Now(), given;
      NewReady(s, table.list, table.entries, table.chains, table.ids, table.contents);
      nextId := nextId + 1;
      clients, given := clients[e := 1], given[e := Given(key, hash, charge)];
      handles := handles[e := Handle(key, hash, charge, false, 1)];
      NewKeeps(s, key, hash, charge, false, Now());
      UncachedIsOut(s, key, hash, charge, Now(), table.contents, was);
    }

    method AddCached(key: HandleTables.Key, hash: nat, charge: nat)
      requires Valid()
      modifies this, table
      ensures Valid() && old(nextId) in inUse && old(nextId) in clients && clients[old(nextId)] == 1
      ensures AddStep(old(Now()), key, hash, charge, true, old(table.contents), Now())
      ensures table.contents == old(table.contents)[(key, hash) := old(nextId)]
      ensures given == old(given)[old(nextId) := Given(key, hash, charge)]
      ensures old(nextId) in handles && handles[old(nextId)] == Handle(key, hash, charge, true, 2)
    {
      hide StateOk, TableOk, PowerOfTwo, Appended, Removed, Charges, EraseStep, AddStep, Tied, AsGiven;
      var e := nextId;
      ghost var s, contents, was := Now(), table.contents, given;
      NewReady(s, table.list, table.entries, table.chains, table.ids, contents);
      nextId := nextId + 1;
      clients, given := clients[e := 1], given[e := Given(key, hash, charge)];
      handles := handles[e := Handle(key, hash, charge, true, 2)];
      LruAppend(IN_USE, e);
      usage := usage + charge;
      ghost var s1 := Now();
      NewKeeps(s, key, hash, charge, true, s1);
      var replaced := table.Insert(e, key, hash);
      StillListed(s, s1, contents, key, hash);
      FinishErase(replaced);
      NewIsIn(s, key, hash, charge, s1, Now(), contents, was);
    }

    /** Insert's loop: evict the oldest while there is too much and something that nobody holds. */
    method EvictExcess(e: nat, ghost name: (HandleTables.Key, nat)) returns (ghost evicted: nat)
      requires Valid() && e in clients && clients[e] == 1
      requires capacity > 0 ==> name in table.contents && table.contents[name] == e && e in inUse
      modifies this, table
      ensures Valid() && e in clients && clients[e] == 1 && given == old(given)
      ensures Evicted(old(Now()), evicted, capacity, Now())
      ensures usage <= capacity || lru == []
      ensures capacity > 0 ==> name in table.contents && table.contents[name] == e
      ensures forall n :: n in table.contents ==> n in old(table.contents) && table.contents[n] == old(table.contents)[n]
    {
      hide StateOk, TableOk, PowerOfTwo, Evicted, Tied, AsGiven;
      evicted := 0;
      NoneEvicted(Now(), capacity);
      OldestIs(Now());
      while usage > capacity && next[LRU] != LRU
        invariant Valid() && LRU in next && next[LRU] == (if lru == [] then LRU else lru[0])
        invariant lru != [] ==> lru[0] in handles && lru[0] != LRU
        invariant Evicted(old(Now()), evicted, capacity, Now())
        invariant e in clients && clients[e] == 1 && given == old(given)
        invariant capacity > 0 ==> name in table.contents && table.contents[name] == e && e in inUse
        invariant forall n :: n in table.contents ==> n in old(table.contents) && table.contents[n] == old(table.contents)[n]
        decreases |lru|
      {
        ghost var s := Now();
        Evicting(s, e, table.contents);
        EvictOldest();
        EvictedOneMore(old(Now()), evicted, capacity, s, Now());
        evicted := evicted + 1;
        OldestIs(Now());
      }
    }

    /** Cache a new entry, or only hand it out if the cache has no capacity, and evict what is too much. */
    method Insert(key: HandleTables.Key, hash: nat, charge: nat) returns (e: nat, ghost added: State, ghost evicted: nat)
      requires Valid()
      modifies this, table
      ensures Valid() && e == old(nextId) && e in clients && clients[e] == 1
      ensures AddStep(old(Now()), key, hash, charge, capacity > 0, old(table.contents), added)
      ensures Evicted(added, evicted, capacity, Now())
      // The oldest are freed, and without the last of them usage would still exceed the capacity.
      ensures evicted <= |added.lists.lru| && lru == added.lists.lru[evicted..] && freed == added.freed + added.lists.lru[..evicted]
      ensures evicted > 0 ==>
                added.lists.lru[evicted - 1] in added.handles
                && usage + added.handles[added.lists.lru[evicted - 1]].charge > capacity
      // The handle is what the caller passed, held by the caller and, if there is any capacity, by the cache.
      ensures e in added.handles
              && added.handles[e] == Handle(key, hash, charge, capacity > 0, if capacity > 0 then 2 else 1)
      ensures given == old(given)[e := Given(key, hash, charge)]
      ensures usage == Total(given, lru + inUse)
      // Either everything fits, or nothing more can be evicted.
      ensures usage <= capacity || lru == []
      ensures capacity > 0 ==> (key, hash) in table.contents && table.contents[(key, hash)] == e
      // Other entries are as before or evicted.
      ensures forall n :: n in table.contents && n != (key, hash) ==> n in old(table.contents) && table.contents[n] == old(table.contents)[n]
    {
      hide StateOk, TableOk, PowerOfTwo, AddStep, Evicted, Tied, AsGiven, Total;
      e := nextId;
      AddHandle(key, hash, charge);
      added := Now();
      evicted := EvictExcess(e, (key, hash));
      UsageIsGiven(Now(), given);
      EvictedMeans(added, evicted, capacity, Now());
    }
  }
}
