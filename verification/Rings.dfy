/** Circular doubly linked lists with a dummy head, as in LRUCache (util/cache.cc). */
module Rings {
  import opened Sequences

  /** What follows position i of the circle. */
  ghost function Succ(c: seq<nat>, i: nat): nat
    requires i < |c|
  {
    if i + 1 < |c| then c[i + 1] else c[0]
  }

  /** The nodes of l, in this order, between the head and the head. */
  ghost predicate IsRing(next: map<nat, nat>, prev: map<nat, nat>, head: nat, l: seq<nat>) {
    var c := [head] + l;
    && Distinct(c)
    && (forall i :: 0 <= i < |c| ==> c[i] in next && c[i] in prev)
    && (forall i {:trigger Succ(c, i)} :: 0 <= i < |c| ==> next[c[i]] == Succ(c, i) && prev[Succ(c, i)] == c[i])
  }

  /** The neighbours of a node are linked to each other. */
  function RemovedNext(next: map<nat, nat>, prev: map<nat, nat>, e: nat): map<nat, nat>
    requires e in next && e in prev
  {
    next[prev[e] := next[e]]
  }

  function RemovedPrev(next: map<nat, nat>, prev: map<nat, nat>, e: nat): map<nat, nat>
    requires e in next && e in prev
  {
    prev[next[e] := prev[e]]
  }

  /** e goes just before the head, which makes it the newest. */
  function AppendedNext(next: map<nat, nat>, prev: map<nat, nat>, head: nat, e: nat): map<nat, nat>
    requires head in prev
  {
    next[e := head][prev[head] := e]
  }

  function AppendedPrev(next: map<nat, nat>, prev: map<nat, nat>, head: nat, e: nat): map<nat, nat>
    requires head in prev
  {
    prev[e := prev[head]][head := e]
  }

  function Without(l: seq<nat>, j: nat): seq<nat>
    requires j < |l|
  {
    l[..j] + l[j + 1..]
  }

  lemma Neighbours(next: map<nat, nat>, prev: map<nat, nat>, head: nat, l: seq<nat>, j: nat)
    requires IsRing(next, prev, head, l) && j < |l|
    ensures l[j] in next && l[j] in prev
    ensures prev[l[j]] == ([head] + l)[j] && next[l[j]] == Succ([head] + l, j + 1)
  {
    var c := [head] + l;
    assert Succ(c, j) == c[j + 1] == l[j] && next[c[j + 1]] == Succ(c, j + 1);
  }

  lemma RemoveKeepsRing(next: map<nat, nat>, prev: map<nat, nat>, head: nat, l: seq<nat>, j: nat)
    requires IsRing(next, prev, head, l) && j < |l|
    ensures l[j] in next && l[j] in prev
    ensures IsRing(RemovedNext(next, prev, l[j]), RemovedPrev(next, prev, l[j]), head, Without(l, j))
  {
    Neighbours(next, prev, head, l, j);
    var c, c' := [head] + l, [head] + Without(l, j);
    var next', prev' := RemovedNext(next, prev, l[j]), RemovedPrev(next, prev, l[j]);
    assert forall i :: 0 <= i < |c'| ==> c'[i] == c[if i <= j then i else i + 1];
    forall i | 0 <= i < |c'| ensures next'[c'[i]] == Succ(c', i) && prev'[Succ(c', i)] == c'[i] {
      var o := if i <= j then i else i + 1;
      assert next[c[o]] == Succ(c, o) && prev[Succ(c, o)] == c[o];
      RemovedSucc(c, c', j, i);
    }
  }

  /** Successors in the shorter circle. */
  lemma RemovedSucc(c: seq<nat>, c': seq<nat>, j: nat, i: nat)
    requires j + 1 < |c| == |c'| + 1 && i < |c'| && Distinct(c)
    requires forall k :: 0 <= k < |c'| ==> c'[k] == c[if k <= j then k else k + 1]
    ensures Succ(c', i) == if i == j then Succ(c, j + 1) else Succ(c, if i < j then i else i + 1)
    ensures i != j ==> Succ(c', i) != Succ(c, j + 1) && c'[i] != c[j]
  {
  }

  lemma AppendKeepsRing(next: map<nat, nat>, prev: map<nat, nat>, head: nat, l: seq<nat>, e: nat)
    requires IsRing(next, prev, head, l) && e != head && e !in l
    ensures head in prev
    ensures IsRing(AppendedNext(next, prev, head, e), AppendedPrev(next, prev, head, e), head, l + [e])
  {
    var c, c' := [head] + l, [head] + (l + [e]);
    var n := |c| - 1;
    assert c[0] == head && Succ(c, n) == head && prev[Succ(c, n)] == c[n];
    assert c' == c + [e];
    var next', prev' := AppendedNext(next, prev, head, e), AppendedPrev(next, prev, head, e);
    forall i | 0 <= i < |c'| ensures next'[c'[i]] == Succ(c', i) && prev'[Succ(c', i)] == c'[i] {
      if i < n {
        assert c'[i] == c[i] && next[c[i]] == Succ(c, i) && prev[Succ(c, i)] == c[i] && Succ(c', i) == Succ(c, i);
      }
    }
  }

  /** A ring does not notice changes to other nodes. */
  lemma RingFrame(next: map<nat, nat>, prev: map<nat, nat>, next': map<nat, nat>, prev': map<nat, nat>, head: nat, l: seq<nat>)
    requires IsRing(next, prev, head, l)
    requires forall x :: x == head || x in l ==>
               x in next && x in prev && x in next' && x in prev' && next'[x] == next[x] && prev'[x] == prev[x]
    ensures IsRing(next', prev', head, l)
  {
    var c := [head] + l;
    assert forall i :: 0 <= i < |c| ==> c[i] == head || c[i] in l;
    forall i | 0 <= i < |c| ensures next'[c[i]] == Succ(c, i) && prev'[Succ(c, i)] == c[i] {
      assert next[c[i]] == Succ(c, i) && prev[Succ(c, i)] == c[i];
    }
  }

  /** The rings of two heads have nothing in common. */
  ghost predicate Apart(head: nat, l: seq<nat>, head': nat, l': seq<nat>) {
    head != head' && head !in l' && head' !in l && forall x :: x in l ==> x !in l'
  }

  /** Removing from one ring leaves the other alone. */
  lemma RemoveLeavesOther(next: map<nat, nat>, prev: map<nat, nat>, head: nat, l: seq<nat>, j: nat, head': nat, l': seq<nat>)
    requires IsRing(next, prev, head, l) && j < |l| && IsRing(next, prev, head', l') && Apart(head, l, head', l')
    ensures l[j] in next && l[j] in prev
    ensures IsRing(RemovedNext(next, prev, l[j]), RemovedPrev(next, prev, l[j]), head', l')
  {
    Neighbours(next, prev, head, l, j);
    InCircle(head, l, j);
    MembersLinked(next, prev, head', l');
    RingFrame(next, prev, RemovedNext(next, prev, l[j]), RemovedPrev(next, prev, l[j]), head', l');
  }

  lemma InCircle(head: nat, l: seq<nat>, j: nat)
    requires j < |l|
    ensures ([head] + l)[j] == head || ([head] + l)[j] in l
    ensures Succ([head] + l, j + 1) == head || Succ([head] + l, j + 1) in l
  {
  }

  lemma MembersLinked(next: map<nat, nat>, prev: map<nat, nat>, head: nat, l: seq<nat>)
    requires IsRing(next, prev, head, l)
    ensures forall x :: x == head || x in l ==> x in next && x in prev
    ensures prev[head] == head || prev[head] in l
    ensures next[head] == if l == [] then head else l[0]
  {
    var c := [head] + l;
    assert forall x :: x in l ==> x in c;
    assert c[0] == head && next[c[0]] == Succ(c, 0);
    var n := |c| - 1;
    assert Succ(c, n) == head && prev[Succ(c, n)] == c[n];
  }

  /** Appending to one ring leaves the other alone. */
  lemma AppendLeavesOther(next: map<nat, nat>, prev: map<nat, nat>, head: nat, l: seq<nat>, e: nat, head': nat, l': seq<nat>)
    requires IsRing(next, prev, head, l) && IsRing(next, prev, head', l') && Apart(head, l, head', l')
    requires e != head' && e !in l'
    ensures head in prev
    ensures IsRing(AppendedNext(next, prev, head, e), AppendedPrev(next, prev, head, e), head', l')
  {
    MembersLinked(next, prev, head, l);
    MembersLinked(next, prev, head', l');
    RingFrame(next, prev, AppendedNext(next, prev, head, e), AppendedPrev(next, prev, head, e), head', l');
  }

  lemma EmptyRing(next: map<nat, nat>, prev: map<nat, nat>, head: nat)
    requires head in next && head in prev && next[head] == head && prev[head] == head
    ensures IsRing(next, prev, head, [])
  {
  }
}
