/** The live snapshots, oldest first, in a circular doubly linked list (db/snapshot.h). */
module SnapshotLists {
  import opened Rings

  const HEAD: nat := 0

  ghost function NumbersOf(list: seq<nat>, sequence: map<nat, nat>): (ns: seq<nat>)
    requires forall i :: 0 <= i < |list| ==> list[i] in sequence
    ensures |ns| == |list| && forall i :: 0 <= i < |list| ==> ns[i] == sequence[list[i]]
  {
    seq(|list|, i requires 0 <= i < |list| => sequence[list[i]])
  }

  class SnapshotList {
    var next: map<nat, nat>
    var prev: map<nat, nat>
    var sequence: map<nat, nat>
    var nextId: nat
    ghost var list: seq<nat>

    ghost predicate Valid()
      reads this
    {
      && IsRing(next, prev, HEAD, list)
      && nextId > HEAD
      && (forall i :: 0 <= i < |list| ==> HEAD < list[i] < nextId && list[i] in sequence)
      && (forall i, j :: 0 <= i < j < |list| ==> sequence[list[i]] <= sequence[list[j]])
    }

    /** The sequence numbers of the live snapshots: the snapshots of the database's state. */
    ghost function Numbers(): seq<nat>
      requires Valid()
      reads this
    {
      NumbersOf(list, sequence)
    }

    constructor ()
      ensures Valid() && Numbers() == []
    {
      next, prev, sequence, nextId, list := map[HEAD := HEAD], map[HEAD := HEAD], map[], 1, [];
      new;
      EmptyRing(next, prev, HEAD);
    }

    method IsEmpty() returns (empty: bool)
      requires Valid()
      ensures empty <==> Numbers() == []
    {
      Ends(next, prev, HEAD, list);
      empty := next[HEAD] == HEAD;
    }

    /** The smallest sequence number that is still readable. */
    method Oldest() returns (oldest: nat)
      requires Valid() && Numbers() != []
      ensures oldest == Numbers()[0] && forall n :: n in Numbers() ==> oldest <= n
    {
      Ends(next, prev, HEAD, list);
      oldest := sequence[next[HEAD]];
      assert oldest == Numbers()[0];
    }

    method New(s: nat) returns (snapshot: nat)
      requires Valid() && forall n :: n in Numbers() ==> n <= s
      modifies this
      ensures Valid() && Numbers() == old(Numbers()) + [s] && list == old(list) + [snapshot]
    {
      assert forall i :: 0 <= i < |list| ==> Numbers()[i] in Numbers();
      snapshot := nextId;
      AppendKeepsRing(next, prev, HEAD, list, snapshot);
      nextId := nextId + 1;
      sequence := sequence[snapshot := s];
      next, prev := AppendedNext(next, prev, HEAD, snapshot), AppendedPrev(next, prev, HEAD, snapshot);
      list := list + [snapshot];
    }

    method Delete(snapshot: nat, ghost index: nat)
      requires Valid() && index < |list| && list[index] == snapshot
      modifies this
      ensures Valid() && list == Without(old(list), index)
      ensures Numbers() == old(Numbers())[..index] + old(Numbers())[index + 1..]
    {
      RemoveKeepsRing(next, prev, HEAD, list, index);
      next, prev := RemovedNext(next, prev, snapshot), RemovedPrev(next, prev, snapshot);
      list := Without(list, index);
    }
  }

  /** What the head is linked to. */
  lemma Ends(next: map<nat, nat>, prev: map<nat, nat>, head: nat, l: seq<nat>)
    requires IsRing(next, prev, head, l)
    ensures head in next && next[head] == (if l == [] then head else l[0])
    ensures head in prev && prev[head] == (if l == [] then head else l[|l| - 1])
    ensures head !in l
  {
    var c := [head] + l;
    assert Succ(c, 0) == next[c[0]];
    assert Succ(c, |c| - 1) == head && prev[Succ(c, |c| - 1)] == c[|c| - 1];
    assert forall i :: 0 <= i < |l| ==> l[i] == c[i + 1];
  }
}
