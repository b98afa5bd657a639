/** The bytewise comparator (util/comparator.cc, include/leveldb/slice.h) and its embedding into
    ranks, which lets the other modules take user keys to be ranks. */
module Bytewise {
  import opened Coding

  /** Slice::compare: the first differing byte decides, then the length. */
  function Compare(a: seq<Byte>, b: seq<Byte>): int {
    if a == [] || b == [] then |a| - |b|
    else if a[0] != b[0] then a[0] as int - b[0] as int
    else Compare(a[1..], b[1..])
  }

  /** A byte string as a fraction in base 257, with digits above 0. */
  function Rank(s: seq<Byte>): (r: real)
    ensures 0.0 <= r < 1.0
  {
    if s == [] then 0.0 else (s[0] as real + 1.0 + Rank(s[1..])) / 257.0
  }

  /** Ranks compare like the strings, so the order of user keys is an order of ranks. */
  lemma {:induction false} RankKeepsOrder(a: seq<Byte>, b: seq<Byte>)
    ensures Compare(a, b) < 0 <==> Rank(a) < Rank(b)
    ensures Compare(a, b) == 0 <==> Rank(a) == Rank(b)
    ensures Compare(a, b) == 0 <==> a == b
  {
    if a != [] && b != [] {
      RankKeepsOrder(a[1..], b[1..]);
      assert a == [a[0]] + a[1..] && b == [b[0]] + b[1..];
    }
  }

  lemma CompareOrders(a: seq<Byte>, b: seq<Byte>, c: seq<Byte>)
    ensures Compare(a, b) < 0 && Compare(b, c) < 0 ==> Compare(a, c) < 0
    ensures Compare(a, b) < 0 <==> Compare(b, a) > 0
  {
    RankKeepsOrder(a, b);
    RankKeepsOrder(b, a);
    RankKeepsOrder(b, c);
    RankKeepsOrder(a, c);
  }

  lemma {:induction false} DifferenceDecides(a: seq<Byte>, b: seq<Byte>, i: nat)
    requires i < |a| && i < |b| && a[..i] == b[..i] && a[i] < b[i]
    ensures Compare(a, b) < 0
    decreases i
  {
    if i > 0 {
      assert a[0] == a[..i][0] && b[0] == b[..i][0];
      assert a[1..][..i - 1] == a[..i][1..] && b[1..][..i - 1] == b[..i][1..];
      DifferenceDecides(a[1..], b[1..], i - 1);
    }
  }

  lemma {:induction false} PrefixIsLess(a: seq<Byte>, b: seq<Byte>)
    requires |a| < |b| && b[..|a|] == a
    ensures Compare(a, b) < 0
  {
    if a != [] {
      assert a[0] == b[..|a|][0] && a[1..] == b[..|a|][1..] == b[1..][..|a| - 1];
      PrefixIsLess(a[1..], b[1..]);
    }
  }

  lemma {:induction false} WhereTheyDiffer(a: seq<Byte>, b: seq<Byte>) returns (i: nat)
    requires Compare(a, b) < 0
    ensures i <= |a| && i < |b| && a[..i] == b[..i] && (i < |a| ==> a[i] < b[i])
  {
    if a == [] || a[0] != b[0] {
      i := 0;
    } else {
      i := WhereTheyDiffer(a[1..], b[1..]);
      i := i + 1;
      assert a[..i] == [a[0]] + a[1..][..i - 1] && b[..i] == [b[0]] + b[1..][..i - 1];
    }
  }

  /** The order of byte strings: at the first difference the smaller byte decides, and a string comes
      after its own beginnings. */
  lemma CompareMeans(a: seq<Byte>, b: seq<Byte>)
    ensures Compare(a, b) < 0 <==>
              exists i :: 0 <= i <= |a| && i < |b| && a[..i] == b[..i] && (i < |a| ==> a[i] < b[i])
  {
    hide Compare;
    if Compare(a, b) < 0 {
      var i := WhereTheyDiffer(a, b);
    }
    forall i | 0 <= i <= |a| && i < |b| && a[..i] == b[..i] && (i < |a| ==> a[i] < b[i]) ensures Compare(a, b) < 0 {
      if i < |a| {
        DifferenceDecides(a, b, i);
      } else {
        PrefixIsLess(a, b);
      }
    }
  }

  /** What FindShortestSeparator does: where the strings first differ, start ends one higher if that keeps
      it below limit; otherwise it stays. */
  ghost predicate IsSeparator(start: seq<Byte>, limit: seq<Byte>, r: seq<Byte>) {
    exists i :: 0 <= i <= |start| && i <= |limit| && start[..i] == limit[..i]
      && (i < |start| && i < |limit| ==> start[i] != limit[i])
      && r == if i < |start| && i < |limit| && start[i] < 255 && start[i] + 1 < limit[i] then start[..i] + [start[i] + 1]
              else start
  }

  /** What FindShortSuccessor does: the first byte below 255 is raised and ends the string. */
  ghost predicate IsSuccessor(key: seq<Byte>, r: seq<Byte>) {
    exists i :: 0 <= i <= |key| && (forall j :: 0 <= j < i ==> key[j] == 255)
      && (i < |key| ==> key[i] < 255 && r == key[..i] + [key[i] + 1]) && (i == |key| ==> r == key)
  }

  /** A string from start on, or strictly between start and limit and no longer than start. */
  method FindShortestSeparator(start: seq<Byte>, limit: seq<Byte>) returns (r: seq<Byte>)
    ensures r == start || (Compare(start, r) < 0 && Compare(r, limit) < 0 && |r| <= |start|)
    ensures IsSeparator(start, limit, r)
  {
    hide Compare;
    var minLength := if |start| < |limit| then |start| else |limit|;
    var diffIndex := 0;
    while diffIndex < minLength && start[diffIndex] == limit[diffIndex]
      invariant diffIndex <= minLength && start[..diffIndex] == limit[..diffIndex]
    {
      diffIndex := diffIndex + 1;
    }
    r := start;
    if diffIndex < minLength {
      var diffByte: int := start[diffIndex];
      if diffByte < 0xff && diffByte + 1 < limit[diffIndex] {
        r := start[..diffIndex] + [diffByte + 1];
        assert r[..diffIndex] == start[..diffIndex];
        DifferenceDecides(start, r, diffIndex);
        DifferenceDecides(r, limit, diffIndex);
      }
    }
  }

  method FindShortSuccessor(key: seq<Byte>) returns (r: seq<Byte>)
    ensures r == key || (Compare(key, r) < 0 && |r| <= |key|)
    ensures IsSuccessor(key, r)
  {
    hide Compare;
    for i := 0 to |key|
      invariant forall j :: 0 <= j < i ==> key[j] == 255
    {
      var b: int := key[i];
      if b != 0xff {
        r := key[..i] + [b + 1];
        assert r[..i] == key[..i];
        DifferenceDecides(key, r, i);
        return;
      }
    }
    r := key;
  }
}
