/** The memtable's skip list (db/skiplist.h): one writer, any number of lock-free readers.

    Memory is the arena: node addresses are indices into it, node 0 is head_, and every link is one
    shared word.  A state machine interleaves the writer's single stores with the readers' single
    loads; module SkipListClass has the same operations as straight-line code. */
module SkipLists {
  import opened Keys

  const MAX_HEIGHT: nat := 12
  const HEAD: nat := 0

  /** A link is uninitialised memory, a null pointer or a node. */
  datatype Link = Unset | Null | To(node: nat)

  datatype Node = Node(entry: Entry, next: seq<Link>)

  datatype Memory = Memory(nodes: seq<Node>, maxHeight: nat)

  ghost predicate HasLink(m: Memory, i: nat, n: nat) {
    n < |m.nodes| && i < |m.nodes[n].next|
  }

  function Load(m: Memory, i: nat, n: nat): Link
    requires HasLink(m, i, n)
  {
    m.nodes[n].next[i]
  }

  function SetNext(m: Memory, i: nat, n: nat, link: Link): Memory
    requires HasLink(m, i, n)
  {
    m.(nodes := m.nodes[n := m.nodes[n].(next := m.nodes[n].next[i := link])])
  }

  function NewNode(m: Memory, e: Entry, height: nat): Memory {
    m.(nodes := m.nodes + [Node(e, seq(height, _ => Unset))])
  }

  // ---------------------------------------------------------------- the lists in memory

  /** What follows position j of a list of nodes. */
  function After(l: seq<nat>, j: nat): Link {
    if j + 1 < |l| then To(l[j + 1]) else Null
  }

  ghost predicate Allocated(m: Memory, l: seq<nat>) {
    forall j :: 0 <= j < |l| ==> l[j] < |m.nodes|
  }

  /** The entries of a list, without the head. */
  function Entries(m: Memory, l: seq<nat>): (es: seq<Entry>)
    requires Allocated(m, l) && |l| > 0
  {
    seq(|l| - 1, j requires 0 <= j < |l| - 1 => m.nodes[l[j + 1]].entry)
  }

  /** Following the level-i links from the head visits exactly the nodes of l, in key order. */
  ghost predicate IsLevel(m: Memory, i: nat, l: seq<nat>) {
    && |l| > 0 && l[0] == HEAD && (forall j :: 0 < j < |l| ==> l[j] != HEAD)
    && Allocated(m, l)
    && (forall j :: 0 <= j < |l| ==> HasLink(m, i, l[j]))
    && (forall j {:trigger After(l, j)} :: 0 <= j < |l| ==> Load(m, i, l[j]) == After(l, j))
    && Sorted(Entries(m, l))
  }

  /** Every node of l is in the list one level below. */
  ghost predicate Within(l: seq<nat>, below: seq<nat>) {
    forall n :: n in l ==> n in below
  }

  /** The whole structure: every level is a sorted list of initialised nodes, and a sublist of the
      level below; levels that are not in use are empty. */
  ghost predicate WellLinked(m: Memory, levels: seq<seq<nat>>) {
    && |levels| == MAX_HEIGHT && 1 <= m.maxHeight <= MAX_HEIGHT
    && (forall i :: 0 <= i < MAX_HEIGHT ==> IsLevel(m, i, levels[i]))
    && (forall i, k :: 0 <= i < k < MAX_HEIGHT ==> Within(levels[k], levels[i]))
    && (forall i :: m.maxHeight <= i < MAX_HEIGHT ==> levels[i] == [HEAD])
  }

  /** The contents, in key order. */
  function Contents(m: Memory, levels: seq<seq<nat>>): seq<Entry>
    requires WellLinked(m, levels)
  {
    assert IsLevel(m, 0, levels[0]);
    Entries(m, levels[0])
  }

  /** A walk along the pointers themselves, which does not know the lists. */
  ghost function Walk(m: Memory, i: nat, n: nat, steps: nat): (r: (seq<nat>, Link))
    decreases steps
  {
    if !HasLink(m, i, n) then ([], Unset)
    else if steps == 0 || !Load(m, i, n).To? then ([n], Load(m, i, n))
    else var rest := Walk(m, i, Load(m, i, n).node, steps - 1); ([n] + rest.0, rest.1)
  }

  lemma {:induction false} WalkFrom(m: Memory, i: nat, l: seq<nat>, j: nat, steps: nat)
    requires IsLevel(m, i, l) && j < |l| && steps >= |l|
    ensures Walk(m, i, l[j], steps - j) == (l[j..], Null)
    decreases |l| - j
  {
    assert HasLink(m, i, l[j]) && Load(m, i, l[j]) == After(l, j);
    if j + 1 < |l| {
      WalkFrom(m, i, l, j + 1, steps);
      assert Load(m, i, l[j]) == To(l[j + 1]);
      assert l[j..] == [l[j]] + l[j + 1..];
    } else {
      assert l[j..] == [l[j]];
    }
  }

  /** A walk from the head at any level ends at a null link, never at an uninitialised one, after
      visiting a sorted list of nodes, all of which the walk one level down also visits. */
  lemma WalksAreSortedSublists(m: Memory, levels: seq<seq<nat>>, i: nat, steps: nat)
    requires WellLinked(m, levels) && i < MAX_HEIGHT && steps >= |levels[i]|
    requires i > 0 ==> steps >= |levels[i - 1]|
    ensures Walk(m, i, HEAD, steps) == (levels[i], Null)
    ensures Sorted(Entries(m, levels[i]))
    ensures i > 0 ==> Within(Walk(m, i, HEAD, steps).0, Walk(m, i - 1, HEAD, steps).0)
  {
    WalkFrom(m, i, levels[i], 0, steps);
    assert levels[i][0..] == levels[i];
    if i > 0 {
      WalkFrom(m, i - 1, levels[i - 1], 0, steps);
      assert levels[i - 1][0..] == levels[i - 1];
    }
  }

  // ---------------------------------------------------------------- one load of a search

  /** FindLast searches for the end: there every key comes before the target. */
  predicate Precedes(k: IKey, target: Option<IKey>) {
    target.None? || Less(k, target.value)
  }

  function Position(es: seq<Entry>, target: Option<IKey>): (n: nat)
    ensures n <= |es|
  {
    if target.None? then |es| else LowerBound(es, target.value)
  }

  lemma PositionSplits(es: seq<Entry>, target: Option<IKey>, i: nat)
    requires Sorted(es) && i < |es|
    ensures Precedes(es[i].key, target) <==> i < Position(es, target)
  {
    if target.Some? { LowerBoundSplits(es, target.value, i); }
  }

  /** Where a search may be: on a node of the list it is reading that comes before the target. */
  ghost predicate OnTheWay(m: Memory, l: seq<nat>, x: nat, target: Option<IKey>) {
    x in l && x < |m.nodes| && (x == HEAD || Precedes(m.nodes[x].entry.key, target))
  }

  /** The test of the search loops: move on along this level? */
  predicate MoveOn(m: Memory, next: Link, target: Option<IKey>) {
    next.To? && next.node < |m.nodes| && Precedes(m.nodes[next.node].entry.key, target)
  }

  lemma SearchPosition(m: Memory, i: nat, l: seq<nat>, x: nat, target: Option<IKey>) returns (j: nat)
    requires IsLevel(m, i, l) && OnTheWay(m, l, x, target)
    ensures j < |l| && l[j] == x && j <= Position(Entries(m, l), target)
    ensures HasLink(m, i, x) && Load(m, i, x) == After(l, j)
  {
    if x == HEAD {
      j := 0;
    } else {
      j :| 0 <= j < |l| && l[j] == x;
      PositionSplits(Entries(m, l), target, j - 1);
    }
  }

  /** A load finds an initialised link, and either the search moves on to a later node of the same
      list, or it has found the two neighbours of the target in that list. */
  lemma LoadSearches(m: Memory, i: nat, l: seq<nat>, x: nat, target: Option<IKey>)
    requires IsLevel(m, i, l) && OnTheWay(m, l, x, target)
    ensures HasLink(m, i, x) && Load(m, i, x) != Unset
    ensures MoveOn(m, Load(m, i, x), target) ==> OnTheWay(m, l, Load(m, i, x).node, target)
    ensures !MoveOn(m, Load(m, i, x), target) ==>
              var p := Position(Entries(m, l), target); x == l[p] && Load(m, i, x) == After(l, p)
  {
    var j := SearchPosition(m, i, l, x, target);
    var es := Entries(m, l);
    if j + 1 < |l| {
      assert es[j] == m.nodes[l[j + 1]].entry;
      PositionSplits(es, target, j);
    }
  }

  // ---------------------------------------------------------------- the writer's stores

  /** A store elsewhere leaves a list alone. */
  lemma LevelFrame(m: Memory, m': Memory, i: nat, l: seq<nat>)
    requires IsLevel(m, i, l)
    requires forall j :: 0 <= j < |l| ==> HasLink(m', i, l[j]) && Load(m', i, l[j]) == Load(m, i, l[j])
    requires forall j :: 0 <= j < |l| ==> HasLink(m', i, l[j]) && m'.nodes[l[j]].entry == m.nodes[l[j]].entry
    ensures IsLevel(m', i, l) && Entries(m', l) == Entries(m, l)
  {
    assert Allocated(m', l);
    assert Entries(m', l) == Entries(m, l);
  }

  function Spliced(l: seq<nat>, j: nat, x: nat): seq<nat>
    requires j < |l|
  {
    l[..j + 1] + [x] + l[j + 1..]
  }

  /** Publishing an initialised node inserts it into the list. */
  lemma PublishSplices(m: Memory, i: nat, l: seq<nat>, j: nat, x: nat)
    requires IsLevel(m, i, l) && j < |l| && x !in l && HasLink(m, i, x)
    requires Load(m, i, x) == After(l, j)
    requires j == LowerBound(Entries(m, l), m.nodes[x].entry.key)
    requires forall e :: e in Entries(m, l) ==> e.key != m.nodes[x].entry.key
    ensures var m' := SetNext(m, i, l[j], To(x));
            IsLevel(m', i, Spliced(l, j, x)) && Entries(m', Spliced(l, j, x)) == Insert(Entries(m, l), m.nodes[x].entry)
  {
    var m' := SetNext(m, i, l[j], To(x));
    var l' := Spliced(l, j, x);
    var e := m.nodes[x].entry;
    DistinctNodes(m, i, l);
    forall k | 0 <= k < |l'| ensures HasLink(m', i, l'[k]) && Load(m', i, l'[k]) == After(l', k) {
      SplicedLink(m, i, l, j, x, k);
    }
    SplicedEntries(m, m', l, j, x);
    assert Sorted(Entries(m', l')) && Entries(m', l') == Insert(Entries(m, l), e) by {
      InsertIsSplice(Entries(m, l), e);
      InsertSorted(Entries(m, l), e);
    }
    assert forall k :: 0 < k < |l'| ==> l'[k] != HEAD;
    assert l'[0] == HEAD;
  }

  lemma SplicedEntries(m: Memory, m': Memory, l: seq<nat>, j: nat, x: nat)
    requires Allocated(m, l) && j < |l| && x < |m.nodes| && |m'.nodes| == |m.nodes|
    requires forall n :: 0 <= n < |m.nodes| ==> m'.nodes[n].entry == m.nodes[n].entry
    ensures Allocated(m', Spliced(l, j, x))
    ensures Entries(m', Spliced(l, j, x)) == Entries(m, l)[..j] + [m.nodes[x].entry] + Entries(m, l)[j..]
  {
    var l', es, es' := Spliced(l, j, x), Entries(m, l), Entries(m', Spliced(l, j, x));
    forall k | 0 <= k < |l| ensures es'[k] == (es[..j] + [m.nodes[x].entry] + es[j..])[k] {
      if k < j {
        assert l'[k + 1] == l[k + 1];
      } else if k > j {
        assert l'[k + 1] == l[k];
      }
    }
  }

  lemma DistinctNodes(m: Memory, i: nat, l: seq<nat>)
    requires IsLevel(m, i, l)
    ensures forall a, b :: 0 <= a < b < |l| ==> l[a] != l[b]
  {
    forall a, b | 0 < a < b < |l| ensures l[a] != l[b] {
      assert Less(Entries(m, l)[a - 1].key, Entries(m, l)[b - 1].key);
    }
  }

  lemma SplicedLink(m: Memory, i: nat, l: seq<nat>, j: nat, x: nat, k: nat)
    requires IsLevel(m, i, l) && j < |l| && x !in l && HasLink(m, i, x) && k <= |l|
    requires forall a, b :: 0 <= a < b < |l| ==> l[a] != l[b]
    requires Load(m, i, x) == After(l, j)
    ensures var m' := SetNext(m, i, l[j], To(x)); var l' := Spliced(l, j, x);
            HasLink(m', i, l'[k]) && Load(m', i, l'[k]) == After(l', k)
  {
    var l' := Spliced(l, j, x);
    if k < j {
      assert l'[k] == l[k] && After(l', k) == After(l, k);
    } else if k > j + 1 {
      assert l'[k] == l[k - 1] && After(l', k) == After(l, k - 1);
    }
  }

  lemma {:induction false} InsertIsSplice(es: seq<Entry>, e: Entry)
    requires forall x :: x in es ==> x.key != e.key
    ensures var p := LowerBound(es, e.key); Insert(es, e) == es[..p] + [e] + es[p..]
  {
    if es == [] {
    } else if Less(es[0].key, e.key) {
      InsertIsSplice(es[1..], e);
      SpliceCons(es, LowerBound(es[1..], e.key), e);
    } else {
      assert es[0] in es;
      SpliceFront(es, e);
    }
  }

  lemma SpliceCons<T>(s: seq<T>, p: nat, x: T)
    requires p < |s|
    ensures s[..p + 1] + [x] + s[p + 1..] == [s[0]] + (s[1..][..p] + [x] + s[1..][p..])
  {
  }

  lemma SpliceFront<T>(s: seq<T>, x: T)
    ensures s[..0] + [x] + s[0..] == [x] + s
  {
  }

  /** What an insertion has done so far: x is linked into the levels below `level`, and primed says
      that its link at that level has been stored. */
  datatype Writer =
    | Idle
    | Inserting(x: nat, height: nat, prev: seq<nat>, level: nat, primed: bool)

  /** p is the last node of l before key k, and k is new to l. */
  ghost predicate Fits(m: Memory, l: seq<nat>, p: nat, k: IKey) {
    && Allocated(m, l) && |l| > 0
    && p == l[LowerBound(Entries(m, l), k)]
    && forall e :: e in Entries(m, l) ==> e.key != k
  }

  ghost predicate StillToLink(m: Memory, i: nat, l: seq<nat>, x: nat, p: nat) {
    x < |m.nodes| && x !in l && Fits(m, l, p, m.nodes[x].entry.key)
  }

  ghost predicate WriterOk(m: Memory, levels: seq<seq<nat>>, w: Writer)
    requires |levels| == MAX_HEIGHT
  {
    w.Inserting? ==>
      && w.level < w.height <= MAX_HEIGHT && |w.prev| == w.height
      && 0 < w.x < |m.nodes| && |m.nodes[w.x].next| == w.height
      && (forall i :: 0 <= i < w.level ==> w.x in levels[i])
      && (forall i :: w.level <= i < w.height ==> StillToLink(m, i, levels[i], w.x, w.prev[i]))
      && (forall i :: w.height <= i < MAX_HEIGHT ==> w.x !in levels[i])
      && (w.level > 0 || w.primed ==> w.height <= m.maxHeight)
      && (w.primed ==> HasLink(m, w.level, w.prev[w.level]) &&
                       Load(m, w.level, w.x) == Load(m, w.level, w.prev[w.level]))
  }

  /** What stays true of memory whatever the writer does: nodes keep their keys, and lists grow. */
  ghost predicate Grows(m: Memory, levels: seq<seq<nat>>, m': Memory, levels': seq<seq<nat>>) {
    && |levels| == |levels'| == MAX_HEIGHT && |m.nodes| <= |m'.nodes|
    && (forall n :: 0 <= n < |m.nodes| ==> m'.nodes[n].entry == m.nodes[n].entry)
    && (forall i :: 0 <= i < MAX_HEIGHT ==> Within(levels[i], levels'[i]))
  }

  /** The predecessors that the search at the start of Insert finds. */
  function Predecessors(m: Memory, levels: seq<seq<nat>>, k: IKey, height: nat): seq<nat>
    requires WellLinked(m, levels) && height <= MAX_HEIGHT
  {
    seq(height, i requires 0 <= i < height =>
      assert IsLevel(m, i, levels[i]); levels[i][LowerBound(Entries(m, levels[i]), k)])
  }

  lemma NewNodeKeeps(m: Memory, levels: seq<seq<nat>>, e: Entry, height: nat)
    requires WellLinked(m, levels) && 1 <= height <= MAX_HEIGHT
    requires forall x :: x in Contents(m, levels) ==> x.key != e.key
    ensures var m' := NewNode(m, e, height);
            var w := Inserting(|m.nodes|, height, Predecessors(m, levels, e.key, height), 0, false);
            WellLinked(m', levels) && WriterOk(m', levels, w) && Grows(m, levels, m', levels)
            && Contents(m', levels) == Contents(m, levels)
  {
    var m', x := NewNode(m, e, height), |m.nodes|;
    forall i | 0 <= i < MAX_HEIGHT
      ensures IsLevel(m', i, levels[i]) && Entries(m', levels[i]) == Entries(m, levels[i]) && x !in levels[i]
    {
      assert IsLevel(m, i, levels[i]);
      LevelFrame(m, m', i, levels[i]);
    }
    var prev := Predecessors(m, levels, e.key, height);
    forall i | 0 <= i < height ensures StillToLink(m', i, levels[i], x, prev[i]) {
      assert IsLevel(m, i, levels[i]) && IsLevel(m', i, levels[i]);
      LevelKeys(m, levels, i, e.key);
    }
  }

  /** A key that is not in the list is at no level. */
  lemma LevelKeys(m: Memory, levels: seq<seq<nat>>, i: nat, k: IKey)
    requires WellLinked(m, levels) && i < MAX_HEIGHT && forall x :: x in Contents(m, levels) ==> x.key != k
    ensures IsLevel(m, i, levels[i]) && forall x :: x in Entries(m, levels[i]) ==> x.key != k
  {
    assert IsLevel(m, i, levels[i]) && IsLevel(m, 0, levels[0]);
    var l, es := levels[i], Entries(m, levels[i]);
    forall j | 0 <= j < |es| ensures es[j].key != k {
      assert l[j + 1] in l && (i > 0 ==> Within(l, levels[0]));
      var a :| 0 <= a < |levels[0]| && levels[0][a] == l[j + 1];
      assert Contents(m, levels)[a - 1] == es[j];
    }
  }

  lemma RaiseKeepsLists(m: Memory, levels: seq<seq<nat>>, height: nat)
    requires WellLinked(m, levels) && m.maxHeight <= height <= MAX_HEIGHT
    ensures var m' := m.(maxHeight := height);
            WellLinked(m', levels) && Grows(m, levels, m', levels) && Contents(m', levels) == Contents(m, levels)
  {
    var m' := m.(maxHeight := height);
    forall i | 0 <= i < MAX_HEIGHT
      ensures IsLevel(m', i, levels[i]) && Entries(m', levels[i]) == Entries(m, levels[i])
    {
      assert IsLevel(m, i, levels[i]);
      LevelFrame(m, m', i, levels[i]);
    }
  }

  lemma RaiseKeeps(m: Memory, levels: seq<seq<nat>>, w: Writer)
    requires WellLinked(m, levels) && WriterOk(m, levels, w)
    requires w.Inserting? && w.level == 0 && !w.primed && w.height > m.maxHeight
    ensures var m' := m.(maxHeight := w.height);
            WellLinked(m', levels) && WriterOk(m', levels, w) && Grows(m, levels, m', levels)
            && Contents(m', levels) == Contents(m, levels)
  {
    RaiseKeepsLists(m, levels, w.height);
    forall i | w.level <= i < w.height ensures StillToLink(m.(maxHeight := w.height), i, levels[i], w.x, w.prev[i]) {
      assert StillToLink(m, i, levels[i], w.x, w.prev[i]);
    }
  }

  ghost predicate CanPrime(m: Memory, w: Writer) {
    w.Inserting? && !w.primed && w.height <= m.maxHeight && w.level < |w.prev|
    && HasLink(m, w.level, w.prev[w.level]) && HasLink(m, w.level, w.x)
  }

  /** The new node takes over what follows its predecessor at this level; no reader can see that yet. */
  function Prime(m: Memory, w: Writer): Memory
    requires CanPrime(m, w)
  {
    SetNext(m, w.level, w.x, Load(m, w.level, w.prev[w.level]))
  }

  lemma PrimeKeeps(m: Memory, levels: seq<seq<nat>>, w: Writer)
    requires WellLinked(m, levels) && WriterOk(m, levels, w)
    requires w.Inserting? && !w.primed && w.height <= m.maxHeight
    ensures CanPrime(m, w)
    ensures var m' := Prime(m, w);
            WellLinked(m', levels) && WriterOk(m', levels, w.(primed := true)) && Grows(m, levels, m', levels)
            && Contents(m', levels) == Contents(m, levels)
  {
    var k := w.level;
    assert StillToLink(m, k, levels[k], w.x, w.prev[k]) && IsLevel(m, k, levels[k]);
    var m' := Prime(m, w);
    forall i | 0 <= i < MAX_HEIGHT
      ensures IsLevel(m', i, levels[i]) && Entries(m', levels[i]) == Entries(m, levels[i])
    {
      assert IsLevel(m, i, levels[i]);
      LevelFrame(m, m', i, levels[i]);
    }
    forall i | w.level <= i < w.height ensures StillToLink(m', i, levels[i], w.x, w.prev[i]) {
      assert StillToLink(m, i, levels[i], w.x, w.prev[i]);
    }
  }

  ghost predicate CanPublish(m: Memory, levels: seq<seq<nat>>, w: Writer) {
    && w.Inserting? && w.primed && w.level < |w.prev| && w.level < |levels| && w.x < |m.nodes|
    && HasLink(m, w.level, w.prev[w.level])
    && Allocated(m, levels[w.level]) && |levels[w.level]| > 0
  }

  /** The predecessor's link is turned to the new node, which readers see from now on. */
  function Publish(m: Memory, w: Writer): Memory
    requires w.Inserting? && w.level < |w.prev| && HasLink(m, w.level, w.prev[w.level])
  {
    SetNext(m, w.level, w.prev[w.level], To(w.x))
  }

  function Published(m: Memory, levels: seq<seq<nat>>, w: Writer): seq<seq<nat>>
    requires CanPublish(m, levels, w)
  {
    var l := levels[w.level];
    levels[w.level := Spliced(l, LowerBound(Entries(m, l), m.nodes[w.x].entry.key), w.x)]
  }

  function NextLevel(w: Writer): Writer
    requires w.Inserting?
  {
    if w.level + 1 == w.height then Idle else w.(level := w.level + 1, primed := false)
  }

  lemma PublishedLevel(m: Memory, levels: seq<seq<nat>>, w: Writer, i: nat)
    requires WellLinked(m, levels) && WriterOk(m, levels, w) && w.Inserting? && w.primed && i < MAX_HEIGHT
    ensures CanPublish(m, levels, w) && IsLevel(m, i, levels[i])
    ensures var m', levels' := Publish(m, w), Published(m, levels, w);
            IsLevel(m', i, levels'[i])
            && Entries(m', levels'[i]) ==
                 if i == w.level then Insert(Entries(m, levels[i]), m.nodes[w.x].entry) else Entries(m, levels[i])
  {
    var k := w.level;
    var l := levels[k];
    assert StillToLink(m, k, l, w.x, w.prev[k]) && IsLevel(m, k, l) && IsLevel(m, i, levels[i]);
    var j := LowerBound(Entries(m, l), m.nodes[w.x].entry.key);
    assert Load(m, k, l[j]) == After(l, j);
    if i == k {
      PublishSplices(m, k, l, j, w.x);
    } else {
      LevelFrame(m, Publish(m, w), i, levels[i]);
    }
  }

  /** Publishing adds x to one list and leaves the others alone. */
  lemma PublishedMembers(m: Memory, levels: seq<seq<nat>>, w: Writer)
    requires CanPublish(m, levels, w) && |levels| == MAX_HEIGHT
    ensures var levels' := Published(m, levels, w);
            |levels'| == MAX_HEIGHT
            && (forall i, n :: 0 <= i < MAX_HEIGHT ==> (n in levels'[i] <==> n in levels[i] || (i == w.level && n == w.x)))
            && (forall i :: 0 <= i < MAX_HEIGHT && i != w.level ==> levels'[i] == levels[i])
  {
  }

  lemma PublishKeepsLists(m: Memory, levels: seq<seq<nat>>, w: Writer)
    requires WellLinked(m, levels) && WriterOk(m, levels, w) && w.Inserting? && w.primed
    ensures CanPublish(m, levels, w)
    ensures var m', levels' := Publish(m, w), Published(m, levels, w);
            WellLinked(m', levels') && Grows(m, levels, m', levels')
            && Contents(m', levels') ==
                 if w.level == 0 then Insert(Contents(m, levels), m.nodes[w.x].entry) else Contents(m, levels)
  {
    PublishedLevel(m, levels, w, 0);
    PublishedMembers(m, levels, w);
    var m', levels' := Publish(m, w), Published(m, levels, w);
    forall i | 0 <= i < MAX_HEIGHT ensures IsLevel(m', i, levels'[i]) {
      PublishedLevel(m, levels, w, i);
    }
    StillSublists(levels, levels', w.level, w.x);
  }

  lemma StillSublists(levels: seq<seq<nat>>, levels': seq<seq<nat>>, level: nat, x: nat)
    requires |levels| == |levels'| == MAX_HEIGHT
    requires forall i, k :: 0 <= i < k < MAX_HEIGHT ==> Within(levels[k], levels[i])
    requires forall i, n :: 0 <= i < MAX_HEIGHT ==> (n in levels'[i] <==> n in levels[i] || (i == level && n == x))
    requires forall i :: 0 <= i < level && i < MAX_HEIGHT ==> x in levels[i]
    ensures forall i, k :: 0 <= i < k < MAX_HEIGHT ==> Within(levels'[k], levels'[i])
  {
    forall i, k | 0 <= i < k < MAX_HEIGHT ensures Within(levels'[k], levels'[i]) {
      assert Within(levels[k], levels[i]);
    }
  }

  lemma PublishKeepsWriter(m: Memory, levels: seq<seq<nat>>, w: Writer)
    requires WellLinked(m, levels) && WriterOk(m, levels, w) && w.Inserting? && w.primed
    ensures CanPublish(m, levels, w)
    ensures var levels' := Published(m, levels, w);
            |levels'| == MAX_HEIGHT && WriterOk(Publish(m, w), levels', NextLevel(w))
  {
    PublishedLevel(m, levels, w, w.level);
    PublishedMembers(m, levels, w);
    var m', levels' := Publish(m, w), Published(m, levels, w);
    forall i | w.level < i < w.height ensures StillToLink(m', i, levels'[i], w.x, w.prev[i]) {
      StillToLinkAbove(m, levels, w, i);
    }
    WriterAdvances(m, levels, w, m', levels');
  }

  lemma WriterAdvances(m: Memory, levels: seq<seq<nat>>, w: Writer, m': Memory, levels': seq<seq<nat>>)
    requires |levels| == |levels'| == MAX_HEIGHT && w.Inserting? && w.primed && WriterOk(m, levels, w)
    requires m'.maxHeight == m.maxHeight && |m'.nodes| == |m.nodes|
    requires |m'.nodes[w.x].next| == |m.nodes[w.x].next|
    requires forall i :: 0 <= i < MAX_HEIGHT && i != w.level ==> levels'[i] == levels[i]
    requires w.x in levels'[w.level]
    requires forall i :: w.level < i < w.height ==> StillToLink(m', i, levels'[i], w.x, w.prev[i])
    ensures WriterOk(m', levels', NextLevel(w))
  {
  }

  lemma StillToLinkAbove(m: Memory, levels: seq<seq<nat>>, w: Writer, i: nat)
    requires WellLinked(m, levels) && WriterOk(m, levels, w) && w.Inserting? && w.primed && w.level < i < w.height
    ensures CanPublish(m, levels, w)
    ensures StillToLink(Publish(m, w), i, Published(m, levels, w)[i], w.x, w.prev[i])
  {
    PublishedLevel(m, levels, w, i);
    assert StillToLink(m, i, levels[i], w.x, w.prev[i]);
    assert Published(m, levels, w)[i] == levels[i];
  }
}
