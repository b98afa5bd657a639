/** The skip list under concurrency: the writer's stores interleaved, in any order the scheduler
    likes, with the loads of any number of readers (db/skiplist.h, "Thread safety"). */
module SkipListMachine {
  import opened Keys
  import opened SkipLists

  /** A reader in FindGreaterOrEqual, FindLessThan or FindLast, or with its answer, or with an iterator
      that walks from there, or from the first node if `from` is none.  `known` is what was in the list
      when the reader began, `seen` what was in it at the reader's last load, `visited` what the iterator
      has stood on, the current node last; none of these influences what a reader does. */
  datatype Reader =
    | Searching(target: Option<IKey>, x: nat, level: nat, known: set<Entry>)
    | Found(target: Option<IKey>, x: nat, next: Link, known: set<Entry>, seen: seq<Entry>)
    | Scanning(from: Option<IKey>, at: Link, visited: seq<Entry>, known: set<Entry>)

  /** `levels` records the lists in memory; it does not influence any step. */
  datatype Machine = Machine(mem: Memory, levels: seq<seq<nat>>, writer: Writer, readers: seq<Reader>)

  datatype Step =
    | BeginInsert(e: Entry, height: nat)
    | StoreMaxHeight
    | StoreOwnLink
    | StorePrevLink
    | BeginRead(target: Option<IKey>)
    | ReadLink(reader: nat)
    | ScanFromFirst
    | ScanFromFound(reader: nat)
    | ScanNext(reader: nat)

  ghost function EntrySet(m: Memory, levels: seq<seq<nat>>): set<Entry>
    requires WellLinked(m, levels)
  {
    set e | e in Contents(m, levels)
  }

  ghost predicate Initial(s: Machine) {
    && |s.mem.nodes| == 1 && s.mem.nodes[HEAD].next == seq(MAX_HEIGHT, _ => Null) && s.mem.maxHeight == 1
    && s.levels == seq(MAX_HEIGHT, _ => [HEAD])
    && s.writer == Idle && s.readers == []
  }

  // ---------------------------------------------------------------- steps

  /** Insert searches for its predecessors, draws a height and allocates a node.  Only the writer
      stores, so its own search reads one and the same memory. */
  ghost predicate BeginInsertStep(s: Machine, e: Entry, height: nat, s': Machine)
    requires WellLinked(s.mem, s.levels)
  {
    && s.writer == Idle && 1 <= height <= MAX_HEIGHT
    && (forall x :: x in Contents(s.mem, s.levels) ==> x.key != e.key)
    && s' == s.(mem := NewNode(s.mem, e, height),
                writer := Inserting(|s.mem.nodes|, height, Predecessors(s.mem, s.levels, e.key, height), 0, false))
  }

  ghost predicate StoreMaxHeightStep(s: Machine, s': Machine) {
    && s.writer.Inserting? && s.writer.level == 0 && !s.writer.primed && s.writer.height > s.mem.maxHeight
    && s' == s.(mem := s.mem.(maxHeight := s.writer.height))
  }

  ghost predicate StoreOwnLinkStep(s: Machine, s': Machine) {
    CanPrime(s.mem, s.writer) && s' == s.(mem := Prime(s.mem, s.writer), writer := s.writer.(primed := true))
  }

  ghost predicate StorePrevLinkStep(s: Machine, s': Machine) {
    && CanPublish(s.mem, s.levels, s.writer)
    && s' == s.(mem := Publish(s.mem, s.writer), levels := Published(s.mem, s.levels, s.writer),
                writer := NextLevel(s.writer))
  }

  /** A reader loads max_height_ and starts at the head. */
  ghost predicate BeginReadStep(s: Machine, target: Option<IKey>, s': Machine)
    requires WellLinked(s.mem, s.levels)
  {
    s' == s.(readers := s.readers + [Searching(target, HEAD, s.mem.maxHeight - 1, EntrySet(s.mem, s.levels))])
  }

  /** One turn of the search loop: load one link, then move on, go down, or stop. */
  ghost predicate ReadLinkStep(s: Machine, i: nat, s': Machine)
    requires WellLinked(s.mem, s.levels)
  {
    && i < |s.readers| && s.readers[i].Searching?
    && var r := s.readers[i];
    && HasLink(s.mem, r.level, r.x)
    && s' == s.(readers := s.readers[i := AfterLoad(s.mem, s.levels, r)])
  }

  function AfterLoad(m: Memory, levels: seq<seq<nat>>, r: Reader): Reader
    requires WellLinked(m, levels) && r.Searching? && HasLink(m, r.level, r.x)
  {
    var next := Load(m, r.level, r.x);
    if MoveOn(m, next, r.target) then Searching(r.target, next.node, r.level, r.known)
    else if r.level == 0 then Found(r.target, r.x, next, r.known, Contents(m, levels))
    else Searching(r.target, r.x, r.level - 1, r.known)
  }

  /** Iterator::SeekToFirst: load the head's link. */
  ghost predicate ScanFromFirstStep(s: Machine, s': Machine)
    requires WellLinked(s.mem, s.levels)
  {
    && HasLink(s.mem, 0, HEAD)
    && s' == s.(readers := s.readers + [Stand(s.mem, Scanning(None, Null, [], EntrySet(s.mem, s.levels)), Load(s.mem, 0, HEAD))])
  }

  /** Iterator::Seek ends where the search ended. */
  ghost predicate ScanFromFoundStep(s: Machine, i: nat, s': Machine) {
    && i < |s.readers| && s.readers[i].Found? && s.readers[i].target.Some?
    && var r := s.readers[i];
    && s' == s.(readers := s.readers[i := Stand(s.mem, Scanning(r.target, Null, [], r.known), r.next)])
  }

  /** Iterator::Next: load the link of the current node. */
  ghost predicate ScanNextStep(s: Machine, i: nat, s': Machine) {
    && i < |s.readers| && s.readers[i].Scanning? && s.readers[i].at.To?
    && var r := s.readers[i];
    && HasLink(s.mem, 0, r.at.node)
    && s' == s.(readers := s.readers[i := Stand(s.mem, r, Load(s.mem, 0, r.at.node))])
  }

  /** The iterator steps on a node, or off the end. */
  function Stand(m: Memory, r: Reader, at: Link): Reader
    requires r.Scanning?
  {
    if at.To? && at.node < |m.nodes| then r.(at := at, visited := r.visited + [m.nodes[at.node].entry]) else r.(at := at)
  }

  ghost predicate TakeStep(s: Machine, step: Step, s': Machine)
    requires WellLinked(s.mem, s.levels)
  {
    match step
    case BeginInsert(e, height) => BeginInsertStep(s, e, height, s')
    case StoreMaxHeight => StoreMaxHeightStep(s, s')
    case StoreOwnLink => StoreOwnLinkStep(s, s')
    case StorePrevLink => StorePrevLinkStep(s, s')
    case BeginRead(target) => BeginReadStep(s, target, s')
    case ReadLink(i) => ReadLinkStep(s, i, s')
    case ScanFromFirst => ScanFromFirstStep(s, s')
    case ScanFromFound(i) => ScanFromFoundStep(s, i, s')
    case ScanNext(i) => ScanNextStep(s, i, s')
  }

  // ---------------------------------------------------------------- invariants

  /** x and next are the neighbours of the target in the entries es. */
  ghost predicate IsAnswer(m: Memory, target: Option<IKey>, x: nat, next: Link, es: seq<Entry>) {
    && Sorted(es)
    && var p := Position(es, target);
    && (if p == 0 then x == HEAD else HEAD < x < |m.nodes| && m.nodes[x].entry == es[p - 1])
    && (if p == |es| then next == Null else next.To? && next.node < |m.nodes| && m.nodes[next.node].entry == es[p])
  }

  /** What a scan has to visit. */
  predicate InRange(key: IKey, from: Option<IKey>) {
    from.None? || !Less(key, from.value)
  }

  /** The iterator is on a node of the bottom list or past its end; it has visited entries in order, and
      every entry of its range that was there when it began, up to where it is. */
  ghost predicate ScanOk(m: Memory, levels: seq<seq<nat>>, from: Option<IKey>, at: Link, visited: seq<Entry>, known: set<Entry>)
    requires WellLinked(m, levels)
  {
    && Sorted(visited) && at != Unset
    && (forall e :: e in visited ==> e in EntrySet(m, levels) && InRange(e.key, from))
    && (at.To? ==> HEAD < at.node < |m.nodes| && at.node in levels[0] && visited != [] && visited[|visited| - 1] == m.nodes[at.node].entry)
    && (forall e :: e in known ==> e in EntrySet(m, levels))
    && (forall e :: e in known && InRange(e.key, from) ==> e in visited || (at.To? && Less(visited[|visited| - 1].key, e.key)))
  }

  ghost predicate ReaderOk(m: Memory, levels: seq<seq<nat>>, r: Reader)
    requires WellLinked(m, levels)
  {
    match r
    case Searching(target, x, level, known) =>
      level < MAX_HEIGHT && OnTheWay(m, levels[level], x, target) && known <= EntrySet(m, levels)
    case Found(target, x, next, known, seen) =>
      IsAnswer(m, target, x, next, seen) && (next.To? ==> next.node > HEAD && next.node in levels[0])
      && (forall e :: e in known ==> e in seen) && (forall e :: e in seen ==> e in EntrySet(m, levels))
    case Scanning(from, at, visited, known) => ScanOk(m, levels, from, at, visited, known)
  }

  ghost predicate Invariant(s: Machine) {
    && WellLinked(s.mem, s.levels) && WriterOk(s.mem, s.levels, s.writer)
    && forall i :: 0 <= i < |s.readers| ==> ReaderOk(s.mem, s.levels, s.readers[i])
  }

  lemma InitialHolds(s: Machine)
    requires Initial(s)
    ensures Invariant(s) && Contents(s.mem, s.levels) == []
  {
    forall i | 0 <= i < MAX_HEIGHT ensures IsLevel(s.mem, i, s.levels[i]) {
      assert s.levels[i] == [HEAD];
    }
  }

  /** Entries never leave the list. */
  lemma ContentsGrow(m: Memory, levels: seq<seq<nat>>, m': Memory, levels': seq<seq<nat>>)
    requires WellLinked(m, levels) && WellLinked(m', levels') && Grows(m, levels, m', levels')
    ensures EntrySet(m, levels) <= EntrySet(m', levels')
  {
    assert IsLevel(m, 0, levels[0]) && IsLevel(m', 0, levels'[0]);
    forall e | e in Contents(m, levels) ensures e in Contents(m', levels') {
      var j :| 0 <= j < |levels[0]| - 1 && Contents(m, levels)[j] == e;
      assert levels[0][j + 1] in levels[0] && Within(levels[0], levels'[0]);
      var a :| 0 <= a < |levels'[0]| && levels'[0][a] == levels[0][j + 1];
      assert Contents(m', levels')[a - 1] == e;
    }
  }

  /** A reader does not notice a store. */
  lemma ReaderStays(m: Memory, levels: seq<seq<nat>>, m': Memory, levels': seq<seq<nat>>, r: Reader)
    requires WellLinked(m, levels) && WellLinked(m', levels') && Grows(m, levels, m', levels')
    requires ReaderOk(m, levels, r)
    ensures ReaderOk(m', levels', r)
  {
    ContentsGrow(m, levels, m', levels');
    if r.Searching? {
      assert Within(levels[r.level], levels'[r.level]);
    } else {
      assert Within(levels[0], levels'[0]);
    }
  }

  lemma ReadersStay(s: Machine, s': Machine)
    requires Invariant(s) && WellLinked(s'.mem, s'.levels) && Grows(s.mem, s.levels, s'.mem, s'.levels)
    requires s'.readers == s.readers
    ensures forall i :: 0 <= i < |s'.readers| ==> ReaderOk(s'.mem, s'.levels, s'.readers[i])
  {
    forall i | 0 <= i < |s'.readers| ensures ReaderOk(s'.mem, s'.levels, s'.readers[i]) {
      ReaderStays(s.mem, s.levels, s'.mem, s'.levels, s.readers[i]);
    }
  }

  /** One load by one reader, at whatever point the writer has reached. */
  lemma LoadKeepsReader(m: Memory, levels: seq<seq<nat>>, r: Reader)
    requires WellLinked(m, levels) && ReaderOk(m, levels, r) && r.Searching?
    ensures HasLink(m, r.level, r.x) && Load(m, r.level, r.x) != Unset
    ensures ReaderOk(m, levels, AfterLoad(m, levels, r))
  {
    assert IsLevel(m, r.level, levels[r.level]);
    LoadSearches(m, r.level, levels[r.level], r.x, r.target);
    if !MoveOn(m, Load(m, r.level, r.x), r.target) {
      if r.level == 0 {
        AnswerAt(m, levels, r.target, r.x, Load(m, 0, r.x));
        FoundNode(m, levels, Load(m, 0, r.x), Position(Contents(m, levels), r.target));
      } else {
        assert Within(levels[r.level], levels[r.level - 1]);
      }
    }
  }

  lemma FoundNode(m: Memory, levels: seq<seq<nat>>, next: Link, p: nat)
    requires WellLinked(m, levels) && p < |levels[0]| && next == After(levels[0], p)
    ensures next.To? ==> next.node > HEAD && next.node in levels[0]
  {
    assert IsLevel(m, 0, levels[0]);
  }

  lemma AnswerAt(m: Memory, levels: seq<seq<nat>>, target: Option<IKey>, x: nat, next: Link)
    requires WellLinked(m, levels)
    requires var p := Position(Contents(m, levels), target);
             p < |levels[0]| && x == levels[0][p] && next == After(levels[0], p)
    ensures IsAnswer(m, target, x, next, Contents(m, levels))
  {
    assert IsLevel(m, 0, levels[0]);
  }

  /** The entries of the bottom list by position. */
  lemma BottomEntries(m: Memory, levels: seq<seq<nat>>, e: Entry) returns (j: nat)
    requires WellLinked(m, levels) && e in EntrySet(m, levels)
    ensures 0 < j < |levels[0]| && levels[0][j] < |m.nodes| && m.nodes[levels[0][j]].entry == e
  {
    assert IsLevel(m, 0, levels[0]);
    var i :| 0 <= i < |Contents(m, levels)| && Contents(m, levels)[i] == e;
    j := i + 1;
  }

  lemma BottomNode(m: Memory, levels: seq<seq<nat>>, j: nat)
    requires WellLinked(m, levels) && j < |levels[0]|
    ensures HasLink(m, 0, levels[0][j]) && Load(m, 0, levels[0][j]) == After(levels[0], j)
    ensures levels[0][j] < |m.nodes| && (j > 0 ==> levels[0][j] > HEAD && m.nodes[levels[0][j]].entry in EntrySet(m, levels))
    ensures forall i :: 0 < i < j ==> levels[0][i] < |m.nodes| && Less(m.nodes[levels[0][i]].entry.key, m.nodes[levels[0][j]].entry.key)
  {
    assert IsLevel(m, 0, levels[0]);
    var es := Contents(m, levels);
    assert forall i :: 0 < i < |levels[0]| ==> es[i - 1] == m.nodes[levels[0][i]].entry;
    if j > 0 { assert es[j - 1] in es; }
  }

  /** The iterator's load from position j of the bottom list, the head or a node that it stands on. */
  lemma StandNext(m: Memory, levels: seq<seq<nat>>, r: Reader, j: nat)
    requires WellLinked(m, levels) && r.Scanning? && j < |levels[0]|
    requires j > 0 ==> ReaderOk(m, levels, r) && r.at == To(levels[0][j])
    requires j == 0 ==> r == Scanning(None, Null, [], EntrySet(m, levels))
    ensures HasLink(m, 0, levels[0][j]) && ReaderOk(m, levels, Stand(m, r, Load(m, 0, levels[0][j])))
  {
    BottomNode(m, levels, j);
    var r' := Stand(m, r, After(levels[0], j));
    if j + 1 < |levels[0]| {
      BottomNode(m, levels, j + 1);
      assert levels[0][j + 1] in levels[0];
    }
    forall e | e in r.known && InRange(e.key, r.from)
      ensures e in r'.visited || (r'.at.To? && Less(r'.visited[|r'.visited| - 1].key, e.key))
    {
      if e !in r.visited {
        var i := BottomEntries(m, levels, e);
        BottomNode(m, levels, i);
        if j > 0 { BottomNode(m, levels, j); }
        assert i > j;
        if i == j + 1 { assert r'.visited[|r'.visited| - 1] == e; }
      }
    }
  }

  /** An iterator that starts where a search has ended. */
  lemma StandFound(m: Memory, levels: seq<seq<nat>>, r: Reader)
    requires WellLinked(m, levels) && ReaderOk(m, levels, r) && r.Found? && r.target.Some?
    ensures ReaderOk(m, levels, Stand(m, Scanning(r.target, Null, [], r.known), r.next))
  {
    var p := Position(r.seen, r.target);
    if p < |r.seen| {
      PositionSplits(r.seen, r.target, p);
      assert r.seen[p] in r.seen;
    }
    forall e | e in r.known && InRange(e.key, r.target) ensures p < |r.seen| && (e == r.seen[p] || Less(r.seen[p].key, e.key)) {
      var i :| 0 <= i < |r.seen| && r.seen[i] == e;
      PositionSplits(r.seen, r.target, i);
    }
  }

  /** Every single store and every single load keeps the invariants. */
  lemma StepKeepsInvariant(s: Machine, step: Step, s': Machine)
    requires Invariant(s) && TakeStep(s, step, s')
    ensures Invariant(s')
    ensures EntrySet(s.mem, s.levels) <= EntrySet(s'.mem, s'.levels)
  {
    match step
    case BeginInsert(e, height) =>
      NewNodeKeeps(s.mem, s.levels, e, height);
      ReadersStay(s, s');
      ContentsGrow(s.mem, s.levels, s'.mem, s'.levels);
    case StoreMaxHeight =>
      RaiseKeeps(s.mem, s.levels, s.writer);
      ReadersStay(s, s');
      ContentsGrow(s.mem, s.levels, s'.mem, s'.levels);
    case StoreOwnLink =>
      PrimeKeeps(s.mem, s.levels, s.writer);
      ReadersStay(s, s');
      ContentsGrow(s.mem, s.levels, s'.mem, s'.levels);
    case StorePrevLink =>
      PublishKeepsLists(s.mem, s.levels, s.writer);
      PublishKeepsWriter(s.mem, s.levels, s.writer);
      ReadersStay(s, s');
      ContentsGrow(s.mem, s.levels, s'.mem, s'.levels);
    case BeginRead(target) =>
      assert IsLevel(s.mem, s.mem.maxHeight - 1, s.levels[s.mem.maxHeight - 1]);
    case ReadLink(i) =>
      LoadKeepsReader(s.mem, s.levels, s.readers[i]);
    case ScanFromFirst =>
      BottomHead(s.mem, s.levels);
      StandNext(s.mem, s.levels, Scanning(None, Null, [], EntrySet(s.mem, s.levels)), 0);
    case ScanFromFound(i) =>
      StandFound(s.mem, s.levels, s.readers[i]);
    case ScanNext(i) =>
      var j :| 0 <= j < |s.levels[0]| && s.levels[0][j] == s.readers[i].at.node;
      BottomHead(s.mem, s.levels);
      StandNext(s.mem, s.levels, s.readers[i], j);
  }

  lemma BottomHead(m: Memory, levels: seq<seq<nat>>)
    requires WellLinked(m, levels)
    ensures |levels[0]| > 0 && levels[0][0] == HEAD
  {
    assert IsLevel(m, 0, levels[0]);
  }

  /** Only the store that links the new node into the bottom list changes the contents, and it adds
      exactly the new entry. */
  lemma ContentsChangeAtOneStore(s: Machine, step: Step, s': Machine)
    requires Invariant(s) && TakeStep(s, step, s')
    ensures Invariant(s')
    ensures Contents(s'.mem, s'.levels) ==
              if step.StorePrevLink? && s.writer.level == 0
              then Insert(Contents(s.mem, s.levels), s.mem.nodes[s.writer.x].entry)
              else Contents(s.mem, s.levels)
  {
    StepKeepsInvariant(s, step, s');
    match step
    case BeginInsert(e, height) => NewNodeKeeps(s.mem, s.levels, e, height);
    case StoreMaxHeight => RaiseKeeps(s.mem, s.levels, s.writer);
    case StoreOwnLink => PrimeKeeps(s.mem, s.levels, s.writer);
    case StorePrevLink => PublishKeepsLists(s.mem, s.levels, s.writer);
    case _ =>
  }

  // ---------------------------------------------------------------- runs

  ghost predicate IsRun(ss: seq<Machine>, steps: seq<Step>) {
    && |ss| == |steps| + 1 && Initial(ss[0])
    && forall i :: 0 <= i < |steps| ==> WellLinked(ss[i].mem, ss[i].levels) && TakeStep(ss[i], steps[i], ss[i + 1])
  }

  lemma {:induction false} RunKeepsInvariant(ss: seq<Machine>, steps: seq<Step>, n: nat)
    requires IsRun(ss, steps) && n <= |steps|
    ensures Invariant(ss[n])
  {
    if n == 0 {
      InitialHolds(ss[0]);
    } else {
      RunKeepsInvariant(ss, steps, n - 1);
      StepKeepsInvariant(ss[n - 1], steps[n - 1], ss[n - 1 + 1]);
    }
  }

  /** An answer names the first entry at or past the target, and the last one before it, among all
      the entries that were there when the search began and all that were there when it ended. */
  lemma AnswerCoversKnown(m: Memory, levels: seq<seq<nat>>, r: Reader, e: Entry)
    requires WellLinked(m, levels) && ReaderOk(m, levels, r) && r.Found? && (e in r.known || e in r.seen)
    ensures !Precedes(e.key, r.target) ==>
              r.next.To? && r.next.node < |m.nodes| && AtMost(m.nodes[r.next.node].entry.key, e.key)
              && !Precedes(m.nodes[r.next.node].entry.key, r.target)
    ensures Precedes(e.key, r.target) ==>
              HEAD < r.x < |m.nodes| && AtMost(e.key, m.nodes[r.x].entry.key)
              && Precedes(m.nodes[r.x].entry.key, r.target)
    ensures r.target == Some(e.key) ==> m.nodes[r.next.node].entry == e
  {
    assert e in r.seen;
    var i :| 0 <= i < |r.seen| && r.seen[i] == e;
    PositionSplits(r.seen, r.target, i);
    var p := Position(r.seen, r.target);
    if p < |r.seen| { PositionSplits(r.seen, r.target, p); }
    if p > 0 { PositionSplits(r.seen, r.target, p - 1); }
  }

  /** In every run, a search that has finished did not miss an entry that was in the list when it
      began: looking for a key finds the entry with that key, whatever was inserted meanwhile. */
  lemma SearchMissesNothing(ss: seq<Machine>, steps: seq<Step>, n: nat, i: nat, e: Entry)
    requires IsRun(ss, steps) && n <= |steps| && i < |ss[n].readers|
    requires ss[n].readers[i].Found? && e in ss[n].readers[i].known
    requires ss[n].readers[i].target == Some(e.key)
    ensures var r := ss[n].readers[i];
            r.next.To? && r.next.node < |ss[n].mem.nodes| && ss[n].mem.nodes[r.next.node].entry == e
  {
    RunKeepsInvariant(ss, steps, n);
    AnswerCoversKnown(ss[n].mem, ss[n].levels, ss[n].readers[i], e);
  }

  /** In every run, after every store, a reader's next load finds an initialised link. */
  lemma NoLoadIsUninitialised(ss: seq<Machine>, steps: seq<Step>, n: nat, i: nat)
    requires IsRun(ss, steps) && n <= |steps| && i < |ss[n].readers| && ss[n].readers[i].Searching?
    ensures var r := ss[n].readers[i]; HasLink(ss[n].mem, r.level, r.x) && Load(ss[n].mem, r.level, r.x) != Unset
  {
    RunKeepsInvariant(ss, steps, n);
    LoadKeepsReader(ss[n].mem, ss[n].levels, ss[n].readers[i]);
  }

  /** In every run, an iterator that has come to the end has visited, in key order and each once, every
      entry from its start on that was in the list when it began; what else it has visited was inserted
      meanwhile. */
  lemma ScanVisitsAll(ss: seq<Machine>, steps: seq<Step>, n: nat, i: nat)
    requires IsRun(ss, steps) && n <= |steps| && i < |ss[n].readers|
    requires ss[n].readers[i].Scanning? && ss[n].readers[i].at == Null
    ensures WellLinked(ss[n].mem, ss[n].levels)
    ensures var r := ss[n].readers[i];
            && Sorted(r.visited)
            && (forall e :: e in r.known && InRange(e.key, r.from) ==> e in r.visited)
            && (forall e :: e in r.visited ==> e in Contents(ss[n].mem, ss[n].levels) && InRange(e.key, r.from))
  {
    RunKeepsInvariant(ss, steps, n);
  }
}
