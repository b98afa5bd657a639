/** The write queue (DBImpl::Write and BuildBatchGroup in db/db_impl.cc): the front writer commits a
    group of queued batches for everybody in it, and other threads queue up in the meantime. */
module GroupCommit {
  import opened Keys
  import opened Coding
  import opened WriteBatches

  datatype Status = Ok | Failed

  /** A null batch only asks for room to be made. */
  datatype Writer = Writer(id: nat, sync: bool, batch: Option<seq<Update>>)

  /** A group that one leader has committed, or failed to. */
  datatype Group = Group(members: seq<Writer>, base: nat, updates: seq<Update>, logged: bool, status: Status)

  datatype Phase =
    | Idle                               // nobody is at work
    | Writing(n: nat)                    // the leader has built a group of n writers and let go of the mutex
    | Finishing(n: nat, status: Status)  // the group is about to be removed from the queue

  /** `arrived`, `finished` and `groups` record what has happened; no step depends on them. */
  datatype State = State(queue: seq<Writer>, phase: Phase, lastSequence: nat, log: seq<seq<Byte>>, mem: seq<MemEntry>,
                         bgError: bool, arrived: seq<Writer>, finished: seq<(Writer, Status)>, groups: seq<Group>)

  const INITIAL := State([], Idle, 0, [], [], false, [], [], [])

  // ---------------------------------------------------------------- building a group

  function ByteSize(us: seq<Update>): nat {
    HEADER + |Body(us)|
  }

  function MaxSize(first: nat): nat {
    if first <= 131072 then first + 131072 else 1048576
  }

  /** How many writers the group takes in when i of them are in it already. */
  function GroupLength(queue: seq<Writer>, i: nat, size: nat, maxSize: nat): (n: nat)
    requires 0 < i <= |queue|
    ensures i <= n <= |queue|
    decreases |queue| - i
  {
    if i == |queue| || (queue[i].sync && !queue[0].sync) then i
    else if queue[i].batch.None? then GroupLength(queue, i + 1, size, maxSize)
    else
      var size' := size + ByteSize(queue[i].batch.value);
      if size' > maxSize then i else GroupLength(queue, i + 1, size', maxSize)
  }

  function Built(queue: seq<Writer>): (n: nat)
    requires queue != [] && queue[0].batch.Some?
    ensures 1 <= n <= |queue|
  {
    var size := ByteSize(queue[0].batch.value);
    GroupLength(queue, 1, size, MaxSize(size))
  }

  /** The updates of a group of writers, in queue order. */
  function Combined(ws: seq<Writer>): seq<Update> {
    if ws == [] then [] else Combined(ws[..|ws| - 1]) + BatchIn(ws[|ws| - 1])
  }

  function BatchIn(w: Writer): seq<Update> {
    if w.batch.Some? then w.batch.value else []
  }

  function SizeOf(ws: seq<Writer>): nat {
    if ws == [] then 0
    else SizeOf(ws[..|ws| - 1]) + if ws[|ws| - 1].batch.Some? then ByteSize(ws[|ws| - 1].batch.value) else 0
  }

  /** One writer more. */
  lemma Longer(queue: seq<Writer>, i: nat, n: nat)
    requires i <= n < |queue|
    ensures Combined(queue[i..n + 1]) == Combined(queue[i..n]) + BatchIn(queue[n])
    ensures SizeOf(queue[i..n + 1]) == SizeOf(queue[i..n]) + if queue[n].batch.Some? then ByteSize(queue[n].batch.value) else 0
    ensures Combined(queue[n..n]) == [] && SizeOf(queue[n..n]) == 0
  {
    hide ByteSize;
    assert queue[i..n + 1][..n - i] == queue[i..n];
  }

  /** The leader's batch and its followers' batches in one. */
  method BuildBatchGroup(queue: seq<Writer>) returns (n: nat, updates: seq<Update>)
    requires queue != [] && queue[0].batch.Some?
    ensures n == Built(queue) && updates == Combined(queue[..n])
    // No sync write is handled by a non-sync leader.
    ensures forall i :: 0 <= i < n ==> (queue[i].sync ==> queue[0].sync)
    // A small write does not wait for a big group.
    ensures n == 1 || SizeOf(queue[..n]) <= MaxSize(ByteSize(queue[0].batch.value)) || Combined(queue[1..n]) == []
    // The group ends at the end of the queue, before a sync write that the leader must not take, or
    // before a batch that would make it larger than 1 MB, or 128 KB more than a first batch up to 128 KB.
    ensures n == |queue| || (queue[n].sync && !queue[0].sync)
            || (queue[n].batch.Some? &&
                var first := ByteSize(queue[0].batch.value);
                SizeOf(queue[..n]) + ByteSize(queue[n].batch.value) > if first <= 131072 then first + 131072 else 1048576)
  {
    hide ByteSize, Combined, SizeOf;
    var first := queue[0];
    updates := first.batch.value;
    var size: nat := ByteSize(first.batch.value);
    var maxSize := MaxSize(size);
    n := 1;
    Longer(queue, 0, 0);
    assert queue[..1] == queue[0..1] && queue[0..0] == queue[1..1] == [];
    while n < |queue|
      invariant 1 <= n <= |queue|
      invariant Built(queue) == GroupLength(queue, n, size, maxSize)
      invariant updates == Combined(queue[..n]) && size == SizeOf(queue[..n])
      invariant forall i :: 0 <= i < n ==> (queue[i].sync ==> first.sync)
      invariant size <= maxSize || Combined(queue[1..n]) == []
    {
      var w := queue[n];
      if w.sync && !first.sync {
        break;
      }
      Longer(queue, 0, n);
      Longer(queue, 1, n);
      assert queue[..n] == queue[0..n] && queue[..n + 1] == queue[0..n + 1];
      if w.batch.Some? {
        if size + ByteSize(w.batch.value) > maxSize {
          break;
        }
        size := size + ByteSize(w.batch.value);
        updates := updates + w.batch.value;
      }
      n := n + 1;
    }
  }

  /** The group's batch in bytes, as it goes to the log: the members' batches appended to an empty one
      that takes the next sequence numbers. */
  method GroupContents(members: seq<Writer>, base: nat) returns (rep: seq<Byte>)
    requires Fits(Combined(members)) && base < Power256(SEQUENCE_BYTES)
    ensures rep == BatchBytes(base, Combined(members))
  {
    hide Fits;
    var result := new WriteBatch();
    for i := 0 to |members|
      invariant fresh(result) && result.Valid() && result.updates == Combined(members[..i])
    {
      assert members[..i + 1][..i] == members[..i];
      CombinedFits(members, i + 1);
      if members[i].batch.Some? {
        var batch := BatchOf(members[i].batch.value);
        result.Append(batch);
      }
    }
    assert members[..|members|] == members;
    result.SetSequence(base);
    rep := result.rep;
  }

  /** A writer's batch, put together update by update. */
  method BatchOf(us: seq<Update>) returns (batch: WriteBatch)
    requires Fits(us)
    ensures fresh(batch) && batch.Valid() && batch.updates == us
  {
    batch := new WriteBatch();
    for i := 0 to |us|
      invariant fresh(batch) && batch.Valid() && batch.updates == us[..i]
    {
      assert us[..i + 1] == us[..i] + [us[i]];
      match us[i] {
        case Put(key, value) => batch.Put(key, value);
        case Delete(key) => batch.Delete(key);
      }
    }
    assert us[..|us|] == us;
  }

  lemma {:induction false} CombinedFits(ws: seq<Writer>, n: nat)
    requires n <= |ws| && Fits(Combined(ws))
    ensures Fits(Combined(ws[..n]))
    ensures n > 0 && ws[n - 1].batch.Some? ==> Fits(ws[n - 1].batch.value)
    decreases |ws| - n
  {
    if n == |ws| {
      assert ws[..n] == ws;
    } else {
      CombinedFits(ws, n + 1);
      assert ws[..n + 1][..n] == ws[..n];
    }
    if n > 0 { assert ws[..n][..n - 1] == ws[..n - 1]; }
  }

  // ---------------------------------------------------------------- steps

  datatype Step =
    | Enqueue(w: Writer)
    | Lead
    | Commit(logOk: bool, syncOk: bool)
    | Finish

  /** The front writer takes over: it fails after an earlier background error, has nothing to write for
      a null batch, and otherwise builds a group. */
  ghost predicate LeadStep(s: State, s': State) {
    && s.phase == Idle && s.queue != []
    && s' == if s.bgError || s.queue[0].batch.None? then
               var status := if s.bgError then Failed else Ok;
               s.(phase := Finishing(1, status),
                  groups := s.groups + [Group([s.queue[0]], s.lastSequence + 1, [], false, status)])
             else s.(phase := Writing(Built(s.queue)))
  }

  /** Log the group, sync if the leader asks for it, then insert it; the sequence numbers are used up
      in any case, and a failed sync stops all later writes. */
  ghost predicate CommitStep(s: State, logOk: bool, syncOk: bool, s': State) {
    && s.phase.Writing? && s.phase.n <= |s.queue| && s.queue != []
    && var members := s.queue[..s.phase.n];
    var us := Combined(members);
    var base := s.lastSequence + 1;
    var syncFailed := logOk && s.queue[0].sync && !syncOk;
    var status := if logOk && !syncFailed then Ok else Failed;
    && Fits(us) && base + |us| <= MAX_SEQUENCE
    && s' == s.(phase := Finishing(s.phase.n, status),
                lastSequence := s.lastSequence + |us|,
                log := s.log + if logOk then [BatchBytes(base, us)] else [],
                mem := s.mem + if status.Ok? then EntriesOf(us, base) else [],
                bgError := s.bgError || syncFailed,
                groups := s.groups + [Group(members, base, us, logOk, status)])
  }

  /** Everyone in the group is removed from the queue and told the leader's status. */
  ghost predicate FinishStep(s: State, s': State) {
    && s.phase.Finishing? && s.phase.n <= |s.queue|
    && s' == s.(phase := Idle, queue := s.queue[s.phase.n..],
                finished := s.finished + Told(s.queue[..s.phase.n], s.phase.status))
  }

  function Told(ws: seq<Writer>, status: Status): seq<(Writer, Status)> {
    seq(|ws|, i requires 0 <= i < |ws| => (ws[i], status))
  }

  ghost predicate TakeStep(s: State, step: Step, s': State) {
    match step
    case Enqueue(w) => s' == s.(queue := s.queue + [w], arrived := s.arrived + [w])
    case Lead => LeadStep(s, s')
    case Commit(logOk, syncOk) => CommitStep(s, logOk, syncOk, s')
    case Finish => FinishStep(s, s')
  }

  // ---------------------------------------------------------------- histories of groups

  function Members(gs: seq<Group>): seq<Writer> {
    if gs == [] then [] else Members(gs[..|gs| - 1]) + gs[|gs| - 1].members
  }

  /** Every member of a group has the status of the group, its leader's. */
  function Statuses(gs: seq<Group>): seq<(Writer, Status)> {
    if gs == [] then [] else Statuses(gs[..|gs| - 1]) + Told(gs[|gs| - 1].members, gs[|gs| - 1].status)
  }

  function Applied(gs: seq<Group>): seq<MemEntry> {
    if gs == [] then []
    else
      var g := gs[|gs| - 1];
      Applied(gs[..|gs| - 1]) + if g.status.Ok? then EntriesOf(g.updates, g.base) else []
  }

  function Logged(gs: seq<Group>): seq<seq<Byte>> {
    if gs == [] then []
    else
      var g := gs[|gs| - 1];
      Logged(gs[..|gs| - 1]) + if g.logged then [BatchBytes(g.base, g.updates)] else []
  }

  /** The sequence number after all groups. */
  function Next(gs: seq<Group>): nat {
    if gs == [] then 1 else Next(gs[..|gs| - 1]) + |gs[|gs| - 1].updates|
  }

  ghost predicate GroupOk(gs: seq<Group>, i: nat)
    requires i < |gs|
  {
    var g := gs[i];
    && g.members != [] && g.base == Next(gs[..i])
    && (g.status.Ok? ==> g.updates == Combined(g.members))
    && (g.status.Ok? && g.updates != [] ==> g.logged)
    && (forall w :: w in g.members && w.sync ==> g.members[0].sync)
    && Fits(g.updates) && g.base + |g.updates| <= MAX_SEQUENCE + 1
  }

  ghost predicate GroupsOk(gs: seq<Group>) {
    forall i :: 0 <= i < |gs| ==> GroupOk(gs, i)
  }

  /** The writers of the group that is being finished are still in the queue. */
  ghost predicate Queued(s: State) {
    match s.phase
    case Idle => Statuses(s.groups) == s.finished
    case Writing(n) =>
      && 1 <= n <= |s.queue| && s.queue[0].batch.Some?
      && (forall i :: 0 <= i < n ==> (s.queue[i].sync ==> s.queue[0].sync))
      && Statuses(s.groups) == s.finished
    case Finishing(n, status) =>
      && 1 <= n <= |s.queue|
      && Statuses(s.groups) == s.finished + Told(s.queue[..n], status)
  }

  function Writers(fs: seq<(Writer, Status)>): seq<Writer> {
    seq(|fs|, i requires 0 <= i < |fs| => fs[i].0)
  }

  ghost predicate Invariant(s: State) {
    && s.arrived == Writers(s.finished) + s.queue
    && Queued(s) && GroupsOk(s.groups)
    && s.lastSequence + 1 == Next(s.groups)
    && s.mem == Applied(s.groups) && s.log == Logged(s.groups)
    && s.lastSequence <= MAX_SEQUENCE
  }

  lemma AddGroup(gs: seq<Group>, g: Group)
    requires GroupsOk(gs)
    requires g.members != [] && g.base == Next(gs)
    requires g.status.Ok? ==> g.updates == Combined(g.members) && (g.updates != [] ==> g.logged)
    requires forall w :: w in g.members && w.sync ==> g.members[0].sync
    requires Fits(g.updates) && g.base + |g.updates| <= MAX_SEQUENCE + 1
    ensures GroupsOk(gs + [g])
    ensures Statuses(gs + [g]) == Statuses(gs) + Told(g.members, g.status)
    ensures Applied(gs + [g]) == Applied(gs) + if g.status.Ok? then EntriesOf(g.updates, g.base) else []
    ensures Logged(gs + [g]) == Logged(gs) + if g.logged then [BatchBytes(g.base, g.updates)] else []
    ensures Next(gs + [g]) == Next(gs) + |g.updates|
  {
    hide Combined, BatchBytes, Fits;
    var gs' := gs + [g];
    assert gs'[..|gs|] == gs;
    forall i | 0 <= i < |gs'| ensures GroupOk(gs', i) {
      if i < |gs| {
        assert GroupOk(gs, i) && gs'[..i] == gs[..i];
      }
    }
  }

  lemma {:induction false} GroupRespectsSync(queue: seq<Writer>, i: nat, size: nat, maxSize: nat)
    requires 0 < i <= |queue|
    requires forall j :: 0 <= j < i ==> (queue[j].sync ==> queue[0].sync)
    ensures forall j :: 0 <= j < GroupLength(queue, i, size, maxSize) ==> (queue[j].sync ==> queue[0].sync)
    decreases |queue| - i
  {
    hide ByteSize;
    if i < |queue| && !(queue[i].sync && !queue[0].sync) {
      if queue[i].batch.None? {
        GroupRespectsSync(queue, i + 1, size, maxSize);
      } else if size + ByteSize(queue[i].batch.value) <= maxSize {
        GroupRespectsSync(queue, i + 1, size + ByteSize(queue[i].batch.value), maxSize);
      }
    }
  }

  lemma NullCombined(w: Writer)
    requires w.batch.None?
    ensures Combined([w]) == []
  {
    assert [w][..0] == [];
  }

  lemma LeadKeeps(s: State, s': State)
    requires Invariant(s) && LeadStep(s, s')
    ensures Invariant(s')
  {
    hide GroupsOk, Combined, Applied, Logged, Next, Statuses, ByteSize;
    var w := s.queue[0];
    assert s.queue[..1] == [w];
    if s.bgError || w.batch.None? {
      if w.batch.None? { NullCombined(w); }
      AddGroup(s.groups, Group([w], s.lastSequence + 1, [], false, if s.bgError then Failed else Ok));
    } else {
      var size := ByteSize(w.batch.value);
      GroupRespectsSync(s.queue, 1, size, MaxSize(size));
    }
  }

  lemma CommitKeeps(s: State, logOk: bool, syncOk: bool, s': State)
    requires Invariant(s) && CommitStep(s, logOk, syncOk, s')
    ensures Invariant(s')
  {
    hide GroupsOk, Combined, Applied, Logged, Next, Statuses, BatchBytes, Fits;
    AddGroup(s.groups, s'.groups[|s.groups|]);
  }

  lemma FinishKeeps(s: State, s': State)
    requires Invariant(s) && FinishStep(s, s')
    ensures Invariant(s')
  {
    hide GroupsOk, Applied, Logged, Next, Statuses;
    var n := s.phase.n;
    assert s.queue == s.queue[..n] + s.queue[n..];
    assert Writers(s'.finished) == Writers(s.finished) + s.queue[..n];
  }

  lemma EnqueueKeeps(s: State, w: Writer, s': State)
    requires Invariant(s) && TakeStep(s, Enqueue(w), s')
    ensures Invariant(s')
  {
    hide GroupsOk, Applied, Logged, Next, Statuses;
    if s.phase.Finishing? {
      assert s'.queue[..s.phase.n] == s.queue[..s.phase.n];
    }
    assert s.arrived + [w] == Writers(s.finished) + (s.queue + [w]);
  }

  lemma StepKeepsInvariant(s: State, step: Step, s': State)
    requires Invariant(s) && TakeStep(s, step, s')
    ensures Invariant(s')
  {
    hide Invariant, LeadStep, CommitStep, FinishStep;
    match step
    case Enqueue(w) => EnqueueKeeps(s, w, s');
    case Lead => LeadKeeps(s, s');
    case Commit(logOk, syncOk) => CommitKeeps(s, logOk, syncOk, s');
    case Finish => FinishKeeps(s, s');
  }

  ghost predicate IsRun(ss: seq<State>, steps: seq<Step>) {
    && |ss| == |steps| + 1 && ss[0] == INITIAL
    && forall i :: 0 <= i < |steps| ==> TakeStep(ss[i], steps[i], ss[i + 1])
  }

  lemma {:induction false} RunKeepsInvariant(ss: seq<State>, steps: seq<Step>, n: nat)
    requires IsRun(ss, steps) && n <= |steps|
    ensures Invariant(ss[n])
  {
    hide TakeStep;
    if n > 0 {
      RunKeepsInvariant(ss, steps, n - 1);
      StepKeepsInvariant(ss[n - 1], steps[n - 1], ss[n - 1 + 1]);
    }
  }

  // ---------------------------------------------------------------- what it means

  ghost predicate AllOk(gs: seq<Group>) {
    forall i :: 0 <= i < |gs| ==> gs[i].status.Ok?
  }

  lemma {:induction false} CombinedConcat(a: seq<Writer>, b: seq<Writer>)
    ensures Combined(a + b) == Combined(a) + Combined(b)
  {
    hide BatchIn;
    if b == [] {
      assert a + b == a;
    } else {
      var init, last := b[..|b| - 1], b[|b| - 1];
      CombinedConcat(a, init);
      assert (a + b)[..|a + b| - 1] == a + init && (a + b)[|a + b| - 1] == last;
      assert Combined(a + b) == Combined(a + init) + BatchIn(last);
      assert Combined(b) == Combined(init) + BatchIn(last);
    }
  }

  lemma EntriesConcat(a: seq<Update>, b: seq<Update>, first: nat)
    ensures EntriesOf(a + b, first) == EntriesOf(a, first) + EntriesOf(b, first + |a|)
  {
  }

  /** If every group succeeds, what is in memory is the updates of all batches in queue order, each
      exactly once, with the sequence numbers 1, 2, 3 and so on. */
  lemma {:induction false} SuccessfulGroups(gs: seq<Group>)
    requires GroupsOk(gs) && AllOk(gs)
    ensures Applied(gs) == EntriesOf(Combined(Members(gs)), 1)
    ensures Next(gs) == 1 + |Combined(Members(gs))|
  {
    if gs != [] {
      hide Combined, EntriesOf, GroupsOk, Fits;
      var init, g := gs[..|gs| - 1], gs[|gs| - 1];
      GroupsPrefix(gs, |gs| - 1);
      LastGroupOk(gs);
      SuccessfulGroups(init);
      CombinedConcat(Members(init), g.members);
      EntriesConcat(Combined(Members(init)), g.updates, 1);
    }
  }

  lemma LastGroupOk(gs: seq<Group>)
    requires GroupsOk(gs) && AllOk(gs) && gs != []
    ensures var g := gs[|gs| - 1]; g.base == Next(gs[..|gs| - 1]) && g.updates == Combined(g.members)
  {
    hide Combined, Fits;
    assert GroupOk(gs, |gs| - 1);
  }

  lemma GroupsPrefix(gs: seq<Group>, n: nat)
    requires GroupsOk(gs) && n <= |gs|
    ensures GroupsOk(gs[..n])
  {
    hide Combined, Fits;
    forall i | 0 <= i < n ensures GroupOk(gs[..n], i) {
      assert GroupOk(gs, i) && gs[..n][..i] == gs[..i];
    }
  }

  lemma {:induction false} StatusWriters(gs: seq<Group>)
    ensures Writers(Statuses(gs)) == Members(gs)
  {
    if gs != [] { StatusWriters(gs[..|gs| - 1]); }
  }

  /** Linearisation: when a run in which every group succeeded comes to rest, the batches of all writers
      that have finished have been applied exactly once, in the order in which the writers queued up. */
  lemma WritesAreLinear(ss: seq<State>, steps: seq<Step>, n: nat)
    requires IsRun(ss, steps) && n <= |steps| && ss[n].phase.Idle? && AllOk(ss[n].groups)
    ensures ss[n].arrived == Writers(ss[n].finished) + ss[n].queue
    ensures ss[n].mem == EntriesOf(Combined(Writers(ss[n].finished)), 1)
    ensures ss[n].lastSequence == |Combined(Writers(ss[n].finished))|
  {
    hide TakeStep, Applied, Combined;
    RunKeepsInvariant(ss, steps, n);
    StatusWriters(ss[n].groups);
    SuccessfulGroups(ss[n].groups);
  }

  /** Whatever fails, groups use consecutive, disjoint ranges of sequence numbers. */
  lemma {:induction false} RangesAreDisjoint(gs: seq<Group>, i: nat, j: nat)
    requires GroupsOk(gs) && i < j < |gs|
    ensures gs[i].base + |gs[i].updates| <= gs[j].base
    decreases j
  {
    hide Combined, Fits;
    assert GroupOk(gs, i) && GroupOk(gs, j) && GroupOk(gs, j - 1);
    assert gs[..j][..j - 1] == gs[..j - 1];
    if i < j - 1 {
      RangesAreDisjoint(gs, i, j - 1);
    }
  }

  /** Whatever fails, when the queue is at rest every writer that has been answered got the status of its
      group, in queue order, and every other writer is still waiting. */
  lemma EveryoneIsTold(ss: seq<State>, steps: seq<Step>, n: nat)
    requires IsRun(ss, steps) && n <= |steps| && ss[n].phase.Idle?
    ensures ss[n].finished == Statuses(ss[n].groups)
    ensures ss[n].arrived == Members(ss[n].groups) + ss[n].queue
    // Member j of group i has been told the status of group i, in its turn.
    ensures forall i, j :: 0 <= i < |ss[n].groups| && 0 <= j < |ss[n].groups[i].members| ==> IsTold(ss[n].groups, ss[n].finished, i, j)
  {
    hide TakeStep, Applied, Logged, Combined, GroupsOk;
    RunKeepsInvariant(ss, steps, n);
    StatusWriters(ss[n].groups);
    StatusesAt(ss[n].groups);
  }

  ghost predicate IsTold(gs: seq<Group>, finished: seq<(Writer, Status)>, i: nat, j: nat)
    requires i < |gs| && j < |gs[i].members|
  {
    var p := |Members(gs[..i])| + j;
    p < |finished| && finished[p].0 == gs[i].members[j] && finished[p].1 == gs[i].status
  }

  lemma {:induction false} StatusesAt(gs: seq<Group>)
    ensures |Statuses(gs)| == |Members(gs)|
    ensures forall i, j :: 0 <= i < |gs| && 0 <= j < |gs[i].members| ==> IsTold(gs, Statuses(gs), i, j)
  {
    if gs != [] {
      var n := |gs| - 1;
      StatusesAt(gs[..n]);
      forall i, j | 0 <= i < |gs| && 0 <= j < |gs[i].members| ensures IsTold(gs, Statuses(gs), i, j) {
        if i < n {
          assert IsTold(gs[..n], Statuses(gs[..n]), i, j) && gs[..n][..i] == gs[..i];
        }
      }
    }
  }

  /** Whatever fails, a sync write that is reported as done was synced: its leader asked for it. */
  lemma SyncIsKept(ss: seq<State>, steps: seq<Step>, n: nat, i: nat, w: Writer)
    requires IsRun(ss, steps) && n <= |steps| && i < |ss[n].groups| && w in ss[n].groups[i].members && w.sync
    ensures ss[n].groups[i].members != [] && ss[n].groups[i].members[0].sync
  {
    hide TakeStep, Applied, Logged, Statuses, Combined, Next, Fits;
    RunKeepsInvariant(ss, steps, n);
    assert GroupOk(ss[n].groups, i);
  }

  /** No group from number g on has succeeded, and nobody is about to commit one. */
  ghost predicate Stopped(s: State, g: nat) {
    && s.bgError && !s.phase.Writing? && g <= |s.groups|
    && forall i :: g <= i < |s.groups| ==> s.groups[i].status == Failed
  }

  lemma StoppedStep(s: State, step: Step, s': State, g: nat)
    requires Stopped(s, g) && TakeStep(s, step, s')
    ensures Stopped(s', g) && s'.mem == s.mem && s'.log == s.log && s'.lastSequence == s.lastSequence
  {
  }

  /** After a failed sync every write fails, the one that was to be synced and all later ones, and
      nothing is logged or inserted any more. */
  lemma {:induction false} FailedSyncStopsWrites(ss: seq<State>, steps: seq<Step>, m: nat, n: nat)
    requires IsRun(ss, steps) && m < n <= |steps|
    requires steps[m] == Commit(true, false) && ss[m].queue != [] && ss[m].queue[0].sync
    ensures |ss[n].groups| > |ss[m].groups|
    ensures forall i :: |ss[m].groups| <= i < |ss[n].groups| ==> ss[n].groups[i].status == Failed
    ensures ss[n].mem == ss[m].mem && |ss[n].log| == |ss[m].log| + 1
    ensures Stopped(ss[n], |ss[m].groups|)
  {
    hide LeadStep, FinishStep, BatchBytes, EntriesOf, Fits, Combined;
    if n == m + 1 {
      assert TakeStep(ss[m], steps[m], ss[m + 1]);
    } else {
      FailedSyncStopsWrites(ss, steps, m, n - 1);
      hide CommitStep;
      StoppedStep(ss[n - 1], steps[n - 1], ss[n - 1 + 1], |ss[m].groups|);
      GroupsGrow(ss[n - 1], steps[n - 1], ss[n - 1 + 1]);
    }
  }

  lemma GroupsGrow(s: State, step: Step, s': State)
    requires TakeStep(s, step, s')
    ensures |s'.groups| >= |s.groups|
  {
    hide BatchBytes, EntriesOf, Fits, Combined, Built;
  }

  /** And nothing else makes later writes fail: while every sync succeeds, the groups that fail are those
      that could not be logged. */
  lemma {:induction false} NothingElseFails(ss: seq<State>, steps: seq<Step>, n: nat)
    requires IsRun(ss, steps) && n <= |steps|
    requires forall i :: 0 <= i < n && steps[i].Commit? ==> steps[i].syncOk
    ensures !ss[n].bgError
    ensures forall g :: g in ss[n].groups && g.status.Failed? ==> !g.logged && |g.members| > 0 && g.members[0].batch.Some?
    ensures (forall i :: 0 <= i < n && steps[i].Commit? ==> steps[i].logOk) ==> AllOk(ss[n].groups)
  {
    hide BatchBytes, EntriesOf, Fits, Combined, Built, FinishStep;
    if n > 0 {
      NothingElseFails(ss, steps, n - 1);
      RunKeepsInvariant(ss, steps, n - 1);
      assert TakeStep(ss[n - 1], steps[n - 1], ss[n - 1 + 1]);
      FinishKeepsGroups(ss[n - 1], ss[n]);
    }
  }

  lemma FinishKeepsGroups(s: State, s': State)
    ensures FinishStep(s, s') ==> s'.groups == s.groups && s'.bgError == s.bgError
  {
  }
}
