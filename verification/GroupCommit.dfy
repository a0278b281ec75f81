/** The write queue (DBImpl::Write and BuildBatchGroup, db/db_impl.cc) as a system of steps: writers
    queue up, the one at the front commits a group for all its members, and readers may look at the
    last sequence number at any time. */
module GroupCommit {
  import opened InternalKeys
  import opened ReadSpec
  import opened Sequences

  datatype Op = Put(key: Bytes, value: Bytes) | Delete(key: Bytes)

  /** `batch` is None for a writer that only forces a compaction; `size` is the batch's byte size. */
  datatype Writer = Writer(batch: Option<seq<Op>>, size: nat, sync: bool, awake: bool, done: bool, ok: bool)

  /** A group on its way to the log and the memtable, and what has become of it. */
  datatype Group = Group(members: seq<nat>, first: nat, ops: seq<Op>, logged: bool, synced: bool, ok: bool)

  datatype Stage = ToLog | ToSync | ToInsert(n: nat) | ToFinish

  datatype Leader = Nobody | MakingRoom(id: nat) | Committing(group: Group, stage: Stage)

  datatype Record = Record(first: nat, ops: seq<Op>)

  datatype Numbered = Numbered(sequence: nat, op: Op)

  /** `groups` are the groups finished and `arrivals` all writers in the order they queued up. */
  datatype State = State(queue: seq<nat>, writers: map<nat, Writer>, leader: Leader, lastSequence: nat,
                         log: seq<Record>, mem: seq<Numbered>, groups: seq<Group>, arrivals: seq<nat>)

  const SMALL: nat := 131072
  const MAX_GROUP: nat := 1048576

  function MaxSize(size: nat): nat {
    if size <= SMALL then size + SMALL else MAX_GROUP
  }

  /** How many writers of the queue join the group when the first `i` have, with `size` bytes so far. */
  function Joining(writers: map<nat, Writer>, queue: seq<nat>, i: nat, size: nat, max: nat, sync: bool): (n: nat)
    requires i <= |queue| && forall id :: id in queue ==> id in writers
    ensures i <= n <= |queue|
    decreases |queue| - i
  {
    if i == |queue| then i
    else
      var w := writers[queue[i]];
      if w.sync && !sync then i
      else if w.batch.None? then Joining(writers, queue, i + 1, size, max, sync)
      else if size + w.size > max then i
      else Joining(writers, queue, i + 1, size + w.size, max, sync)
  }

  function OpsOf(writers: map<nat, Writer>, members: seq<nat>): seq<Op>
    requires forall id :: id in members ==> id in writers
  {
    if members == [] then []
    else
      var w := writers[members[|members| - 1]];
      OpsOf(writers, members[..|members| - 1]) + if w.batch.Some? then w.batch.value else []
  }

  /** The bytes of the batches of the first `n` writers. */
  function SizeOf(writers: map<nat, Writer>, queue: seq<nat>, n: nat): nat
    requires n <= |queue| && forall id :: id in queue ==> id in writers
  {
    if n == 0 then 0
    else
      var w := writers[queue[n - 1]];
      SizeOf(writers, queue, n - 1) + if w.batch.Some? then w.size else 0
  }

  /** The first `n` writers may be one group: nobody but the first may want a sync unless the first does, and
      with every batch after the first the group stays within its bound. */
  ghost predicate MayGroup(writers: map<nat, Writer>, queue: seq<nat>, n: nat)
    requires 1 <= n <= |queue| && forall id :: id in queue ==> id in writers
  {
    var first := writers[queue[0]];
    forall i :: 1 <= i < n ==>
      && (writers[queue[i]].sync ==> first.sync)
      && (writers[queue[i]].batch.Some? ==> SizeOf(writers, queue, i + 1) <= MaxSize(first.size))
  }

  lemma {:induction false} JoiningIsLongest(writers: map<nat, Writer>, queue: seq<nat>, i: nat, size: nat, n: nat)
    requires 1 <= i <= |queue| && (forall id :: id in queue ==> id in writers) && MayGroup(writers, queue, i)
    requires writers[queue[0]].batch.Some? && size == SizeOf(writers, queue, i)
    requires var first := writers[queue[0]]; n == Joining(writers, queue, i, size, MaxSize(first.size), first.sync)
    ensures MayGroup(writers, queue, n) && forall m :: n < m <= |queue| ==> !MayGroup(writers, queue, m)
    decreases |queue| - i
  {
    if i < |queue| {
      var first, w := writers[queue[0]], writers[queue[i]];
      if (!w.sync || first.sync) && (w.batch.None? || size + w.size <= MaxSize(first.size)) {
        JoiningIsLongest(writers, queue, i + 1, if w.batch.None? then size else size + w.size, n);
      }
    }
  }

  /** BuildBatchGroup: the batches of the longest prefix of the queue that may be one group, one after
      the other.  A writer that does not want a sync never answers for one that does. */
  method BuildBatchGroup(writers: map<nat, Writer>, queue: seq<nat>) returns (n: nat, result: seq<Op>)
    requires queue != [] && (forall id :: id in queue ==> id in writers) && writers[queue[0]].batch.Some?
    ensures 1 <= n <= |queue| && n == GroupLength(writers, queue)
    ensures result == OpsOf(writers, queue[..n])
    ensures forall i :: 0 <= i < n && writers[queue[i]].sync ==> writers[queue[0]].sync
    ensures MayGroup(writers, queue, n) && forall m :: n < m <= |queue| ==> !MayGroup(writers, queue, m)
  {
    assert SizeOf(writers, queue, 1) == SizeOf(writers, queue, 0) + writers[queue[0]].size;
    JoiningIsLongest(writers, queue, 1, writers[queue[0]].size, GroupLength(writers, queue));
    var first := writers[queue[0]];
    var size: nat := first.size;
    var maxSize := if size <= SMALL then size + SMALL else MAX_GROUP;
    result := first.batch.value;
    n := 1;
    assert queue[..1] == [queue[0]] && OpsOf(writers, []) == [];
    while n < |queue|
      invariant 1 <= n <= |queue| && result == OpsOf(writers, queue[..n])
      invariant Joining(writers, queue, n, size, maxSize, first.sync) == GroupLength(writers, queue)
      invariant forall i :: 0 <= i < n && writers[queue[i]].sync ==> first.sync
    {
      var w := writers[queue[n]];
      if w.sync && !first.sync { break; }
      if w.batch.Some? {
        if size + w.size > maxSize { break; }
        size := size + w.size;
      }
      assert queue[..n + 1][..n] == queue[..n];
      result := result + if w.batch.Some? then w.batch.value else [];
      n := n + 1;
    }
  }

  function GroupLength(writers: map<nat, Writer>, queue: seq<nat>): (n: nat)
    requires queue != [] && forall id :: id in queue ==> id in writers
    ensures 1 <= n <= |queue|
  {
    var first := writers[queue[0]];
    Joining(writers, queue, 1, first.size, MaxSize(first.size), first.sync)
  }

  lemma {:induction false} JoiningSyncs(writers: map<nat, Writer>, queue: seq<nat>, i: nat, size: nat, max: nat,
                                        sync: bool, j: nat)
    requires i <= |queue| && (forall id :: id in queue ==> id in writers)
      && i <= j < Joining(writers, queue, i, size, max, sync)
    requires writers[queue[j]].sync
    ensures sync
    decreases |queue| - i
  {
    var w := writers[queue[i]];
    if j > i { JoiningSyncs(writers, queue, i + 1, if w.batch.None? then size else size + w.size, max, sync, j); }
  }

  // ----- what the history of groups amounts to -----

  ghost function Members(groups: seq<Group>): seq<nat> {
    if groups == [] then [] else Members(groups[..|groups| - 1]) + groups[|groups| - 1].members
  }

  ghost function LogOf(groups: seq<Group>): seq<Record> {
    if groups == [] then []
    else LogOf(groups[..|groups| - 1]) + var g := groups[|groups| - 1]; if g.logged then [Record(g.first, g.ops)]
        else []
  }

  ghost function Numbers(first: nat, ops: seq<Op>): (r: seq<Numbered>)
    ensures |r| == |ops| && forall i :: 0 <= i < |r| ==> r[i] == Numbered(first + i, ops[i])
  {
    seq(|ops|, i requires 0 <= i < |ops| => Numbered(first + i, ops[i]))
  }

  ghost function MemOf(groups: seq<Group>): seq<Numbered> {
    if groups == [] then []
    else MemOf(groups[..|groups| - 1]) + var g := groups[|groups| - 1]; if g.ok then Numbers(g.first, g.ops) else []
  }

  /** The sequence number the next group begins at. */
  ghost function NextFirst(base: nat, groups: seq<Group>): nat {
    if groups == [] then base + 1 else var g := groups[|groups| - 1]; g.first + |g.ops|
  }

  /** Groups get consecutive ranges of sequence numbers. */
  ghost predicate Consecutive(base: nat, groups: seq<Group>) {
    forall i :: 0 <= i < |groups| ==> groups[i].first == NextFirst(base, groups[..i])
  }

  /** What is known of a group, finished or about to be. */
  ghost predicate GroupOk(writers: map<nat, Writer>, g: Group) {
    && g.members != [] && (forall id :: id in g.members ==> id in writers)
    && (g.ok || g.logged ==> g.ops == OpsOf(writers, g.members))
    && (g.ok && writers[g.members[0]].batch.Some? ==>
        g.logged && forall i :: 0 <= i < |g.members| && writers[g.members[i]].sync ==> g.synced)
  }

  // ----- the steps -----

  /** A thread queues up; it goes on at once if it is at the front. */
  ghost predicate Enqueue(s: State, t: State, id: nat, batch: Option<seq<Op>>, size: nat, sync: bool) {
    && id !in s.writers
    && t == s.(queue := s.queue + [id], arrivals := s.arrivals + [id],
               writers := s.writers[id := Writer(batch, size, sync, s.queue == [], false, false)])
  }

  /** The awake writer at the front takes the lead; MakeRoomForWrite may let others in meanwhile. */
  ghost predicate TakeLead(s: State, t: State) {
    && s.leader.Nobody? && s.queue != [] && s.queue[0] in s.writers && s.writers[s.queue[0]].awake
    && t == s.(leader := MakingRoom(s.queue[0]))
  }

  /** There is no room, or nothing to write: the leader answers for itself alone. */
  ghost predicate Alone(s: State, t: State, ok: bool) {
    && s.leader.MakingRoom? && s.leader.id in s.writers && (ok ==> s.writers[s.leader.id].batch.None?)
    && t == s.(leader := Committing(Group([s.leader.id], s.lastSequence + 1, [], false, false, ok), ToFinish))
  }

  ghost predicate Build(s: State, t: State) {
    && s.leader.MakingRoom? && s.queue != [] && (forall id :: id in s.queue ==> id in s.writers)
    && s.queue[0] == s.leader.id
    && s.writers[s.leader.id].batch.Some?
    && var members := s.queue[..GroupLength(s.writers, s.queue)];
      var g := Group(members, s.lastSequence + 1, OpsOf(s.writers, members), false, false, true);
      t == s.(leader := Committing(g, ToLog))
  }

  /** AddRecord, which may fail. */
  ghost predicate AddRecord(s: State, t: State, ok: bool) {
    && s.leader.Committing? && s.leader.stage.ToLog? && s.leader.group.members != []
    && s.leader.group.members[0] in s.writers
    && var g := s.leader.group;
      if ok then t == s.(log := s.log + [Record(g.first, g.ops)],
                         leader := Committing(g.(logged := true),
                                              if s.writers[g.members[0]].sync then ToSync else ToInsert(0)))
      else t == s.(leader := Committing(g.(ok := false), ToFinish))
  }

  ghost predicate Sync(s: State, t: State, ok: bool) {
    && s.leader.Committing? && s.leader.stage.ToSync?
    && var g := s.leader.group;
      t == s.(leader := if ok then Committing(g.(synced := true), ToInsert(0))
          else Committing(g.(ok := false), ToFinish))
  }

  ghost predicate InsertOne(s: State, t: State) {
    && s.leader.Committing? && s.leader.stage.ToInsert?
    && var g, n := s.leader.group, s.leader.stage.n;
      && n <= |g.ops|
      && if n < |g.ops| then t == s.(mem := s.mem + [Numbered(g.first + n, g.ops[n])],
          leader := Committing(g, ToInsert(n + 1)))
         else t == s.(leader := Committing(g, ToFinish))
  }

  /** The new last sequence number becomes visible, the group's members are answered and the new
      front of the queue is woken. */
  ghost predicate Finish(s: State, t: State) {
    && s.leader.Committing? && s.leader.stage.ToFinish? && |s.leader.group.members| <= |s.queue|
    && s.leader.group.first > 0
    && var g := s.leader.group;
      var rest := s.queue[|g.members|..];
      t == s.(leader := Nobody, lastSequence := g.first - 1 + |g.ops|, groups := s.groups + [g], queue := rest,
              writers := map id | id in s.writers ::
                           Answered(s.writers[id], id in g.members, g.ok, rest != [] && id == rest[0]))
  }

  ghost function Answered(w: Writer, member: bool, ok: bool, front: bool): Writer {
    if member then w.(done := true, ok := ok, awake := true) else if front then w.(awake := true) else w
  }

  ghost predicate Step(s: State, t: State) {
    || (exists id, batch, size, sync :: Enqueue(s, t, id, batch, size, sync))
    || TakeLead(s, t) || Build(s, t) || InsertOne(s, t) || Finish(s, t)
    || (exists ok :: Alone(s, t, ok)) || (exists ok :: AddRecord(s, t, ok)) || (exists ok :: Sync(s, t, ok))
  }

  ghost predicate Init(base: nat, s: State) {
    s == State([], map[], Nobody, base, [], [], [], [])
  }

  // ----- the invariant -----

  /** Every writer is in one group or in the queue, in the order of arrival. */
  ghost predicate OrderOk(s: State) {
    && Members(s.groups) + s.queue == s.arrivals && NoDuplicates(s.arrivals)
    && (forall id :: id in s.arrivals <==> id in s.writers)
  }

  ghost predicate GroupsOk(base: nat, s: State) {
    && Consecutive(base, s.groups) && s.lastSequence + 1 == NextFirst(base, s.groups)
    && forall i :: 0 <= i < |s.groups| ==> GroupOk(s.writers, s.groups[i])
  }

  /** A writer has been answered exactly when its group is finished, with the group's status. */
  ghost predicate AnswersOk(s: State) {
    && (forall i, id :: 0 <= i < |s.groups| && id in s.groups[i].members ==>
        id in s.writers && s.writers[id].done && s.writers[id].ok == s.groups[i].ok)
    && (forall id :: id in s.queue ==> id in s.writers && !s.writers[id].done)
  }

  /** The log and the memtable hold the finished groups, and of the current one what its stage says. */
  ghost predicate WrittenOk(s: State) {
    match s.leader
    case Committing(g, stage) =>
      && s.log == LogOf(s.groups) + (if g.logged then [Record(g.first, g.ops)] else [])
      && s.mem == MemOf(s.groups) +
           (if stage.ToInsert? && stage.n <= |g.ops| then Numbers(g.first, g.ops[..stage.n])
            else if stage.ToFinish? && g.ok then Numbers(g.first, g.ops) else [])
    case _ => s.log == LogOf(s.groups) && s.mem == MemOf(s.groups)
  }

  ghost predicate LeaderOk(s: State) {
    && (s.leader.Nobody? && s.queue != [] ==> s.queue[0] in s.writers && s.writers[s.queue[0]].awake)
    && (s.leader.MakingRoom? ==> s.queue != [] && s.queue[0] == s.leader.id)
    && (s.leader.Committing? ==> CurrentOk(s, s.leader.group, s.leader.stage))
  }

  ghost predicate CurrentOk(s: State, g: Group, stage: Stage) {
    && g.members <= s.queue && g.members != [] && g.first == s.lastSequence + 1
    && (forall id :: id in g.members ==> id in s.writers)
    && var w := s.writers[g.members[0]];
      && (g.ok || g.logged ==> g.ops == OpsOf(s.writers, g.members))
      && (!stage.ToFinish? ==> w.batch.Some? && g.ok)
      && (forall i :: 0 <= i < |g.members| && s.writers[g.members[i]].sync ==> w.sync)
      && (stage.ToLog? ==> !g.logged && !g.synced)
      && (stage.ToSync? || stage.ToInsert? ==> g.logged)
      && (stage.ToInsert? ==> stage.n <= |g.ops| && (w.sync ==> g.synced))
      && (stage.ToFinish? && g.ok && w.batch.Some? ==> g.logged && (w.sync ==> g.synced))
  }

  ghost predicate Inv(base: nat, s: State) {
    OrderOk(s) && GroupsOk(base, s) && AnswersOk(s) && WrittenOk(s) && LeaderOk(s)
  }

  ghost predicate SameRequests(a: map<nat, Writer>, b: map<nat, Writer>) {
    forall id :: id in a ==> id in b && a[id].batch == b[id].batch && a[id].sync == b[id].sync
  }

  lemma {:induction false} OpsSame(a: map<nat, Writer>, b: map<nat, Writer>, members: seq<nat>)
    requires SameRequests(a, b) && forall id :: id in members ==> id in a
    ensures OpsOf(a, members) == OpsOf(b, members)
  {
    if members != [] { OpsSame(a, b, members[..|members| - 1]); }
  }

  lemma GroupSame(a: map<nat, Writer>, b: map<nat, Writer>, g: Group)
    requires SameRequests(a, b) && GroupOk(a, g)
    ensures GroupOk(b, g)
  {
    OpsSame(a, b, g.members);
  }

  lemma EnqueueKeeps(base: nat, s: State, t: State, id: nat, batch: Option<seq<Op>>, size: nat, sync: bool)
    requires Inv(base, s) && Enqueue(s, t, id, batch, size, sync)
    ensures Inv(base, t)
  {
    assert SameRequests(s.writers, t.writers);
    forall i | 0 <= i < |s.groups|
      ensures GroupOk(t.writers, t.groups[i])
    {
      GroupSame(s.writers, t.writers, s.groups[i]);
    }
    assert Members(t.groups) + t.queue == (Members(s.groups) + s.queue) + [id];
    if s.leader.Committing? { OpsSame(s.writers, t.writers, s.leader.group.members); }
  }

  lemma BuildKeeps(base: nat, s: State, t: State)
    requires Inv(base, s) && Build(s, t)
    ensures Inv(base, t)
  {
    var n := GroupLength(s.writers, s.queue);
    var members := s.queue[..n];
    var first := s.writers[s.queue[0]];
    forall i | 0 <= i < n && s.writers[members[i]].sync ensures first.sync {
      if i > 0 { JoiningSyncs(s.writers, s.queue, 1, first.size, MaxSize(first.size), first.sync, i); }
    }
    assert forall id :: id in members ==> id in s.queue;
  }

  lemma AddRecordKeeps(base: nat, s: State, t: State, ok: bool)
    requires Inv(base, s) && AddRecord(s, t, ok)
    ensures Inv(base, t)
  {
    var g := s.leader.group;
    assert g.ops[..0] == [] && Numbers(g.first, g.ops[..0]) == [];
  }

  lemma SyncKeeps(base: nat, s: State, t: State, ok: bool)
    requires Inv(base, s) && Sync(s, t, ok)
    ensures Inv(base, t)
  {
    var g := s.leader.group;
    assert g.ops[..0] == [] && Numbers(g.first, g.ops[..0]) == [];
  }

  lemma InsertKeeps(base: nat, s: State, t: State)
    requires Inv(base, s) && InsertOne(s, t)
    ensures Inv(base, t)
  {
    var g, n := s.leader.group, s.leader.stage.n;
    if n < |g.ops| {
      assert Numbers(g.first, g.ops[..n + 1]) == Numbers(g.first, g.ops[..n]) + [Numbered(g.first + n, g.ops[n])];
      assert t.mem == MemOf(s.groups) + (Numbers(g.first, g.ops[..n]) + [Numbered(g.first + n, g.ops[n])]);
    } else {
      assert g.ops[..n] == g.ops;
    }
  }

  lemma FinishKeeps(base: nat, s: State, t: State)
    requires Inv(base, s) && Finish(s, t)
    ensures Inv(base, t)
  {
    var g := s.leader.group;
    FinishOrder(s, t);
    FinishGroups(base, s, t);
    assert t.groups[..|s.groups|] == s.groups;
    assert LogOf(t.groups) == s.log && MemOf(t.groups) == s.mem;
    FinishAnswers(s, t);
  }

  lemma FinishOrder(s: State, t: State)
    requires OrderOk(s) && LeaderOk(s) && Finish(s, t)
    ensures OrderOk(t)
  {
    var g := s.leader.group;
    assert t.groups[..|s.groups|] == s.groups;
    assert s.queue == g.members + t.queue;
    assert Members(t.groups) + t.queue == Members(s.groups) + (g.members + t.queue);
  }

  lemma FinishGroups(base: nat, s: State, t: State)
    requires GroupsOk(base, s) && LeaderOk(s) && Finish(s, t)
    ensures GroupsOk(base, t)
  {
    var g := s.leader.group;
    assert SameRequests(s.writers, t.writers);
    assert t.groups[..|s.groups|] == s.groups;
    forall i | 0 <= i < |t.groups|
      ensures GroupOk(t.writers, t.groups[i]) && t.groups[i].first == NextFirst(base, t.groups[..i])
    {
      assert t.groups[..i] == s.groups[..i];
      GroupSame(s.writers, t.writers, t.groups[i]);
    }
  }

  lemma FinishAnswers(s: State, t: State)
    requires OrderOk(s) && AnswersOk(s) && LeaderOk(s) && Finish(s, t)
    ensures AnswersOk(t)
  {
    var g := s.leader.group;
    assert s.queue == g.members + t.queue;
    var n := |Members(s.groups)|;
    forall i, j | 0 <= i < |g.members| && 0 <= j < |t.queue| ensures g.members[i] != t.queue[j] {
      assert s.arrivals[n + i] == s.queue[i] && s.arrivals[n + |g.members| + j] == s.queue[|g.members| + j];
    }
    forall id | id in g.members ensures id in s.queue && id !in t.queue {
      var i :| 0 <= i < |g.members| && g.members[i] == id;
      assert s.queue[i] == id;
    }
    forall i, id | 0 <= i < |t.groups| && id in t.groups[i].members
      ensures id in t.writers && t.writers[id].done && t.writers[id].ok == t.groups[i].ok
    {
    }
  }

  lemma StepKeeps(base: nat, s: State, t: State)
    requires Inv(base, s) && Step(s, t)
    ensures Inv(base, t)
  {
    if id, batch, size, sync :| Enqueue(s, t, id, batch, size, sync) {
      EnqueueKeeps(base, s, t, id, batch, size, sync);
    } else if Build(s, t) {
      BuildKeeps(base, s, t);
    } else if InsertOne(s, t) {
      InsertKeeps(base, s, t);
    } else if Finish(s, t) {
      FinishKeeps(base, s, t);
    } else if ok :| AddRecord(s, t, ok) {
      AddRecordKeeps(base, s, t, ok);
    } else if ok :| Sync(s, t, ok) {
      SyncKeeps(base, s, t, ok);
    } else if ok :| Alone(s, t, ok) {
      AloneKeeps(base, s, t, ok);
    }
  }

  lemma AloneKeeps(base: nat, s: State, t: State, ok: bool)
    requires Inv(base, s) && Alone(s, t, ok)
    ensures Inv(base, t)
  {
    var id := s.leader.id;
    assert s.queue[..1] == [id];
    assert OpsOf(s.writers, []) == [] && [id][..0] == [];
  }

  // ----- what the invariant is worth -----

  ghost predicate Run(base: nat, run: seq<State>) {
    run != [] && Init(base, run[0]) && forall i :: 0 <= i < |run| - 1 ==> Step(run[i], run[i + 1])
  }

  lemma {:induction false} RunInv(base: nat, run: seq<State>, n: nat)
    requires Run(base, run) && n < |run|
    ensures Inv(base, run[n])
  {
    if n > 0 {
      RunInv(base, run, n - 1);
      StepKeeps(base, run[n - 1], run[n]);
    }
  }

  lemma {:induction false} GroupsGrow(base: nat, run: seq<State>, m: nat, n: nat)
    requires Run(base, run) && m <= n < |run|
    ensures run[m].groups <= run[n].groups
  {
    if m < n {
      GroupsGrow(base, run, m, n - 1);
      assert Step(run[n - 1], run[n]);
    }
  }

  /** The memtable holds each group's numbers, groups in order: all below the next group's first. */
  lemma {:induction false} MemAscends(base: nat, groups: seq<Group>)
    requires Consecutive(base, groups)
    ensures NextFirst(base, groups) > base
    ensures forall x :: x in MemOf(groups) ==> base < x.sequence < NextFirst(base, groups)
    ensures forall i, j :: 0 <= i < j < |MemOf(groups)| ==> MemOf(groups)[i].sequence < MemOf(groups)[j].sequence
  {
    if groups != [] {
      var init, g := groups[..|groups| - 1], groups[|groups| - 1];
      assert forall i :: 0 <= i < |init| ==> groups[..i] == init[..i];
      MemAscends(base, init);
      assert g.first == NextFirst(base, init);
    }
  }

  /** What later groups add is numbered from the next first on. */
  lemma {:induction false} MemSplits(base: nat, groups: seq<Group>, k: nat)
    requires Consecutive(base, groups) && k <= |groups|
    ensures Consecutive(base, groups[..k]) && NextFirst(base, groups[..k]) <= NextFirst(base, groups)
    ensures MemOf(groups[..k]) <= MemOf(groups)
    ensures forall i :: |MemOf(groups[..k])| <= i < |MemOf(groups)| ==>
      MemOf(groups)[i].sequence >= NextFirst(base, groups[..k])
  {
    assert forall i :: 0 <= i < k ==> groups[..k][..i] == groups[..i];
    if k < |groups| {
      var init := groups[..|groups| - 1];
      assert forall i :: 0 <= i < |init| ==> groups[..i] == init[..i];
      MemSplits(base, init, k);
      assert init[..k] == groups[..k];
    } else {
      assert groups[..k] == groups;
    }
  }

  /** A reader that takes the last sequence number at one moment as its snapshot and reads at that or
      any later moment sees all of the groups finished by then and nothing of any other: each batch
      wholly or not at all. */
  lemma SnapshotsSeeWholeGroups(base: nat, run: seq<State>, m: nat, n: nat)
    requires Run(base, run) && m <= n < |run|
    ensures var snapshot, seen, mem := run[m].lastSequence, MemOf(run[m].groups), run[n].mem;
      && seen <= mem
      && (forall i :: 0 <= i < |seen| ==> mem[i].sequence <= snapshot)
      && (forall i :: |seen| <= i < |mem| ==> mem[i].sequence > snapshot)
  {
    RunInv(base, run, m);
    RunInv(base, run, n);
    GroupsGrow(base, run, m, n);
    var s, t := run[m], run[n];
    assert t.groups[..|s.groups|] == s.groups;
    MemSplits(base, t.groups, |s.groups|);
    MemAscends(base, s.groups);
    forall i | |MemOf(t.groups)| <= i < |t.mem| ensures t.mem[i].sequence > s.lastSequence {
      assert t.leader.Committing? && t.leader.group.first == NextFirst(base, t.groups);
    }
    forall i | 0 <= i < |MemOf(s.groups)| ensures t.mem[i].sequence <= s.lastSequence {
      assert t.mem[i] == MemOf(s.groups)[i] && MemOf(s.groups)[i] in MemOf(s.groups);
    }
  }

  function BatchOf(writers: map<nat, Writer>, id: nat): seq<Op>
    requires id in writers
  {
    if writers[id].batch.Some? then writers[id].batch.value else []
  }

  /** A member's batch is a contiguous part of its group's operations. */
  lemma {:induction false} OpsSlice(writers: map<nat, Writer>, members: seq<nat>, j: nat)
    requires j < |members| && forall id :: id in members ==> id in writers
    ensures var o, b := |OpsOf(writers, members[..j])|, BatchOf(writers, members[j]);
      o + |b| <= |OpsOf(writers, members)| && OpsOf(writers, members)[o..o + |b|] == b
  {
    var init := members[..|members| - 1];
    if j < |init| {
      OpsSlice(writers, init, j);
      assert init[..j] == members[..j];
    }
  }

  lemma {:induction false} GroupIsWritten(groups: seq<Group>, i: nat)
    requires i < |groups|
    ensures groups[i].logged ==> Record(groups[i].first, groups[i].ops) in LogOf(groups)
    ensures groups[i].ok ==>
      forall x :: 0 <= x < |groups[i].ops| ==> Numbered(groups[i].first + x, groups[i].ops[x]) in MemOf(groups)
  {
    var init, g := groups[..|groups| - 1], groups[|groups| - 1];
    if i < |init| {
      GroupIsWritten(init, i);
    } else {
      assert forall x :: 0 <= x < |g.ops| ==> Numbers(g.first, g.ops)[x] == Numbered(g.first + x, g.ops[x]);
    }
  }

  lemma {:induction false} FindGroup(groups: seq<Group>, id: nat) returns (i: nat, j: nat)
    requires id in Members(groups)
    ensures i < |groups| && j < |groups[i].members| && groups[i].members[j] == id
  {
    var init, g := groups[..|groups| - 1], groups[|groups| - 1];
    if id in g.members {
      i := |init|;
      j :| 0 <= j < |g.members| && g.members[j] == id;
    } else {
      i, j := FindGroup(init, id);
    }
  }

  /** Where a member's operations begin in the numbering. */
  ghost function FirstOf(writers: map<nat, Writer>, g: Group, j: nat): nat
    requires j < |g.members| && forall id :: id in g.members ==> id in writers
  {
    g.first + |OpsOf(writers, g.members[..j])|
  }

  /** A writer answered with success, in a group led by a writer with a batch: its batch is in a
      record of the log and, operation by operation, in the memtable under consecutive numbers; and
      if it asked for a sync the group was synced. */
  lemma SuccessIsWritten(base: nat, s: State, id: nat) returns (i: nat, j: nat)
    requires Inv(base, s) && id in s.writers && s.writers[id].done && s.writers[id].ok
    ensures i < |s.groups| && j < |s.groups[i].members| && s.groups[i].members[j] == id
    ensures var g, b := s.groups[i], BatchOf(s.writers, id);
      && g.ok && (forall m :: m in g.members ==> m in s.writers)
      && (s.writers[g.members[0]].batch.Some? ==> Record(g.first, g.ops) in s.log && (s.writers[id].sync ==> g.synced))
      && (forall x :: 0 <= x < |b| ==> Numbered(FirstOf(s.writers, g, j) + x, b[x]) in s.mem)
  {
    assert id in s.arrivals && id !in s.queue;
    i, j := FindGroup(s.groups, id);
    var g := s.groups[i];
    assert GroupOk(s.writers, g) && g.members[j] in g.members;
    MemberIsWritten(s.writers, s.groups, i, j);
    GroupIsWritten(s.groups, i);
    assert forall x :: x in MemOf(s.groups) ==> x in s.mem;
  }

  lemma MemberIsWritten(writers: map<nat, Writer>, groups: seq<Group>, i: nat, j: nat)
    requires i < |groups| && j < |groups[i].members| && groups[i].ok && GroupOk(writers, groups[i])
    ensures var b := BatchOf(writers, groups[i].members[j]);
      forall x :: 0 <= x < |b| ==> Numbered(FirstOf(writers, groups[i], j) + x, b[x]) in MemOf(groups)
  {
    var b := BatchOf(writers, groups[i].members[j]);
    forall x | 0 <= x < |b| ensures Numbered(FirstOf(writers, groups[i], j) + x, b[x]) in MemOf(groups) {
      OpIsWritten(writers, groups, i, j, x, |OpsOf(writers, groups[i].members[..j])|, b);
    }
  }

  lemma OpIsWritten(writers: map<nat, Writer>, groups: seq<Group>, i: nat, j: nat, x: nat, o: nat, b: seq<Op>)
    requires i < |groups| && j < |groups[i].members| && groups[i].ok
      && (forall id :: id in groups[i].members ==> id in writers)
    requires groups[i].ops == OpsOf(writers, groups[i].members) && o == |OpsOf(writers, groups[i].members[..j])|
    requires b == BatchOf(writers, groups[i].members[j]) && x < |b|
    ensures Numbered(groups[i].first + o + x, b[x]) in MemOf(groups)
  {
    GroupIsWritten(groups, i);
    OpsSlice(writers, groups[i].members, j);
    assert b[x] == groups[i].ops[o..o + |b|][x] == groups[i].ops[o + x];
    assert Numbered(groups[i].first + (o + x), groups[i].ops[o + x]) in MemOf(groups);
  }

  /** Nobody is committed twice, numbers are never reused, and members follow the order of arrival. */
  lemma EachWriterOnce(base: nat, s: State)
    requires Inv(base, s)
    ensures Members(s.groups) <= s.arrivals && NoDuplicates(Members(s.groups))
    ensures forall i, j :: 0 <= i < j < |s.mem| ==> s.mem[i].sequence < s.mem[j].sequence
  {
    forall i, j | 0 <= i < j < |Members(s.groups)| ensures Members(s.groups)[i] != Members(s.groups)[j] {
      assert s.arrivals[i] == Members(s.groups)[i] && s.arrivals[j] == Members(s.groups)[j];
    }
    MemAscends(base, s.groups);
    forall i, j | 0 <= i < j < |s.mem| ensures s.mem[i].sequence < s.mem[j].sequence {
      if i < |MemOf(s.groups)| <= j {
        assert MemOf(s.groups)[i] in MemOf(s.groups);
        assert s.leader.group.first == NextFirst(base, s.groups);
      }
    }
  }

  /** The queue never sleeps: whenever writers wait and nobody leads, the front one is awake. */
  lemma FrontCanLead(base: nat, s: State)
    requires Inv(base, s) && s.leader.Nobody? && s.queue != []
    ensures exists t :: TakeLead(s, t)
  {
    assert TakeLead(s, s.(leader := MakingRoom(s.queue[0])));
  }
}
