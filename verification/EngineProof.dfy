/** Every step keeps the engine's invariant, so in every reachable state reads
    return the newest logged entry and nothing logged is lost by a crash. */
module EngineProof {
  import opened InternalKeys
  import opened ReadSpec
  import opened Levels
  import opened Selection
  import opened Commit
  import opened DropRule
  import opened Jobs
  import opened EngineState

  // ---- Entries of the levels ---------------------------------------------

  lemma LevelEntriesUnion(a: set<Table>, b: set<Table>)
    ensures LevelEntries(a + b) == LevelEntries(a) + LevelEntries(b)
  {
  }

  lemma ReplaceLevel(levels: Levels, l: nat, level: set<Table>)
    requires l < |levels|
    ensures AllEntries(levels[l := level]) + LevelEntries(levels[l]) == AllEntries(levels) + LevelEntries(level)
  {
    var after := levels[l := level];
    forall e | e in AllEntries(after) ensures e in AllEntries(levels) + LevelEntries(level) {
      var k :| 0 <= k < |after| && e in LevelEntries(after[k]);
      assert k != l ==> after[k] == levels[k];
    }
    forall e | e in AllEntries(levels) ensures e in AllEntries(after) + LevelEntries(levels[l]) {
      var k :| 0 <= k < |levels| && e in LevelEntries(levels[k]);
      assert k != l ==> after[k] == levels[k];
    }
    assert after[l] == level;
    forall e | e in LevelEntries(level) ensures e in AllEntries(after) {
      assert e in LevelEntries(after[l]);
    }
    assert LevelEntries(levels[l]) <= AllEntries(levels);
  }

  lemma AddToLevel(levels: Levels, l: nat, more: set<Table>)
    requires l < |levels|
    ensures AllEntries(levels[l := levels[l] + more]) == AllEntries(levels) + LevelEntries(more)
  {
    var after := levels[l := levels[l] + more];
    LevelEntriesUnion(levels[l], more);
    ReplaceLevel(levels, l, levels[l] + more);
    forall e | e in LevelEntries(levels[l]) ensures e in AllEntries(levels) && e in AllEntries(after) {
      assert e in LevelEntries(after[l]);
    }
    forall e | e in LevelEntries(more) ensures e in AllEntries(after) {
      assert e in LevelEntries(after[l]);
    }
  }

  // ---- Writing ------------------------------------------------------------

  lemma StampIs(ops: seq<Update>, first: nat)
    requires first + |ops| <= MAX_SEQUENCE + 1
    ensures Distinct(Stamp(ops, first))
    ensures forall e :: e in Stamp(ops, first) ==> first <= e.key.sequence < first + |ops|
    ensures |ops| > 0 ==> exists e :: e in Stamp(ops, first) && e.key.sequence == first + |ops| - 1
  {
    if |ops| > 0 {
      var i := |ops| - 1;
      assert Entry(InternalKey(ops[i].user, first + i, ops[i].kind), ops[i].value) in Stamp(ops, first);
    }
  }

  lemma LogEntriesAppend(log: Log, batch: set<Entry>)
    ensures LogEntries(log + [batch]) == LogEntries(log) + batch
  {
    forall e | e in LogEntries(log) + batch ensures e in LogEntries(log + [batch]) {
      if e in batch {
        assert batch in log + [batch];
      } else {
        var b :| b in log && e in b;
        assert b in log + [batch];
      }
    }
  }

  lemma LoggedInSame(a: map<nat, Log>, b: map<nat, Log>, from: nat, to: nat)
    requires forall n :: from <= n < to ==> (n in a <==> n in b) && (n in a ==> LogEntries(a[n]) == LogEntries(b[n]))
    ensures LoggedIn(a, from, to) == LoggedIn(b, from, to)
  {
  }

  /** Adding the same newest entries to two sets that read alike keeps them alike. */
  lemma ReadWithNewer(s: set<Entry>, t: set<Entry>, newer: set<Entry>, u: UserKey, q: int)
    requires Distinct(s + newer) && Distinct(t + newer)
    requires forall a, b :: a in newer && b in s + t ==> a.key.sequence > b.key.sequence
    requires Read(s, u, q) == Read(t, u, q)
    ensures Read(s + newer, u, q) == Read(t + newer, u, q)
  {
    match Newest(newer, u, q)
    case Some(e) =>
      assert IsNewest(s + newer, u, q, e) && IsNewest(t + newer, u, q, e);
      NewestUnique(s + newer, u, q, e);
      NewestUnique(t + newer, u, q, e);
    case None =>
      OnlyOld(s, newer, u, q);
      OnlyOld(t, newer, u, q);
  }

  lemma OnlyOld(s: set<Entry>, newer: set<Entry>, u: UserKey, q: int)
    requires Distinct(s + newer) && forall e :: e in newer ==> !Candidate(e, u, q)
    ensures Read(s + newer, u, q) == Read(s, u, q)
  {
    match Newest(s, u, q)
    case None =>
    case Some(e) =>
      NewestUnique(s, u, q, e);
      assert IsNewest(s + newer, u, q, e);
      NewestUnique(s + newer, u, q, e);
  }

  lemma LoggedInSplit(logs: map<nat, Log>, from: nat, mid: nat, to: nat)
    requires from <= mid <= to
    ensures LoggedIn(logs, from, to) == LoggedIn(logs, from, mid) + LoggedIn(logs, mid, to)
  {
  }

  lemma LoggedInOne(logs: map<nat, Log>, n: nat, to: nat)
    requires n in logs && n < to && forall m :: m in logs ==> m <= n
    ensures LoggedIn(logs, n, to) == LogEntries(logs[n])
  {
  }

  lemma LogWriteLayered(s: State, ops: seq<Update>)
    requires Layered(s) && CanLog(s, ops)
    ensures Layered(Logged(s, ops))
  {
    StampIs(ops, s.lastSequence + 1);
    assert ops == [] ==> Stamp(ops, s.lastSequence + 1) == {};
  }

  lemma StampIsDistinct(history: set<Entry>, ops: seq<Update>, first: nat)
    requires Distinct(history) && first + |ops| <= MAX_SEQUENCE + 1 && AtOrBelow(history, first - 1)
    ensures Distinct(history + Stamp(ops, first))
  {
    var batch := Stamp(ops, first);
    forall a, b | a in batch && b in batch && a.key.sequence == b.key.sequence ensures a == b {
      var i :| 0 <= i < |ops| && a == Entry(InternalKey(ops[i].user, first + i, ops[i].kind), ops[i].value);
      var j :| 0 <= j < |ops| && b == Entry(InternalKey(ops[j].user, first + j, ops[j].kind), ops[j].value);
    }
    forall a | a in batch ensures a.key.sequence >= first {}
  }

  lemma NewerFaithful(s: State, s': State, batch: set<Entry>)
    requires Faithful(s) && Contents(s') == Contents(s) + batch && s'.history == s.history + batch
      && Distinct(s'.history)
    requires forall a, b :: a in batch && b in s.history ==> a.key.sequence > b.key.sequence
    requires forall q :: Served(s', q) ==> Served(s, q)
    ensures Faithful(s')
  {
    DistinctPart(s'.history, Contents(s'));
    forall u, q | Served(s', q) ensures Read(Contents(s'), u, q) == Read(s'.history, u, q) {
      ReadWithNewer(Contents(s), s.history, batch, u, q);
    }
  }

  lemma LogWriteFaithful(s: State, ops: seq<Update>)
    requires Layered(s) && Faithful(s) && CanLog(s, ops)
    ensures Faithful(Logged(s, ops))
  {
    var s', batch := Logged(s, ops), Stamp(ops, s.lastSequence + 1);
    StampIs(ops, s.lastSequence + 1);
    assert Contents(s') == Contents(s) + batch;
    StampIsDistinct(s.history, ops, s.lastSequence + 1);
    NewerFaithful(s, s', batch);
  }

  lemma LogWriteLogs(s: State, ops: seq<Update>)
    requires LogsOk(s) && CanLog(s, ops)
    ensures LogsOk(Logged(s, ops))
  {
    var s', batch := Logged(s, ops), Stamp(ops, s.lastSequence + 1);
    LogEntriesAppend(s.logs[s.logNumber], batch);
    LoggedInSame(s.logs, s'.logs, s.manifestLog, s.logNumber);
  }

  lemma LogWriteManifest(s: State, ops: seq<Update>)
    requires Layered(s) && ManifestOk(s) && CanLog(s, ops)
    ensures ManifestOk(Logged(s, ops))
  {
    var s', batch := Logged(s, ops), Stamp(ops, s.lastSequence + 1);
    LogWriteTop(s, ops);
  }

  lemma LogWriteTop(s: State, ops: seq<Update>)
    requires CanLog(s, ops) && s.pendingTop == s.lastSequence
    requires s.pendingTop == s.manifestLast || TopIn(s.mem + s.imm + s.pending, s.pendingTop)
    ensures var s' := Logged(s, ops);
      s'.pendingTop == s'.manifestLast || TopIn(s'.mem + s'.imm + s'.pending, s'.pendingTop)
  {
    var s', batch := Logged(s, ops), Stamp(ops, s.lastSequence + 1);
    StampIs(ops, s.lastSequence + 1);
    if ops == [] {
      assert s'.mem + s'.imm + s'.pending == s.mem + s.imm + s.pending;
    } else {
      var e :| e in batch && e.key.sequence == s.lastSequence + |ops|;
      assert e in s'.mem + s'.imm + s'.pending;
    }
  }

  lemma InsertKeeps(s: State)
    requires Layered(s) && Faithful(s) && LogsOk(s) && ManifestOk(s)
    ensures var s' := Inserted(s); Layered(s') && Faithful(s') && LogsOk(s') && ManifestOk(s')
  {
    var s' := Inserted(s);
    assert Contents(s') == Contents(s);
    assert s'.mem + s'.imm + s'.pending == s.mem + s.imm + s.pending;
    forall u, q | Served(s', q) ensures Read(Contents(s'), u, q) == Read(s'.history, u, q) {
      assert Served(s, q);
    }
  }

  lemma SwitchKeeps(s: State)
    requires Layered(s) && Faithful(s) && LogsOk(s) && ManifestOk(s) && CanSwitch(s)
    ensures var s' := Switched(s); Layered(s') && Faithful(s') && LogsOk(s') && ManifestOk(s')
  {
    var s' := Switched(s);
    assert Contents(s') == Contents(s);
    assert LogEntries([]) == {};
    LoggedInSplit(s.logs, s.manifestLog, s.logNumber, s.nextFile);
    LoggedInOne(s.logs, s.logNumber, s.nextFile);
    LoggedInSame(s.logs, s'.logs, s.manifestLog, s.nextFile);
    forall u, q | Served(s', q) ensures Read(Contents(s'), u, q) == Read(s'.history, u, q) {
      assert Served(s, q);
    }
    assert s'.mem + s'.imm + s'.pending == s.mem + s.imm + s.pending;
  }

  // ---- Flushing and compacting --------------------------------------------

  lemma SameFaithful(s: State, s': State)
    requires Faithful(s) && Contents(s') == Contents(s) && s'.history == s.history
    requires forall q :: Served(s', q) ==> Served(s, q)
    ensures Faithful(s')
  {
  }

  /** The new table is newer than every table of the levels. */
  lemma FlushedIsNewest(s: State, t: Table)
    requires Layered(s) && ManifestOk(s) && TableEntries(t) == s.imm && t.number == s.nextFile
    ensures NewestTable(s.levels, t)
  {
    forall l, g, a, b | 0 <= l < |s.levels| && g in s.levels[l] && a in t.entries && b in g.entries
      ensures a.key.sequence > b.key.sequence
    {
      EntryIn(s.levels, l, g, b);
      assert a in TableEntries(t);
    }
  }

  lemma FlushContents(s: State, p: nat, t: Table)
    requires p < |s.levels| && TableEntries(t) == s.imm
    ensures AllEntries(AfterFlush(s.levels, p, t)) == AllEntries(s.levels) + s.imm
  {
    AddToLevel(s.levels, p, {t});
    assert LevelEntries({t}) == TableEntries(t);
  }

  lemma FlushKeeps(s: State, p: nat, t: Table)
    requires Layered(s) && Faithful(s) && LogsOk(s) && ManifestOk(s) && CanFlush(s, p, t)
    ensures var s' := Flushed(s, p, t); Layered(s') && Faithful(s') && LogsOk(s') && ManifestOk(s')
  {
    var s' := Flushed(s, p, t);
    FlushedIsNewest(s, t);
    FlushKeepsWellFormed(s.levels, p, t);
    FlushContents(s, p, t);
    SameFaithful(s, s');
    assert LoggedIn(s'.logs, s'.manifestLog, s'.logNumber) == {};
    FlushManifest(s, p, t);
  }

  lemma FlushManifest(s: State, p: nat, t: Table)
    requires Layered(s) && ManifestOk(s) && CanFlush(s, p, t)
    ensures ManifestOk(Flushed(s, p, t))
  {
    var s' := Flushed(s, p, t);
    FlushContents(s, p, t);
    forall l, f | 0 <= l < |s'.levels| && f in s'.levels[l]
      ensures f.number < s'.manifestNext && f.number in s'.tables
    {
      assert f in s.levels[l] || f == t;
    }
    TopAfterFlush(s, s');
  }

  /** After a commit the last sequence number is the manifest's, unless a write is pending. */
  lemma TopAfterFlush(s: State, s': State)
    requires Layered(s) && ManifestOk(s)
    requires s'.pendingTop == s.pendingTop && s'.manifestLast == s.lastSequence
      && s.pending <= s'.mem + s'.imm + s'.pending
    ensures s'.pendingTop == s'.manifestLast || TopIn(s'.mem + s'.imm + s'.pending, s'.pendingTop)
  {
    if s.pendingTop != s.lastSequence {
      var e :| e in s.mem + s.imm + s.pending && e.key.sequence == s.pendingTop;
      assert e in s.pending;
    }
  }

  lemma FlushJob(s: State, p: nat, t: Table)
    requires Inv(s) && CanFlush(s, p, t) && s.job.Some?
    ensures JobOk(Flushed(s, p, t), s.job.value)
  {
    var s', j := Flushed(s, p, t), s.job.value;
    FlushedIsNewest(s, t);
    FlushKeepsSafe(s.levels, j.level, j.in0, j.in1, p, t);
    forall f, l, g, u: UserKey | f in j.in0 + j.in1 && j.level + 2 <= l < |s'.levels| && g in s'.levels[l]
        && u in j.base
      ensures !(Spans(f, u) && Spans(g, u))
    {
      assert g in s.levels[l] || (g == t && l == p);
      assert g == t && l == p ==> !Overlaps(t, f);
    }
  }

  lemma FlushEmptyKeeps(s: State)
    requires Layered(s) && Faithful(s) && LogsOk(s) && ManifestOk(s) && s.hasImm && s.imm == {}
    ensures var s' := FlushedEmpty(s); Layered(s') && Faithful(s') && LogsOk(s') && ManifestOk(s')
  {
    var s' := FlushedEmpty(s);
    SameFaithful(s, s');
    assert LoggedIn(s'.logs, s'.manifestLog, s'.logNumber) == {};
    TopAfterFlush(s, s');
  }

  /** A dropped tombstone uncovers nothing: anything older of the same key would lie below, where the
      base rule excludes it, or in a file left behind that begins with it. */
  lemma NothingResurrects(s: State, j: Job, rest: set<Entry>)
    requires Layered(s) && Distinct(LevelEntries(j.in0 + j.in1) + rest) && JobOk(s, j)
    requires rest == Others(s.levels, j, s.mem + s.imm + s.pending)
    requires !Straddled(s.levels, j, s.mem + s.imm + s.pending)
    ensures !Resurrects(LevelEntries(j.in0 + j.in1), rest, j.horizon, j.base)
  {
    var upper := s.mem + s.imm + s.pending;
    WholeContents(s.levels, j, upper);
    assert Picked(s.levels, j, upper);
    forall d, p ensures !Uncovers(LevelEntries(j.in0 + j.in1), rest, j.horizon, j.base, d, p) {
      if Uncovers(LevelEntries(j.in0 + j.in1), rest, j.horizon, j.base, d, p) {
        UncoveredIsStraddled(s.levels, j, upper, d, p);
      }
    }
  }

  lemma InstalledContents(levels: Levels, j: Job, outs: set<Table>)
    requires j.level + 1 < |levels| && NumbersDistinct(levels) && j.in0 <= levels[j.level]
      && j.in1 <= levels[j.level + 1]
    ensures AllEntries(AfterCompaction(levels, j.level, j.in0, j.in1, outs)) ==
        LevelEntries(outs) + OtherEntries(levels, j)
  {
    var after := AfterCompaction(levels, j.level, j.in0, j.in1, outs);
    forall e | e in AllEntries(after) ensures e in LevelEntries(outs) || e in OtherEntries(levels, j) {
      var l, f := TableOf(after, e);
      if f in outs {
        assert e in TableEntries(f);
      } else {
        StillOutside(levels, j, outs, l, f);
        EntryIn(levels, l, f, e);
        assert InTable(levels, j, l, f, e);
      }
    }
    forall e | e in OtherEntries(levels, j) ensures e in AllEntries(after) {
      var l, f :| InTable(levels, j, l, f, e);
      assert f in after[l];
      EntryIn(after, l, f, e);
    }
    forall e | e in LevelEntries(outs) ensures e in AllEntries(after) {
      var f := Origin(outs, e);
      EntryIn(after, j.level + 1, f, e);
    }
  }

  lemma StillOutside(levels: Levels, j: Job, outs: set<Table>, l: int, f: Table)
    requires j.level + 1 < |levels| && NumbersDistinct(levels) && j.in0 <= levels[j.level]
      && j.in1 <= levels[j.level + 1]
    requires 0 <= l < |levels| && f in AfterCompaction(levels, j.level, j.in0, j.in1, outs)[l] && f !in outs
    ensures f in levels[l] && f !in j.in0 + j.in1
  {
    assert f in levels[l] && forall k :: 0 <= k < |levels| && f in levels[k] ==> k == l;
  }

  lemma BeyondCovers(outs: set<Table>, floor: nat)
    ensures forall t :: t in outs ==> t.number in Numbers(outs) && t.number < Beyond(outs, floor)
  {
  }

  lemma InstallLayered(s: State, j: Job, outs: set<Table>)
    requires Layered(s) && FilesOk(s) && JobOk(s, j) && CanInstall(s, j, outs)
    ensures Layered(Installed(s, j, outs))
    ensures AllEntries(Installed(s, j, outs).levels) <= AllEntries(s.levels)
  {
    SplitContents(s.levels, j);
    InstalledContents(s.levels, j, outs);
    forall t, e | t in outs && e in t.entries ensures e in LevelEntries(j.in0 + j.in1) {
      assert e in TableEntries(t) && e in LevelEntries(outs);
    }
    forall l, g | 0 <= l < |s.levels| && g in s.levels[l] ensures g.number in LevelNumbers(s.levels) {}
    CompactionKeepsWellFormed(s.levels, j.level, j.in0, j.in1, outs);
  }

  lemma Regroup(mem: set<Entry>, imm: set<Entry>, levels: set<Entry>, pending: set<Entry>, part: set<Entry>,
                other: set<Entry>)
    requires levels == part + other
    ensures mem + imm + levels + pending == part + (mem + imm + pending + other)
  {
  }

  lemma InstallReads(s: State, j: Job, rest: set<Entry>)
    requires Layered(s) && JobOk(s, j) && Distinct(LevelEntries(j.in0 + j.in1) + rest)
    requires rest == s.mem + s.imm + s.pending + OtherEntries(s.levels, j)
    requires !Straddled(s.levels, j, s.mem + s.imm + s.pending)
    ensures SameReads(LevelEntries(j.in0 + j.in1) + rest, Kept(LevelEntries(j.in0 + j.in1), j.horizon, j.base) + rest,
        j.horizon)
  {
    NothingResurrects(s, j, rest);
    CompactionPreservesReads(LevelEntries(j.in0 + j.in1), rest, j.horizon, j.base);
  }

  lemma InstallFaithful(s: State, j: Job, outs: set<Table>)
    requires Layered(s) && Faithful(s) && JobOk(s, j) && CanInstall(s, j, outs)
    ensures Faithful(Installed(s, j, outs))
  {
    var s' := Installed(s, j, outs);
    var rest := s.mem + s.imm + s.pending + OtherEntries(s.levels, j);
    SplitContents(s.levels, j);
    InstalledContents(s.levels, j, outs);
    Regroup(s.mem, s.imm, AllEntries(s.levels), s.pending, LevelEntries(j.in0 + j.in1), OtherEntries(s.levels, j));
    Regroup(s.mem, s.imm, AllEntries(s'.levels), s.pending, LevelEntries(outs), OtherEntries(s.levels, j));
    var before, after := LevelEntries(j.in0 + j.in1) + rest,
        Kept(LevelEntries(j.in0 + j.in1), j.horizon, j.base) + rest;
    assert Contents(s) == before && Contents(s') == after;
    DistinctPart(s.history, before);
    InstallReads(s, j, rest);
    KeptPart(LevelEntries(j.in0 + j.in1), rest, j.horizon, j.base);
    NarrowedFaithful(s, s', j.horizon, before, after);
  }

  lemma DistinctPart(s: set<Entry>, part: set<Entry>)
    requires Distinct(s) && part <= s
    ensures Distinct(part)
  {
  }

  lemma KeptPart(inputs: set<Entry>, rest: set<Entry>, horizon: int, base: iset<UserKey>)
    ensures Kept(inputs, horizon, base) + rest <= inputs + rest
  {
  }

  lemma NarrowedFaithful(s: State, s': State, horizon: int, before: set<Entry>, after: set<Entry>)
    requires Faithful(s) && s'.history == s.history && Contents(s) == before && Contents(s') == after && after <= before
    requires SameReads(before, after, horizon)
    requires s'.lastSequence == s.lastSequence && s'.snapshots == s.snapshots
    requires horizon <= s.lastSequence && forall q :: q in s.snapshots ==> horizon <= q
    ensures Faithful(s')
  {
    forall u, q | Served(s', q) ensures Read(Contents(s'), u, q) == Read(s'.history, u, q) {
      assert Served(s, q);
    }
  }

  lemma InstallManifest(s: State, j: Job, outs: set<Table>)
    requires Layered(s) && ManifestOk(s) && FilesOk(s) && j.level + 1 < |s.levels|
    requires forall t :: t in outs ==> t.number in s.pendingOutputs
    requires AllEntries(Installed(s, j, outs).levels) <= AllEntries(s.levels)
    ensures ManifestOk(Installed(s, j, outs))
  {
    var s' := Installed(s, j, outs);
    forall l, f | 0 <= l < |s'.levels| && f in s'.levels[l]
      ensures f.number < s'.manifestNext && f.number in s'.tables
    {
      assert f in s.levels[l] || f in outs;
    }
    TopAfterFlush(s, s');
  }

  lemma MovedLevels(s: State, level: nat, f: Table)
    requires Layered(s) && CanMove(s, level, f)
    ensures WellFormed(Moved(s, level, f).levels) && AllEntries(Moved(s, level, f).levels) == AllEntries(s.levels)
  {
    var j := Job(level, {f}, {}, 0, iset{});
    assert {f} + {} == {f};
    forall e | e in f.entries ensures e in LevelEntries({f}) { assert e in TableEntries(f); }
    CompactionKeepsWellFormed(s.levels, level, {f}, {}, {f});
    SplitContents(s.levels, j);
    InstalledContents(s.levels, j, {f});
  }

  lemma MoveKeeps(s: State, level: nat, f: Table)
    requires Inv(s) && s.job.None? && CanMove(s, level, f)
    ensures Inv(Moved(s, level, f))
  {
    var s' := Moved(s, level, f);
    MovedLevels(s, level, f);
    SameFaithful(s, s');
    assert f in s.levels[level];
    forall l, g | 0 <= l < |s'.levels| && g in s'.levels[l]
      ensures g.number < s'.manifestNext && g.number in s'.tables
    {
      assert g in s.levels[l] || g == f;
    }
    TopAfterFlush(s, s');
    MovedNumbers(s.levels, level, f);
    FilesKept(s, s');
  }

  lemma MovedNumbers(levels: Levels, level: nat, f: Table)
    requires level + 1 < |levels| && f in levels[level]
    ensures LevelNumbers(AfterCompaction(levels, level, {f}, {}, {f})) <= LevelNumbers(levels)
  {
    var after := AfterCompaction(levels, level, {f}, {}, {f});
    forall n | n in LevelNumbers(after) ensures n in LevelNumbers(levels) {
      var l, g: Table :| 0 <= l < |after| && g in after[l] && g.number == n;
      assert g in levels[l] || g == f;
    }
  }

  /** A step that opens no output and leaves every log as it is, or begins a new one. */
  lemma FilesKept(s: State, s': State)
    requires FilesOk(s) && s'.pendingOutputs == s.pendingOutputs && s.tables <= s'.tables && s'.job == s.job
      && s.nextFile <= s'.nextFile
    requires forall n :: n in LevelNumbers(s'.levels) ==> n in LevelNumbers(s.levels) || n >= s.nextFile
    requires s'.torn == s.torn && s.logs.Keys <= s'.logs.Keys && s'.alive == s.alive
      && (s'.logNumber == s.logNumber || s'.logNumber !in s.logs)
    ensures FilesOk(s')
  {
  }

  lemma PickJob(s: State, level: nat, in0: set<Table>, in1: set<Table>, h: nat)
    requires Layered(s) && CanPick(s, level, in0, in1, h)
    ensures JobOk(s, Job(level, in0, in1, h, BaseOf(s.levels, level)))
  {
    var j := Job(level, in0, in1, h, BaseOf(s.levels, level));
    forall f, l, g, u: UserKey | f in in0 + in1 && level + 2 <= l < |s.levels| && g in s.levels[l] && u in j.base
      ensures !Spans(g, u)
    {
      assert NoneBelow(s.levels, level, u);
    }
    if |s.snapshots| == 0 {
      assert s.snapshots == multiset{};
    }
  }

  lemma DeleteKeeps(s: State, held: set<nat>)
    requires LogsOk(s) && ManifestOk(s) && FilesOk(s)
    ensures LogsOk(Cleaned(s, held)) && ManifestOk(Cleaned(s, held)) && FilesOk(Cleaned(s, held))
  {
    var s' := Cleaned(s, held);
    LoggedInSame(s.logs, s'.logs, s.manifestLog, s.logNumber);
    forall l, f | 0 <= l < |s.levels| && f in s.levels[l] ensures f.number in LevelNumbers(s.levels) {}
  }

  // ---- Crash and recovery -------------------------------------------------

  /** What recovery replays is exactly what no table holds. */
  lemma ReplayedIs(s: State)
    requires LogsOk(s)
    ensures Replayed(s) == s.imm + (s.mem + s.pending)
  {
    LoggedInSplit(s.logs, s.manifestLog, s.logNumber, s.logNumber + 1);
    LoggedInOne(s.logs, s.logNumber, s.logNumber + 1);
  }

  /** Recovery finds the sequence counter that the crash lost. */
  lemma RecoversLast(s: State, last: nat)
    requires Layered(s) && Faithful(s) && LogsOk(s) && ManifestOk(s) && RecoveredLast(s, last)
    ensures last == s.pendingTop
  {
    ReplayedIs(s);
    assert Replayed(s) <= s.history;
    assert s.mem + s.imm + s.pending == Replayed(s);
  }

  lemma ChunksNewest(s: State, chunks: seq<Table>, reuse: bool, first: nat)
    requires Layered(s) && LogsOk(s) && ManifestOk(s) && ChunksOk(s, chunks, reuse, first)
    ensures forall i, l, g :: 0 <= i < |chunks| && 0 <= l < |s.levels| && g in s.levels[l] ==>
      Newer(chunks[i], g) && g.number < chunks[i].number
  {
    LoggedInSplit(s.logs, s.manifestLog, s.logNumber, s.logNumber + 1);
    LoggedInOne(s.logs, s.logNumber, s.logNumber + 1);
    forall i, l, g, a, b | 0 <= i < |chunks| && 0 <= l < |s.levels| && g in s.levels[l] && a in chunks[i].entries
        && b in g.entries
      ensures a.key.sequence > b.key.sequence
    {
      EntryIn(s.levels, l, g, b);
      assert a in TableEntries(chunks[i]) && a in LevelEntries(ChunkSet(chunks));
      assert a in s.imm + s.mem + s.pending;
    }
  }

  lemma AddChunksWellFormed(levels: Levels, chunks: seq<Table>)
    requires WellFormed(levels)
    requires forall i, j :: 0 <= i < j < |chunks| ==> chunks[i].number < chunks[j].number && Newer(chunks[j], chunks[i])
    requires forall i, l, g :: 0 <= i < |chunks| && 0 <= l < |levels| && g in levels[l] ==>
      Newer(chunks[i], g) && g.number < chunks[i].number
    ensures WellFormed(AddChunks(levels, chunks))
  {
    var after := AddChunks(levels, chunks);
    forall i, j, f, g | 0 <= i < j < NUM_LEVELS && f in after[i] && g in after[j] ensures Newer(f, g) {
      assert g in levels[j] && (f in levels[i] || f in ChunkSet(chunks));
      if f in levels[i] { assert LevelNewer(levels[i], levels[j]); }
    }
    forall l | 1 <= l < NUM_LEVELS ensures Ordered(after[l]) { assert after[l] == levels[l]; }
    AddChunksNumbers(levels, chunks);
  }

  lemma AddChunksNumbers(levels: Levels, chunks: seq<Table>)
    requires WellFormed(levels)
    requires forall i, j :: 0 <= i < j < |chunks| ==> chunks[i].number < chunks[j].number
    requires forall i, l, g :: 0 <= i < |chunks| && 0 <= l < |levels| && g in levels[l] ==> g.number < chunks[i].number
    ensures NumbersDistinct(AddChunks(levels, chunks))
  {
    var after := AddChunks(levels, chunks);
    forall l, f | 0 <= l < NUM_LEVELS && f in after[l] ensures f in levels[l] || (l == 0 && f in ChunkSet(chunks)) {}
  }

  lemma RecoverLevels(s: State, chunks: seq<Table>, reuse: bool, save: bool, first: nat, last: nat)
    requires LogsOk(s) && CanRecover(s, chunks, reuse, save, first, last)
    ensures var s' := Recovered(s, chunks, reuse, save, first, last);
            AllEntries(s'.levels) == AllEntries(s.levels) + LevelEntries(ChunkSet(chunks)) &&
            LevelEntries(ChunkSet(chunks)) + s'.mem == s.imm + (s.mem + s.pending)
  {
    ReplayedIs(s);
    AddToLevel(s.levels, 0, ChunkSet(chunks));
  }

  lemma RecoverLayered(s: State, chunks: seq<Table>, reuse: bool, save: bool, first: nat, last: nat)
    requires Layered(s) && LogsOk(s) && ManifestOk(s) && CanRecover(s, chunks, reuse, save, first, last)
      && last == s.pendingTop
    ensures Layered(Recovered(s, chunks, reuse, save, first, last))
  {
    RecoverLevels(s, chunks, reuse, save, first, last);
    ChunksNewest(s, chunks, reuse, first);
    AddChunksWellFormed(s.levels, chunks);
    RecoverOrder(s, chunks, reuse, save, first, last);
  }

  lemma RecoverOrder(s: State, chunks: seq<Table>, reuse: bool, save: bool, first: nat, last: nat)
    requires Layered(s) && LogsOk(s) && CanRecover(s, chunks, reuse, save, first, last)
    ensures var s' := Recovered(s, chunks, reuse, save, first, last); Above(s'.mem, AllEntries(s'.levels))
    ensures AtOrBelow(s.history, s.pendingTop) && Contents(s) <= s.history ==>
              AtOrBelow(Recovered(s, chunks, reuse, save, first, last).mem
                  + AllEntries(Recovered(s, chunks, reuse, save, first, last).levels), s.pendingTop)
  {
    RecoverLevels(s, chunks, reuse, save, first, last);
  }

  lemma RecoverFaithful(s: State, chunks: seq<Table>, reuse: bool, save: bool, first: nat, last: nat)
    requires Layered(s) && Faithful(s) && LogsOk(s) && CanRecover(s, chunks, reuse, save, first, last)
      && last == s.pendingTop
    ensures Faithful(Recovered(s, chunks, reuse, save, first, last))
  {
    var s' := Recovered(s, chunks, reuse, save, first, last);
    RecoverLevels(s, chunks, reuse, save, first, last);
    RecoverContents(s, s', LevelEntries(ChunkSet(chunks)));
    SameFaithful(s, s');
  }

  lemma RecoverContents(s: State, s': State, chunks: set<Entry>)
    requires AllEntries(s'.levels) == AllEntries(s.levels) + chunks && chunks + s'.mem == s.imm + (s.mem + s.pending)
    requires s'.imm == {} && s'.pending == {}
    ensures Contents(s') == Contents(s)
  {
    assert Contents(s') == AllEntries(s.levels) + (chunks + s'.mem);
    assert Contents(s) == AllEntries(s.levels) + (s.imm + (s.mem + s.pending));
  }

  lemma RecoverLogs(s: State, chunks: seq<Table>, reuse: bool, save: bool, first: nat, last: nat)
    requires LogsOk(s) && CanRecover(s, chunks, reuse, save, first, last)
    ensures LogsOk(Recovered(s, chunks, reuse, save, first, last))
  {
    var s' := Recovered(s, chunks, reuse, save, first, last);
    BeyondCovers(ChunkSet(chunks), first);
    assert LogEntries([]) == {};
    if chunks == [] {
      assert LevelEntries(ChunkSet(chunks)) == {};
    } else {
      assert LoggedIn(s'.logs, s'.manifestLog, s'.logNumber) == {};
    }
    if !reuse && chunks == [] {
      LoggedInSame(s.logs, s'.logs, s.manifestLog, s.logNumber + 1);
      LoggedInSplit(s'.logs, s.manifestLog, s.logNumber + 1, s'.logNumber);
    }
  }

  lemma RecoverManifest(s: State, chunks: seq<Table>, reuse: bool, save: bool, first: nat, last: nat)
    requires ManifestOk(s) && CanRecover(s, chunks, reuse, save, first, last) && LogsOk(s)
    requires AtOrBelow(AllEntries(Recovered(s, chunks, reuse, save, first, last).levels), last)
    ensures ManifestOk(Recovered(s, chunks, reuse, save, first, last))
  {
    var s' := Recovered(s, chunks, reuse, save, first, last);
    RecoverLevels(s, chunks, reuse, save, first, last);
    RecoverFiles(s, chunks, reuse, save, first, last);
    if chunks == [] {
      assert LevelEntries(ChunkSet(chunks)) == {};
      ReplayedIs(s);
    }
  }

  lemma RecoverFiles(s: State, chunks: seq<Table>, reuse: bool, save: bool, first: nat, last: nat)
    requires ManifestOk(s) && CanRecover(s, chunks, reuse, save, first, last)
    ensures var s' := Recovered(s, chunks, reuse, save, first, last);
            forall l, f :: 0 <= l < |s'.levels| && f in s'.levels[l] ==>
                f.number < s'.manifestNext && f.number in s'.tables
  {
    var s' := Recovered(s, chunks, reuse, save, first, last);
    BeyondCovers(ChunkSet(chunks), first);
    forall l, f | 0 <= l < |s'.levels| && f in s'.levels[l]
      ensures f.number < s'.manifestNext && f.number in s'.tables
    {
      assert f in s.levels[l] || f in ChunkSet(chunks);
      if f !in s.levels[l] { assert chunks != []; }
    }
  }

  // ---- All steps, all runs ------------------------------------------------

  lemma JobKept(s: State, s': State)
    requires s.job.Some? ==> JobOk(s, s.job.value)
    requires s'.job == s.job && s'.levels == s.levels && s.lastSequence <= s'.lastSequence
    requires forall q :: q in s'.snapshots ==> q in s.snapshots || q >= s.lastSequence
    ensures s'.job.Some? ==> JobOk(s', s'.job.value)
  {
  }

  lemma ReadersKeep(s: State, s': State)
    requires Layered(s) && Faithful(s) && LogsOk(s) && ManifestOk(s)
    requires s' == s.(snapshots := s'.snapshots, job := s'.job, pendingOutputs := s'.pendingOutputs)
    requires forall q :: q in s'.snapshots ==> q in s.snapshots || q == s.lastSequence
    ensures Layered(s') && Faithful(s') && LogsOk(s') && ManifestOk(s')
  {
    SameFaithful(s, s');
  }

  lemma LogWriteKeeps(s: State, ops: seq<Update>)
    requires Inv(s) && CanLog(s, ops)
    ensures Inv(Logged(s, ops))
  {
    LogWriteLayered(s, ops);
    LogWriteFaithful(s, ops);
    LogWriteLogs(s, ops);
    LogWriteManifest(s, ops);
    FilesKept(s, Logged(s, ops));
    JobKept(s, Logged(s, ops));
  }

  lemma InstallKeeps(s: State, j: Job, outs: set<Table>)
    requires Layered(s) && Faithful(s) && LogsOk(s) && ManifestOk(s) && FilesOk(s) && JobOk(s, j)
      && CanInstall(s, j, outs)
    ensures Inv(Installed(s, j, outs))
  {
    InstallLayered(s, j, outs);
    InstallFaithful(s, j, outs);
    InstallManifest(s, j, outs);
  }

  lemma MemTableStepKeeps(s: State, step: Step)
    requires Inv(s) && Enabled(s, step) && (step.Insert? || step.SwitchMemTable? || step.FlushEmpty?)
    ensures Inv(Apply(s, step))
  {
    match step
    case Insert => InsertKeeps(s); JobKept(s, Inserted(s)); FilesKept(s, Inserted(s));
    case SwitchMemTable => SwitchKeeps(s); JobKept(s, Switched(s)); FilesKept(s, Switched(s));
    case FlushEmpty => FlushEmptyKeeps(s); JobKept(s, FlushedEmpty(s)); FilesKept(s, FlushedEmpty(s));
  }

  lemma FlushKeepsInv(s: State, p: nat, t: Table)
    requires Inv(s) && CanFlush(s, p, t)
    ensures Inv(Flushed(s, p, t))
  {
    FlushKeeps(s, p, t);
    if s.job.Some? { FlushJob(s, p, t); }
    FlushedNumbers(s.levels, p, t);
    FilesKept(s, Flushed(s, p, t));
  }

  lemma FlushedNumbers(levels: Levels, p: nat, t: Table)
    requires p < |levels|
    ensures forall n :: n in LevelNumbers(AfterFlush(levels, p, t)) ==> n in LevelNumbers(levels) || n == t.number
  {
    var after := AfterFlush(levels, p, t);
    forall n | n in LevelNumbers(after) ensures n in LevelNumbers(levels) || n == t.number {
      var l, g: Table :| 0 <= l < |after| && g in after[l] && g.number == n;
      assert g in levels[l] || g == t;
    }
  }

  lemma DeleteKeepsInv(s: State, held: set<nat>)
    requires Inv(s)
    ensures Inv(Cleaned(s, held))
    // nothing else is left
    ensures forall n :: n in Cleaned(s, held).tables <==>
      n in s.tables && (n in s.pendingOutputs || n in LevelNumbers(s.levels) || n in held)
    ensures forall n :: n in Cleaned(s, held).logs <==> n in s.logs && s.manifestLog <= n
  {
    DeleteKeeps(s, held);
    SameFaithful(s, Cleaned(s, held));
    JobKept(s, Cleaned(s, held));
  }

  lemma QuietStepKeeps(s: State, step: Step)
    requires Inv(s) && Enabled(s, step) && (step.TakeSnapshot? || step.ReleaseSnapshot? || step.Pick? || step.Abandon?)
    ensures Inv(Apply(s, step))
  {
    var s' := Apply(s, step);
    ReadersKeep(s, s');
    match step
    case Pick(level, in0, in1, h) => PickJob(s, level, in0, in1, h);
    case Abandon =>
    case _ => JobKept(s, s');
  }

  lemma OpenKeeps(s: State)
    requires Inv(s) && s.job.Some?
    ensures Inv(Opened(s))
  {
    var s' := Opened(s);
    SameFaithful(s, s');
    JobKept(s, s');
    NextIsUnused(s);
    assert FilesOk(s') && LogsOk(s') && ManifestOk(s');
  }

  lemma TearKeeps(s: State)
    requires Inv(s) && s.logNumber in s.logs
    ensures Inv(Torn(s))
  {
    var s' := Torn(s);
    SameFaithful(s, s');
    JobKept(s, s');
    assert FilesOk(s') && LogsOk(s') && ManifestOk(s');
  }

  lemma NextIsUnused(s: State)
    requires ManifestOk(s)
    ensures s.nextFile !in LevelNumbers(s.levels)
  {
  }

  /** Every step keeps the invariant. */
  lemma StepKeepsInv(s: State, step: Step)
    requires Inv(s) && Enabled(s, step)
    ensures Inv(Apply(s, step))
  {
    match step
    case LogWrite(ops) => LogWriteKeeps(s, ops);
    case Flush(p, t) => FlushKeepsInv(s, p, t);
    case TrivialMove(level, f) => MoveKeeps(s, level, f);
    case Install(outs) => InstallKeeps(s, s.job.value, outs);
    case DeleteObsolete(held) => DeleteKeepsInv(s, held);
    case OpenOutput => OpenKeeps(s);
    case Tear => TearKeeps(s);
    case Recover(chunks, reuse, save, first, last) => RecoverKeeps(s, chunks, reuse, save, first, last);
    case Insert | SwitchMemTable | FlushEmpty => MemTableStepKeeps(s, step);
    case _ => QuietStepKeeps(s, step);
  }

  lemma RecoverKeeps(s: State, chunks: seq<Table>, reuse: bool, save: bool, first: nat, last: nat)
    requires Layered(s) && Faithful(s) && LogsOk(s) && ManifestOk(s) && FilesOk(s)
      && CanRecover(s, chunks, reuse, save, first, last)
    ensures Inv(Recovered(s, chunks, reuse, save, first, last))
  {
    BeyondCovers(ChunkSet(chunks), first);
    RecoversLast(s, last);
    RecoverLayered(s, chunks, reuse, save, first, last);
    RecoverFaithful(s, chunks, reuse, save, first, last);
    RecoverLogs(s, chunks, reuse, save, first, last);
    RecoverManifest(s, chunks, reuse, save, first, last);
  }

  /** A new database. */
  ghost predicate Init(s: State) {
    && s.mem == {} && s.imm == {} && !s.hasImm && s.pending == {} && s.history == {} && s.job == None
    && s.snapshots == multiset{} && s.pendingTop == s.lastSequence == s.manifestLast == 0
    && s.levels == [{}, {}, {}, {}, {}, {}, {}]
    && s.logNumber in s.logs && s.logs[s.logNumber] == [] && s.logs.Keys == {s.logNumber}
    && s.manifestLog <= s.logNumber < s.nextFile && s.manifestNext <= s.nextFile
    && s.pendingOutputs == {} && s.torn == {} && s.alive
  }

  lemma InitInv(s: State)
    requires Init(s)
    ensures Inv(s)
  {
    forall l | 0 <= l < NUM_LEVELS ensures s.levels[l] == {} {}
    assert AllEntries(s.levels) == {};
    assert LogEntries([]) == {};
    assert LoggedIn(s.logs, s.manifestLog, s.logNumber) == {};
    assert Contents(s) == {};
  }

  ghost predicate Run(states: seq<State>, steps: seq<Step>) {
    |states| == |steps| + 1 && Init(states[0]) &&
    forall i :: 0 <= i < |steps| ==> Enabled(states[i], steps[i]) && states[i + 1] == Apply(states[i], steps[i])
  }

  lemma {:induction false} RunInv(states: seq<State>, steps: seq<Step>, n: nat)
    requires Run(states, steps) && n < |states|
    ensures Inv(states[n])
  {
    if n == 0 {
      InitInv(states[0]);
    } else {
      RunInv(states, steps, n - 1);
      StepKeepsInv(states[n - 1], steps[n - 1]);
    }
  }

  /** In every reachable state, whatever was crashed, flushed or compacted on the
      way, a read at any snapshot in use returns the newest write ever logged at
      or below it. */
  lemma ReadsSeeHistory(states: seq<State>, steps: seq<Step>, n: nat, u: UserKey, snapshot: int)
    requires Run(states, steps) && n < |states| && Served(states[n], snapshot)
    ensures Read(Contents(states[n]), u, snapshot) == Read(states[n].history, u, snapshot)
  {
    RunInv(states, steps, n);
  }
}
