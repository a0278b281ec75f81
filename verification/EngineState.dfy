/** The engine as a step system (db/db_impl.cc): writes, memtable switches,
    flushes, compactions, file deletion, snapshots, crashes and recovery.

    A mutex region of the source is one step; a compaction is many: it is picked,
    opens its output files one by one and installs them, and any other step may
    come between.  A crash can strike between steps or in the middle of an append
    to the log, which leaves a torn record behind; committing a version is one step,
    its manifest record included.  `history` records every entry ever logged; it
    only exists to say what reads should return. */
module EngineState {
  import opened InternalKeys
  import opened ReadSpec
  import opened Levels
  import opened Selection
  import opened Commit
  import opened DropRule
  import opened Jobs

  /** A log file: the batches appended to it. */
  type Log = seq<set<Entry>>

  datatype State = State(
    mem: set<Entry>,            // the memtable
    imm: set<Entry>,            // the memtable being flushed
    hasImm: bool,
    pending: set<Entry>,        // logged by the writer at the head of the queue, not yet visible
    pendingTop: nat,            // its last sequence number
    lastSequence: nat,
    snapshots: multiset<nat>,
    levels: Levels,             // the current version
    job: Option<Job>,
    pendingOutputs: set<nat>,   // output files of the running compaction
    nextFile: nat,
    logNumber: nat,             // the log being written
    logs: map<nat, Log>,        // log files on disk: the batches wholly written to them
    torn: set<nat>,             // logs cut off where appending does harm (not LogReopen.Harmless)
    alive: bool,                // false from a crash in the middle of an append to recovery
    tables: set<nat>,           // table files on disk
    manifestLog: nat,           // what the manifest says: the first log still needed,
    manifestNext: nat,          // the next file number,
    manifestLast: nat,          // and the last sequence number
    history: set<Entry>)

  ghost function LogEntries(log: Log): set<Entry> {
    set b, e | b in log && e in b :: e
  }

  /** The entries of the logs in [from, to). */
  ghost function LoggedIn(logs: map<nat, Log>, from: nat, to: nat): set<Entry> {
    set n, e | n in logs && from <= n < to && e in LogEntries(logs[n]) :: e
  }

  ghost function Contents(s: State): set<Entry> {
    s.mem + s.imm + AllEntries(s.levels) + s.pending
  }

  /** Snapshots a reader may use: those held, and the current or any later sequence number. */
  ghost predicate Served(s: State, snapshot: int) {
    snapshot >= s.lastSequence || (snapshot >= 0 && snapshot in s.snapshots)
  }

  // ---- The invariant ------------------------------------------------------

  ghost predicate AtOrBelow(es: set<Entry>, n: int) {
    forall e :: e in es ==> e.key.sequence <= n
  }

  ghost predicate Layered(s: State) {
    && WellFormed(s.levels)
    && Above(s.mem, s.imm) && Above(s.mem, AllEntries(s.levels)) && Above(s.imm, AllEntries(s.levels))
    && AtOrBelow(s.mem + s.imm + AllEntries(s.levels), s.lastSequence)
    && (forall e :: e in s.pending ==> s.lastSequence < e.key.sequence)
    && AtOrBelow(s.history, s.pendingTop) && s.lastSequence <= s.pendingTop <= MAX_SEQUENCE
    && (s.pending == {} ==> s.pendingTop == s.lastSequence)
    && (!s.hasImm ==> s.imm == {})
    && (forall q :: q in s.snapshots ==> q <= s.lastSequence)
  }

  ghost predicate Faithful(s: State) {
    && Distinct(s.history) && Contents(s) <= s.history
    && forall u, q :: Served(s, q) ==> Read(Contents(s), u, q) == Read(s.history, u, q)
  }

  /** The logs the manifest still needs hold exactly what no table holds. */
  ghost predicate LogsOk(s: State) {
    && s.logNumber in s.logs && LogEntries(s.logs[s.logNumber]) == s.mem + s.pending
    && s.manifestLog <= s.logNumber < s.nextFile
    && LoggedIn(s.logs, s.manifestLog, s.logNumber) == s.imm
    && (forall n :: n in s.logs ==> n <= s.logNumber)
  }

  /** The manifest's counters cover the levels, and every table of the levels is on disk. */
  ghost predicate ManifestOk(s: State) {
    && AtOrBelow(AllEntries(s.levels), s.manifestLast) && s.manifestLast <= s.lastSequence
    && s.manifestNext <= s.nextFile
    && (s.pendingTop == s.manifestLast || TopIn(s.mem + s.imm + s.pending, s.pendingTop))
    && (forall l, f :: 0 <= l < |s.levels| && f in s.levels[l] ==> f.number < s.manifestNext && f.number in s.tables)
  }

  /** Output files are on disk and no part of the version, and nobody appends to a torn log. */
  ghost predicate FilesOk(s: State) {
    && s.pendingOutputs <= s.tables && (s.job.None? ==> s.pendingOutputs == {})
    && (forall n :: n in s.pendingOutputs ==> n < s.nextFile && n !in LevelNumbers(s.levels))
    && s.torn <= s.logs.Keys && (s.alive ==> s.logNumber !in s.torn)
  }

  ghost function LevelNumbers(levels: Levels): set<nat> {
    set l, f | 0 <= l < |levels| && f in levels[l] :: f.number
  }

  ghost predicate TopIn(es: set<Entry>, top: int) {
    exists e :: e in es && e.key.sequence == top
  }

  ghost predicate JobOk(s: State, j: Job) {
    && j.level + 1 < |s.levels|
    && Safe(s.levels, j.level, j.in0, j.in1) && Connected(j.in0 + j.in1)
    && j.horizon <= s.lastSequence && (forall q :: q in s.snapshots ==> j.horizon <= q)
    && BaseHolds(s.levels, j)
  }

  ghost predicate Inv(s: State) {
    Layered(s) && Faithful(s) && LogsOk(s) && ManifestOk(s) && FilesOk(s) && (s.job.Some? ==> JobOk(s, s.job.value))
  }

  // ---- Steps --------------------------------------------------------------

  datatype Update = Update(user: UserKey, kind: ValueType, value: Bytes)

  datatype Step =
    | LogWrite(ops: seq<Update>)                 // the head writer appends its group to the log
    | Insert                                 // ... and makes it visible
    | SwitchMemTable
    | Flush(place: nat, table: Table)        // CompactMemTable, nonempty memtable
    | FlushEmpty
    | TakeSnapshot
    | ReleaseSnapshot(snapshot: nat)
    | Pick(level: nat, in0: set<Table>, in1: set<Table>, horizon: nat)
    | TrivialMove(from: nat, file: Table)
    | OpenOutput                             // the compaction creates another output file
    | Install(outs: set<Table>)
    | Abandon
    | DeleteObsolete(held: set<nat>)         // spares what readers of older versions hold
    | Tear                                   // crash in the middle of an append to the log
    | Recover(chunks: seq<Table>, reuse: bool, save: bool, first: nat, last: nat)  // crash, reopen

  /** The entries of a batch whose first sequence number is `first`. */
  ghost function Stamp(ops: seq<Update>, first: nat): set<Entry>
    requires first + |ops| <= MAX_SEQUENCE + 1
  {
    set i | 0 <= i < |ops| :: Entry(InternalKey(ops[i].user, first + i, ops[i].kind), ops[i].value)
  }

  /** The smallest snapshot in use, or the last sequence number if there is none. */
  ghost predicate IsHorizon(s: State, h: nat) {
    if |s.snapshots| == 0 then h == s.lastSequence
    else h in s.snapshots && forall q :: q in s.snapshots ==> h <= q
  }

  ghost function ChunkSet(chunks: seq<Table>): set<Table> {
    set t | t in chunks
  }

  ghost function AddChunks(levels: Levels, chunks: seq<Table>): Levels
    requires 0 < |levels|
  {
    levels[0 := levels[0] + ChunkSet(chunks)]
  }

  /** The entries of the logs that recovery replays: all that the manifest still needs. */
  ghost function Replayed(s: State): set<Entry> {
    LoggedIn(s.logs, s.manifestLog, s.logNumber + 1)
  }

  /** The last sequence number after recovery: what the manifest says or the logs show. */
  ghost predicate RecoveredLast(s: State, last: nat) {
    && s.manifestLast <= last && AtOrBelow(Replayed(s), last)
    && (last == s.manifestLast || TopIn(Replayed(s), last))
  }

  /** Recovery turns the replayed logs into level-0 tables, older data first;
      when a log may be reused, the last one becomes the memtable instead, and is appended to.
      Table numbers restart at the manifest's counter; only the new log is numbered above every log on disk. */
  ghost predicate ChunksOk(s: State, chunks: seq<Table>, reuse: bool, first: nat) {
    && s.logNumber in s.logs
    && LevelEntries(ChunkSet(chunks)) == (if reuse then LoggedIn(s.logs, s.manifestLog, s.logNumber) else Replayed(s))
    && s.manifestNext <= first && (forall n :: n in s.logs ==> n < first)
    && (forall i :: 0 <= i < |chunks| ==> s.manifestNext <= chunks[i].number)
    && (forall i, j :: 0 <= i < j < |chunks| ==> chunks[i].number < chunks[j].number && Newer(chunks[j], chunks[i]))
  }

  /** A number above all of `s` and at least `floor`. */
  ghost function Beyond(s: set<Table>, floor: nat): (n: nat)
    ensures n >= floor && forall t :: t in s ==> t.number < n
  {
    if s == {} then floor
    else
      var t :| t in s;
      var m := Beyond(s - {t}, floor);
      assert s == (s - {t}) + {t};
      if t.number < m then m else t.number + 1
  }

  ghost function Numbers(s: set<Table>): set<nat> {
    set t | t in s :: t.number
  }

  // Logging the batch of the writer at the head of the queue.

  ghost predicate CanLog(s: State, ops: seq<Update>) {
    s.pending == {} && s.lastSequence + |ops| <= MAX_SEQUENCE && s.logNumber in s.logs
  }

  ghost function Logged(s: State, ops: seq<Update>): State
    requires CanLog(s, ops)
  {
    var batch := Stamp(ops, s.lastSequence + 1);
    s.(pending := batch, pendingTop := s.lastSequence + |ops|,
       logs := s.logs[s.logNumber := s.logs[s.logNumber] + [batch]], history := s.history + batch)
  }

  // Flushing the immutable memtable into one table.

  ghost predicate CanFlush(s: State, p: nat, t: Table) {
    s.hasImm && |s.levels| == NUM_LEVELS && TableEntries(t) == s.imm && t.number == s.nextFile &&
      MayPlace(s.levels, p, t)
  }

  ghost function Flushed(s: State, p: nat, t: Table): State
    requires p < |s.levels|
  {
    s.(imm := {}, hasImm := false, levels := AfterFlush(s.levels, p, t),
       tables := s.tables + {t.number}, nextFile := s.nextFile + 1,
       manifestLog := s.logNumber, manifestNext := s.nextFile + 1, manifestLast := s.lastSequence)
  }

  // Moving a table that meets nothing in the next level.

  ghost predicate CanMove(s: State, level: nat, f: Table) {
    level + 1 < |s.levels| && Safe(s.levels, level, {f}, {})
  }

  ghost function Moved(s: State, level: nat, f: Table): State
    requires level + 1 < |s.levels|
  {
    s.(levels := AfterCompaction(s.levels, level, {f}, {}, {f}),
       manifestNext := s.nextFile, manifestLast := s.lastSequence)
  }

  // Installing the outputs of a compaction.  A commit that would bring back what a straddled tombstone
  // deletes is left out; the source does not check that.

  ghost predicate CanInstall(s: State, j: Job, outs: set<Table>) {
    IsOutput(s, j, outs) && !Straddled(s.levels, j, s.mem + s.imm + s.pending)
  }

  /** What the compaction loop leaves: tables under the numbers it has opened. */
  ghost predicate IsOutput(s: State, j: Job, outs: set<Table>) {
    && j.level + 1 < |s.levels| && Ordered(outs)
    && LevelEntries(outs) == Kept(LevelEntries(j.in0 + j.in1), j.horizon, j.base)
    && (forall t :: t in outs ==> t.number in s.pendingOutputs)
    && (forall t, u :: t in outs && u in outs && t.number == u.number ==> t == u)
  }

  ghost function Installed(s: State, j: Job, outs: set<Table>): State
    requires j.level + 1 < |s.levels|
  {
    s.(levels := AfterCompaction(s.levels, j.level, j.in0, j.in1, outs), job := None, pendingOutputs := {},
       manifestNext := s.nextFile, manifestLast := s.lastSequence)
  }

  // A crash followed by reopening the database.

  ghost predicate CanRecover(s: State, chunks: seq<Table>, reuse: bool, save: bool, first: nat, last: nat) {
    && 0 < |s.levels| && ChunksOk(s, chunks, reuse, first) && RecoveredLast(s, last) && (chunks != [] ==> save)
    && (reuse ==> s.logNumber !in s.torn)
  }

  ghost function Recovered(s: State, chunks: seq<Table>, reuse: bool, save: bool, first: nat, last: nat): State
    requires 0 < |s.levels| && (reuse ==> s.logNumber in s.logs)
  {
    var next := Beyond(ChunkSet(chunks), first);
    var reopened := s.(alive := true, pendingOutputs := {}, snapshots := multiset{}, job := None, imm := {},
                       hasImm := false, pending := {}, pendingTop := last, lastSequence := last,
                       levels := AddChunks(s.levels, chunks), tables := s.tables + Numbers(ChunkSet(chunks)),
                       nextFile := next + 1);
    var started :=
      if reuse then reopened.(mem := LogEntries(s.logs[s.logNumber]))
      else reopened.(mem := {}, logNumber := next, logs := s.logs[next := []]);
    if !save then started
    else started.(manifestLog := started.logNumber, manifestNext := next + 1, manifestLast := last)
  }

  // The smaller steps.

  ghost function Inserted(s: State): State {
    s.(mem := s.mem + s.pending, pending := {}, lastSequence := s.pendingTop)
  }

  ghost predicate CanSwitch(s: State) {
    s.pending == {} && !s.hasImm
  }

  ghost function Switched(s: State): State {
    s.(imm := s.mem, hasImm := true, mem := {},
       logNumber := s.nextFile, logs := s.logs[s.nextFile := []], nextFile := s.nextFile + 1)
  }

  ghost function FlushedEmpty(s: State): State {
    s.(hasImm := false, manifestLog := s.logNumber, manifestNext := s.nextFile, manifestLast := s.lastSequence)
  }

  ghost predicate CanPick(s: State, level: nat, in0: set<Table>, in1: set<Table>, h: nat) {
    && s.job.None? && level + 1 < |s.levels| && IsHorizon(s, h) && h < MAX_SEQUENCE
    && Safe(s.levels, level, in0, in1) && Connected(in0 + in1)
  }

  ghost function Opened(s: State): State {
    s.(pendingOutputs := s.pendingOutputs + {s.nextFile}, tables := s.tables + {s.nextFile}, nextFile := s.nextFile + 1)
  }

  ghost function Cleaned(s: State, held: set<nat>): State {
    var logs := map n | n in s.logs && n >= s.manifestLog :: s.logs[n];
    s.(tables := s.tables * (s.pendingOutputs + LevelNumbers(s.levels) + held),
       logs := logs, torn := s.torn * logs.Keys)
  }

  ghost function Torn(s: State): State {
    s.(torn := s.torn + {s.logNumber}, alive := false)
  }

  ghost predicate Enabled(s: State, step: Step) {
    (s.alive || step.Recover?) &&
    match step
    case LogWrite(ops) => CanLog(s, ops)
    case Insert => true
    case SwitchMemTable => CanSwitch(s)
    case Flush(p, t) => CanFlush(s, p, t)
    case FlushEmpty => s.hasImm && s.imm == {}
    case TakeSnapshot => true
    case ReleaseSnapshot(q) => q in s.snapshots
    case Pick(level, in0, in1, h) => CanPick(s, level, in0, in1, h)
    case TrivialMove(level, f) => s.job.None? && CanMove(s, level, f)
    case Install(outs) => s.job.Some? && CanInstall(s, s.job.value, outs)
    case OpenOutput => s.job.Some?
    case Abandon => s.job.Some?
    case DeleteObsolete(_) => true
    case Tear => s.pending == {} && s.logNumber in s.logs
    case Recover(chunks, reuse, save, first, last) => CanRecover(s, chunks, reuse, save, first, last)
  }

  ghost function Apply(s: State, step: Step): State
    requires Enabled(s, step)
  {
    match step
    case LogWrite(ops) => Logged(s, ops)
    case Insert => Inserted(s)
    case SwitchMemTable => Switched(s)
    case Flush(p, t) => Flushed(s, p, t)
    case FlushEmpty => FlushedEmpty(s)
    case TakeSnapshot => s.(snapshots := s.snapshots + multiset{s.lastSequence})
    case ReleaseSnapshot(q) => s.(snapshots := s.snapshots - multiset{q})
    case Pick(level, in0, in1, h) => s.(job := Some(Job(level, in0, in1, h, BaseOf(s.levels, level))))
    case TrivialMove(level, f) => Moved(s, level, f)
    case Install(outs) => Installed(s, s.job.value, outs)
    case OpenOutput => Opened(s)
    case Abandon => s.(job := None, pendingOutputs := {})
    case DeleteObsolete(held) => Cleaned(s, held)
    case Tear => Torn(s)
    case Recover(chunks, reuse, save, first, last) => Recovered(s, chunks, reuse, save, first, last)
  }
}
