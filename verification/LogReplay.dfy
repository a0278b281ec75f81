/** Replaying the logs when a database is opened (db/db_impl.cc, Recover and RecoverLogFile). */
module LogReplay {
  import opened InternalKeys
  import opened ReadSpec
  import opened Levels
  import opened Commit
  import opened CompactionWork
  import opened Jobs
  import opened EngineState
  import opened EngineProof
  import opened DbGet
  import opened ReplayCuts

  // ---- The logs hold the writes in order ----------------------------------

  /** Every entry of the logs still needed has a larger sequence number than all logged before it. */
  ghost predicate LogOrder(s: State) {
    forall n, m, i, j, a, b ::
      n in s.logs && m in s.logs && s.manifestLog <= n && s.manifestLog <= m && 0 <= i < |s.logs[n]| &&
        0 <= j < |s.logs[m]|
      && a in s.logs[n][i] && b in s.logs[m][j] && (n < m || (n == m && i < j))
      ==> a.key.sequence < b.key.sequence
  }

  /** `s'` needs only logs that `s` needed, and empty ones. */
  ghost predicate OnlyNeeded(s: State, s': State) {
    forall n :: n in s'.logs && s'.manifestLog <= n ==>
      s'.logs[n] == [] || (n in s.logs && s.manifestLog <= n && s'.logs[n] == s.logs[n])
  }

  lemma FewerLogs(s: State, s': State)
    requires LogOrder(s) && OnlyNeeded(s, s')
    ensures LogOrder(s')
  {
  }

  lemma LoggedBelow(s: State, n: nat, i: nat, a: Entry)
    requires Inv(s) && n in s.logs && s.manifestLog <= n && i < |s.logs[n]| && a in s.logs[n][i]
    ensures a.key.sequence <= s.pendingTop
  {
    assert s.logs[n][i] in s.logs[n];
    assert a in LogEntries(s.logs[n]);
    ReplayedIs(s);
    assert a in Replayed(s);
    assert a in Contents(s);
  }

  lemma LogWriteKeepsOrder(s: State, ops: seq<Update>)
    requires Inv(s) && CanLog(s, ops) && LogOrder(s)
    ensures LogOrder(Logged(s, ops))
  {
    var s' := Logged(s, ops);
    forall n, m, i, j, a, b |
      n in s'.logs && m in s'.logs && s.manifestLog <= n && s.manifestLog <= m && 0 <= i < |s'.logs[n]| &&
        0 <= j < |s'.logs[m]|
      && a in s'.logs[n][i] && b in s'.logs[m][j] && (n < m || (n == m && i < j))
      ensures a.key.sequence < b.key.sequence
    {
      var earlier: Log := s.logs[n];
      assert i < |earlier| && a in earlier[i];
      LoggedBelow(s, n, i, a);
      if j < |s.logs[m]| { assert b in s.logs[m][j]; }
    }
  }

  lemma RecoverKeepsOrder(s: State, chunks: seq<Table>, reuse: bool, save: bool, first: nat, last: nat)
    requires Inv(s) && CanRecover(s, chunks, reuse, save, first, last) && LogOrder(s)
    ensures LogOrder(Recovered(s, chunks, reuse, save, first, last))
  {
    var s' := Recovered(s, chunks, reuse, save, first, last);
    BeyondCovers(ChunkSet(chunks), first);
    FewerLogs(s, s');
  }

  lemma OthersNeedNoMore(s: State, step: Step)
    requires Enabled(s, step) && s.manifestLog <= s.logNumber && !step.LogWrite? && !step.Recover?
    ensures OnlyNeeded(s, Apply(s, step))
  {
    var s' := Apply(s, step);
    if !step.SwitchMemTable? && !step.DeleteObsolete? { assert s'.logs == s.logs && s'.manifestLog >= s.manifestLog; }
  }

  lemma OthersKeepOrder(s: State, step: Step)
    requires Enabled(s, step) && s.manifestLog <= s.logNumber && !step.LogWrite? && !step.Recover? && LogOrder(s)
    ensures LogOrder(Apply(s, step))
  {
    OthersNeedNoMore(s, step);
    FewerLogs(s, Apply(s, step));
  }

  lemma StepKeepsLogOrder(s: State, step: Step)
    requires Inv(s) && Enabled(s, step) && LogOrder(s)
    ensures LogOrder(Apply(s, step))
  {
    if step.LogWrite? {
      LogWriteKeepsOrder(s, step.ops);
    } else if step.Recover? {
      RecoverKeepsOrder(s, step.chunks, step.reuse, step.save, step.first, step.last);
    } else {
      OthersKeepOrder(s, step);
    }
  }

  lemma {:induction false} RunLogOrder(states: seq<State>, steps: seq<Step>, n: nat)
    requires Run(states, steps) && n < |states|
    ensures LogOrder(states[n])
  {
    if n > 0 {
      RunInv(states, steps, n - 1);
      RunLogOrder(states, steps, n - 1);
      StepKeepsLogOrder(states[n - 1], steps[n - 1]);
    }
  }

  // ---- Replaying ----------------------------------------------------------

  /** A log file as the reader delivers it: its number and the entries of its batches. */
  datatype LogRecords = LogRecords(number: nat, batches: seq<seq<Entry>>)

  function FlatLogs(logs: seq<LogRecords>): seq<Entry> {
    if logs == [] then [] else FlatLogs(logs[..|logs| - 1]) + Flatten(logs[|logs| - 1].batches)
  }

  ghost predicate Rising(es: seq<Entry>) {
    forall i, j :: 0 <= i < j < |es| ==> es[i].key.sequence < es[j].key.sequence
  }

  ghost predicate SameEntries(a: seq<Entry>, b: seq<Entry>) {
    forall e :: e in a <==> e in b
  }

  /** The largest sequence number of entries in the order written. */
  function TopOf(es: seq<Entry>): nat {
    if es == [] then 0 else es[|es| - 1].key.sequence
  }

  ghost predicate Numbered(chunks: seq<Table>, from: nat, to: nat) {
    && from <= to
    && (forall i :: 0 <= i < |chunks| ==> from <= chunks[i].number < to)
    && (forall i, j :: 0 <= i < j < |chunks| ==> chunks[i].number < chunks[j].number)
  }

  /** Each chunk holds one segment of the entries replayed, in the order written. */
  ghost predicate Matched(chunks: seq<Table>, segments: seq<seq<Entry>>) {
    |chunks| == |segments| && forall i :: 0 <= i < |chunks| ==> SameEntries(chunks[i].entries, segments[i])
  }

  /** MemTable::Add of an entry newer than all the memtable has. */
  method AddEntry(mem: seq<Entry>, e: Entry) returns (r: seq<Entry>)
    requires Sorted(mem) && forall a :: a in mem ==> a.key.sequence < e.key.sequence
    ensures Sorted(r) && SameEntries(r, mem + [e]) && r == WithEntry(mem, e)
  {
    var i := 0;
    while i < |mem| && Less(mem[i].key, e.key)
      invariant i <= |mem| && forall j :: 0 <= j < i ==> Less(mem[j].key, e.key)
    {
      i := i + 1;
    }
    r := mem[..i] + [e] + mem[i..];
    InsertedSorted(mem, e, i);
    InsertedAt(mem, e, i);
  }

  lemma InsertedSorted(mem: seq<Entry>, e: Entry, i: nat)
    requires Sorted(mem) && i <= |mem| && forall j :: 0 <= j < i ==> Less(mem[j].key, e.key)
    requires i < |mem| ==> mem[i].key.sequence < e.key.sequence && !Less(mem[i].key, e.key)
    ensures Sorted(mem[..i] + [e] + mem[i..]) && SameEntries(mem[..i] + [e] + mem[i..], mem + [e])
  {
    var r := mem[..i] + [e] + mem[i..];
    assert mem == mem[..i] + mem[i..];
    if i < |mem| {
      NewerFirst(e.key, mem[i].key);
      forall j | i < j < |mem| ensures Less(e.key, mem[j].key) { LessTransitive(e.key, mem[i].key, mem[j].key); }
    }
    forall j, k | 0 <= j < k < |r| ensures Less(r[j].key, r[k].key) {
      if j < i { assert r[j] == mem[j]; } else if j > i { assert r[j] == mem[j - 1]; }
      if k < i { assert r[k] == mem[k]; } else if k > i { assert r[k] == mem[k - 1]; }
    }
  }

  lemma NewerFirst(a: InternalKey, b: InternalKey)
    requires b.sequence < a.sequence && !Less(b, a)
    ensures Less(a, b)
  {
  }

  lemma LessTransitive(a: InternalKey, b: InternalKey, c: InternalKey)
    requires Less(a, b) && Less(b, c)
    ensures Less(a, c)
  {
  }

  /** InsertInto for one batch; `tail` is what the memtable holds, in the order written. */
  method InsertBatch(m: seq<Entry>, batch: seq<Entry>, ghost tail: seq<Entry>) returns (r: seq<Entry>)
    requires Sorted(m) && SameEntries(m, tail) && Rising(tail + batch)
    ensures Sorted(r) && SameEntries(r, tail + batch) && r == InsertedAll(m, batch)
  {
    r := m;
    assert tail + batch[..0] == tail;
    for i := 0 to |batch|
      invariant Sorted(r) && SameEntries(r, tail + batch[..i]) && r == InsertedAll(m, batch[..i])
    {
      NextInserted(m, batch, i);
      NewestSoFar(tail, batch, i);
      r := AddEntry(r, batch[i]);
      assert tail + batch[..i + 1] == tail + batch[..i] + [batch[i]];
    }
    assert batch[..|batch|] == batch;
  }

  lemma NewestSoFar(tail: seq<Entry>, batch: seq<Entry>, i: nat)
    requires i < |batch| && Rising(tail + batch)
    ensures forall a :: a in tail + batch[..i] ==> a.key.sequence < batch[i].key.sequence
  {
    var all, before := tail + batch, tail + batch[..i];
    assert all[|before|] == batch[i];
    forall a | a in before ensures a.key.sequence < batch[i].key.sequence {
      var k :| 0 <= k < |before| && before[k] == a;
      assert all[k] == a;
    }
  }

  class Recovery {
    const reuseLogs: bool
    const full: seq<Entry> -> bool       // the memtable has outgrown write_buffer_size
    const from: nat
    var nextFile: nat
    var chunks: seq<Table>               // level-0 tables of the edit
    ghost var segments: seq<seq<Entry>>  // what they hold
    var maxSequence: nat
    var saveManifest: bool
    var reused: bool
    var mem: seq<Entry>                  // the memtable that goes on with the last log

    constructor (reuseLogs: bool, full: seq<Entry> -> bool, nextFile: nat, saveManifest: bool)
      ensures this.from == nextFile && this.reuseLogs == reuseLogs && Holds([], []) && !reused && mem == []
    {
      this.reuseLogs, this.full, this.from, this.nextFile, this.saveManifest := reuseLogs, full, nextFile, nextFile,
          saveManifest;
      chunks, segments, maxSequence, reused, mem := [], [], 0, false, [];
    }

    /** All of `done` is replayed; the last part, `tail`, is not in a table yet. */
    ghost predicate Holds(done: seq<Entry>, tail: seq<Entry>)
      reads this
    {
      && Numbered(chunks, from, nextFile) && Matched(chunks, segments)
      && done == Flatten(segments) + tail && maxSequence == TopOf(done) && (chunks != [] ==> saveManifest)
    }

    /** What has been made so far. */
    ghost function Now(): Opened
      reads this
    {
      Opened(EntriesOf(chunks), mem, reused, saveManifest)
    }

    /** WriteLevel0Table without a base version; an empty memtable leaves no table. */
    method WriteLevel0Table(m: seq<Entry>, ghost done: seq<Entry>, ghost tail: seq<Entry>)
      requires Holds(done, tail) && Sorted(m) && SameEntries(m, tail)
      modifies this`nextFile, this`chunks, this`segments, this`saveManifest
      ensures Holds(done, []) && old(nextFile) <= nextFile
      ensures Now() == old(Now()).(tables := old(Now()).tables + Dumped(m), save := true)
    {
      saveManifest := true;
      if |m| > 0 {
        AddChunk(TableData(nextFile, 0, m), done, tail);
      } else {
        EmptyTail(m, tail);
        assert Now().tables + Dumped(m) == Now().tables;
        MarkFileNumberUsed(nextFile, done, []);
      }
    }

    method AddChunk(t: Table, ghost done: seq<Entry>, ghost tail: seq<Entry>)
      requires Holds(done, tail) && t.number == nextFile && SameEntries(t.entries, tail) && saveManifest
      modifies this`nextFile, this`chunks, this`segments
      ensures Holds(done, []) && old(nextFile) <= nextFile
      ensures Now() == old(Now()).(tables := old(Now()).tables + [t.entries])
    {
      FlattenSnoc(segments, tail);
      OneMoreChunk(chunks, segments, from, nextFile, t, tail);
      EntriesSnoc(chunks, t);
      chunks, segments, nextFile := chunks + [t], segments + [tail], nextFile + 1;
    }

    method MarkFileNumberUsed(number: nat, ghost done: seq<Entry>, ghost tail: seq<Entry>)
      requires Holds(done, tail)
      modifies this`nextFile
      ensures Holds(done, tail) && old(nextFile) <= nextFile && number < nextFile
    {
      if nextFile <= number {
        nextFile := number + 1;
      }
    }

    /** One record of a log: into the memtable, and on to a table if that is full. */
    method ReplayBatch(m: seq<Entry>, batch: seq<Entry>, ghost done: seq<Entry>, ghost tail: seq<Entry>)
      returns (r: Option<seq<Entry>>, ghost tail': seq<Entry>)
      requires Holds(done, tail) && Sorted(m) && SameEntries(m, tail) && Rising(done + batch)
      modifies this`nextFile, this`chunks, this`segments, this`saveManifest, this`maxSequence
      ensures Holds(done + batch, tail') && Loaded(r, tail')
      // the table is written just if the memtable is full
      ensures r == MemUnlessFull(full, InsertedAll(m, batch))
      ensures Now() == DumpedIfFull(full, InsertedAll(m, batch), old(Now()))
      ensures old(nextFile) <= nextFile && (r.Some? ==> chunks == old(chunks) && segments == old(segments))
    {
      TailRises(Flatten(segments), tail, batch);
      var mem := InsertBatch(m, batch, tail);
      ShowSequence(batch, done, tail);
      r, tail' := Some(mem), tail + batch;
      if full(mem) {
        WriteLevel0Table(mem, done + batch, tail');
        r, tail' := None, [];
      }
    }

    /** The batch's last sequence number, if it is larger than any seen. */
    method ShowSequence(batch: seq<Entry>, ghost done: seq<Entry>, ghost tail: seq<Entry>)
      requires Holds(done, tail) && Rising(done + batch)
      modifies this`maxSequence
      ensures Holds(done + batch, tail + batch)
    {
      TailRises(Flatten(segments), tail, batch);
      TopGrows(done, batch);
      if |batch| > 0 && batch[|batch| - 1].key.sequence > maxSequence {
        maxSequence := batch[|batch| - 1].key.sequence;
      }
    }

    /** The first `i` records of a log are replayed, on top of `before` and `o`. */
    ghost predicate Midway(batches: seq<seq<Entry>>, i: nat, m: Option<seq<Entry>>, compactions: nat,
                           before: seq<Entry>, done: seq<Entry>, tail: seq<Entry>, o: Opened)
      requires i <= |batches|
      reads this
    {
      && Holds(done, tail) && Loaded(m, tail) && done == before + Flatten(batches[..i])
      && var p := ReplayOf(full, batches[..i]);
         m == p.mem && compactions == p.compactions && Now() == WithReplay(p, o)
    }

    /** Record `i` of a log. */
    method ReplayAt(m: Option<seq<Entry>>, compactions: nat, batches: seq<seq<Entry>>, i: nat, ghost before: seq<Entry>,
                    ghost done: seq<Entry>, ghost tail: seq<Entry>, ghost o: Opened)
      returns (r: Option<seq<Entry>>, compactions': nat, ghost done': seq<Entry>, ghost tail': seq<Entry>)
      requires i < |batches| && Midway(batches, i, m, compactions, before, done, tail, o)
      requires Rising(before + Flatten(batches))
      modifies this`nextFile, this`chunks, this`segments, this`saveManifest, this`maxSequence
      ensures Midway(batches, i + 1, r, compactions', before, done', tail', o)
      ensures old(nextFile) <= nextFile && compactions <= compactions'
      ensures compactions' == compactions ==> chunks == old(chunks) && segments == old(segments)
    {
      NextBatch(before, batches, i);
      NextReplayed(full, batches, i);
      NextOpened(full, ReplayOf(full, batches[..i]), batches[i], o);
      done' := done + batches[i];
      r, tail' := ReplayBatch(MemOf(m), batches[i], done, tail);
      compactions' := if r.None? then compactions + 1 else compactions;
    }

    /** The records of one log; None is a memtable not needed again yet. */
    method ReplayLog(log: LogRecords, ghost before: seq<Entry>)
      returns (m: Option<seq<Entry>>, compactions: nat, ghost tail: seq<Entry>)
      requires Holds(before, []) && Rising(before + Flatten(log.batches))
      modifies this`nextFile, this`chunks, this`segments, this`saveManifest, this`maxSequence
      ensures Holds(before + Flatten(log.batches), tail) && Loaded(m, tail)
      ensures m == ReplayOf(full, log.batches).mem && compactions == ReplayOf(full, log.batches).compactions
      ensures Now() == WithReplay(ReplayOf(full, log.batches), old(Now()))
      ensures old(nextFile) <= nextFile && (compactions == 0 ==> chunks == old(chunks) && segments == old(segments))
    {
      m, compactions, tail := None, 0, [];
      ghost var done := before;
      assert log.batches[..0] == [] && before + Flatten([]) == before;
      for i := 0 to |log.batches|
        invariant Midway(log.batches, i, m, compactions, before, done, tail, old(Now()))
        invariant old(nextFile) <= nextFile && (compactions == 0 ==> chunks == old(chunks) && segments == old(segments))
      {
        m, compactions, done, tail := ReplayAt(m, compactions, log.batches, i, before, done, tail, old(Now()));
      }
      assert log.batches[..|log.batches|] == log.batches;
    }

    /** RecoverLogFile: the memtable of the last log may go on, any other becomes a table. */
    method RecoverLogFile(log: LogRecords, lastLog: bool, ghost before: seq<Entry>)
      requires !reused && Holds(before, []) && Rising(before + Flatten(log.batches))
      modifies this
      ensures old(nextFile) <= nextFile
      ensures !reused ==> Holds(before + Flatten(log.batches), []) && mem == old(mem)
      ensures reused ==> lastLog && reuseLogs && Kept(before, Flatten(log.batches))
      ensures Now() == AfterLog(full, reuseLogs, log.batches, lastLog, old(Now()))
      ensures reused <==> reuseLogs && lastLog && !EverFull(full, log.batches)
    {
      OneMemtableUnlessFull(full, log.batches);
      var m, compactions;
      ghost var tail, all := [], before + Flatten(log.batches);
      LogEnd(full, reuseLogs, log.batches, lastLog, old(Now()));
      m, compactions, tail := ReplayLog(log, before);
      if reuseLogs && lastLog && compactions == 0 {
        GoOn(m, before, Flatten(log.batches), tail);
      } else if m.Some? {
        WriteLevel0Table(m.value, all, tail);
      }
    }

    /** The log and its memtable go on. */
    method GoOn(m: Option<seq<Entry>>, ghost before: seq<Entry>, ghost latest: seq<Entry>, ghost tail: seq<Entry>)
      requires Holds(before + latest, tail) && Loaded(m, tail) && Flatten(segments) == before
      modifies this`reused, this`mem
      ensures reused && Kept(before, latest) && Now() == old(Now()).(mem := MemOf(m), reused := true)
    {
      Cancel(before, tail, latest);
      reused, mem := true, MemOf(m);
    }

    /** Everything but the last log is in tables, and that is in the memtable. */
    ghost predicate Kept(before: seq<Entry>, latest: seq<Entry>)
      reads this
    {
      Holds(before + latest, latest) && Flatten(segments) == before && Sorted(mem) && SameEntries(mem, latest)
    }

    /** One round of the loop of Recover; the log's own number is used from now on. */
    method RecoverNext(log: LogRecords, lastLog: bool, ghost before: seq<Entry>)
      requires !reused && Holds(before, []) && Rising(before + Flatten(log.batches))
      modifies this
      ensures old(nextFile) <= nextFile && log.number < nextFile
      ensures !reused ==> Holds(before + Flatten(log.batches), []) && mem == old(mem)
      ensures reused ==> lastLog && reuseLogs && Kept(before, Flatten(log.batches))
      ensures Now() == AfterLog(full, reuseLogs, log.batches, lastLog, old(Now()))
    {
      RecoverLogFile(log, lastLog, before);
      MarkFileNumberUsed(log.number, before + Flatten(log.batches), if reused then Flatten(log.batches) else []);
    }

    /** The first `i` logs are replayed; if the last one goes on, it is in the memtable. */
    ghost predicate Through(logs: seq<LogRecords>, i: nat, o: Opened)
      reads this
    {
      && i <= |logs| && maxSequence == TopOf(FlatLogs(logs[..i])) && (reused ==> i == |logs| > 0 && reuseLogs)
      && Now() == AfterLogs(full, reuseLogs, logs, i, o)
      && if reused then Kept(FlatLogs(logs[..i - 1]), Flatten(logs[i - 1].batches)) else Holds(FlatLogs(logs[..i]), [])
    }

    method RecoverAt(logs: seq<LogRecords>, i: nat, ghost o: Opened)
      requires !reused && Through(logs, i, o) && i < |logs| && Rising(FlatLogs(logs))
      modifies this
      ensures old(nextFile) <= nextFile && logs[i].number < nextFile && Through(logs, i + 1, o)
      ensures !reused ==> mem == old(mem)
    {
      ghost var before, latest := FlatLogs(logs[..i]), Flatten(logs[i].batches);
      NextLog(logs, i);
      RecoverNext(logs[i], i == |logs| - 1, before);
      assert maxSequence == TopOf(before + latest);
    }

    method RecoverAll(logs: seq<LogRecords>, ghost o: Opened)
      requires !reused && Through(logs, 0, o) && from <= nextFile && Rising(FlatLogs(logs))
      modifies this
      ensures Through(logs, |logs|, o) && from <= nextFile && (!reused ==> mem == old(mem))
      ensures forall k :: 0 <= k < |logs| ==> logs[k].number < nextFile
    {
      for i := 0 to |logs|
        invariant Through(logs, i, o) && from <= nextFile && (!reused ==> mem == old(mem))
        invariant forall k :: 0 <= k < i ==> logs[k].number < nextFile
      {
        RecoverAt(logs, i, o);
      }
    }

    /** Recover, after the manifest is read: all logs it still needs, oldest first. */
    method Recover(logs: seq<LogRecords>, manifestLast: nat) returns (last: nat)
      requires !reused && Holds([], []) && Rising(FlatLogs(logs))
      modifies this
      ensures from <= nextFile && forall i :: 0 <= i < |logs| ==> logs[i].number < nextFile
      ensures !reused ==> Holds(FlatLogs(logs), []) && mem == old(mem)
      ensures reused ==>
        logs != [] && reuseLogs && Kept(FlatLogs(logs[..|logs| - 1]), Flatten(logs[|logs| - 1].batches))
      ensures last == if manifestLast < TopOf(FlatLogs(logs)) then TopOf(FlatLogs(logs)) else manifestLast
      ensures Now() == AfterLogs(full, reuseLogs, logs, |logs|, old(Now()))
    {
      assert logs[..0] == [] && FlatLogs([]) == [];
      RecoverAll(logs, Now());
      assert logs[..|logs|] == logs;
      last := if manifestLast < maxSequence then maxSequence else manifestLast;
    }
  }

  lemma OneMoreChunk(chunks: seq<Table>, segments: seq<seq<Entry>>, from: nat, number: nat, t: Table, tail: seq<Entry>)
    requires Numbered(chunks, from, number) && Matched(chunks, segments) && t.number == number
      && SameEntries(t.entries, tail)
    ensures Numbered(chunks + [t], from, number + 1) && Matched(chunks + [t], segments + [tail])
  {
  }

  lemma EmptyTail(m: seq<Entry>, tail: seq<Entry>)
    requires SameEntries(m, tail)
    ensures tail != [] ==> m != []
  {
    if tail != [] { assert tail[0] in tail; }
  }

  ghost function EntriesOf(chunks: seq<Table>): seq<seq<Entry>> {
    seq(|chunks|, i requires 0 <= i < |chunks| => chunks[i].entries)
  }

  lemma EntriesSnoc(chunks: seq<Table>, t: Table)
    ensures EntriesOf(chunks + [t]) == EntriesOf(chunks) + [t.entries]
  {
  }

  /** What the first `i` logs leave, one after the other. */
  ghost function AfterLogs(full: seq<Entry> -> bool, reuseLogs: bool, logs: seq<LogRecords>, i: nat, o: Opened): Opened
    requires i <= |logs|
  {
    if i == 0 then o
    else AfterLog(full, reuseLogs, logs[i - 1].batches, i == |logs|, AfterLogs(full, reuseLogs, logs, i - 1, o))
  }

  /** The memtable, if there is one, holds the entries of `tail`. */
  ghost predicate Loaded(m: Option<seq<Entry>>, tail: seq<Entry>) {
    Sorted(MemOf(m)) && SameEntries(MemOf(m), tail) && (m.None? ==> tail == [])
  }

  lemma TailRises(written: seq<Entry>, tail: seq<Entry>, batch: seq<Entry>)
    requires Rising(written + tail + batch)
    ensures Rising(tail + batch) && written + tail + batch == written + (tail + batch)
  {
    var all := written + tail + batch;
    assert forall i :: 0 <= i < |tail + batch| ==> (tail + batch)[i] == all[|written| + i];
  }

  lemma TopGrows(done: seq<Entry>, batch: seq<Entry>)
    requires Rising(done + batch)
    ensures TopOf(done + batch) == if |batch| > 0
      && batch[|batch| - 1].key.sequence > TopOf(done) then batch[|batch| - 1].key.sequence else TopOf(done)
  {
    if |batch| == 0 { assert done + batch == done; }
    else {
      var all := done + batch;
      assert all[|all| - 1] == batch[|batch| - 1];
      if done != [] { assert all[|done| - 1] == done[|done| - 1]; }
    }
  }

  lemma {:induction false} FlattenPrefix(batches: seq<seq<Entry>>, i: nat)
    requires i <= |batches|
    ensures Flatten(batches[..i]) <= Flatten(batches)
    decreases |batches|
  {
    if i < |batches| {
      assert batches[..|batches| - 1][..i] == batches[..i];
      FlattenPrefix(batches[..|batches| - 1], i);
    } else {
      assert batches[..i] == batches;
    }
  }

  lemma NextBatch(before: seq<Entry>, batches: seq<seq<Entry>>, i: nat)
    requires i < |batches| && Rising(before + Flatten(batches))
    ensures before + Flatten(batches[..i + 1]) == before + Flatten(batches[..i]) + batches[i]
    ensures Rising(before + Flatten(batches[..i]) + batches[i])
  {
    FlattenNext(batches, i);
    FlattenPrefix(batches, i + 1);
    AfterPrefix(before, Flatten(batches[..i]), batches[i], Flatten(batches));
  }

  lemma AfterPrefix(before: seq<Entry>, a: seq<Entry>, b: seq<Entry>, whole: seq<Entry>)
    requires a + b <= whole && Rising(before + whole)
    ensures before + (a + b) == before + a + b && Rising(before + a + b)
  {
    RisingPrefix(before + a + b, before + whole);
  }

  lemma Cancel(a: seq<Entry>, x: seq<Entry>, y: seq<Entry>)
    requires a + x == a + y
    ensures x == y
  {
    assert (a + x)[|a|..] == x && (a + y)[|a|..] == y;
  }

  lemma RisingPrefix(a: seq<Entry>, b: seq<Entry>)
    requires a <= b && Rising(b)
    ensures Rising(a)
  {
  }

  lemma {:induction false} FlatLogsPrefix(logs: seq<LogRecords>, i: nat)
    requires i <= |logs|
    ensures FlatLogs(logs[..i]) <= FlatLogs(logs)
    decreases |logs|
  {
    if i < |logs| {
      assert logs[..|logs| - 1][..i] == logs[..i];
      FlatLogsPrefix(logs[..|logs| - 1], i);
    } else {
      assert logs[..i] == logs;
    }
  }

  lemma NextLog(logs: seq<LogRecords>, i: nat)
    requires i < |logs| && Rising(FlatLogs(logs))
    ensures FlatLogs(logs[..i + 1]) == FlatLogs(logs[..i]) + Flatten(logs[i].batches)
    ensures Rising(FlatLogs(logs[..i]) + Flatten(logs[i].batches))
  {
    assert logs[..i + 1][..i] == logs[..i];
    FlatLogsPrefix(logs, i + 1);
    RisingPrefix(FlatLogs(logs[..i + 1]), FlatLogs(logs));
  }

  // ---- What the replay makes of a state -----------------------------------

  ghost predicate ReadFrom(log: Log, batches: seq<seq<Entry>>) {
    |log| == |batches| && forall i :: 0 <= i < |log| ==> EntrySet(batches[i]) == log[i] && Rising(batches[i])
  }

  /** `logs` are the logs the manifest still needs, oldest first, as they can be read back. */
  ghost predicate OnDisk(s: State, logs: seq<LogRecords>) {
    && (forall i, j :: 0 <= i < j < |logs| ==> logs[i].number < logs[j].number)
    && (forall i :: 0 <= i < |logs| ==>
        logs[i].number in s.logs && s.manifestLog <= logs[i].number
        && ReadFrom(s.logs[logs[i].number], logs[i].batches))
    && (forall n :: n in s.logs && s.manifestLog <= n ==> exists i :: 0 <= i < |logs| && logs[i].number == n)
  }

  lemma RisingJoin(a: seq<Entry>, b: seq<Entry>)
    requires Rising(a) && Rising(b) && forall x, y :: x in a && y in b ==> x.key.sequence < y.key.sequence
    ensures Rising(a + b)
  {
  }

  /** Entry `e` is in one of the first `k` batches of log `n`. */
  ghost predicate InBatches(s: State, n: nat, k: nat, e: Entry) {
    n in s.logs && exists i :: 0 <= i < k && i < |s.logs[n]| && e in s.logs[n][i]
  }

  lemma {:induction false} BatchesRise(s: State, n: nat, batches: seq<seq<Entry>>, k: nat)
    requires LogOrder(s) && n in s.logs && s.manifestLog <= n && ReadFrom(s.logs[n], batches) && k <= |batches|
    ensures Rising(Flatten(batches[..k])) && forall e :: e in Flatten(batches[..k]) <==> InBatches(s, n, k, e)
  {
    if k > 0 {
      BatchesRise(s, n, batches, k - 1);
      var a, b := Flatten(batches[..k - 1]), batches[k - 1];
      assert batches[..k][..k - 1] == batches[..k - 1];
      assert EntrySet(b) == s.logs[n][k - 1];
      forall x, y | x in a && y in b ensures x.key.sequence < y.key.sequence {
        assert InBatches(s, n, k - 1, x);
        assert y in s.logs[n][k - 1];
      }
      RisingJoin(a, b);
      forall e ensures e in a + b <==> InBatches(s, n, k, e) {
        if InBatches(s, n, k, e) && e !in b { assert InBatches(s, n, k - 1, e); }
        if e in b { assert e in s.logs[n][k - 1]; }
      }
    } else {
      assert batches[..k] == [];
    }
  }

  lemma LogBatches(s: State, log: LogRecords)
    requires LogOrder(s) && log.number in s.logs && s.manifestLog <= log.number
      && ReadFrom(s.logs[log.number], log.batches)
    ensures Rising(Flatten(log.batches)) && EntrySet(Flatten(log.batches)) == LogEntries(s.logs[log.number])
  {
    var n := log.number;
    BatchesRise(s, n, log.batches, |log.batches|);
    assert log.batches[..|log.batches|] == log.batches;
    forall e ensures e in LogEntries(s.logs[n]) <==> InBatches(s, n, |s.logs[n]|, e) {
      if e in LogEntries(s.logs[n]) {
        var b :| b in s.logs[n] && e in b;
        var i :| 0 <= i < |s.logs[n]| && s.logs[n][i] == b;
      }
    }
  }

  ghost predicate InLogs(s: State, logs: seq<LogRecords>, k: nat, e: Entry) {
    exists i :: 0 <= i < k && i < |logs| && logs[i].number in s.logs && e in LogEntries(s.logs[logs[i].number])
  }

  lemma OneMoreLog(s: State, logs: seq<LogRecords>, k: nat, a: seq<Entry>, b: seq<Entry>)
    requires k < |logs| && logs[k].number in s.logs && EntrySet(b) == LogEntries(s.logs[logs[k].number])
    requires forall e :: e in a <==> InLogs(s, logs, k, e)
    ensures forall e :: e in a + b <==> InLogs(s, logs, k + 1, e)
  {
    forall e ensures e in a + b <==> InLogs(s, logs, k + 1, e) {
      if e in b { assert e in EntrySet(b); }
      if InLogs(s, logs, k + 1, e) && !InLogs(s, logs, k, e) { assert e in EntrySet(b); }
    }
  }

  lemma LogBehind(s: State, logs: seq<LogRecords>, k: nat, a: seq<Entry>, b: seq<Entry>)
    requires LogOrder(s) && OnDisk(s, logs) && k < |logs| && EntrySet(b) == LogEntries(s.logs[logs[k].number])
    requires forall e :: e in a <==> InLogs(s, logs, k, e)
    ensures forall x, y :: x in a && y in b ==> x.key.sequence < y.key.sequence
  {
    forall x, y | x in a && y in b ensures x.key.sequence < y.key.sequence {
      var i :| 0 <= i < k && i < |logs| && logs[i].number in s.logs && x in LogEntries(s.logs[logs[i].number]);
      assert y in EntrySet(b);
      OlderLog(s, logs[i].number, logs[k].number, x, y);
    }
  }

  /** Reading the logs in the order of their numbers reads the entries in the order written. */
  lemma {:induction false} LogsRise(s: State, logs: seq<LogRecords>, k: nat)
    requires LogOrder(s) && OnDisk(s, logs) && k <= |logs|
    ensures Rising(FlatLogs(logs[..k])) && forall e :: e in FlatLogs(logs[..k]) <==> InLogs(s, logs, k, e)
  {
    if k > 0 {
      var a, b := FlatLogs(logs[..k - 1]), Flatten(logs[k - 1].batches);
      LogsRise(s, logs, k - 1);
      LogBatches(s, logs[k - 1]);
      assert logs[..k][..k - 1] == logs[..k - 1];
      LogBehind(s, logs, k - 1, a, b);
      RisingJoin(a, b);
      OneMoreLog(s, logs, k - 1, a, b);
    } else {
      assert logs[..k] == [];
    }
  }

  lemma OlderLog(s: State, n: nat, m: nat, a: Entry, b: Entry)
    requires LogOrder(s) && n in s.logs && m in s.logs && s.manifestLog <= n < m
    requires a in LogEntries(s.logs[n]) && b in LogEntries(s.logs[m])
    ensures a.key.sequence < b.key.sequence
  {
    var x :| x in s.logs[n] && a in x;
    var i :| 0 <= i < |s.logs[n]| && s.logs[n][i] == x;
    var y :| y in s.logs[m] && b in y;
    var j :| 0 <= j < |s.logs[m]| && s.logs[m][j] == y;
  }

  lemma LastLog(s: State, logs: seq<LogRecords>)
    requires OnDisk(s, logs) && LogsOk(s)
    ensures logs != [] && logs[|logs| - 1].number == s.logNumber
  {
    var w :| 0 <= w < |logs| && logs[w].number == s.logNumber;
    var last := |logs| - 1;
    var n := logs[last].number;
    assert n in s.logs && n <= s.logNumber;
    assert w < last ==> s.logNumber < n;
  }

  /** The last log is the one being written; the others hold the immutable memtable. */
  lemma LogsAre(s: State, logs: seq<LogRecords>)
    requires LogOrder(s) && OnDisk(s, logs) && LogsOk(s)
    ensures Rising(FlatLogs(logs)) && EntrySet(FlatLogs(logs)) == Replayed(s)
    ensures logs != [] && logs[|logs| - 1].number == s.logNumber
    ensures EntrySet(Flatten(logs[|logs| - 1].batches)) == LogEntries(s.logs[s.logNumber])
    ensures EntrySet(FlatLogs(logs[..|logs| - 1])) == LoggedIn(s.logs, s.manifestLog, s.logNumber)
  {
    LastLog(s, logs);
    LogBatches(s, logs[|logs| - 1]);
    AllLogs(s, logs);
    EarlierLogs(s, logs);
  }

  lemma AllLogs(s: State, logs: seq<LogRecords>)
    requires LogOrder(s) && OnDisk(s, logs) && LogsOk(s)
    ensures Rising(FlatLogs(logs)) && EntrySet(FlatLogs(logs)) == Replayed(s)
  {
    LogsRise(s, logs, |logs|);
    LogsUpTo(s, logs, |logs|, s.logNumber + 1);
    assert logs[..|logs|] == logs;
  }

  lemma EarlierLogs(s: State, logs: seq<LogRecords>)
    requires LogOrder(s) && OnDisk(s, logs) && logs != [] && logs[|logs| - 1].number == s.logNumber
    ensures EntrySet(FlatLogs(logs[..|logs| - 1])) == LoggedIn(s.logs, s.manifestLog, s.logNumber)
  {
    LogsRise(s, logs, |logs| - 1);
    LogsUpTo(s, logs, |logs| - 1, s.logNumber);
  }

  lemma LogsUpTo(s: State, logs: seq<LogRecords>, k: nat, bound: nat)
    requires OnDisk(s, logs) && k <= |logs| && forall i :: 0 <= i < |logs| ==> (logs[i].number < bound <==> i < k)
    requires forall e :: e in FlatLogs(logs[..k]) <==> InLogs(s, logs, k, e)
    ensures EntrySet(FlatLogs(logs[..k])) == LoggedIn(s.logs, s.manifestLog, bound)
  {
    forall e ensures InLogs(s, logs, k, e) <==> e in LoggedIn(s.logs, s.manifestLog, bound) {
      if e in LoggedIn(s.logs, s.manifestLog, bound) {
        var n :| n in s.logs && s.manifestLog <= n < bound && e in LogEntries(s.logs[n]);
        var i :| 0 <= i < |logs| && logs[i].number == n;
      }
    }
  }

  /** The chunks hold what was written to tables, each only newer entries than the one before. */
  lemma ChunksAre(chunks: seq<Table>, segments: seq<seq<Entry>>, tail: seq<Entry>)
    requires Matched(chunks, segments) && Rising(Flatten(segments) + tail)
    ensures LevelEntries(ChunkSet(chunks)) == EntrySet(Flatten(segments))
    ensures forall i, j :: 0 <= i < j < |chunks| ==> Newer(chunks[j], chunks[i])
  {
    FlattenMembers(segments);
    forall e ensures e in LevelEntries(ChunkSet(chunks)) <==> e in Flatten(segments) {
      if e in LevelEntries(ChunkSet(chunks)) {
        var t :| t in ChunkSet(chunks) && e in TableEntries(t);
        var i :| 0 <= i < |chunks| && chunks[i] == t;
        assert e in segments[i];
      }
      if i :| 0 <= i < |segments| && e in segments[i] {
        assert e in chunks[i].entries && chunks[i] in ChunkSet(chunks);
        assert e in TableEntries(chunks[i]);
      }
    }
    forall i, j | 0 <= i < j < |chunks| ensures Newer(chunks[j], chunks[i]) {
      forall a, b | a in chunks[j].entries && b in chunks[i].entries ensures a.key.sequence > b.key.sequence {
        RisingPrefix(Flatten(segments), Flatten(segments) + tail);
        LaterSegment(segments, i, j, b, a);
      }
    }
  }

  lemma LaterSegment(segments: seq<seq<Entry>>, i: nat, j: nat, a: Entry, b: Entry)
    requires Rising(Flatten(segments)) && i < j < |segments| && a in segments[i] && b in segments[j]
    ensures a.key.sequence < b.key.sequence
  {
    UpToSegment(segments, j);
    assert segments[..j][i] == segments[i];
    InFlatten(segments[..j], i, a);
    Across(Flatten(segments[..j]), segments[j], Flatten(segments), a, b);
  }

  lemma UpToSegment(segments: seq<seq<Entry>>, j: nat)
    requires j < |segments|
    ensures Flatten(segments[..j]) + segments[j] <= Flatten(segments)
  {
    FlattenPrefix(segments, j + 1);
    FlattenNext(segments, j);
  }

  lemma FlattenNext(segments: seq<seq<Entry>>, j: nat)
    requires j < |segments|
    ensures Flatten(segments[..j + 1]) == Flatten(segments[..j]) + segments[j]
  {
    FlattenSnoc(segments[..j], segments[j]);
    assert segments[..j + 1] == segments[..j] + [segments[j]];
  }

  lemma InFlatten(segments: seq<seq<Entry>>, i: nat, a: Entry)
    requires i < |segments| && a in segments[i]
    ensures a in Flatten(segments)
  {
    FlattenMembers(segments);
    assert InSome(segments, a);
  }

  lemma Across(earlier: seq<Entry>, here: seq<Entry>, whole: seq<Entry>, a: Entry, b: Entry)
    requires earlier + here <= whole && Rising(whole) && a in earlier && b in here
    ensures a.key.sequence < b.key.sequence
  {
    var p :| 0 <= p < |earlier| && earlier[p] == a;
    var q :| 0 <= q < |here| && here[q] == b;
    assert whole[p] == (earlier + here)[p] && whole[|earlier| + q] == (earlier + here)[|earlier| + q];
  }

  lemma TopIsMax(es: seq<Entry>, floor: nat, last: nat)
    requires Rising(es) && last == if floor < TopOf(es) then TopOf(es) else floor
    ensures floor <= last && AtOrBelow(EntrySet(es), last) && (last == floor || TopIn(EntrySet(es), last))
  {
    forall e | e in EntrySet(es) ensures e.key.sequence <= TopOf(es) {
      var i :| 0 <= i < |es| && es[i] == e;
      assert i < |es| - 1 ==> es[i].key.sequence < es[|es| - 1].key.sequence;
    }
    if es != [] { assert es[|es| - 1] in EntrySet(es); }
  }

  /** What a replay has left is what the recovery step allows. */
  lemma ReplayIsRecovery(s: State, logs: seq<LogRecords>, chunks: seq<Table>, segments: seq<seq<Entry>>,
                         tail: seq<Entry>, reused: bool, save: bool, nextFile: nat, last: nat)
    requires (reused ==> s.logNumber !in s.torn) && (chunks != [] ==> save)
    requires LogOrder(s) && LogsOk(s) && OnDisk(s, logs) && 0 < |s.levels|
    requires Numbered(chunks, s.manifestNext, nextFile) && Matched(chunks, segments)
    requires FlatLogs(logs) == Flatten(segments) + tail
    requires if reused then logs != [] && Flatten(segments) == FlatLogs(logs[..|logs| - 1]) else tail == []
    requires forall i :: 0 <= i < |logs| ==> logs[i].number < nextFile
    requires last == if s.manifestLast < TopOf(FlatLogs(logs)) then TopOf(FlatLogs(logs)) else s.manifestLast
    ensures CanRecover(s, chunks, reused, save, nextFile, last)
  {
    LogsAre(s, logs);
    ChunksAre(chunks, segments, tail);
    TopIsMax(FlatLogs(logs), s.manifestLast, last);
    assert tail == [] ==> Flatten(segments) + tail == Flatten(segments);
    assert logs[|logs| - 1].number < nextFile;
  }

  /** Reopening after a crash in any reachable state: the replay makes a recovery step, the tables
      and memtable it leaves hold all that was logged, and every key reads as its latest write.  The
      last log may be appended to only if it is not torn; the source does not check that. */
  method Reopen(logs: seq<LogRecords>, reuseLogs: bool, full: seq<Entry> -> bool, saveManifest: bool,
                manifestNext: nat, manifestLast: nat,
                ghost states: seq<State>, ghost steps: seq<Step>, ghost n: nat) returns (r: Recovery, last: nat)
    requires Run(states, steps) && n < |states| && OnDisk(states[n], logs)
    requires manifestNext == states[n].manifestNext && manifestLast == states[n].manifestLast
    requires reuseLogs ==> states[n].logNumber !in states[n].torn
    ensures CanRecover(states[n], r.chunks, r.reused, r.saveManifest, r.nextFile, last)
    ensures Reopened(states[n], Recovered(states[n], r.chunks, r.reused, r.saveManifest, r.nextFile, last), r.mem, last)
  {
    r, last := Replay(logs, reuseLogs, full, saveManifest, manifestNext, manifestLast, states, steps, n);
    ReopenedWell(states, steps, n, r.chunks, r.reused, r.saveManifest, r.nextFile, last, r.mem);
  }

  /** The reopened database has the memtable the replay left and reads like everything ever logged. */
  ghost predicate Reopened(s: State, s': State, mem: seq<Entry>, last: nat) {
    && Inv(s') && EntrySet(mem) == s'.mem
    && forall u :: Read(Contents(s'), u, last) == Read(s.history, u, MAX_SEQUENCE)
  }

  lemma ReopenedWell(states: seq<State>, steps: seq<Step>, n: nat, chunks: seq<Table>, reused: bool, save: bool,
                     nextFile: nat, last: nat, mem: seq<Entry>)
    requires Run(states, steps) && n < |states| && CanRecover(states[n], chunks, reused, save, nextFile, last)
    requires EntrySet(mem) == if reused then LogEntries(states[n].logs[states[n].logNumber]) else {}
    ensures Reopened(states[n], Recovered(states[n], chunks, reused, save, nextFile, last), mem, last)
  {
    RunInv(states, steps, n);
    RecoverKeeps(states[n], chunks, reused, save, nextFile, last);
    forall u
      ensures Read(Contents(Recovered(states[n], chunks, reused, save, nextFile, last)), u, last) ==
        Read(states[n].history, u, MAX_SEQUENCE)
    {
      CrashLosesNothing(states, steps, n, chunks, reused, save, nextFile, last, u);
    }
  }

  method Replay(logs: seq<LogRecords>, reuseLogs: bool, full: seq<Entry> -> bool, saveManifest: bool,
                manifestNext: nat, manifestLast: nat,
                ghost states: seq<State>, ghost steps: seq<Step>, ghost n: nat) returns (r: Recovery, last: nat)
    requires Run(states, steps) && n < |states| && OnDisk(states[n], logs)
    requires manifestNext == states[n].manifestNext && manifestLast == states[n].manifestLast
    requires reuseLogs ==> states[n].logNumber !in states[n].torn
    ensures CanRecover(states[n], r.chunks, r.reused, r.saveManifest, r.nextFile, last)
    ensures EntrySet(r.mem) == if r.reused then LogEntries(states[n].logs[states[n].logNumber]) else {}
  {
    LogsReachable(states, steps, n, logs);
    r := new Recovery(reuseLogs, full, manifestNext, saveManifest);
    last := r.Recover(logs, manifestLast);
    ghost var tail := if r.reused then Flatten(logs[|logs| - 1].batches) else [];
    ReplayIsRecovery(states[n], logs, r.chunks, r.segments, tail, r.reused, r.saveManifest, r.nextFile, last);
    if r.reused { SameSets(r.mem, tail); }
  }

  lemma SameSets(a: seq<Entry>, b: seq<Entry>)
    requires SameEntries(a, b)
    ensures EntrySet(a) == EntrySet(b)
  {
  }

  lemma LogsReachable(states: seq<State>, steps: seq<Step>, n: nat, logs: seq<LogRecords>)
    requires Run(states, steps) && n < |states| && OnDisk(states[n], logs)
    ensures LogOrder(states[n]) && LogsOk(states[n]) && 0 < |states[n].levels| && Rising(FlatLogs(logs))
    ensures logs != [] && EntrySet(Flatten(logs[|logs| - 1].batches)) == LogEntries(states[n].logs[states[n].logNumber])
  {
    RunInv(states, steps, n);
    RunLogOrder(states, steps, n);
    LogsAre(states[n], logs);
  }
}
