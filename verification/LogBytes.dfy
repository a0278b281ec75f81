/** The logs of the step system as files (db/db_impl.cc, Write and RecoverLogFile): what a writer appends,
    a crash cuts off and a recovery reads back. */
module LogBytes {
  import opened InternalKeys
  import opened ReadSpec
  import opened Coding
  import opened Comparators
  import opened CompactionWork
  import opened EngineState
  import opened EngineProof
  import opened LogReplay
  import opened WriteBatches
  import GroupCommit
  import LogFormat
  import LogReading
  import LogFile
  import LogReopen

  // ---- A batch as a record -------------------------------------------------

  function EntryOf(op: GroupCommit.Op, sequence: SequenceNumber): Entry {
    match op
    case Put(key, value) => Entry(InternalKey(Rank(key), sequence, Value), value)
    case Delete(key) => Entry(InternalKey(Rank(key), sequence, Deletion), [])
  }

  /** MemTableInserter: one entry after the other, with rising sequence numbers. */
  function EntriesOf(ops: seq<GroupCommit.Op>, first: nat): (es: seq<Entry>)
    requires first + |ops| <= MAX_SEQUENCE + 1
    ensures |es| == |ops|
  {
    seq(|ops|, i requires 0 <= i < |ops| => EntryOf(ops[i], first + i))
  }

  function UpdatesOf(ops: seq<GroupCommit.Op>): (us: seq<Update>)
    ensures |us| == |ops|
  {
    seq(|ops|, i requires 0 <= i < |ops| =>
      match ops[i]
      case Put(key, value) => Update(Rank(key), Value, value)
      case Delete(key) => Update(Rank(key), Deletion, []))
  }

  /** What the memtable takes of a batch is what the step system logs. */
  lemma EntriesAreStamp(ops: seq<GroupCommit.Op>, first: nat)
    requires first + |ops| <= MAX_SEQUENCE + 1
    ensures EntrySet(EntriesOf(ops, first)) == Stamp(UpdatesOf(ops), first)
  {
    var es, us := EntriesOf(ops, first), UpdatesOf(ops);
    forall i | 0 <= i < |ops|
      ensures es[i] == Entry(InternalKey(us[i].user, first + i, us[i].kind), us[i].value)
    {
    }
    forall e ensures e in EntrySet(es) <==> e in Stamp(us, first) {
      if e in es {
        var i :| 0 <= i < |es| && es[i] == e;
        assert us[i] == us[i];
      }
    }
  }

  lemma EntriesRise(ops: seq<GroupCommit.Op>, first: nat)
    requires first + |ops| <= MAX_SEQUENCE + 1
    ensures Rising(EntriesOf(ops, first))
  {
  }

  /** A write batch with its first sequence number, as it is added to the log. */
  ghost predicate IsRecord(record: Bytes, ops: seq<GroupCommit.Op>, first: nat) {
    && first + |ops| <= MAX_SEQUENCE + 1 && |ops| < TWO_32 && (forall i :: 0 <= i < |ops| ==> Fits(ops[i]))
    && record == EncodeFixed64(first) + EncodeFixed32(|ops|) + Data(ops)
  }

  /** The record the step system's batch is written as. */
  ghost predicate Recorded(record: Bytes, batch: set<Entry>) {
    exists ops, first :: IsRecord(record, ops, first) && EntrySet(EntriesOf(ops, first)) == batch
  }

  /** A batch that has its first sequence number is such a record (SetSequence and AddRecord in DBImpl::Write). */
  lemma BatchIsRecord(batch: WriteBatch, ops: seq<GroupCommit.Op>, first: nat)
    requires batch.Holds(ops) && first + |ops| <= MAX_SEQUENCE + 1 && batch.rep[..8] == EncodeFixed64(first)
    ensures IsRecord(batch.rep, ops, first)
  {
    var rep := batch.rep;
    assert rep == rep[..8] + rep[8..HEADER] + rep[HEADER..];
  }

  /** What a LogWrite step adds to the log is what its record holds. */
  lemma StepWritesRecord(s: State, ops: seq<GroupCommit.Op>, record: Bytes)
    requires CanLog(s, UpdatesOf(ops)) && IsRecord(record, ops, s.lastSequence + 1)
    ensures var t := Logged(s, UpdatesOf(ops));
      Recorded(record, t.pending) && t.logs[s.logNumber] == s.logs[s.logNumber] + [t.pending]
  {
    EntriesAreStamp(ops, s.lastSequence + 1);
  }

  lemma RecordParts(record: Bytes, ops: seq<GroupCommit.Op>, first: nat)
    requires IsRecord(record, ops, first)
    ensures |record| >= HEADER && record[..8] == EncodeFixed64(first) && FromLittle(record[..8]) == first
    ensures record[8..HEADER] == EncodeFixed32(|ops|) && record[HEADER..] == Data(ops)
  {
    assert Power256(2) == 0x1_0000 && Power256(4) == 0x1_0000_0000 && Power256(8) == 0x1_0000_0000_0000_0000;
    LittleRoundTrip(first, 8);
    assert record[..8] == EncodeFixed64(first);
  }

  /** The entries a log record puts into the memtable; None for one that is damaged. */
  method ReadBatch(record: Bytes, ghost ops: seq<GroupCommit.Op>, ghost first: nat) returns (r: Option<seq<Entry>>)
    ensures IsRecord(record, ops, first) ==> r == Some(EntriesOf(ops, first))
  {
    if IsRecord(record, ops, first) { RecordParts(record, ops, first); }
    if |record| < HEADER { return None; }
    var batch := new WriteBatch();
    batch.SetContents(record);
    var ok, out := batch.Iterate(ops);
    var sequence := batch.Sequence();
    if !ok || sequence + |out| > MAX_SEQUENCE + 1 { return None; }
    r := Some(EntriesOf(out, sequence));
  }

  // ---- A log as a file -------------------------------------------------------

  ghost predicate Records(records: seq<Bytes>, log: Log) {
    |records| == |log| && forall i :: 0 <= i < |log| ==> Recorded(records[i], log[i])
  }

  /** The file is what a crash may have left of a log file: all batches of `log`, and perhaps part of one more. */
  ghost predicate Holds(crc: LogFormat.Checksum, file: Bytes, log: Log) {
    exists records, n: nat ::
      && n <= |LogFormat.Log(crc, 0, records)| && file == LogFormat.Log(crc, 0, records)[..n]
      && Records(LogFormat.Complete(crc, 0, records, n), log)
  }

  /** The file has room for another record at its end: whole records and perhaps some padding. */
  ghost predicate Untorn(crc: LogFormat.Checksum, file: Bytes, records: seq<Bytes>) {
    var l, o := LogFormat.Log(crc, 0, records), LogFormat.LogEnd(0, records);
    exists j: nat :: j <= |LogFormat.Padding(o)| && file == l + LogReopen.Zeros(j)
  }

  lemma GoesOn(crc: LogFormat.Checksum, file: Bytes, kept: seq<Bytes>, more: seq<Bytes>)
    requires Untorn(crc, file, kept) && more != []
    ensures file + LogFormat.Log(crc, |file| % LogFormat.BLOCK_SIZE, more) == LogFormat.Log(crc, 0, kept + more)
  {
    var l, o := LogFormat.Log(crc, 0, kept), LogFormat.LogEnd(0, kept);
    var j: nat :| j <= |LogFormat.Padding(o)| && file == l + LogReopen.Zeros(j);
    var n := |file|;
    var k := LogReopen.LogSpan(crc, 0, kept);
    LogReopen.WholeBlocks(|l|, o, j, k);
    LogReopen.LogPadded(crc, o, n % LogFormat.BLOCK_SIZE, j, more);
    LogFormat.LogAppend(crc, 0, kept, more);
    LogFormat.Regroup(l, LogReopen.Zeros(j), LogFormat.Log(crc, n % LogFormat.BLOCK_SIZE, more));
  }

  /** One more record, and the file is cut off anywhere behind what it had: the batch counts just if its
      record is whole. */
  lemma AppendHolds(crc: LogFormat.Checksum, file: Bytes, kept: seq<Bytes>, log: Log, record: Bytes,
                    batch: set<Entry>, n: nat)
    requires Untorn(crc, file, kept) && Records(kept, log) && Recorded(record, batch)
    requires |LogFormat.Log(crc, 0, kept)| <= n <=
      |file + LogFormat.Log(crc, |file| % LogFormat.BLOCK_SIZE, [record])|
    ensures var whole := file + LogFormat.Log(crc, |file| % LogFormat.BLOCK_SIZE, [record]);
      Holds(crc, whole[..n], if n == |whole| then log + [batch] else log)
  {
    var records := kept + [record];
    var whole := LogFormat.Log(crc, 0, records);
    GoesOn(crc, file, kept, [record]);
    LogFormat.CompleteIsLongest(crc, 0, records, n);
    var k := |LogFormat.Complete(crc, 0, records, n)|;
    assert records[..|kept|] == kept && records[..|records|] == records;
    if n == |whole| {
      LogFormat.WholeLogIsComplete(crc, 0, records);
    } else {
      KeepsAll(crc, kept, record, n);
    }
  }

  lemma KeepsAll(crc: LogFormat.Checksum, kept: seq<Bytes>, record: Bytes, n: nat)
    requires |LogFormat.Log(crc, 0, kept)| <= n < |LogFormat.Log(crc, 0, kept + [record])|
    ensures LogFormat.Complete(crc, 0, kept + [record], n) == kept
  {
    var records := kept + [record];
    LogFormat.CompleteIsLongest(crc, 0, records, n);
    var k := |LogFormat.Complete(crc, 0, records, n)|;
    assert records[..|kept|] == kept && records[..|records|] == records;
    if k < |kept| {
      LogGrows(crc, records, k + 1, |kept|);
    }
  }

  lemma LogGrows(crc: LogFormat.Checksum, records: seq<Bytes>, i: nat, j: nat)
    requires i <= j <= |records|
    ensures |LogFormat.Log(crc, 0, records[..i])| <= |LogFormat.Log(crc, 0, records[..j])|
  {
    assert records[..j] == records[..i] + records[i..j];
    LogFormat.LogAppend(crc, 0, records[..i], records[i..j]);
  }

  /** ReadBatch, for a record that should hold `batch`. */
  method ReadRecorded(record: Bytes, ghost batch: set<Entry>) returns (r: Option<seq<Entry>>)
    ensures Recorded(record, batch) ==> r.Some? && EntrySet(r.value) == batch && Rising(r.value)
  {
    ghost var ops, first: nat := [], 0;
    if Recorded(record, batch) {
      ops, first :| IsRecord(record, ops, first) && EntrySet(EntriesOf(ops, first)) == batch;
      EntriesRise(ops, first);
    }
    r := ReadBatch(record, ops, first);
  }

  /** The batches of one log file, in the order written; damaged ones are passed over. */
  method ReadBatches(crc: LogFormat.Checksum, file: Bytes, ghost log: Log) returns (batches: seq<seq<Entry>>)
    ensures Holds(crc, file, log) ==> ReadFrom(log, batches)
  {
    var records, corruptions := LogFile.ReadLog(crc, file);
    ghost var whole := Holds(crc, file, log);
    if whole { RecordsRead(crc, file, log, records); }
    batches := [];
    for i := 0 to |records|
      invariant whole ==> Records(records, log) && |batches| == i
      invariant whole ==> forall k :: 0 <= k < i ==> EntrySet(batches[k]) == log[k] && Rising(batches[k])
    {
      var batch := ReadRecorded(records[i], if i < |log| then log[i] else {});
      if batch.Some? { batches := batches + [batch.value]; }
    }
  }

  lemma RecordsRead(crc: LogFormat.Checksum, file: Bytes, log: Log, records: seq<Bytes>)
    requires Holds(crc, file, log) && LogReading.Drain(crc, 0, file, None).records == records
    ensures Records(records, log)
  {
    var written, n: nat :|
      && n <= |LogFormat.Log(crc, 0, written)| && file == LogFormat.Log(crc, 0, written)[..n]
      && Records(LogFormat.Complete(crc, 0, written, n), log);
    LogReading.DrainPrefix(crc, 0, written, file);
  }

  // ---- Recovery from the files ---------------------------------------------------

  datatype LogImage = LogImage(number: nat, file: Bytes)

  /** `images` are the log files the manifest still needs, as a crash left them, oldest first. */
  ghost predicate Imaged(crc: LogFormat.Checksum, s: State, images: seq<LogImage>) {
    && (forall i, j :: 0 <= i < j < |images| ==> images[i].number < images[j].number)
    && (forall i :: 0 <= i < |images| ==>
        images[i].number in s.logs && s.manifestLog <= images[i].number
        && Holds(crc, images[i].file, s.logs[images[i].number]))
    && (forall n :: n in s.logs && s.manifestLog <= n ==> exists i :: 0 <= i < |images| && images[i].number == n)
  }

  method ReadLogs(crc: LogFormat.Checksum, images: seq<LogImage>, ghost s: State) returns (logs: seq<LogRecords>)
    ensures Imaged(crc, s, images) ==> OnDisk(s, logs)
  {
    logs := [];
    for i := 0 to |images|
      invariant |logs| == i && forall k :: 0 <= k < i ==> logs[k].number == images[k].number
      invariant Imaged(crc, s, images) ==> forall k :: 0 <= k < i ==> ReadFrom(s.logs[logs[k].number], logs[k].batches)
    {
      ghost var log := if images[i].number in s.logs then s.logs[images[i].number] else [];
      var batches := ReadBatches(crc, images[i].file, log);
      logs := logs + [LogRecords(images[i].number, batches)];
    }
    if Imaged(crc, s, images) {
      forall n | n in s.logs && s.manifestLog <= n ensures exists i :: 0 <= i < |logs| && logs[i].number == n {
        var i :| 0 <= i < |images| && images[i].number == n;
        assert logs[i].number == n;
      }
    }
  }

  /** Reopening from the bytes of the log files, in any reachable state and wherever a crash cut them off:
      every key reads as its latest write. */
  method ReopenFromFiles(crc: LogFormat.Checksum, images: seq<LogImage>, reuseLogs: bool, full: seq<Entry> -> bool,
                         saveManifest: bool, manifestNext: nat, manifestLast: nat,
                         ghost states: seq<State>, ghost steps: seq<Step>, ghost n: nat)
    returns (r: Recovery, last: nat)
    requires Run(states, steps) && n < |states| && Imaged(crc, states[n], images)
    requires manifestNext == states[n].manifestNext && manifestLast == states[n].manifestLast
    requires reuseLogs ==> states[n].logNumber !in states[n].torn
    ensures CanRecover(states[n], r.chunks, r.reused, r.saveManifest, r.nextFile, last)
    ensures Reopened(states[n], Recovered(states[n], r.chunks, r.reused, r.saveManifest, r.nextFile, last), r.mem, last)
  {
    var logs := ReadLogs(crc, images, states[n]);
    r, last := Reopen(logs, reuseLogs, full, saveManifest, manifestNext, manifestLast, states, steps, n);
  }
}
