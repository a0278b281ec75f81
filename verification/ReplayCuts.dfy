/** Which tables and which memtable replaying a log leaves (db/db_impl.cc, RecoverLogFile). */
module ReplayCuts {
  import opened InternalKeys
  import opened ReadSpec

  /** A memtable with one entry more, which is newer than all it has. */
  function WithEntry(mem: seq<Entry>, e: Entry): seq<Entry> {
    if mem == [] || !Less(mem[0].key, e.key) then [e] + mem else [mem[0]] + WithEntry(mem[1..], e)
  }

  lemma {:induction false} InsertedAt(mem: seq<Entry>, e: Entry, i: nat)
    requires i <= |mem| && forall j :: 0 <= j < i ==> Less(mem[j].key, e.key)
    requires i < |mem| ==> !Less(mem[i].key, e.key)
    ensures WithEntry(mem, e) == mem[..i] + [e] + mem[i..]
  {
    if i > 0 {
      InsertedAt(mem[1..], e, i - 1);
      assert mem[..i] == [mem[0]] + mem[1..][..i - 1] && mem[1..][i - 1..] == mem[i..];
    }
  }

  function InsertedAll(mem: seq<Entry>, batch: seq<Entry>): seq<Entry> {
    if batch == [] then mem else WithEntry(InsertedAll(mem, batch[..|batch| - 1]), batch[|batch| - 1])
  }

  lemma NextInserted(mem: seq<Entry>, batch: seq<Entry>, i: nat)
    requires i < |batch|
    ensures InsertedAll(mem, batch[..i + 1]) == WithEntry(InsertedAll(mem, batch[..i]), batch[i])
  {
    assert batch[..i + 1][..i] == batch[..i];
  }

  function MemOf(m: Option<seq<Entry>>): seq<Entry> {
    if m.Some? then m.value else []
  }

  /** A table is made of a memtable unless that is empty. */
  function Dumped(m: seq<Entry>): seq<seq<Entry>> {
    if m == [] then [] else [m]
  }

  /** The memtable after the log, if there is one then, the tables written on the way, and how often the
      memtable was full. */
  datatype Replay = Replay(mem: Option<seq<Entry>>, tables: seq<seq<Entry>>, compactions: nat)

  function AfterBatch(full: seq<Entry> -> bool, before: Replay, batch: seq<Entry>): Replay {
    var m := InsertedAll(MemOf(before.mem), batch);
    Replay(MemUnlessFull(full, m), if full(m) then before.tables + Dumped(m) else before.tables,
           if full(m) then before.compactions + 1 else before.compactions)
  }

  function MemUnlessFull(full: seq<Entry> -> bool, m: seq<Entry>): Option<seq<Entry>> {
    if full(m) then None else Some(m)
  }

  function ReplayOf(full: seq<Entry> -> bool, batches: seq<seq<Entry>>): Replay {
    if batches == [] then Replay(None, [], 0)
    else AfterBatch(full, ReplayOf(full, batches[..|batches| - 1]), batches[|batches| - 1])
  }

  lemma NextReplayed(full: seq<Entry> -> bool, batches: seq<seq<Entry>>, i: nat)
    requires i < |batches|
    ensures ReplayOf(full, batches[..i + 1]) == AfterBatch(full, ReplayOf(full, batches[..i]), batches[i])
  {
    assert batches[..i + 1][..i] == batches[..i];
  }

  /** What recovery has made so far: the tables, the memtable if the last log goes on, and whether the manifest
      must be saved. */
  datatype Opened = Opened(tables: seq<seq<Entry>>, mem: seq<Entry>, reused: bool, save: bool)

  function DumpedIfFull(full: seq<Entry> -> bool, m: seq<Entry>, o: Opened): Opened {
    if full(m) then o.(tables := o.tables + Dumped(m), save := true) else o
  }

  function WithReplay(r: Replay, o: Opened): Opened {
    o.(tables := o.tables + r.tables, save := o.save || r.compactions > 0)
  }

  lemma NextOpened(full: seq<Entry> -> bool, r: Replay, batch: seq<Entry>, o: Opened)
    ensures WithReplay(AfterBatch(full, r, batch), o) ==
      DumpedIfFull(full, InsertedAll(MemOf(r.mem), batch), WithReplay(r, o))
  {
    var m := InsertedAll(MemOf(r.mem), batch);
    assert o.tables + (r.tables + Dumped(m)) == o.tables + r.tables + Dumped(m);
  }

  /** The last log goes on if that is asked for and none of it went to a table; any other memtable becomes one. */
  function AfterLog(full: seq<Entry> -> bool, reuseLogs: bool, batches: seq<seq<Entry>>, lastLog: bool, o: Opened)
    : Opened
  {
    var r := ReplayOf(full, batches);
    var reused := reuseLogs && lastLog && r.compactions == 0;
    var left := !reused && r.mem.Some?;
    Opened(o.tables + r.tables + (if left then Dumped(r.mem.value) else []),
           if reused then MemOf(r.mem) else o.mem, reused, o.save || r.compactions > 0 || left)
  }

  lemma LogEnd(full: seq<Entry> -> bool, reuseLogs: bool, batches: seq<seq<Entry>>, lastLog: bool, o: Opened)
    ensures var r := ReplayOf(full, batches); var w := WithReplay(r, o);
      AfterLog(full, reuseLogs, batches, lastLog, o) ==
        if reuseLogs && lastLog && r.compactions == 0 then w.(mem := MemOf(r.mem), reused := true)
        else if r.mem.Some? then w.(tables := w.tables + Dumped(r.mem.value), save := true, reused := false)
        else w.(reused := false)
  {
  }

  /** The memtable if none were ever full. */
  function MemAfter(batches: seq<seq<Entry>>): seq<Entry> {
    if batches == [] then [] else InsertedAll(MemAfter(batches[..|batches| - 1]), batches[|batches| - 1])
  }

  /** The memtable is full after one of the batches. */
  ghost predicate EverFull(full: seq<Entry> -> bool, batches: seq<seq<Entry>>) {
    exists i :: 0 < i <= |batches| && full(MemAfter(batches[..i]))
  }

  /** A log goes wholly into one memtable just if that is never full on the way. */
  lemma {:induction false} OneMemtableUnlessFull(full: seq<Entry> -> bool, batches: seq<seq<Entry>>)
    ensures ReplayOf(full, batches).compactions == 0 <==> !EverFull(full, batches)
    ensures !EverFull(full, batches) ==>
      MemOf(ReplayOf(full, batches).mem) == MemAfter(batches) && ReplayOf(full, batches).tables == []
  {
    if batches != [] {
      var init := batches[..|batches| - 1];
      OneMemtableUnlessFull(full, init);
      assert batches[..|batches|] == batches;
      assert forall i :: 0 < i <= |init| ==> batches[..i] == init[..i];
      if EverFull(full, init) {
        var i :| 0 < i <= |init| && full(MemAfter(init[..i]));
        assert full(MemAfter(batches[..i]));
      }
    }
  }

  /** Every table but those of what a log left at its end was full, and the memtable is not. */
  lemma {:induction false} TablesWereFull(full: seq<Entry> -> bool, batches: seq<seq<Entry>>)
    ensures var r := ReplayOf(full, batches);
      && (forall t :: t in r.tables ==> full(t) && t != [])
      && (r.mem.Some? ==> !full(r.mem.value)) && |r.tables| <= r.compactions
      && (r.compactions == 0 ==> r.mem.Some? || batches == [])
  {
    if batches != [] { TablesWereFull(full, batches[..|batches| - 1]); }
  }
}
