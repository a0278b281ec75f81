/** A run that comes to a straddled tombstone: two writes to one key kept apart by a snapshot, a compaction
    that cuts its output between them, and a newer key above the first of the two files. */
module StraddleRun {
  import opened InternalKeys
  import opened ReadSpec
  import opened Levels
  import opened Selection
  import opened Commit
  import opened DropRule
  import opened Jobs
  import opened EngineState
  import opened EngineProof
  import opened Straddle

  /** `s` leads to `t` by `steps`. */
  ghost predicate Leads(s: State, steps: seq<Step>, t: State)
    decreases |steps|
  {
    if steps == [] then s == t else Enabled(s, steps[0]) && Leads(Apply(s, steps[0]), steps[1..], t)
  }

  lemma {:induction false} LeadsOn(s: State, a: seq<Step>, t: State, b: seq<Step>, u: State)
    requires Leads(s, a, t) && Leads(t, b, u)
    ensures Leads(s, a + b, u)
    decreases |a|
  {
    if a == [] {
      assert a + b == b;
    } else {
      assert (a + b)[0] == a[0] && (a + b)[1..] == a[1..] + b;
      LeadsOn(Apply(s, a[0]), a[1..], t, b, u);
    }
  }

  ghost function Trace(s: State, steps: seq<Step>, t: State): seq<State>
    requires Leads(s, steps, t)
    decreases |steps|
  {
    if steps == [] then [s] else [s] + Trace(Apply(s, steps[0]), steps[1..], t)
  }

  lemma {:induction false} TraceRuns(s: State, steps: seq<Step>, t: State)
    requires Leads(s, steps, t)
    ensures var states := Trace(s, steps, t);
      && |states| == |steps| + 1 && states[0] == s && states[|steps|] == t
      && forall i :: 0 <= i < |steps| ==> Enabled(states[i], steps[i]) && states[i + 1] == Apply(states[i], steps[i])
    decreases |steps|
  {
    if steps != [] {
      var rest, states := Trace(Apply(s, steps[0]), steps[1..], t), Trace(s, steps, t);
      TraceRuns(Apply(s, steps[0]), steps[1..], t);
      assert states == [s] + rest;
      forall i | 0 <= i < |steps| ensures Enabled(states[i], steps[i]) && states[i + 1] == Apply(states[i], steps[i]) {
        if i > 0 { assert steps[1..][i - 1] == steps[i] && Enabled(rest[i - 1], steps[1..][i - 1]); }
      }
    }
  }

  lemma OneStep(s: State, step: Step, t: State)
    requires Enabled(s, step) && Apply(s, step) == t
    ensures Leads(s, [step], t)
  {
    assert [step][1..] == [];
  }

  lemma Then(s: State, a: seq<Step>, t: State, step: Step, u: State)
    requires Leads(s, a, t) && Enabled(t, step) && Apply(t, step) == u
    ensures Leads(s, a + [step], u)
  {
    OneStep(t, step, u);
    LeadsOn(s, a, t, [step], u);
  }

  // ---- The run ----------------------------------------------------------------

  ghost function Start(): State {
    State({}, {}, false, {}, 0, 0, multiset{}, [{}, {}, {}, {}, {}, {}, {}], None, {}, 2, 1, map[1 := []], {}, true, {},
          1, 2, 0, {})
  }

  /** Some entries are written as one batch and inserted. */
  ghost function Wrote(s: State, batch: set<Entry>, top: nat): State
    requires s.logNumber in s.logs
  {
    s.(mem := s.mem + batch, pendingTop := top, lastSequence := top, pending := {},
       logs := s.logs[s.logNumber := s.logs[s.logNumber] + [batch]], history := s.history + batch)
  }

  lemma WriteLeads(s: State, ops: seq<Update>, batch: set<Entry>)
    requires s.alive && CanLog(s, ops) && batch == Stamp(ops, s.lastSequence + 1)
    ensures Leads(s, [LogWrite(ops), Insert], Wrote(s, batch, s.lastSequence + |ops|))
  {
    var t := Logged(s, ops);
    OneStep(s, LogWrite(ops), t);
    Then(s, [LogWrite(ops)], t, Insert, Wrote(s, batch, s.lastSequence + |ops|));
    assert [LogWrite(ops)] + [Insert] == [LogWrite(ops), Insert];
  }

  /** The memtable becomes a table. */
  ghost function Stored(s: State, p: nat, t: Table): State
    requires p < |s.levels|
  {
    s.(mem := {}, imm := {}, hasImm := false, levels := AfterFlush(s.levels, p, t), tables := s.tables + {t.number},
       logNumber := s.nextFile, logs := s.logs[s.nextFile := []], nextFile := s.nextFile + 2,
       manifestLog := s.nextFile, manifestNext := s.nextFile + 2, manifestLast := s.lastSequence)
  }

  lemma StoreLeads(s: State, p: nat, t: Table)
    requires s.alive && CanSwitch(s) && |s.levels| == NUM_LEVELS && TableEntries(t) == s.mem && MayPlace(s.levels, p, t)
      && t.number == s.nextFile + 1 && p < NUM_LEVELS
    ensures Leads(s, [SwitchMemTable, Flush(p, t)], Stored(s, p, t))
  {
    var u := Switched(s);
    OneStep(s, SwitchMemTable, u);
    Then(s, [SwitchMemTable], u, Flush(p, t), Stored(s, p, t));
    assert [SwitchMemTable] + [Flush(p, t)] == [SwitchMemTable, Flush(p, t)];
  }

  function Whole(v: Bytes): Table {
    TableData(3, 0, [Put(1.0, 2, v), DELETED, Put(2.0, 1, v)])
  }

  /** Key 2 is written, a snapshot taken, key 1 written and key 2 deleted. */
  ghost function Filled(v: Bytes): State {
    var one := Wrote(Start(), {Put(2.0, 1, v)}, 1);
    Wrote(one.(snapshots := multiset{1}), {Put(1.0, 2, v), DELETED}, 3)
  }

  lemma FilledLeads(v: Bytes) returns (steps: seq<Step>)
    ensures Leads(Start(), steps, Filled(v))
  {
    var first, second := [Update(2.0, Value, v)], [Update(1.0, Value, v), Update(2.0, Deletion, [])];
    var one := Wrote(Start(), {Put(2.0, 1, v)}, 1);
    var held := one.(snapshots := multiset{1});
    forall e ensures e in Stamp(first, 1) <==> e in {Put(2.0, 1, v)} {
      if e == Put(2.0, 1, v) { assert first[0] == Update(2.0, Value, v); }
    }
    WriteLeads(Start(), first, {Put(2.0, 1, v)});
    steps := [LogWrite(first), Insert];
    Then(Start(), steps, one, TakeSnapshot, held);
    steps := steps + [TakeSnapshot];
    forall e ensures e in Stamp(second, 2) <==> e in {Put(1.0, 2, v), DELETED} {
      if e == Put(1.0, 2, v) { assert second[0] == Update(1.0, Value, v); }
      if e == DELETED { assert second[1] == Update(2.0, Deletion, []); }
    }
    WriteLeads(held, second, {Put(1.0, 2, v), DELETED});
    LeadsOn(Start(), steps, held, [LogWrite(second), Insert], Filled(v));
    steps := steps + [LogWrite(second), Insert];
  }

  ghost function StoredWhole(v: Bytes): State {
    Stored(Filled(v), 2, Whole(v))
  }

  /** The table is compacted into two, cut inside key 2, with the snapshot still held; then that is released. */
  ghost function Compacted(v: Bytes): State {
    var s := StoredWhole(v);
    s.(levels := [{}, {}, {}, {Middle(v), Behind(v)}, {}, {}, {}], tables := s.tables + {4} + {5}, nextFile := 6,
       manifestNext := 6, snapshots := multiset{})
  }

  lemma StoredWholeIs(v: Bytes)
    ensures Filled(v).mem == {Put(2.0, 1, v), Put(1.0, 2, v), DELETED} == TableEntries(Whole(v))
    ensures var s := StoredWhole(v);
      && s.levels == [{}, {}, {Whole(v)}, {}, {}, {}, {}] && s.nextFile == 4 && s.lastSequence == 3
      && s.snapshots == multiset{1} && s.job == None && s.pendingOutputs == {} && s.alive
  {
    assert {} + {Put(2.0, 1, v)} + {Put(1.0, 2, v), DELETED} == {Put(2.0, 1, v), Put(1.0, 2, v), DELETED};
    var levels: Levels := [{}, {}, {}, {}, {}, {}, {}];
    assert {} + {Whole(v)} == {Whole(v)};
    assert levels[2 := {Whole(v)}] == [{}, {}, {Whole(v)}, {}, {}, {}, {}];
    var es := Whole(v).entries;
    forall e ensures e in TableEntries(Whole(v)) <==> e in {Put(2.0, 1, v), Put(1.0, 2, v), DELETED} {
      assert es[0] == Put(1.0, 2, v) && es[1] == DELETED && es[2] == Put(2.0, 1, v);
    }
  }

  lemma StoredWholeLeads(v: Bytes) returns (steps: seq<Step>)
    ensures Leads(Start(), steps, StoredWhole(v))
  {
    StoredWholeIs(v);
    var before := FilledLeads(v);
    StoreLeads(Filled(v), 2, Whole(v));
    LeadsOn(Start(), before, Filled(v), [SwitchMemTable, Flush(2, Whole(v))], StoredWhole(v));
    steps := before + [SwitchMemTable, Flush(2, Whole(v))];
  }

  /** The compaction of that one table with the snapshot in use. */
  ghost function WholeJob(v: Bytes): Job {
    Job(2, {Whole(v)}, {}, 1, BaseOf(StoredWhole(v).levels, 2))
  }

  lemma WholeCanBePicked(v: Bytes)
    ensures CanPick(StoredWhole(v), 2, {Whole(v)}, {}, 1)
  {
    StoredWholeIs(v);
    var s := StoredWhole(v);
    assert s.levels[2] - {Whole(v)} == {};
    assert 1 in multiset{1} && |multiset{1}| == 1;
    forall f, g, x: UserKey | f in {Whole(v)} + {} && g in {Whole(v)} + {} && Lo(f) <= x <= Hi(g)
      ensures Hit({Whole(v)} + {}, x)
    {
      assert Whole(v) in {Whole(v)} + {};
    }
  }

  /** The snapshot keeps all three entries. */
  lemma WholeIsKept(v: Bytes, base: iset<UserKey>)
    ensures LevelEntries({Middle(v), Behind(v)}) == Kept(LevelEntries({Whole(v)} + {}), 1, base)
  {
    var all := {Put(2.0, 1, v), Put(1.0, 2, v), DELETED};
    StoredWholeIs(v);
    assert {Whole(v)} + {} == {Whole(v)};
    forall e ensures e in LevelEntries({Whole(v)}) <==> e in all {
      if e in all { assert e in TableEntries(Whole(v)); }
    }
    var ms, bs := Middle(v).entries, Behind(v).entries;
    assert ms[0] == Put(1.0, 2, v) && ms[1] == DELETED && bs[0] == Put(2.0, 1, v);
    forall e ensures e in LevelEntries({Middle(v), Behind(v)}) <==> e in all {
      if e in all { assert e in TableEntries(Middle(v)) || e in TableEntries(Behind(v)); }
    }
    forall e | e in all ensures Keeps(all, 1, base, e) {}
  }

  lemma SplitCanBeInstalled(v: Bytes, s: State)
    requires |s.levels| == NUM_LEVELS && s.pendingOutputs == {4, 5}
    ensures CanInstall(s, WholeJob(v), {Middle(v), Behind(v)})
  {
    WholeIsKept(v, WholeJob(v).base);
    assert Before(Middle(v), Behind(v));
  }

  lemma CompactedLeads(v: Bytes) returns (steps: seq<Step>)
    ensures Leads(StoredWhole(v), steps, Compacted(v))
  {
    StoredWholeIs(v);
    WholeCanBePicked(v);
    var s0 := StoredWhole(v);
    var s1 := s0.(job := Some(WholeJob(v)));
    var s2, s3 := Opened(s1), Opened(Opened(s1));
    assert s3.pendingOutputs == {4, 5};
    SplitCanBeInstalled(v, s3);
    var outs := {Middle(v), Behind(v)};
    var s4 := Installed(s3, WholeJob(v), outs);
    InstalledLevels(v, s3, outs);
    OneStep(s0, Pick(2, {Whole(v)}, {}, 1), s1);
    Then(s0, [Pick(2, {Whole(v)}, {}, 1)], s1, OpenOutput, s2);
    steps := [Pick(2, {Whole(v)}, {}, 1)] + [OpenOutput];
    Then(s0, steps, s2, OpenOutput, s3);
    steps := steps + [OpenOutput];
    Then(s0, steps, s3, Install(outs), s4);
    steps := steps + [Install(outs)];
    assert multiset{1} - multiset{1} == multiset{};
    Then(s0, steps, s4, ReleaseSnapshot(1), Compacted(v));
    steps := steps + [ReleaseSnapshot(1)];
  }

  lemma InstalledLevels(v: Bytes, s: State, outs: set<Table>)
    requires s.levels == [{}, {}, {Whole(v)}, {}, {}, {}, {}] && outs == {Middle(v), Behind(v)}
    ensures Installed(s, WholeJob(v), outs).levels == [{}, {}, {}, {Middle(v), Behind(v)}, {}, {}, {}]
  {
    assert {Whole(v)} - {Whole(v)} == {} && {} - {} + outs == outs;
  }

  /** Key 1 is written again and flushed above the two files. */
  ghost function Straddling(v: Bytes): State {
    Stored(Wrote(Compacted(v), {Put(1.0, 4, v)}, 4), 2, Upper(v))
  }

  lemma StraddlingLeads(v: Bytes) returns (steps: seq<Step>)
    ensures Leads(Compacted(v), steps, Straddling(v)) && Straddling(v).levels == SplitLevels(v)
      && Straddling(v).lastSequence == 4 && Straddling(v).mem + Straddling(v).imm + Straddling(v).pending == {}
  {
    StoredWholeIs(v);
    var ops, s := [Update(1.0, Value, v)], Compacted(v);
    var t := Wrote(s, {Put(1.0, 4, v)}, 4);
    forall e ensures e in Stamp(ops, 4) <==> e in {Put(1.0, 4, v)} {
      if e == Put(1.0, 4, v) { assert ops[0] == Update(1.0, Value, v); }
    }
    WriteLeads(s, ops, {Put(1.0, 4, v)});
    assert Upper(v).entries[0] == Put(1.0, 4, v) && TableEntries(Upper(v)) == {Put(1.0, 4, v)} == t.mem;
    UpperMayBePlaced(v, t.levels);
    StoreLeads(t, 2, Upper(v));
    LeadsOn(s, [LogWrite(ops), Insert], t, [SwitchMemTable, Flush(2, Upper(v))], Straddling(v));
    steps := [LogWrite(ops), Insert] + [SwitchMemTable, Flush(2, Upper(v))];
    assert {} + {Upper(v)} == {Upper(v)};
  }

  lemma UpperMayBePlaced(v: Bytes, levels: Levels)
    requires levels == [{}, {}, {}, {Middle(v), Behind(v)}, {}, {}, {}]
    ensures MayPlace(levels, 2, Upper(v))
  {
  }

  /** A run ends in those levels; the compaction that SetupOtherInputs then picks changes a read. */
  lemma StraddleIsReachable(v: Bytes) returns (states: seq<State>, steps: seq<Step>)
    ensures Run(states, steps)
    ensures var s, j := states[|steps|], SplitJob(v);
      && s.levels == SplitLevels(v) && j.horizon == s.lastSequence
      && Safe(s.levels, j.level, j.in0, j.in1) && Connected(j.in0 + j.in1) && j.base == BaseOf(s.levels, j.level)
      && !SameReads(Contents(s), Kept(LevelEntries(j.in0 + j.in1), j.horizon, j.base) + Others(s.levels, j, {}),
                    j.horizon)
  {
    var a := StoredWholeLeads(v);
    var b := CompactedLeads(v);
    var c := StraddlingLeads(v);
    LeadsOn(Start(), a, StoredWhole(v), b, Compacted(v));
    LeadsOn(Start(), a + b, Compacted(v), c, Straddling(v));
    steps := a + b + c;
    states := Trace(Start(), steps, Straddling(v));
    TraceRuns(Start(), steps, Straddling(v));
    StartIsInitial();
    StraddledTombstoneResurrects(v);
    BaseOfHolds(SplitLevels(v), SplitJob(v));
    ReachableUnlessStraddled(states, steps, |steps|, SplitJob(v));
  }

  lemma StartIsInitial()
    ensures Init(Start())
  {
    assert Start().logs.Keys == {1};
  }
}
