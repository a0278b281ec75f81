/** The straddled tombstone in the step system: the commits it leaves out are exactly those that change a
    read, and on some levels the next compaction is one of them. */
module Straddle {
  import opened InternalKeys
  import opened ReadSpec
  import opened Levels
  import opened Selection
  import opened Commit
  import opened DropRule
  import opened Jobs
  import opened EngineState
  import opened EngineProof

  lemma NoStraddleSuffices(levels: Levels, j: Job, upper: set<Entry>)
    requires Picked(levels, j, upper) && NoStraddle(levels, j.level, j.in1)
    ensures !Straddled(levels, j, upper)
  {
  }

  /** In every reachable state, with what the memtables hold above the levels: reads survive a compaction of
      these inputs if and only if it is not straddled. */
  lemma ReachableUnlessStraddled(states: seq<State>, steps: seq<Step>, n: nat, j: Job)
    requires Run(states, steps) && n < |states| && j.level + 1 < NUM_LEVELS == |states[n].levels|
    requires Safe(states[n].levels, j.level, j.in0, j.in1) && BaseHolds(states[n].levels, j)
    ensures var s := states[n];
      var upper := s.mem + s.imm + s.pending;
      var inputs, rest := LevelEntries(j.in0 + j.in1), Others(s.levels, j, upper);
      && inputs + rest == Contents(s)
      && (SameReads(Contents(s), Kept(inputs, j.horizon, j.base) + rest, j.horizon) <==> !Straddled(s.levels, j, upper))
  {
    RunInv(states, steps, n);
    var s := states[n];
    var upper := s.mem + s.imm + s.pending;
    MemoryIsAbove(s);
    WholeContents(s.levels, j, upper);
    assert upper + AllEntries(s.levels) == Contents(s);
    ReadsSurviveUnlessStraddled(s.levels, j, upper);
  }

  /** A compaction that has run its course in a reachable state may be committed by a step if and only if
      committing it changes no read at its horizon or later. */
  lemma CommitsKeepReads(states: seq<State>, steps: seq<Step>, n: nat, outs: set<Table>)
    requires Run(states, steps) && n < |states| && states[n].job.Some?
      && IsOutput(states[n], states[n].job.value, outs)
    ensures var s, j := states[n], states[n].job.value;
      CanInstall(s, j, outs) <==> SameReads(Contents(s), Contents(Installed(s, j, outs)), j.horizon)
  {
    RunInv(states, steps, n);
    ReachableUnlessStraddled(states, steps, n, states[n].job.value);
    InstalledIs(states[n], states[n].job.value, outs);
  }

  lemma InstalledIs(s: State, j: Job, outs: set<Table>)
    requires j.level + 1 < |s.levels| && NumbersDistinct(s.levels) && j.in0 <= s.levels[j.level]
      && j.in1 <= s.levels[j.level + 1] && LevelEntries(outs) == Kept(LevelEntries(j.in0 + j.in1), j.horizon, j.base)
    ensures Contents(Installed(s, j, outs)) == Kept(LevelEntries(j.in0 + j.in1), j.horizon, j.base)
      + Others(s.levels, j, s.mem + s.imm + s.pending)
  {
    InstalledContents(s.levels, j, outs);
    MovePending(s.mem, s.imm, s.pending, LevelEntries(outs), OtherEntries(s.levels, j));
  }

  lemma MovePending(mem: set<Entry>, imm: set<Entry>, pending: set<Entry>, outs: set<Entry>, others: set<Entry>)
    ensures mem + imm + (outs + others) + pending == outs + (mem + imm + pending + others)
  {
  }

  lemma MemoryIsAbove(s: State)
    requires Layered(s) && Faithful(s)
    ensures Above(s.mem + s.imm + s.pending, AllEntries(s.levels))
      && Distinct(s.mem + s.imm + s.pending + AllEntries(s.levels))
  {
    assert s.mem + s.imm + s.pending + AllEntries(s.levels) <= s.history;
  }

  // ---- An input it happens on ---------------------------------------------

  function Put(u: UserKey, sequence: SequenceNumber, v: Bytes): Entry {
    Entry(InternalKey(u, sequence, Value), v)
  }

  const DELETED: Entry := Entry(InternalKey(2.0, 3, Deletion), [])

  function Upper(v: Bytes): Table {
    TableData(7, 0, [Put(1.0, 4, v)])
  }

  function Middle(v: Bytes): Table {
    TableData(4, 0, [Put(1.0, 2, v), DELETED])
  }

  function Behind(v: Bytes): Table {
    TableData(5, 0, [Put(2.0, 1, v)])
  }

  /** Key 1 in level 2; keys 1 and 2 in level 3, where key 2 is split between two files: its
      deletion ends the first and the value it deletes begins the second. */
  function SplitLevels(v: Bytes): Levels {
    [{}, {}, {Upper(v)}, {Middle(v), Behind(v)}, {}, {}, {}]
  }

  /** What SetupOtherInputs picks when level 2 is compacted: the first file of level 3 meets key 1,
      the second does not. */
  ghost function SplitJob(v: Bytes): Job {
    Job(2, {Upper(v)}, {Middle(v)}, 4, BaseOf(SplitLevels(v), 2))
  }

  lemma SplitContents3(v: Bytes)
    ensures AllEntries(SplitLevels(v)) == {Put(1.0, 4, v), Put(1.0, 2, v), DELETED, Put(2.0, 1, v)}
  {
    var levels := SplitLevels(v);
    assert levels[2] == {Upper(v)} && levels[3] == {Middle(v), Behind(v)};
    forall e | e in {Put(1.0, 4, v), Put(1.0, 2, v), DELETED, Put(2.0, 1, v)} ensures e in AllEntries(levels) {
      if e == Put(1.0, 4, v) { EntryIn(levels, 2, Upper(v), Upper(v).entries[0]); }
      else if e == Put(1.0, 2, v) { EntryIn(levels, 3, Middle(v), Middle(v).entries[0]); }
      else if e == DELETED { EntryIn(levels, 3, Middle(v), Middle(v).entries[1]); }
      else { EntryIn(levels, 3, Behind(v), Behind(v).entries[0]); }
    }
    forall e | e in AllEntries(levels) ensures e in {Put(1.0, 4, v), Put(1.0, 2, v), DELETED, Put(2.0, 1, v)} {
      var l, f := TableOf(levels, e);
      assert f == Upper(v) || f == Middle(v) || f == Behind(v);
    }
  }

  lemma SplitTables(v: Bytes, l: int, f: Table)
    requires 0 <= l < NUM_LEVELS && f in SplitLevels(v)[l]
    ensures (l == 2 && f == Upper(v)) || (l == 3 && (f == Middle(v) || f == Behind(v)))
  {
  }

  lemma SplitLayers(v: Bytes)
    ensures forall i, j :: 0 <= i < j < NUM_LEVELS ==> LevelNewer(SplitLevels(v)[i], SplitLevels(v)[j])
  {
    var levels := SplitLevels(v);
    forall i, j, f, g | 0 <= i < j < NUM_LEVELS && f in levels[i] && g in levels[j] ensures Newer(f, g) {
      SplitTables(v, i, f);
      SplitTables(v, j, g);
    }
  }

  lemma SplitOrdered(v: Bytes)
    ensures forall l :: 1 <= l < NUM_LEVELS ==> Ordered(SplitLevels(v)[l])
  {
    var levels := SplitLevels(v);
    forall l, f, g | 1 <= l < NUM_LEVELS && f in levels[l] && g in levels[l] && f != g
      ensures Before(f, g) || Before(g, f)
    {
      SplitTables(v, l, f);
      SplitTables(v, l, g);
      assert Before(Middle(v), Behind(v));
    }
  }

  lemma SplitNumbers(v: Bytes)
    ensures NumbersDistinct(SplitLevels(v))
  {
    var levels := SplitLevels(v);
    forall i, j, f: Table, g: Table | 0 <= i < |levels| && 0 <= j < |levels| && f in levels[i] && g in levels[j]
        && f.number == g.number
      ensures i == j && f == g
    {
      SplitTables(v, i, f);
      SplitTables(v, j, g);
    }
  }

  lemma SplitWellFormed(v: Bytes)
    ensures WellFormed(SplitLevels(v))
  {
    SplitLayers(v);
    SplitOrdered(v);
    SplitNumbers(v);
    assert SplitLevels(v)[0] == {};
  }

  lemma SplitSafe(v: Bytes)
    ensures Safe(SplitLevels(v), 2, {Upper(v)}, {Middle(v)}) && Connected({Upper(v)} + {Middle(v)})
  {
    var levels := SplitLevels(v);
    assert levels[2] - {Upper(v)} == {};
    assert forall g :: g in levels[3] - {Middle(v)} ==> g == Behind(v);
    assert Before(Upper(v), Behind(v)) && Before(Middle(v), Behind(v));
    forall f, g, x: UserKey | f in {Upper(v)} + {Middle(v)} && g in {Upper(v)} + {Middle(v)} && Lo(f) <= x <= Hi(g)
      ensures Hit({Upper(v)} + {Middle(v)}, x)
    {
      assert Lo(Middle(v)) <= x <= Hi(Middle(v));
    }
  }

  lemma SplitPicked(v: Bytes)
    ensures Picked(SplitLevels(v), SplitJob(v), {})
  {
    SplitWellFormed(v);
    SplitSafe(v);
    SplitDistinct(v);
    BaseOfHolds(SplitLevels(v), SplitJob(v));
  }

  lemma SplitDistinct(v: Bytes)
    ensures Distinct({} + AllEntries(SplitLevels(v)))
  {
    SplitContents3(v);
    assert {} + AllEntries(SplitLevels(v)) == {Put(1.0, 4, v), Put(1.0, 2, v), DELETED, Put(2.0, 1, v)};
  }

  lemma SplitBoundary(v: Bytes)
    ensures LeftBoundary(SplitLevels(v), SplitJob(v), Middle(v), Behind(v))
      && !NoStraddle(SplitLevels(v), 2, {Middle(v)})
  {
    var levels := SplitLevels(v);
    assert levels[3] - {Middle(v)} == {Behind(v)};
    assert Before(Middle(v), Behind(v));
  }

  lemma SplitCovers(v: Bytes)
    ensures Covers(SplitLevels(v), SplitJob(v), {}, Behind(v), DELETED)
  {
    var levels, j := SplitLevels(v), SplitJob(v);
    SplitContents3(v);
    assert {} + AllEntries(levels) == AllEntries(levels);
    assert Middle(v).entries[1] == DELETED;
    assert DELETED in TableEntries(Middle(v)) && Middle(v) in j.in0 + j.in1;
    assert forall l :: 4 <= l < NUM_LEVELS ==> levels[l] == {};
  }

  /** A selection that is right in every other way, on well-formed levels: after the compaction a
      read of key 2 returns the value that was deleted. */
  lemma StraddledTombstoneResurrects(v: Bytes)
    ensures var levels, j := SplitLevels(v), SplitJob(v);
      && Picked(levels, j, {}) && Connected(j.in0 + j.in1) && !NoStraddle(levels, j.level, j.in1)
      && Straddled(levels, j, {})
      && var inputs, rest := LevelEntries(j.in0 + j.in1), OtherEntries(levels, j);
         Read(inputs + rest, 2.0, 4) == None && Read(Kept(inputs, 4, j.base) + rest, 2.0, 4) == Some(v)
  {
    var levels, j := SplitLevels(v), SplitJob(v);
    SplitPicked(v);
    SplitSafe(v);
    SplitBoundary(v);
    SplitCovers(v);
    StraddledIsUncovered(levels, j, {}, Middle(v), Behind(v), DELETED);
    SplitReads(levels, j, DELETED, Behind(v).entries[0]);
  }

  lemma SplitReads(levels: Levels, j: Job, d: Entry, p: Entry)
    requires Picked(levels, j, {})
      && Uncovers(LevelEntries(j.in0 + j.in1), Others(levels, j, {}), j.horizon, j.base, d, p)
    ensures var inputs, rest := LevelEntries(j.in0 + j.in1), OtherEntries(levels, j);
      Read(inputs + rest, d.key.user, j.horizon) == None &&
        Read(Kept(inputs, j.horizon, j.base) + rest, d.key.user, j.horizon) == Some(p.value)
  {
    PickedFacts(levels, j, {});
    WholeContents(levels, j, {});
    assert Others(levels, j, {}) == OtherEntries(levels, j);
    ResurrectedReadDiffers(LevelEntries(j.in0 + j.in1), OtherEntries(levels, j), j.horizon, j.base, d, p);
  }
}
