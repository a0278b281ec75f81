/** A compaction from its pick to its commit (db/db_impl.cc, BackgroundCompaction and
    DoCompactionWork; db/version_set.cc, PickCompaction). */
module CompactionJob {
  import opened InternalKeys
  import opened ReadSpec
  import opened Levels
  import opened Selection
  import opened DropRule
  import opened VersionQueries
  import opened VersionSets
  import opened CompactionWork
  import opened OutputCuts
  import opened Jobs
  import opened EngineState
  import opened Sequences
  import opened Iterators
  import opened Merger

  /** The keys the compaction takes to be nowhere below are those no deeper table spans. */
  lemma BaseMatches(files: Files, level: nat)
    ensures BaseKeys(files, level) == BaseOf(LevelsOf(files), level)
  {
    var levels := LevelsOf(files);
    forall u: UserKey ensures NothingBelow(files, level, u) <==> NoneBelow(levels, level, u) {
      if NothingBelow(files, level, u) {
        forall l, f | level + 2 <= l < |levels| && f in levels[l] ensures !Spans(f, u) { assert f in files[l]; }
      }
      if NoneBelow(levels, level, u) {
        forall l, f | level + 2 <= l < |files| && f in files[l]
          ensures !(Lo(f) <= u <= Hi(f))
        {
          assert f in levels[l] && !Spans(f, u);
        }
      }
    }
  }

  /** The outputs as table files. */
  ghost predicate AreTables(outs: seq<Table>, outputs: seq<seq<Entry>>, numberOf: nat -> nat) {
    |outs| == |outputs| && forall i :: 0 <= i < |outs| ==>
        outs[i].entries == outputs[i] && outs[i].number == numberOf(i)
  }

  ghost predicate Increasing(numberOf: nat -> nat) {
    forall i, j :: 0 <= i < j ==> numberOf(i) < numberOf(j)
  }

  lemma OutputsOrdered(outs: seq<Table>, outputs: seq<seq<Entry>>, numberOf: nat -> nat)
    requires AreTables(outs, outputs, numberOf) && Sorted(Flatten(outputs))
    ensures Ordered(SetOf(outs))
  {
    CutsOrdered(outputs);
    forall f, g | f in SetOf(outs) && g in SetOf(outs) && f != g ensures Before(f, g) || Before(g, f) {
      var i :| 0 <= i < |outs| && outs[i] == f;
      var j :| 0 <= j < |outs| && outs[j] == g;
      assert f.entries[|f.entries| - 1] in outputs[i] && f.entries[0] in outputs[i];
      assert g.entries[|g.entries| - 1] in outputs[j] && g.entries[0] in outputs[j];
    }
  }

  lemma OutputEntries(outs: seq<Table>, outputs: seq<seq<Entry>>, numberOf: nat -> nat)
    requires AreTables(outs, outputs, numberOf)
    ensures LevelEntries(SetOf(outs)) == EntrySet(Flatten(outputs))
  {
    FlattenMembers(outputs);
    forall e ensures e in LevelEntries(SetOf(outs)) <==> InSome(outputs, e) {
      if e in LevelEntries(SetOf(outs)) {
        var t :| t in SetOf(outs) && e in TableEntries(t);
        var i :| 0 <= i < |outs| && outs[i] == t;
        assert e in outputs[i];
      }
      if i :| 0 <= i < |outputs| && e in outputs[i] {
        assert outs[i] in SetOf(outs) && e in TableEntries(outs[i]);
      }
    }
  }

  /** The outputs hold exactly what the drop rule keeps of the inputs, in tables one after the other. */
  lemma OutputsAreKept(outs: seq<Table>, outputs: seq<seq<Entry>>, numberOf: nat -> nat, input: seq<Entry>,
                       horizon: int, base: iset<UserKey>)
    requires AreTables(outs, outputs, numberOf) && Sorted(input)
      && Flatten(outputs) == KeptSeq(input, |input|, horizon, base)
    ensures Ordered(SetOf(outs)) && LevelEntries(SetOf(outs)) == Kept(EntrySet(input), horizon, base)
  {
    KeptSeqIsKept(input, |input|, horizon, base);
    OutputsOrdered(outs, outputs, numberOf);
    OutputEntries(outs, outputs, numberOf);
    assert input[..|input|] == input;
  }

  /** The compaction thread's work on inputs that were picked, with `input` what the merging iterator
      delivers of them: the tables it leaves can be installed. */
  method Compact(files: Files, level: nat, inputs: seq<Table>, grandparents: seq<Table>, input: seq<Entry>,
                 horizon: SequenceNumber,
                 maxFileSize: nat, fileSize: seq<Entry> -> nat, numberOf: nat -> nat) returns (outs: seq<Table>)
    requires ValidVersion(files) && Disjoint(grandparents) && horizon < MAX_SEQUENCE
    requires Sorted(input) && Distinct(EntrySet(input)) && EntrySet(input) == LevelEntries(SetOf(inputs))
    ensures Ordered(SetOf(outs))
      && LevelEntries(SetOf(outs)) == Kept(LevelEntries(SetOf(inputs)), horizon, BaseOf(LevelsOf(files), level))
    ensures forall i :: 0 <= i < |outs| ==> outs[i].number == numberOf(i)
    ensures RightCuts(Stops(grandparents, maxFileSize, input), input, fileSize, maxFileSize, RunsOf(outs))
  {
    forall l | level + 2 <= l < NUM_LEVELS ensures Disjoint(files[l]) { LevelDisjoint(files, l); }
    var c := new Compaction(level, files, grandparents, maxFileSize);
    var outputs := DoCompactionWork(c, input, horizon, fileSize);
    ghost var base := BaseKeys(files, level);
    outs := MakeTables(outputs, input, horizon, base, fileSize, numberOf);
    OutputsAreKept(outs, outputs, numberOf, input, horizon, base);
    assert RunsOf(outs) == outputs;
    BaseMatches(files, level);
  }

  method MakeTables(outputs: seq<seq<Entry>>, ghost input: seq<Entry>, ghost horizon: int, ghost base: iset<UserKey>,
                    fileSize: seq<Entry> -> nat, numberOf: nat -> nat)
    returns (outs: seq<Table>)
    requires Sorted(input) && Flatten(outputs) == KeptSeq(input, |input|, horizon, base)
        && forall o :: o in outputs ==> o != []
    ensures AreTables(outs, outputs, numberOf)
  {
    KeptSeqIsKept(input, |input|, horizon, base);
    CutsOrdered(outputs);
    outs := [];
    for i := 0 to |outputs|
      invariant |outs| == i && forall k :: 0 <= k < i ==> outs[k].entries == outputs[k] && outs[k].number == numberOf(k)
    {
      assert outputs[i] in outputs;
      outs := outs + [TableData(numberOf(i), fileSize(outputs[i]), outputs[i])];
    }
  }

  /** In a state whose running compaction was picked from these files, with numbers it has opened,
      the outputs of its work meet what installing them demands. */
  lemma WorkCanBeInstalled(s: State, j: Job, outs: seq<Table>, numberOf: nat -> nat)
    requires j.level + 1 < |s.levels| && Increasing(numberOf)
    requires Ordered(SetOf(outs)) && LevelEntries(SetOf(outs)) == Kept(LevelEntries(j.in0 + j.in1), j.horizon, j.base)
    requires forall i :: 0 <= i < |outs| ==> outs[i].number == numberOf(i) && numberOf(i) in s.pendingOutputs
    ensures IsOutput(s, j, SetOf(outs))
    ensures !Straddled(s.levels, j, s.mem + s.imm + s.pending) ==> CanInstall(s, j, SetOf(outs))
  {
    forall t, u | t in SetOf(outs) && u in SetOf(outs) && t.number == u.number ensures t == u {
      var i: nat :| i < |outs| && outs[i] == t;
      var k: nat :| k < |outs| && outs[k] == u;
      assert i < k ==> numberOf(i) < numberOf(k);
      assert k < i ==> numberOf(k) < numberOf(i);
    }
  }

  lemma InputsDistinct(levels: Levels, level: nat, in0: set<Table>, in1: set<Table>)
    requires Distinct(AllEntries(levels)) && level + 1 < |levels| && in0 <= levels[level] && in1 <= levels[level + 1]
    ensures Distinct(LevelEntries(in0 + in1))
  {
    forall e | e in LevelEntries(in0 + in1) ensures e in AllEntries(levels) {
      var f :| f in in0 + in1 && e in TableEntries(f);
      assert e in LevelEntries(levels[if f in in0 then level else level + 1]);
    }
  }

  // ---- Merging the inputs -------------------------------------------------

  ghost function RunsOf(inputs: seq<Table>): seq<seq<Entry>> {
    seq(|inputs|, i requires 0 <= i < |inputs| => inputs[i].entries)
  }

  lemma RunEntries(inputs: seq<Table>)
    ensures Union(RunsOf(inputs)) == LevelEntries(SetOf(inputs))
  {
    forall e ensures e in Union(RunsOf(inputs)) <==> e in LevelEntries(SetOf(inputs)) {
      if r :| r in RunsOf(inputs) && e in r {
        var i :| 0 <= i < |inputs| && RunsOf(inputs)[i] == r;
        assert inputs[i] in SetOf(inputs) && e in TableEntries(inputs[i]);
      }
      if e in LevelEntries(SetOf(inputs)) {
        var t :| t in SetOf(inputs) && e in TableEntries(t);
        var i :| 0 <= i < |inputs| && inputs[i] == t;
        assert RunsOf(inputs)[i] in RunsOf(inputs);
      }
    }
  }

  /** Two tables of a version have no key in common. */
  lemma TablesApart(levels: Levels, i: nat, j: nat, f: Table, g: Table)
    requires WellFormed(levels) && i < |levels| && j < |levels| && f in levels[i] && g in levels[j] && f != g
    ensures forall a, b :: a in f.entries && b in g.entries ==> a.key != b.key
  {
    if i == 0 && j == 0 {
      assert f.number != g.number;
    } else if i == j {
      forall a, b | a in f.entries && b in g.entries ensures a.key != b.key {
        InRange(f, a);
        InRange(g, b);
      }
    }
  }

  lemma InputsApart(levels: Levels, level: nat, in0: seq<Table>, in1: seq<Table>)
    requires WellFormed(levels) && level + 1 < |levels| && NoDuplicates(in0) && NoDuplicates(in1)
    requires SetOf(in0) <= levels[level] && SetOf(in1) <= levels[level + 1]
    ensures DistinctKeys(RunsOf(in0 + in1))
  {
    var all := in0 + in1;
    forall i, j, a, b | 0 <= i < j < |all| && a in all[i].entries && b in all[j].entries ensures a.key != b.key {
      var k, l := if i < |in0| then level else level + 1, if j < |in0| then level else level + 1;
      assert i < |in0| ==> all[i] in SetOf(in0);
      assert i >= |in0| ==> all[i] in SetOf(in1);
      assert j < |in0| ==> all[j] in SetOf(in0);
      assert j >= |in0| ==> all[j] in SetOf(in1);
      if k < l { LevelsApart(levels, k, l, all[i], all[j]); }
      TablesApart(levels, k, l, all[i], all[j]);
    }
  }

  lemma LevelsApart(levels: Levels, i: nat, j: nat, f: Table, g: Table)
    requires WellFormed(levels) && i < j < |levels| && f in levels[i] && g in levels[j]
    ensures f != g
  {
    assert f.entries[0] in f.entries;
  }

  /** What has been taken so far, and what comes next. */
  ghost predicate Taken(all: set<Entry>, input: seq<Entry>, next: Option<Entry>) {
    var b := if input == [] then Ends else Beside(input[|input| - 1].key);
    && Sorted(input) && EntrySet(input) <= all && LeastPast(all, b, next)
    && forall e :: e in all ==> e in input || Past(e.key, b)
  }

  lemma TakeNext(all: set<Entry>, input: seq<Entry>, x: Entry, next: Option<Entry>)
    requires Distinct(all) && Taken(all, input, Some(x)) && LeastPast(all, Beside(x.key), next)
    ensures Taken(all, input + [x], next) && x in all && x !in EntrySet(input)
  {
    var more := input + [x];
    forall i, j | 0 <= i < j < |more| ensures Less(more[i].key, more[j].key) {
      if j == |input| && i < |input| - 1 { assert Less(input[i].key, input[|input| - 1].key); }
    }
    forall e | e in all ensures e in more || Past(e.key, Beside(x.key)) {
      if e !in input && !Less(x.key, e.key) {
        SameKey(x.key, e.key);
        assert e == x;
      }
    }
    forall i | 0 <= i < |input| ensures input[i] != x { assert Less(more[i].key, more[|input|].key); }
  }

  lemma SameKey(a: InternalKey, b: InternalKey)
    requires !Less(a, b) && !Less(b, a)
    ensures a == b
  {
  }

  /** The entry at hand is taken and the iterator moved on. */
  method TakeCurrent(m: MergingIterator, ghost input: seq<Entry>) returns (x: Entry)
    requires m.Shape() && m.Positioned() && m.Valid() && DistinctKeys(m.Runs()) && Distinct(Union(m.Runs()))
    requires Taken(Union(m.Runs()), input, m.Current())
    modifies m, m.children
    ensures m.Shape() && m.Positioned() && Taken(Union(m.Runs()), input + [x], m.Current())
    ensures x in Union(m.Runs()) && x !in EntrySet(input)
  {
    x := m.children[m.current].entries[m.children[m.current].pos];
    assert m.Current() == Some(x);
    m.Next();
    TakeNext(Union(m.Runs()), input, x, m.Current());
  }

  lemma OneLess(all: set<Entry>, input: seq<Entry>, x: Entry)
    requires x in all && x !in EntrySet(input)
    ensures |all - EntrySet(input + [x])| < |all - EntrySet(input)|
  {
    assert all - EntrySet(input) == (all - EntrySet(input + [x])) + {x};
  }

  /** The loop over the input of a compaction, from its first entry on (DoCompactionWork). */
  method DrainMerger(m: MergingIterator) returns (input: seq<Entry>)
    requires m.Shape() && DistinctKeys(m.Runs()) && Distinct(Union(m.Runs()))
    modifies m, m.children
    ensures Sorted(input) && EntrySet(input) == Union(m.Runs())
  {
    m.SeekToFirst();
    input := [];
    while m.Valid()
      invariant m.Shape() && m.Positioned() && Taken(Union(m.Runs()), input, m.Current())
      decreases |Union(m.Runs()) - EntrySet(input)|
    {
      var x := TakeCurrent(m, input);
      OneLess(Union(m.Runs()), input, x);
      input := input + [x];
    }
    AllTaken(Union(m.Runs()), input, m.Current());
  }

  lemma AllTaken(all: set<Entry>, input: seq<Entry>, next: Option<Entry>)
    requires Taken(all, input, next) && next == None
    ensures EntrySet(input) == all
  {
  }

  /** MakeInputIterator and the loop over it. */
  method MergeInputs(inputs: seq<Table>) returns (input: seq<Entry>)
    requires DistinctKeys(RunsOf(inputs)) && Distinct(LevelEntries(SetOf(inputs)))
    ensures Sorted(input) && EntrySet(input) == LevelEntries(SetOf(inputs))
  {
    var children: seq<EntryIterator> := [];
    for i := 0 to |inputs|
      invariant |children| == i && forall k :: 0 <= k < i ==>
        fresh(children[k]) && children[k].Ok() && children[k].entries == inputs[k].entries
      invariant forall k, l :: 0 <= k < l < i ==> children[k] != children[l]
    {
      var child := new EntryIterator(inputs[i].entries);
      children := children + [child];
    }
    var m := new MergingIterator(children);
    assert m.Runs() == RunsOf(inputs);
    RunEntries(inputs);
    input := DrainMerger(m);
  }

  /** A compaction from its pick to outputs that are ready to install, on one version. */
  method PickAndCompact(v: VersionSet, level: nat, seekFile: Option<Table>, horizon: SequenceNumber,
                        fileSize: seq<Entry> -> nat, numberOf: nat -> nat)
    returns (in0: seq<Table>, in1: seq<Table>, outs: seq<Table>)
    requires v.Valid() && level + 1 < NUM_LEVELS && horizon < MAX_SEQUENCE
    requires seekFile.Some? ==> seekFile.value in v.files[level]
    requires seekFile.None? ==> v.files[level] != []
    modifies v`compactPointer
    ensures v.Valid() && Safe(LevelsOf(v.files), level, SetOf(in0), SetOf(in1)) && Connected(SetOf(in0) + SetOf(in1))
    ensures ChosenBy(v.files[level], v.files[level + 1], level, v.maxFileSize, seekFile, old(v.compactPointer)[level],
                     in0, in1)
    ensures Ordered(SetOf(outs))
    ensures LevelEntries(SetOf(outs)) ==
        Kept(LevelEntries(SetOf(in0) + SetOf(in1)), horizon, BaseOf(LevelsOf(v.files), level))
    ensures forall i :: 0 <= i < |outs| ==> outs[i].number == numberOf(i)
  {
    var grandparents;
    in0, in1, grandparents := v.PickCompaction(level, seekFile);
    assert SetOf(in0 + in1) == SetOf(in0) + SetOf(in1);
    InputsDistinct(LevelsOf(v.files), level, SetOf(in0), SetOf(in1));
    InputsApart(LevelsOf(v.files), level, in0, in1);
    var input := MergeInputs(in0 + in1);
    outs := Compact(v.files, level, in0 + in1, grandparents, input, horizon, v.maxFileSize, fileSize, numberOf);
  }
}
