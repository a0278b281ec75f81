/** Installing the result of a flush or of a compaction keeps the level
    invariant; a flush that commits in the middle of a compaction keeps the
    compaction's inputs safe (db/db_impl.cc, CompactMemTable and
    InstallCompactionResults). */
module Commit {
  import opened InternalKeys
  import opened ReadSpec
  import opened Levels
  import opened Selection

  ghost function AfterFlush(levels: Levels, p: nat, f: Table): Levels
    requires p < |levels|
  {
    levels[p := levels[p] + {f}]
  }

  ghost function AfterCompaction(levels: Levels, level: nat, in0: set<Table>, in1: set<Table>, outs: set<Table>): Levels
    requires level + 1 < |levels|
  {
    levels[level := levels[level] - in0][level + 1 := levels[level + 1] - in1 + outs]
  }

  /** The placement a memtable flush is given: below level 0 only over levels it does not meet. */
  ghost predicate MayPlace(levels: Levels, p: int, f: Table)
    requires |levels| == NUM_LEVELS
  {
    0 <= p <= MAX_MEM_COMPACT_LEVEL &&
    (p > 0 ==> forall l, g :: 0 <= l <= p && g in levels[l] ==> !Overlaps(f, g))
  }

  /** A table built from data newer than everything in the levels. */
  ghost predicate NewestTable(levels: Levels, f: Table) {
    forall l, g :: 0 <= l < |levels| && g in levels[l] ==> Newer(f, g) && g.number < f.number
  }

  lemma PlacedBeside(levels: Levels, p: int, f: Table, l: int, g: Table)
    requires |levels| == NUM_LEVELS && MayPlace(levels, p, f) && p > 0 && 0 <= l <= p && g in levels[l]
    ensures !Overlaps(f, g) && !Overlaps(g, f) && (Before(f, g) || Before(g, f))
  {
    assert !Overlaps(f, g);
  }

  lemma FlushKeepsWellFormed(levels: Levels, p: nat, f: Table)
    requires WellFormed(levels) && MayPlace(levels, p, f) && NewestTable(levels, f)
    ensures WellFormed(AfterFlush(levels, p, f))
  {
    var after := AfterFlush(levels, p, f);
    FlushKeepsOrdered(levels, p, f);
    FlushKeepsLayers(levels, p, f);
    forall l, g | 0 <= l < NUM_LEVELS && g in after[l] ensures g in levels[l] || (l == p && g == f) {}
  }

  lemma FlushKeepsOrdered(levels: Levels, p: nat, f: Table)
    requires WellFormed(levels) && MayPlace(levels, p, f)
    ensures forall l :: 1 <= l < NUM_LEVELS ==> Ordered(AfterFlush(levels, p, f)[l])
  {
    if p > 0 {
      forall g | g in levels[p] ensures Before(f, g) || Before(g, f) {
        PlacedBeside(levels, p, f, p, g);
      }
    }
    forall l | 1 <= l < NUM_LEVELS ensures Ordered(AfterFlush(levels, p, f)[l]) {
      assert Ordered(levels[l]);
    }
  }

  lemma FlushKeepsLayers(levels: Levels, p: nat, f: Table)
    requires WellFormed(levels) && MayPlace(levels, p, f) && NewestTable(levels, f)
    ensures forall i, j :: 0 <= i < j < NUM_LEVELS ==>
      LevelNewer(AfterFlush(levels, p, f)[i], AfterFlush(levels, p, f)[j])
  {
    var after := AfterFlush(levels, p, f);
    forall i, j, g, h | 0 <= i < j < NUM_LEVELS && g in after[i] && h in after[j] ensures Newer(g, h) {
      assert LevelNewer(levels[i], levels[j]);
      if h == f && h !in levels[j] {
        PlacedBeside(levels, p, f, i, g);
        NoOverlapNewer(g, f);
      }
    }
  }

  /** A flush never lands inside the range being compacted: it is placed above
      the inputs or entirely beside them. */
  lemma FlushKeepsSafe(levels: Levels, level: nat, in0: set<Table>, in1: set<Table>, p: nat, f: Table)
    requires WellFormed(levels) && level + 1 < NUM_LEVELS
    requires MayPlace(levels, p, f) && NewestTable(levels, f)
    requires Safe(levels, level, in0, in1) && Connected(in0 + in1)
    ensures Safe(AfterFlush(levels, p, f), level, in0, in1)
    ensures NoStraddle(levels, level, in1) ==> NoStraddle(AfterFlush(levels, p, f), level, in1)
    ensures p > level ==> forall g :: g in in0 + in1 ==> !Overlaps(f, g)
  {
    var after := AfterFlush(levels, p, f);
    assert f !in in0 + in1;
    if p > level {
      forall g | g in in0 + in1 ensures !Overlaps(f, g) {
        if g in in0 { PlacedBeside(levels, p, f, level, g); } else { PlacedBeside(levels, p, f, level + 1, g); }
      }
      FlushBeside(in0 + in1, f);
    }
    assert after[level + 1] - in1 <= if p == level + 1 then levels[level + 1] - in1 + {f} else levels[level + 1] - in1;
    assert after[level] - in0 <= levels[level] - in0 + {f};
    assert forall g :: g in in0 ==> Newer(f, g);
  }

  lemma FlushBeside(s: set<Table>, f: Table)
    requires Connected(s) && forall g :: g in s ==> !Overlaps(f, g)
    ensures OneSide(f, s)
    ensures forall g :: g in s ==> Hi(f) < Lo(g) || Hi(g) < Lo(f)
  {
    Bounds(f);
    if a, b :| a in s && b in s && Hi(a) < Lo(f) && Hi(f) < Lo(b) {
      assert Hit(s, Lo(f)) by { Bounds(a); }
    }
  }

  ghost predicate MergeOf(outs: set<Table>, inputs: set<Table>) {
    forall t, e :: t in outs && e in t.entries ==> e in LevelEntries(inputs)
  }

  ghost predicate FreshNumbers(levels: Levels, inputs: set<Table>, outs: set<Table>) {
    (forall t, u :: t in outs && u in outs && t.number == u.number ==> t == u) &&
    (forall l, g, t :: 0 <= l < |levels| && g in levels[l] && g !in inputs && t in outs ==> g.number != t.number)
  }

  /** A merged entry comes from some input table. */
  lemma Origin(inputs: set<Table>, e: Entry) returns (h: Table)
    requires e in LevelEntries(inputs)
    ensures h in inputs && e in h.entries
  {
    h :| h in inputs && e in TableEntries(h);
  }

  lemma OutputBeside(g: Table, t: Table, inputs: set<Table>, outs: set<Table>)
    requires MergeOf(outs, inputs) && t in outs && OneSide(g, inputs)
    ensures Before(g, t) || Before(t, g)
  {
    assert t.entries[0] in t.entries && t.entries[|t.entries| - 1] in t.entries;
    var a := Origin(inputs, t.entries[0]);
    var b := Origin(inputs, t.entries[|t.entries| - 1]);
    InRange(a, t.entries[0]);
    InRange(b, t.entries[|t.entries| - 1]);
  }

  lemma OutputNewer(levels: Levels, level: nat, in0: set<Table>, in1: set<Table>, outs: set<Table>, j: int, t: Table,
                    g: Table)
    requires WellFormed(levels) && level + 1 < j < NUM_LEVELS && Safe(levels, level, in0, in1)
    requires MergeOf(outs, in0 + in1) && t in outs && g in levels[j]
    ensures Newer(t, g)
  {
    forall a, b | a in t.entries && b in g.entries && a.key.user == b.key.user ensures a.key.sequence > b.key.sequence {
      var h := Origin(in0 + in1, a);
      assert LevelNewer(levels[level], levels[j]) && LevelNewer(levels[level + 1], levels[j]);
      assert Newer(h, g);
    }
  }

  lemma OlderThanLeftBehind(levels: Levels, level: nat, in0: set<Table>, in1: set<Table>, outs: set<Table>, i: int,
                            f: Table, t: Table)
    requires WellFormed(levels) && 0 <= i <= level && level + 1 < NUM_LEVELS && Safe(levels, level, in0, in1)
    requires MergeOf(outs, in0 + in1) && t in outs && f in levels[i] && (i == level ==> f !in in0)
    ensures Newer(f, t)
  {
    forall a, b | a in f.entries && b in t.entries && a.key.user == b.key.user ensures a.key.sequence > b.key.sequence {
      var h := Origin(in0 + in1, b);
      assert LevelNewer(levels[i], levels[level + 1]) && (i < level ==> LevelNewer(levels[i], levels[level]));
      assert Newer(f, h);
    }
  }

  lemma CompactionKeepsWellFormed(levels: Levels, level: nat, in0: set<Table>, in1: set<Table>, outs: set<Table>)
    requires WellFormed(levels) && level + 1 < NUM_LEVELS && Safe(levels, level, in0, in1)
    requires MergeOf(outs, in0 + in1) && Ordered(outs) && FreshNumbers(levels, in0 + in1, outs)
    ensures WellFormed(AfterCompaction(levels, level, in0, in1, outs))
  {
    var after := AfterCompaction(levels, level, in0, in1, outs);
    forall g, t | g in levels[level + 1] - in1 && t in outs ensures Before(g, t) || Before(t, g) {
      OutputBeside(g, t, in0 + in1, outs);
    }
    forall l | 1 <= l < NUM_LEVELS ensures Ordered(after[l]) {
      assert Ordered(levels[l]);
    }
    forall i, j | 0 <= i < j < NUM_LEVELS ensures LevelNewer(after[i], after[j]) {
      assert LevelNewer(levels[i], levels[j]);
      forall f, g | f in after[i] && g in after[j] ensures Newer(f, g) {
        if g in outs && j == level + 1 {
          OlderThanLeftBehind(levels, level, in0, in1, outs, i, f, g);
        } else if f in outs && i == level + 1 {
          OutputNewer(levels, level, in0, in1, outs, j, f, g);
        }
      }
    }
    CompactionKeepsNumbers(levels, level, in0, in1, outs);
  }

  lemma CompactionKeepsNumbers(levels: Levels, level: nat, in0: set<Table>, in1: set<Table>, outs: set<Table>)
    requires WellFormed(levels) && level + 1 < NUM_LEVELS && Safe(levels, level, in0, in1)
    requires FreshNumbers(levels, in0 + in1, outs)
    ensures NumbersDistinct(AfterCompaction(levels, level, in0, in1, outs))
  {
    var after := AfterCompaction(levels, level, in0, in1, outs);
    forall i, f | 0 <= i < NUM_LEVELS && f in after[i]
      ensures (i == level + 1 && f in outs) || (f in levels[i] && f !in in0 + in1)
    {
      assert f in levels[i] && f !in outs ==> forall j :: 0 <= j < NUM_LEVELS && f in levels[j] ==> i == j;
    }
  }
}
