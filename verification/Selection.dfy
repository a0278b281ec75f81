/** What makes a set of compaction inputs safe to merge one level down, and why
    committing a compaction or a flush keeps the level invariant. */
module Selection {
  import opened InternalKeys
  import opened ReadSpec
  import opened Levels

  /** Every point between two tables of `s` lies inside some table of `s`. */
  ghost predicate Connected(s: set<Table>) {
    forall f, g, x: UserKey :: f in s && g in s && Lo(f) <= x <= Hi(g) ==> Hit(s, x)
  }

  /** `f` meets the smallest interval that covers `s`. */
  ghost predicate TouchesHull(s: set<Table>, f: Table) {
    (exists g :: g in s && Lo(g) <= Hi(f)) && (exists g :: g in s && Lo(f) <= Hi(g))
  }

  /** No gaps: a table between two selected ones is selected. */
  ghost predicate Convex(level: set<Table>, s: set<Table>) {
    forall f, g, h :: f in s && h in s && g in level && Before(f, g) && Before(g, h) ==> g in s
  }

  ghost predicate IsMaxKey(s: set<Table>, k: InternalKey) {
    (forall f :: f in s ==> AtMost(Largest(f), k)) && exists f :: f in s && Largest(f) == k
  }

  /** `f` continues the user key that `k` ends with. */
  predicate IsBoundary(f: Table, k: InternalKey) {
    Less(k, Smallest(f)) && Lo(f) == k.user
  }

  ghost predicate OneSide(g: Table, s: set<Table>) {
    (forall f :: f in s ==> Before(g, f)) || (forall f :: f in s ==> Before(f, g))
  }

  /** No unselected table of the level reaches into the range of the selection. */
  ghost predicate Separate(level: set<Table>, s: set<Table>) {
    forall f :: f in level - s ==> !TouchesHull(s, f)
  }

  /** A selection with no gaps: at level 0 all tables its range meets, below a run of neighbours. */
  ghost predicate Gapless(level: set<Table>, l: int, s: set<Table>) {
    s != {} && s <= level && if l == 0 then Separate(level, s) else Convex(level, s)
  }

  /** The inputs `in0` of `level` and `in1` of `level + 1` can be replaced by a merge at `level + 1`. */
  ghost predicate Safe(levels: Levels, level: int, in0: set<Table>, in1: set<Table>)
    requires 0 <= level && level + 1 < |levels|
  {
    && in0 != {} && in0 <= levels[level] && in1 <= levels[level + 1]
    && LevelNewer(levels[level] - in0, in0)
    && (forall f, g :: f in in0 && g in levels[level + 1] - in1 ==> !Overlaps(f, g))
    && (forall g :: g in levels[level + 1] - in1 ==> OneSide(g, in0 + in1))
  }

  /** No unselected table of `level + 1` begins with the user key that ends a selected one. */
  ghost predicate NoStraddle(levels: Levels, level: int, in1: set<Table>)
    requires 0 <= level && level + 1 < |levels|
  {
    forall f, g :: f in in1 && g in levels[level + 1] - in1 && Before(f, g) ==> Hi(f) != Lo(g)
  }

  // ---- Properties of selections -------------------------------------------

  lemma ConnectedGrow(s: set<Table>, t: set<Table>)
    requires Connected(s) && forall f :: f in t ==> TouchesHull(s, f)
    ensures Connected(s + t)
  {
    forall f, g, x: UserKey | f in s + t && g in s + t && Lo(f) <= x <= Hi(g)
      ensures Hit(s + t, x)
    {
      if a, b :| a in s && b in s && Lo(a) <= x <= Hi(b) {
        assert Hit(s, x);
      } else if a :| a in s && Lo(a) <= x {
        // x is beyond every table of s
        assert g in t;
        assert Lo(g) <= x <= Hi(g);
      } else {
        assert f in t;
        assert Lo(f) <= x <= Hi(f);
      }
    }
  }

  /** Adding the first boundary table keeps a selection connected. */
  lemma AddBoundaryKeepsConnected(s: set<Table>, k: InternalKey, f: Table, others: set<Table>)
    requires IsMaxKey(s, k) && IsBoundary(f, k)
    ensures f !in s && IsMaxKey(s + {f}, Largest(f))
    ensures Connected(others + s) ==> Connected(others + (s + {f}))
  {
    Bounds(f);
    assert f in s + {f};
    var m :| m in s && Largest(m) == k;
    Bounds(m);
    if Connected(others + s) {
      assert m in others + s && TouchesHull(others + s, f);
      ConnectedGrow(others + s, {f});
      assert others + s + {f} == others + (s + {f});
    }
  }

  /** ... and gapless, because it is the first one. */
  lemma AddBoundaryKeepsConvex(level: set<Table>, s: set<Table>, k: InternalKey, f: Table)
    requires IsMaxKey(s, k) && IsBoundary(f, k) && f in level
    requires forall g :: g in level && IsBoundary(g, k) ==> AtMost(Smallest(f), Smallest(g))
    requires Ordered(level) && s <= level && Convex(level, s)
    ensures Convex(level, s + {f})
  {
    var m :| m in s && Largest(m) == k;
    Bounds(f);
    Bounds(m);
    forall a, g, h | a in s + {f} && h in s + {f} && g in level && Before(a, g) && Before(g, h)
      ensures g in s + {f}
    {
      Bounds(a);
      Bounds(g);
      Bounds(h);
      assert g == m || Before(g, m) || Before(m, g);
    }
  }

  /** A gapless selection without a boundary table leaves only newer entries behind. */
  lemma LeftBehindIsNewer(level: set<Table>, s: set<Table>, k: InternalKey)
    requires Ordered(level) && Distinct(LevelEntries(level)) && s <= level
    requires Convex(level, s) && IsMaxKey(s, k)
    requires forall g :: g in level ==> !IsBoundary(g, k)
    ensures LevelNewer(level - s, s)
  {
    forall g, f | g in level - s && f in s ensures Newer(g, f) {
      if Before(g, f) {
        EarlierIsNewer(level, g, f);
      } else {
        LaterSharesNoKey(level, s, k, f, g);
        NoOverlapNewer(g, f);
      }
    }
  }

  lemma LaterSharesNoKey(level: set<Table>, s: set<Table>, k: InternalKey, f: Table, g: Table)
    requires Ordered(level) && s <= level && Convex(level, s) && IsMaxKey(s, k)
    requires f in s && g in level - s && Before(f, g) && !IsBoundary(g, k)
    ensures Hi(f) < Lo(g)
  {
    var m :| m in s && Largest(m) == k;
    Bounds(m);
    Bounds(f);
    assert Before(g, m) || Before(m, g);
    assert !Before(g, m);
  }

  /** Selecting every table of the next level that meets the range of `in0` makes the pair safe. */
  lemma OverlapMakesSafe(levels: Levels, level: int, in0: set<Table>, in1: set<Table>, first: Table, last: Table)
    requires WellFormed(levels) && 0 <= level && level + 1 < NUM_LEVELS
    requires in0 <= levels[level] && in1 <= levels[level + 1]
    requires first in in0 && last in in0
    requires forall f :: f in in0 ==> Lo(first) <= Lo(f) && Hi(f) <= Hi(last)
    requires forall g :: g in levels[level + 1] ==> (g in in1 <==> Lo(first) <= Hi(g) && Lo(g) <= Hi(last))
    requires LevelNewer(levels[level] - in0, in0)
    ensures Safe(levels, level, in0, in1)
  {
    forall g | g in levels[level + 1] - in1 ensures OneSide(g, in0 + in1) {
      InRange(g, g.entries[0]);
      forall f | f in in0 + in1 ensures if Hi(g) < Lo(first) then Before(g, f) else Before(f, g) {
        InRange(f, f.entries[0]);
        assert f in in1 ==> Before(g, f) || Before(f, g);
      }
    }
  }
}
