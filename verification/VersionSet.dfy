/** Choosing what to compact and where to put a flushed memtable
    (db/version_set.cc). */
module VersionSets {
  import opened InternalKeys
  import opened ReadSpec
  import opened Sequences
  import opened Levels
  import opened Selection
  import opened VersionQueries
  import opened Commit

  function TotalFileSize(files: seq<Table>): nat {
    if files == [] then 0 else files[0].size + TotalFileSize(files[1..])
  }

  /** `lo` and `hi` are the ends of the interval that covers `files`. */
  ghost predicate IsRange(files: seq<Table>, lo: InternalKey, hi: InternalKey) {
    (forall f :: f in files ==> AtMost(lo, Smallest(f)) && AtMost(Largest(f), hi)) &&
    (exists f :: f in files && Smallest(f) == lo) && (exists f :: f in files && Largest(f) == hi)
  }

  /** The least and the greatest internal key of a nonempty list of files. */
  method GetRange(inputs: seq<Table>) returns (smallest: InternalKey, largest: InternalKey)
    requires inputs != []
    ensures IsRange(inputs, smallest, largest) && smallest.user <= largest.user
  {
    Bounds(inputs[0]);
    smallest, largest := Smallest(inputs[0]), Largest(inputs[0]);
    for i := 1 to |inputs|
      invariant forall j :: 0 <= j < i ==> AtMost(smallest, Smallest(inputs[j])) && AtMost(Largest(inputs[j]), largest)
      invariant exists f :: f in inputs && Smallest(f) == smallest
      invariant exists f :: f in inputs && Largest(f) == largest
      invariant smallest.user <= largest.user
    {
      var f := inputs[i];
      assert f in inputs;
      if Less(Smallest(f), smallest) {
        smallest := Smallest(f);
      }
      if Less(largest, Largest(f)) {
        largest := Largest(f);
      }
    }
  }

  method FindLargestKey(files: seq<Table>) returns (largest: Option<InternalKey>)
    ensures largest.None? <==> files == []
    ensures largest.Some? ==> IsMaxKey(SetOf(files), largest.value)
  {
    if files == [] {
      return None;
    }
    var key := Largest(files[0]);
    assert files[0] in SetOf(files);
    for i := 1 to |files|
      invariant forall j :: 0 <= j < i ==> AtMost(Largest(files[j]), key)
      invariant exists f :: f in SetOf(files) && Largest(f) == key
    {
      if Less(key, Largest(files[i])) {
        key := Largest(files[i]);
        assert files[i] in SetOf(files);
      }
    }
    largest := Some(key);
  }

  method FindSmallestBoundaryFile(levelFiles: seq<Table>, largestKey: InternalKey) returns (r: Option<Table>)
    ensures r.None? ==> forall f :: f in levelFiles ==> !IsBoundary(f, largestKey)
    ensures r.Some? ==> r.value in levelFiles && IsBoundary(r.value, largestKey)
    ensures r.Some? ==>
      forall f :: f in levelFiles && IsBoundary(f, largestKey) ==> AtMost(Smallest(r.value), Smallest(f))
  {
    r := None;
    for i := 0 to |levelFiles|
      invariant r.None? ==> forall j :: 0 <= j < i ==> !IsBoundary(levelFiles[j], largestKey)
      invariant r.Some? ==> r.value in levelFiles && IsBoundary(r.value, largestKey)
      invariant r.Some? ==>
        forall j :: 0 <= j < i && IsBoundary(levelFiles[j], largestKey) ==>
          AtMost(Smallest(r.value), Smallest(levelFiles[j]))
    {
      var f := levelFiles[i];
      if Less(largestKey, Smallest(f)) && Lo(f) == largestKey.user {
        if r.None? || Less(Smallest(f), Smallest(r.value)) {
          r := Some(f);
        }
      }
    }
  }

  ghost function LaterFiles(files: seq<Table>, key: InternalKey): set<int> {
    set i | 0 <= i < |files| && Less(key, Smallest(files[i]))
  }

  /** `f` is the least boundary file of the largest key of `s`. */
  ghost predicate AddsBoundary(levelFiles: seq<Table>, s: seq<Table>, f: Table) {
    f in levelFiles && exists key ::
      && IsMaxKey(SetOf(s), key) && IsBoundary(f, key)
      && forall g :: g in levelFiles && IsBoundary(g, key) ==> AtMost(Smallest(f), Smallest(g))
  }

  /** What follows `picked` are boundary files, each of what is before it. */
  ghost predicate AddsBoundaries(levelFiles: seq<Table>, picked: seq<Table>, all: seq<Table>) {
    picked <= all && forall i :: |picked| <= i < |all| ==> AddsBoundary(levelFiles, all[..i], all[i])
  }

  lemma AddOneBoundary(levelFiles: seq<Table>, picked: seq<Table>, all: seq<Table>, key: InternalKey, f: Table)
    requires AddsBoundaries(levelFiles, picked, all) && IsMaxKey(SetOf(all), key)
    requires f in levelFiles && IsBoundary(f, key)
    requires forall g :: g in levelFiles && IsBoundary(g, key) ==> AtMost(Smallest(f), Smallest(g))
    ensures AddsBoundaries(levelFiles, picked, all + [f])
  {
    assert AddsBoundary(levelFiles, all, f);
    forall i | |picked| <= i < |all + [f]| ensures AddsBoundary(levelFiles, (all + [f])[..i], (all + [f])[i]) {
      assert (all + [f])[..i] == all[..i];
      if i == |all| { assert all[..i] == all; }
    }
  }

  /** One turn of the search: what adding the boundary file `f` of `key` keeps. */
  lemma OneMoreBoundary(levelFiles: seq<Table>, level: nat, all: seq<Table>, key: InternalKey, f: Table,
                        others: set<Table>)
    requires level > 0 ==> Ordered(SetOf(levelFiles))
    requires IsMaxKey(SetOf(all), key) && f in levelFiles && IsBoundary(f, key)
    requires forall g :: g in levelFiles && IsBoundary(g, key) ==> AtMost(Smallest(f), Smallest(g))
    ensures f !in all && IsMaxKey(SetOf(all + [f]), Largest(f))
    ensures LaterFiles(levelFiles, Largest(f)) < LaterFiles(levelFiles, key)
    ensures Gapless(SetOf(levelFiles), level, SetOf(all)) ==> Gapless(SetOf(levelFiles), level, SetOf(all + [f]))
    ensures Connected(others + SetOf(all)) ==> Connected(others + SetOf(all + [f]))
  {
    assert SetOf(all + [f]) == SetOf(all) + {f};
    AddBoundaryKeepsConnected(SetOf(all), key, f, others);
    AddBoundaryKeepsGapless(SetOf(levelFiles), level, SetOf(all), key, f);
    Bounds(f);
    var k :| 0 <= k < |levelFiles| && levelFiles[k] == f;
    assert k in LaterFiles(levelFiles, key) && k !in LaterFiles(levelFiles, Largest(f));
  }

  /** `all` is `picked` and boundary files, and as good a selection as `picked` is. */
  ghost predicate Completes(levelFiles: seq<Table>, level: nat, others: set<Table>, picked: seq<Table>,
                            all: seq<Table>)
  {
    && AddsBoundaries(levelFiles, picked, all) && (NoDuplicates(picked) ==> NoDuplicates(all))
    && (forall f :: f in all ==> f in picked || f in levelFiles)
    && (Gapless(SetOf(levelFiles), level, SetOf(picked)) ==> Gapless(SetOf(levelFiles), level, SetOf(all)))
    && (Connected(others + SetOf(picked)) ==> Connected(others + SetOf(all)))
  }

  lemma CompletesOn(levelFiles: seq<Table>, level: nat, others: set<Table>, picked: seq<Table>, all: seq<Table>,
                    key: InternalKey, f: Table)
    requires level > 0 ==> Ordered(SetOf(levelFiles))
    requires Completes(levelFiles, level, others, picked, all) && IsMaxKey(SetOf(all), key)
    requires f in levelFiles && IsBoundary(f, key)
    requires forall g :: g in levelFiles && IsBoundary(g, key) ==> AtMost(Smallest(f), Smallest(g))
    ensures Completes(levelFiles, level, others, picked, all + [f]) && IsMaxKey(SetOf(all + [f]), Largest(f))
    ensures LaterFiles(levelFiles, Largest(f)) < LaterFiles(levelFiles, key)
  {
    OneMoreBoundary(levelFiles, level, all, key, f, others);
    AddOneBoundary(levelFiles, picked, all, key, f);
  }

  /** Extends a selection by the boundary files of its largest key until none is left. */
  method AddBoundaryInputs(levelFiles: seq<Table>, compactionFiles: seq<Table>, ghost level: nat,
                           ghost others: set<Table>)
    returns (all: seq<Table>, ghost largest: Option<InternalKey>)
    requires level > 0 ==> Ordered(SetOf(levelFiles))
    ensures Completes(levelFiles, level, others, compactionFiles, all) && (compactionFiles == [] ==> all == [])
    ensures compactionFiles != [] ==>
      largest.Some? && IsMaxKey(SetOf(all), largest.value) && forall f :: f in levelFiles ==>
          !IsBoundary(f, largest.value)
  {
    all := compactionFiles;
    var largestKey := FindLargestKey(all);
    largest := largestKey;
    if largestKey.None? {
      return;
    }
    var key := largestKey.value;
    var continueSearching := true;
    while continueSearching
      invariant Completes(levelFiles, level, others, compactionFiles, all) && IsMaxKey(SetOf(all), key)
      invariant !continueSearching ==> forall f :: f in levelFiles ==> !IsBoundary(f, key)
      decreases continueSearching, LaterFiles(levelFiles, key)
    {
      var boundary := FindSmallestBoundaryFile(levelFiles, key);
      if boundary.Some? {
        var f := boundary.value;
        CompletesOn(levelFiles, level, others, compactionFiles, all, key, f);
        all := all + [f];
        key := Largest(f);
      } else {
        continueSearching := false;
      }
    }
    largest := Some(key);
  }

  lemma AddBoundaryKeepsGapless(level: set<Table>, l: nat, s: set<Table>, k: InternalKey, f: Table)
    requires IsMaxKey(s, k) && IsBoundary(f, k) && f in level
    requires forall g :: g in level && IsBoundary(g, k) ==> AtMost(Smallest(f), Smallest(g))
    requires l > 0 ==> Ordered(level)
    ensures Gapless(level, l, s) ==> Gapless(level, l, s + {f})
  {
    if Gapless(level, l, s) {
      if l == 0 {
        // At level 0 there is nothing to add: the range already met every such file.
        AddBoundaryKeepsConnected(s, k, f, {});
        var m :| m in s && Largest(m) == k;
        Bounds(f);
        Bounds(m);
        assert TouchesHull(s, f);
      } else {
        AddBoundaryKeepsConvex(level, s, k, f);
      }
    }
  }

  // ---- SetupOtherInputs and PickCompaction --------------------------------

  ghost function Meeting(files: seq<Table>, lo: InternalKey, hi: InternalKey): seq<Table> {
    Touching(files, |files|, Some(lo.user), Some(hi.user))
  }

  lemma MeetingIs(files: seq<Table>, lo: InternalKey, hi: InternalKey)
    ensures forall f :: f in Meeting(files, lo, hi) <==> f in files && Touches(f, Some(lo.user), Some(hi.user))
  {
    TouchingAll(files, |files|, Some(lo.user), Some(hi.user));
    assert files[..|files|] == files;
  }

  lemma PairIsSafe(v: Files, level: nat, s0: seq<Table>, s1: seq<Table>, lo: InternalKey, hi: InternalKey)
    requires ValidVersion(v) && Distinct(AllEntries(LevelsOf(v))) && level + 1 < NUM_LEVELS
    requires Gapless(SetOf(v[level]), level, SetOf(s0)) && IsRange(s0, lo, hi)
    requires forall f :: f in v[level] ==> !IsBoundary(f, hi)
    requires s1 == Meeting(v[level + 1], lo, hi)
    ensures Safe(LevelsOf(v), level, SetOf(s0), SetOf(s1))
  {
    LeftBehind(v, level, s0, hi);
    var first, last := MeetingRange(v[level + 1], s0, s1, lo, hi);
    OverlapMakesSafe(LevelsOf(v), level, SetOf(s0), SetOf(s1), first, last);
  }

  lemma MeetingRange(files: seq<Table>, s0: seq<Table>, s1: seq<Table>, lo: InternalKey, hi: InternalKey)
    returns (first: Table, last: Table)
    requires IsRange(s0, lo, hi) && s1 == Meeting(files, lo, hi)
    ensures first in SetOf(s0) && last in SetOf(s0) && SetOf(s1) <= SetOf(files)
    ensures forall f :: f in SetOf(s0) ==> Lo(first) <= Lo(f) && Hi(f) <= Hi(last)
    ensures forall g :: g in SetOf(files) ==> (g in SetOf(s1) <==> Lo(first) <= Hi(g) && Lo(g) <= Hi(last))
  {
    MeetingIs(files, lo, hi);
    first :| first in s0 && Smallest(first) == lo;
    last :| last in s0 && Largest(last) == hi;
  }

  lemma LevelOf(v: Files, l: nat)
    requires ValidVersion(v) && l < NUM_LEVELS
    ensures LevelsOf(v)[l] == SetOf(v[l]) && (l > 0 ==> Ordered(SetOf(v[l])))
    ensures Distinct(AllEntries(LevelsOf(v))) ==> Distinct(LevelEntries(SetOf(v[l])))
  {
    assert LevelsOf(v)[l] == SetOf(v[l]);
    forall e | e in LevelEntries(SetOf(v[l])) ensures e in AllEntries(LevelsOf(v)) {}
  }

  lemma LeftBehind(v: Files, level: nat, s0: seq<Table>, hi: InternalKey)
    requires ValidVersion(v) && Distinct(AllEntries(LevelsOf(v))) && level < NUM_LEVELS
    requires Gapless(SetOf(v[level]), level, SetOf(s0)) && IsMaxKey(SetOf(s0), hi)
    requires forall f :: f in v[level] ==> !IsBoundary(f, hi)
    ensures LevelNewer(LevelsOf(v)[level] - SetOf(s0), SetOf(s0))
  {
    var all := SetOf(v[level]);
    LevelOf(v, level);
    if level == 0 {
      forall f, g | f in all - SetOf(s0) && g in SetOf(s0) ensures Newer(f, g) {
        assert Overlaps(f, g) ==> TouchesHull(SetOf(s0), f);
        NoOverlapNewer(f, g);
      }
    } else {
      LeftBehindIsNewer(all, SetOf(s0), hi);
    }
  }

  /** Picking up the next level's files in range keeps the inputs connected. */
  lemma PairIsConnected(s0: set<Table>, files: seq<Table>, s1: seq<Table>, lo: InternalKey, hi: InternalKey,
                        others: set<Table>)
    requires Connected(others + s0) && s1 == Meeting(files, lo, hi)
    requires (exists f :: f in others + s0 && Smallest(f) == lo) && exists f :: f in others + s0 && Largest(f) == hi
    ensures Connected(others + s0 + SetOf(s1))
  {
    MeetingIs(files, lo, hi);
    forall f | f in SetOf(s1) ensures TouchesHull(others + s0, f) {}
    ConnectedGrow(others + s0, SetOf(s1));
  }

  /** What GetOverlappingInputs promises about the files it picks in `level`. */
  ghost predicate PickedRange(files: seq<Table>, level: nat, start: InternalKey, limit: InternalKey,
                              lo: Option<UserKey>, hi: Option<UserKey>) {
    if level > 0 then lo == Some(start.user) && hi == Some(limit.user)
    else WiderRange(Some(start.user), Some(limit.user), lo, hi) && ClosedRange(files, lo, hi)
  }

  /** Everything in `level` that meets the range of a pair of inputs is again
      gapless and contains the old inputs ... */
  lemma ExpandedGapless(v: Files, level: nat, in0: seq<Table>, in1: seq<Table>, start: InternalKey, limit: InternalKey,
                        expanded: seq<Table>, lo: Option<UserKey>, hi: Option<UserKey>)
    requires level < |v| && in0 != [] && SetOf(in0) <= SetOf(v[level]) && IsRange(in0 + in1, start, limit)
    requires PickedRange(v[level], level, start, limit, lo, hi) && expanded == Touching(v[level], |v[level]|, lo, hi)
    ensures Gapless(SetOf(v[level]), level, SetOf(expanded)) && SetOf(in0) <= SetOf(expanded)
  {
    ExpandedSet(v[level], in0, in1, start, limit, expanded, lo, hi);
    if level == 0 {
      forall f | f in SetOf(v[level]) - SetOf(expanded) ensures !TouchesHull(SetOf(expanded), f) {}
    } else {
      NeighboursConvex(v[level], expanded, start.user, limit.user);
    }
  }

  /** ... and if the pair was connected, it stays so. */
  lemma ExpandedConnected(v: Files, level: nat, in0: seq<Table>, in1: seq<Table>, start: InternalKey,
                          limit: InternalKey,
                          expanded: seq<Table>, lo: Option<UserKey>, hi: Option<UserKey>)
    requires level < |v| && in0 != [] && SetOf(in0) <= SetOf(v[level]) && IsRange(in0 + in1, start, limit)
    requires PickedRange(v[level], level, start, limit, lo, hi) && expanded == Touching(v[level], |v[level]|, lo, hi)
    requires Connected(SetOf(in1) + SetOf(in0))
    requires level == 0 ==> Covers(SetOf(in1) + SetOf(expanded), lo, hi)
    ensures Connected(SetOf(in1) + SetOf(expanded))
  {
    ExpandedSet(v[level], in0, in1, start, limit, expanded, lo, hi);
    if level == 0 {
      ExpandedConnected0(v[level], in0, in1, start, limit, expanded, lo, hi);
    } else {
      HullOf(in0, in1, start, limit);
      forall f | f in SetOf(expanded) ensures TouchesHull(SetOf(in1) + SetOf(in0), f) {}
      ConnectedGrow(SetOf(in1) + SetOf(in0), SetOf(expanded));
      assert SetOf(in1) + SetOf(in0) + SetOf(expanded) == SetOf(in1) + SetOf(expanded);
    }
  }

  lemma HullOf(in0: seq<Table>, in1: seq<Table>, start: InternalKey, limit: InternalKey)
    requires IsRange(in0 + in1, start, limit)
    ensures exists f :: f in SetOf(in1) + SetOf(in0) && Smallest(f) == start
    ensures exists f :: f in SetOf(in1) + SetOf(in0) && Largest(f) == limit
  {
    var f :| f in in0 + in1 && Smallest(f) == start;
    var g :| g in in0 + in1 && Largest(g) == limit;
    assert f in SetOf(in1) + SetOf(in0) && g in SetOf(in1) + SetOf(in0);
  }

  lemma ExpandedSet(files: seq<Table>, in0: seq<Table>, in1: seq<Table>, start: InternalKey, limit: InternalKey,
                    expanded: seq<Table>, lo: Option<UserKey>, hi: Option<UserKey>)
    requires in0 != [] && SetOf(in0) <= SetOf(files) && IsRange(in0 + in1, start, limit)
    requires WiderRange(Some(start.user), Some(limit.user), lo, hi) && expanded == Touching(files, |files|, lo, hi)
    ensures forall f :: f in expanded <==> f in files && Touches(f, lo, hi)
    ensures SetOf(in0) <= SetOf(expanded) && SetOf(expanded) != {} && SetOf(expanded) <= SetOf(files)
  {
    TouchingAll(files, |files|, lo, hi);
    assert files[..|files|] == files;
    forall f | f in in0 ensures f in expanded {
      assert f in in0 + in1 && f in SetOf(in0) && f in SetOf(files);
      Bounds(f);
    }
    assert in0[0] in SetOf(expanded);
  }

  lemma NeighboursConvex(files: seq<Table>, s: seq<Table>, lo: UserKey, hi: UserKey)
    requires forall f :: f in s <==> f in files && Touches(f, Some(lo), Some(hi))
    ensures Convex(SetOf(files), SetOf(s))
  {
    forall f, g, h | f in SetOf(s) && h in SetOf(s) && g in SetOf(files) && Before(f, g) && Before(g, h)
      ensures g in SetOf(s)
    {
      Bounds(g);
    }
  }

  lemma ExpandedConnected0(files: seq<Table>, in0: seq<Table>, in1: seq<Table>, start: InternalKey, limit: InternalKey,
                           expanded: seq<Table>, lo: Option<UserKey>, hi: Option<UserKey>)
    requires IsRange(in0 + in1, start, limit) && WiderRange(Some(start.user), Some(limit.user), lo, hi)
    requires forall f :: f in expanded <==> f in files && Touches(f, lo, hi)
    requires ClosedRange(files, lo, hi) && Covers(SetOf(in1) + SetOf(expanded), lo, hi)
    ensures Connected(SetOf(in1) + SetOf(expanded))
  {
    forall f | f in SetOf(in1) + SetOf(expanded) ensures Within(f, lo, hi) {
      assert f in in1 ==> f in in0 + in1;
    }
    forall f, g, x: UserKey | f in SetOf(in1) + SetOf(expanded) && g in SetOf(in1) + SetOf(expanded)
        && Lo(f) <= x <= Hi(g)
      ensures Hit(SetOf(in1) + SetOf(expanded), x)
    {
      assert InRangeOf(x, lo, hi);
    }
  }

  /** A connected set covers the interval between its ends. */
  lemma ConnectedCovers(s: set<Table>, lo: InternalKey, hi: InternalKey)
    requires Connected(s) && (exists f :: f in s && Smallest(f) == lo) && (exists f :: f in s && Largest(f) == hi)
    ensures Covers(s, Some(lo.user), Some(hi.user))
  {
    var f :| f in s && Smallest(f) == lo;
    var g :| g in s && Largest(g) == hi;
    forall x: UserKey | InRangeOf(x, Some(lo.user), Some(hi.user)) ensures Hit(s, x) {
      assert Lo(f) <= x <= Hi(g);
    }
  }

  /** A wider range picks up at least the same files; the same number means the same files. */
  lemma {:induction false} WiderSameCount(files: seq<Table>, n: nat, lo: Option<UserKey>, hi: Option<UserKey>,
                                          lo': Option<UserKey>, hi': Option<UserKey>)
    requires n <= |files| && WiderRange(lo, hi, lo', hi')
    ensures |Touching(files, n, lo, hi)| <= |Touching(files, n, lo', hi')|
    ensures |Touching(files, n, lo, hi)| == |Touching(files, n, lo', hi')| ==>
      Touching(files, n, lo, hi) == Touching(files, n, lo', hi')
  {
    if n > 0 {
      WiderSameCount(files, n - 1, lo, hi, lo', hi');
    }
  }

  /** The files of a level that GetOverlappingInputs gives for a range: at level 0 those of the least range that
      no file reaches out of. */
  ghost predicate OverlapsOf(files: seq<Table>, level: nat, start: InternalKey, limit: InternalKey, s: seq<Table>) {
    exists lo, hi ::
      s == Touching(files, |files|, lo, hi) && LeastRange(files, level, Some(start.user), Some(limit.user), lo, hi)
  }

  ghost predicate LeastRange(files: seq<Table>, level: nat, start: Option<UserKey>, limit: Option<UserKey>,
                             lo: Option<UserKey>, hi: Option<UserKey>) {
    if level > 0 then lo == start && hi == limit
    else
      && WiderRange(start, limit, lo, hi) && ClosedRange(files, lo, hi)
      && forall a, b :: WiderRange(start, limit, a, b) && ClosedRange(files, a, b) ==> WiderRange(lo, hi, a, b)
  }

  /** `all` is `picked` and boundary files, least first, until none is left. */
  ghost predicate Completed(levelFiles: seq<Table>, picked: seq<Table>, all: seq<Table>) {
    && AddsBoundaries(levelFiles, picked, all)
    && exists key :: IsMaxKey(SetOf(all), key) && NoBoundary(levelFiles, key)
  }

  ghost predicate NoBoundary(levelFiles: seq<Table>, key: InternalKey) {
    forall f :: f in levelFiles ==> !IsBoundary(f, key)
  }

  /** All of the level in the range of `inputs`, completed. */
  ghost predicate Widened(levelFiles: seq<Table>, level: nat, inputs: seq<Table>, wide: seq<Table>) {
    exists start, limit, over ::
      IsRange(inputs, start, limit) && OverlapsOf(levelFiles, level, start, limit, over)
        && Completed(levelFiles, over, wide)
  }

  ghost predicate MeetsAsMany(next: seq<Table>, wide: seq<Table>, n: nat) {
    exists start, limit :: IsRange(wide, start, limit) && |Meeting(next, start, limit)| == n
  }

  /** The wider inputs are taken if there are more of them, they are not too big, and no further file of the
      next level comes with them. */
  ghost predicate WorthGrowing(next: seq<Table>, pick: seq<Table>, meeting: seq<Table>, wide: seq<Table>,
                               maxFileSize: nat)
  {
    && meeting != [] && |wide| > |pick| && TotalFileSize(meeting) + TotalFileSize(wide) < 25 * maxFileSize
    && MeetsAsMany(next, wide, |meeting|)
  }

  lemma RangeUnique(s: seq<Table>, lo: InternalKey, hi: InternalKey, lo': InternalKey, hi': InternalKey)
    requires IsRange(s, lo, hi) && IsRange(s, lo', hi')
    ensures lo == lo' && hi == hi'
  {
  }

  lemma MeetsAsManyIs(next: seq<Table>, wide: seq<Table>, n: nat, start: InternalKey, limit: InternalKey)
    requires IsRange(wide, start, limit)
    ensures MeetsAsMany(next, wide, n) <==> |Meeting(next, start, limit)| == n
  {
    forall a, b | IsRange(wide, a, b) ensures a == start && b == limit { RangeUnique(wide, start, limit, a, b); }
  }

  /** The place is past the compaction pointer. */
  predicate PastPointer(pointer: Option<InternalKey>, f: Table) {
    pointer.None? || Less(pointer.value, Largest(f))
  }

  /** The first file past the pointer, else the first of the level. */
  ghost predicate FirstPast(levelFiles: seq<Table>, pointer: Option<InternalKey>, f: Table) {
    || (exists i :: 0 <= i < |levelFiles| && f == levelFiles[i] && PastPointer(pointer, f)
          && forall k :: 0 <= k < i ==> !PastPointer(pointer, levelFiles[k]))
    || (levelFiles != [] && f == levelFiles[0]
          && forall k :: 0 <= k < |levelFiles| ==> !PastPointer(pointer, levelFiles[k]))
  }

  /** `in1` is what meets the range of the completed pick; `in0` is the completed pick, or all of the level in
      the range of both, completed as well, if that is worth it. */
  ghost predicate ChosenFrom(here: seq<Table>, next: seq<Table>, level: nat, maxFileSize: nat, picked: seq<Table>,
                             pick: seq<Table>, wide: seq<Table>, in0: seq<Table>, in1: seq<Table>)
  {
    && Completed(here, picked, pick) && MeetsPick(next, pick, in1)
    && (in1 != [] ==> Widened(here, level, pick + in1, wide))
    && in0 == if WorthGrowing(next, pick, in1, wide, maxFileSize) then wide else pick
  }

  ghost predicate MeetsPick(next: seq<Table>, pick: seq<Table>, in1: seq<Table>) {
    exists lo, hi :: IsRange(pick, lo, hi) && in1 == Meeting(next, lo, hi)
  }

  /** The inputs SetupOtherInputs makes of the files picked. */
  ghost predicate Chosen(here: seq<Table>, next: seq<Table>, level: nat, maxFileSize: nat, picked: seq<Table>,
                         in0: seq<Table>, in1: seq<Table>)
  {
    exists pick, wide :: ChosenFrom(here, next, level, maxFileSize, picked, pick, wide, in0, in1)
  }

  lemma ChosenOnce(here: seq<Table>, next: seq<Table>, level: nat, maxFileSize: nat, picked: seq<Table>,
                   in0: seq<Table>, in1: seq<Table>)
    requires Chosen(here, next, level, maxFileSize, picked, in0, in1) && InOrder(next)
    ensures NoDuplicates(in1)
  {
    var pick, wide :| ChosenFrom(here, next, level, maxFileSize, picked, pick, wide, in0, in1);
    var lo, hi :| IsRange(pick, lo, hi) && in1 == Meeting(next, lo, hi);
    TouchingOnce(next, |next|, Some(lo.user), Some(hi.user));
  }

  /** What a compaction of `f` starts from: at level 0 all that meets its range, and so on. */
  ghost predicate StartsFrom(here: seq<Table>, level: nat, f: Table, inputs: seq<Table>) {
    if level == 0 then OverlapsOf(here, 0, Smallest(f), Largest(f), inputs) else inputs == [f]
  }

  /** The inputs are those of the file an automatic compaction starts from. */
  ghost predicate ChosenFor(here: seq<Table>, next: seq<Table>, level: nat, maxFileSize: nat, f: Table,
                            in0: seq<Table>, in1: seq<Table>)
  {
    f in in0 && exists inputs :: StartsFrom(here, level, f, inputs)
                             && Chosen(here, next, level, maxFileSize, inputs, in0, in1)
  }

  /** The file started from is the one sought too often, or else the first past the compaction pointer. */
  ghost predicate ChosenBy(here: seq<Table>, next: seq<Table>, level: nat, maxFileSize: nat, seekFile: Option<Table>,
                           pointer: Option<InternalKey>, in0: seq<Table>, in1: seq<Table>)
  {
    exists f ::
      && (if seekFile.Some? then f == seekFile.value else FirstPast(here, pointer, f))
      && ChosenFor(here, next, level, maxFileSize, f, in0, in1)
  }

  lemma ChosenForPick(here: seq<Table>, next: seq<Table>, level: nat, maxFileSize: nat, seekFile: Option<Table>,
                      pointer: Option<InternalKey>, f: Table, inputs: seq<Table>, in0: seq<Table>, in1: seq<Table>)
    requires if seekFile.Some? then f == seekFile.value else FirstPast(here, pointer, f)
    requires StartsFrom(here, level, f, inputs) && Chosen(here, next, level, maxFileSize, inputs, in0, in1)
    requires f in SetOf(inputs) && SetOf(inputs) <= SetOf(in0)
    ensures ChosenBy(here, next, level, maxFileSize, seekFile, pointer, in0, in1)
  {
    assert f in SetOf(in0);
    assert ChosenFor(here, next, level, maxFileSize, f, in0, in1);
  }

  ghost predicate Met(files: seq<Table>, smallest: UserKey, largest: UserKey) {
    exists f :: f in files && Touches(f, Some(smallest), Some(largest))
  }

  class VersionSet {
    var files: Files                              // the current version
    var compactPointer: seq<Option<InternalKey>>  // where the next compaction of each level starts
    const maxFileSize: nat

    ghost predicate Valid()
      reads this
    {
      ValidVersion(files) && Distinct(AllEntries(LevelsOf(files))) && |compactPointer| == NUM_LEVELS
    }

    constructor (v: Files, maxFileSize: nat)
      requires ValidVersion(v) && Distinct(AllEntries(LevelsOf(v)))
      ensures Valid() && files == v
    {
      files, this.maxFileSize := v, maxFileSize;
      compactPointer := seq(NUM_LEVELS, _ => None);
    }

    /** A pair of inputs that may be compacted: `in1` is what meets the range of `in0`, whose ends are `lo` and `hi`. */
    ghost predicate GoodPair(level: nat, in0: seq<Table>, in1: seq<Table>, lo: InternalKey, hi: InternalKey)
      reads this
    {
      && Valid() && level + 1 < NUM_LEVELS
      && in0 != [] && SetOf(in0) <= SetOf(files[level]) && IsRange(in0, lo, hi)
      && in1 == Meeting(files[level + 1], lo, hi)
      && Safe(LevelsOf(files), level, SetOf(in0), SetOf(in1))
    }

    lemma MakesGoodPair(level: nat, in0: seq<Table>, in1: seq<Table>, lo: InternalKey, hi: InternalKey,
                        top: InternalKey)
      requires Valid() && level + 1 < NUM_LEVELS
      requires Gapless(SetOf(files[level]), level, SetOf(in0)) && IsRange(in0, lo, hi)
      requires IsMaxKey(SetOf(in0), top) && forall f :: f in files[level] ==> !IsBoundary(f, top)
      requires in1 == Meeting(files[level + 1], lo, hi)
      ensures GoodPair(level, in0, in1, lo, hi)
    {
      MaxKeyUnique(SetOf(in0), hi, top);
      PairIsSafe(files, level, in0, in1, lo, hi);
    }

    /** Completes the picked inputs with boundary files and the files of the next level. */
    method PairUp(level: nat, picked: seq<Table>)
      returns (in0: seq<Table>, in1: seq<Table>, smallest: InternalKey, largest: InternalKey)
      requires Valid() && level + 1 < NUM_LEVELS
      requires Gapless(SetOf(files[level]), level, SetOf(picked))
      ensures GoodPair(level, in0, in1, smallest, largest)
      ensures MeetsPick(files[level + 1], in0, in1) && Completed(files[level], picked, in0)
      ensures NoDuplicates(picked) ==> NoDuplicates(in0)
      ensures Connected(SetOf(picked)) ==> Connected(SetOf(in0) + SetOf(in1))
    {
      LevelOf(files, level);
      ghost var top, from, to;
      in0, top := AddBoundaryInputs(files[level], picked, level, {});
      EmptyUnion(SetOf(picked));
      EmptyUnion(SetOf(in0));
      smallest, largest := GetRange(in0);
      in1, from, to := GetOverlappingInputs(files[level + 1], level + 1, Some(smallest), Some(largest), {});
      MakesGoodPair(level, in0, in1, smallest, largest, top.value);
      MaxKeyUnique(SetOf(in0), largest, top.value);
      if Connected(SetOf(in0)) {
        PairIsConnected(SetOf(in0), files[level + 1], in1, smallest, largest, {});
      }
    }

    /** All of `level` that meets the range of a pair, completed with boundary files. */
    method Widen(level: nat, in0: seq<Table>, in1: seq<Table>, smallest: InternalKey, largest: InternalKey,
                 allStart: InternalKey, allLimit: InternalKey)
      returns (expanded0: seq<Table>, ghost top: InternalKey)
      requires GoodPair(level, in0, in1, smallest, largest) && IsRange(in0 + in1, allStart, allLimit)
      ensures Gapless(SetOf(files[level]), level, SetOf(expanded0)) && SetOf(in0) <= SetOf(expanded0)
      ensures IsMaxKey(SetOf(expanded0), top) && forall f :: f in files[level] ==> !IsBoundary(f, top)
      ensures Connected(SetOf(in0) + SetOf(in1)) ==> Connected(SetOf(expanded0) + SetOf(in1))
      ensures NoDuplicates(expanded0) && Widened(files[level], level, in0 + in1, expanded0)
    {
      LevelOf(files, level);
      RangeOrdered(in0 + in1, allStart, allLimit);
      ghost var from, to, last;
      expanded0, from, to := GetOverlappingInputs(files[level], level, Some(allStart), Some(allLimit), SetOf(in1));
      ghost var over := expanded0;
      assert OverlapsOf(files[level], level, allStart, allLimit, over) by {
        assert LeastRange(files[level], level, Some(allStart.user), Some(allLimit.user), from, to);
      }
      TouchingOnce(files[level], |files[level]|, from, to);
      ExpandedGapless(files, level, in0, in1, allStart, allLimit, expanded0, from, to);
      if Connected(SetOf(in0) + SetOf(in1)) {
        GrownConnected(files, level, in0, in1, allStart, allLimit, expanded0, from, to);
      }
      expanded0, last := AddBoundaryInputs(files[level], expanded0, level, SetOf(in1));
      assert SetOf(in1) + SetOf(expanded0) == SetOf(expanded0) + SetOf(in1);
      top := last.value;
      assert Completed(files[level], over, expanded0) by { assert NoBoundary(files[level], top); }
    }

    /** Takes more of `level` if that costs no further file of the next level. */
    method Grow(level: nat, in0: seq<Table>, in1: seq<Table>, expanded0: seq<Table>, ghost top: InternalKey)
      returns (grown: bool, expanded1: seq<Table>, newStart: InternalKey, newLimit: InternalKey)
      requires Valid() && level + 1 < NUM_LEVELS && in0 != [] && SetOf(expanded0) <= SetOf(files[level])
      requires Gapless(SetOf(files[level]), level, SetOf(expanded0))
      requires IsMaxKey(SetOf(expanded0), top) && forall f :: f in files[level] ==> !IsBoundary(f, top)
      ensures grown ==> GoodPair(level, expanded0, expanded1, newStart, newLimit) && |expanded1| == |in1|
      ensures in1 != [] ==> (grown <==> WorthGrowing(files[level + 1], in0, in1, expanded0, maxFileSize))
    {
      ghost var from, to;
      Bounds(in0[0]);
      expanded1, newStart, newLimit, grown := [], Smallest(in0[0]), Largest(in0[0]), false;
      if |expanded0| > |in0| && TotalFileSize(in1) + TotalFileSize(expanded0) < 25 * maxFileSize {
        newStart, newLimit := GetRange(expanded0);
        expanded1, from, to := GetOverlappingInputs(files[level + 1], level + 1, Some(newStart), Some(newLimit), {});
        MakesGoodPair(level, expanded0, expanded1, newStart, newLimit, top);
        MeetsAsManyIs(files[level + 1], expanded0, |in1|, newStart, newLimit);
        grown := |expanded1| == |in1|;
      }
    }

    /** The files two levels down in the range of all inputs. */
    method Grandparents(level: nat, inputs: seq<Table>, start: InternalKey, limit: InternalKey)
      returns (grandparents: seq<Table>)
      requires Valid() && inputs != [] && IsRange(inputs, start, limit)
      ensures Disjoint(grandparents) && AreGrandparents(files, level, inputs, grandparents)
    {
      grandparents := [];
      if level + 2 < NUM_LEVELS {
        ghost var from, to;
        RangeOrdered(inputs, start, limit);
        grandparents, from, to := GetOverlappingInputs(files[level + 2], level + 2, Some(start), Some(limit), {});
        LevelDisjoint(files, level + 2);
        TouchingDisjoint(files[level + 2], |files[level + 2]|, Some(start.user), Some(limit.user));
      }
    }

    /** The inputs once the source level has been widened if that costs nothing below. */
    method TryGrow(level: nat, in0: seq<Table>, in1: seq<Table>, smallest: InternalKey, largest: InternalKey)
      returns (all0: seq<Table>, all1: seq<Table>, low: InternalKey, high: InternalKey, ghost wide: seq<Table>)
      requires GoodPair(level, in0, in1, smallest, largest)
      ensures all1 == in1 && (in1 != [] ==> Widened(files[level], level, in0 + in1, wide))
      ensures all0 == if WorthGrowing(files[level + 1], in0, in1, wide, maxFileSize) then wide else in0
      ensures GoodPair(level, all0, all1, low, high) && SetOf(in0) <= SetOf(all0)
      ensures all1 == Meeting(files[level + 1], smallest, largest) && (NoDuplicates(in0) ==> NoDuplicates(all0))
      ensures Connected(SetOf(in0) + SetOf(in1)) ==> Connected(SetOf(all0) + SetOf(all1))
    {
      all0, all1, low, high, wide := in0, in1, smallest, largest, [];
      var allStart, allLimit := GetRange(in0 + in1);
      if in1 != [] {
        ghost var top;
        var expanded0, grown, expanded1, newStart, newLimit;
        expanded0, top := Widen(level, in0, in1, smallest, largest, allStart, allLimit);
        grown, expanded1, newStart, newLimit := Grow(level, in0, in1, expanded0, top);
        wide := expanded0;
        if grown {
          SameNextLevel(files[level + 1], in0, expanded0, smallest, largest, newStart, newLimit);
          all0, all1, low, high := expanded0, expanded1, newStart, newLimit;
        }
      }
    }

    /** The work of SetupOtherInputs, up to the compaction pointer. */
    method ChooseInputs(level: nat, picked: seq<Table>)
      returns (in0: seq<Table>, in1: seq<Table>, largest: InternalKey)
      requires Valid() && level + 1 < NUM_LEVELS
      requires Gapless(SetOf(files[level]), level, SetOf(picked))
      ensures Safe(LevelsOf(files), level, SetOf(in0), SetOf(in1)) && SetOf(picked) <= SetOf(in0)
      ensures Connected(SetOf(picked)) ==> Connected(SetOf(in0) + SetOf(in1))
      ensures Chosen(files[level], files[level + 1], level, maxFileSize, picked, in0, in1)
      ensures in0 != [] && IsMaxKey(SetOf(in0), largest) && (NoDuplicates(picked) ==> NoDuplicates(in0))
    {
      var pick, meeting, low, high, start;
      ghost var wide;
      pick, meeting, low, high := PairUp(level, picked);
      in0, in1, start, largest, wide := TryGrow(level, pick, meeting, low, high);
      assert ChosenFrom(files[level], files[level + 1], level, maxFileSize, picked, pick, wide, in0, in1);
    }

    /** Fills in the other inputs of a compaction whose files in `level` have been picked. */
    method SetupOtherInputs(level: nat, picked: seq<Table>)
      returns (in0: seq<Table>, in1: seq<Table>, grandparents: seq<Table>)
      requires Valid() && level + 1 < NUM_LEVELS
      requires Gapless(SetOf(files[level]), level, SetOf(picked))
      modifies this`compactPointer
      ensures Valid()
      ensures Safe(LevelsOf(files), level, SetOf(in0), SetOf(in1)) && SetOf(picked) <= SetOf(in0)
      ensures Connected(SetOf(picked)) ==> Connected(SetOf(in0) + SetOf(in1))
      ensures Chosen(files[level], files[level + 1], level, maxFileSize, picked, in0, in1)
      ensures Disjoint(grandparents) && AreGrandparents(files, level, in0 + in1, grandparents)
      ensures exists k :: IsMaxKey(SetOf(in0), k) && compactPointer == old(compactPointer)[level := Some(k)]
      ensures NoDuplicates(picked) ==> NoDuplicates(in0)
    {
      var largest;
      in0, in1, largest := ChooseInputs(level, picked);
      var allStart, allLimit := GetRange(in0 + in1);
      grandparents := Grandparents(level, in0 + in1, allStart, allLimit);
      compactPointer := compactPointer[level := Some(largest)];
    }

    /** A flush at `l` may go one level deeper: nothing to meet there and little below. */
    ghost predicate MayPush(l: nat, smallest: UserKey, largest: UserKey)
      requires Valid() && l < MAX_MEM_COMPACT_LEVEL
      reads this
    {
      !Met(files[l + 1], smallest, largest) &&
      TotalFileSize(Touching(files[l + 2], |files[l + 2]|, Some(smallest), Some(largest))) <= 10 * maxFileSize
    }

    /** The level for a table made from a memtable whose user keys span the given
        range: as deep as level 2, but only past levels it does not meet. */
    method PickLevelForMemTableOutput(smallest: UserKey, largest: UserKey) returns (level: nat)
      requires Valid() && smallest <= largest
      ensures forall f: Table :: Lo(f) == smallest && Hi(f) == largest ==> MayPlace(LevelsOf(files), level, f)
      ensures level > 0 ==> !Met(files[0], smallest, largest)
      ensures level <= MAX_MEM_COMPACT_LEVEL && forall l :: 0 <= l < level ==> MayPush(l, smallest, largest)
      ensures level < MAX_MEM_COMPACT_LEVEL ==> Met(files[0], smallest, largest) || !MayPush(level, smallest, largest)
    {
      level := 0;
      var overlap := SomeFileOverlapsRange(false, files[0], Some(smallest), Some(largest));
      if !overlap {
        var start, limit := InternalKey(smallest, MAX_SEQUENCE, Value), InternalKey(largest, 0, Deletion);
        while level < MAX_MEM_COMPACT_LEVEL
          invariant 0 <= level <= MAX_MEM_COMPACT_LEVEL
          invariant forall l :: 0 <= l <= level ==> !Met(files[l], smallest, largest)
          invariant forall l :: 0 <= l < level ==> MayPush(l, smallest, largest)
        {
          LevelDisjoint(files, level + 1);
          overlap := SomeFileOverlapsRange(true, files[level + 1], Some(smallest), Some(largest));
          if overlap {
            break;
          }
          if level + 2 < NUM_LEVELS {
            ghost var lo, hi;
            var overlaps;
            overlaps, lo, hi := GetOverlappingInputs(files[level + 2], level + 2, Some(start), Some(limit), {});
            if TotalFileSize(overlaps) > 10 * maxFileSize {
              break;
            }
          }
          level := level + 1;
        }
      }
      forall f: Table | Lo(f) == smallest && Hi(f) == largest ensures MayPlace(LevelsOf(files), level, f) {
        forall l, g | 0 <= l <= level && level > 0 && g in LevelsOf(files)[l] ensures !Overlaps(f, g) {
          assert !Met(files[l], smallest, largest) && g in files[l];
          assert !Touches(g, Some(smallest), Some(largest));
        }
      }
    }

    /** The file an automatic compaction starts from. */
    method PickFile(level: nat, seekFile: Option<Table>) returns (picked: Table)
      requires Valid() && level < NUM_LEVELS
      requires if seekFile.Some? then seekFile.value in files[level] else files[level] != []
      ensures picked in files[level] && (seekFile.Some? ==> picked == seekFile.value)
      ensures seekFile.None? ==> FirstPast(files[level], compactPointer[level], picked)
    {
      if seekFile.Some? {
        return seekFile.value;
      }
      for i := 0 to |files[level]|
        invariant forall k :: 0 <= k < i ==> !PastPointer(compactPointer[level], files[level][k])
      {
        var f := files[level][i];
        if compactPointer[level].None? || Less(compactPointer[level].value, Largest(f)) {
          return f;
        }
      }
      picked := files[level][0];
    }

    /** Picks the inputs of an automatic compaction of `level`: by size, starting
        after the compaction pointer, or the file that was sought too often. */
    method PickCompaction(level: nat, seekFile: Option<Table>)
      returns (in0: seq<Table>, in1: seq<Table>, grandparents: seq<Table>)
      requires Valid() && level + 1 < NUM_LEVELS
      requires seekFile.Some? ==> seekFile.value in files[level]
      requires seekFile.None? ==> files[level] != []
      modifies this`compactPointer
      ensures Valid()
      ensures Safe(LevelsOf(files), level, SetOf(in0), SetOf(in1)) && Connected(SetOf(in0) + SetOf(in1))
      ensures Disjoint(grandparents) && AreGrandparents(files, level, in0 + in1, grandparents)
      ensures NoDuplicates(in0) && NoDuplicates(in1)
      ensures ChosenBy(files[level], files[level + 1], level, maxFileSize, seekFile, old(compactPointer)[level], in0,
                       in1)
    {
      var picked := PickFile(level, seekFile);
      var inputs := StartInputs(level, picked);
      in0, in1, grandparents := SetupOtherInputs(level, inputs);
      ChosenOnce(files[level], files[level + 1], level, maxFileSize, inputs, in0, in1);
      ChosenForPick(files[level], files[level + 1], level, maxFileSize, seekFile, old(compactPointer)[level], picked,
                    inputs, in0, in1);
    }

    method StartInputs(level: nat, picked: Table) returns (inputs: seq<Table>)
      requires Valid() && level < NUM_LEVELS && picked in files[level]
      ensures StartsFrom(files[level], level, picked, inputs) && picked in SetOf(inputs) && NoDuplicates(inputs)
      ensures Gapless(SetOf(files[level]), level, SetOf(inputs)) && Connected(SetOf(inputs))
    {
      SingleGapless(files, level, picked);
      inputs := [picked];
      assert SetOf(inputs) == {picked};
      if level == 0 {
        inputs := Closure(picked);
      }
    }

    /** At level 0 everything that meets the picked file's range, and so on, comes along. */
    method Closure(picked: Table) returns (inputs: seq<Table>)
      requires Valid() && picked in files[0]
      ensures Gapless(SetOf(files[0]), 0, SetOf(inputs)) && picked in inputs && Connected(SetOf(inputs))
      ensures NoDuplicates(inputs) && OverlapsOf(files[0], 0, Smallest(picked), Largest(picked), inputs)
    {
      var smallest, largest := GetRange([picked]);
      ghost var lo, hi;
      inputs, lo, hi := GetOverlappingInputs(files[0], 0, Some(smallest), Some(largest), {});
      assert smallest == Smallest(picked) && largest == Largest(picked) by { assert picked in [picked]; }
      assert LeastRange(files[0], 0, Some(smallest.user), Some(largest.user), lo, hi);
      TouchingOnce(files[0], |files[0]|, lo, hi);
      ClosureGapless(files, picked, inputs, smallest, largest, lo, hi);
    }
  }

  ghost predicate AreGrandparents(v: Files, level: nat, inputs: seq<Table>, grandparents: seq<Table>) {
    if level + 2 < |v| then
      exists start, limit :: IsRange(inputs, start, limit) &&
        grandparents == Touching(v[level + 2], |v[level + 2]|, Some(start.user), Some(limit.user))
    else grandparents == []
  }

  lemma {:induction false} TouchingDisjoint(files: seq<Table>, n: nat, lo: Option<UserKey>, hi: Option<UserKey>)
    requires Disjoint(files) && n <= |files|
    ensures Disjoint(Touching(files, n, lo, hi))
    ensures forall f :: f in Touching(files, n, lo, hi) ==> f in files[..n]
  {
    if n > 0 {
      TouchingDisjoint(files, n - 1, lo, hi);
      var t := Touching(files, n - 1, lo, hi);
      forall i | 0 <= i < |t| ensures t[i] in files[..n] && Before(t[i], files[n - 1]) {
        assert t[i] in t && t[i] in files[..n - 1];
        var k :| 0 <= k < n - 1 && files[..n - 1][k] == t[i];
        assert files[..n][k] == t[i];
      }
    }
  }

  lemma {:induction false} TouchingOnce(files: seq<Table>, n: nat, lo: Option<UserKey>, hi: Option<UserKey>)
    requires InOrder(files) && n <= |files|
    ensures NoDuplicates(Touching(files, n, lo, hi))
    ensures forall f :: f in Touching(files, n, lo, hi) ==> f in files[..n]
  {
    if n > 0 {
      TouchingOnce(files, n - 1, lo, hi);
      var t := Touching(files, n - 1, lo, hi);
      forall i | 0 <= i < |t| ensures t[i] in files[..n] && t[i] != files[n - 1] {
        assert t[i] in t && t[i] in files[..n - 1];
        var k :| 0 <= k < n - 1 && files[..n - 1][k] == t[i];
        assert files[..n][k] == t[i] && BySmallest(files[k], files[n - 1]);
      }
      assert files[..n][n - 1] == files[n - 1];
    }
  }

  lemma RangeOrdered(s: seq<Table>, lo: InternalKey, hi: InternalKey)
    requires s != [] && IsRange(s, lo, hi)
    ensures lo.user <= hi.user
  {
    Bounds(s[0]);
    assert s[0] in s;
  }

  lemma SingleGapless(v: Files, level: nat, f: Table)
    requires ValidVersion(v) && level < NUM_LEVELS && f in v[level]
    ensures level > 0 ==> Gapless(SetOf(v[level]), level, {f})
    ensures Connected({f})
  {
    Bounds(f);
    forall g | g in v[level] ensures !(Before(f, g) && Before(g, f)) {
      Bounds(g);
    }
    forall x: UserKey | Lo(f) <= x <= Hi(f) ensures Hit({f}, x) {
      assert f in {f};
    }
  }

  lemma ClosureGapless(v: Files, f: Table, inputs: seq<Table>, smallest: InternalKey, largest: InternalKey,
                       lo: Option<UserKey>, hi: Option<UserKey>)
    requires ValidVersion(v) && f in v[0] && IsRange([f], smallest, largest)
    requires PickedRange(v[0], 0, smallest, largest, lo, hi) && inputs == Touching(v[0], |v[0]|, lo, hi)
    requires Covers({} + SetOf(v[0]), Some(smallest.user), Some(largest.user)) ==> Covers({} + SetOf(inputs), lo, hi)
    ensures Gapless(SetOf(v[0]), 0, SetOf(inputs)) && f in inputs && Connected(SetOf(inputs))
  {
    assert [f] + [] == [f] && f in [f] && SetOf([f]) == {f};
    ExpandedGapless(v, 0, [f], [], smallest, largest, inputs, lo, hi);
    SingleGapless(v, 0, f);
    assert {f} + {} == {f} && SetOf([]) == {} && {} + SetOf(inputs) == SetOf(inputs) && {} + {f} == {f};
    GrownConnected(v, 0, [f], [], smallest, largest, inputs, lo, hi);
  }

  lemma EmptyUnion(s: set<Table>)
    ensures {} + s == s
  {
  }

  lemma MaxKeyUnique(s: set<Table>, a: InternalKey, b: InternalKey)
    requires IsMaxKey(s, a) && IsMaxKey(s, b)
    ensures a == b
  {
  }

  lemma GrownConnected(v: Files, level: nat, in0: seq<Table>, in1: seq<Table>, start: InternalKey, limit: InternalKey,
                       expanded: seq<Table>, lo: Option<UserKey>, hi: Option<UserKey>)
    requires level < |v| && in0 != [] && SetOf(in0) <= SetOf(v[level]) && IsRange(in0 + in1, start, limit)
    requires PickedRange(v[level], level, start, limit, lo, hi) && expanded == Touching(v[level], |v[level]|, lo, hi)
    requires Connected(SetOf(in0) + SetOf(in1))
    requires Covers(SetOf(in1) + SetOf(v[level]), Some(start.user), Some(limit.user)) ==>
      Covers(SetOf(in1) + SetOf(expanded), lo, hi)
    ensures Connected(SetOf(in1) + SetOf(expanded))
  {
    assert SetOf(in0) + SetOf(in1) == SetOf(in1) + SetOf(in0);
    HullOf(in0, in1, start, limit);
    ConnectedCovers(SetOf(in1) + SetOf(in0), start, limit);
    forall x: UserKey | InRangeOf(x, Some(start.user), Some(limit.user)) ensures Hit(SetOf(in1) + SetOf(v[level]), x) {
      assert Hit(SetOf(in1) + SetOf(in0), x);
    }
    ExpandedConnected(v, level, in0, in1, start, limit, expanded, lo, hi);
  }

  lemma SameNextLevel(files: seq<Table>, in0: seq<Table>, grown: seq<Table>, lo: InternalKey, hi: InternalKey,
                      lo': InternalKey, hi': InternalKey)
    requires SetOf(in0) <= SetOf(grown) && IsRange(in0, lo, hi) && IsRange(grown, lo', hi')
    requires |Meeting(files, lo, hi)| == |Meeting(files, lo', hi')|
    ensures Meeting(files, lo, hi) == Meeting(files, lo', hi')
  {
    var f :| f in in0 && Smallest(f) == lo;
    var g :| g in in0 && Largest(g) == hi;
    assert f in SetOf(in0) && g in SetOf(in0) && f in SetOf(grown) && g in SetOf(grown);
    WiderSameCount(files, |files|, Some(lo.user), Some(hi.user), Some(lo'.user), Some(hi'.user));
  }
}
