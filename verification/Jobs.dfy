/** A compaction between its pick and its commit, and exactly when committing it changes a read
    (db/version_set.cc, SetupOtherInputs; db/db_impl.cc, DoCompactionWork).  The inputs of the next level are
    not closed under boundary files, so a tombstone at the end of one of them may be merged without the file
    that begins with what it deletes. */
module Jobs {
  import opened InternalKeys
  import opened ReadSpec
  import opened Levels
  import opened Selection
  import opened Commit
  import opened DropRule

  /** A compaction between picking its inputs and installing its outputs. */
  datatype Job = Job(level: nat, in0: set<Table>, in1: set<Table>, horizon: int, base: iset<UserKey>)

  ghost predicate Above(upper: set<Entry>, lower: set<Entry>) {
    forall a, b :: a in upper && b in lower ==> a.key.sequence > b.key.sequence
  }

  /** No deeper table spans a base key within the range of an input. */
  ghost predicate BaseHolds(levels: Levels, j: Job) {
    forall f, l, g, u: UserKey :: f in j.in0 + j.in1 && j.level + 2 <= l < |levels| && g in levels[l] && u in j.base
      ==> !(Spans(f, u) && Spans(g, u))
  }

  predicate Spans(f: Table, u: UserKey) { Lo(f) <= u <= Hi(f) }

  ghost function BaseOf(levels: Levels, level: nat): iset<UserKey> {
    iset u: UserKey | NoneBelow(levels, level, u)
  }

  ghost predicate NoneBelow(levels: Levels, level: nat, u: UserKey) {
    forall l, f :: level + 2 <= l < |levels| && f in levels[l] ==> !Spans(f, u)
  }

  /** So it is for a job just picked. */
  lemma BaseOfHolds(levels: Levels, j: Job)
    requires j.base == BaseOf(levels, j.level)
    ensures BaseHolds(levels, j)
  {
  }

  // ---- Entries of the levels ---------------------------------------------

  lemma EntryIn(levels: Levels, l: int, f: Table, e: Entry)
    requires 0 <= l < |levels| && f in levels[l] && e in f.entries
    ensures e in LevelEntries(levels[l]) && e in AllEntries(levels)
  {
    assert e in TableEntries(f);
  }

  lemma TableOf(levels: Levels, e: Entry) returns (l: int, f: Table)
    requires e in AllEntries(levels)
    ensures 0 <= l < |levels| && f in levels[l] && e in f.entries
  {
    l :| 0 <= l < |levels| && e in LevelEntries(levels[l]);
    f :| f in levels[l] && e in TableEntries(f);
  }

  /** `e` is in a table that is not an input. */
  ghost predicate Outside(levels: Levels, j: Job, e: Entry) {
    exists l, g :: InTable(levels, j, l, g, e)
  }

  ghost predicate InTable(levels: Levels, j: Job, l: int, g: Table, e: Entry) {
    0 <= l < |levels| && g in levels[l] && e in g.entries && g !in j.in0 + j.in1
  }

  ghost function OtherEntries(levels: Levels, j: Job): set<Entry> {
    set e | e in AllEntries(levels) && Outside(levels, j, e)
  }

  lemma SplitContents(levels: Levels, j: Job)
    requires j.level + 1 < |levels| && j.in0 <= levels[j.level] && j.in1 <= levels[j.level + 1]
    ensures AllEntries(levels) == LevelEntries(j.in0 + j.in1) + OtherEntries(levels, j)
  {
    forall e | e in AllEntries(levels) ensures e in LevelEntries(j.in0 + j.in1) || Outside(levels, j, e) {
      var l, f := TableOf(levels, e);
      if f in j.in0 + j.in1 {
        assert e in TableEntries(f);
      } else {
        assert InTable(levels, j, l, f, e);
      }
    }
    forall e | e in LevelEntries(j.in0 + j.in1) ensures e in AllEntries(levels) {
      var f := Origin(j.in0 + j.in1, e);
      EntryIn(levels, if f in j.in0 then j.level else j.level + 1, f, e);
    }
  }

  // ---- The straddled tombstone ---------------------------------------------

  /** `g` is the first file left behind in the next level that goes on with the user key `f` ends with;
      AddBoundaryInputs would find it. */
  ghost predicate LeftBoundary(levels: Levels, j: Job, f: Table, g: Table)
    requires j.level + 1 < |levels|
  {
    && f in j.in1 && OnBoundary(levels, j, f, g)
    && forall x :: OnBoundary(levels, j, f, x) ==> AtMost(Smallest(g), Smallest(x))
  }

  /** The newest entry of that key is a tombstone among the inputs, nothing deeper may hold the key,
      and the file left behind begins with a value. */
  ghost predicate Straddled(levels: Levels, j: Job, upper: set<Entry>)
    requires j.level + 1 < |levels|
  {
    exists f, g, d :: LeftBoundary(levels, j, f, g) && Covers(levels, j, upper, g, d)
  }

  /** The tombstone `d` is what hides the value that `g` begins with. */
  ghost predicate Covers(levels: Levels, j: Job, upper: set<Entry>, g: Table, d: Entry) {
    && Smallest(g).kind.Value? && Lo(g) in j.base
    && d in LevelEntries(j.in0 + j.in1) && d.key.kind.Deletion?
    && IsNewest(upper + AllEntries(levels), Lo(g), j.horizon, d)
  }

  /** A job picked from these levels, but for the straddle condition. */
  ghost predicate Picked(levels: Levels, j: Job, upper: set<Entry>) {
    && WellFormed(levels) && j.level + 1 < NUM_LEVELS && Safe(levels, j.level, j.in0, j.in1)
    && BaseHolds(levels, j) && Distinct(upper + AllEntries(levels)) && Above(upper, AllEntries(levels))
  }

  ghost function Others(levels: Levels, j: Job, upper: set<Entry>): set<Entry> {
    upper + OtherEntries(levels, j)
  }

  /** Where inputs lie in the levels. */
  ghost predicate Selected(levels: Levels, j: Job) {
    j.level + 1 < |levels| && j.in0 <= levels[j.level] && j.in1 <= levels[j.level + 1] && NumbersDistinct(levels)
  }

  lemma PickedFacts(levels: Levels, j: Job, upper: set<Entry>)
    requires Picked(levels, j, upper)
    ensures Selected(levels, j) && Distinct(upper + AllEntries(levels)) && Above(upper, AllEntries(levels))
  {
  }

  lemma OutsideTable(levels: Levels, j: Job, p: Entry) returns (l: int, g: Table)
    requires p in OtherEntries(levels, j)
    ensures InTable(levels, j, l, g, p)
  {
    l, g :| InTable(levels, j, l, g, p);
  }

  lemma InputLevel(levels: Levels, j: Job, d: Entry) returns (f: Table, k: int)
    requires Selected(levels, j) && d in LevelEntries(j.in0 + j.in1)
    ensures d in f.entries && f in j.in0 + j.in1 && k == (if f in j.in0 then j.level else j.level + 1)
      && d in AllEntries(levels)
  {
    f := Origin(j.in0 + j.in1, d);
    k := if f in j.in0 then j.level else j.level + 1;
    EntryIn(levels, k, f, d);
  }

  lemma OlderOutside(levels: Levels, j: Job, k: int, f: Table, d: Entry, p: Entry) returns (g: Table)
    requires WellFormed(levels) && j.level + 1 < NUM_LEVELS && Safe(levels, j.level, j.in0, j.in1)
      && BaseHolds(levels, j)
    requires f in j.in0 + j.in1 && k == (if f in j.in0 then j.level else j.level + 1) && d in f.entries
    requires p in OtherEntries(levels, j) && p.key.user == d.key.user && d.key.user in j.base
    ensures p.key != d.key
    ensures p.key.sequence >= d.key.sequence ||
        (f in j.in1 && OnBoundary(levels, j, f, g) && p in g.entries && Lo(g) == d.key.user)
  {
    var l;
    l, g := OutsideTable(levels, j, p);
    PlaceOfOlder(levels, j, k, f, d, l, g, p);
  }

  /** An entry left behind that is older than an input of the same key, at a key nothing deeper may
      hold, is in a file that goes on where an input of the next level ends. */
  lemma OlderIsBoundary(levels: Levels, j: Job, upper: set<Entry>, d: Entry, p: Entry) returns (f: Table, g: Table)
    requires Picked(levels, j, upper) && d in LevelEntries(j.in0 + j.in1) && p in Others(levels, j, upper)
    requires p.key.user == d.key.user && d.key.user in j.base
    ensures Selected(levels, j) && d in f.entries && f in j.in0 + j.in1 && p.key != d.key
    ensures p.key.sequence >= d.key.sequence ||
        (f in j.in1 && OnBoundary(levels, j, f, g) && p in g.entries && Lo(g) == d.key.user)
  {
    PickedFacts(levels, j, upper);
    var k;
    f, k := InputLevel(levels, j, d);
    g := f;
    if p !in upper { g := OlderOutside(levels, j, k, f, d, p); }
  }

  ghost predicate OnBoundary(levels: Levels, j: Job, f: Table, g: Table)
    requires j.level + 1 < |levels|
  {
    g in levels[j.level + 1] - j.in1 && Before(f, g) && Hi(f) == Lo(g)
  }

  lemma PlaceOfOlder(levels: Levels, j: Job, k: int, f: Table, d: Entry, l: int, g: Table, p: Entry)
    requires WellFormed(levels) && j.level + 1 < NUM_LEVELS && Safe(levels, j.level, j.in0, j.in1)
      && BaseHolds(levels, j)
    requires f in j.in0 + j.in1 && k == (if f in j.in0 then j.level else j.level + 1) && d in f.entries
    requires InTable(levels, j, l, g, p) && p.key.user == d.key.user && d.key.user in j.base
    ensures p.key.sequence >= d.key.sequence || (l == j.level + 1 && f in j.in1 && g !in j.in1 && Before(f, g))
    ensures p.key != d.key && (Before(f, g) ==> Hi(f) == Lo(g) == d.key.user)
  {
    if Before(f, g) { BoundaryEnds(f, g, d, p); }
    InRange(f, d);
    InRange(g, p);
    if l < k {
      assert LevelNewer(levels[l], levels[k]);
    } else if l >= j.level + 2 {
      assert Spans(f, d.key.user) && Spans(g, d.key.user);
    } else if l == j.level {
      assert g in levels[j.level] - j.in0;
      assert Newer(g, f);
    } else if f in j.in0 {
      assert g in levels[j.level + 1] - j.in1;
      assert Overlaps(f, g);
    } else {
      assert Before(f, g) || Before(g, f);
      if Before(g, f) { BeforeNewer(g, f); } else { BeforeNewer(f, g); }
    }
  }

  lemma BoundaryEnds(f: Table, g: Table, d: Entry, p: Entry)
    requires Before(f, g) && d in f.entries && p in g.entries && d.key.user == p.key.user
    ensures Hi(f) == Lo(g) == d.key.user
  {
    InRange(f, d);
    InRange(g, p);
  }

  /** What a table holds of the key it begins with starts with its newest. */
  lemma SmallestIsNewest(g: Table, y: Entry)
    requires y in g.entries && y.key.user == Lo(g)
    ensures y.key.sequence <= Smallest(g).sequence
  {
    InRange(g, y);
  }

  lemma SmallestIsLeftBehind(levels: Levels, j: Job, g: Table)
    requires Selected(levels, j) && g in levels[j.level + 1] - j.in1
    ensures g.entries[0] in OtherEntries(levels, j) && g.entries[0].key == Smallest(g)
  {
    EntryIn(levels, j.level + 1, g, g.entries[0]);
    assert g !in j.in0;
    assert InTable(levels, j, j.level + 1, g, g.entries[0]);
  }

  lemma WholeContents(levels: Levels, j: Job, upper: set<Entry>)
    requires j.level + 1 < |levels| && j.in0 <= levels[j.level] && j.in1 <= levels[j.level + 1]
    ensures LevelEntries(j.in0 + j.in1) + Others(levels, j, upper) == upper + AllEntries(levels)
  {
    SplitContents(levels, j);
  }

  lemma SameSequence(all: set<Entry>, a: Entry, b: Entry)
    requires Distinct(all) && a in all && b in all && a.key.user == b.key.user && a.key.sequence == b.key.sequence
    ensures a == b
  {
  }

  lemma FirstIsAtMost(all: set<Entry>, a: Entry, b: Entry)
    requires Distinct(all) && a in all && b in all && a.key.user == b.key.user && b.key.sequence <= a.key.sequence
    ensures AtMost(a.key, b.key)
  {
    if a.key.sequence == b.key.sequence { SameSequence(all, a, b); }
  }

  /** A file on the boundary begins with an older entry than any of the same key before it. */
  lemma BoundaryIsOlder(f: Table, x: Table, d: Entry)
    requires Before(f, x) && d in f.entries && d.key.user == Lo(x)
    ensures Smallest(x).sequence <= d.key.sequence
  {
    BeforeNewer(f, x);
    assert x.entries[0] in x.entries;
  }

  /** What is newest among all that is left behind comes first in its file, and no file on the same
      boundary comes before. */
  lemma NewestBegins(levels: Levels, j: Job, upper: set<Entry>, f: Table, g: Table, d: Entry, p: Entry)
    requires Selected(levels, j) && Distinct(upper + AllEntries(levels)) && d in f.entries && f in j.in1
      && OnBoundary(levels, j, f, g) && p in g.entries
    requires d.key.user == Lo(g) && d.key.sequence <= j.horizon
      && IsNewest(Others(levels, j, upper), Lo(g), j.horizon, p)
    ensures Smallest(g) == p.key && LeftBoundary(levels, j, f, g)
  {
    var all := upper + AllEntries(levels);
    WholeContents(levels, j, upper);
    forall x | OnBoundary(levels, j, f, x)
      ensures x.entries[0] in Others(levels, j, upper) && x.entries[0] in all && Smallest(x).sequence <= p.key.sequence
    {
      SmallestIsLeftBehind(levels, j, x);
      BoundaryIsOlder(f, x, d);
    }
    SmallestIsNewest(g, p);
    SameSequence(all, g.entries[0], p);
    forall x | OnBoundary(levels, j, f, x) ensures AtMost(Smallest(g), Smallest(x)) {
      FirstIsAtMost(all, g.entries[0], x.entries[0]);
    }
  }

  lemma UncoveredIsStraddled(levels: Levels, j: Job, upper: set<Entry>, d: Entry, p: Entry)
    requires Picked(levels, j, upper)
    requires Uncovers(LevelEntries(j.in0 + j.in1), Others(levels, j, upper), j.horizon, j.base, d, p)
    ensures Straddled(levels, j, upper)
  {
    PickedFacts(levels, j, upper);
    WholeContents(levels, j, upper);
    if p.key.sequence == d.key.sequence { SameSequence(upper + AllEntries(levels), p, d); }
    var f, g := OlderIsBoundary(levels, j, upper, d, p);
    NewestBegins(levels, j, upper, f, g, d, p);
    assert LeftBoundary(levels, j, f, g) && Covers(levels, j, upper, g, d);
  }

  /** A file left behind after one input comes after all of them. */
  lemma AfterAll(levels: Levels, j: Job, fd: Table, f: Table, x: Table)
    requires j.level + 1 < |levels| && j.level >= 0 && Safe(levels, j.level, j.in0, j.in1)
    requires fd in j.in1 && f in j.in1 && x in levels[j.level + 1] - j.in1 && Before(fd, x)
    ensures Before(f, x)
  {
    assert OneSide(x, j.in0 + j.in1);
    BeforeIsOneWay(fd, x);
  }

  lemma FirstOnBoundary(levels: Levels, j: Job, fd: Table, f: Table, g: Table, x: Table, y: Entry)
    requires j.level + 1 < |levels| && Safe(levels, j.level, j.in0, j.in1) && LeftBoundary(levels, j, f, g)
    requires fd in j.in1 && OnBoundary(levels, j, fd, x) && y in x.entries && Lo(x) == Lo(g) == y.key.user
    ensures y.key.sequence <= Smallest(g).sequence
  {
    AfterAll(levels, j, fd, f, x);
    assert OnBoundary(levels, j, f, x);
    SmallestIsNewest(x, y);
  }

  lemma OlderIsAtMost(levels: Levels, j: Job, upper: set<Entry>, f: Table, g: Table, d: Entry, y: Entry)
    requires Picked(levels, j, upper) && LeftBoundary(levels, j, f, g) && Lo(g) in j.base
    requires d in LevelEntries(j.in0 + j.in1) && d.key.user == y.key.user == Lo(g)
    requires y in Others(levels, j, upper) && y.key.sequence < d.key.sequence
    ensures y.key.sequence <= Smallest(g).sequence
  {
    var fd, x := OlderIsBoundary(levels, j, upper, d, y);
    FirstOnBoundary(levels, j, fd, f, g, x, y);
  }

  lemma BeforeIsOneWay(f: Table, g: Table)
    ensures !(Before(f, g) && Before(g, f))
  {
    Bounds(f);
    Bounds(g);
  }

  lemma BelowTheTombstone(levels: Levels, j: Job, upper: set<Entry>, f: Table, g: Table, d: Entry)
    requires Picked(levels, j, upper) && LeftBoundary(levels, j, f, g) && Smallest(g).kind.Value?
    requires d in LevelEntries(j.in0 + j.in1) && d.key.user == Lo(g) && d.key.kind.Deletion?
    ensures Smallest(g).sequence < d.key.sequence
  {
    PickedFacts(levels, j, upper);
    var fd, _ := InputLevel(levels, j, d);
    if fd in j.in0 {
      assert LevelNewer(levels[j.level], levels[j.level + 1]);
      UpperInputIsNewer(levels, j, fd, g, d);
    } else {
      AfterAll(levels, j, f, fd, g);
      BesideIsNewer(levels, j, upper, fd, g, d);
    }
  }

  lemma BesideIsNewer(levels: Levels, j: Job, upper: set<Entry>, fd: Table, g: Table, d: Entry)
    requires Selected(levels, j) && Distinct(upper + AllEntries(levels)) && g in levels[j.level + 1] - j.in1
      && d in LevelEntries(j.in0 + j.in1)
    requires Before(fd, g) && d in fd.entries && d.key.user == Lo(g) && d.key.kind != Smallest(g).kind
    ensures Smallest(g).sequence < d.key.sequence
  {
    SmallestIsLeftBehind(levels, j, g);
    BoundaryIsOlder(fd, g, d);
    WholeContents(levels, j, upper);
    var p := g.entries[0];
    if p.key.sequence == d.key.sequence { SameSequence(upper + AllEntries(levels), p, d); }
  }

  lemma UpperInputIsNewer(levels: Levels, j: Job, fd: Table, g: Table, d: Entry)
    requires j.level + 1 < |levels| && LevelNewer(levels[j.level], levels[j.level + 1])
    requires fd in levels[j.level] && g in levels[j.level + 1] && d in fd.entries && d.key.user == Lo(g)
    ensures Smallest(g).sequence < d.key.sequence
  {
    assert Newer(fd, g) && g.entries[0] in g.entries;
  }

  lemma StraddledIsUncovered(levels: Levels, j: Job, upper: set<Entry>, f: Table, g: Table, d: Entry)
    requires Picked(levels, j, upper) && LeftBoundary(levels, j, f, g) && Smallest(g).kind.Value?
      && Lo(g) in j.base
    requires d in LevelEntries(j.in0 + j.in1) && d.key.kind.Deletion?
      && IsNewest(upper + AllEntries(levels), Lo(g), j.horizon, d)
    ensures Uncovers(LevelEntries(j.in0 + j.in1), Others(levels, j, upper), j.horizon, j.base, d, g.entries[0])
  {
    WholeContents(levels, j, upper);
    BelowTheTombstone(levels, j, upper, f, g, d);
    SmallestIsLeftBehind(levels, j, g);
    NewestLeftBehind(levels, j, upper, f, g, d);
  }

  lemma NewestLeftBehind(levels: Levels, j: Job, upper: set<Entry>, f: Table, g: Table, d: Entry)
    requires Picked(levels, j, upper) && LeftBoundary(levels, j, f, g) && Smallest(g).kind.Value? && Lo(g) in j.base
    requires d in LevelEntries(j.in0 + j.in1) && d.key.kind.Deletion?
      && IsNewest(upper + AllEntries(levels), Lo(g), j.horizon, d)
    ensures forall y :: y in Others(levels, j, upper) && Candidate(y, Lo(g), j.horizon) ==>
      y.key.sequence <= Smallest(g).sequence
  {
    WholeContents(levels, j, upper);
    forall y | y in Others(levels, j, upper) && Candidate(y, Lo(g), j.horizon)
      ensures y.key.sequence <= Smallest(g).sequence
    {
      assert y in upper + AllEntries(levels);
      OlderOrSame(levels, j, upper, f, g, d, y);
    }
  }

  lemma OlderOrSame(levels: Levels, j: Job, upper: set<Entry>, f: Table, g: Table, d: Entry, y: Entry)
    requires Picked(levels, j, upper) && LeftBoundary(levels, j, f, g) && Lo(g) in j.base
    requires d in LevelEntries(j.in0 + j.in1) && d.key.user == y.key.user == Lo(g) && y in Others(levels, j, upper)
      && y.key.sequence <= d.key.sequence
    ensures y.key.sequence <= Smallest(g).sequence
  {
    if y.key.sequence < d.key.sequence {
      OlderIsAtMost(levels, j, upper, f, g, d, y);
    } else {
      InputsStandApart(levels, j, upper, d, y);
    }
  }

  lemma InputsStandApart(levels: Levels, j: Job, upper: set<Entry>, d: Entry, y: Entry)
    requires Picked(levels, j, upper) && d in LevelEntries(j.in0 + j.in1) && y in Others(levels, j, upper)
    requires y.key.user == d.key.user && d.key.user in j.base
    ensures y.key.sequence != d.key.sequence
  {
    PickedFacts(levels, j, upper);
    WholeContents(levels, j, upper);
    var _, _ := OlderIsBoundary(levels, j, upper, d, y);
    if y.key.sequence == d.key.sequence { SameSequence(upper + AllEntries(levels), y, d); }
  }

  /** A job meets every other demand on its inputs: then reads at the horizon and after it survive
      the compaction if and only if no file left behind goes on, with a value, where an input of the
      next level ends in a tombstone that is the newest entry of its key. */
  lemma ReadsSurviveUnlessStraddled(levels: Levels, j: Job, upper: set<Entry>)
    requires Picked(levels, j, upper)
    ensures var inputs, rest := LevelEntries(j.in0 + j.in1), Others(levels, j, upper);
      SameReads(inputs + rest, Kept(inputs, j.horizon, j.base) + rest, j.horizon) <==> !Straddled(levels, j, upper)
  {
    var inputs, rest := LevelEntries(j.in0 + j.in1), Others(levels, j, upper);
    PickedFacts(levels, j, upper);
    WholeContents(levels, j, upper);
    CompactionPreservesReads(inputs, rest, j.horizon, j.base);
    if d, p :| Uncovers(inputs, rest, j.horizon, j.base, d, p) {
      UncoveredIsStraddled(levels, j, upper, d, p);
    }
    if f, g, d :| LeftBoundary(levels, j, f, g) && Covers(levels, j, upper, g, d) {
      StraddledIsUncovered(levels, j, upper, f, g, d);
    }
  }
}
