/** Tables, levels and the invariant every version keeps
    (db/version_edit.h, db/version_set.cc). */
module Levels {
  import opened InternalKeys
  import opened ReadSpec

  const MAX_MEM_COMPACT_LEVEL := 2

  /** A table file: its number, its size in bytes and its entries in key order. */
  datatype TableData = TableData(number: nat, size: nat, entries: seq<Entry>)

  type Table = t: TableData | |t.entries| > 0 && Sorted(t.entries)
    witness TableData(0, 0, [Entry(InternalKey(0.0, 0, Deletion), [])])

  function Smallest(t: Table): InternalKey { t.entries[0].key }
  function Largest(t: Table): InternalKey { t.entries[|t.entries| - 1].key }

  /** The user-key range of a table. */
  function Lo(t: Table): UserKey { Smallest(t).user }
  function Hi(t: Table): UserKey { Largest(t).user }

  predicate Overlaps(f: Table, g: Table) {
    Lo(f) <= Hi(g) && Lo(g) <= Hi(f)
  }

  predicate Before(f: Table, g: Table) {
    Less(Largest(f), Smallest(g))
  }

  ghost predicate Ordered(level: set<Table>) {
    forall f, g :: f in level && g in level && f != g ==> Before(f, g) || Before(g, f)
  }

  /** Entries of `f` supersede the entries of `g` for the same user key. */
  ghost predicate Newer(f: Table, g: Table) {
    forall a, b :: a in f.entries && b in g.entries && a.key.user == b.key.user ==> a.key.sequence > b.key.sequence
  }

  ghost predicate LevelNewer(upper: set<Table>, lower: set<Table>) {
    forall f, g :: f in upper && g in lower ==> Newer(f, g)
  }

  /** Some table of `s` spans the point `x`. */
  ghost predicate Hit(s: set<Table>, x: UserKey) {
    exists h :: h in s && Lo(h) <= x <= Hi(h)
  }

  type Levels = seq<set<Table>>

  ghost predicate NumbersDistinct(levels: Levels) {
    forall i, j, f, g :: 0 <= i < |levels| && 0 <= j < |levels| && f in levels[i] && g in levels[j]
        && f.number == g.number
      ==> i == j && f == g
  }

  /** Newer data is never below older data. */
  ghost predicate WellFormed(levels: Levels) {
    && |levels| == NUM_LEVELS
    && (forall l :: 1 <= l < NUM_LEVELS ==> Ordered(levels[l]))
    && (forall i, j :: 0 <= i < j < NUM_LEVELS ==> LevelNewer(levels[i], levels[j]))
    && (forall f, g :: f in levels[0] && g in levels[0] && f.number > g.number ==> Newer(f, g))
    && NumbersDistinct(levels)
  }

  ghost function TableEntries(t: Table): set<Entry> {
    set e | e in t.entries
  }

  ghost function LevelEntries(level: set<Table>): set<Entry> {
    set f, e | f in level && e in TableEntries(f) :: e
  }

  ghost function AllEntries(levels: Levels): set<Entry> {
    set l, e | 0 <= l < |levels| && e in LevelEntries(levels[l]) :: e
  }

  lemma InRange(t: Table, e: Entry)
    requires e in t.entries
    ensures AtMost(Smallest(t), e.key) && AtMost(e.key, Largest(t))
    ensures Lo(t) <= e.key.user <= Hi(t)
  {
    var i :| 0 <= i < |t.entries| && t.entries[i] == e;
  }

  lemma NoOverlapNewer(f: Table, g: Table)
    requires !Overlaps(f, g)
    ensures Newer(f, g)
  {
    forall a, b | a in f.entries && b in g.entries && a.key.user == b.key.user ensures false {
      InRange(f, a);
      InRange(g, b);
      assert false;
    }
  }

  /** Within a sorted level, a table that comes first is newer. */
  lemma BeforeNewer(f: Table, g: Table)
    requires Before(f, g)
    ensures forall a, b :: a in f.entries && b in g.entries && a.key.user == b.key.user ==> Tag(a.key) > Tag(b.key)
  {
    forall a, b | a in f.entries && b in g.entries && a.key.user == b.key.user ensures Tag(a.key) > Tag(b.key) {
      InRange(f, a);
      InRange(g, b);
    }
  }

  lemma Bounds(t: Table)
    ensures AtMost(Smallest(t), Largest(t)) && Lo(t) <= Hi(t)
  {
    InRange(t, t.entries[0]);
  }

  /** Two tables of one level: the first one supersedes the second. */
  lemma EarlierIsNewer(level: set<Table>, f: Table, g: Table)
    requires Distinct(LevelEntries(level)) && f in level && g in level && Before(f, g)
    ensures Newer(f, g)
  {
    BeforeNewer(f, g);
    forall a, b | a in f.entries && b in g.entries && a.key.user == b.key.user
      ensures a.key.sequence > b.key.sequence
    {
      assert a in TableEntries(f) && b in TableEntries(g);
      assert a in LevelEntries(level) && b in LevelEntries(level);
    }
  }
}
