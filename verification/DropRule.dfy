/** The entries a compaction keeps, and exactly when dropping the others is
    invisible to readers (db/db_impl.cc, DoCompactionWork).

    `inputs` are the entries being merged, `rest` every other entry of the
    database, `horizon` the smallest snapshot still in use, and `base` the user
    keys for which the compaction believes no deeper level holds data. */
module DropRule {
  import opened InternalKeys
  import opened ReadSpec

  /** Rule (A): a newer input entry of the same key is already below the horizon. */
  ghost predicate Hidden(inputs: set<Entry>, horizon: int, e: Entry) {
    exists x :: x in inputs && Candidate(x, e.key.user, horizon) && x.key.sequence > e.key.sequence
  }

  ghost predicate ObsoleteTombstone(base: iset<UserKey>, horizon: int, e: Entry) {
    e.key.kind.Deletion? && e.key.sequence <= horizon && e.key.user in base
  }

  ghost predicate Keeps(inputs: set<Entry>, horizon: int, base: iset<UserKey>, e: Entry) {
    e in inputs && !Hidden(inputs, horizon, e) && !ObsoleteTombstone(base, horizon, e)
  }

  ghost function Kept(inputs: set<Entry>, horizon: int, base: iset<UserKey>): set<Entry> {
    set e | e in inputs && Keeps(inputs, horizon, base, e)
  }

  /** The entry decides what some reader still sees: at a snapshot in use, or at the latest state. */
  ghost predicate Needed(inputs: set<Entry>, horizon: int, e: Entry) {
    exists snapshot: int :: snapshot >= horizon && IsNewest(inputs, e.key.user, snapshot, e)
  }

  lemma NeededIsNotHidden(inputs: set<Entry>, horizon: int, e: Entry)
    requires e in inputs
    ensures Needed(inputs, horizon, e) <==> !Hidden(inputs, horizon, e)
  {
    if !Hidden(inputs, horizon, e) {
      var snapshot := if e.key.sequence > horizon then e.key.sequence else horizon;
      assert IsNewest(inputs, e.key.user, snapshot, e);
    }
  }

  /** What is kept is just what some reader needs, but for tombstones under which no deeper table has the key. */
  lemma KeptIsNeeded(inputs: set<Entry>, horizon: int, base: iset<UserKey>, e: Entry)
    ensures e in Kept(inputs, horizon, base) <==>
      Needed(inputs, horizon, e) && !(e.key.kind.Deletion? && e.key.sequence <= horizon && e.key.user in base)
  {
    if e in inputs { NeededIsNotHidden(inputs, horizon, e); }
  }

  /** A tombstone that decides the reads at the horizon is dropped although the
      entry it covers, outside the compaction, is a value. */
  ghost predicate Uncovers(inputs: set<Entry>, rest: set<Entry>, horizon: int, base: iset<UserKey>, d: Entry,
                           p: Entry) {
    d in inputs && ObsoleteTombstone(base, horizon, d) &&
    IsNewest(inputs + rest, d.key.user, horizon, d) &&
    IsNewest(rest, d.key.user, horizon, p) && p.key.kind.Value?
  }

  ghost predicate Resurrects(inputs: set<Entry>, rest: set<Entry>, horizon: int, base: iset<UserKey>) {
    exists d, p :: Uncovers(inputs, rest, horizon, base, d, p)
  }

  /** Compaction preserves every read at or above the horizon if and only if it
      resurrects no key. */
  lemma CompactionPreservesReads(inputs: set<Entry>, rest: set<Entry>, horizon: int, base: iset<UserKey>)
    requires Distinct(inputs + rest)
    ensures SameReads(inputs + rest, Kept(inputs, horizon, base) + rest, horizon)
       <==> !Resurrects(inputs, rest, horizon, base)
  {
    if d, p :| Uncovers(inputs, rest, horizon, base, d, p) {
      ResurrectedReadDiffers(inputs, rest, horizon, base, d, p);
      assert Read(inputs + rest, d.key.user, horizon) != Read(Kept(inputs, horizon, base) + rest, d.key.user, horizon);
    } else {
      forall u, snapshot | snapshot >= horizon
        ensures Read(inputs + rest, u, snapshot) == Read(Kept(inputs, horizon, base) + rest, u, snapshot)
      {
        ReadSurvives(inputs, rest, horizon, base, u, snapshot);
      }
    }
  }

  lemma ResurrectedReadDiffers(inputs: set<Entry>, rest: set<Entry>, horizon: int, base: iset<UserKey>, d: Entry,
                               p: Entry)
    requires Distinct(inputs + rest) && Uncovers(inputs, rest, horizon, base, d, p)
    ensures Read(inputs + rest, d.key.user, horizon) == None
    ensures Read(Kept(inputs, horizon, base) + rest, d.key.user, horizon) == Some(p.value)
  {
    var after := Kept(inputs, horizon, base) + rest;
    NewestUnique(inputs + rest, d.key.user, horizon, d);
    assert IsNewest(after, d.key.user, horizon, p);
    NewestUnique(after, d.key.user, horizon, p);
  }

  lemma ReadSurvives(inputs: set<Entry>, rest: set<Entry>, horizon: int, base: iset<UserKey>, u: UserKey, snapshot: int)
    requires Distinct(inputs + rest) && snapshot >= horizon && !Resurrects(inputs, rest, horizon, base)
    ensures Read(inputs + rest, u, snapshot) == Read(Kept(inputs, horizon, base) + rest, u, snapshot)
  {
    var before, after := inputs + rest, Kept(inputs, horizon, base) + rest;
    match Newest(before, u, snapshot)
    case None =>
    case Some(e) =>
      if e in after {
        NewestUnique(after, u, snapshot, e);
      } else {
        // e is the newest, so nothing hides it: it is an obsolete tombstone.
        assert ObsoleteTombstone(base, horizon, e);
        assert IsNewest(before, u, horizon, e);
        match Newest(after, u, snapshot)
        case None =>
        case Some(p) =>
          assert p.key.sequence < e.key.sequence;
          assert p !in inputs || Hidden(inputs, horizon, p);
          assert p in rest && IsNewest(rest, u, horizon, p);
          assert !Uncovers(inputs, rest, horizon, base, e, p);
      }
  }
}
