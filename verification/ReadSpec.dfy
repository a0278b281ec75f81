/** What a read means: the newest entry at or below the snapshot decides. */
module ReadSpec {
  import opened InternalKeys

  datatype Option<+T> = None | Some(value: T)

  /** No two different entries of one user key share a sequence number. */
  ghost predicate Distinct(s: set<Entry>) {
    forall a, b :: a in s && b in s && a.key.user == b.key.user && a.key.sequence == b.key.sequence ==> a == b
  }

  predicate Candidate(e: Entry, u: UserKey, snapshot: int) {
    e.key.user == u && e.key.sequence <= snapshot
  }

  ghost predicate IsNewest(s: set<Entry>, u: UserKey, snapshot: int, e: Entry) {
    e in s && Candidate(e, u, snapshot) &&
    forall x :: x in s && Candidate(x, u, snapshot) ==> x.key.sequence <= e.key.sequence
  }

  ghost function Newest(s: set<Entry>, u: UserKey, snapshot: int): (r: Option<Entry>)
    ensures r.Some? ==> IsNewest(s, u, snapshot, r.value)
    ensures r.None? ==> forall e :: e in s ==> !Candidate(e, u, snapshot)
  {
    NewestExists(s, u, snapshot);
    if exists e :: IsNewest(s, u, snapshot, e) then
      var e :| IsNewest(s, u, snapshot, e); Some(e)
    else None
  }

  /** The value a read of `u` at `snapshot` returns; None is "not found". */
  ghost function Read(s: set<Entry>, u: UserKey, snapshot: int): Option<Bytes> {
    match Newest(s, u, snapshot)
    case Some(e) => if e.key.kind.Value? then Some(e.value) else None
    case None => None
  }

  ghost predicate SameReads(s: set<Entry>, t: set<Entry>, from: int) {
    forall u, snapshot :: snapshot >= from ==> Read(s, u, snapshot) == Read(t, u, snapshot)
  }

  lemma {:induction false} NewestExists(s: set<Entry>, u: UserKey, snapshot: int)
    ensures (exists e :: IsNewest(s, u, snapshot, e)) <==> (exists e :: e in s && Candidate(e, u, snapshot))
  {
    if e :| e in s && Candidate(e, u, snapshot) {
      var rest := s - {e};
      NewestExists(rest, u, snapshot);
      if x :| x in rest && Candidate(x, u, snapshot) {
        var m :| IsNewest(rest, u, snapshot, m);
        assert IsNewest(s, u, snapshot, if e.key.sequence < m.key.sequence then m else e);
      } else {
        assert IsNewest(s, u, snapshot, e);
      }
    }
  }

  lemma NewestUnique(s: set<Entry>, u: UserKey, snapshot: int, e: Entry)
    requires Distinct(s) && IsNewest(s, u, snapshot, e)
    ensures Newest(s, u, snapshot) == Some(e)
  {
    var r := Newest(s, u, snapshot).value;
    assert r.key.sequence == e.key.sequence;
  }
}
