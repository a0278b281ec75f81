/** Point lookup in a version (db/version_set.cc, Version::Get). */
module VersionGet {
  import opened InternalKeys
  import opened ReadSpec
  import opened Levels
  import opened VersionQueries

  /** The first entry at or after `key`, as Table::InternalGet delivers it. */
  function SeekEntry(s: seq<Entry>, key: InternalKey): Option<Entry> {
    if s == [] then None
    else if AtMost(key, s[0].key) then Some(s[0])
    else SeekEntry(s[1..], key)
  }

  datatype SaverState = NotFound | Found(value: Bytes) | Deleted

  /** SaveValue: what the delivered entry says about `u`. */
  function SaveValue(r: Option<Entry>, u: UserKey): SaverState {
    if r.None? || r.value.key.user != u then NotFound
    else if r.value.key.kind.Value? then Found(r.value.value)
    else Deleted
  }

  ghost predicate NoCandidate(s: set<Entry>, u: UserKey, snapshot: int) {
    forall e :: e in s ==> !Candidate(e, u, snapshot)
  }

  ghost predicate NewestIn(s: seq<Entry>, u: UserKey, snapshot: int, e: Entry) {
    e in s && Candidate(e, u, snapshot) && forall x :: x in s && Candidate(x, u, snapshot) ==>
        x.key.sequence <= e.key.sequence
  }

  /** Seeking to the lookup key finds the newest visible entry of the table. */
  lemma {:induction false} SeekFindsNewest(s: seq<Entry>, u: UserKey, snapshot: SequenceNumber)
    requires Sorted(s)
    ensures var r := SeekEntry(s, LookupKey(u, snapshot));
            if r.Some? && r.value.key.user == u then NewestIn(s, u, snapshot, r.value)
            else forall e :: e in s ==> !Candidate(e, u, snapshot)
  {
    if s != [] {
      if AtMost(LookupKey(u, snapshot), s[0].key) {
        forall x | x in s ensures x == s[0] || Less(s[0].key, x.key) {
          var i :| 0 <= i < |s| && s[i] == x;
        }
      } else {
        SeekFindsNewest(s[1..], u, snapshot);
        assert s == [s[0]] + s[1..];
        assert !Candidate(s[0], u, snapshot);
      }
    }
  }

  /** std::sort with NewestFirst. */
  function InsertNewestFirst(f: Table, s: seq<Table>): seq<Table> {
    if s == [] || f.number > s[0].number then [f] + s else [s[0]] + InsertNewestFirst(f, s[1..])
  }

  ghost predicate NewestFirst(s: seq<Table>) {
    forall i, j :: 0 <= i < j < |s| ==> s[i].number >= s[j].number
  }

  lemma {:induction false} InsertKeepsOrder(f: Table, s: seq<Table>)
    requires NewestFirst(s)
    ensures NewestFirst(InsertNewestFirst(f, s))
    ensures forall x :: x in InsertNewestFirst(f, s) <==> x == f || x in s
  {
    if s != [] && f.number <= s[0].number {
      InsertKeepsOrder(f, s[1..]);
      var r := InsertNewestFirst(f, s[1..]);
      assert s == [s[0]] + s[1..];
      forall i | 0 <= i < |r| ensures s[0].number >= r[i].number {
        assert r[i] in r;
        assert r[i] == f || r[i] in s[1..];
      }
    }
  }

  /** The level-0 files that may hold `u`, newest first. */
  method OverlappingNewestFirst(files: seq<Table>, u: UserKey) returns (tmp: seq<Table>)
    ensures NewestFirst(tmp)
    ensures forall f :: f in tmp <==> f in files && Lo(f) <= u <= Hi(f)
  {
    tmp := [];
    for i := 0 to |files|
      invariant NewestFirst(tmp)
      invariant forall f :: f in tmp <==> f in files[..i] && Lo(f) <= u <= Hi(f)
    {
      var f := files[i];
      assert files[..i + 1] == files[..i] + [f];
      if u >= Lo(f) && u <= Hi(f) {
        InsertKeepsOrder(f, tmp);
        tmp := InsertNewestFirst(f, tmp);
      }
    }
    assert files[..|files|] == files;
  }

  /** The files of a level that a lookup has to read, in order. */
  method FilesToSearch(v: Files, level: nat, u: UserKey, snapshot: SequenceNumber) returns (files: seq<Table>)
    requires ValidVersion(v) && level < NUM_LEVELS
    ensures forall f :: f in files ==> f in v[level] && Lo(f) <= u <= Hi(f)
    ensures level == 0 ==> forall f :: f in v[0] && Lo(f) <= u <= Hi(f) ==> f in files
    ensures forall f, e :: f in v[level] && e in f.entries && Candidate(e, u, snapshot) ==>
      f in files || (files != [] && level > 0 && Before(files[0], f))
    ensures if level == 0 then NewestFirst(files) else |files| <= 1
    ensures files != [] && level > 0 ==> AtMost(LookupKey(u, snapshot), Largest(files[0])) && Lo(files[0]) <= u
  {
    if level == 0 {
      files := OverlappingNewestFirst(v[0], u);
      forall f, e | f in v[0] && e in f.entries && e.key.user == u ensures f in files {
        InRange(f, e);
      }
    } else {
      LevelDisjoint(v, level);
      var index := FindFile(v[level], LookupKey(u, snapshot));
      files := if index >= |v[level]| || u < Lo(v[level][index]) then [] else [v[level][index]];
      forall f, e | f in v[level] && e in f.entries && Candidate(e, u, snapshot)
        ensures f in files || (files != [] && Before(files[0], f))
      {
        InRange(f, e);
        var i :| 0 <= i < |v[level]| && v[level][i] == f;
        assert index <= i;
        Bounds(v[level][index]);
        assert index < i ==> Before(v[level][index], f);
      }
    }
  }

  /** A hit in one searched file is newest in the whole version once no earlier
      level and no earlier file of its own level holds a candidate. */
  lemma HitIsNewest(v: Files, level: nat, u: UserKey, snapshot: int, files: seq<Table>, i: nat, e: Entry)
    requires ValidVersion(v) && Distinct(AllEntries(LevelsOf(v))) && level < NUM_LEVELS && i < |files|
    requires forall f :: f in files ==> f in v[level]
    requires forall f, x :: f in v[level] && x in f.entries && Candidate(x, u, snapshot) ==>
      f in files || (files != [] && level > 0 && Before(files[0], f))
    requires if level == 0 then NewestFirst(files) else |files| <= 1
    requires forall l, f, x :: 0 <= l < level && f in v[l] && x in f.entries ==> !Candidate(x, u, snapshot)
    requires forall j, x :: 0 <= j < i && x in files[j].entries ==> !Candidate(x, u, snapshot)
    requires NewestIn(files[i].entries, u, snapshot, e)
    ensures Newest(AllEntries(LevelsOf(v)), u, snapshot) == Some(e)
  {
    var levels := LevelsOf(v);
    forall l, f: Table, x | 0 <= l < NUM_LEVELS && f in levels[l] && x in f.entries && Candidate(x, u, snapshot)
      ensures x.key.sequence <= e.key.sequence
    {
      assert f in v[l] && files[i] in levels[level];
      if l > level {
        assert LevelNewer(levels[level], levels[l]);
        assert Newer(files[i], f);
      } else if l == level {
        NewestInLevel(v, level, u, snapshot, files, i, e, f, x);
      }
    }
    assert e in TableEntries(files[i]) && e in LevelEntries(levels[level]) && e in AllEntries(levels);
    forall x | x in AllEntries(levels) && Candidate(x, u, snapshot) ensures x.key.sequence <= e.key.sequence {
      var l :| 0 <= l < |levels| && x in LevelEntries(levels[l]);
      var f :| f in levels[l] && x in TableEntries(f);
    }
    NewestUnique(AllEntries(levels), u, snapshot, e);
  }

  lemma NewestInLevel(v: Files, level: nat, u: UserKey, snapshot: int, files: seq<Table>, i: nat, e: Entry, f: Table,
                      x: Entry)
    requires ValidVersion(v) && level < NUM_LEVELS && i < |files|
    requires forall g :: g in files ==> g in v[level]
    requires f in files || (level > 0 && Before(files[0], f))
    requires if level == 0 then NewestFirst(files) else |files| <= 1
    requires forall j, y :: 0 <= j < i && y in files[j].entries ==> !Candidate(y, u, snapshot)
    requires NewestIn(files[i].entries, u, snapshot, e)
    requires f in v[level] && x in f.entries && Candidate(x, u, snapshot)
    ensures x.key.sequence <= e.key.sequence
  {
    var g := files[i];
    assert g in v[level] && g in LevelsOf(v)[level] && f in LevelsOf(v)[level];
    if f != g {
      if level == 0 {
        var j :| 0 <= j < |files| && files[j] == f;
        assert i < j && g.number >= f.number && g.number != f.number;
        assert Newer(g, f);
      } else {
        BeforeNewer(g, f);
      }
    }
  }

  /** The files of one level that may hold the key, until one of them decides. */
  method SearchLevel(v: Files, level: nat, u: UserKey, snapshot: SequenceNumber) returns (state: SaverState)
    requires ValidVersion(v) && Distinct(AllEntries(LevelsOf(v))) && level < NUM_LEVELS
    requires forall l, f, e :: 0 <= l < level && f in v[l] && e in f.entries ==> !Candidate(e, u, snapshot)
    ensures state.NotFound? ==> forall f, e :: f in v[level] && e in f.entries ==> !Candidate(e, u, snapshot)
    ensures state.Found? ==> Read(AllEntries(LevelsOf(v)), u, snapshot) == Some(state.value)
    ensures state.Deleted? ==> Read(AllEntries(LevelsOf(v)), u, snapshot) == None
  {
    var files := FilesToSearch(v, level, u, snapshot);
    for i := 0 to |files|
      invariant forall j, e :: 0 <= j < i && e in files[j].entries ==> !Candidate(e, u, snapshot)
    {
      var f := files[i];
      SeekFindsNewest(f.entries, u, snapshot);
      var r := SeekEntry(f.entries, LookupKey(u, snapshot));
      state := SaveValue(r, u);
      if !state.NotFound? {
        HitIsNewest(v, level, u, snapshot, files, i, r.value);
        return;
      }
    }
    forall f, e | f in v[level] && e in f.entries ensures !Candidate(e, u, snapshot) {
      NoneInLevel(files, level, u, snapshot, v, f, e);
    }
    state := NotFound;
  }

  /** Reading one level at a time finds the newest visible entry of the version. */
  method Get(v: Files, u: UserKey, snapshot: SequenceNumber) returns (result: Option<Bytes>)
    requires ValidVersion(v) && Distinct(AllEntries(LevelsOf(v)))
    ensures result == Read(AllEntries(LevelsOf(v)), u, snapshot)
  {
    for level := 0 to NUM_LEVELS
      invariant forall l, f, e :: 0 <= l < level && f in v[l] && e in f.entries ==> !Candidate(e, u, snapshot)
    {
      var state := SearchLevel(v, level, u, snapshot);
      match state {
        case NotFound =>
        case Found(value) => return Some(value);
        case Deleted => return None;
      }
    }
    forall e | e in AllEntries(LevelsOf(v)) ensures !Candidate(e, u, snapshot) {
      var l :| 0 <= l < |LevelsOf(v)| && e in LevelEntries(LevelsOf(v)[l]);
      var f :| f in LevelsOf(v)[l] && e in TableEntries(f);
      assert f in v[l];
    }
    return None;
  }

  /** If the one searched file of a deep level has no candidate, a later file has none either. */
  lemma NoneInLevel(files: seq<Table>, level: nat, u: UserKey, snapshot: SequenceNumber, v: Files, f: Table, e: Entry)
    requires ValidVersion(v) && level < NUM_LEVELS && f in v[level] && e in f.entries
    requires forall f, e :: f in v[level] && e in f.entries && Candidate(e, u, snapshot) ==>
      f in files || (files != [] && level > 0 && Before(files[0], f))
    requires files != [] && level > 0 ==> AtMost(LookupKey(u, snapshot), Largest(files[0])) && Lo(files[0]) <= u
    requires forall j, e :: 0 <= j < |files| && e in files[j].entries ==> !Candidate(e, u, snapshot)
    ensures !Candidate(e, u, snapshot)
  {
    InRange(f, e);
    if files != [] && level > 0 {
      var last := files[0].entries[|files[0].entries| - 1];
      assert last in files[0].entries && !Candidate(last, u, snapshot);
      assert Hi(files[0]) > u;
    }
  }
}
