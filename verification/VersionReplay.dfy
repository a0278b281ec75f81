/** Applying edits to a version (VersionSet::Builder, db/version_set.cc): one builder for a whole
    manifest, as recovery uses it, gives what a builder per edit gives. */
module VersionReplay {
  import opened InternalKeys
  import opened ReadSpec

  datatype File = File(number: nat, size: nat, smallest: InternalKey, largest: InternalKey)

  /** The part of an edit that changes files: numbers and files per level. */
  datatype Edit = Edit(deleted: seq<set<nat>>, added: seq<seq<File>>)

  /** BySmallestKey: ties are broken by file number. */
  predicate Before(f: File, g: File) {
    Less(f.smallest, g.smallest) || (!Less(g.smallest, f.smallest) && f.number < g.number)
  }

  ghost predicate Ordered(s: seq<File>) {
    forall i, j :: 0 <= i < j < |s| ==> Before(s[i], s[j])
  }

  ghost predicate DistinctNumbers(s: set<File>) {
    forall f, g :: f in s && g in s && f.number == g.number ==> f == g
  }

  ghost function SetOf(s: seq<File>): set<File> {
    set f | f in s
  }

  function Numbers(s: seq<File>): set<nat> {
    set f | f in s :: f.number
  }

  lemma BeforeIsOrder(f: File, g: File, h: File)
    ensures !Before(f, f)
    ensures Before(f, g) && Before(g, h) ==> Before(f, h)
    ensures f.number != g.number ==> Before(f, g) || Before(g, f)
  {
  }

  lemma EmptySet(s: seq<File>)
    ensures SetOf(s) == {} ==> s == []
  {
    if s != [] { assert s[0] in SetOf(s); }
  }

  /** An order on the elements leaves one way to list a set. */
  lemma {:induction false} OrderedOnce(a: seq<File>, b: seq<File>)
    requires Ordered(a) && Ordered(b) && SetOf(a) == SetOf(b)
    ensures a == b
  {
    if a == [] {
      EmptySet(b);
    } else {
      assert a[0] in SetOf(a);
      if b == [] {
        assert false;
      } else {
        FirstIsFirst(a, b);
        assert a[0] == b[0];
        RestSet(a);
        RestSet(b);
        OrderedOnce(a[1..], b[1..]);
      }
    }
  }

  lemma RestSet(a: seq<File>)
    requires a != [] && Ordered(a)
    ensures SetOf(a[1..]) == SetOf(a) - {a[0]}
  {
    forall f ensures f in SetOf(a[1..]) <==> f in SetOf(a) - {a[0]} {
      if f in a[1..] {
        var i :| 0 <= i < |a| - 1 && a[1..][i] == f;
        assert Before(a[0], a[i + 1]);
        BeforeIsOrder(a[0], f, f);
      }
    }
  }

  lemma FirstIsFirst(a: seq<File>, b: seq<File>)
    requires a != [] && b != [] && Ordered(a) && Ordered(b) && SetOf(a) == SetOf(b)
    ensures a[0] == b[0]
  {
    assert a[0] in SetOf(b) && b[0] in SetOf(a);
    var i :| 0 <= i < |b| && b[i] == a[0];
    var j :| 0 <= j < |a| && a[j] == b[0];
    if i > 0 && j > 0 {
      assert Before(b[0], a[0]) && Before(a[0], b[0]);
      BeforeIsOrder(a[0], b[0], a[0]);
    }
  }

  /** std::set::insert into the added files. */
  function InsertFile(s: seq<File>, f: File): seq<File> {
    if s == [] || Before(f, s[0]) then [f] + s else if !Before(s[0], f) then s else [s[0]] + InsertFile(s[1..], f)
  }

  lemma {:induction false} InsertKeepsOrder(s: seq<File>, f: File)
    requires Ordered(s) && f.number !in Numbers(s)
    ensures Ordered(InsertFile(s, f)) && forall g :: g in InsertFile(s, f) <==> g in s || g == f
  {
    if s != [] {
      assert s[0].number in Numbers(s);
      BeforeIsOrder(s[0], f, f);
      BeforeIsOrder(f, s[0], f);
      if Before(f, s[0]) {
        forall i | 0 <= i < |s| ensures Before(f, s[i]) { BeforeIsOrder(f, s[0], s[i]); }
      } else {
        forall g | g in s[1..] ensures g.number in Numbers(s) { assert g in s; }
        InsertKeepsOrder(s[1..], f);
        var rest := InsertFile(s[1..], f);
        forall i | 0 <= i < |rest| ensures Before(s[0], rest[i]) {
          assert rest[i] in rest;
          if rest[i] != f { var j :| 0 <= j < |s[1..]| && s[1..][j] == rest[i]; assert Before(s[0], s[j + 1]); }
        }
        forall g ensures g in InsertFile(s, f) <==> g in s || g == f {
          assert g in s <==> g == s[0] || g in s[1..];
        }
      }
    }
  }

  /** What a builder keeps of a level: the files added and the numbers deleted. */
  datatype LevelState = LevelState(added: set<File>, deleted: set<nat>)

  ghost function BuilderState(edits: seq<Edit>, level: nat): LevelState
    requires level < NUM_LEVELS && forall e :: e in edits ==> |e.added| == |e.deleted| == NUM_LEVELS
  {
    if edits == [] then LevelState({}, {})
    else
      var s, e := BuilderState(edits[..|edits| - 1], level), edits[|edits| - 1];
      LevelState(s.added + SetOf(e.added[level]), (s.deleted + e.deleted[level]) - Numbers(e.added[level]))
  }

  /** What SaveTo leaves of base and added files. */
  ghost function Saved(base: set<File>, s: LevelState): set<File> {
    set f | f in base + s.added && f.number !in s.deleted
  }

  /** A version per edit. */
  ghost function Stepwise(base: set<File>, edits: seq<Edit>, level: nat): set<File>
    requires level < NUM_LEVELS && forall e :: e in edits ==> |e.added| == |e.deleted| == NUM_LEVELS
  {
    if edits == [] then base
    else Saved(Stepwise(base, edits[..|edits| - 1], level), BuilderState([edits[|edits| - 1]], level))
  }

  /** No file number is added to a level that has or had it. */
  ghost predicate FreshNumbers(base: set<File>, edits: seq<Edit>, level: nat)
    requires level < NUM_LEVELS && forall e :: e in edits ==> |e.added| == |e.deleted| == NUM_LEVELS
  {
    && DistinctNumbers(base)
    && forall i :: 0 <= i < |edits| ==>
      && (forall f, g :: f in edits[i].added[level] && g in base + BuilderState(edits[..i], level).added ==>
          f.number != g.number)
      && (forall j, k :: 0 <= j < k < |edits[i].added[level]| ==>
          edits[i].added[level][j].number != edits[i].added[level][k].number)
  }

  lemma SaveTwice(base: set<File>, s: LevelState, add: seq<File>, del: set<nat>)
    requires forall f, g :: f in add && g in base + s.added ==> f.number != g.number
    ensures Saved(base, LevelState(s.added + SetOf(add), (s.deleted + del) - Numbers(add))) ==
        Saved(Saved(base, s), LevelState(SetOf(add), del - Numbers(add)))
  {
    forall f | f in base + s.added ensures f.number !in Numbers(add) {
    }
    forall f | f in add ensures f.number in Numbers(add) {
    }
  }

  lemma OneEdit(e: Edit, level: nat)
    requires level < NUM_LEVELS && |e.added| == |e.deleted| == NUM_LEVELS
    ensures BuilderState([e], level) == LevelState(SetOf(e.added[level]), e.deleted[level] - Numbers(e.added[level]))
  {
    assert [e][..0] == [];
    assert {} + SetOf(e.added[level]) == SetOf(e.added[level]) && {} + e.deleted[level] == e.deleted[level];
  }

  /** One builder for all edits saves what a version per edit ends with. */
  lemma {:induction false} OneBuilderIsStepwise(base: set<File>, edits: seq<Edit>, level: nat)
    requires level < NUM_LEVELS && (forall e :: e in edits ==> |e.added| == |e.deleted| == NUM_LEVELS)
      && FreshNumbers(base, edits, level)
    ensures Saved(base, BuilderState(edits, level)) == Stepwise(base, edits, level)
  {
    if edits != [] {
      var n := |edits| - 1;
      var init, e := edits[..n], edits[n];
      assert forall i :: 0 <= i < n ==> init[..i] == edits[..i];
      OneBuilderIsStepwise(base, init, level);
      OneEdit(e, level);
      SaveTwice(base, BuilderState(init, level), e.added[level], e.deleted[level]);
    }
  }

  class Builder {
    const base: seq<seq<File>>
    var added: seq<seq<File>>
    var deleted: seq<set<nat>>
    ghost var edits: seq<Edit>

    ghost predicate Ok()
      reads this
    {
      && |base| == |added| == |deleted| == NUM_LEVELS
      && (forall e :: e in edits ==> |e.added| == |e.deleted| == NUM_LEVELS)
      && forall l :: 0 <= l < NUM_LEVELS ==> LevelOk(added[l], deleted[l], BuilderState(edits, l))
    }

    constructor (base: seq<seq<File>>)
      requires |base| == NUM_LEVELS
      ensures Ok() && edits == [] && this.base == base
    {
      this.base := base;
      added, deleted, edits := seq(NUM_LEVELS, _ => []), seq(NUM_LEVELS, _ => {}), [];
    }

    method Apply(edit: Edit)
      requires Ok() && |edit.added| == |edit.deleted| == NUM_LEVELS
      requires forall l :: 0 <= l < NUM_LEVELS ==> Addable(BuilderState(edits, l).added, edit.added[l])
      modifies this
      ensures Ok() && edits == old(edits) + [edit]
    {
      ghost var history := edits + [edit];
      assert history[..|edits|] == edits;
      for level := 0 to NUM_LEVELS
        invariant |added| == |deleted| == NUM_LEVELS && edits == old(edits)
        invariant forall l :: 0 <= l < level ==> LevelOk(added[l], deleted[l], BuilderState(history, l))
        invariant forall l :: level <= l < NUM_LEVELS ==> LevelOk(added[l], deleted[l], BuilderState(edits, l))
      {
        var files, numbers := ApplyLevel(added[level], deleted[level], edit.added[level], edit.deleted[level],
            BuilderState(edits, level));
        added, deleted := added[level := files], deleted[level := numbers];
      }
      edits := history;
    }

    /** Each level merged with the added files, without the deleted ones, in order. */
    method SaveTo() returns (v: seq<seq<File>>)
      requires Ok() && forall l :: 0 <= l < NUM_LEVELS ==> Ordered(base[l]) && Numbers(base[l]) !! Numbers(added[l])
      ensures |v| == NUM_LEVELS && forall l :: 0 <= l < NUM_LEVELS ==>
        Ordered(v[l]) && SetOf(v[l]) == Saved(SetOf(base[l]), BuilderState(edits, l))
    {
      v := [];
      for level := 0 to NUM_LEVELS
        invariant |v| == level && forall l :: 0 <= l < level ==>
          Ordered(v[l]) && SetOf(v[l]) == Saved(SetOf(base[l]), BuilderState(edits, l))
      {
        var files := SaveLevel(base[level], added[level], deleted[level]);
        assert SetOf(files) == Saved(SetOf(base[level]), BuilderState(edits, level));
        v := v + [files];
      }
    }
  }

  ghost predicate LevelOk(added: seq<File>, deleted: set<nat>, s: LevelState) {
    Ordered(added) && SetOf(added) == s.added && deleted == s.deleted
  }

  /** The numbers are new to what is there and to each other. */
  ghost predicate Addable(there: set<File>, add: seq<File>) {
    && (forall f, g :: f in add && g in there ==> f.number != g.number)
    && (forall j, k :: 0 <= j < k < |add| ==> add[j].number != add[k].number)
  }

  lemma NumberIsNew(before: set<File>, add: seq<File>, i: nat, files: seq<File>)
    requires Addable(before, add) && i < |add| && SetOf(files) == before + SetOf(add[..i])
    ensures add[i].number !in Numbers(files)
  {
    forall g | g in files ensures g.number != add[i].number {
      assert g in SetOf(files);
      assert g !in before ==> g in add[..i];
    }
  }

  method ApplyLevel(added: seq<File>, deleted: set<nat>, add: seq<File>, del: set<nat>, ghost s: LevelState)
    returns (files: seq<File>, numbers: set<nat>)
    requires LevelOk(added, deleted, s) && Addable(s.added, add)
    ensures LevelOk(files, numbers, LevelState(s.added + SetOf(add), (s.deleted + del) - Numbers(add)))
  {
    files, numbers := added, deleted + del;
    for i := 0 to |add|
      invariant Ordered(files) && SetOf(files) == s.added + SetOf(add[..i])
        && numbers == (s.deleted + del) - Numbers(add[..i])
    {
      var f := add[i];
      assert add[..i + 1] == add[..i] + [f];
      NumberIsNew(s.added, add, i, files);
      InsertKeepsOrder(files, f);
      numbers := numbers - {f.number};
      files := InsertFile(files, f);
    }
    assert add[..|add|] == add;
  }

  /** Merges one level: before each added file the base files that precede it, then the rest. */
  method SaveLevel(base: seq<File>, added: seq<File>, deleted: set<nat>) returns (v: seq<File>)
    requires Ordered(base) && Ordered(added) && Numbers(base) !! Numbers(added)
    ensures Ordered(v) && forall f :: f in v <==> (f in base || f in added) && f.number !in deleted
  {
    v := [];
    var b := 0;
    for a := 0 to |added|
      invariant b <= |base| && Merged(v, base, b, added, a, deleted)
    {
      while b < |base| && !Before(added[a], base[b])
        invariant b <= |base| && Merged(v, base, b, added, a, deleted)
      {
        NumbersDiffer(base, b, added, a);
        BeforeIsOrder(base[b], added[a], base[b]);
        MergeStep(v, base, b, added, a, deleted, base[b], b + 1, a);
        v := v + if base[b].number in deleted then [] else [base[b]];
        b := b + 1;
      }
      MergeStep(v, base, b, added, a, deleted, added[a], b, a + 1);
      v := v + if added[a].number in deleted then [] else [added[a]];
    }
    while b < |base|
      invariant b <= |base| && Merged(v, base, b, added, |added|, deleted)
    {
      MergeStep(v, base, b, added, |added|, deleted, base[b], b + 1, |added|);
      v := v + if base[b].number in deleted then [] else [base[b]];
      b := b + 1;
    }
  }

  lemma NumbersDiffer(base: seq<File>, b: nat, added: seq<File>, a: nat)
    requires Numbers(base) !! Numbers(added) && b < |base| && a < |added|
    ensures base[b].number != added[a].number
  {
    assert base[b].number in Numbers(base) && added[a].number in Numbers(added);
  }

  /** The files taken so far, in order, all before those still to come. */
  ghost predicate Merged(v: seq<File>, base: seq<File>, b: nat, added: seq<File>, a: nat, deleted: set<nat>)
    requires b <= |base| && a <= |added|
  {
    && Ordered(v)
    && (forall f :: f in v <==> (f in base[..b] || f in added[..a]) && f.number !in deleted)
    && (forall f, j :: f in v && b <= j < |base| ==> Before(f, base[j]))
    && (forall f, j :: f in v && a <= j < |added| ==> Before(f, added[j]))
  }

  lemma MergeStep(v: seq<File>, base: seq<File>, b: nat, added: seq<File>, a: nat, deleted: set<nat>, f: File, b': nat,
                  a': nat)
    requires b <= |base| && a <= |added| && Merged(v, base, b, added, a, deleted) && Ordered(base) && Ordered(added)
    requires (b < |base| && f == base[b] && b' == b + 1 && a' == a && (a < |added| ==> Before(f, added[a]))) ||
             (a < |added| && f == added[a] && b' == b && a' == a + 1 && (b < |base| ==> Before(f, base[b])))
    ensures Merged(v + if f.number in deleted then [] else [f], base, b', added, a', deleted)
  {
    assert base[..b'] == base[..b] + base[b..b'] && added[..a'] == added[..a] + added[a..a'];
    forall j | b' <= j < |base| ensures Before(f, base[j]) {
      if b < j && b < |base| { BeforeIsOrder(f, base[b], base[j]); }
    }
    forall j | a' <= j < |added| ensures Before(f, added[j]) {
      if a < j && a < |added| { BeforeIsOrder(f, added[a], added[j]); }
    }
  }

  ghost predicate Manifest(base: seq<seq<File>>, edits: seq<Edit>) {
    && |base| == NUM_LEVELS && (forall e :: e in edits ==> |e.added| == |e.deleted| == NUM_LEVELS)
    && forall l :: 0 <= l < NUM_LEVELS ==> Ordered(base[l]) && FreshNumbers(SetOf(base[l]), edits, l)
  }

  lemma {:induction false} AddedAreFresh(base: set<File>, edits: seq<Edit>, level: nat)
    requires level < NUM_LEVELS && (forall e :: e in edits ==> |e.added| == |e.deleted| == NUM_LEVELS)
      && FreshNumbers(base, edits, level)
    ensures forall f, g :: f in BuilderState(edits, level).added && g in base ==> f.number != g.number
    ensures Stepwise(base, edits, level) <= base + BuilderState(edits, level).added
  {
    if edits != [] {
      var n := |edits| - 1;
      var init := edits[..n];
      assert forall i :: 0 <= i < n ==> init[..i] == edits[..i];
      AddedAreFresh(base, init, level);
      OneEdit(edits[n], level);
      assert BuilderState(edits, level).added == BuilderState(init, level).added + SetOf(edits[n].added[level]);
    }
  }

  lemma ManifestPrefix(base: seq<seq<File>>, edits: seq<Edit>, n: nat)
    requires Manifest(base, edits) && n <= |edits|
    ensures Manifest(base, edits[..n])
  {
    assert forall i :: 0 <= i < n ==> edits[..n][..i] == edits[..i];
  }

  /** The next edit can be applied, by the builder of all edits and by one of its own. */
  lemma NextIsAddable(base: seq<seq<File>>, edits: seq<Edit>, n: nat, l: nat)
    requires Manifest(base, edits) && n < |edits| && l < NUM_LEVELS
    ensures Addable(BuilderState(edits[..n], l).added, edits[n].added[l]) && Addable({}, edits[n].added[l])
    ensures Numbers(edits[n].added[l]) !! (set f | f in Stepwise(SetOf(base[l]), edits[..n], l) :: f.number)
  {
    ManifestPrefix(base, edits, n);
    AddedAreFresh(SetOf(base[l]), edits[..n], l);
    assert FreshNumbers(SetOf(base[l]), edits, l);
  }

  /** Recovery: one builder for the whole manifest. */
  method Recover(base: seq<seq<File>>, edits: seq<Edit>) returns (v: seq<seq<File>>)
    requires Manifest(base, edits)
    ensures |v| == NUM_LEVELS && forall l :: 0 <= l < NUM_LEVELS ==>
      Ordered(v[l]) && SetOf(v[l]) == Stepwise(SetOf(base[l]), edits, l)
  {
    var builder := new Builder(base);
    for i := 0 to |edits|
      invariant fresh(builder) && builder.base == base && builder.Ok() && builder.edits == edits[..i]
    {
      forall l | 0 <= l < NUM_LEVELS
        ensures Addable(BuilderState(edits[..i], l).added, edits[i].added[l])
      {
        NextIsAddable(base, edits, i, l);
      }
      builder.Apply(edits[i]);
      assert edits[..i] + [edits[i]] == edits[..i + 1];
    }
    assert edits[..|edits|] == edits;
    forall l | 0 <= l < NUM_LEVELS
      ensures Numbers(base[l]) !! Numbers(builder.added[l])
        && Saved(SetOf(base[l]), BuilderState(edits, l)) == Stepwise(SetOf(base[l]), edits, l)
    {
      AddedAreFresh(SetOf(base[l]), edits, l);
      OneBuilderIsStepwise(SetOf(base[l]), edits, l);
      NumbersApart(base[l], builder.added[l]);
    }
    v := builder.SaveTo();
  }

  lemma NumbersApart(a: seq<File>, b: seq<File>)
    requires forall f, g :: f in SetOf(b) && g in SetOf(a) ==> f.number != g.number
    ensures Numbers(a) !! Numbers(b)
  {
    forall f, g | f in a && g in b ensures f.number != g.number {
      assert f in SetOf(a) && g in SetOf(b);
    }
  }

  /** LogAndApply, edit after edit: each version is built from the one before. */
  method ApplyEach(base: seq<seq<File>>, edits: seq<Edit>) returns (v: seq<seq<File>>)
    requires Manifest(base, edits)
    ensures |v| == NUM_LEVELS && forall l :: 0 <= l < NUM_LEVELS ==>
      Ordered(v[l]) && SetOf(v[l]) == Stepwise(SetOf(base[l]), edits, l)
  {
    v := base;
    for i := 0 to |edits|
      invariant |v| == NUM_LEVELS && forall l :: 0 <= l < NUM_LEVELS ==>
        Ordered(v[l]) && SetOf(v[l]) == Stepwise(SetOf(base[l]), edits[..i], l)
    {
      v := ApplyOne(base, edits, i, v);
    }
    assert edits[..|edits|] == edits;
  }

  method ApplyOne(ghost base: seq<seq<File>>, edits: seq<Edit>, i: nat, v: seq<seq<File>>) returns (w: seq<seq<File>>)
    requires Manifest(base, edits) && i < |edits| && |v| == NUM_LEVELS
    requires forall l :: 0 <= l < NUM_LEVELS ==> Ordered(v[l]) && SetOf(v[l]) == Stepwise(SetOf(base[l]), edits[..i], l)
    ensures |w| == NUM_LEVELS && forall l :: 0 <= l < NUM_LEVELS ==>
      Ordered(w[l]) && SetOf(w[l]) == Stepwise(SetOf(base[l]), edits[..i + 1], l)
  {
    var builder := new Builder(v);
    forall l | 0 <= l < NUM_LEVELS
      ensures Addable(BuilderState([], l).added, edits[i].added[l])
    {
      NextIsAddable(base, edits, i, l);
    }
    builder.Apply(edits[i]);
    assert [] + [edits[i]] == [edits[i]];
    forall l | 0 <= l < NUM_LEVELS ensures Numbers(v[l]) !! Numbers(builder.added[l]) {
      OneEdit(edits[i], l);
      NextIsAddable(base, edits, i, l);
      assert SetOf(builder.added[l]) == SetOf(edits[i].added[l]);
      StepApart(base, edits, i, l, v[l], builder.added[l]);
    }
    w := builder.SaveTo();
    assert edits[..i + 1][..i] == edits[..i];
  }

  lemma StepApart(base: seq<seq<File>>, edits: seq<Edit>, i: nat, l: nat, v: seq<File>, added: seq<File>)
    requires Manifest(base, edits) && i < |edits| && l < NUM_LEVELS
    requires SetOf(v) == Stepwise(SetOf(base[l]), edits[..i], l) && SetOf(added) == SetOf(edits[i].added[l])
    ensures Numbers(v) !! Numbers(added)
  {
    NextIsAddable(base, edits, i, l);
    forall f, g | f in SetOf(added) && g in SetOf(v) ensures f.number != g.number {
      assert f.number in Numbers(edits[i].added[l]);
      assert g.number in (set f | f in Stepwise(SetOf(base[l]), edits[..i], l) :: f.number);
    }
    NumbersApart(v, added);
  }

  /** Recovering from a manifest gives the version that was current when it was written. */
  method RecoverIsCurrent(base: seq<seq<File>>, edits: seq<Edit>)
    returns (recovered: seq<seq<File>>, current: seq<seq<File>>)
    requires Manifest(base, edits)
    ensures recovered == current
  {
    recovered := Recover(base, edits);
    current := ApplyEach(base, edits);
    forall l | 0 <= l < NUM_LEVELS ensures recovered[l] == current[l] { OrderedOnce(recovered[l], current[l]); }
  }
}
