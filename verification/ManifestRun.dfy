/** The manifest of a run (db/version_set.cc, LogAndApply and WriteSnapshot): the edits its steps commit
    rebuild the levels, whether they are applied one by one or all by one builder. */
module ManifestRun {
  import opened InternalKeys
  import opened ReadSpec
  import opened Levels
  import opened Commit
  import opened Jobs
  import opened EngineState
  import opened EngineProof
  import VersionReplay

  type Edit = VersionReplay.Edit

  /** What an edit says of a table. */
  function FileOf(t: Table): VersionReplay.File {
    VersionReplay.File(t.number, t.size, Smallest(t), Largest(t))
  }

  ghost function FilesOf(s: set<Table>): set<VersionReplay.File> {
    set t | t in s :: FileOf(t)
  }

  ghost function AddedAt(s: State, step: Step, l: int): set<Table> {
    match step
    case Flush(p, t) => if l == p then {t} else {}
    case TrivialMove(from, f) => if l == from + 1 then {f} else {}
    case Install(outs) => if s.job.Some? && l == s.job.value.level + 1 then outs else {}
    case Recover(chunks, _, _, _, _) => if l == 0 then ChunkSet(chunks) else {}
    case _ => {}
  }

  ghost function RemovedAt(s: State, step: Step, l: int): set<Table> {
    match step
    case TrivialMove(from, f) => if l == from then {f} else {}
    case Install(_) =>
      if s.job.None? then {}
      else if l == s.job.value.level then s.job.value.in0
      else if l == s.job.value.level + 1 then s.job.value.in1 else {}
    case _ => {}
  }

  /** The steps that write an edit. */
  predicate Commits(step: Step) {
    step.Flush? || step.FlushEmpty? || step.TrivialMove? || step.Install? || (step.Recover? && step.save)
  }

  lemma FlushChanges(s: State, p: nat, t: Table, l: nat)
    requires |s.levels| == NUM_LEVELS && p < NUM_LEVELS && l < NUM_LEVELS
    ensures Flushed(s, p, t).levels[l] == s.levels[l] - {} + if l == p then {t} else {}
  {
  }

  lemma CompactionChanges(levels: Levels, level: nat, in0: set<Table>, in1: set<Table>, outs: set<Table>, l: nat)
    requires level + 1 < |levels| == NUM_LEVELS && l < NUM_LEVELS
    ensures |AfterCompaction(levels, level, in0, in1, outs)| == NUM_LEVELS
    ensures AfterCompaction(levels, level, in0, in1, outs)[l] ==
      levels[l] - (if l == level then in0 else if l == level + 1 then in1 else {})
        + if l == level + 1 then outs else {}
  {
  }

  lemma RecoverChanges(levels: Levels, chunks: seq<Table>, l: nat)
    requires |levels| == NUM_LEVELS && l < NUM_LEVELS
    ensures |AddChunks(levels, chunks)| == NUM_LEVELS
      && AddChunks(levels, chunks)[l] == levels[l] - {} + if l == 0 then ChunkSet(chunks) else {}
    ensures chunks == [] ==> AddChunks(levels, chunks)[l] == levels[l]
  {
  }

  lemma LevelChanges(s: State, step: Step, l: nat)
    requires |s.levels| == NUM_LEVELS && Enabled(s, step) && l < NUM_LEVELS
    ensures |Apply(s, step).levels| == NUM_LEVELS
      && Apply(s, step).levels[l] == s.levels[l] - RemovedAt(s, step, l) + AddedAt(s, step, l)
    ensures !Commits(step) ==> Apply(s, step).levels[l] == s.levels[l]
  {
    match step
    case Flush(p, t) => FlushChanges(s, p, t, l);
    case TrivialMove(from, f) => CompactionChanges(s.levels, from, {f}, {}, {f}, l);
    case Install(outs) =>
      CompactionChanges(s.levels, s.job.value.level, s.job.value.in0, s.job.value.in1, outs, l);
    case Recover(chunks, _, _, _, _) => RecoverChanges(s.levels, chunks, l);
    case _ =>
  }

  /** `e` lists what the step adds and takes away, level by level. */
  ghost predicate IsEditOf(s: State, step: Step, e: Edit) {
    && |e.added| == |e.deleted| == NUM_LEVELS
    && forall l :: 0 <= l < NUM_LEVELS ==>
      Lists(e.added[l], AddedAt(s, step, l)) && e.deleted[l] == Numbers(RemovedAt(s, step, l))
  }

  ghost predicate Lists(files: seq<VersionReplay.File>, tables: set<Table>) {
    && VersionReplay.SetOf(files) == FilesOf(tables)
    && forall i, j :: 0 <= i < j < |files| ==> files[i].number != files[j].number
  }

  /** WriteSnapshot: all files of the version. */
  ghost predicate IsSnapshot(levels: Levels, e: Edit) {
    && |e.added| == |e.deleted| == |levels| == NUM_LEVELS
    && forall l :: 0 <= l < NUM_LEVELS ==> Lists(e.added[l], levels[l]) && e.deleted[l] == {}
  }

  /** A manifest begun in state `m` and written up to state `n`: a snapshot, then an edit for each commit. */
  ghost predicate Written(states: seq<State>, steps: seq<Step>, m: nat, n: nat, edits: seq<Edit>)
    requires |states| == |steps| + 1
    decreases n
  {
    && m <= n < |states| && edits != []
    && if n == m then |edits| == 1 && IsSnapshot(states[m].levels, edits[0])
       else if Commits(steps[n - 1]) then
         IsEditOf(states[n - 1], steps[n - 1], edits[|edits| - 1])
         && Written(states, steps, m, n - 1, edits[..|edits| - 1])
       else Written(states, steps, m, n - 1, edits)
  }

  ghost predicate Sized(edits: seq<Edit>) {
    forall e :: e in edits ==> |e.added| == |e.deleted| == NUM_LEVELS
  }

  /** The files ever added to a level. */
  ghost function Ever(edits: seq<Edit>, l: nat): set<VersionReplay.File>
    requires Sized(edits) && l < NUM_LEVELS
  {
    VersionReplay.BuilderState(edits, l).added
  }

  // ---- Applying the edits one by one --------------------------------------

  /** What a step takes away is there, and what it adds has numbers not in use. */
  lemma ChangesApart(s: State, step: Step, l: nat)
    requires |s.levels| == NUM_LEVELS && ManifestOk(s) && FilesOk(s) && (s.job.Some? ==> JobOk(s, s.job.value))
      && NumbersDistinct(s.levels) && Enabled(s, step) && l < NUM_LEVELS
    ensures RemovedAt(s, step, l) <= s.levels[l]
    ensures forall t, u :: t in AddedAt(s, step, l) && u in s.levels[l] ==> t.number != u.number
  {
    forall t, u | t in AddedAt(s, step, l) && u in s.levels[l] ensures t.number != u.number {
      assert u.number in LevelNumbers(s.levels);
    }
  }

  /** One edit makes the next level out of the last. */
  lemma EditMakesLevel(s: State, step: Step, e: Edit, l: nat)
    requires Inv(s) && Enabled(s, step) && IsEditOf(s, step, e) && l < NUM_LEVELS
    ensures |Apply(s, step).levels| == NUM_LEVELS && FilesOf(Apply(s, step).levels[l]) ==
      VersionReplay.Saved(FilesOf(s.levels[l]), VersionReplay.BuilderState([e], l))
  {
    LevelChanges(s, step, l);
    ChangesApart(s, step, l);
    VersionReplay.OneEdit(e, l);
    assert Lists(e.added[l], AddedAt(s, step, l));
    NumbersAre(e.added[l], AddedAt(s, step, l));
    ReplaceFiles(s.levels, l, RemovedAt(s, step, l), AddedAt(s, step, l));
  }

  lemma NumbersAre(files: seq<VersionReplay.File>, tables: set<Table>)
    requires VersionReplay.SetOf(files) == FilesOf(tables)
    ensures VersionReplay.Numbers(files) == Numbers(tables)
  {
    forall n ensures n in VersionReplay.Numbers(files) <==> n in Numbers(tables) {
      if n in VersionReplay.Numbers(files) {
        var f :| f in files && f.number == n;
        assert f in VersionReplay.SetOf(files);
      }
      if n in Numbers(tables) {
        var t :| t in tables && t.number == n;
        assert FileOf(t) in VersionReplay.SetOf(files);
      }
    }
  }

  lemma ReplaceFiles(levels: Levels, l: nat, removed: set<Table>, added: set<Table>)
    requires l < |levels| && NumbersDistinct(levels) && removed <= levels[l]
    requires forall t, u :: t in added && u in levels[l] ==> t.number != u.number
    ensures FilesOf(levels[l] - removed + added) == VersionReplay.Saved(FilesOf(levels[l]),
      VersionReplay.LevelState(FilesOf(added), Numbers(removed) - Numbers(added)))
  {
    var saved := VersionReplay.Saved(FilesOf(levels[l]),
      VersionReplay.LevelState(FilesOf(added), Numbers(removed) - Numbers(added)));
    forall t | t in removed ensures t.number in Numbers(removed) - Numbers(added) {
      assert t in levels[l];
    }
    forall f ensures f in FilesOf(levels[l] - removed + added) <==> f in saved {
      if f in FilesOf(levels[l] - removed + added) {
        var t :| t in levels[l] - removed + added && FileOf(t) == f;
        if t in added { assert t.number in Numbers(added); } else { StillThere(levels, l, removed, t); }
      }
      if f in saved && f !in FilesOf(added) {
        var t :| t in levels[l] && FileOf(t) == f;
        assert t !in removed;
      }
    }
  }

  lemma StillThere(levels: Levels, l: nat, removed: set<Table>, t: Table)
    requires l < |levels| && NumbersDistinct(levels) && removed <= levels[l] && t in levels[l] && t !in removed
    ensures t.number !in Numbers(removed)
  {
  }

  lemma {:induction false} WrittenSized(states: seq<State>, steps: seq<Step>, m: nat, n: nat, edits: seq<Edit>)
    requires |states| == |steps| + 1 && Written(states, steps, m, n, edits)
    ensures Sized(edits)
    decreases n
  {
    if n > m {
      if Commits(steps[n - 1]) {
        WrittenSized(states, steps, m, n - 1, edits[..|edits| - 1]);
      } else {
        WrittenSized(states, steps, m, n - 1, edits);
      }
    }
  }

  lemma StepMakesLevel(states: seq<State>, steps: seq<Step>, k: nat, l: nat)
    requires Run(states, steps) && k < |steps| && l < NUM_LEVELS
    ensures |states[k].levels| == |states[k + 1].levels| == NUM_LEVELS
    ensures !Commits(steps[k]) ==> states[k + 1].levels[l] == states[k].levels[l]
    ensures forall e :: IsEditOf(states[k], steps[k], e) ==>
      FilesOf(states[k + 1].levels[l]) ==
        VersionReplay.Saved(FilesOf(states[k].levels[l]), VersionReplay.BuilderState([e], l))
  {
    RunInv(states, steps, k);
    LevelChanges(states[k], steps[k], l);
    forall e | IsEditOf(states[k], steps[k], e)
      ensures FilesOf(states[k + 1].levels[l]) ==
        VersionReplay.Saved(FilesOf(states[k].levels[l]), VersionReplay.BuilderState([e], l))
    {
      EditMakesLevel(states[k], steps[k], e, l);
    }
  }

  /** Applied one after the other, the edits of a manifest make the levels. */
  lemma {:induction false} EditsMakeLevels(states: seq<State>, steps: seq<Step>, m: nat, n: nat, edits: seq<Edit>,
                                           l: nat)
    requires Run(states, steps) && Written(states, steps, m, n, edits) && Sized(edits) && l < NUM_LEVELS
    ensures |states[n].levels| == NUM_LEVELS
      && FilesOf(states[n].levels[l]) == VersionReplay.Stepwise({}, edits, l)
    decreases n
  {
    if n == m {
      SnapshotMakesLevel(states[m].levels, edits, l);
    } else {
      StepMakesLevel(states, steps, n - 1, l);
      if Commits(steps[n - 1]) {
        EditsMakeLevels(states, steps, m, n - 1, edits[..|edits| - 1], l);
      } else {
        EditsMakeLevels(states, steps, m, n - 1, edits, l);
      }
    }
  }

  lemma SnapshotMakesLevel(levels: Levels, edits: seq<Edit>, l: nat)
    requires |edits| == 1 && IsSnapshot(levels, edits[0]) && Sized(edits) && l < NUM_LEVELS
    ensures FilesOf(levels[l]) == VersionReplay.Stepwise({}, edits, l)
  {
    var e := edits[0];
    assert edits == [e] && edits[..0] == [];
    VersionReplay.OneEdit(e, l);
    assert Lists(e.added[l], levels[l]);
  }

  // ---- No number is added twice to a level ---------------------------------

  /** What was ever added to a level is numbered below the manifest's counter and is no pending output,
      and no table was ever in a level below the one it is in. */
  ghost predicate Unused(s: State, edits: seq<Edit>)
    requires Sized(edits)
  {
    && |s.levels| == NUM_LEVELS
    && (forall l, f :: 0 <= l < NUM_LEVELS && f in Ever(edits, l) ==>
        f.number < s.manifestNext && f.number !in s.pendingOutputs)
    && (forall j, k, t, f :: 0 <= j < k < NUM_LEVELS && t in s.levels[j] && f in Ever(edits, k) ==>
        t.number != f.number)
  }

  lemma EverGrows(edits: seq<Edit>, e: Edit, l: nat)
    requires Sized(edits + [e]) && l < NUM_LEVELS
    ensures Sized(edits) && Ever(edits + [e], l) == Ever(edits, l) + VersionReplay.SetOf(e.added[l])
  {
    assert forall x :: x in edits ==> x in edits + [e];
    assert (edits + [e])[..|edits|] == edits;
  }

  lemma FreshGrows(edits: seq<Edit>, e: Edit, l: nat, tables: set<Table>)
    requires Sized(edits + [e]) && Sized(edits) && l < NUM_LEVELS && VersionReplay.FreshNumbers({}, edits, l)
    requires Lists(e.added[l], tables)
    requires forall t, f :: t in tables && f in Ever(edits, l) ==> t.number != f.number
    ensures VersionReplay.FreshNumbers({}, edits + [e], l)
  {
    var all := edits + [e];
    forall i | 0 <= i < |all|
      ensures forall f, g :: f in all[i].added[l] && g in {} + VersionReplay.BuilderState(all[..i], l).added ==>
        f.number != g.number
      ensures forall j, k :: 0 <= j < k < |all[i].added[l]| ==> all[i].added[l][j].number != all[i].added[l][k].number
    {
      if i < |edits| {
        assert all[..i] == edits[..i] && all[i] == edits[i];
      } else {
        assert all[..i] == edits;
        forall f | f in e.added[l] ensures exists t :: t in tables && FileOf(t) == f {
          assert f in VersionReplay.SetOf(e.added[l]);
        }
      }
    }
  }

  /** The numbers a step adds were never in the level before. */
  lemma AddsUnused(s: State, step: Step, edits: seq<Edit>, l: nat)
    requires ManifestOk(s) && Enabled(s, step) && Sized(edits) && Unused(s, edits) && l < NUM_LEVELS
    ensures forall t, f :: t in AddedAt(s, step, l) && f in Ever(edits, l) ==> t.number != f.number
  {
    if step.TrivialMove? { assert step.file in s.levels[step.from]; }
  }

  /** A table a step leaves in a level was there, or is new, or comes from the level above. */
  lemma LeftFrom(s: State, step: Step, j: nat, t: Table)
    requires |s.levels| == NUM_LEVELS && ManifestOk(s) && FilesOk(s) && Enabled(s, step) && j < NUM_LEVELS
    requires t in s.levels[j] - RemovedAt(s, step, j) + AddedAt(s, step, j)
    ensures t in s.levels[j] || t.number >= s.manifestNext || t.number in s.pendingOutputs
      || (j > 0 && t in s.levels[j - 1])
  {
    if step.TrivialMove? { assert step.file in s.levels[step.from]; }
  }

  /** No table is left above one of its number. */
  lemma LeftAbove(s: State, step: Step, edits: seq<Edit>, j: nat, k: nat)
    requires ManifestOk(s) && FilesOk(s) && Enabled(s, step) && Sized(edits) && Unused(s, edits) && j < k < NUM_LEVELS
    ensures forall t, f :: t in s.levels[j] - RemovedAt(s, step, j) + AddedAt(s, step, j) && f in Ever(edits, k) ==>
      t.number != f.number
  {
    forall t, f | t in s.levels[j] - RemovedAt(s, step, j) + AddedAt(s, step, j) && f in Ever(edits, k)
      ensures t.number != f.number
    {
      LeftFrom(s, step, j, t);
    }
  }

  lemma CountersMove(s: State, step: Step)
    requires s.manifestNext <= s.nextFile && Enabled(s, step)
    ensures s.manifestNext <= Apply(s, step).manifestNext
    ensures forall n :: n in Apply(s, step).pendingOutputs ==> n in s.pendingOutputs || n >= s.manifestNext
  {
  }

  lemma CountersCover(s: State, step: Step, l: nat)
    requires ManifestOk(s) && FilesOk(s) && Enabled(s, step) && Commits(step) && l < NUM_LEVELS == |s.levels|
    ensures forall t :: t in AddedAt(s, step, l) ==>
      t.number < Apply(s, step).manifestNext && t.number !in Apply(s, step).pendingOutputs
  {
    if step.TrivialMove? { assert step.file in s.levels[step.from]; }
  }

  /** What a commit adds is listed, and nothing else is new. */
  lemma EditGrows(s: State, step: Step, edits: seq<Edit>, e: Edit, l: nat)
    requires ManifestOk(s) && Enabled(s, step) && IsEditOf(s, step, e) && Sized(edits + [e]) && Sized(edits)
    requires Unused(s, edits) && l < NUM_LEVELS && VersionReplay.FreshNumbers({}, edits, l)
    ensures Ever(edits + [e], l) == Ever(edits, l) + FilesOf(AddedAt(s, step, l))
      && VersionReplay.FreshNumbers({}, edits + [e], l)
  {
    assert Lists(e.added[l], AddedAt(s, step, l));
    EverGrows(edits, e, l);
    AddsUnused(s, step, edits, l);
    FreshGrows(edits, e, l, AddedAt(s, step, l));
  }

  ghost predicate IsAdded(s: State, step: Step, s': State, l: nat, f: VersionReplay.File) {
    exists t :: t in AddedAt(s, step, l) && FileOf(t) == f && t.number < s'.manifestNext &&
      t.number !in s'.pendingOutputs
  }

  /** `Unused` after a step, level by level. */
  lemma StillUnused(s: State, step: Step, s': State, edits: seq<Edit>, all: seq<Edit>)
    requires ManifestOk(s) && FilesOk(s) && Enabled(s, step) && Sized(edits) && Unused(s, edits) && Sized(all)
    requires |s'.levels| == NUM_LEVELS && NumbersDistinct(s'.levels)
      && s'.manifestNext >= s.manifestNext
    requires forall n :: n in s'.pendingOutputs ==> n in s.pendingOutputs || n >= s.manifestNext
    requires forall l :: 0 <= l < NUM_LEVELS ==>
      s'.levels[l] == s.levels[l] - RemovedAt(s, step, l) + AddedAt(s, step, l)
    requires forall l, f :: 0 <= l < NUM_LEVELS && f in Ever(all, l) ==>
      f in Ever(edits, l) || IsAdded(s, step, s', l, f)
    ensures Unused(s', all)
  {
    forall j, k, t, f | 0 <= j < k < NUM_LEVELS && t in s'.levels[j] && f in Ever(all, k) ensures t.number != f.number {
      LeftAbove(s, step, edits, j, k);
      if f !in Ever(edits, k) {
        assert IsAdded(s, step, s', k, f);
        var u :| u in AddedAt(s, step, k) && FileOf(u) == f;
        assert u in s'.levels[k];
      }
    }
  }

  lemma CommitUnused(s: State, step: Step, s': State, edits: seq<Edit>, e: Edit)
    requires ManifestOk(s) && FilesOk(s) && NumbersDistinct(s'.levels) && Enabled(s, step) && s' == Apply(s, step)
    requires Commits(step) && IsEditOf(s, step, e) && Sized(edits) && Sized(edits + [e])
    requires Unused(s, edits) && forall l :: 0 <= l < NUM_LEVELS ==> VersionReplay.FreshNumbers({}, edits, l)
    ensures Unused(s', edits + [e])
    ensures forall l :: 0 <= l < NUM_LEVELS ==> VersionReplay.FreshNumbers({}, edits + [e], l)
  {
    forall l | 0 <= l < NUM_LEVELS
      ensures VersionReplay.FreshNumbers({}, edits + [e], l) && |s'.levels| == NUM_LEVELS
      ensures s'.levels[l] == s.levels[l] - RemovedAt(s, step, l) + AddedAt(s, step, l)
      ensures forall f :: f in Ever(edits + [e], l) ==> f in Ever(edits, l) || IsAdded(s, step, s', l, f)
    {
      EditGrows(s, step, edits, e, l);
      LevelChanges(s, step, l);
      CountersCover(s, step, l);
      forall f | f in Ever(edits + [e], l) && f !in Ever(edits, l) ensures IsAdded(s, step, s', l, f) {
        var t :| t in AddedAt(s, step, l) && FileOf(t) == f;
      }
    }
    CountersMove(s, step);
    StillUnused(s, step, s', edits, edits + [e]);
  }

  lemma QuietUnused(s: State, step: Step, s': State, edits: seq<Edit>)
    requires ManifestOk(s) && FilesOk(s) && NumbersDistinct(s'.levels) && Enabled(s, step) && s' == Apply(s, step)
    requires !Commits(step) && Sized(edits) && Unused(s, edits)
    ensures Unused(s', edits)
  {
    forall l | 0 <= l < NUM_LEVELS
      ensures |s'.levels| == NUM_LEVELS && s'.levels[l] == s.levels[l] - RemovedAt(s, step, l) + AddedAt(s, step, l)
    {
      LevelChanges(s, step, l);
    }
    CountersMove(s, step);
    StillUnused(s, step, s', edits, edits);
  }

  lemma SnapshotUnused(s: State, edits: seq<Edit>)
    requires ManifestOk(s) && FilesOk(s) && NumbersDistinct(s.levels) && |edits| == 1
      && IsSnapshot(s.levels, edits[0]) && Sized(edits)
    ensures Unused(s, edits) && forall l :: 0 <= l < NUM_LEVELS ==> VersionReplay.FreshNumbers({}, edits, l)
  {
    var e := edits[0];
    assert edits == [] + [e];
    forall l | 0 <= l < NUM_LEVELS
      ensures Ever(edits, l) == FilesOf(s.levels[l]) && VersionReplay.FreshNumbers({}, edits, l)
    {
      assert Lists(e.added[l], s.levels[l]);
      EverGrows([], e, l);
      FreshGrows([], e, l, s.levels[l]);
    }
    forall l, f | 0 <= l < NUM_LEVELS && f in Ever(edits, l)
      ensures f.number < s.manifestNext && f.number !in s.pendingOutputs
    {
      var t :| t in s.levels[l] && FileOf(t) == f;
      assert t.number in LevelNumbers(s.levels);
    }
  }

  lemma RunFacts(states: seq<State>, steps: seq<Step>, k: nat)
    requires Run(states, steps) && k < |states|
    ensures ManifestOk(states[k]) && FilesOk(states[k]) && NumbersDistinct(states[k].levels)
    ensures k < |steps| ==> Enabled(states[k], steps[k]) && states[k + 1] == Apply(states[k], steps[k])
  {
    RunInv(states, steps, k);
  }

  lemma {:induction false} RunUnused(states: seq<State>, steps: seq<Step>, m: nat, n: nat, edits: seq<Edit>)
    requires Run(states, steps) && Written(states, steps, m, n, edits) && Sized(edits)
    ensures Unused(states[n], edits) && forall l :: 0 <= l < NUM_LEVELS ==> VersionReplay.FreshNumbers({}, edits, l)
    decreases n
  {
    RunFacts(states, steps, n);
    if n == m {
      SnapshotUnused(states[m], edits);
    } else {
      RunFacts(states, steps, n - 1);
      if Commits(steps[n - 1]) {
        var before, e := edits[..|edits| - 1], edits[|edits| - 1];
        assert edits == before + [e];
        RunUnused(states, steps, m, n - 1, before);
        CommitUnused(states[n - 1], steps[n - 1], states[n], before, e);
      } else {
        RunUnused(states, steps, m, n - 1, edits);
        QuietUnused(states[n - 1], steps[n - 1], states[n], edits);
      }
    }
  }

  /** A recovery that applies all edits of a manifest to an empty version may use one builder, and the version
      it saves has the files of the levels. */
  lemma ManifestRebuilds(states: seq<State>, steps: seq<Step>, m: nat, n: nat, edits: seq<Edit>)
    requires Run(states, steps) && Written(states, steps, m, n, edits)
    ensures VersionReplay.Manifest(seq(NUM_LEVELS, _ => []), edits)
    ensures Sized(edits) && |states[n].levels| == NUM_LEVELS && forall l :: 0 <= l < NUM_LEVELS ==>
      FilesOf(states[n].levels[l]) == VersionReplay.Stepwise({}, edits, l)
  {
    WrittenSized(states, steps, m, n, edits);
    RunUnused(states, steps, m, n, edits);
    forall l | 0 <= l < NUM_LEVELS
      ensures FilesOf(states[n].levels[l]) == VersionReplay.Stepwise({}, edits, l) && |states[n].levels| == NUM_LEVELS
    {
      EditsMakeLevels(states, steps, m, n, edits, l);
    }
    RunInv(states, steps, n);
    assert VersionReplay.SetOf([]) == {};
  }
}
