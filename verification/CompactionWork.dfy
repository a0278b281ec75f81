/** Merging the inputs of a compaction (db/db_impl.cc, DoCompactionWork;
    db/version_set.cc, class Compaction). */
module CompactionWork {
  import opened InternalKeys
  import opened ReadSpec
  import opened Levels
  import opened VersionQueries
  import opened DropRule
  import opened VersionSets
  import opened OutputCuts

  /** User keys for which no file below `level + 1` can hold data. */
  ghost function BaseKeys(files: Files, level: nat): iset<UserKey> {
    iset u: UserKey | NothingBelow(files, level, u)
  }

  ghost predicate NothingBelow(files: Files, level: nat, u: UserKey) {
    forall l, f :: level + 2 <= l < |files| && f in files[l] ==> !(Lo(f) <= u <= Hi(f))
  }

  class Compaction {
    const level: nat
    const files: Files               // the version the inputs were picked from
    const grandparents: seq<Table>   // files of level + 2 in the range of the compaction
    const maxFileSize: nat
    const levelPtrs: array<nat>
    var grandparentIndex: nat
    var seenKey: bool
    var overlappedBytes: nat
    ghost var lastKey: Option<UserKey>  // the last key asked of IsBaseLevelForKey
    ghost var countedFrom: nat          // first grandparent counted for the current output

    ghost predicate CursorsValid()
      reads this`lastKey, levelPtrs
    {
      && |files| == NUM_LEVELS && levelPtrs.Length == NUM_LEVELS
      && (forall l :: level + 2 <= l < NUM_LEVELS ==> Disjoint(files[l]) && levelPtrs[l] <= |files[l]|)
      && (forall l, i :: level + 2 <= l < NUM_LEVELS && 0 <= i < levelPtrs[l] ==>
          lastKey.Some? && Hi(files[l][i]) < lastKey.value)
    }

    ghost predicate BytesValid()
      reads this`grandparentIndex, this`seenKey, this`overlappedBytes, this`countedFrom
    {
      && Disjoint(grandparents) && countedFrom <= grandparentIndex <= |grandparents|
      && overlappedBytes == TotalFileSize(grandparents[countedFrom..grandparentIndex])
      && (!seenKey ==> countedFrom == grandparentIndex)
    }

    ghost predicate Valid()
      reads this, levelPtrs
    {
      CursorsValid() && BytesValid()
    }

    /** No key has been asked about. */
    ghost predicate Unbegun()
      reads this`lastKey, this`seenKey, this`grandparentIndex
    {
      lastKey == None && !seenKey && grandparentIndex == 0
    }

    constructor (level: nat, files: Files, grandparents: seq<Table>, maxFileSize: nat)
      requires |files| == NUM_LEVELS && Disjoint(grandparents)
      requires forall l :: level + 2 <= l < NUM_LEVELS ==> Disjoint(files[l])
      ensures Valid() && fresh(levelPtrs) && Unbegun()
      ensures this.level == level && this.files == files && this.grandparents == grandparents
        && this.maxFileSize == maxFileSize
    {
      this.level, this.files, this.grandparents, this.maxFileSize := level, files, grandparents, maxFileSize;
      levelPtrs := new nat[NUM_LEVELS](_ => 0);
      grandparentIndex, seenKey, overlappedBytes := 0, false, 0;
      lastKey, countedFrom := None, 0;
    }

    /** The cursors only move forward, yet for keys asked in order the answer is
        that of a full scan of the deeper levels. */
    method IsBaseLevelForKey(u: UserKey) returns (base: bool)
      requires CursorsValid() && (lastKey.Some? ==> lastKey.value <= u)
      modifies this`lastKey, levelPtrs
      ensures CursorsValid() && lastKey == Some(u)
      ensures base <==> u in BaseKeys(files, level)
    {
      lastKey := Some(u);
      var lvl := level + 2;
      while lvl < NUM_LEVELS
        invariant lvl >= level + 2 && CursorsValid() && lastKey == Some(u)
        invariant forall l, f :: level + 2 <= l < lvl && l < NUM_LEVELS && f in files[l] ==> !(Lo(f) <= u <= Hi(f))
      {
        while levelPtrs[lvl] < |files[lvl]|
          invariant CursorsValid() && lastKey == Some(u)
        {
          var f := files[lvl][levelPtrs[lvl]];
          if u <= Hi(f) {
            if u >= Lo(f) {
              assert f in files[lvl];
              return false;
            }
            break;
          }
          levelPtrs[lvl] := levelPtrs[lvl] + 1;
        }
        PastAndFuture(files[lvl], levelPtrs[lvl], u);
        lvl := lvl + 1;
      }
      base := true;
    }

    /** Starts a new output when the current one spans too many bytes of grandparents. */
    method ShouldStopBefore(key: InternalKey) returns (stop: bool)
      requires BytesValid()
      modifies this`grandparentIndex, this`seenKey, this`overlappedBytes, this`countedFrom
      ensures BytesValid() && seenKey
      ensures old(grandparentIndex) <= grandparentIndex
      ensures forall i :: old(grandparentIndex) <= i < grandparentIndex ==> Less(Largest(grandparents[i]), key)
      ensures grandparentIndex < |grandparents| ==> AtMost(key, Largest(grandparents[grandparentIndex]))
      // the grandparents passed since the current output began
      ensures var from := if old(seenKey) then old(countedFrom) else grandparentIndex;
              (stop <==> TotalFileSize(grandparents[from..grandparentIndex]) > 10 * maxFileSize) &&
              countedFrom == if stop then grandparentIndex else from
    {
      while grandparentIndex < |grandparents| && Less(Largest(grandparents[grandparentIndex]), key)
        invariant BytesValid() && old(grandparentIndex) <= grandparentIndex && seenKey == old(seenKey)
        invariant countedFrom == if old(seenKey) then old(countedFrom) else grandparentIndex
        invariant forall i :: old(grandparentIndex) <= i < grandparentIndex ==> Less(Largest(grandparents[i]), key)
      {
        if seenKey {
          TotalAppend(grandparents[countedFrom..grandparentIndex], grandparents[grandparentIndex]);
          assert grandparents[countedFrom..grandparentIndex + 1] ==
              grandparents[countedFrom..grandparentIndex] + [grandparents[grandparentIndex]];
          overlappedBytes := overlappedBytes + grandparents[grandparentIndex].size;
        } else {
          countedFrom := countedFrom + 1;
        }
        grandparentIndex := grandparentIndex + 1;
      }
      seenKey := true;
      stop := overlappedBytes > 10 * maxFileSize;
      if stop {
        overlappedBytes := 0;
        countedFrom := grandparentIndex;
      }
    }
  }

  lemma {:induction false} TotalAppend(s: seq<Table>, t: Table)
    ensures TotalFileSize(s + [t]) == TotalFileSize(s) + t.size
  {
    if s != [] {
      TotalAppend(s[1..], t);
      assert (s + [t])[1..] == s[1..] + [t];
    }
  }

  lemma PastAndFuture(files: seq<Table>, p: nat, u: UserKey)
    requires Disjoint(files) && p <= |files|
    requires forall i :: 0 <= i < p ==> Hi(files[i]) < u
    requires p < |files| ==> u < Lo(files[p])
    ensures forall f :: f in files ==> !(Lo(f) <= u <= Hi(f))
  {
    forall i | 0 <= i < |files| ensures !(Lo(files[i]) <= u <= Hi(files[i])) {
      if i > p {
        assert Before(files[p], files[i]);
        Bounds(files[p]);
      }
    }
  }

  // ---- The merge loop -----------------------------------------------------

  ghost function EntrySet(s: seq<Entry>): set<Entry> {
    set e | e in s
  }

  /** The first `n` entries of `input` without the dropped ones. */
  ghost function KeptSeq(input: seq<Entry>, n: nat, horizon: int, base: iset<UserKey>): seq<Entry>
    requires n <= |input|
  {
    if n == 0 then []
    else
      var e := input[n - 1];
      KeptSeq(input, n - 1, horizon, base) + if Keeps(EntrySet(input), horizon, base, e) then [e] else []
  }

  function Flatten(outputs: seq<seq<Entry>>): seq<Entry> {
    if outputs == [] then [] else Flatten(outputs[..|outputs| - 1]) + outputs[|outputs| - 1]
  }

  /** Remembering the previous entry's sequence is enough to see what is hidden. */
  lemma HiddenByPrevious(input: seq<Entry>, i: nat, horizon: int)
    requires i < |input| && Sorted(input) && Distinct(EntrySet(input))
    ensures Hidden(EntrySet(input), horizon, input[i])
       <==> i > 0 && input[i - 1].key.user == input[i].key.user && input[i - 1].key.sequence <= horizon
  {
    var e := input[i];
    if x :| x in EntrySet(input) && Candidate(x, e.key.user, horizon) && x.key.sequence > e.key.sequence {
      var k :| 0 <= k < |input| && input[k] == x;
      assert k < i;
      if k < i - 1 {
        assert Less(input[k].key, input[i - 1].key) && Less(input[i - 1].key, e.key);
      }
    }
    if i > 0 && input[i - 1].key.user == e.key.user {
      assert Less(input[i - 1].key, e.key);
      assert input[i - 1] in EntrySet(input) && e in EntrySet(input);
      assert input[i - 1] != e;
    }
  }

  /** Is the `i`th entry to be dropped?  `lastSequenceForKey` is the sequence of
      the previous entry if that is for the same user key. */
  method ShouldDrop(c: Compaction, input: seq<Entry>, i: nat, lastSequenceForKey: SequenceNumber,
                    horizon: SequenceNumber)
    returns (drop: bool)
    requires c.CursorsValid() && i < |input| && Sorted(input) && Distinct(EntrySet(input))
    requires c.lastKey.Some? ==> i > 0 && c.lastKey.value <= input[i - 1].key.user
    requires lastSequenceForKey ==
      if i > 0 && input[i - 1].key.user == input[i].key.user then input[i - 1].key.sequence else MAX_SEQUENCE
    modifies c`lastKey, c.levelPtrs
    ensures c.CursorsValid() && (c.lastKey.Some? ==> c.lastKey.value <= input[i].key.user)
    ensures horizon < MAX_SEQUENCE ==>
      (drop <==> !Keeps(EntrySet(input), horizon, BaseKeys(c.files, c.level), input[i]))
    ensures horizon == MAX_SEQUENCE ==> drop
  {
    var key := input[i].key;
    HiddenByPrevious(input, i, horizon);
    assert i > 0 ==> Less(input[i - 1].key, key);
    drop := false;
    if lastSequenceForKey <= horizon {
      drop := true;
    } else if key.kind.Deletion? && key.sequence <= horizon {
      drop := c.IsBaseLevelForKey(key.user);
    }
  }

  ghost function StopsOf(c: Compaction, input: seq<Entry>): nat -> bool {
    Stops(c.grandparents, c.maxFileSize, input)
  }

  /** The grandparents counted after `i` entries are those since the last stop. */
  ghost predicate CountsFrom(c: Compaction, input: seq<Entry>, i: nat)
    requires i <= |input|
    reads c`seenKey, c`grandparentIndex, c`countedFrom
  {
    if i == 0 then !c.seenKey && c.grandparentIndex == 0
    else
      && c.seenKey && c.grandparentIndex == Passed(c.grandparents, input[i - 1].key)
      && c.countedFrom == CountFrom(c.grandparents, c.maxFileSize, input, i)
  }

  /** ShouldStopBefore, asked of each entry in turn, stops just where the specification says. */
  method StopsBefore(c: Compaction, input: seq<Entry>, i: nat) returns (stop: bool)
    requires i < |input| && Sorted(input) && c.BytesValid() && CountsFrom(c, input, i)
    modifies c`grandparentIndex, c`seenKey, c`overlappedBytes, c`countedFrom
    ensures c.BytesValid() && CountsFrom(c, input, i + 1) && stop == StopsOf(c, input)(i)
  {
    ghost var before := c.grandparentIndex;
    if i > 0 { PassedBefore(c.grandparents, input[i - 1].key, input[i].key); }
    stop := c.ShouldStopBefore(input[i].key);
    PassedIs(c.grandparents, input[i].key, c.grandparentIndex);
  }

  lemma {:induction false} PassedBefore(grandparents: seq<Table>, a: InternalKey, b: InternalKey)
    requires Less(a, b)
    ensures forall i :: 0 <= i < Passed(grandparents, a) ==> Less(Largest(grandparents[i]), b)
  {
    if grandparents != [] && Less(Largest(grandparents[0]), a) {
      PassedBefore(grandparents[1..], a, b);
      forall i | 0 <= i < Passed(grandparents, a) ensures Less(Largest(grandparents[i]), b) {
        assert i > 0 ==> grandparents[i] == grandparents[1..][i - 1];
      }
    }
  }

  /** What the loop remembers after `i` entries. */
  ghost predicate Remembers(c: Compaction, input: seq<Entry>, i: nat, currentUserKey: Option<UserKey>,
                            lastSequenceForKey: SequenceNumber)
    requires i <= |input|
    reads c, c.levelPtrs
  {
    && c.CursorsValid() && c.BytesValid()
    && (c.lastKey.Some? ==> i > 0 && c.lastKey.value <= input[i - 1].key.user) && CountsFrom(c, input, i)
    && if i == 0 then currentUserKey == None
       else currentUserKey == Some(input[i - 1].key.user) && lastSequenceForKey == input[i - 1].key.sequence
  }

  /** One turn of the loop. */
  method HandleEntry(c: Compaction, input: seq<Entry>, i: nat, horizon: SequenceNumber, fileSize: seq<Entry> -> nat,
                     outputs: seq<seq<Entry>>, builder: seq<Entry>,
                     currentUserKey: Option<UserKey>, lastSequenceForKey: SequenceNumber)
    returns (outputs': seq<seq<Entry>>, builder': seq<Entry>)
    requires i < |input| && Sorted(input) && Distinct(EntrySet(input))
    requires Remembers(c, input, i, currentUserKey, lastSequenceForKey)
    requires InProgress(c, input, i, i, horizon, fileSize, outputs, builder)
    modifies c, c.levelPtrs
    ensures Remembers(c, input, i + 1, Some(input[i].key.user), input[i].key.sequence)
    ensures InProgress(c, input, i + 1, i + 1, horizon, fileSize, outputs', builder')
  {
    outputs', builder' := outputs, builder;
    var stop := StopsBefore(c, input, i);
    HeedStop(c, input, i, horizon, fileSize, outputs, builder);
    if stop {
      outputs', builder' := FinishOutput(outputs', builder');
    }
    outputs', builder' := DropOrAdd(c, input, i, horizon, fileSize, outputs', builder', currentUserKey,
                                    lastSequenceForKey);
  }

  method DropOrAdd(c: Compaction, input: seq<Entry>, i: nat, horizon: SequenceNumber, fileSize: seq<Entry> -> nat,
                   outputs: seq<seq<Entry>>, builder: seq<Entry>,
                   currentUserKey: Option<UserKey>, lastSequenceForKey: SequenceNumber)
    returns (outputs': seq<seq<Entry>>, builder': seq<Entry>)
    requires i < |input| && Sorted(input) && Distinct(EntrySet(input)) && c.CursorsValid()
    requires c.lastKey.Some? ==> i > 0 && c.lastKey.value <= input[i - 1].key.user
    requires if i == 0 then currentUserKey == None
      else currentUserKey == Some(input[i - 1].key.user) && lastSequenceForKey == input[i - 1].key.sequence
    requires InProgress(c, input, i, i + 1, horizon, fileSize, outputs, builder)
    modifies c`lastKey, c.levelPtrs
    ensures c.CursorsValid() && (c.lastKey.Some? ==> c.lastKey.value <= input[i].key.user)
    ensures InProgress(c, input, i + 1, i + 1, horizon, fileSize, outputs', builder')
  {
    outputs', builder' := outputs, builder;
    var key := input[i].key;
    var last := if currentUserKey == Some(key.user) then lastSequenceForKey else MAX_SEQUENCE;
    var drop := ShouldDrop(c, input, i, last, horizon);
    EntryDone(c, input, i, horizon, fileSize, outputs, builder, drop);
    if !drop {
      builder' := builder' + [input[i]];
      if fileSize(builder') >= c.maxFileSize {
        outputs', builder' := FinishOutput(outputs', builder');
      }
    }
  }

  /** The outputs after `i` entries, when the stops up to entry `n` have been heeded. */
  ghost predicate InProgress(c: Compaction, input: seq<Entry>, i: nat, n: nat, horizon: int,
                             fileSize: seq<Entry> -> nat, outputs: seq<seq<Entry>>, builder: seq<Entry>)
    requires i <= |input| && n <= |input|
  {
    && Written(outputs, builder, input, i, horizon, BaseKeys(c.files, c.level))
    && Cutting(StopsOf(c, input), input, fileSize, c.maxFileSize, outputs, builder, n)
  }

  lemma HeedStop(c: Compaction, input: seq<Entry>, i: nat, horizon: SequenceNumber, fileSize: seq<Entry> -> nat,
                 outputs: seq<seq<Entry>>, builder: seq<Entry>)
    requires i < |input| && Sorted(input) && InProgress(c, input, i, i, horizon, fileSize, outputs, builder)
    ensures var stop := StopsOf(c, input)(i);
      InProgress(c, input, i, i + 1, horizon, fileSize, if stop then Finished(outputs, builder) else outputs,
                 if stop then [] else builder)
  {
    BuilderIsBefore(outputs, builder, input, i, horizon, BaseKeys(c.files, c.level));
    CutAtStop(StopsOf(c, input), input, fileSize, c.maxFileSize, outputs, builder, i);
    CloseKeepsWritten(outputs, builder, input, i, horizon, BaseKeys(c.files, c.level));
  }

  /** The finished outputs and the open one after an entry that is dropped, or added and the output perhaps full. */
  function After(outputs: seq<seq<Entry>>, builder: seq<Entry>, e: Entry, drop: bool, full: bool)
    : (r: (seq<seq<Entry>>, seq<Entry>))
  {
    if drop then (outputs, builder)
    else if full then (Finished(outputs, builder + [e]), [])
    else (outputs, builder + [e])
  }

  lemma EntryDone(c: Compaction, input: seq<Entry>, i: nat, horizon: SequenceNumber, fileSize: seq<Entry> -> nat,
                  outputs: seq<seq<Entry>>, builder: seq<Entry>, drop: bool)
    requires i < |input| && Sorted(input) && InProgress(c, input, i, i + 1, horizon, fileSize, outputs, builder)
    requires horizon < MAX_SEQUENCE ==>
      (drop <==> !Keeps(EntrySet(input), horizon, BaseKeys(c.files, c.level), input[i]))
    requires horizon == MAX_SEQUENCE ==> drop
    ensures var r := After(outputs, builder, input[i], drop, fileSize(builder + [input[i]]) >= c.maxFileSize);
      InProgress(c, input, i + 1, i + 1, horizon, fileSize, r.0, r.1)
  {
    if drop {
      Skip(outputs, builder, input, i, horizon, BaseKeys(c.files, c.level));
    } else {
      TakeEntry(c, input, i, horizon, fileSize, outputs, builder);
    }
  }

  lemma BuilderIsBefore(outputs: seq<seq<Entry>>, builder: seq<Entry>, input: seq<Entry>, i: nat,
                        horizon: SequenceNumber, base: iset<UserKey>)
    requires i < |input| && Sorted(input) && Written(outputs, builder, input, i, horizon, base)
    ensures builder != [] ==> Less(builder[|builder| - 1].key, input[i].key)
  {
    KeptSeqIsKept(input, i, horizon, base);
    if builder != [] {
      var kept := Flatten(outputs) + builder;
      assert kept[|kept| - 1] == builder[|builder| - 1] && kept[|kept| - 1] in kept;
      var k :| 0 <= k < i && input[..i][k] == builder[|builder| - 1];
    }
  }

  lemma TakeEntry(c: Compaction, input: seq<Entry>, i: nat, horizon: SequenceNumber, fileSize: seq<Entry> -> nat,
                  outputs: seq<seq<Entry>>, builder: seq<Entry>)
    requires i < |input| && Sorted(input) && InProgress(c, input, i, i + 1, horizon, fileSize, outputs, builder)
    requires horizon < MAX_SEQUENCE && Keeps(EntrySet(input), horizon, BaseKeys(c.files, c.level), input[i])
    ensures var more := builder + [input[i]]; var full := fileSize(more) >= c.maxFileSize;
      InProgress(c, input, i + 1, i + 1, horizon, fileSize, if full then Finished(outputs, more) else outputs,
                 if full then [] else more)
  {
    var base := BaseKeys(c.files, c.level);
    Add(outputs, builder, input, i, horizon, base);
    CloseKeepsWritten(outputs, builder + [input[i]], input, i + 1, horizon, base);
    CutWhenFull(StopsOf(c, input), input, fileSize, c.maxFileSize, outputs, builder, i);
  }

  /** The compaction loop writes exactly the kept entries, in order, cut into
      nonempty outputs.  `fileSize` stands for the table builder's size so far. */
  method DoCompactionWork(c: Compaction, input: seq<Entry>, horizon: SequenceNumber, fileSize: seq<Entry> -> nat)
    returns (outputs: seq<seq<Entry>>)
    requires c.Valid() && c.Unbegun()
    requires Sorted(input) && Distinct(EntrySet(input))
    modifies c, c.levelPtrs
    ensures OutputsAre(c, input, horizon, outputs)
    ensures RightCuts(StopsOf(c, input), input, fileSize, c.maxFileSize, outputs)
  {
    outputs := [];
    var builder: seq<Entry> := [];
    var currentUserKey: Option<UserKey> := None;
    var lastSequenceForKey: SequenceNumber := MAX_SEQUENCE;
    for i := 0 to |input|
      invariant Remembers(c, input, i, currentUserKey, lastSequenceForKey)
      invariant InProgress(c, input, i, i, horizon, fileSize, outputs, builder)
    {
      outputs, builder := HandleEntry(c, input, i, horizon, fileSize, outputs, builder, currentUserKey,
          lastSequenceForKey);
      currentUserKey, lastSequenceForKey := Some(input[i].key.user), input[i].key.sequence;
    }
    WorkIsDone(c, input, horizon, fileSize, outputs, builder);
    outputs, builder := FinishOutput(outputs, builder);
  }

  lemma WorkIsDone(c: Compaction, input: seq<Entry>, horizon: SequenceNumber, fileSize: seq<Entry> -> nat,
                   outputs: seq<seq<Entry>>, builder: seq<Entry>)
    requires Sorted(input) && InProgress(c, input, |input|, |input|, horizon, fileSize, outputs, builder)
    ensures OutputsAre(c, input, horizon, Finished(outputs, builder))
    ensures RightCuts(StopsOf(c, input), input, fileSize, c.maxFileSize, Finished(outputs, builder))
  {
    CloseKeepsWritten(outputs, builder, input, |input|, horizon, BaseKeys(c.files, c.level));
    if horizon < MAX_SEQUENCE { WrittenIsNeeded(Finished(outputs, builder), input, horizon, c.files, c.level); }
  }

  /** The outputs hold the kept entries: what some reader needs, but for tombstones no deeper table has the key of. */
  ghost predicate OutputsAre(c: Compaction, input: seq<Entry>, horizon: int, outputs: seq<seq<Entry>>) {
    && (horizon < MAX_SEQUENCE ==>
          && Flatten(outputs) == KeptSeq(input, |input|, horizon, BaseKeys(c.files, c.level))
          && Sorted(Flatten(outputs)) && forall e :: e in Flatten(outputs) <==>
               && Needed(EntrySet(input), horizon, e)
               && !(e.key.kind.Deletion? && e.key.sequence <= horizon && NothingBelow(c.files, c.level, e.key.user)))
    && (horizon == MAX_SEQUENCE ==> outputs == [])
    && forall o :: o in outputs ==> o != []
  }

  lemma WrittenIsNeeded(outputs: seq<seq<Entry>>, input: seq<Entry>, horizon: int, files: Files, level: nat)
    requires Sorted(input) && Flatten(outputs) == KeptSeq(input, |input|, horizon, BaseKeys(files, level))
    ensures Sorted(Flatten(outputs))
    ensures forall e :: e in Flatten(outputs) <==>
      Needed(EntrySet(input), horizon, e) &&
        !(e.key.kind.Deletion? && e.key.sequence <= horizon && NothingBelow(files, level, e.key.user))
  {
    var base := BaseKeys(files, level);
    KeptSeqIsKept(input, |input|, horizon, base);
    assert input[..|input|] == input;
    forall e ensures e in Flatten(outputs) <==> e in Kept(EntrySet(input), horizon, base) {}
    forall e: Entry ensures e.key.user in base <==> NothingBelow(files, level, e.key.user) {}
    forall e { KeptIsNeeded(EntrySet(input), horizon, base, e); }
  }

  /** Closes the open output, if there is one. */
  method FinishOutput(outputs: seq<seq<Entry>>, builder: seq<Entry>)
    returns (outputs': seq<seq<Entry>>, builder': seq<Entry>)
    ensures outputs' == Finished(outputs, builder) && builder' == []
  {
    outputs', builder' := outputs, builder;
    if builder != [] {
      outputs', builder' := outputs + [builder], [];
    }
  }

  lemma CloseKeepsWritten(outputs: seq<seq<Entry>>, builder: seq<Entry>, input: seq<Entry>, i: nat, horizon: int,
                          base: iset<UserKey>)
    requires i <= |input| && Written(outputs, builder, input, i, horizon, base)
    ensures Written(Finished(outputs, builder), [], input, i, horizon, base)
  {
    FlattenSnoc(outputs, builder);
  }

  /** The finished outputs and the open one hold what is kept of the first `i` entries. */
  ghost predicate Written(outputs: seq<seq<Entry>>, builder: seq<Entry>, input: seq<Entry>, i: nat, horizon: int,
                          base: iset<UserKey>)
    requires i <= |input|
  {
    && (horizon < MAX_SEQUENCE ==> Flatten(outputs) + builder == KeptSeq(input, i, horizon, base))
    && (horizon == MAX_SEQUENCE ==> outputs == [] && builder == [])
    && (forall o :: o in outputs ==> o != [])
  }

  lemma Skip(outputs: seq<seq<Entry>>, builder: seq<Entry>, input: seq<Entry>, i: nat, horizon: int,
             base: iset<UserKey>)
    requires i < |input| && Written(outputs, builder, input, i, horizon, base)
    requires horizon < MAX_SEQUENCE ==> !Keeps(EntrySet(input), horizon, base, input[i])
    ensures Written(outputs, builder, input, i + 1, horizon, base)
  {
  }

  lemma Add(outputs: seq<seq<Entry>>, builder: seq<Entry>, input: seq<Entry>, i: nat, horizon: int, base: iset<UserKey>)
    requires i < |input| && Written(outputs, builder, input, i, horizon, base) && horizon < MAX_SEQUENCE
    requires Keeps(EntrySet(input), horizon, base, input[i])
    ensures Written(outputs, builder + [input[i]], input, i + 1, horizon, base)
  {
    assert Flatten(outputs) + (builder + [input[i]]) == Flatten(outputs) + builder + [input[i]];
  }

  lemma FlattenSnoc(outputs: seq<seq<Entry>>, o: seq<Entry>)
    ensures Flatten(outputs + [o]) == Flatten(outputs) + o
  {
    assert (outputs + [o])[..|outputs|] == outputs;
  }

  /** What the loop keeps is the set the drop rule keeps, still in key order. */
  lemma {:induction false} KeptSeqIsKept(input: seq<Entry>, n: nat, horizon: int, base: iset<UserKey>)
    requires n <= |input| && Sorted(input)
    ensures Sorted(KeptSeq(input, n, horizon, base))
    ensures forall e :: e in KeptSeq(input, n, horizon, base) <==>
      e in input[..n] && Keeps(EntrySet(input), horizon, base, e)
  {
    if n > 0 {
      KeptSeqIsKept(input, n - 1, horizon, base);
      assert input[..n] == input[..n - 1] + [input[n - 1]];
      forall e | e in KeptSeq(input, n - 1, horizon, base) ensures Less(e.key, input[n - 1].key) {
        var k :| 0 <= k < n - 1 && input[k] == e;
      }
    }
  }

  ghost predicate InSome(outputs: seq<seq<Entry>>, e: Entry) {
    exists i :: 0 <= i < |outputs| && e in outputs[i]
  }

  lemma {:induction false} FlattenMembers(outputs: seq<seq<Entry>>)
    ensures forall e :: e in Flatten(outputs) <==> InSome(outputs, e)
  {
    if outputs != [] {
      var n := |outputs| - 1;
      FlattenMembers(outputs[..n]);
      forall e ensures InSome(outputs, e) <==> InSome(outputs[..n], e) || e in outputs[n] {
        if i :| 0 <= i < |outputs| && e in outputs[i] {
          assert i < n ==> e in outputs[..n][i];
        }
        if i :| 0 <= i < n && e in outputs[..n][i] {
          assert e in outputs[i];
        }
      }
    }
  }

  /** Cutting a sorted run into outputs leaves them sorted and one after the other. */
  lemma {:induction false} CutsOrdered(outputs: seq<seq<Entry>>)
    requires Sorted(Flatten(outputs))
    ensures forall i :: 0 <= i < |outputs| ==> Sorted(outputs[i])
    ensures forall i, j, a, b :: 0 <= i < j < |outputs| && a in outputs[i] && b in outputs[j] ==> Less(a.key, b.key)
  {
    if outputs != [] {
      var n := |outputs| - 1;
      var init, all := Flatten(outputs[..n]), Flatten(outputs);
      assert init == all[..|init|] && outputs[n] == all[|init|..];
      CutsOrdered(outputs[..n]);
      FlattenMembers(outputs[..n]);
      forall i, a, b | 0 <= i < n && a in outputs[i] && b in outputs[n] ensures Less(a.key, b.key) {
        assert a in outputs[..n][i] && InSome(outputs[..n], a);
        LastAfterInit(all, |init|, a, b);
      }
    }
  }

  lemma LastAfterInit(all: seq<Entry>, n: nat, a: Entry, b: Entry)
    requires Sorted(all) && n <= |all| && a in all[..n] && b in all[n..]
    ensures Less(a.key, b.key)
  {
    var x :| 0 <= x < n && all[x] == a;
    var y :| 0 <= y < |all| - n && all[n..][y] == b;
    assert all[n + y] == b;
  }
}
