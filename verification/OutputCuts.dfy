/** Where a compaction cuts its output into tables (db/db_impl.cc, DoCompactionWork;
    db/version_set.cc, Compaction::ShouldStopBefore). */
module OutputCuts {
  import opened InternalKeys
  import opened ReadSpec
  import opened VersionQueries
  import opened Levels
  import opened VersionSets

  /** How many grandparents lie wholly before the key. */
  ghost function Passed(grandparents: seq<Table>, key: InternalKey): (n: nat)
    ensures n <= |grandparents|
  {
    if grandparents == [] || !Less(Largest(grandparents[0]), key) then 0 else 1 + Passed(grandparents[1..], key)
  }

  lemma {:induction false} PassedIs(grandparents: seq<Table>, key: InternalKey, n: nat)
    requires n <= |grandparents| && forall i :: 0 <= i < n ==> Less(Largest(grandparents[i]), key)
    requires n < |grandparents| ==> AtMost(key, Largest(grandparents[n]))
    ensures Passed(grandparents, key) == n
  {
    if n > 0 { PassedIs(grandparents[1..], key, n - 1); }
  }

  /** The first grandparent that counts for the output at hand when entry `i` is looked at: the one at hand at
      the first entry of all, or at the last stop. */
  ghost function CountFrom(grandparents: seq<Table>, maxFileSize: nat, input: seq<Entry>, i: nat): nat
    requires input != [] && i <= |input|
    decreases i, 0
  {
    if i == 0 then Passed(grandparents, input[0].key)
    else if StopAt(grandparents, maxFileSize, input, i - 1) then Passed(grandparents, input[i - 1].key)
    else CountFrom(grandparents, maxFileSize, input, i - 1)
  }

  /** Too many bytes of grandparents have been passed when entry `i` is reached. */
  ghost predicate StopAt(grandparents: seq<Table>, maxFileSize: nat, input: seq<Entry>, i: nat)
    requires i < |input|
    decreases i, 1
  {
    var from, to := CountFrom(grandparents, maxFileSize, input, i), Passed(grandparents, input[i].key);
    from <= to && TotalFileSize(grandparents[from..to]) > 10 * maxFileSize
  }

  ghost function Stops(grandparents: seq<Table>, maxFileSize: nat, input: seq<Entry>): nat -> bool {
    (i: nat) => i < |input| && StopAt(grandparents, maxFileSize, input, i)
  }

  /** A stop at an entry past `a` and up to `b`. */
  ghost predicate StopBetween(stops: nat -> bool, input: seq<Entry>, a: Entry, b: Entry) {
    exists j: nat :: j < |input| && Less(a.key, input[j].key) && AtMost(input[j].key, b.key) && stops(j)
  }

  /** A stop among the first `i` entries past `a`. */
  ghost predicate StopSince(stops: nat -> bool, input: seq<Entry>, i: nat, a: Entry)
    requires i <= |input|
  {
    exists j: nat :: j < i && Less(a.key, input[j].key) && stops(j)
  }

  /** Nothing demanded a cut inside the output. */
  ghost predicate Whole(stops: nat -> bool, input: seq<Entry>, fileSize: seq<Entry> -> nat, maxFileSize: nat,
                        o: seq<Entry>)
  {
    forall n :: 0 < n < |o| ==> fileSize(o[..n]) < maxFileSize && !StopBetween(stops, input, o[n - 1], o[n])
  }

  /** One output ends where the next begins because it has grown full, or for its grandparents. */
  ghost predicate CutBetween(stops: nat -> bool, input: seq<Entry>, fileSize: seq<Entry> -> nat, maxFileSize: nat,
                             o: seq<Entry>, next: seq<Entry>)
    requires o != [] && next != []
  {
    fileSize(o) >= maxFileSize || StopBetween(stops, input, o[|o| - 1], next[0])
  }

  /** Outputs end exactly where they should. */
  ghost predicate RightCuts(stops: nat -> bool, input: seq<Entry>, fileSize: seq<Entry> -> nat, maxFileSize: nat,
                            outputs: seq<seq<Entry>>)
  {
    && (forall k :: 0 <= k < |outputs| ==> outputs[k] != [] && Whole(stops, input, fileSize, maxFileSize, outputs[k]))
    && (forall k :: 0 <= k < |outputs| - 1 ==>
          CutBetween(stops, input, fileSize, maxFileSize, outputs[k], outputs[k + 1]))
  }

  /** The outputs and the open one, when the stops up to entry `i` have been heeded. */
  ghost predicate Cutting(stops: nat -> bool, input: seq<Entry>, fileSize: seq<Entry> -> nat, maxFileSize: nat,
                          outputs: seq<seq<Entry>>, builder: seq<Entry>, i: nat)
    requires i <= |input|
  {
    && RightCuts(stops, input, fileSize, maxFileSize, Finished(outputs, builder))
    && (builder != [] ==>
          fileSize(builder) < maxFileSize && !StopSince(stops, input, i, builder[|builder| - 1]))
    && (builder == [] && outputs != [] ==>
          var o := outputs[|outputs| - 1];
          o != [] && (fileSize(o) >= maxFileSize || StopSince(stops, input, i, o[|o| - 1])))
  }

  function Finished(outputs: seq<seq<Entry>>, builder: seq<Entry>): seq<seq<Entry>> {
    if builder == [] then outputs else outputs + [builder]
  }

  /** The open output is closed at a stop. */
  lemma CutAtStop(stops: nat -> bool, input: seq<Entry>, fileSize: seq<Entry> -> nat, maxFileSize: nat,
                  outputs: seq<seq<Entry>>, builder: seq<Entry>, i: nat)
    requires i < |input| && Cutting(stops, input, fileSize, maxFileSize, outputs, builder, i)
    requires builder != [] ==> Less(builder[|builder| - 1].key, input[i].key)
    ensures stops(i) ==>
      Cutting(stops, input, fileSize, maxFileSize, Finished(outputs, builder), [], i + 1)
    ensures !stops(i) ==> Cutting(stops, input, fileSize, maxFileSize, outputs, builder, i + 1)
  {
    if stops(i) {
      if builder != [] {
        assert StopSince(stops, input, i + 1, builder[|builder| - 1]);
      } else if outputs != [] {
        var last := outputs[|outputs| - 1];
        assert StopSince(stops, input, i, last[|last| - 1]) ==> StopSince(stops, input, i + 1, last[|last| - 1]);
      }
    } else {
      forall a ensures StopSince(stops, input, i, a) <==> StopSince(stops, input, i + 1, a) {}
    }
  }

  /** An entry is added; the output is closed if it is full then. */
  lemma CutWhenFull(stops: nat -> bool, input: seq<Entry>, fileSize: seq<Entry> -> nat, maxFileSize: nat,
                    outputs: seq<seq<Entry>>, builder: seq<Entry>, i: nat)
    requires i < |input| && Sorted(input) && Cutting(stops, input, fileSize, maxFileSize, outputs, builder, i + 1)
    ensures var more := builder + [input[i]];
      if fileSize(more) >= maxFileSize then
        Cutting(stops, input, fileSize, maxFileSize, outputs + [more], [], i + 1)
      else Cutting(stops, input, fileSize, maxFileSize, outputs, more, i + 1)
  {
    var e, more := input[i], builder + [input[i]];
    forall a ensures StopBetween(stops, input, a, e) <==> StopSince(stops, input, i + 1, a) {
      StopsUpTo(stops, input, i, a);
    }
    assert !StopSince(stops, input, i + 1, e);
    if builder != [] { assert Finished(outputs, builder)[|outputs|] == builder; }
    WholeOn(stops, input, fileSize, maxFileSize, builder, e);
    OneMoreOutput(stops, input, fileSize, maxFileSize, outputs, builder, more);
  }

  lemma StopsUpTo(stops: nat -> bool, input: seq<Entry>, i: nat, a: Entry)
    requires i < |input| && Sorted(input)
    ensures StopBetween(stops, input, a, input[i]) <==> StopSince(stops, input, i + 1, a)
  {
    forall j: nat | j < |input| ensures AtMost(input[j].key, input[i].key) <==> j <= i {
      assert j < i ==> Less(input[j].key, input[i].key);
      assert i < j ==> Less(input[i].key, input[j].key);
    }
  }

  lemma WholeOn(stops: nat -> bool, input: seq<Entry>, fileSize: seq<Entry> -> nat, maxFileSize: nat,
                builder: seq<Entry>, e: Entry)
    requires Whole(stops, input, fileSize, maxFileSize, builder)
    requires builder != [] ==>
      fileSize(builder) < maxFileSize && !StopBetween(stops, input, builder[|builder| - 1], e)
    ensures Whole(stops, input, fileSize, maxFileSize, builder + [e])
  {
    var more := builder + [e];
    forall n | 0 < n < |more|
      ensures fileSize(more[..n]) < maxFileSize && !StopBetween(stops, input, more[n - 1], more[n])
    {
      assert more[..n] == builder[..n];
      if n == |builder| { assert builder[..n] == builder; }
    }
  }

  lemma OneMoreOutput(stops: nat -> bool, input: seq<Entry>, fileSize: seq<Entry> -> nat, maxFileSize: nat,
                      outputs: seq<seq<Entry>>, builder: seq<Entry>, more: seq<Entry>)
    requires RightCuts(stops, input, fileSize, maxFileSize, Finished(outputs, builder)) && builder <= more && more != []
    requires Whole(stops, input, fileSize, maxFileSize, more)
    requires builder == [] && outputs != [] ==>
      CutBetween(stops, input, fileSize, maxFileSize, outputs[|outputs| - 1], more)
    ensures RightCuts(stops, input, fileSize, maxFileSize, outputs + [more])
  {
    var before, after := Finished(outputs, builder), outputs + [more];
    forall k | 0 <= k < |outputs| ensures after[k] == before[k] {}
    forall k | 0 <= k < |after| - 1
      ensures CutBetween(stops, input, fileSize, maxFileSize, after[k], after[k + 1])
    {
      if k + 1 == |outputs| && builder != [] {
        assert CutBetween(stops, input, fileSize, maxFileSize, before[k], before[k + 1]);
      }
    }
  }
}
