/** An iterator over the concatenation of the blocks an index names
    (table/two_level_iterator.cc). */
module TwoLevel {
  import opened InternalKeys
  import opened ReadSpec
  import opened Iterators
  import opened Merger

  /** Index key i is at or above every key of block i and below every key of the blocks after it. */
  ghost predicate Separated(index: seq<Entry>, runs: seq<seq<Entry>>) {
    && |runs| == |index| && Sorted(index) && AllSorted(runs)
    && (forall i, e :: 0 <= i < |runs| && e in runs[i] ==> AtMost(e.key, index[i].key))
    && (forall i, j, e :: 0 <= i < j < |runs| && e in runs[j] ==> Less(index[i].key, e.key))
  }

  /** Position `d` of block `i` splits the concatenation at the bound; no block means the very end. */
  ghost predicate CutsPast(runs: seq<seq<Entry>>, i: nat, d: nat, b: Bound)
    requires i <= |runs|
  {
    && (forall j, e :: 0 <= j < i && e in runs[j] ==> !Past(e.key, b))
    && (forall j, e :: i < j < |runs| && e in runs[j] ==> Past(e.key, b))
    && (i < |runs| ==> StandsPast(runs[i], d, b))
  }

  /** The same seen from the other side; no block means the very beginning. */
  ghost predicate CutsShort(runs: seq<seq<Entry>>, i: nat, d: nat, b: Bound)
    requires i <= |runs|
  {
    && (forall j, e :: 0 <= j < i < |runs| && e in runs[j] ==> Short(e.key, b))
    && (forall j, e :: 0 <= j < |runs| && (i == |runs| || i < j) && e in runs[j] ==> !Short(e.key, b))
    && (i < |runs| ==> StandsShort(runs[i], d, b))
  }

  ghost function EntryAt(runs: seq<seq<Entry>>, i: nat, d: nat): Option<Entry> {
    if i < |runs| && d < |runs[i]| then Some(runs[i][d]) else None
  }

  lemma CutIsLeast(index: seq<Entry>, runs: seq<seq<Entry>>, i: nat, d: nat, b: Bound)
    requires Separated(index, runs) && i <= |runs| && CutsPast(runs, i, d, b) && (i < |runs| ==> d < |runs[i]|)
    ensures LeastPast(Union(runs), b, EntryAt(runs, i, d))
  {
    forall e | e in Union(runs) && Past(e.key, b) ensures i < |runs| && AtMost(runs[i][d].key, e.key) {
      var r: seq<Entry> :| r in runs && e in r;
      var j :| 0 <= j < |runs| && runs[j] == r;
      if i < j {
        assert runs[i][d] in runs[i];
        assert Less(index[i].key, e.key);
      } else {
        var x :| 0 <= x < |r| && r[x] == e;
        assert d < x ==> Less(r[d].key, r[x].key);
      }
    }
    if i < |runs| { InUnion(runs, i, runs[i][d]); }
  }

  lemma CutIsGreatest(index: seq<Entry>, runs: seq<seq<Entry>>, i: nat, d: nat, b: Bound)
    requires Separated(index, runs) && i <= |runs| && CutsShort(runs, i, d, b) && (i < |runs| ==> d < |runs[i]|)
    ensures GreatestShort(Union(runs), b, EntryAt(runs, i, d))
  {
    forall e | e in Union(runs) && Short(e.key, b) ensures i < |runs| && AtMost(e.key, runs[i][d].key) {
      var r: seq<Entry> :| r in runs && e in r;
      var j :| 0 <= j < |runs| && runs[j] == r;
      if j < i {
        assert runs[i][d] in runs[i];
        assert Less(index[j].key, runs[i][d].key);
      } else {
        var x :| 0 <= x < |r| && r[x] == e;
        assert x < d ==> Less(r[x].key, r[d].key);
      }
    }
    if i < |runs| { InUnion(runs, i, runs[i][d]); }
  }

  /** One step off entry `d` of block `i`, in either direction. */
  lemma StepCuts(index: seq<Entry>, runs: seq<seq<Entry>>, i: nat, d: nat)
    requires Separated(index, runs) && i < |runs| && d < |runs[i]|
    ensures CutsPast(runs, i, d + 1, Beside(runs[i][d].key))
    ensures CutsShort(runs, i, if d == 0 then |runs[i]| else d - 1, Beside(runs[i][d].key))
  {
    Stepped(runs[i], d);
    assert runs[i][d] in runs[i];
    forall j, e | 0 <= j < i && e in runs[j] ensures Less(e.key, runs[i][d].key) {
      assert Less(index[j].key, runs[i][d].key);
    }
    forall j, e | i < j < |runs| && e in runs[j] ensures Less(runs[i][d].key, e.key) {
      assert Less(index[i].key, e.key);
    }
  }

  /** The index leads a seek to the only block that can hold the target. */
  lemma SeekCuts(index: seq<Entry>, runs: seq<seq<Entry>>, i: nat, d: nat, target: InternalKey)
    requires Separated(index, runs) && IsSeekPosition(index, target, i)
      && (i < |runs| ==> StandsPast(runs[i], d, At(target)))
    ensures CutsPast(runs, i, d, At(target))
  {
    forall j, e | 0 <= j < i && e in runs[j] ensures Less(e.key, target) {
      assert AtMost(e.key, index[j].key);
    }
    forall j, e | i < j < |runs| && e in runs[j] ensures Less(target, e.key) {
      assert Less(index[i].key, e.key);
    }
  }

  class TwoLevelIterator {
    const read: Bytes -> seq<Entry>   // the block function: what a handle stands for
    const indexIter: EntryIterator
    var dataIter: EntryIterator?
    var dataBlockHandle: Bytes

    ghost function Runs(): seq<seq<Entry>> {
      seq(|indexIter.entries|, i requires 0 <= i < |indexIter.entries| => read(indexIter.entries[i].value))
    }

    ghost predicate Ok()
      reads this, indexIter, dataIter
    {
      && indexIter.Ok() && Separated(indexIter.entries, Runs())
      && dataIter != indexIter
      && (dataIter != null ==>
            (&& dataIter.Ok() && indexIter.Valid()
             && dataIter.entries == read(dataBlockHandle) && dataBlockHandle == indexIter.entries[indexIter.pos].value))
    }

    ghost function Repr(): set<object>
      reads this
    {
      {this, indexIter} + if dataIter == null then {} else {dataIter}
    }

    predicate Valid()
      reads this, dataIter
    {
      dataIter != null && dataIter.Valid()
    }

    ghost function Current(): Option<Entry>
      reads this, dataIter
    {
      if Valid() then Some(dataIter.entries[dataIter.pos]) else None
    }

    constructor (indexIter: EntryIterator, read: Bytes -> seq<Entry>)
      requires indexIter.Ok()
      requires Separated(indexIter.entries,
          seq(|indexIter.entries|, i requires 0 <= i < |indexIter.entries| => read(indexIter.entries[i].value)))
      ensures Ok() && this.indexIter == indexIter && this.read == read && Current() == None
    {
      this.indexIter, this.read, dataIter, dataBlockHandle := indexIter, read, null, [];
    }

    /** Opens the block the index stands at, unless that block is open already. */
    method InitDataBlock()
      requires indexIter.Ok() && Separated(indexIter.entries, Runs()) && dataIter != indexIter
      requires dataIter != null ==> dataIter.Ok() && dataIter.entries == read(dataBlockHandle)
      modifies this`dataIter, this`dataBlockHandle
      ensures Ok() && (dataIter == null <==> !indexIter.Valid())
        && (dataIter == old(dataIter) || dataIter == null || fresh(dataIter))
    {
      if !indexIter.Valid() {
        dataIter := null;
      } else {
        var handle := indexIter.entries[indexIter.pos].value;
        assert Runs()[indexIter.pos] == read(handle);
        if dataIter != null && handle == dataBlockHandle {
          // the block is open already
        } else {
          dataIter := new EntryIterator(read(handle));
          dataBlockHandle := handle;
        }
      }
    }

    method NextBlock(ghost b: Bound)
      requires Ok() && indexIter.Valid() && dataIter != null && !dataIter.Valid()
      requires CutsPast(Runs(), indexIter.pos, dataIter.pos, b)
      modifies Repr()
      ensures Ok() && (dataIter == null <==> !indexIter.Valid()) && fresh(Repr() - old(Repr()))
      ensures indexIter.pos > old(indexIter.pos)
      ensures CutsPast(Runs(), indexIter.pos, if dataIter == null then 0 else dataIter.pos, b)
    {
      indexIter.Next();
      InitDataBlock();
      if dataIter != null { dataIter.SeekToFirst(); }
    }

    /** Leaves the iterator at the first entry past the bound, over any number of empty blocks. */
    method SkipEmptyDataBlocksForward(ghost b: Bound)
      requires Ok() && (dataIter == null <==> !indexIter.Valid())
      requires CutsPast(Runs(), indexIter.pos, if dataIter == null then 0 else dataIter.pos, b)
      modifies Repr()
      ensures Ok() && LeastPast(Union(Runs()), b, Current()) && fresh(Repr() - old(Repr()))
    {
      while dataIter == null || !dataIter.Valid()
        invariant Ok() && (dataIter == null <==> !indexIter.Valid()) && fresh(Repr() - old(Repr()))
        invariant CutsPast(Runs(), indexIter.pos, if dataIter == null then 0 else dataIter.pos, b)
        decreases |indexIter.entries| - indexIter.pos
      {
        if !indexIter.Valid() {
          dataIter := null;
          CutIsLeast(indexIter.entries, Runs(), indexIter.pos, 0, b);
          return;
        }
        NextBlock(b);
      }
      CutIsLeast(indexIter.entries, Runs(), indexIter.pos, dataIter.pos, b);
    }

    method PreviousBlock(ghost b: Bound)
      requires Ok() && indexIter.Valid() && dataIter != null && !dataIter.Valid()
      requires CutsShort(Runs(), indexIter.pos, dataIter.pos, b)
      modifies Repr()
      ensures Ok() && (dataIter == null <==> !indexIter.Valid()) && fresh(Repr() - old(Repr()))
      ensures indexIter.Valid() ==> indexIter.pos < old(indexIter.pos)
      ensures CutsShort(Runs(), indexIter.pos, if dataIter == null then 0 else dataIter.pos, b)
    {
      indexIter.Prev();
      InitDataBlock();
      if dataIter != null { dataIter.SeekToLast(); }
    }

    /** Leaves the iterator at the last entry short of the bound, over any number of empty blocks. */
    method SkipEmptyDataBlocksBackward(ghost b: Bound)
      requires Ok() && (dataIter == null <==> !indexIter.Valid())
      requires CutsShort(Runs(), indexIter.pos, if dataIter == null then 0 else dataIter.pos, b)
      modifies Repr()
      ensures Ok() && GreatestShort(Union(Runs()), b, Current()) && fresh(Repr() - old(Repr()))
    {
      while dataIter == null || !dataIter.Valid()
        invariant Ok() && (dataIter == null <==> !indexIter.Valid()) && fresh(Repr() - old(Repr()))
        invariant CutsShort(Runs(), indexIter.pos, if dataIter == null then 0 else dataIter.pos, b)
        decreases if indexIter.Valid() then indexIter.pos + 1 else 0
      {
        if !indexIter.Valid() {
          dataIter := null;
          CutIsGreatest(indexIter.entries, Runs(), indexIter.pos, 0, b);
          return;
        }
        PreviousBlock(b);
      }
      CutIsGreatest(indexIter.entries, Runs(), indexIter.pos, dataIter.pos, b);
    }

    method Seek(target: InternalKey)
      requires Ok()
      modifies Repr()
      ensures Ok() && LeastPast(Union(Runs()), At(target), Current()) && fresh(Repr() - old(Repr()))
    {
      indexIter.Seek(target);
      InitDataBlock();
      if dataIter != null {
        dataIter.Seek(target);
        SeekStands(dataIter.entries, dataIter.pos, target);
      }
      SeekCuts(indexIter.entries, Runs(), indexIter.pos, if dataIter == null then 0 else dataIter.pos, target);
      SkipEmptyDataBlocksForward(At(target));
    }

    method SeekToFirst()
      requires Ok()
      modifies Repr()
      ensures Ok() && LeastPast(Union(Runs()), Ends, Current()) && fresh(Repr() - old(Repr()))
    {
      indexIter.SeekToFirst();
      InitDataBlock();
      if dataIter != null { dataIter.SeekToFirst(); }
      SkipEmptyDataBlocksForward(Ends);
    }

    method SeekToLast()
      requires Ok()
      modifies Repr()
      ensures Ok() && GreatestShort(Union(Runs()), Ends, Current()) && fresh(Repr() - old(Repr()))
    {
      indexIter.SeekToLast();
      InitDataBlock();
      if dataIter != null { dataIter.SeekToLast(); }
      SkipEmptyDataBlocksBackward(Ends);
    }

    method Next()
      requires Ok() && Valid()
      modifies Repr()
      ensures Ok() && LeastPast(Union(Runs()), Beside(old(Current()).value.key), Current())
        && fresh(Repr() - old(Repr()))
    {
      ghost var key := dataIter.Key();
      StepCuts(indexIter.entries, Runs(), indexIter.pos, dataIter.pos);
      dataIter.Next();
      SkipEmptyDataBlocksForward(Beside(key));
    }

    method Prev()
      requires Ok() && Valid()
      modifies Repr()
      ensures Ok() && GreatestShort(Union(Runs()), Beside(old(Current()).value.key), Current())
        && fresh(Repr() - old(Repr()))
    {
      ghost var key := dataIter.Key();
      StepCuts(indexIter.entries, Runs(), indexIter.pos, dataIter.pos);
      dataIter.Prev();
      SkipEmptyDataBlocksBackward(Beside(key));
    }
  }
}
