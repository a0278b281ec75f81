/** The iterators stacked (db/db_impl.cc, NewInternalIterator): what a merging or a two-level iterator
    stands at is what an iterator over the sorted run of all entries stands at, so the database iterator
    may be given either. */
module IteratorStack {
  import opened InternalKeys
  import opened ReadSpec
  import opened Iterators
  import opened Merger
  import opened TwoLevel
  import opened CompactionWork

  /** What an EntryIterator at `pos` stands at. */
  function AtPosition(s: seq<Entry>, pos: int): Option<Entry> {
    if 0 <= pos < |s| then Some(s[pos]) else None
  }

  lemma NotAfter(s: seq<Entry>, i: nat, j: nat)
    requires Sorted(s) && i < |s| && j < |s|
    ensures AtMost(s[i].key, s[j].key) ==> i <= j
  {
    assert j < i ==> Less(s[j].key, s[i].key);
  }

  /** In a sorted run the least entry past a bound is the first one past it. */
  lemma LeastIsFirst(s: seq<Entry>, b: Bound, r: Option<Entry>, pos: nat)
    requires Sorted(s) && LeastPast(EntrySet(s), b, r) && StandsPast(s, pos, b)
    ensures r == AtPosition(s, pos)
  {
    if pos < |s| {
      assert s[pos] in EntrySet(s);
      var x := r.value;
      var i :| 0 <= i < |s| && s[i] == x;
      NotAfter(s, i, pos);
    }
    forall e | e in EntrySet(s) && pos == |s| ensures !Past(e.key, b) {
      var i :| 0 <= i < |s| && s[i] == e;
    }
  }

  lemma GreatestIsLast(s: seq<Entry>, b: Bound, r: Option<Entry>, pos: nat)
    requires Sorted(s) && GreatestShort(EntrySet(s), b, r) && StandsShort(s, pos, b)
    ensures r == AtPosition(s, pos)
  {
    if pos < |s| {
      assert s[pos] in EntrySet(s);
      var x := r.value;
      var i :| 0 <= i < |s| && s[i] == x;
      NotAfter(s, pos, i);
    }
    forall e | e in EntrySet(s) && pos == |s| ensures !Short(e.key, b) {
      var i :| 0 <= i < |s| && s[i] == e;
    }
  }

  /** Next and Prev of a merging or two-level iterator over the entries of `s` are those of an
      EntryIterator over `s`. */
  lemma StepsAgree(s: seq<Entry>, pos: nat, next: Option<Entry>, previous: Option<Entry>)
    requires Sorted(s) && pos < |s|
    requires LeastPast(EntrySet(s), Beside(s[pos].key), next)
      && GreatestShort(EntrySet(s), Beside(s[pos].key), previous)
    ensures next == AtPosition(s, pos + 1)
    ensures previous == AtPosition(s, if pos == 0 then |s| else pos - 1)
  {
    Stepped(s, pos);
    LeastIsFirst(s, Beside(s[pos].key), next, pos + 1);
    GreatestIsLast(s, Beside(s[pos].key), previous, if pos == 0 then |s| else pos - 1);
  }

  /** So are the three ways to seek. */
  lemma SeeksAgree(s: seq<Entry>, target: InternalKey, pos: nat, sought: Option<Entry>, first: Option<Entry>,
                   last: Option<Entry>)
    requires Sorted(s) && IsSeekPosition(s, target, pos) && LeastPast(EntrySet(s), At(target), sought)
    requires LeastPast(EntrySet(s), Ends, first) && GreatestShort(EntrySet(s), Ends, last)
    ensures sought == AtPosition(s, pos)
    ensures first == AtPosition(s, 0)
    ensures last == AtPosition(s, |s| - 1)
  {
    SeekStands(s, pos, target);
    LeastIsFirst(s, At(target), sought, pos);
    LeastIsFirst(s, Ends, first, 0);
    GreatestIsLast(s, Ends, last, if s == [] then 0 else |s| - 1);
  }

  /** A merging iterator stands where an iterator over all its entries would. */
  ghost predicate InStep(m: MergingIterator, e: EntryIterator)
    reads m, m.children, e
  {
    && m.Shape() && e.Ok() && e !in m.children && (DistinctKeys(m.Runs()) ==> m.Positioned())
    && DistinctKeys(m.Runs()) && EntrySet(e.entries) == Union(m.Runs()) && m.Current() == AtPosition(e.entries, e.pos)
  }

  method NextInStep(m: MergingIterator, e: EntryIterator)
    requires InStep(m, e) && m.Valid()
    modifies m, m.children, e
    ensures InStep(m, e)
  {
    ghost var s, pos := e.entries, e.pos;
    Stepped(s, pos);
    m.Next();
    LeastIsFirst(s, Beside(s[pos].key), m.Current(), pos + 1);
    e.Next();
  }

  method PrevInStep(m: MergingIterator, e: EntryIterator)
    requires InStep(m, e) && m.Valid()
    modifies m, m.children, e
    ensures InStep(m, e)
  {
    ghost var s, pos := e.entries, e.pos;
    Stepped(s, pos);
    m.Prev();
    GreatestIsLast(s, Beside(s[pos].key), m.Current(), if pos == 0 then |s| else pos - 1);
    e.Prev();
  }

  method SeekInStep(m: MergingIterator, e: EntryIterator, target: InternalKey)
    requires InStep(m, e)
    modifies m, m.children, e
    ensures InStep(m, e)
  {
    m.Seek(target);
    e.Seek(target);
    SeekStands(e.entries, e.pos, target);
    LeastIsFirst(e.entries, At(target), m.Current(), e.pos);
  }

  /** A two-level iterator stands where an iterator over all the entries of its blocks would. */
  ghost predicate BlocksInStep(t: TwoLevelIterator, e: EntryIterator)
    reads t, t.Repr(), t.indexIter, t.dataIter, e
  {
    && t.Ok() && e.Ok() && e !in t.Repr() && EntrySet(e.entries) == Union(t.Runs())
    && t.Current() == AtPosition(e.entries, e.pos)
  }

  method NextBlockwise(t: TwoLevelIterator, e: EntryIterator)
    requires BlocksInStep(t, e) && t.Valid()
    modifies t.Repr(), e
    ensures BlocksInStep(t, e)
  {
    ghost var s, pos := e.entries, e.pos;
    Stepped(s, pos);
    t.Next();
    LeastIsFirst(s, Beside(s[pos].key), t.Current(), pos + 1);
    e.Next();
  }

  method PrevBlockwise(t: TwoLevelIterator, e: EntryIterator)
    requires BlocksInStep(t, e) && t.Valid()
    modifies t.Repr(), e
    ensures BlocksInStep(t, e)
  {
    ghost var s, pos := e.entries, e.pos;
    Stepped(s, pos);
    t.Prev();
    GreatestIsLast(s, Beside(s[pos].key), t.Current(), if pos == 0 then |s| else pos - 1);
    e.Prev();
  }

  method SeekBlockwise(t: TwoLevelIterator, e: EntryIterator, target: InternalKey)
    requires BlocksInStep(t, e)
    modifies t.Repr(), e
    ensures BlocksInStep(t, e)
  {
    t.Seek(target);
    e.Seek(target);
    SeekStands(e.entries, e.pos, target);
    LeastIsFirst(e.entries, At(target), t.Current(), e.pos);
  }
}
