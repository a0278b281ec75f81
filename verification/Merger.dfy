/** Merging sorted iterators (table/merger.cc). */
module Merger {
  import opened InternalKeys
  import opened ReadSpec
  import opened Iterators

  datatype Direction = Forward | Reverse

  /** Where a scan starts: at either end, at a key, or strictly beside one. */
  datatype Bound = Ends | At(key: InternalKey) | Beside(key: InternalKey)

  predicate Past(a: InternalKey, b: Bound) {
    match b case Ends => true case At(k) => AtMost(k, a) case Beside(k) => Less(k, a)
  }

  predicate Short(a: InternalKey, b: Bound) {
    match b case Ends => true case At(k) => AtMost(a, k) case Beside(k) => Less(a, k)
  }

  /** `r` is the least entry of `es` past the bound. */
  ghost predicate LeastPast(es: set<Entry>, b: Bound, r: Option<Entry>) {
    match r
    case None => forall e :: e in es ==> !Past(e.key, b)
    case Some(x) => x in es && Past(x.key, b) && forall e :: e in es && Past(e.key, b) ==> AtMost(x.key, e.key)
  }

  /** `r` is the greatest entry of `es` short of the bound. */
  ghost predicate GreatestShort(es: set<Entry>, b: Bound, r: Option<Entry>) {
    match r
    case None => forall e :: e in es ==> !Short(e.key, b)
    case Some(x) => x in es && Short(x.key, b) && forall e :: e in es && Short(e.key, b) ==> AtMost(e.key, x.key)
  }

  /** `pos` is the first position of `s` past the bound. */
  ghost predicate StandsPast(s: seq<Entry>, pos: nat, b: Bound) {
    && pos <= |s|
    && (forall j :: 0 <= j < pos ==> !Past(s[j].key, b))
    && (forall j :: pos <= j < |s| ==> Past(s[j].key, b))
  }

  /** `pos` is the last position of `s` short of the bound, or |s| if there is none. */
  ghost predicate StandsShort(s: seq<Entry>, pos: nat, b: Bound) {
    && pos <= |s|
    && (pos < |s| ==> Short(s[pos].key, b))
    && (forall j :: 0 <= j < |s| && (pos == |s| || pos < j) ==> !Short(s[j].key, b))
  }

  /** All entries of all runs. */
  ghost function Union(runs: seq<seq<Entry>>): set<Entry> {
    set r, e | r in runs && e in r :: e
  }

  /** No key occurs in two runs. */
  ghost predicate DistinctKeys(runs: seq<seq<Entry>>) {
    forall i, j, a, b :: 0 <= i < j < |runs| && a in runs[i] && b in runs[j] ==> a.key != b.key
  }

  ghost predicate Standing(runs: seq<seq<Entry>>, pos: seq<nat>, dir: Direction, but: int, b: Bound)
    requires |pos| == |runs|
  {
    forall i :: 0 <= i < |runs| && i != but ==>
        (if dir.Forward? then StandsPast(runs[i], pos[i], b) else StandsShort(runs[i], pos[i], b))
  }

  ghost predicate Picks(runs: seq<seq<Entry>>, pos: seq<nat>, dir: Direction, c: int)
    requires |pos| == |runs|
  {
    && -1 <= c < |runs| && (c >= 0 ==> pos[c] < |runs[c]|)
    && forall i :: 0 <= i < |runs| && pos[i] < |runs[i]| ==>
      (c >= 0 && if dir.Forward? then AtMost(runs[c][pos[c]].key, runs[i][pos[i]].key)
          else AtMost(runs[i][pos[i]].key, runs[c][pos[c]].key))
  }

  ghost predicate AllSorted(runs: seq<seq<Entry>>) {
    forall i :: 0 <= i < |runs| ==> Sorted(runs[i])
  }

  ghost function Picked(runs: seq<seq<Entry>>, pos: seq<nat>, c: int): Option<Entry>
    requires |pos| == |runs| && c < |runs| && (c >= 0 ==> pos[c] < |runs[c]|)
  {
    if c < 0 then None else Some(runs[c][pos[c]])
  }

  lemma InUnion(runs: seq<seq<Entry>>, i: nat, e: Entry)
    requires i < |runs| && e in runs[i]
    ensures e in Union(runs)
  {
  }

  /** The smallest of the entries the children stand at is the least entry past the bound. */
  lemma SmallestIsLeast(runs: seq<seq<Entry>>, pos: seq<nat>, c: int, b: Bound)
    requires |pos| == |runs| && AllSorted(runs) && Standing(runs, pos, Forward, -1, b) && Picks(runs, pos, Forward, c)
    ensures LeastPast(Union(runs), b, Picked(runs, pos, c))
  {
    forall e | e in Union(runs) && Past(e.key, b) ensures c >= 0 && AtMost(runs[c][pos[c]].key, e.key) {
      var r: seq<Entry> :| r in runs && e in r;
      var i :| 0 <= i < |runs| && runs[i] == r;
      var j :| 0 <= j < |r| && r[j] == e;
      assert StandsPast(runs[i], pos[i], b);
      assert pos[i] < j ==> Less(r[pos[i]].key, e.key);
    }
    if c >= 0 {
      assert StandsPast(runs[c], pos[c], b);
      InUnion(runs, c, runs[c][pos[c]]);
    }
  }

  /** Every other child then stands just after the key picked. */
  lemma SmallestKeepsStanding(runs: seq<seq<Entry>>, pos: seq<nat>, c: nat, b: Bound)
    requires |pos| == |runs| && AllSorted(runs) && DistinctKeys(runs) && Standing(runs, pos, Forward, -1, b)
      && Picks(runs, pos, Forward, c)
    ensures Standing(runs, pos, Forward, c, Beside(runs[c][pos[c]].key))
  {
    var x := runs[c][pos[c]];
    assert StandsPast(runs[c], pos[c], b);
    forall i | 0 <= i < |runs| && i != c ensures StandsPast(runs[i], pos[i], Beside(x.key)) {
      assert StandsPast(runs[i], pos[i], b);
      forall j | pos[i] <= j < |runs[i]| ensures Less(x.key, runs[i][j].key) {
        assert runs[i][j] in runs[i] && x in runs[c];
        assert pos[i] < j ==> Less(runs[i][pos[i]].key, runs[i][j].key);
      }
    }
  }

  /** The largest of the entries the children stand at is the greatest entry short of the bound. */
  lemma LargestIsGreatest(runs: seq<seq<Entry>>, pos: seq<nat>, c: int, b: Bound)
    requires |pos| == |runs| && AllSorted(runs) && Standing(runs, pos, Reverse, -1, b) && Picks(runs, pos, Reverse, c)
    ensures GreatestShort(Union(runs), b, Picked(runs, pos, c))
  {
    forall e | e in Union(runs) && Short(e.key, b) ensures c >= 0 && AtMost(e.key, runs[c][pos[c]].key) {
      var r: seq<Entry> :| r in runs && e in r;
      var i :| 0 <= i < |runs| && runs[i] == r;
      var j :| 0 <= j < |r| && r[j] == e;
      assert StandsShort(runs[i], pos[i], b);
      assert j < pos[i] < |r| ==> Less(e.key, r[pos[i]].key);
    }
    if c >= 0 {
      assert StandsShort(runs[c], pos[c], b);
      InUnion(runs, c, runs[c][pos[c]]);
    }
  }

  /** Every other child then stands just before the key picked. */
  lemma LargestKeepsStanding(runs: seq<seq<Entry>>, pos: seq<nat>, c: nat, b: Bound)
    requires |pos| == |runs| && AllSorted(runs) && DistinctKeys(runs) && Standing(runs, pos, Reverse, -1, b)
      && Picks(runs, pos, Reverse, c)
    ensures Standing(runs, pos, Reverse, c, Beside(runs[c][pos[c]].key))
  {
    var x := runs[c][pos[c]];
    assert StandsShort(runs[c], pos[c], b);
    forall i | 0 <= i < |runs| && i != c ensures StandsShort(runs[i], pos[i], Beside(x.key)) {
      assert StandsShort(runs[i], pos[i], b);
      forall j | 0 <= j < |runs[i]| ensures runs[i][j].key != x.key {
        assert runs[i][j] in runs[i] && x in runs[c];
      }
    }
  }

  lemma Stepped(s: seq<Entry>, pos: nat)
    requires Sorted(s) && pos < |s|
    ensures StandsPast(s, pos + 1, Beside(s[pos].key))
    ensures StandsShort(s, if pos == 0 then |s| else pos - 1, Beside(s[pos].key))
  {
  }

  /** Where a seek, and a step off an equal key, leaves a child. */
  lemma SeekStands(s: seq<Entry>, pos: nat, k: InternalKey)
    requires Sorted(s) && IsSeekPosition(s, k, pos)
    ensures StandsPast(s, pos, At(k))
    ensures StandsPast(s, if pos < |s| && s[pos].key == k then pos + 1 else pos, Beside(k))
    ensures StandsShort(s, if pos == 0 then |s| else pos - 1, Beside(k))
  {
    if pos < |s| {
      forall j | pos < j < |s| ensures Less(s[pos].key, s[j].key) {}
    }
  }

  class MergingIterator {
    const children: seq<EntryIterator>
    var current: int   // index of the child that holds the current entry, -1 if none
    var direction: Direction

    ghost predicate Shape()
      reads this, children
    {
      && (forall i, j :: 0 <= i < j < |children| ==> children[i] != children[j])
      && (forall i :: 0 <= i < |children| ==> children[i].Ok())
      && -1 <= current < |children| && (current >= 0 ==> children[current].Valid())
    }

    ghost function Runs(): seq<seq<Entry>> {
      seq(|children|, i requires 0 <= i < |children| => children[i].entries)
    }

    ghost function Positions(): seq<nat>
      reads children
    {
      seq(|children|, i requires 0 <= i < |children| reads children => children[i].pos)
    }

    ghost function Current(): Option<Entry>
      requires Shape()
      reads this, children
    {
      Picked(Runs(), Positions(), current)
    }

    /** The other children stand just after, or just before, the current key. */
    ghost predicate Positioned()
      requires Shape()
      reads this, children
    {
      current >= 0 ==> Standing(Runs(), Positions(), direction, current, Beside(children[current].Key()))
    }

    constructor (children: seq<EntryIterator>)
      requires forall i, j :: 0 <= i < j < |children| ==> children[i] != children[j]
      requires forall i :: 0 <= i < |children| ==> children[i].Ok()
      ensures Shape() && Positioned() && Current() == None && this.children == children
    {
      this.children := children;
      current, direction := -1, Forward;
    }

    predicate Valid()
      reads this
    {
      current >= 0
    }

    method FindSmallest()
      requires forall i :: 0 <= i < |children| ==> children[i].Ok()
      modifies this`current
      ensures Picks(Runs(), Positions(), Forward, current)
    {
      var smallest := -1;
      for i := 0 to |children|
        invariant -1 <= smallest < i && (smallest >= 0 ==> children[smallest].Valid())
        invariant forall j :: 0 <= j < i && children[j].Valid() ==>
          smallest >= 0 && AtMost(children[smallest].Key(), children[j].Key())
      {
        var child := children[i];
        if child.Valid() {
          if smallest < 0 || Less(child.Key(), children[smallest].Key()) {
            smallest := i;
          }
        }
      }
      current := smallest;
    }

    method FindLargest()
      requires forall i :: 0 <= i < |children| ==> children[i].Ok()
      modifies this`current
      ensures Picks(Runs(), Positions(), Reverse, current)
    {
      var largest := -1;
      for i := |children| downto 0
        invariant largest == -1 || (i <= largest < |children| && children[largest].Valid())
        invariant forall j :: i <= j < |children| && children[j].Valid() ==>
          largest >= 0 && AtMost(children[j].Key(), children[largest].Key())
      {
        var child := children[i];
        if child.Valid() {
          if largest < 0 || Less(children[largest].Key(), child.Key()) {
            largest := i;
          }
        }
      }
      current := largest;
    }

    lemma Least(b: Bound)
      requires Shape() && direction.Forward?
      requires Standing(Runs(), Positions(), Forward, -1, b) && Picks(Runs(), Positions(), Forward, current)
      ensures LeastPast(Union(Runs()), b, Current())
      ensures DistinctKeys(Runs()) ==> Positioned()
    {
      SmallestIsLeast(Runs(), Positions(), current, b);
      if DistinctKeys(Runs()) && current >= 0 { SmallestKeepsStanding(Runs(), Positions(), current, b); }
    }

    lemma Greatest(b: Bound)
      requires Shape() && direction.Reverse?
      requires Standing(Runs(), Positions(), Reverse, -1, b) && Picks(Runs(), Positions(), Reverse, current)
      ensures GreatestShort(Union(Runs()), b, Current())
      ensures DistinctKeys(Runs()) ==> Positioned()
    {
      LargestIsGreatest(Runs(), Positions(), current, b);
      if DistinctKeys(Runs()) && current >= 0 { LargestKeepsStanding(Runs(), Positions(), current, b); }
    }

    /** Positions every child other than the current one after the current key. */
    method OthersAfter()
      requires Shape() && current >= 0
      modifies children
      ensures Shape() && children[current].pos == old(children[current].pos)
      ensures Standing(Runs(), Positions(), Forward, current, Beside(children[current].Key()))
    {
      var key := children[current].Key();
      for i := 0 to |children|
        invariant Shape() && children[current].pos == old(children[current].pos)
        invariant forall j :: 0 <= j < i && j != current ==>
          StandsPast(children[j].entries, children[j].pos, Beside(key))
      {
        if i != current {
          var child := children[i];
          child.Seek(key);
          SeekStands(child.entries, child.pos, key);
          if child.Valid() && key == child.Key() {
            child.Next();
          }
        }
      }
    }

    /** Positions every child other than the current one before the current key. */
    method OthersBefore()
      requires Shape() && current >= 0
      modifies children
      ensures Shape() && children[current].pos == old(children[current].pos)
      ensures Standing(Runs(), Positions(), Reverse, current, Beside(children[current].Key()))
    {
      var key := children[current].Key();
      for i := 0 to |children|
        invariant Shape() && children[current].pos == old(children[current].pos)
        invariant forall j :: 0 <= j < i && j != current ==>
          StandsShort(children[j].entries, children[j].pos, Beside(key))
      {
        if i != current {
          var child := children[i];
          child.Seek(key);
          SeekStands(child.entries, child.pos, key);
          if child.Valid() {
            child.Prev();
          } else {
            child.SeekToLast();
          }
        }
      }
    }

    /** Makes sure that the other children stand just beside the current key on the side of `way`. */
    method Turn(way: Direction)
      requires Shape() && current >= 0 && (DistinctKeys(Runs()) ==> Positioned())
      modifies this`direction, children
      ensures Shape() && direction == way && children[current].pos == old(children[current].pos)
      ensures DistinctKeys(Runs()) ==> Positioned()
    {
      if direction != way {
        if way.Forward? {
          OthersAfter();
        } else {
          OthersBefore();
        }
        direction := way;
      }
    }

    /** Steps the current child off the current key; then all children stand beside that key. */
    method StepCurrent(key: InternalKey)
      requires Shape() && current >= 0 && key == children[current].Key()
      modifies children
      ensures forall i :: 0 <= i < |children| ==> children[i].Ok()
      ensures old(Standing(Runs(), Positions(), direction, current, Beside(key))) ==>
        Standing(Runs(), Positions(), direction, -1, Beside(key))
    {
      var child := children[current];
      Stepped(child.entries, child.pos);
      if direction.Forward? {
        child.Next();
      } else {
        child.Prev();
      }
      assert forall i :: 0 <= i < |children| && i != current ==> children[i].pos == old(children[i].pos);
    }

    /** Moves to the least entry after the current one, whatever the last direction. */
    method Next()
      requires Shape() && Valid() && (DistinctKeys(Runs()) ==> Positioned())
      modifies this, children
      ensures Shape() && (DistinctKeys(Runs()) ==> Positioned())
      ensures DistinctKeys(Runs()) ==> LeastPast(Union(Runs()), Beside(old(Current()).value.key), Current())
    {
      var key := children[current].Key();
      Turn(Forward);
      StepCurrent(key);
      FindSmallest();
      if DistinctKeys(Runs()) { Least(Beside(key)); }
    }

    /** Moves to the greatest entry before the current one, whatever the last direction. */
    method Prev()
      requires Shape() && Valid() && (DistinctKeys(Runs()) ==> Positioned())
      modifies this, children
      ensures Shape() && (DistinctKeys(Runs()) ==> Positioned())
      ensures DistinctKeys(Runs()) ==> GreatestShort(Union(Runs()), Beside(old(Current()).value.key), Current())
    {
      var key := children[current].Key();
      Turn(Reverse);
      StepCurrent(key);
      FindLargest();
      if DistinctKeys(Runs()) { Greatest(Beside(key)); }
    }

    method Seek(target: InternalKey)
      requires Shape()
      modifies this, children
      ensures Shape() && (DistinctKeys(Runs()) ==> Positioned())
      ensures LeastPast(Union(Runs()), At(target), Current())
    {
      for i := 0 to |children|
        invariant forall j :: 0 <= j < |children| ==> children[j].Ok()
        invariant forall j :: 0 <= j < i ==> StandsPast(children[j].entries, children[j].pos, At(target))
      {
        children[i].Seek(target);
        SeekStands(children[i].entries, children[i].pos, target);
      }
      FindSmallest();
      direction := Forward;
      Least(At(target));
    }

    method SeekToFirst()
      requires Shape()
      modifies this, children
      ensures Shape() && (DistinctKeys(Runs()) ==> Positioned())
      ensures LeastPast(Union(Runs()), Ends, Current())
    {
      for i := 0 to |children|
        invariant forall j :: 0 <= j < |children| ==> children[j].Ok()
        invariant forall j :: 0 <= j < i ==> StandsPast(children[j].entries, children[j].pos, Ends)
      {
        children[i].SeekToFirst();
      }
      FindSmallest();
      direction := Forward;
      Least(Ends);
    }

    method SeekToLast()
      requires Shape()
      modifies this, children
      ensures Shape() && (DistinctKeys(Runs()) ==> Positioned())
      ensures GreatestShort(Union(Runs()), Ends, Current())
    {
      for i := 0 to |children|
        invariant forall j :: 0 <= j < |children| ==> children[j].Ok()
        invariant forall j :: 0 <= j < i ==> StandsShort(children[j].entries, children[j].pos, Ends)
      {
        children[i].SeekToLast();
      }
      FindLargest();
      direction := Reverse;
      Greatest(Ends);
    }
  }
}
