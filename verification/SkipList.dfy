/** The skip list of the memtable (db/skiplist.h): one writer, any number of readers that take no
    lock.  Every load and store of a link is one step.  A key stands for its place in the order of
    the comparator, and a node is known by its key. */
module SkipLists {
  import opened ReadSpec

  type Key = real

  const MAX_HEIGHT: nat := 12

  datatype Link = Head | Node(key: Key)

  /** The next pointers of one level. */
  type Row = map<Link, Option<Key>>

  datatype Memory = Memory(next: seq<Row>, maxHeight: nat)

  function LinkAt(list: seq<Key>, i: nat): Link
    requires i <= |list|
  {
    if i == 0 then Head else Node(list[i - 1])
  }

  function KeyAt(list: seq<Key>, i: nat): Option<Key> {
    if i < |list| then Some(list[i]) else None
  }

  /** Following the pointers of the level from the head meets exactly the keys of the list. */
  ghost predicate Chain(row: Row, list: seq<Key>) {
    forall i :: 0 <= i <= |list| ==> LinkAt(list, i) in row && row[LinkAt(list, i)] == KeyAt(list, i)
  }

  ghost predicate Ascends(list: seq<Key>) {
    forall i, j :: 0 <= i < j < |list| ==> list[i] < list[j]
  }

  /** Every level is a sorted chain and a sublist of the level below; levels not in use are empty. */
  ghost predicate Shape(m: Memory, lists: seq<seq<Key>>) {
    && |m.next| == |lists| == MAX_HEIGHT && 1 <= m.maxHeight <= MAX_HEIGHT
    && (forall l :: 0 <= l < MAX_HEIGHT ==> Chain(m.next[l], lists[l]) && Ascends(lists[l]))
    && (forall l, h, k :: 0 <= l < h < MAX_HEIGHT && k in lists[h] ==> k in lists[l])
    && (forall l :: m.maxHeight <= l < MAX_HEIGHT ==> lists[l] == [])
  }

  /** `p` is where `key` belongs. */
  ghost predicate Belongs(list: seq<Key>, key: Key, p: nat) {
    && p <= |list| && (forall i :: 0 <= i < p ==> list[i] < key) && (forall i :: p <= i < |list| ==> key < list[i])
  }

  /** `prev` is the last node before `key`. */
  ghost predicate IsPrev(list: seq<Key>, prev: Link, key: Key) {
    exists p :: Belongs(list, key, p) && prev == LinkAt(list, p)
  }

  function Inserted(list: seq<Key>, key: Key, p: nat): seq<Key>
    requires p <= |list|
  {
    list[..p] + [key] + list[p..]
  }

  function SetNext(m: Memory, level: nat, at: Link, k: Option<Key>): Memory
    requires level < |m.next|
  {
    m.(next := m.next[level := m.next[level][at := k]])
  }

  /** A node that is not linked yet can be given any pointer. */
  lemma ChainIgnores(row: Row, list: seq<Key>, key: Key, k: Option<Key>)
    requires Chain(row, list) && key !in list
    ensures Chain(row[Node(key) := k], list)
  {
    forall i | 0 <= i <= |list| ensures LinkAt(list, i) != Node(key) && LinkAt(list, i) in row {
      if i > 0 { assert list[i - 1] in list; }
    }
  }

  /** Once the new node points at its successor, one store links it into the level. */
  lemma ChainInsert(row: Row, list: seq<Key>, key: Key, p: nat)
    requires Chain(row, list) && Ascends(list) && Belongs(list, key, p)
    requires Node(key) in row && row[Node(key)] == KeyAt(list, p)
    ensures Chain(row[LinkAt(list, p) := Some(key)], Inserted(list, key, p)) && Ascends(Inserted(list, key, p))
  {
    var to, now := row[LinkAt(list, p) := Some(key)], Inserted(list, key, p);
    forall i | 0 <= i <= |now| ensures LinkAt(now, i) in to && to[LinkAt(now, i)] == KeyAt(now, i) {
      if i < p {
        assert LinkAt(now, i) == LinkAt(list, i) && LinkAt(list, i) in row;
        if i > 0 { assert p > 0 && list[i - 1] < list[p - 1]; }
      } else if i == p {
        assert LinkAt(now, i) == LinkAt(list, p);
      } else if i == p + 1 {
        assert LinkAt(now, i) == Node(key) && LinkAt(list, p) != Node(key);
      } else {
        assert LinkAt(now, i) == LinkAt(list, i - 1) && LinkAt(list, i - 1) in row;
        if p > 0 { assert list[p - 1] < list[i - 2]; }
      }
    }
  }

  /** The writer between two stores of Insert: the new node is linked on the levels below `level`,
      and `prepared` when it points at its successor on that level. */
  datatype Writer = Idle | Linking(key: Key, height: nat, prev: seq<Link>, level: nat, prepared: bool)

  ghost predicate WriterOk(m: Memory, lists: seq<seq<Key>>, w: Writer)
    requires Shape(m, lists)
  {
    w.Linking? ==>
      && 1 <= w.height <= m.maxHeight && |w.prev| == w.height && w.level < w.height
      && (forall l :: 0 <= l < MAX_HEIGHT ==> (w.key in lists[l] <==> l < w.level))
      && (forall l :: w.level <= l < w.height ==> IsPrev(lists[l], w.prev[l], w.key))
      && (w.prepared ==> (Node(w.key) in m.next[w.level] && w.prev[w.level] in m.next[w.level] &&
            m.next[w.level][Node(w.key)] == m.next[w.level][w.prev[w.level]]))
  }

  ghost predicate Inv(m: Memory, lists: seq<seq<Key>>, w: Writer) {
    Shape(m, lists) && WriterOk(m, lists, w)
  }

  /** Insert has searched its predecessors and stores the height of the list. */
  ghost predicate Start(m: Memory, lists: seq<seq<Key>>, w: Writer, m': Memory, lists': seq<seq<Key>>, w': Writer) {
    && Shape(m, lists) && w.Idle? && w'.Linking? && w'.level == 0 && !w'.prepared
    && 1 <= w'.height <= MAX_HEIGHT && |w'.prev| == w'.height && w'.key !in lists[0]
    && (forall l :: 0 <= l < w'.height ==> IsPrev(lists[l], w'.prev[l], w'.key))
    && m' == m.(maxHeight := if w'.height > m.maxHeight then w'.height else m.maxHeight) && lists' == lists
  }

  ghost predicate Prepare(m: Memory, lists: seq<seq<Key>>, w: Writer, m': Memory, lists': seq<seq<Key>>, w': Writer) {
    && w.Linking? && !w.prepared && w.level < |m.next| && w.level < |w.prev| && w.prev[w.level] in m.next[w.level]
    && m' == SetNext(m, w.level, Node(w.key), m.next[w.level][w.prev[w.level]])
    && lists' == lists && w' == w.(prepared := true)
  }

  ghost predicate Publish(m: Memory, lists: seq<seq<Key>>, w: Writer, m': Memory, lists': seq<seq<Key>>, w': Writer) {
    && w.Linking? && w.prepared && w.level < |m.next| && w.level < |w.prev| && w.level < |lists|
    && m' == SetNext(m, w.level, w.prev[w.level], Some(w.key))
    && (exists p :: Belongs(lists[w.level], w.key, p) && lists' == lists[w.level := Inserted(lists[w.level], w.key, p)])
    && w' == if w.level + 1 == w.height then Idle else w.(level := w.level + 1, prepared := false)
  }

  ghost predicate Store(m: Memory, lists: seq<seq<Key>>, w: Writer, m': Memory, lists': seq<seq<Key>>, w': Writer) {
    Start(m, lists, w, m', lists', w') || Prepare(m, lists, w, m', lists', w') || Publish(m, lists, w, m', lists', w')
  }

  lemma InsertedMembers(list: seq<Key>, key: Key, p: nat)
    requires p <= |list|
    ensures forall k :: k in Inserted(list, key, p) <==> k in list || k == key
  {
    forall k | k in list ensures k in Inserted(list, key, p) {
      var i :| 0 <= i < |list| && list[i] == k;
      assert Inserted(list, key, p)[if i < p then i else i + 1] == k;
    }
    assert Inserted(list, key, p)[p] == key;
  }

  lemma BelowIsBefore(list: seq<Key>, key: Key, p: nat, i: nat)
    requires Belongs(list, key, p)
    ensures i < |list| ==> (list[i] < key <==> i < p)
  {
  }

  /** Where a key belongs is unique. */
  lemma BelongsOnce(list: seq<Key>, key: Key, p: nat, q: nat)
    requires Belongs(list, key, p) && Belongs(list, key, q)
    ensures p == q
  {
    BelowIsBefore(list, key, p, q);
    BelowIsBefore(list, key, q, p);
  }

  lemma PrepareKeeps(m: Memory, lists: seq<seq<Key>>, w: Writer, m': Memory, lists': seq<seq<Key>>, w': Writer)
    requires Inv(m, lists, w) && Prepare(m, lists, w, m', lists', w')
    ensures Inv(m', lists', w')
  {
    ChainIgnores(m.next[w.level], lists[w.level], w.key, m.next[w.level][w.prev[w.level]]);
    PrevIsNotNew(lists[w.level], w.prev[w.level], w.key);
  }

  lemma PrevIsNotNew(list: seq<Key>, prev: Link, key: Key)
    requires IsPrev(list, prev, key)
    ensures prev != Node(key)
  {
  }

  lemma PublishKeeps(m: Memory, lists: seq<seq<Key>>, w: Writer, m': Memory, lists': seq<seq<Key>>, w': Writer)
    requires Inv(m, lists, w) && Publish(m, lists, w, m', lists', w')
    ensures Inv(m', lists', w')
  {
    var l := w.level;
    var p :| Belongs(lists[l], w.key, p) && lists' == lists[l := Inserted(lists[l], w.key, p)];
    var q :| Belongs(lists[l], w.key, q) && w.prev[l] == LinkAt(lists[l], q);
    BelongsOnce(lists[l], w.key, p, q);
    assert LinkAt(lists[l], p) in m.next[l];
    ChainInsert(m.next[l], lists[l], w.key, p);
    InsertedMembers(lists[l], w.key, p);
    forall i, j, k | 0 <= i < j < MAX_HEIGHT && k in lists'[j] ensures k in lists'[i] {
      assert k == w.key || k in lists[j];
    }
  }

  /** After every single store of Insert each level is sorted and a sublist of the level below,
      and no key is ever lost. */
  lemma StoreKeeps(m: Memory, lists: seq<seq<Key>>, w: Writer, m': Memory, lists': seq<seq<Key>>, w': Writer)
    requires Inv(m, lists, w) && Store(m, lists, w, m', lists', w')
    ensures Inv(m', lists', w')
    ensures Grows(lists, lists')
  {
    if Start(m, lists, w, m', lists', w') {
      StartKeeps(m, lists, w, m', lists', w');
    } else if Prepare(m, lists, w, m', lists', w') {
      PrepareKeeps(m, lists, w, m', lists', w');
    } else {
      PublishKeeps(m, lists, w, m', lists', w');
      var p :| Belongs(lists[w.level], w.key, p) && lists' == lists[w.level := Inserted(lists[w.level], w.key, p)];
      InsertedMembers(lists[w.level], w.key, p);
    }
  }

  lemma InBottom(m: Memory, lists: seq<seq<Key>>, l: nat, key: Key)
    requires Shape(m, lists) && l < MAX_HEIGHT
    ensures key in lists[l] ==> key in lists[0]
  {
    if l > 0 { assert key in lists[l] ==> key in lists[0]; }
  }

  lemma StartKeeps(m: Memory, lists: seq<seq<Key>>, w: Writer, m': Memory, lists': seq<seq<Key>>, w': Writer)
    requires Inv(m, lists, w) && Start(m, lists, w, m', lists', w')
    ensures Inv(m', lists', w')
  {
    forall l | 0 <= l < MAX_HEIGHT ensures w'.key !in lists[l] {
      InBottom(m, lists, l, w'.key);
    }
  }

  ghost predicate Grows(lists: seq<seq<Key>>, lists': seq<seq<Key>>) {
    |lists| == |lists'| && forall l, k :: 0 <= l < |lists| && k in lists[l] ==> k in lists'[l]
  }

  /** A reader in FindGreaterOrEqual between two loads. */
  datatype Reader = Searching(target: Key, at: Link, level: nat) | Found(target: Key, result: Option<Key>)

  predicate KeyIsAfterNode(key: Key, n: Option<Key>) {
    n.Some? && n.value < key
  }

  /** The reader stands before its target, on a node already linked on its level. */
  ghost predicate ReaderOk(m: Memory, lists: seq<seq<Key>>, r: Reader)
    requires Shape(m, lists)
  {
    r.Searching? ==> r.level < MAX_HEIGHT && (r.at.Node? ==> r.at.key < r.target && r.at.key in lists[r.level])
  }

  /** A reader may begin with any height the list has had: stale values are allowed. */
  ghost predicate Begin(m: Memory, r: Reader) {
    r.Searching? && r.at == Head && r.level < m.maxHeight
  }

  /** One load of a next pointer. */
  ghost predicate Load(m: Memory, r: Reader, r': Reader) {
    && r.Searching? && r.level < |m.next| && r.at in m.next[r.level]
    && var next := m.next[r.level][r.at];
      r' == if KeyIsAfterNode(r.target, next) then Searching(r.target, Node(next.value), r.level)
            else if r.level == 0 then Found(r.target, next)
            else Searching(r.target, r.at, r.level - 1)
  }

  ghost predicate LeastAtOrAfter(list: seq<Key>, target: Key, result: Option<Key>) {
    match result
    case None => forall k :: k in list ==> k < target
    case Some(x) => x in list && target <= x && forall k :: k in list && target <= k ==> x <= k
  }

  /** The link a reader stands on has a place in the chain of its level. */
  lemma PlaceOf(m: Memory, lists: seq<seq<Key>>, r: Reader) returns (i: nat)
    requires Shape(m, lists) && ReaderOk(m, lists, r) && r.Searching?
    ensures i <= |lists[r.level]| && LinkAt(lists[r.level], i) == r.at && r.at in m.next[r.level]
      && m.next[r.level][r.at] == KeyAt(lists[r.level], i)
  {
    var list := lists[r.level];
    assert Chain(m.next[r.level], list);
    if r.at.Head? {
      i := 0;
    } else {
      var j :| 0 <= j < |list| && list[j] == r.at.key;
      i := j + 1;
    }
    assert LinkAt(list, i) in m.next[r.level];
  }

  lemma LoadKeeps(m: Memory, lists: seq<seq<Key>>, r: Reader, r': Reader)
    requires Shape(m, lists) && ReaderOk(m, lists, r) && Load(m, r, r')
    ensures ReaderOk(m, lists, r')
    ensures r'.Found? ==> LeastAtOrAfter(lists[0], r.target, r'.result)
  {
    var i := PlaceOf(m, lists, r);
    var list := lists[r.level];
    if r'.Found? {
      forall k | k in list
        ensures if i < |list| && r.target <= k then list[i] <= k else (i == |list| ==> k < r.target)
      {
        var j :| 0 <= j < |list| && list[j] == k;
        if i > 0 && j < i { assert list[j] <= list[i - 1]; }
      }
    }
  }

  /** A reader can always go on: what it stands on has a pointer on its level. */
  lemma LoadEnabled(m: Memory, lists: seq<seq<Key>>, r: Reader)
    requires Shape(m, lists) && ReaderOk(m, lists, r) && r.Searching?
    ensures exists r' :: Load(m, r, r')
  {
    var _ := PlaceOf(m, lists, r);
    var next := m.next[r.level][r.at];
    assert Load(m, r, if KeyIsAfterNode(r.target, next) then Searching(r.target, Node(next.value), r.level)
                      else if r.level == 0 then Found(r.target, next) else Searching(r.target, r.at, r.level - 1));
  }

  datatype System = System(m: Memory, lists: seq<seq<Key>>, w: Writer, r: Reader)

  ghost predicate SystemOk(s: System) {
    Inv(s.m, s.lists, s.w) && ReaderOk(s.m, s.lists, s.r)
  }

  /** A store of the writer or a load of the reader. */
  ghost predicate Step(s: System, t: System) {
    || (Store(s.m, s.lists, s.w, t.m, t.lists, t.w) && t.r == s.r)
    || (Load(s.m, s.r, t.r) && t.m == s.m && t.lists == s.lists && t.w == s.w)
  }

  ghost predicate Run(run: seq<System>) {
    run != [] && forall i :: 0 <= i < |run| - 1 ==> Step(run[i], run[i + 1])
  }

  lemma StepKeeps(s: System, t: System)
    requires SystemOk(s) && Step(s, t)
    ensures SystemOk(t) && Grows(s.lists, t.lists) && t.r.target == s.r.target
  {
    if Store(s.m, s.lists, s.w, t.m, t.lists, t.w) && t.r == s.r {
      StoreKeeps(s.m, s.lists, s.w, t.m, t.lists, t.w);
    } else {
      LoadKeeps(s.m, s.lists, s.r, t.r);
    }
  }

  lemma {:induction false} RunKeeps(run: seq<System>, n: nat)
    requires Run(run) && SystemOk(run[0]) && n < |run|
    ensures SystemOk(run[n]) && Grows(run[0].lists, run[n].lists) && run[n].r.target == run[0].r.target
  {
    if n > 0 {
      RunKeeps(run, n - 1);
      assert Step(run[n - 1], run[n]);
      StepKeeps(run[n - 1], run[n]);
      assert forall l, k :: 0 <= l < MAX_HEIGHT && k in run[0].lists[l] ==> k in run[n - 1].lists[l];
    }
  }

  /** Whatever stores are interleaved with its loads, a reader that ends with load `n` returns the
      least key at or after its target of the bottom level at that load; so it never misses a key
      that was in the list when it began. */
  lemma ReaderFindsLeast(run: seq<System>, n: nat)
    requires Run(run) && Inv(run[0].m, run[0].lists, run[0].w) && Begin(run[0].m, run[0].r)
    requires n + 1 < |run| && run[n].r.Searching? && run[n + 1].r.Found?
    ensures SystemOk(run[n]) && LeastAtOrAfter(run[n].lists[0], run[0].r.target, run[n + 1].r.result)
    ensures forall k :: k in run[0].lists[0] && run[0].r.target <= k ==>
      run[n + 1].r.result.Some? && run[n + 1].r.result.value <= k
  {
    RunKeeps(run, n);
    assert Step(run[n], run[n + 1]);
    LoadKeeps(run[n].m, run[n].lists, run[n].r, run[n + 1].r);
    forall k | k in run[0].lists[0] && run[0].r.target <= k ensures k in run[n].lists[0] {
      assert Grows(run[0].lists, run[n].lists);
    }
  }

  /** The node before index `i` of its level, and the search going on from it. */
  ghost predicate Stands(m: Memory, lists: seq<seq<Key>>, level: nat, x: Link, i: nat)
    requires Shape(m, lists)
  {
    level < MAX_HEIGHT && i <= |lists[level]| && x == LinkAt(lists[level], i)
  }

  lemma NextOf(m: Memory, lists: seq<seq<Key>>, level: nat, x: Link, i: nat)
    requires Shape(m, lists) && Stands(m, lists, level, x, i)
    ensures x in m.next[level] && m.next[level][x] == KeyAt(lists[level], i)
  {
    assert Chain(m.next[level], lists[level]);
  }

  /** A node of a level is a node of the level below, further along if anything. */
  lemma Down(m: Memory, lists: seq<seq<Key>>, level: nat, x: Link, i: nat) returns (j: nat)
    requires Shape(m, lists) && 0 < level && Stands(m, lists, level, x, i)
    ensures Stands(m, lists, level - 1, x, j)
  {
    j := 0;
    if x.Node? {
      assert x.key in lists[level];
      var q :| 0 <= q < |lists[level - 1]| && lists[level - 1][q] == x.key;
      j := q + 1;
    }
  }

  class SkipList {
    var m: Memory
    ghost var lists: seq<seq<Key>>

    ghost predicate Ok()
      reads this
    {
      Shape(m, lists)
    }

    constructor ()
      ensures Ok() && lists[0] == []
    {
      var row: Row := map[Head := None];
      m := Memory(seq(MAX_HEIGHT, _ => row), 1);
      lists := seq(MAX_HEIGHT, _ => []);
    }

    /** The least node at or after `key`, and on every level in use the last node before it. */
    method FindGreaterOrEqual(key: Key) returns (r: Option<Key>, prev: seq<Link>)
      requires Ok()
      ensures LeastAtOrAfter(lists[0], key, r)
      ensures |prev| == MAX_HEIGHT && forall l :: 0 <= l < m.maxHeight && key !in lists[l] ==>
        IsPrev(lists[l], prev[l], key)
    {
      prev := seq(MAX_HEIGHT, _ => Head);
      var x, level := Head, m.maxHeight - 1;
      ghost var i: nat := 0;
      while true
        invariant 0 <= level < m.maxHeight && |prev| == MAX_HEIGHT
        invariant Stands(m, lists, level, x, i) && (x.Node? ==> x.key < key)
        invariant forall l :: level < l < m.maxHeight && key !in lists[l] ==> IsPrev(lists[l], prev[l], key)
        decreases level, |lists[level]| - i
      {
        NextOf(m, lists, level, x, i);
        var next := m.next[level][x];
        if KeyIsAfterNode(key, next) {
          x := Node(next.value);
          i := i + 1;
        } else {
          prev := prev[level := x];
          if key !in lists[level] { BelongsHere(lists[level], key, i); }
          if level == 0 {
            LeastHere(lists[0], key, i);
            return next, prev;
          }
          i := Down(m, lists, level, x, i);
          level := level - 1;
        }
      }
    }

    /** The last node before `key`, the head if there is none. */
    method FindLessThan(key: Key) returns (x: Link)
      requires Ok()
      ensures x.Head? ==> forall k :: k in lists[0] ==> key <= k
      ensures x.Node? ==> x.key in lists[0] && x.key < key && forall k :: k in lists[0] && k < key ==> k <= x.key
    {
      x := Head;
      var level := m.maxHeight - 1;
      ghost var i: nat := 0;
      while true
        invariant 0 <= level < m.maxHeight && Stands(m, lists, level, x, i) && (x.Node? ==> x.key < key)
        decreases level, |lists[level]| - i
      {
        NextOf(m, lists, level, x, i);
        var next := m.next[level][x];
        if next.None? || next.value >= key {
          if level == 0 {
            GreatestHere(lists[0], key, i);
            return;
          }
          i := Down(m, lists, level, x, i);
          level := level - 1;
        } else {
          x := Node(next.value);
          i := i + 1;
        }
      }
    }

    /** The last node, the head if there is none. */
    method FindLast() returns (x: Link)
      requires Ok()
      ensures x == LinkAt(lists[0], |lists[0]|)
    {
      x := Head;
      var level := m.maxHeight - 1;
      ghost var i: nat := 0;
      while true
        invariant 0 <= level < m.maxHeight && Stands(m, lists, level, x, i)
        decreases level, |lists[level]| - i
      {
        NextOf(m, lists, level, x, i);
        var next := m.next[level][x];
        if next.None? {
          if level == 0 { return; }
          i := Down(m, lists, level, x, i);
          level := level - 1;
        } else {
          x := Node(next.value);
          i := i + 1;
        }
      }
    }

    method Contains(key: Key) returns (r: bool)
      requires Ok()
      ensures r <==> key in lists[0]
    {
      var x, _ := FindGreaterOrEqual(key);
      r := x.Some? && x.value == key;
    }

    /** Insert is a sequence of the writer's stores: after each of them Inv holds, so readers may
        run in between. */
    method Insert(key: Key, height: nat)
      requires Ok() && key !in lists[0] && 1 <= height <= MAX_HEIGHT
      modifies this
      ensures Ok() && forall k :: k in lists[0] <==> k in old(lists[0]) || k == key
      ensures forall l, k :: 0 <= l < MAX_HEIGHT ==> (k in lists[l] <==> k in old(lists[l]) || (k == key && l < height))
    {
      var _, found := FindGreaterOrEqual(key);
      var prev := found[..height];
      for i := m.maxHeight to if height > m.maxHeight then height else m.maxHeight
        invariant |prev| == height && forall l :: 0 <= l < height ==>
          prev[l] == if m.maxHeight <= l < i then Head else found[l]
      {
        prev := prev[i := Head];
      }
      ghost var w := Linking(key, height, prev, 0, false);
      forall l | 0 <= l < height ensures IsPrev(lists[l], prev[l], key) {
        InBottom(m, lists, l, key);
        if l >= m.maxHeight { assert Belongs(lists[l], key, 0); }
      }
      ghost var m0 := m;
      if height > m.maxHeight {
        m := m.(maxHeight := height);
      }
      StartKeeps(m0, lists, Idle, m, lists, w);
      ghost var before := lists;
      for level := 0 to height
        invariant |prev| == height && Inv(m, lists, w)
        invariant w == if level < height then Linking(key, height, prev, level, false) else Idle
        invariant forall l, k :: 0 <= l < MAX_HEIGHT ==> (k in lists[l] <==> k in before[l] || (k == key && l < level))
      {
        w := StoreTwice(key, level, prev[level], w);
      }
    }

    /** The two stores of one level: the new node's own pointer, then the pointer to it. */
    method StoreTwice(key: Key, level: nat, prev: Link, ghost w: Writer) returns (ghost w': Writer)
      requires Inv(m, lists, w) && w.Linking? && !w.prepared && key == w.key && level == w.level
        && prev == w.prev[level]
      modifies this
      ensures Inv(m, lists, w') && |old(lists)| == MAX_HEIGHT
      ensures w' == if w.level + 1 == w.height then Idle else w.(level := w.level + 1)
      ensures forall l, k :: 0 <= l < MAX_HEIGHT ==>
        (k in lists[l] <==> k in old(lists[l]) || (k == w.key && l == w.level))
    {
      ghost var p :| Belongs(lists[level], key, p) && prev == LinkAt(lists[level], p);
      assert Chain(m.next[level], lists[level]) && prev in m.next[level];
      ghost var m0, prepared := m, w.(prepared := true);
      m := SetNext(m, level, Node(key), m.next[level][prev]);
      PrepareKeeps(m0, lists, w, m, lists, prepared);
      ghost var m1, lists1 := m, lists;
      m := SetNext(m, level, prev, Some(key));
      lists := lists[level := Inserted(lists[level], key, p)];
      w' := if level + 1 == w.height then Idle else w.(level := level + 1);
      PublishKeeps(m1, lists1, prepared, m, lists, w');
      InsertedMembers(lists1[level], key, p);
    }
  }

  lemma BelongsHere(list: seq<Key>, key: Key, i: nat)
    requires Ascends(list) && key !in list && i <= |list| && (i > 0 ==> list[i - 1] < key)
      && (i < |list| ==> key <= list[i])
    ensures IsPrev(list, LinkAt(list, i), key)
  {
    assert i < |list| ==> list[i] in list;
    assert Belongs(list, key, i);
  }

  lemma LeastHere(list: seq<Key>, key: Key, i: nat)
    requires Ascends(list) && i <= |list| && (i > 0 ==> list[i - 1] < key) && (i < |list| ==> key <= list[i])
    ensures LeastAtOrAfter(list, key, KeyAt(list, i))
  {
  }

  lemma GreatestHere(list: seq<Key>, key: Key, i: nat)
    requires Ascends(list) && i <= |list| && (i > 0 ==> list[i - 1] < key) && (i < |list| ==> key <= list[i])
    ensures forall k :: k in list && k < key ==> i > 0 && k <= list[i - 1]
  {
  }
}
