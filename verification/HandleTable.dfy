/** The cache's own hash table (util/cache.cc): an array of chains that doubles when it fills up.
    It behaves as a map. */
module HandleTables {
  import opened InternalKeys
  import opened ReadSpec
  import opened Coding

  /** What an entry is found by. */
  datatype Name = Name(key: Bytes, hash: Uint32)

  /** An entry of a chain; the handle is known by a number. */
  datatype Slot = Slot(name: Name, handle: nat)

  predicate PowerOfTwo(n: nat) {
    n == 1 || (n > 1 && n % 2 == 0 && PowerOfTwo(n / 2))
  }

  lemma TwiceIsPower(n: nat)
    requires PowerOfTwo(n)
    ensures PowerOfTwo(n * 2)
  {
    assert n * 2 / 2 == n;
  }

  /** hash & (length - 1), for a power of two. */
  function Bucket(hash: Uint32, length: nat): nat
    requires length > 0
    ensures Bucket(hash, length) < length
  {
    hash % length
  }

  /** Every slot is in the chain of its hash, once. */
  ghost predicate Chained(list: seq<seq<Slot>>) {
    && |list| > 0
    && (forall b, i :: 0 <= b < |list| && 0 <= i < |list[b]| ==> Bucket(list[b][i].name.hash, |list|) == b)
    && (forall b, i, j :: 0 <= b < |list| && 0 <= i < j < |list[b]| ==> list[b][i].name != list[b][j].name)
  }

  ghost predicate In(list: seq<seq<Slot>>, s: Slot) {
    exists b :: 0 <= b < |list| && s in list[b]
  }

  /** The chains hold exactly the map's pairs. */
  ghost predicate Refines(list: seq<seq<Slot>>, contents: map<Name, nat>) {
    && (forall s :: In(list, s) ==> s.name in contents && contents[s.name] == s.handle)
    && (forall n :: n in contents ==> In(list, Slot(n, contents[n])))
  }

  lemma InBucket(list: seq<seq<Slot>>, contents: map<Name, nat>, n: Name)
    requires Chained(list) && Refines(list, contents)
    ensures n in contents <==>
      exists i :: 0 <= i < |list[Bucket(n.hash, |list|)]| && list[Bucket(n.hash, |list|)][i].name == n
    ensures forall i :: 0 <= i < |list[Bucket(n.hash, |list|)]| && list[Bucket(n.hash, |list|)][i].name == n ==>
      n in contents && contents[n] == list[Bucket(n.hash, |list|)][i].handle
  {
    var bucket := list[Bucket(n.hash, |list|)];
    if n in contents {
      var s := Slot(n, contents[n]);
      var b :| 0 <= b < |list| && s in list[b];
      var i :| 0 <= i < |list[b]| && list[b][i] == s;
      assert bucket[i].name == n;
    }
    forall i | 0 <= i < |bucket| && bucket[i].name == n ensures In(list, bucket[i]) {
      assert bucket[i] in bucket;
    }
  }

  class HandleTable {
    var length: nat
    var elems: nat
    var list: seq<seq<Slot>>
    ghost var contents: map<Name, nat>

    ghost predicate Ok()
      reads this
    {
      && length == |list| && PowerOfTwo(length) && length >= 4 && elems <= length
      && Chained(list) && Refines(list, contents) && elems == |contents|
    }

    constructor ()
      ensures Ok() && contents == map[]
    {
      length, elems, list, contents := 4, 0, seq(4, _ => []), map[];
    }

    /** The place of the entry in its chain, or the end of the chain. */
    method FindPointer(name: Name) returns (bucket: nat, i: nat)
      requires length == |list| && Chained(list) && Refines(list, contents)
      ensures bucket == Bucket(name.hash, |list|) && i <= |list[bucket]|
      ensures name in contents ==> i < |list[bucket]| && list[bucket][i] == Slot(name, contents[name])
      ensures name !in contents ==> i == |list[bucket]|
    {
      bucket, i := Bucket(name.hash, length), 0;
      while i < |list[bucket]| && list[bucket][i].name != name
        invariant i <= |list[bucket]| && forall j :: 0 <= j < i ==> list[bucket][j].name != name
      {
        i := i + 1;
      }
      InBucket(list, contents, name);
    }

    method Lookup(name: Name) returns (r: Option<nat>)
      requires Ok()
      ensures r == if name in contents then Some(contents[name]) else None
    {
      var bucket, i := FindPointer(name);
      r := if i < |list[bucket]| then Some(list[bucket][i].handle) else None;
    }

    /** Puts the handle in, in the place of the one of the same name if there is one, which is returned. */
    method Insert(name: Name, handle: nat) returns (previous: Option<nat>)
      requires Ok()
      modifies this
      ensures Ok() && contents == old(contents)[name := handle]
      ensures previous == if name in old(contents) then Some(old(contents)[name]) else None
      ensures if |contents| <= old(length) then length == old(length) else length == 4 || length < 2 * |contents|
    {
      var bucket, i := FindPointer(name);
      previous := if i < |list[bucket]| then Some(list[bucket][i].handle) else None;
      ghost var before, was := list, contents;
      var chain := list[bucket];
      var put := if previous.Some? then chain[i := Slot(name, handle)] else chain + [Slot(name, handle)];
      list := list[bucket := put];
      contents := contents[name := handle];
      PutKeeps(before, was, bucket, i, Slot(name, handle), put, list, contents);
      if previous.None? {
        elems := elems + 1;
        if elems > length {
          Resize();
        }
      } else {
        assert contents.Keys == was.Keys;
        assert |contents| == |contents.Keys| && |was| == |was.Keys|;
      }
    }

    method Remove(name: Name) returns (result: Option<nat>)
      requires Ok()
      modifies this
      ensures Ok() && contents == old(contents) - {name}
      ensures result == if name in old(contents) then Some(old(contents)[name]) else None
    {
      var bucket, i := FindPointer(name);
      result := None;
      ghost var was := contents;
      if i < |list[bucket]| {
        result := Some(list[bucket][i].handle);
        ghost var before := list;
        var chain := list[bucket];
        list := list[bucket := chain[..i] + chain[i + 1..]];
        contents := contents - {name};
        CutKeeps(before, was, bucket, i, list, contents);
        assert was.Keys == contents.Keys + {name};
        assert |contents| == |contents.Keys| && |was| == |was.Keys|;
        elems := elems - 1;
      } else {
        assert contents - {name} == contents;
      }
    }

    /** Moves every entry to a new array of at least `elems` chains; the map does not change. */
    method Resize()
      requires length == |list| && Chained(list) && Refines(list, contents) && elems == |contents|
      modifies this`list, this`length
      ensures Ok() && contents == old(contents) && elems == old(elems) && (length == 4 || length < 2 * elems)
    {
      var newLength := NewLength();
      var newList: seq<seq<Slot>> := seq(newLength, _ => []);
      for b := 0 to length
        invariant list == old(list) && length == old(length)
        invariant |newList| == newLength && Chained(newList) && Moved(list, newList, b, 0)
      {
        newList := MoveChain(newList, b);
      }
      MovedAll(list, newList, contents);
      list := newList;
      length := newLength;
    }

    method NewLength() returns (n: nat)
      ensures PowerOfTwo(n) && n >= 4 && n >= elems && (n == 4 || n < 2 * elems)
    {
      n := 4;
      while n < elems
        invariant PowerOfTwo(n) && n >= 4 && (n == 4 || n < 2 * elems)
        decreases elems - n
      {
        TwiceIsPower(n);
        n := n * 2;
      }
    }

    method MoveChain(before: seq<seq<Slot>>, b: nat) returns (newList: seq<seq<Slot>>)
      requires length == |list| && Chained(list) && b < |list| && Chained(before) && Moved(list, before, b, 0)
      ensures |newList| == |before| && Chained(newList) && Moved(list, newList, b + 1, 0)
    {
      newList := before;
      var i := 0;
      while i < |list[b]|
        invariant i <= |list[b]| && |newList| == |before| && Chained(newList) && Moved(list, newList, b, i)
      {
        var h := list[b][i];
        var target := Bucket(h.name.hash, |newList|);
        MoveKeeps(list, newList, b, i, target);
        newList := newList[target := [h] + newList[target]];
        i := i + 1;
      }
      MovedChain(list, newList, b);
    }
  }

  /** Exactly the slots before place (b, i) have been moved. */
  ghost predicate Before(list: seq<seq<Slot>>, b: nat, i: nat, s: Slot) {
    exists c, j :: 0 <= c < |list| && 0 <= j < |list[c]| && list[c][j] == s && (c < b || (c == b && j < i))
  }

  ghost predicate Moved(list: seq<seq<Slot>>, newList: seq<seq<Slot>>, b: nat, i: nat) {
    forall s :: In(newList, s) <==> Before(list, b, i, s)
  }

  /** A name occurs at one place only. */
  lemma OnePlace(list: seq<seq<Slot>>, b: int, i: int, c: int, j: int)
    requires Chained(list) && 0 <= b < |list| && 0 <= i < |list[b]| && 0 <= c < |list| && 0 <= j < |list[c]|
      && list[b][i].name == list[c][j].name
    ensures b == c && i == j
  {
    assert b == Bucket(list[b][i].name.hash, |list|) == c;
  }

  lemma PutKeeps(list: seq<seq<Slot>>, contents: map<Name, nat>, b: nat, i: nat, s: Slot, put: seq<Slot>,
                 list': seq<seq<Slot>>, contents': map<Name, nat>)
    requires Chained(list) && Refines(list, contents) && b == Bucket(s.name.hash, |list|) && i <= |list[b]|
    requires if s.name in contents then i < |list[b]| && list[b][i].name == s.name
      && put == list[b][i := s] else put == list[b] + [s]
    requires list' == list[b := put] && contents' == contents[s.name := s.handle]
    ensures Chained(list') && Refines(list', contents')
  {
    InBucket(list, contents, s.name);
    assert s in put by { assert put[if s.name in contents then i else |list[b]|] == s; }
    assert s in list'[b];
    forall t | In(list', t) ensures t.name in contents' && contents'[t.name] == t.handle {
      var c: nat :| c < |list'| && t in list'[c];
      if t != s {
        assert t in list[c] by {
          if c == b { var j :| 0 <= j < |put| && put[j] == t; assert list[b][j] == t; }
        }
        assert In(list, t);
        var j: nat :| j < |list[c]| && list[c][j] == t;
        if t.name == s.name {
          OnePlace(list, c, j, b, i);
        }
      }
    }
    forall n | n in contents' ensures In(list', Slot(n, contents'[n])) {
      if n != s.name {
        var t := Slot(n, contents[n]);
        var c :| 0 <= c < |list| && t in list[c];
        if c == b { var j :| 0 <= j < |list[b]| && list[b][j] == t; assert put[j] == t; }
        assert t in list'[c];
      }
    }
  }

  /** `i` is cut out of chain `b`. */
  predicate IsCut(list: seq<seq<Slot>>, b: nat, i: nat, list': seq<seq<Slot>>) {
    b < |list| && i < |list[b]| && list' == list[b := list[b][..i] + list[b][i + 1..]]
  }

  lemma CutWas(list: seq<seq<Slot>>, b: nat, i: nat, list': seq<seq<Slot>>, c: nat, j: nat)
    requires IsCut(list, b, i, list') && c < |list'| && j < |list'[c]|
    ensures var k := if c == b && j >= i then j + 1 else j;
      k < |list[c]| && list[c][k] == list'[c][j] && list[c][k] in list[c]
  {
  }

  lemma CutLeaves(list: seq<seq<Slot>>, b: nat, i: nat, list': seq<seq<Slot>>, t: Slot)
    requires IsCut(list, b, i, list') && In(list, t) && t != list[b][i]
    ensures In(list', t)
  {
    var c :| 0 <= c < |list| && t in list[c];
    if c == b {
      var j :| 0 <= j < |list[b]| && list[b][j] == t;
      assert list'[b][if j < i then j else j - 1] == t;
    }
    assert t in list'[c];
  }

  lemma CutKeepsChains(list: seq<seq<Slot>>, b: nat, i: nat, list': seq<seq<Slot>>)
    requires Chained(list) && IsCut(list, b, i, list')
    ensures Chained(list')
  {
    assert forall j :: 0 <= j < |list'[b]| ==> list'[b][j] == list[b][if j < i then j else j + 1];
  }

  lemma CutKeeps(list: seq<seq<Slot>>, contents: map<Name, nat>, b: nat, i: nat, list': seq<seq<Slot>>,
                 contents': map<Name, nat>)
    requires Chained(list) && Refines(list, contents) && IsCut(list, b, i, list')
    requires contents' == contents - {list[b][i].name}
    ensures Chained(list') && Refines(list', contents')
  {
    CutKeepsChains(list, b, i, list');
    forall t | In(list', t) ensures t.name in contents' && contents'[t.name] == t.handle {
      var c: nat :| c < |list'| && t in list'[c];
      var j: nat :| j < |list'[c]| && list'[c][j] == t;
      CutWas(list, b, i, list', c, j);
      if t.name == list[b][i].name { OnePlace(list, c, if c == b && j >= i then j + 1 else j, b, i); }
    }
    forall n | n in contents' ensures In(list', Slot(n, contents'[n])) {
      CutLeaves(list, b, i, list', Slot(n, contents[n]));
    }
  }

  lemma MoveKeeps(list: seq<seq<Slot>>, newList: seq<seq<Slot>>, b: nat, i: nat, target: nat)
    requires Chained(list) && b < |list| && i < |list[b]| && Chained(newList) && Moved(list, newList, b, i)
    requires target == Bucket(list[b][i].name.hash, |newList|)
    ensures var to := newList[target := [list[b][i]] + newList[target]]; Chained(to) && Moved(list, to, b, i + 1)
  {
    var h := list[b][i];
    var to := newList[target := [h] + newList[target]];
    forall j | 0 <= j < |newList[target]| ensures newList[target][j].name != h.name {
      var s := newList[target][j];
      assert In(newList, s);
      var c: nat, k: nat :| c < |list| && k < |list[c]| && list[c][k] == s && (c < b || (c == b && k < i));
      if s.name == h.name { OnePlace(list, c, k, b, i); }
    }
    forall s ensures In(to, s) <==> Before(list, b, i + 1, s) {
      if In(to, s) {
        var c :| 0 <= c < |to| && s in to[c];
        if s != h { assert s in newList[c]; assert In(newList, s); }
      }
      if Before(list, b, i + 1, s) {
        if s == h {
          assert to[target][0] == h && h in to[target];
        } else {
          assert Before(list, b, i, s);
          var c :| 0 <= c < |newList| && s in newList[c];
          assert s in to[c];
        }
      }
    }
  }

  lemma MovedChain(list: seq<seq<Slot>>, newList: seq<seq<Slot>>, b: nat)
    requires b < |list| && Moved(list, newList, b, |list[b]|)
    ensures Moved(list, newList, b + 1, 0)
  {
    forall s ensures Before(list, b, |list[b]|, s) <==> Before(list, b + 1, 0, s) {
    }
  }

  lemma MovedAll(list: seq<seq<Slot>>, newList: seq<seq<Slot>>, contents: map<Name, nat>)
    requires Moved(list, newList, |list|, 0) && Refines(list, contents)
    ensures Refines(newList, contents)
  {
    forall s ensures In(newList, s) <==> In(list, s) {
      if In(newList, s) {
        var c: nat, k: nat :| c < |list| && k < |list[c]| && list[c][k] == s;
        assert s in list[c];
      }
      if In(list, s) {
        var c :| 0 <= c < |list| && s in list[c];
        var k :| 0 <= k < |list[c]| && list[c][k] == s;
        assert Before(list, |list|, 0, s);
      }
    }
  }
}
