/** One shard of the LRU cache (util/cache.cc).  Its table is the hash table of `HandleTables`; its two
    linked lists are sequences, oldest entry first. */
module LruCaches {
  import opened InternalKeys
  import opened ReadSpec
  import opened Sequences
  import opened HandleTables

  /** An allocated LRUHandle: `refs` counts clients and, if it is cached, the cache itself. */
  datatype Handle = Handle(name: Name, charge: nat, inCache: bool, refs: nat)

  /** The cache seen from outside: also which handles clients hold, how often, and which handles
      have been passed to their deleter, in order. */
  datatype View = View(usage: int, handles: map<nat, Handle>, lru: seq<nat>, inUse: seq<nat>,
                       table: map<Name, nat>, nextId: nat,
                       clients: map<nat, nat>, deleted: seq<nat>)

  /** LRU_Remove */
  function Without(s: seq<nat>, x: nat): (r: seq<nat>)
    ensures |r| == |s| - (if x in s then 1 else 0)
  {
    if s == [] then [] else if s[0] == x then s[1..] else [s[0]] + Without(s[1..], x)
  }

  lemma {:induction false} WithoutMembers(s: seq<nat>, x: nat)
    requires NoDuplicates(s)
    ensures NoDuplicates(Without(s, x)) && forall y :: y in Without(s, x) <==> y in s && y != x
  {
    if s != [] {
      if s[0] == x {
        assert forall y :: y in s <==> y == s[0] || y in s[1..];
        assert x !in s[1..];
      } else {
        WithoutMembers(s[1..], x);
        assert forall y :: y in s <==> y == s[0] || y in s[1..];
        assert s[0] !in s[1..];
      }
    }
  }

  lemma WithoutAbsent(s: seq<nat>, x: nat)
    requires x !in s
    ensures Without(s, x) == s
  {
    if s != [] { WithoutAbsent(s[1..], x); }
  }

  lemma AppendMembers(s: seq<nat>, x: nat)
    requires NoDuplicates(s) && x !in s
    ensures NoDuplicates(s + [x]) && forall y :: y in s + [x] <==> y in s || y == x
  {
  }

  ghost function Charge(handles: map<nat, Handle>, s: seq<nat>): nat
    requires forall id :: id in s ==> id in handles
  {
    if s == [] then 0 else handles[s[0]].charge + Charge(handles, s[1..])
  }

  /** The sum looks at nothing but the charges of the entries in the list. */
  lemma {:induction false} ChargeSame(h: map<nat, Handle>, h': map<nat, Handle>, s: seq<nat>)
    requires forall id :: id in s ==> id in h && id in h' && h[id].charge == h'[id].charge
    ensures Charge(h, s) == Charge(h', s)
  {
    if s != [] { ChargeSame(h, h', s[1..]); }
  }

  lemma {:induction false} ChargeWithout(h: map<nat, Handle>, s: seq<nat>, x: nat)
    requires NoDuplicates(s) && forall id :: id in s ==> id in h
    ensures forall id :: id in Without(s, x) ==> id in h
    ensures Charge(h, Without(s, x)) == Charge(h, s) - (if x in s then h[x].charge else 0)
  {
    WithoutMembers(s, x);
    if s != [] {
      if s[0] == x {
      } else {
        ChargeWithout(h, s[1..], x);
        assert Without(s, x)[1..] == Without(s[1..], x);
      }
    }
  }

  lemma {:induction false} ChargeAppend(h: map<nat, Handle>, s: seq<nat>, x: nat)
    requires x in h && forall id :: id in s ==> id in h
    ensures Charge(h, s + [x]) == Charge(h, s) + h[x].charge
  {
    if s != [] {
      ChargeAppend(h, s[1..], x);
      assert (s + [x])[1..] == s[1..] + [x];
    }
  }

  /** The lists hold exactly the cached entries: the LRU list those only the cache refers to, the
      other those that clients use as well. */
  ghost predicate ListsOk(v: View) {
    && NoDuplicates(v.lru) && NoDuplicates(v.inUse)
    && (forall id :: id in v.lru ==> id in v.handles && v.handles[id].inCache && v.handles[id].refs == 1)
    && (forall id :: id in v.inUse ==> id in v.handles && v.handles[id].inCache && v.handles[id].refs >= 2)
    && (forall id :: id in v.handles && v.handles[id].inCache ==> id in v.lru || id in v.inUse)
  }

  /** refs = clients + (cached ? 1 : 0), but for a reference about to be given up. */
  ghost predicate RefsOk(v: View, leaving: Option<nat>) {
    && v.clients.Keys == v.handles.Keys
    && forall id :: id in v.handles ==>
      v.handles[id].refs > 0 &&
        v.handles[id].refs == v.clients[id] + (if v.handles[id].inCache then 1 else 0)
            + (if leaving == Some(id) then 1 else 0)
  }

  /** usage is what the cached entries are charged. */
  ghost predicate UsageOk(v: View)
    requires ListsOk(v)
  {
    v.usage == Charge(v.handles, v.lru) + Charge(v.handles, v.inUse)
  }

  /** The table finds exactly the cached entries, but for one not in it yet or no more. */
  ghost predicate TableOk(v: View, missing: Option<nat>) {
    && (forall n :: n in v.table ==>
        && v.table[n] in v.handles && v.handles[v.table[n]].name == n && v.handles[v.table[n]].inCache
        && missing != Some(v.table[n]))
    && (forall id :: id in v.handles && v.handles[id].inCache && missing != Some(id) ==>
        v.handles[id].name in v.table && v.table[v.handles[id].name] == id)
  }

  /** Every handle ever allocated either lives or has been deleted, once. */
  ghost predicate LifeOk(v: View) {
    && NoDuplicates(v.deleted)
    && (forall id :: id in v.handles ==> id < v.nextId)
    && (forall id: nat :: id in v.deleted <==> id < v.nextId && id !in v.handles)
  }

  ghost predicate Inv(v: View, leaving: Option<nat>, missing: Option<nat>) {
    ListsOk(v) && RefsOk(v, leaving) && UsageOk(v) && TableOk(v, missing) && LifeOk(v)
  }

  /** Ref, seen from outside. */
  ghost function Referenced(v: View, e: nat): View {
    if e in v.handles && e in v.clients then
      v.(handles := v.handles[e := v.handles[e].(refs := v.handles[e].refs + 1)],
          clients := v.clients[e := v.clients[e] + 1],
         lru := if v.handles[e].inCache && v.handles[e].refs == 1 then Without(v.lru, e) else v.lru,
         inUse := if v.handles[e].inCache && v.handles[e].refs == 1 then v.inUse + [e] else v.inUse)
    else v
  }

  /** Unref: the last reference runs the deleter, the last but the cache's moves to the LRU list. */
  ghost function Dropped(v: View, e: nat): View {
    if e !in v.handles then v
    else
      var refs := v.handles[e].refs - 1;
      if refs <= 0 then v.(handles := v.handles - {e}, clients := v.clients - {e}, deleted := v.deleted + [e])
      else
        var h := v.handles[e := v.handles[e].(refs := refs)];
        if v.handles[e].inCache && refs == 1 then v.(handles := h, inUse := Without(v.inUse, e), lru := v.lru + [e])
            else v.(handles := h)
  }

  ghost function Uncached(v: View, e: nat): View {
    if e !in v.handles then v
    else v.(handles := v.handles[e := v.handles[e].(inCache := false)], usage := v.usage - v.handles[e].charge,
            lru := Without(v.lru, e), inUse := Without(v.inUse, e))
  }

  ghost function Released(v: View, e: nat): View {
    if e in v.clients && v.clients[e] > 0 then Dropped(v.(clients := v.clients[e := v.clients[e] - 1]), e) else v
  }

  ghost function Erased(v: View, name: Name): View {
    if name in v.table then Dropped(Uncached(v.(table := v.table - {name}), v.table[name]), v.table[name]) else v
  }

  ghost function WithNew(v: View, name: Name, charge: nat): View {
    var e := v.nextId;
    v.(nextId := e + 1, clients := v.clients[e := 1], handles := v.handles[e := Handle(name, charge, true, 2)],
        inUse := v.inUse + [e],
       usage := v.usage + charge, table := v.table[name := e])
  }

  ghost function Added(v: View, name: Name, charge: nat, capacity: nat): View {
    if capacity == 0 then
      v.(nextId := v.nextId + 1, clients := v.clients[v.nextId := 1],
          handles := v.handles[v.nextId := Handle(name, charge, false, 1)])
    else if name in v.table then Dropped(Uncached(WithNew(v, name, charge), v.table[name]), v.table[name])
    else WithNew(v, name, charge)
  }

  /** What has happened to a cache. */
  datatype History =
    | Empty
    | Ref(prev: History, e: nat)
    | Release(prev: History, e: nat)
    | Add(prev: History, name: Name, charge: nat)
    | Erase(prev: History, name: Name)

  ghost function ViewOf(h: History, capacity: nat): View {
    match h
    case Empty => View(0, map[], [], [], map[], 0, map[], [])
    case Ref(p, e) => Referenced(ViewOf(p, capacity), e)
    case Release(p, e) => Released(ViewOf(p, capacity), e)
    case Add(p, name, charge) => Added(ViewOf(p, capacity), name, charge, capacity)
    case Erase(p, name) => Erased(ViewOf(p, capacity), name)
  }

  /** References are taken through the table; what is given back was held. */
  ghost predicate Legal(h: History, capacity: nat) {
    match h
    case Empty => true
    case Ref(p, e) => Legal(p, capacity) && var v := ViewOf(p, capacity); e in v.handles && v.handles[e].inCache
    case Release(p, e) => Legal(p, capacity) && var v := ViewOf(p, capacity); e in v.clients && v.clients[e] > 0
    case Add(p, _, _) => Legal(p, capacity)
    case Erase(p, _) => Legal(p, capacity)
  }

  lemma EmptyIsOk(v: View)
    requires v.usage == 0 && v.handles == map[] && v.lru == [] && v.inUse == [] && v.table == map[] && v.nextId == 0
      && v.clients == map[] && v.deleted == []
    ensures Inv(v, None, None)
  {
    assert v.clients.Keys == {} && v.handles.Keys == {};
    assert ListsOk(v) && RefsOk(v, None) && TableOk(v, None) && LifeOk(v);
  }

  lemma RefKeepsLists(v: View, e: nat)
    requires ListsOk(v) && RefsOk(v, None) && UsageOk(v) && e in v.handles && v.handles[e].inCache
    ensures ListsOk(Referenced(v, e)) && UsageOk(Referenced(v, e))
  {
    var w := Referenced(v, e);
    if v.handles[e].refs == 1 {
      assert e !in v.inUse && e in v.lru;
      WithoutMembers(v.lru, e);
      AppendMembers(v.inUse, e);
      ChargeWithout(v.handles, v.lru, e);
      ChargeAppend(v.handles, v.inUse, e);
    }
    ChargeSame(v.handles, w.handles, w.lru);
    ChargeSame(v.handles, w.handles, w.inUse);
  }

  lemma DropKeepsMembers(v: View, e: nat)
    requires ListsOk(v) && RefsOk(v, Some(e)) && e in v.handles
    ensures ListsOk(Dropped(v, e))
  {
    if v.handles[e].refs > 1 && v.handles[e].inCache && v.handles[e].refs == 2 {
      WithoutMembers(v.inUse, e);
      AppendMembers(v.lru, e);
    }
  }

  lemma DropKeepsUsage(v: View, e: nat)
    requires ListsOk(v) && RefsOk(v, Some(e)) && UsageOk(v) && e in v.handles && ListsOk(Dropped(v, e))
    ensures UsageOk(Dropped(v, e))
  {
    var w := Dropped(v, e);
    if v.handles[e].inCache && v.handles[e].refs == 2 {
      ChargeWithout(v.handles, v.inUse, e);
      ChargeAppend(v.handles, v.lru, e);
    }
    ChargeSame(v.handles, w.handles, w.lru);
    ChargeSame(v.handles, w.handles, w.inUse);
  }

  lemma DropKeepsLife(v: View, e: nat)
    requires LifeOk(v) && e in v.handles && v.handles[e].refs > 0
    ensures LifeOk(Dropped(v, e))
  {
    if v.handles[e].refs == 1 { AppendMembers(v.deleted, e); }
  }

  lemma DropKeepsRefs(v: View, e: nat)
    requires RefsOk(v, Some(e)) && e in v.handles
    ensures RefsOk(Dropped(v, e), None)
  {
  }

  lemma DropKeepsTable(v: View, e: nat)
    requires TableOk(v, None) && RefsOk(v, Some(e)) && e in v.handles
    ensures TableOk(Dropped(v, e), None)
  {
  }

  lemma DropKeeps(v: View, e: nat)
    requires Inv(v, Some(e), None) && e in v.handles
    ensures Inv(Dropped(v, e), None, None)
  {
    DropKeepsMembers(v, e);
    DropKeepsUsage(v, e);
    DropKeepsRefs(v, e);
    DropKeepsTable(v, e);
    DropKeepsLife(v, e);
  }

  lemma UncacheKeepsLists(v: View, e: nat)
    requires ListsOk(v) && UsageOk(v) && e in v.handles && v.handles[e].inCache
    ensures ListsOk(Uncached(v, e)) && UsageOk(Uncached(v, e))
  {
    var w := Uncached(v, e);
    WithoutMembers(v.lru, e);
    WithoutMembers(v.inUse, e);
    ChargeWithout(v.handles, v.lru, e);
    ChargeWithout(v.handles, v.inUse, e);
    ChargeSame(v.handles, w.handles, w.lru);
    ChargeSame(v.handles, w.handles, w.inUse);
  }

  /** FinishErase: out of the lists, then the cache's reference goes. */
  lemma FinishKeeps(v: View, e: nat)
    requires Inv(v, None, Some(e)) && e in v.handles && v.handles[e].inCache
    ensures Inv(Dropped(Uncached(v, e), e), None, None)
  {
    UncacheKeepsLists(v, e);
    assert RefsOk(Uncached(v, e), Some(e));
    assert TableOk(Uncached(v, e), None);
    assert LifeOk(Uncached(v, e));
    DropKeeps(Uncached(v, e), e);
  }

  lemma RemoveKeeps(v: View, name: Name)
    requires Inv(v, None, None) && name in v.table
    ensures Inv(v.(table := v.table - {name}), None, Some(v.table[name]))
  {
  }

  lemma AddKeepsLists(v: View, name: Name, charge: nat)
    requires ListsOk(v) && UsageOk(v) && LifeOk(v)
    ensures ListsOk(WithNew(v, name, charge)) && UsageOk(WithNew(v, name, charge))
  {
    var w := WithNew(v, name, charge);
    AppendMembers(v.inUse, v.nextId);
    ChargeSame(v.handles, w.handles, v.lru);
    ChargeSame(v.handles, w.handles, v.inUse);
    ChargeAppend(w.handles, v.inUse, v.nextId);
  }

  lemma AddKeepsRefs(v: View, name: Name, charge: nat)
    requires RefsOk(v, None) && LifeOk(v)
    ensures RefsOk(WithNew(v, name, charge), None)
  {
  }

  lemma AddKeepsLife(v: View, name: Name, charge: nat)
    requires LifeOk(v)
    ensures LifeOk(WithNew(v, name, charge))
  {
  }

  /** The entry a new one takes the name of is cached still, but no more in the table. */
  lemma AddKeepsTable(v: View, name: Name, charge: nat)
    requires TableOk(v, None) && LifeOk(v)
    ensures TableOk(WithNew(v, name, charge), if name in v.table then Some(v.table[name]) else None)
  {
  }

  /** A cache of capacity 0 keeps nothing. */
  lemma DetachedKeeps(v: View, name: Name, charge: nat)
    requires Inv(v, None, None)
    ensures Inv(Added(v, name, charge, 0), None, None)
  {
    var w := Added(v, name, charge, 0);
    DetachedKeepsRest(v, name, charge);
    assert ListsOk(w);
    ChargeSame(v.handles, w.handles, v.lru);
    ChargeSame(v.handles, w.handles, v.inUse);
  }

  lemma DetachedKeepsRest(v: View, name: Name, charge: nat)
    requires RefsOk(v, None) && TableOk(v, None) && LifeOk(v)
    ensures var w := Added(v, name, charge, 0); RefsOk(w, None) && TableOk(w, None) && LifeOk(w)
  {
  }

  lemma AddKeeps(v: View, name: Name, charge: nat, capacity: nat)
    requires Inv(v, None, None)
    ensures Inv(Added(v, name, charge, capacity), None, None)
  {
    if capacity == 0 {
      DetachedKeeps(v, name, charge);
    } else {
      AddKeepsLists(v, name, charge);
      AddKeepsRefs(v, name, charge);
      AddKeepsTable(v, name, charge);
      AddKeepsLife(v, name, charge);
      if name in v.table { FinishKeeps(WithNew(v, name, charge), v.table[name]); }
    }
  }

  /** In every reachable state the table finds the cached entries, references are counted, the two
      lists split the cached entries by use, usage is the sum of their charges, and every handle
      either lives or was deleted once. */
  lemma {:induction false} ReachableInv(h: History, capacity: nat)
    requires Legal(h, capacity)
    ensures Inv(ViewOf(h, capacity), None, None)
  {
    match h {
      case Empty => EmptyIsOk(ViewOf(h, capacity));
      case Ref(p, e) =>
        ReachableInv(p, capacity);
        RefKeeps(ViewOf(p, capacity), e);
      case Release(p, e) =>
        ReachableInv(p, capacity);
        ReleaseKeeps(ViewOf(p, capacity), e);
      case Add(p, name, charge) =>
        ReachableInv(p, capacity);
        AddKeeps(ViewOf(p, capacity), name, charge, capacity);
      case Erase(p, name) =>
        ReachableInv(p, capacity);
        EraseKeeps(ViewOf(p, capacity), name);
    }
  }

  lemma RefKeeps(v: View, e: nat)
    requires Inv(v, None, None) && e in v.handles && v.handles[e].inCache
    ensures Inv(Referenced(v, e), None, None)
  {
    RefKeepsLists(v, e);
  }

  lemma ReleaseKeeps(v: View, e: nat)
    requires Inv(v, None, None) && e in v.clients && v.clients[e] > 0
    ensures Inv(Released(v, e), None, None)
  {
    DropKeeps(v.(clients := v.clients[e := v.clients[e] - 1]), e);
  }

  lemma EraseKeeps(v: View, name: Name)
    requires Inv(v, None, None)
    ensures Inv(Erased(v, name), None, None)
  {
    if name in v.table {
      RemoveKeeps(v, name);
      FinishKeeps(v.(table := v.table - {name}), v.table[name]);
    }
  }

  /** The oldest `k` entries of `order` have been deleted one after the other, each because the charges,
      `usage` before, were still above the capacity. */
  ghost predicate Evicted(v: View, order: seq<nat>, gone: seq<nat>, usage: int, capacity: nat, k: nat, w: View)
    requires forall id :: id in order ==> id in v.handles
  {
    && k <= |order| && w.lru == order[k..] && w.deleted == gone + order[..k]
    && w.usage == usage - Charge(v.handles, order[..k])
    && forall j :: 0 <= j < k ==> usage - Charge(v.handles, order[..j]) > capacity
  }

  /** But for the name, the table finds what it found, less what was evicted. */
  ghost predicate OthersFound(v: View, name: Name, capacity: nat, evicted: seq<nat>, w: View) {
    forall n :: n != name || capacity == 0 ==>
      && (n in w.table <==> n in v.table && v.table[n] !in evicted)
      && (n in w.table && n in v.table ==> w.table[n] == v.table[n])
  }

  /** An insertion on its way: `k` entries have been evicted. */
  ghost predicate Evicting(v: View, name: Name, charge: nat, capacity: nat, k: nat, w: View) {
    && (forall id :: id in v.lru ==> id in v.handles && id < v.nextId)
    && (forall id :: id in LruAfter(v, name, capacity) ==> id in v.lru)
    && Evicted(v, LruAfter(v, name, capacity), DeletedAfter(v, name, capacity),
               UsageAfter(v, name, charge, capacity), capacity, k, w)
    && OthersFound(v, name, capacity, LruAfter(v, name, capacity)[..k], w)
    && HasNew(w, v.nextId, name, charge, capacity) && ClientsKept(v, w) && SameCharges(v, w, v.nextId)
    && w.nextId == v.nextId + 1
  }

  lemma AddedIsEvicting(v: View, name: Name, charge: nat, capacity: nat)
    requires Inv(v, None, None)
    ensures Evicting(v, name, charge, capacity, 0, Added(v, name, charge, capacity))
  {
    AddedFacts(v, name, charge, capacity);
    LruAfterIsPart(v, name, capacity);
    assert LruAfter(v, name, capacity)[..0] == [];
  }

  lemma EvictMore(v: View, name: Name, charge: nat, capacity: nat, k: nat, w: View)
    requires Evicting(v, name, charge, capacity, k, w) && Inv(w, None, None) && w.usage > capacity && w.lru != []
    ensures w.lru[0] in w.handles
    ensures var x := Erased(w, w.handles[w.lru[0]].name);
      Evicting(v, name, charge, capacity, k + 1, x) && |x.lru| < |w.lru|
  {
    var order, gone := LruAfter(v, name, capacity), DeletedAfter(v, name, capacity);
    OldestIsCached(w);
    EvictedLists(w);
    EvictedFinds(v, w, name, capacity, order[..k]);
    EvictedCharges(v, w, v.nextId);
    EvictedFacts(v, w, v.nextId, name, charge, capacity);
    OneMoreEvicted(v, order, gone, UsageAfter(v, name, charge, capacity), capacity, k, w,
                   Erased(w, w.handles[w.lru[0]].name));
  }

  lemma OneMoreEvicted(v: View, order: seq<nat>, gone: seq<nat>, usage: int, capacity: nat, k: nat, w: View, x: View)
    requires forall id :: id in order ==> id in v.handles
    requires Evicted(v, order, gone, usage, capacity, k, w) && w.usage > capacity && w.lru != []
    requires x.lru == w.lru[1..] && x.deleted == w.deleted + [w.lru[0]]
    requires w.lru[0] in v.handles ==> x.usage == w.usage - v.handles[w.lru[0]].charge
    ensures Evicted(v, order, gone, usage, capacity, k + 1, x)
    ensures order[..k + 1] == order[..k] + [w.lru[0]]
  {
    TakeOneMore(gone, order, k);
    assert order[k] == w.lru[0] && order[..k + 1] == order[..k] + [order[k]];
    ChargeAppend(v.handles, order[..k], order[k]);
  }

  /** Just as many of the oldest entries have been evicted as makes the charges fit, or all. */
  ghost predicate EvictedAsNeeded(v: View, name: Name, charge: nat, capacity: nat, w: View)
    requires forall id :: id in v.lru ==> id in v.handles
  {
    LruAfterIsPart(v, name, capacity);
    exists k: nat :: Evicted(v, LruAfter(v, name, capacity), DeletedAfter(v, name, capacity),
                        UsageAfter(v, name, charge, capacity), capacity, k, w)
      && OthersFound(v, name, capacity, LruAfter(v, name, capacity)[..k], w)
      && (w.usage <= capacity || w.lru == [])
  }

  lemma {:induction false} WithoutIsPart(s: seq<nat>, x: nat)
    ensures forall y :: y in Without(s, x) ==> y in s
  {
    if s != [] { WithoutIsPart(s[1..], x); }
  }

  lemma LruAfterIsPart(v: View, name: Name, capacity: nat)
    ensures forall id :: id in LruAfter(v, name, capacity) ==> id in v.lru
  {
    if name in v.table { WithoutIsPart(v.lru, v.table[name]); }
  }

  /** The usage with the new entry and without the one it replaces. */
  ghost function UsageAfter(v: View, name: Name, charge: nat, capacity: nat): int {
    if capacity == 0 then v.usage
    else v.usage + charge - if name in v.table && v.table[name] in v.handles then v.handles[v.table[name]].charge else 0
  }

  /** The LRU list once a cached entry of the same name, if any, has made room. */
  ghost function LruAfter(v: View, name: Name, capacity: nat): seq<nat> {
    if capacity > 0 && name in v.table then Without(v.lru, v.table[name]) else v.lru
  }

  /** Its deleter runs at once if no client holds it. */
  ghost function DeletedAfter(v: View, name: Name, capacity: nat): seq<nat> {
    v.deleted + if capacity > 0 && name in v.table && v.table[name] in v.lru then [v.table[name]] else []
  }

  /** The new entry is there, held once by its client, and found by its name if anything is cached. */
  ghost predicate HasNew(v: View, e: nat, name: Name, charge: nat, capacity: nat) {
    && e in v.handles && v.handles[e] == Handle(name, charge, capacity > 0, if capacity > 0 then 2 else 1)
    && e in v.clients && v.clients[e] == 1 && (capacity > 0 ==> name in v.table && v.table[name] == e)
  }

  /** What clients hold they keep. */
  ghost predicate ClientsKept(v: View, w: View) {
    forall id :: id in v.clients && v.clients[id] > 0 ==> id in w.clients && w.clients[id] == v.clients[id]
  }

  ghost predicate SameCharges(v: View, w: View, e: nat) {
    forall id :: id in w.handles && id != e ==> id in v.handles && v.handles[id].charge == w.handles[id].charge
  }

  lemma AddedFacts(v: View, name: Name, charge: nat, capacity: nat)
    requires Inv(v, None, None)
    ensures var w := Added(v, name, charge, capacity);
      && HasNew(w, v.nextId, name, charge, capacity) && ClientsKept(v, w) && w.nextId == v.nextId + 1
      && w.lru == LruAfter(v, name, capacity) && w.deleted == DeletedAfter(v, name, capacity)
      && w.usage == UsageAfter(v, name, charge, capacity) && SameCharges(v, w, v.nextId)
      && OthersFound(v, name, capacity, [], w)
  {
    if capacity > 0 && name in v.table {
      var p := v.table[name];
      assert p in v.handles && v.handles[p].refs == v.clients[p] + 1;
      assert p in v.lru <==> v.handles[p].refs == 1;
    }
  }

  /** The oldest entry is in the table and only the cache refers to it. */
  lemma OldestIsCached(v: View)
    requires Inv(v, None, None) && v.lru != []
    ensures var e := v.lru[0];
      && e in v.handles && v.handles[e].inCache && v.handles[e].refs == 1 && e in v.clients && v.clients[e] == 0
      && v.handles[e].name in v.table && v.table[v.handles[e].name] == e && e !in v.inUse
  {
    assert v.lru[0] in v.lru;
  }

  /** What the table finds is cached, and is not the next handle. */
  lemma FoundIsCached(h: History, capacity: nat, name: Name, charge: nat)
    requires Legal(h, capacity)
    ensures var v := ViewOf(h, capacity);
      name in v.table ==>
      && v.table[name] in v.handles && v.table[name] in v.clients && v.handles[v.table[name]].inCache
      && v.handles[v.table[name]].refs > 0 && v.table[name] != v.nextId
      && WithNew(v, name, charge).handles[v.table[name]] == v.handles[v.table[name]]
  {
    ReachableInv(h, capacity);
  }

  lemma EvictedLists(v: View)
    requires Inv(v, None, None) && v.lru != [] && v.lru[0] in v.handles
    ensures var w := Erased(v, v.handles[v.lru[0]].name);
      && w.lru == v.lru[1..] && w.deleted == v.deleted + [v.lru[0]] && w.inUse == v.inUse && w.nextId == v.nextId
      && w.usage == v.usage - v.handles[v.lru[0]].charge
  {
    OldestIsCached(v);
    WithoutAbsent(v.inUse, v.lru[0]);
  }

  /** The table loses the entry evicted and nothing else. */
  lemma EvictedFinds(v: View, w: View, name: Name, capacity: nat, evicted: seq<nat>)
    requires Inv(w, None, None) && w.lru != [] && w.lru[0] in w.handles && OthersFound(v, name, capacity, evicted, w)
    ensures var x := Erased(w, w.handles[w.lru[0]].name);
      OthersFound(v, name, capacity, evicted + [w.lru[0]], x)
  {
    OldestIsCached(w);
  }

  lemma EvictedCharges(v: View, w: View, e: nat)
    requires Inv(w, None, None) && w.lru != [] && w.lru[0] in w.handles && SameCharges(v, w, e)
    ensures SameCharges(v, Erased(w, w.handles[w.lru[0]].name), e)
  {
    OldestIsCached(w);
  }

  /** Evicting takes nothing from a client. */
  lemma EvictedFacts(v: View, w: View, e: nat, name: Name, charge: nat, capacity: nat)
    requires Inv(w, None, None) && w.lru != [] && w.lru[0] in w.handles && HasNew(w, e, name, charge, capacity)
      && ClientsKept(v, w)
    ensures var x := Erased(w, w.handles[w.lru[0]].name); HasNew(x, e, name, charge, capacity) && ClientsKept(v, x)
  {
    OldestIsCached(w);
  }

  /** No call takes a handle from a client but the client's own Release, and no deleter runs while
      a client holds the handle. */
  lemma {:induction false} HeldHandlesStay(h: History, capacity: nat, id: nat)
    requires Legal(h, capacity) && !h.Empty? && !(h.Release? && h.e == id)
    requires id in ViewOf(h.prev, capacity).clients && ViewOf(h.prev, capacity).clients[id] > 0
    ensures var w := ViewOf(h, capacity);
      && id in w.clients && w.clients[id] >= ViewOf(h.prev, capacity).clients[id]
      && id in w.handles && id !in w.deleted
  {
    ReachableInv(h.prev, capacity);
    ReachableInv(h, capacity);
    var v := ViewOf(h.prev, capacity);
    match h
    case Ref(_, e) => RefStays(v, e, id);
    case Release(_, e) => ReleaseStays(v, e, id);
    case Add(_, name, charge) => AddedFacts(v, name, charge, capacity);
    case Erase(_, name) => EraseStays(v, name, id);
    HeldLives(ViewOf(h, capacity), id);
  }

  /** What clients hold they still hold. */
  ghost predicate Stays(v: View, w: View, id: nat) {
    id in v.clients && v.clients[id] > 0 ==> id in w.clients && w.clients[id] >= v.clients[id]
  }

  lemma HeldLives(v: View, id: nat)
    requires Inv(v, None, None) && id in v.clients
    ensures id in v.handles && id !in v.deleted
  {
    assert id in v.handles.Keys;
  }

  lemma RefStays(v: View, e: nat, id: nat)
    ensures Stays(v, Referenced(v, e), id)
  {
  }

  lemma ReleaseStays(v: View, e: nat, id: nat)
    requires e != id
    ensures Stays(v, Released(v, e), id)
  {
  }

  lemma EraseStays(v: View, name: Name, id: nat)
    requires RefsOk(v, None) && TableOk(v, None)
    ensures Stays(v, Erased(v, name), id)
  {
  }

  // ---- The order of the LRU list ----------------------------------------------

  ghost function Length(h: History): nat {
    if h.Empty? then 0 else 1 + Length(h.prev)
  }

  /** When a client last gave the handle back. */
  ghost function ReleasedAt(h: History, e: nat): (r: nat)
    ensures r <= Length(h)
  {
    if h.Empty? then 0 else if h.Release? && h.e == e then Length(h) else ReleasedAt(h.prev, e)
  }

  ghost predicate ByRelease(h: History, s: seq<nat>) {
    forall i, j :: 0 <= i < j < |s| ==> ReleasedAt(h, s[i]) < ReleasedAt(h, s[j])
  }

  lemma FirstByRelease(h: History, s: seq<nat>, y: nat)
    requires ByRelease(h, s) && s != [] && y in s[1..]
    ensures ReleasedAt(h, s[0]) < ReleasedAt(h, y)
  {
    var i :| 0 <= i < |s[1..]| && s[1..][i] == y;
    assert s[i + 1] == y;
  }

  lemma AtFrontByRelease(h: History, x: nat, s: seq<nat>)
    requires ByRelease(h, s) && forall y :: y in s ==> ReleasedAt(h, x) < ReleasedAt(h, y)
    ensures ByRelease(h, [x] + s)
  {
  }

  lemma {:induction false} WithoutByRelease(h: History, s: seq<nat>, x: nat)
    requires ByRelease(h, s)
    ensures ByRelease(h, Without(s, x))
  {
    if s != [] && s[0] != x {
      var rest := Without(s[1..], x);
      WithoutByRelease(h, s[1..], x);
      WithoutIsPart(s[1..], x);
      forall y | y in rest ensures ReleasedAt(h, s[0]) < ReleasedAt(h, y) { FirstByRelease(h, s, y); }
      AtFrontByRelease(h, s[0], rest);
    }
  }

  lemma StillByRelease(h: History, s: seq<nat>)
    requires !h.Empty? && ByRelease(h.prev, s) && (h.Release? ==> h.e !in s)
    ensures ByRelease(h, s) && (h.Release? ==> ByRelease(h, s + [h.e]))
  {
    assert forall i :: 0 <= i < |s| ==> ReleasedAt(h, s[i]) == ReleasedAt(h.prev, s[i]);
  }

  lemma RefMoves(v: View, e: nat)
    ensures Referenced(v, e).lru == v.lru || Referenced(v, e).lru == Without(v.lru, e)
  {
  }

  /** What is moved to the LRU list goes to its end. */
  lemma ReleaseMoves(v: View, e: nat)
    requires Inv(v, None, None) && e in v.clients && v.clients[e] > 0
    ensures e !in v.lru && (Released(v, e).lru == v.lru || Released(v, e).lru == v.lru + [e])
  {
    assert e in v.handles.Keys;
  }

  lemma AddMoves(v: View, name: Name, charge: nat, capacity: nat)
    requires Inv(v, None, None)
    ensures Added(v, name, charge, capacity).lru == LruAfter(v, name, capacity)
  {
    AddedFacts(v, name, charge, capacity);
  }

  lemma EraseMoves(v: View, name: Name)
    requires Inv(v, None, None)
    ensures Erased(v, name).lru == if name in v.table then Without(v.lru, v.table[name]) else v.lru
  {
    if name in v.table {
      var e := v.table[name];
      assert v.handles[e].refs == v.clients[e] + 1;
    }
  }

  /** The LRU list is in the order the entries were last given back. */
  lemma {:induction false} LruByRelease(h: History, capacity: nat)
    requires Legal(h, capacity)
    ensures ByRelease(h, ViewOf(h, capacity).lru)
  {
    if !h.Empty? {
      var v := ViewOf(h.prev, capacity);
      LruByRelease(h.prev, capacity);
      ReachableInv(h.prev, capacity);
      match h
      case Ref(p, e) =>
        RefMoves(v, e);
        WithoutByRelease(p, v.lru, e);
      case Release(p, e) => ReleaseMoves(v, e);
      case Add(p, name, charge) =>
        AddMoves(v, name, charge, capacity);
        if name in v.table { WithoutByRelease(p, v.lru, v.table[name]); }
      case Erase(p, name) =>
        EraseMoves(v, name);
        if name in v.table { WithoutByRelease(p, v.lru, v.table[name]); }
      LastMoveByRelease(h, v.lru, ViewOf(h, capacity).lru);
    }
  }

  lemma LastMoveByRelease(h: History, s: seq<nat>, t: seq<nat>)
    requires !h.Empty? && ByRelease(h.prev, s) && (h.Release? ==> h.e !in s)
    requires if h.Release? then t == s || t == s + [h.e] else ByRelease(h.prev, t)
    ensures ByRelease(h, t)
  {
    StillByRelease(h, if h.Release? then s else t);
  }

  // ---- Usage and capacity ---------------------------------------------------

  /** What Insert leaves: the charges fit, or nothing can be evicted. */
  ghost predicate Fits(v: View, capacity: nat) {
    v.usage <= capacity || v.lru == []
  }

  lemma RefKeepsFits(v: View, e: nat, capacity: nat)
    requires Inv(v, None, None) && Fits(v, capacity)
    ensures Fits(Referenced(v, e), capacity)
  {
    assert Without([], e) == [];
  }

  lemma EraseKeepsFits(v: View, name: Name, capacity: nat)
    requires Inv(v, None, None) && Fits(v, capacity)
    ensures Fits(Erased(v, name), capacity)
  {
    assert name in v.table ==> Without([], v.table[name]) == [];
  }

  lemma RefFits(h: History, capacity: nat, e: nat)
    requires Legal(h, capacity)
    ensures Fits(ViewOf(h, capacity), capacity) ==> Fits(Referenced(ViewOf(h, capacity), e), capacity)
  {
    ReachableInv(h, capacity);
    if Fits(ViewOf(h, capacity), capacity) { RefKeepsFits(ViewOf(h, capacity), e, capacity); }
  }

  /** The name is out of the table; the deleter runs at once just if no client holds the entry. */
  ghost predicate EraseDone(v: View, name: Name, w: View) {
    && w.table == v.table - {name}
    && w.deleted == v.deleted + if name in v.table && v.table[name] in v.lru then [v.table[name]] else []
  }

  lemma ErasedDeletes(v: View, name: Name)
    requires Inv(v, None, None)
    ensures EraseDone(v, name, Erased(v, name))
  {
    FoundInLru(v, name);
    ErasedIs(v, name);
  }

  lemma ErasedIs(v: View, name: Name)
    requires name in v.table ==>
      v.table[name] in v.handles && v.handles[v.table[name]].refs > 0 &&
        (v.table[name] in v.lru <==> v.handles[v.table[name]].refs == 1)
    ensures EraseDone(v, name, Erased(v, name))
  {
    if name !in v.table { assert v.table - {name} == v.table; }
  }

  /** A handle's last reference given back runs the deleter. */
  ghost predicate GivenBack(v: View, e: nat, w: View)
    requires e in v.handles && e in v.clients && v.clients[e] > 0
  {
    var last := v.clients[e] == 1 && !v.handles[e].inCache;
    && w.deleted == v.deleted + (if last then [e] else [])
    && w.clients == (if last then v.clients - {e} else v.clients[e := v.clients[e] - 1])
    && w.usage == v.usage && w.table == v.table
  }

  lemma ReleasedIs(h: History, capacity: nat, e: nat)
    requires Legal(h, capacity) && e in ViewOf(h, capacity).clients && ViewOf(h, capacity).clients[e] > 0
    ensures var v := ViewOf(h, capacity);
      && e in v.handles && v.handles[e].refs == v.clients[e] + (if v.handles[e].inCache then 1 else 0)
      && GivenBack(v, e, Released(v, e))
      && (Fits(v, capacity) ==> (Fits(Released(v, e), capacity) <==>
            v.usage <= capacity || !v.handles[e].inCache || v.clients[e] > 1))
  {
    ReachableInv(h, capacity);
    var v := ViewOf(h, capacity);
    assert e in v.handles.Keys;
    if Fits(v, capacity) { ReleaseFits(v, e, capacity); }
    ReleasedGivesBack(v, e);
  }

  lemma ReleasedGivesBack(v: View, e: nat)
    requires e in v.clients && v.clients[e] > 0 && e in v.handles
    requires v.handles[e].refs == v.clients[e] + (if v.handles[e].inCache then 1 else 0)
    ensures GivenBack(v, e, Released(v, e))
  {
    assert v.clients[e := v.clients[e] - 1] - {e} == v.clients - {e};
  }

  lemma FoundInLru(v: View, name: Name)
    requires ListsOk(v) && RefsOk(v, None) && TableOk(v, None)
    ensures name in v.table ==>
      v.table[name] in v.handles && v.handles[v.table[name]].refs > 0 &&
        (v.table[name] in v.lru <==> v.handles[v.table[name]].refs == 1)
  {
  }

  lemma EraseFits(h: History, capacity: nat, name: Name)
    requires Legal(h, capacity)
    ensures Fits(ViewOf(h, capacity), capacity) ==> Fits(Erased(ViewOf(h, capacity), name), capacity)
  {
    ReachableInv(h, capacity);
    if Fits(ViewOf(h, capacity), capacity) { EraseKeepsFits(ViewOf(h, capacity), name, capacity); }
  }

  /** Release evicts nothing.  It leaves a cache that fits as one that fits just if the usage is
      within the capacity, or the entry is not cached, or another client holds it too. */
  lemma ReleaseFits(v: View, e: nat, capacity: nat)
    requires Inv(v, None, None) && Fits(v, capacity) && e in v.clients && v.clients[e] > 0
    ensures e in v.handles && (Fits(Released(v, e), capacity) <==>
      v.usage <= capacity || !v.handles[e].inCache || v.clients[e] > 1)
  {
    assert e in v.handles.Keys;
  }

  /** For example: two entries of charge 1 in a cache of capacity 1; the first is given back. */
  lemma ReleasedOverCapacity(a: Name, b: Name)
    requires a != b
    ensures var h := History.Release(Add(Add(Empty, a, 1), b, 1), 0);
      && Legal(h, 1) && Fits(ViewOf(h.prev, 1), 1) && !Fits(ViewOf(h, 1), 1)
      && ViewOf(h, 1).usage == 2 && ViewOf(h, 1).lru == [0]
  {
    var h1 := Add(Empty, a, 1);
    var h2 := Add(h1, b, 1);
    var v1, v2 := ViewOf(h1, 1), ViewOf(h2, 1);
    assert v1 == WithNew(ViewOf(Empty, 1), a, 1) && v1.clients == map[0 := 1] && v1.table == map[a := 0];
    assert v2 == WithNew(v1, b, 1) && v2.clients[0] == 1 && v2.handles[0] == Handle(a, 1, true, 2);
    assert v2.lru == [] && v2.usage == 2;
    assert Legal(h1, 1) && Legal(h2, 1);
  }

  lemma TakeOneMore(gone: seq<nat>, order: seq<nat>, k: nat)
    requires k < |order|
    ensures gone + order[..k] + [order[k..][0]] == gone + order[..k + 1] && order[k..][1..] == order[k + 1..]
  {
  }

  class LRUCache {
    const capacity: nat
    var usage: int
    var handles: map<nat, Handle>
    var lru: seq<nat>
    var inUse: seq<nat>
    const table: HandleTable
    var nextId: nat
    ghost var clients: map<nat, nat>
    ghost var deleted: seq<nat>
    ghost var h: History

    ghost function V(): View
      reads this, table
    {
      View(usage, handles, lru, inUse, table.contents, nextId, clients, deleted)
    }

    /** The fields are what the calls so far should have left. */
    ghost predicate Ok()
      reads this, table
    {
      table.Ok() && Legal(h, capacity) && V() == ViewOf(h, capacity)
    }

    constructor (capacity: nat)
      ensures Ok() && this.capacity == capacity && handles == map[] && deleted == [] && fresh(table)
    {
      this.capacity := capacity;
      usage, handles, lru, inUse, nextId, clients, deleted := 0, map[], [], [], 0, map[], [];
      table := new HandleTable();
      h := History.Empty;
    }

    method TakeRef(e: nat)
      requires e in handles && e in clients
      modifies this
      ensures V() == Referenced(old(V()), e) && h == old(h)
    {
      if handles[e].refs == 1 && handles[e].inCache {
        lru := Without(lru, e);
        inUse := inUse + [e];
      }
      handles := handles[e := handles[e].(refs := handles[e].refs + 1)];
      clients := clients[e := clients[e] + 1];
    }

    method Unref(e: nat)
      requires e in handles && handles[e].refs > 0 && (handles[e].refs == 1 ==> !handles[e].inCache)
      modifies this
      ensures V() == Dropped(old(V()), e) && h == old(h)
    {
      var refs := handles[e].refs - 1;
      if refs == 0 {
        assert !handles[e].inCache;
        handles, clients := handles - {e}, clients - {e};
        deleted := deleted + [e];
      } else {
        handles := handles[e := handles[e].(refs := refs)];
        if handles[e].inCache && refs == 1 {
          inUse := Without(inUse, e);
          lru := lru + [e];
        }
      }
    }

    /** Takes an entry already out of the table out of the cache as well. */
    method FinishErase(e: nat)
      requires e in handles && handles[e].inCache && handles[e].refs > 0
      modifies this
      ensures V() == Dropped(Uncached(old(V()), e), e) && h == old(h)
    {
      lru, inUse := Without(lru, e), Without(inUse, e);
      handles := handles[e := handles[e].(inCache := false)];
      usage := usage - handles[e].charge;
      Unref(e);
    }

    method Lookup(name: Name) returns (r: Option<nat>)
      requires Ok()
      modifies this
      ensures Ok() && r == if name in old(table.contents) then Some(old(table.contents)[name]) else None
      ensures V() == if r.Some? then Referenced(old(V()), r.value) else old(V())
      ensures r.Some? ==> r.value in old(clients) && clients == old(clients)[r.value := old(clients)[r.value] + 1]
      ensures table.contents == old(table.contents) && deleted == old(deleted) && usage == old(usage)
      ensures old(Fits(V(), capacity)) ==> Fits(V(), capacity)
    {
      r := table.Lookup(name);
      if r.Some? {
        FoundIsCached(h, capacity, name, 0);
        RefFits(h, capacity, r.value);
        TakeRef(r.value);
        h := Ref(h, r.value);
      }
    }

    /** A client gives a handle back; the deleter runs if nobody else holds it. */
    method Release(handle: nat)
      requires Ok() && handle in clients && clients[handle] > 0
      modifies this
      ensures Ok() && V() == Released(old(V()), handle)
      ensures handle in old(handles) && GivenBack(old(V()), handle, V())
      ensures (old(Fits(V(), capacity)) ==>
        (Fits(V(), capacity) <==> usage <= capacity || !old(handles)[handle].inCache || old(clients)[handle] > 1))
    {
      ReleasedIs(h, capacity, handle);
      clients := clients[handle := clients[handle] - 1];
      Unref(handle);
      h := History.Release(h, handle);
    }

    method Erase(name: Name)
      requires Ok()
      modifies this, table
      ensures Ok() && V() == Erased(old(V()), name) && (old(Fits(V(), capacity)) ==> Fits(V(), capacity))
      ensures EraseDone(old(V()), name, V())
    {
      ghost var was := table.contents;
      FoundIsCached(h, capacity, name, 0);
      EraseFits(h, capacity, name);
      assert EraseDone(V(), name, Erased(V(), name)) by {
        ReachableInv(h, capacity);
        ErasedDeletes(V(), name);
      }
      var e := table.Remove(name);
      if e.Some? {
        FinishErase(e.value);
      } else {
        assert was - {name} == was;
      }
      h := History.Erase(h, name);
    }

    /** Evicts the least recently released entry. */
    method EvictOldest()
      requires Ok() && lru != []
      modifies this, table
      ensures Ok() && old(lru)[0] in old(handles) && V() == Erased(old(V()), old(handles)[old(lru)[0]].name)
    {
      assert lru[0] in handles by { ReachableInv(h, capacity); OldestIsCached(V()); }
      var oldest := lru[0];
      Erase(handles[oldest].name);
    }

    /** The new handle, and the end of an older entry of its name. */
    method AddHandle(name: Name, charge: nat) returns (e: nat)
      requires Ok()
      modifies this, table
      ensures Ok() && e == old(nextId) && V() == Added(old(V()), name, charge, capacity)
    {
      ghost var v := V();
      FoundIsCached(h, capacity, name, charge);
      e := nextId;
      nextId := nextId + 1;
      clients := clients[e := 1];
      if capacity > 0 {
        CacheHandle(e, name, charge, v);
      } else {
        handles := handles[e := Handle(name, charge, false, 1)];
      }
      h := Add(h, name, charge);
    }

    /** The handle is cached, and an older entry of its name is not any more. */
    method CacheHandle(e: nat, name: Name, charge: nat, ghost v: View)
      requires table.Ok() && e == v.nextId && V() == v.(nextId := e + 1, clients := v.clients[e := 1])
      requires name in v.table ==>
        var w := WithNew(v, name, charge);
        v.table[name] in w.handles && w.handles[v.table[name]].inCache && w.handles[v.table[name]].refs > 0
      modifies this, table
      ensures table.Ok() && h == old(h) && var w := WithNew(v, name, charge);
        V() == if name in v.table then Dropped(Uncached(w, v.table[name]), v.table[name]) else w
    {
      handles := handles[e := Handle(name, charge, true, 2)];
      inUse := inUse + [e];
      usage := usage + charge;
      var previous := table.Insert(name, e);
      if previous.Some? {
        FinishErase(previous.value);
      }
    }

    /** Adds an entry with one handle for the caller, in the place of any other of its name; then
        evicts, oldest first, until the charges fit or nothing can be evicted. */
    method Insert(name: Name, charge: nat) returns (e: nat)
      requires Ok()
      modifies this, table
      ensures Ok() && e == old(nextId) && nextId == e + 1
      ensures usage <= capacity || lru == []
      ensures HasNew(V(), e, name, charge, capacity) && ClientsKept(old(V()), V())
      ensures (forall id :: id in old(lru) ==> id in old(handles)) &&
        EvictedAsNeeded(old(V()), name, charge, capacity, V())
    {
      ghost var v, h0 := V(), h;
      e := AddHandle(name, charge);
      ghost var k := 0;
      assert Evicting(v, name, charge, capacity, k, V()) by {
        ReachableInv(h0, capacity);
        AddedIsEvicting(v, name, charge, capacity);
      }
      while usage > capacity && lru != []
        invariant Ok() && Evicting(v, name, charge, capacity, k, V())
        decreases |lru|
      {
        ghost var w, hw := V(), h;
        EvictOldest();
        assert Evicting(v, name, charge, capacity, k + 1, V()) && |lru| < |w.lru| by {
          ReachableInv(hw, capacity);
          EvictMore(v, name, charge, capacity, k, w);
        }
        k := k + 1;
      }
    }

    /** Evicts everything no client holds, oldest first. */
    method Prune()
      requires Ok()
      modifies this, table
      ensures Ok() && lru == [] && deleted == old(deleted) + old(lru) && inUse == old(inUse)
    {
      ghost var k := 0;
      while lru != []
        invariant Ok() && 0 <= k <= |old(lru)| && lru == old(lru)[k..] && deleted == old(deleted) + old(lru)[..k]
          && inUse == old(inUse)
        decreases |lru|
      {
        ghost var w, hw := V(), h;
        TakeOneMore(old(deleted), old(lru), k);
        EvictOldest();
        assert lru == w.lru[1..] && deleted == w.deleted + [w.lru[0]] && inUse == w.inUse by {
          ReachableInv(hw, capacity);
          EvictedLists(w);
        }
        k := k + 1;
      }
      assert old(lru)[..k] == old(lru);
    }
  }
}
