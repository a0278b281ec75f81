/** Building a table (table/table_builder.cc): index entries are held back until the next key is
    known, and their keys shortened. */
module TableBuilders {
  import opened InternalKeys
  import opened ReadSpec
  import opened Coding
  import opened LogFormat
  import opened BlockFormat
  import opened BlockBuilders
  import opened BlockIters
  import opened Comparators
  import opened Bloom
  import opened FilterBlock
  import opened TableFormat
  import opened TableReader

  function LastOf(group: seq<KeyValue>): KeyValue
    requires group != []
  {
    group[|group| - 1]
  }

  /** `key` can stand in the index between a block and what comes after it. */
  ghost predicate Linked(key: Bytes, group: seq<KeyValue>, following: seq<KeyValue>) {
    group != [] && following != [] && !InternalLess(key, LastOf(group).key) && Divides(key, group, following[0])
  }

  ghost function Following(groups: seq<seq<KeyValue>>, tail: seq<KeyValue>, i: nat): seq<KeyValue> {
    if i + 1 < |groups| then groups[i + 1] else tail
  }

  /** Every index entry there is stands between its block and what follows. */
  ghost predicate Links(index: seq<KeyValue>, groups: seq<seq<KeyValue>>, tail: seq<KeyValue>) {
    |index| <= |groups| && forall i :: 0 <= i < |index| ==> Linked(index[i].key, groups[i], Following(groups, tail, i))
  }

  lemma LinksAdd(index: seq<KeyValue>, groups: seq<seq<KeyValue>>, tail: seq<KeyValue>, kv: KeyValue)
    requires Links(index, groups, tail)
    ensures Links(index, groups, tail + [kv])
  {
    forall i | 0 <= i < |index| ensures Linked(index[i].key, groups[i], Following(groups, tail + [kv], i)) {
      assert Linked(index[i].key, groups[i], Following(groups, tail, i));
    }
  }

  lemma LinksPending(index: seq<KeyValue>, groups: seq<seq<KeyValue>>, sep: KeyValue, kv: KeyValue)
    requires Links(index, groups, []) && |index| + 1 == |groups| && Linked(sep.key, groups[|index|], [kv])
    ensures Links(index + [sep], groups, [kv])
  {
    forall i | 0 <= i < |index| ensures Linked((index + [sep])[i].key, groups[i], Following(groups, [kv], i)) {
      assert Linked(index[i].key, groups[i], Following(groups, [], i));
    }
  }

  lemma LinksFlush(index: seq<KeyValue>, groups: seq<seq<KeyValue>>, tail: seq<KeyValue>)
    requires Links(index, groups, tail)
    ensures Links(index, groups + [tail], [])
  {
    forall i | 0 <= i < |index| ensures Linked(index[i].key, (groups + [tail])[i], Following(groups + [tail], [], i)) {
      assert Linked(index[i].key, groups[i], Following(groups, tail, i));
    }
  }

  ghost function Flat(groups: seq<seq<KeyValue>>): seq<KeyValue> {
    if groups == [] then [] else Flat(groups[..|groups| - 1]) + groups[|groups| - 1]
  }

  lemma FlatSnoc(groups: seq<seq<KeyValue>>, tail: seq<KeyValue>)
    ensures Flat(groups + [tail]) == Flat(groups) + tail
  {
    assert (groups + [tail])[..|groups|] == groups;
  }

  ghost function Start(groups: seq<seq<KeyValue>>, i: nat): nat
    requires i <= |groups|
  {
    |Flat(groups[..i])|
  }

  /** Entry `x` of group `i` is entry Start(i) + x of the table. */
  lemma {:induction false} FlatAt(groups: seq<seq<KeyValue>>, i: nat, x: nat)
    requires i < |groups| && x < |groups[i]|
    ensures Start(groups, i) + |groups[i]| == Start(groups, i + 1) <= |Flat(groups)|
    ensures Flat(groups)[Start(groups, i) + x] == groups[i][x]
    decreases |groups|
  {
    var init := groups[..|groups| - 1];
    assert groups[..i + 1][..i] == groups[..i];
    if i < |groups| - 1 {
      FlatAt(init, i, x);
      assert init[..i] == groups[..i] && init[..i + 1] == groups[..i + 1];
    } else {
      assert groups[..i + 1] == groups;
    }
  }

  lemma {:induction false} StartsAscend(groups: seq<seq<KeyValue>>, i: nat, j: nat)
    requires i <= j <= |groups|
    ensures Start(groups, i) <= Start(groups, j)
  {
    if i < j {
      StartsAscend(groups, i, j - 1);
      assert groups[..j][..j - 1] == groups[..j - 1];
    }
  }

  /** Entries added in order lie in order across the blocks. */
  lemma FlatLayered(groups: seq<seq<KeyValue>>)
    requires Ascending(InternalLess, Flat(groups))
    ensures Layered(groups)
  {
    forall i, x, y | 0 <= i < |groups| && 0 <= x < y < |groups[i]|
      ensures InternalLess(groups[i][x].key, groups[i][y].key)
    {
      FlatAt(groups, i, x);
      FlatAt(groups, i, y);
    }
    forall i, j, a, b | 0 <= i < j < |groups| && a in groups[i] && b in groups[j] ensures InternalLess(a.key, b.key) {
      var x :| 0 <= x < |groups[i]| && groups[i][x] == a;
      var y :| 0 <= y < |groups[j]| && groups[j][y] == b;
      FlatAt(groups, i, x);
      FlatAt(groups, j, y);
      StartsAscend(groups, i + 1, j);
    }
  }

  /** What divides a block from an entry divides it from any later one. */
  lemma DividesLater(key: Bytes, group: seq<KeyValue>, x: KeyValue, later: KeyValue)
    requires Divides(key, group, x) && InternalLess(x.key, later.key)
    ensures Divides(key, group, later)
  {
    InternalLessIsStrict(key, x.key, later.key);
    LessIsStrictOrder(UserPart(key), UserPart(x.key), UserPart(later.key));
  }

  /** The index key is at or above everything in its block. */
  lemma SeparatorCovers(group: seq<KeyValue>, sep: Bytes, a: KeyValue)
    requires Ascending(InternalLess, group) && a in group && !InternalLess(sep, LastOf(group).key)
    ensures !InternalLess(sep, a.key)
  {
    var q :| 0 <= q < |group| && group[q] == a;
    if q < |group| - 1 {
      assert InternalLess(group[q].key, group[|group| - 1].key);
      InternalLessIsStrict(sep, a.key, LastOf(group).key);
    }
  }

  lemma LinksCover(index: seq<KeyValue>, groups: seq<seq<KeyValue>>, last: KeyValue)
    requires Links(index, groups, []) && |index| + 1 == |groups| && Layered(groups) && groups[|index|] != []
    requires !InternalLess(last.key, LastOf(groups[|index|]).key)
    ensures IndexCovers(index + [last], groups)
  {
    var all := index + [last];
    forall i, a | 0 <= i < |all| && a in groups[i] ensures !InternalLess(all[i].key, a.key) {
      assert Ascending(InternalLess, groups[i]);
      assert i < |index| ==> Linked(index[i].key, groups[i], Following(groups, [], i));
      SeparatorCovers(groups[i], all[i].key, a);
    }
  }

  lemma LinksDivide(index: seq<KeyValue>, groups: seq<seq<KeyValue>>, i: nat, j: nat, b: KeyValue)
    requires Links(index, groups, []) && Layered(groups) && i < |index| && i < j < |groups| && b in groups[j]
    ensures Divides(index[i].key, groups[i], b)
  {
    var next := groups[i + 1];
    assert Linked(index[i].key, groups[i], Following(groups, [], i));
    assert next[0] in next;
    if j == i + 1 {
      var y :| 0 <= y < |next| && next[y] == b;
      assert Ascending(InternalLess, next);
      if y > 0 { DividesLater(index[i].key, groups[i], next[0], b); }
    } else {
      DividesLater(index[i].key, groups[i], next[0], b);
    }
  }

  /** Links between neighbours make a whole index. */
  lemma LinksIndexed(index: seq<KeyValue>, groups: seq<seq<KeyValue>>, last: KeyValue)
    requires Links(index, groups, []) && |index| + 1 == |groups| && Layered(groups) && groups[|index|] != []
    requires !InternalLess(last.key, LastOf(groups[|index|]).key)
    ensures IndexCovers(index + [last], groups) && IndexDivides(index + [last], groups)
  {
    LinksCover(index, groups, last);
    forall i, j, b | 0 <= i < |index| + 1 && i < j < |groups| && b in groups[j]
      ensures Divides((index + [last])[i].key, groups[i], b)
    {
      LinksDivide(index, groups, i, j, b);
    }
  }

  datatype FilterPolicy = FilterPolicy(name: Bytes, hash: Hash, bitsPerKey: nat, probes: nat)

  ghost predicate Placed(handles: seq<BlockHandle>, end: nat) {
    && (forall i :: 0 <= i < |handles| ==> handles[i].offset <= end)
    && (forall i, j :: 0 <= i < j < |handles| ==> handles[i].offset <= handles[j].offset)
  }

  function AllAt(block: nat, group: seq<KeyValue>): (r: seq<Added>)
    ensures |r| == |group|
  {
    seq(|group|, i requires 0 <= i < |group| => Added(block, group[i].key))
  }

  /** The keys of all groups, each with the offset of its block. */
  ghost function AddedIn(handles: seq<BlockHandle>, groups: seq<seq<KeyValue>>): (r: seq<Added>)
    requires |handles| == |groups|
  {
    if groups == [] then []
    else
      var n := |groups| - 1;
      AddedIn(handles[..n], groups[..n]) + AllAt(handles[n].offset, groups[n])
  }

  lemma {:induction false} GroupsAdded(handles: seq<BlockHandle>, groups: seq<seq<KeyValue>>, i: nat, a: KeyValue)
    requires |handles| == |groups| && i < |groups| && a in groups[i]
    ensures Added(handles[i].offset, a.key) in AddedIn(handles, groups)
  {
    var n := |groups| - 1;
    if i < n {
      GroupsAdded(handles[..n], groups[..n], i, a);
    } else {
      var j :| 0 <= j < |groups[n]| && groups[n][j] == a;
      assert AllAt(handles[n].offset, groups[n])[j] == Added(handles[i].offset, a.key);
    }
  }

  /** The filters are those of the policy for the user keys of each range. */
  ghost predicate FiltersFor(policy: FilterPolicy, offsets: seq<nat>, filters: Bytes, handles: seq<BlockHandle>,
                             groups: seq<seq<KeyValue>>)
    requires |handles| == |groups|
  {
    Exact(policy.hash, policy.probes, offsets, filters, AddedIn(handles, groups)) && 1 <= policy.probes <= 30
  }

  /** No key of a table is turned away from its block. */
  lemma FiltersSpareTheirKeys(policy: FilterPolicy, offsets: seq<nat>, filters: Bytes, handles: seq<BlockHandle>,
                              groups: seq<seq<KeyValue>>)
    requires |handles| == |groups| && FiltersFor(policy, offsets, filters, handles, groups)
    ensures forall i, a :: 0 <= i < |groups| && a in groups[i] ==>
      LetsThrough(policy.hash, offsets, filters, handles[i].offset, a.key)
  {
    forall i, a | 0 <= i < |groups| && a in groups[i]
      ensures LetsThrough(policy.hash, offsets, filters, handles[i].offset, a.key)
    {
      GroupsAdded(handles, groups, i, a);
      AddedIsLetThrough(policy.hash, policy.probes, offsets, filters, AddedIn(handles, groups),
                        Added(handles[i].offset, a.key));
    }
  }

  method AddKeys(fb: FilterBlockBuilder, group: seq<KeyValue>)
    requires fb.Ok() && |fb.filterOffsets| == fb.block / FILTER_BASE
    modifies fb
    ensures fb.Ok() && fb.filterOffsets == old(fb.filterOffsets) && fb.block == old(fb.block)
    ensures fb.added == old(fb.added) + AllAt(fb.block, group)
  {
    for k := 0 to |group|
      invariant fb.Ok() && fb.filterOffsets == old(fb.filterOffsets) && fb.block == old(fb.block)
      invariant fb.added == old(fb.added) + AllAt(fb.block, group)[..k]
    {
      fb.AddKey(group[k].key);
    }
  }

  /** The calls the table builder makes on its filter block builder, in their order. */
  method BuildFilter(policy: FilterPolicy, handles: seq<BlockHandle>, groups: seq<seq<KeyValue>>, end: nat)
    returns (contents: Option<Bytes>, ghost offsets: seq<nat>, ghost filters: Bytes)
    requires 1 <= policy.probes <= 30 && |handles| == |groups| && Placed(handles, end)
    ensures contents.Some? ==>
      IsFilterBlock(offsets, filters, contents.value) && FiltersFor(policy, offsets, filters, handles, groups)
    ensures contents.Some? ==> |contents.value| <= TWO_32 + 4 * (end / FILTER_BASE + 1) + 5
    ensures FiltersBound(|Flat(groups)|, policy.bitsPerKey) < TWO_32 ==> contents.Some?
  {
    var fb := new FilterBlockBuilder(policy.hash, policy.bitsPerKey, policy.probes);
    fb.StartBlock(0);
    assert groups[..0] == [];
    for i := 0 to |groups|
      invariant |fb.added| == |Flat(groups[..i])| && fb.bitsPerKey == policy.bitsPerKey
      invariant fresh(fb) && fb.Ok() && fb.hash == policy.hash && |fb.filterOffsets| == fb.block / FILTER_BASE
        && fb.block <= end && fb.probes == policy.probes && RangesUpTo(fb.added, |fb.filterOffsets|)
      invariant forall j :: i <= j < |groups| ==> fb.block <= handles[j].offset
      invariant fb.added == AddedIn(handles[..i], groups[..i])
    {
      fb.StartBlock(handles[i].offset);
      AddKeys(fb, groups[i]);
      assert groups[..i + 1][..i] == groups[..i] && handles[..i + 1][..i] == handles[..i];
    }
    assert groups[..|groups|] == groups && handles[..|groups|] == handles;
    fb.StartBlock(end);
    contents := fb.Finish();
    offsets, filters := fb.filterOffsets, fb.result;
  }

  ghost predicate Named(index: seq<KeyValue>, handles: seq<BlockHandle>) {
    |index| <= |handles| && forall i :: 0 <= i < |index| ==> index[i].value == EncodeHandle(handles[i])
  }

  lemma AscendingSnoc(s: seq<KeyValue>, kv: KeyValue)
    requires Ascending(InternalLess, s) && (s != [] ==> InternalLess(LastOf(s).key, kv.key))
    ensures Ascending(InternalLess, s + [kv])
  {
    forall i | 0 <= i < |s| ensures InternalLess(s[i].key, kv.key) {
      InternalLessIsStrict(s[i].key, LastOf(s).key, kv.key);
    }
  }

  /** `b` holds `entries` and has been appended to the file. */
  ghost predicate Written(crc: Checksum, before: Bytes, file: Bytes, entries: seq<KeyValue>, b: DataBlock) {
    && before <= file && |file| < TWO_64 && b.layout.entries == entries && IsBlock(b.layout, b.restarts, b.bytes)
    && Stored(crc, file, b.handle, b.bytes) && b.handle.offset == |before|
  }

  lemma BackedGrows(crc: Checksum, file: Bytes, blocks: seq<DataBlock>, groups: seq<seq<KeyValue>>,
                    tail: seq<KeyValue>, b: DataBlock, file': Bytes)
    requires Backed(crc, file, blocks, groups) && |groups| == |blocks| && tail != []
      && Written(crc, file, file', tail, b)
    ensures Backed(crc, file', blocks + [b], groups + [tail])
  {
    assert file' == file + file'[|file|..];
    forall i | 0 <= i < |blocks| ensures Stored(crc, file', blocks[i].handle, blocks[i].bytes) {
      StoredStays(crc, file, blocks[i].handle, blocks[i].bytes, file'[|file|..]);
    }
  }

  /** What has happened to a builder: keys added, each with the separator chosen for the block
      before it if an index entry was pending, and blocks written. */
  datatype History = Empty | Key(prev: History, kv: KeyValue, sep: Bytes) | Block(prev: History, b: DataBlock)

  ghost function FileOf(crc: Checksum, h: History): Bytes {
    match h
    case Empty => []
    case Key(prev, _, _) => FileOf(crc, prev)
    case Block(prev, b) => FileOf(crc, prev) + (b.bytes + Trailer(crc, b.bytes))
  }

  ghost function BlocksOf(h: History): seq<DataBlock> {
    match h
    case Empty => []
    case Key(prev, _, _) => BlocksOf(prev)
    case Block(prev, b) => BlocksOf(prev) + [b]
  }

  ghost function HandlesOf(h: History): seq<BlockHandle> {
    match h
    case Empty => []
    case Key(prev, _, _) => HandlesOf(prev)
    case Block(prev, b) => HandlesOf(prev) + [b.handle]
  }

  ghost function GroupsOf(h: History): seq<seq<KeyValue>> {
    match h
    case Empty => []
    case Key(prev, _, _) => GroupsOf(prev)
    case Block(prev, _) => GroupsOf(prev) + [TailOf(prev)]
  }

  ghost function TailOf(h: History): seq<KeyValue> {
    match h
    case Empty => []
    case Key(prev, kv, _) => TailOf(prev) + [kv]
    case Block(_, _) => []
  }

  ghost function IndexOf(h: History): seq<KeyValue> {
    match h
    case Empty => []
    case Key(prev, _, sep) =>
      if prev.Block? then IndexOf(prev) + [KeyValue(sep, EncodeHandle(prev.b.handle))] else IndexOf(prev)
    case Block(prev, _) => IndexOf(prev)
  }

  ghost function LastKeyOf(h: History): Bytes {
    match h
    case Empty => []
    case Key(_, kv, _) => kv.key
    case Block(prev, _) => LastKeyOf(prev)
  }

  ghost function AddedOf(h: History): seq<KeyValue> {
    match h
    case Empty => []
    case Key(prev, kv, _) => AddedOf(prev) + [kv]
    case Block(prev, _) => AddedOf(prev)
  }

  ghost predicate GoodSeparator(last: Bytes, sep: Bytes, key: Bytes) {
    !InternalLess(sep, last) && InternalLess(sep, key) && (sep == last || BytewiseLess(UserPart(sep), UserPart(key)))
  }

  /** Keys ascend, separators separate, blocks hold what they should. */
  ghost predicate Proper(crc: Checksum, h: History) {
    match h
    case Empty => true
    case Key(prev, kv, sep) =>
      && Proper(crc, prev) && (AddedOf(prev) != [] ==> InternalLess(LastKeyOf(prev), kv.key))
      && (prev.Block? ==> GoodSeparator(LastKeyOf(prev), sep, kv.key))
    case Block(prev, b) =>
      Proper(crc, prev) && TailOf(prev) != [] && Written(crc, FileOf(crc, prev), FileOf(crc, h), TailOf(prev), b)
  }

  // ---- Sizes ----

  function Sized(entries: seq<KeyValue>): nat {
    SizeBound(entries, |entries|)
  }

  lemma {:induction false} SizeOfPrefix(s: seq<KeyValue>, e: KeyValue, n: nat)
    requires n <= |s|
    ensures SizeBound(s + [e], n) == SizeBound(s, n)
  {
    if n > 0 { SizeOfPrefix(s, e, n - 1); }
  }

  lemma SizedSnoc(s: seq<KeyValue>, e: KeyValue)
    ensures Sized(s + [e]) == Sized(s) + |e.key| + |e.value| + 19
  {
    SizeOfPrefix(s, e, |s|);
  }

  /** Enough for what entries take in data blocks, with their trailers, and in the index. */
  function Cost(entries: seq<KeyValue>): nat {
    if entries == [] then 0
    else Cost(entries[..|entries| - 1]) + 2 * |LastOf(entries).key| + |LastOf(entries).value| + 79
  }

  lemma CostSnoc(s: seq<KeyValue>, e: KeyValue)
    ensures Cost(s + [e]) == Cost(s) + 2 * |e.key| + |e.value| + 79
  {
    assert (s + [e])[..|s|] == s;
  }

  lemma {:induction false} CostAscends(s: seq<KeyValue>, n: nat)
    requires n <= |s|
    ensures Cost(s[..n]) <= Cost(s)
    decreases |s|
  {
    if n < |s| {
      CostAscends(s[..|s| - 1], n);
      assert s[..|s| - 1][..n] == s[..n];
    } else {
      assert s[..n] == s;
    }
  }

  /** Separators are hardly longer than the key they replace, blocks no longer than their bound. */
  ghost predicate Compact(h: History) {
    match h
    case Empty => true
    case Key(prev, _, sep) => Compact(prev) && (prev.Block? ==> |sep| <= |LastKeyOf(prev)| + 8)
    case Block(prev, b) => Compact(prev) && |b.bytes| <= Sized(TailOf(prev))
  }

  ghost predicate Small(entries: seq<KeyValue>) {
    Cost(entries) < TWO_32 - 8
  }

  lemma BlockIsProper(crc: Checksum, h: History, b: DataBlock)
    requires Proper(crc, h) && Compact(h) && TailOf(h) != [] && |b.bytes| <= Sized(TailOf(h))
    requires Written(crc, FileOf(crc, h), FileOf(crc, h) + (b.bytes + Trailer(crc, b.bytes)), TailOf(h), b)
    ensures Proper(crc, Block(h, b)) && Compact(Block(h, b))
  {
  }

  lemma KeyIsProper(crc: Checksum, h: History, kv: KeyValue, sep: Bytes)
    requires Proper(crc, h) && Compact(h) && (AddedOf(h) != [] ==> InternalLess(LastKeyOf(h), kv.key))
    requires h.Block? ==> GoodSeparator(LastKeyOf(h), sep, kv.key) && |sep| <= |LastKeyOf(h)| + 8
    ensures Proper(crc, Key(h, kv, sep)) && Compact(Key(h, kv, sep))
  {
  }

  /** The file, the block and the index entry still to come, and the index. */
  ghost function Spent(crc: Checksum, h: History): int {
    |FileOf(crc, h)| + Sized(TailOf(h)) - 8 + (if TailOf(h) != [] then 13 else 0)
      + Sized(IndexOf(h)) - 8 + (if AddedOf(h) != [] then |LastKeyOf(h)| + 47 else 0)
  }

  lemma {:induction false} HistorySize(crc: Checksum, h: History)
    requires Proper(crc, h) && Compact(h)
    ensures Spent(crc, h) <= Cost(AddedOf(h))
  {
    match h {
      case Empty =>
      case Key(prev, kv, sep) =>
        HistorySize(crc, prev);
        CostSnoc(AddedOf(prev), kv);
        SizedSnoc(TailOf(prev), kv);
        if prev.Block? {
          HandleRoundTrip(prev.b.handle);
          BlockAdded(crc, prev);
          SizedSnoc(IndexOf(prev), KeyValue(sep, EncodeHandle(prev.b.handle)));
        }
      case Block(prev, b) =>
        HistorySize(crc, prev);
    }
  }

  lemma BlockAdded(crc: Checksum, h: History)
    requires Proper(crc, h) && h.Block?
    ensures AddedOf(h) != []
  {
    assert h.prev.Key?;
  }

  lemma {:induction false} NothingAdded(h: History)
    ensures AddedOf(h) == [] ==> LastKeyOf(h) == []
  {
    if h.Block? { NothingAdded(h.prev); }
  }

  /** A small table is small enough to be finished. */
  lemma FinalSizes(crc: Checksum, h: History)
    requires Proper(crc, h) && Compact(h) && Small(AddedOf(h))
    ensures |FileOf(crc, h)| < TWO_32 && Sized(IndexOf(h)) + |LastKeyOf(h)| + 47 < TWO_32
    ensures h.Block? ==> |EncodeHandle(h.b.handle)| <= 20
  {
    HistorySize(crc, h);
    NothingAdded(h);
    if h.Block? { HandleRoundTrip(h.b.handle); }
  }

  lemma {:induction false} HistoryBacked(crc: Checksum, h: History)
    requires Proper(crc, h)
    ensures |HandlesOf(h)| == |BlocksOf(h)| == |GroupsOf(h)| && Backed(crc, FileOf(crc, h), BlocksOf(h), GroupsOf(h))
    ensures forall i :: 0 <= i < |HandlesOf(h)| ==> HandlesOf(h)[i] == BlocksOf(h)[i].handle
  {
    match h {
      case Empty =>
      case Key(p, _, _) => HistoryBacked(crc, p);
      case Block(p, b) =>
        HistoryBacked(crc, p);
        BackedGrows(crc, FileOf(crc, p), BlocksOf(p), GroupsOf(p), TailOf(p), b, FileOf(crc, h));
    }
  }

  lemma {:induction false} HistoryPlaced(crc: Checksum, h: History)
    requires Proper(crc, h)
    ensures Placed(HandlesOf(h), |FileOf(crc, h)|)
  {
    if !h.Empty? { HistoryPlaced(crc, h.prev); }
  }

  /** The blocks and the data block hold exactly the entries added, in ascending order. */
  lemma {:induction false} HistoryAscends(crc: Checksum, h: History)
    requires Proper(crc, h)
    ensures Flat(GroupsOf(h)) + TailOf(h) == AddedOf(h) && Ascending(InternalLess, AddedOf(h))
  {
    match h {
      case Empty =>
      case Key(p, kv, _) =>
        HistoryAscends(crc, p);
        LastKeyIsLast(p);
        AscendingSnoc(AddedOf(p), kv);
        assert Flat(GroupsOf(p)) + (TailOf(p) + [kv]) == AddedOf(p) + [kv];
      case Block(p, _) =>
        HistoryAscends(crc, p);
        FlatSnoc(GroupsOf(p), TailOf(p));
    }
  }

  /** All blocks but one whose entry is pending are in the index, linked to what follows. */
  lemma {:induction false} HistoryLinks(crc: Checksum, h: History)
    requires Proper(crc, h)
    ensures Links(IndexOf(h), GroupsOf(h), TailOf(h)) && |IndexOf(h)| == |GroupsOf(h)| - (if h.Block? then 1 else 0)
  {
    match h {
      case Empty =>
      case Key(p, kv, sep) =>
        HistoryLinks(crc, p);
        if p.Block? {
          LastKeyIsLast(p.prev);
          LastKeyOfTail(p.prev);
          LinksPending(IndexOf(p), GroupsOf(p), KeyValue(sep, EncodeHandle(p.b.handle)), kv);
          assert TailOf(h) == [kv];
        } else {
          LinksAdd(IndexOf(p), GroupsOf(p), TailOf(p), kv);
        }
      case Block(p, _) =>
        HistoryLinks(crc, p);
        LinksFlush(IndexOf(p), GroupsOf(p), TailOf(p));
        BlockHasNoTail(p);
    }
  }

  lemma {:induction false} HistoryNamed(crc: Checksum, h: History)
    requires Proper(crc, h)
    ensures Named(IndexOf(h), HandlesOf(h)) && |IndexOf(h)| == |HandlesOf(h)| - (if h.Block? then 1 else 0)
  {
    match h {
      case Empty =>
      case Key(p, _, _) => HistoryNamed(crc, p);
      case Block(p, _) =>
        HistoryNamed(crc, p);
        BlockHasNoTail(p);
    }
  }

  lemma BlockHasNoTail(h: History)
    ensures h.Block? ==> TailOf(h) == []
  {
  }

  lemma LastKeyOfTail(h: History)
    requires TailOf(h) != []
    ensures LastKeyOf(h) == LastOf(TailOf(h)).key
  {
  }

  /** A builder that has been given keys remembers the last of them. */
  lemma {:induction false} LastKeyIsLast(h: History)
    ensures AddedOf(h) != [] ==> LastKeyOf(h) == LastOf(AddedOf(h)).key
    ensures TailOf(h) != [] ==> AddedOf(h) != []
  {
    if h.Block? { LastKeyIsLast(h.prev); }
  }

  lemma BackedExtends(crc: Checksum, file: Bytes, blocks: seq<DataBlock>, groups: seq<seq<KeyValue>>, file': Bytes)
    requires Backed(crc, file, blocks, groups) && file <= file' && |file'| < TWO_64
    ensures Backed(crc, file', blocks, groups)
  {
    assert file' == file + file'[|file|..];
    forall i | 0 <= i < |blocks| ensures Stored(crc, file', blocks[i].handle, blocks[i].bytes) {
      StoredStays(crc, file, blocks[i].handle, blocks[i].bytes, file'[|file|..]);
    }
  }

  lemma NamesBlocks(index: seq<KeyValue>, handles: seq<BlockHandle>, blocks: seq<DataBlock>)
    requires Named(index, handles) && |handles| == |blocks| && forall i :: 0 <= i < |handles| ==>
      handles[i] == blocks[i].handle
    ensures IndexNames(index, blocks)
  {
  }

  /** The finished index: what was there and, if a block was written, its entry with a successor. */
  ghost predicate FinalIndex(h: History, index: seq<KeyValue>) {
    match h
    case Block(p, b) =>
      exists last :: !InternalLess(last, LastKeyOf(h)) && index == IndexOf(h) + [KeyValue(last, EncodeHandle(b.handle))]
    case _ => index == IndexOf(h)
  }

  /** Flushed and with its last index entry added, a builder has made a sound table. */
  lemma FinishedIsSound(crc: Checksum, h: History, c: Contents, file: Bytes)
    requires Proper(crc, h) && TailOf(h) == [] && FileOf(crc, h) <= file && |file| < TWO_64
    requires c.blocks == BlocksOf(h) && c.groups == GroupsOf(h) && FinalIndex(h, c.index.entries)
    ensures Sound(c, crc, file) && Flat(c.groups) == AddedOf(h)
  {
    HistoryBacked(crc, h);
    HistoryAscends(crc, h);
    HistoryLinks(crc, h);
    HistoryNamed(crc, h);
    assert Flat(GroupsOf(h)) == AddedOf(h);
    FlatLayered(GroupsOf(h));
    BackedExtends(crc, FileOf(crc, h), BlocksOf(h), GroupsOf(h), file);
    FinalIndexed(crc, h, c.index.entries);
    NamesBlocks(c.index.entries, HandlesOf(h), BlocksOf(h));
  }

  lemma LastGroup(crc: Checksum, h: History)
    requires Proper(crc, h) && h.Block?
    ensures var groups := GroupsOf(h);
      groups != [] && LastOfGroups(groups) != [] && LastOf(LastOfGroups(groups)).key == LastKeyOf(h)
    ensures HandlesOf(h) == HandlesOf(h.prev) + [h.b.handle]
  {
    LastKeyOfTail(h.prev);
  }

  function LastOfGroups(groups: seq<seq<KeyValue>>): seq<KeyValue>
    requires groups != []
  {
    groups[|groups| - 1]
  }

  lemma NamedSnoc(index: seq<KeyValue>, handles: seq<BlockHandle>, key: Bytes)
    requires Named(index, handles) && |index| + 1 == |handles|
    ensures Named(index + [KeyValue(key, EncodeHandle(handles[|index|]))], handles)
  {
  }

  lemma FinalIndexed(crc: Checksum, h: History, index: seq<KeyValue>)
    requires Proper(crc, h) && TailOf(h) == [] && FinalIndex(h, index) && Layered(GroupsOf(h))
    requires Links(IndexOf(h), GroupsOf(h), []) && |IndexOf(h)| == |GroupsOf(h)| - (if h.Block? then 1 else 0)
    requires Named(IndexOf(h), HandlesOf(h)) && |IndexOf(h)| == |HandlesOf(h)| - (if h.Block? then 1 else 0)
    ensures |index| == |GroupsOf(h)| && IndexCovers(index, GroupsOf(h)) && IndexDivides(index, GroupsOf(h))
      && Named(index, HandlesOf(h))
  {
    if h.Block? {
      var last :| !InternalLess(last, LastKeyOf(h)) && index == IndexOf(h) + [KeyValue(last, EncodeHandle(h.b.handle))];
      LastGroup(crc, h);
      CloseIndex(IndexOf(h), GroupsOf(h), HandlesOf(h), last, index);
    }
  }

  lemma CloseIndex(before: seq<KeyValue>, groups: seq<seq<KeyValue>>, handles: seq<BlockHandle>, last: Bytes,
                   index: seq<KeyValue>)
    requires Links(before, groups, []) && Layered(groups) && |before| + 1 == |groups| == |handles|
      && Named(before, handles)
    requires LastOfGroups(groups) != [] && !InternalLess(last, LastOf(LastOfGroups(groups)).key)
    requires index == before + [KeyValue(last, EncodeHandle(handles[|before|]))]
    ensures IndexCovers(index, groups) && IndexDivides(index, groups) && Named(index, handles)
  {
    LinksIndexed(before, groups, KeyValue(last, EncodeHandle(handles[|before|])));
    NamedSnoc(before, handles, last);
  }

  /** What Finish leaves on disk.  (The footer and the metaindex block, which only lead to these
      handles, are not modelled.) */
  datatype Finished = Finished(file: Bytes, metaHandle: BlockHandle, indexHandle: BlockHandle,
                               filterHandle: Option<BlockHandle>)

  /** The key of the filter block in the metaindex: "filter." and the policy's name. */
  function FilterKey(name: Bytes): Bytes {
    [102, 105, 108, 116, 101, 114, 46] + name
  }

  function MetaEntries(policy: Option<FilterPolicy>, filterHandle: Option<BlockHandle>): seq<KeyValue> {
    if policy.Some? && filterHandle.Some? then
      [KeyValue(FilterKey(policy.value.name), EncodeHandle(filterHandle.value))]
    else []
  }

  /** The metaindex can be read back. */
  ghost predicate MetaOn(crc: Checksum, file: Bytes, handle: BlockHandle, entries: seq<KeyValue>) {
    exists layout: Layout, restarts, bytes ::
      IsBlock(layout, restarts, bytes) && Stored(crc, file, handle, bytes) && layout.entries == entries
  }

  lemma MetaStays(crc: Checksum, file: Bytes, handle: BlockHandle, entries: seq<KeyValue>, file': Bytes)
    requires MetaOn(crc, file, handle, entries) && file <= file' && |file'| < TWO_64
    ensures MetaOn(crc, file', handle, entries)
  {
    var layout: Layout, restarts, bytes :|
      IsBlock(layout, restarts, bytes) && Stored(crc, file, handle, bytes) && layout.entries == entries;
    StoredStays(crc, file, handle, bytes, file'[|file|..]);
    assert file + file'[|file|..] == file';
  }

  /** The footer at the end of the file leads to the metaindex and the index, the metaindex to the filter. */
  ghost predicate Footed(crc: Checksum, f: Finished, policy: Option<FilterPolicy>) {
    && HandleOk(f.metaHandle) && HandleOk(f.indexHandle)
    && |EncodeHandle(f.metaHandle)| <= 20 && |EncodeHandle(f.indexHandle)| <= 20
    && |f.file| >= FOOTER_SIZE && f.file[|f.file| - FOOTER_SIZE..] == Footer(f.metaHandle, f.indexHandle)
    && (policy.Some? <==> f.filterHandle.Some?)
    && MetaOn(crc, f.file, f.metaHandle, MetaEntries(policy, f.filterHandle))
  }

  /** The filter block at the handle, if there is one, has the filters of the groups. */
  ghost predicate FilterOn(crc: Checksum, file: Bytes, handle: Option<BlockHandle>, policy: Option<FilterPolicy>,
                           bytes: Bytes, offsets: seq<nat>, filters: Bytes, handles: seq<BlockHandle>,
                           groups: seq<seq<KeyValue>>) {
    handle.Some? ==>
      && policy.Some? && Stored(crc, file, handle.value, bytes) && IsFilterBlock(offsets, filters, bytes)
      && |handles| == |groups| && FiltersFor(policy.value, offsets, filters, handles, groups)
  }

  function HandlesIn(blocks: seq<DataBlock>): (r: seq<BlockHandle>)
    ensures |r| == |blocks| && forall i :: 0 <= i < |r| ==> r[i] == blocks[i].handle
  {
    seq(|blocks|, i requires 0 <= i < |blocks| => blocks[i].handle)
  }

  /** The finished file holds the contents, with a readable index and filter. */
  ghost predicate OnDisk(crc: Checksum, f: Finished, c: Contents, policy: Option<FilterPolicy>, indexBytes: Bytes,
                         filterBytes: Bytes) {
    && Sound(c, crc, f.file) && Footed(crc, f, policy)
    && Stored(crc, f.file, f.indexHandle, indexBytes) && IsBlock(c.index, c.indexRestarts, indexBytes)
    && FilterOn(crc, f.file, f.filterHandle, policy, filterBytes, c.filterOffsets, c.filters, HandlesIn(c.blocks),
                c.groups)
  }

  /** The fields of a builder, but for the file, after `h`. */
  ghost predicate Tracks(h: History, handles: seq<BlockHandle>, groups: seq<seq<KeyValue>>, dataBlock: seq<KeyValue>,
                         indexBlock: seq<KeyValue>,
                         lastKey: Bytes, pending: bool, pendingHandle: BlockHandle) {
    && handles == HandlesOf(h) && groups == GroupsOf(h) && dataBlock == TailOf(h) && indexBlock == IndexOf(h)
    && lastKey == LastKeyOf(h) && pending == h.Block? && (h.Block? ==> pendingHandle == h.b.handle)
  }

  lemma TracksBlock(h: History, b: DataBlock, handles: seq<BlockHandle>, groups: seq<seq<KeyValue>>,
                    dataBlock: seq<KeyValue>, indexBlock: seq<KeyValue>,
                    lastKey: Bytes, pending: bool, pendingHandle: BlockHandle)
    requires Tracks(h, handles, groups, dataBlock, indexBlock, lastKey, pending, pendingHandle)
    ensures Tracks(Block(h, b), handles + [b.handle], groups + [dataBlock], [], indexBlock, lastKey, true, b.handle)
  {
  }

  lemma TracksKey(h: History, kv: KeyValue, sep: Bytes, handles: seq<BlockHandle>, groups: seq<seq<KeyValue>>,
                  dataBlock: seq<KeyValue>, indexBlock: seq<KeyValue>,
                  lastKey: Bytes, pending: bool, pendingHandle: BlockHandle)
    requires Tracks(h, handles, groups, dataBlock, indexBlock, lastKey, pending, pendingHandle)
    ensures Tracks(Key(h, kv, sep), handles, groups, dataBlock + [kv],
                   if pending then indexBlock + [KeyValue(sep, EncodeHandle(pendingHandle))] else indexBlock,
                   kv.key, false, pendingHandle)
  {
  }

  /** The filters of so many keys stay below 4 GB. */
  ghost predicate FilterFits(policy: Option<FilterPolicy>, entries: seq<KeyValue>) {
    policy.Some? ==> FiltersBound(|entries|, policy.value.bitsPerKey) < TWO_32 && |policy.value.name| + 54 < TWO_32
  }

  /** The table builder.  The data block, the index block and the filter are kept as what has been
      handed to their builders, which are run when the bytes are needed. */
  class TableBuilder {
    const crc: Checksum
    const blockSize: nat
    const restartInterval: nat
    var file: Bytes
    var dataBlock: seq<KeyValue>
    var indexBlock: seq<KeyValue>
    var lastKey: Bytes
    var closed: bool
    var failed: bool      // something outgrew the offsets that should describe it
    var pendingIndexEntry: bool
    var pendingHandle: BlockHandle
    var handles: seq<BlockHandle>      // where StartBlock was called, and the keys added after it
    var groups: seq<seq<KeyValue>>
    ghost var h: History

    ghost predicate Ok()
      reads this
    {
      restartInterval >= 1 && (!failed ==>
        && Proper(crc, h) && Compact(h) && file == FileOf(crc, h)
        && Tracks(h, handles, groups, dataBlock, indexBlock, lastKey, pendingIndexEntry, pendingHandle))
    }

    ghost function Added(): seq<KeyValue>
      reads this
    {
      AddedOf(h)
    }

    constructor (crc: Checksum, blockSize: nat, restartInterval: nat)
      requires restartInterval >= 1
      ensures Ok() && !closed && !failed && Added() == [] && this.crc == crc
    {
      this.crc, this.blockSize, this.restartInterval := crc, blockSize, restartInterval;
      file, dataBlock, indexBlock, lastKey, closed, failed := [], [], [], [], false, false;
      pendingIndexEntry, pendingHandle, handles, groups, h := false, BlockHandle(0, 0), [], [], Empty;
    }

    /** Keys must come in increasing order.  The block ends as soon as it has the size asked for. */
    method Add(key: Bytes, value: Bytes)
      requires Ok() && !closed && (Added() != [] ==> InternalLess(LastOf(Added()).key, key))
      modifies this
      ensures Ok() && !closed && (!failed ==> Added() == old(Added()) + [KeyValue(key, value)])
      ensures !old(failed) && Small(old(Added()) + [KeyValue(key, value)]) ==> !failed
      ensures !failed && blockSize <= TWO_32 ==>
        var block := old(dataBlock) + [KeyValue(key, value)];
        if BlockSize(block, restartInterval) >= blockSize then groups == old(groups) + [block] && dataBlock == []
        else groups == old(groups) && dataBlock == block
    {
      if failed { return; }
      AddToBlock(key, value);
      var estimatedBlockSize := EstimatedSize(dataBlock, restartInterval);
      if estimatedBlockSize >= blockSize {
        Flush();
      }
    }

    /** Appends a block and its trailer; false if the file outgrows 64-bit offsets. */
    method WriteRawBlock(contents: Bytes) returns (ok: bool, handle: BlockHandle)
      modifies this`file
      ensures ok <==> |old(file)| + |contents| + BLOCK_TRAILER_SIZE < TWO_64
      ensures ok ==> file == old(file) + (contents + Trailer(crc, contents))
      ensures ok ==> handle == BlockHandle(|old(file)|, |contents|) && Stored(crc, file, handle, contents)
      ensures !ok ==> file == old(file)
    {
      handle := BlockHandle(|file|, |contents|);
      ok := |file| + |contents| + BLOCK_TRAILER_SIZE < TWO_64;
      if ok {
        AppendedIsStored(crc, file, contents);
        assert file + contents + Trailer(crc, contents) == file + (contents + Trailer(crc, contents));
        file := file + contents + Trailer(crc, contents);
      }
    }

    method Flush()
      requires Ok() && !closed
      modifies this
      ensures Ok() && !closed && Added() == old(Added())
      ensures !failed ==>
        dataBlock == [] && groups == old(groups) + if old(dataBlock) == [] then [] else [old(dataBlock)]
      ensures old(failed) ==> failed
      ensures !old(failed) && Small(Added()) ==> !failed
    {
      if failed || dataBlock == [] { return; }
      HistorySize(crc, h);
      ghost var b;
      var ok, handle;
      ok, handle, b := WriteDataBlock();
      if !ok { failed := true; return; }
      NoteBlock(handle, b);
    }

    /** A block is on file: its index entry is pending, and the filter starts another block. */
    method NoteBlock(handle: BlockHandle, ghost b: DataBlock)
      requires restartInterval >= 1 && !failed && Proper(crc, h) && Compact(h) && dataBlock != []
      requires Tracks(h, handles, groups, dataBlock, indexBlock, lastKey, pendingIndexEntry, pendingHandle)
      requires Written(crc, FileOf(crc, h), file, dataBlock, b) && b.handle == handle && |b.bytes| <= Sized(dataBlock)
      requires file == FileOf(crc, h) + (b.bytes + Trailer(crc, b.bytes))
      modifies this
      ensures Ok() && !failed && Added() == old(Added()) && dataBlock == [] && closed == old(closed)
        && groups == old(groups) + [old(dataBlock)]
    {
      BlockIsProper(crc, h, b);
      TracksBlock(h, b, handles, groups, dataBlock, indexBlock, lastKey, pendingIndexEntry, pendingHandle);
      h := Block(h, b);
      pendingHandle, pendingIndexEntry := handle, true;
      handles, groups, dataBlock := handles + [handle], groups + [dataBlock], [];
    }

    /** WriteBlock on the data block. */
    method WriteDataBlock() returns (ok: bool, handle: BlockHandle, ghost b: DataBlock)
      requires restartInterval >= 1
      modifies this`file
      ensures ok ==> Written(crc, old(file), file, dataBlock, b) && b.handle == handle
      ensures ok ==> file == old(file) + (b.bytes + Trailer(crc, b.bytes))
      ensures ok ==> |b.bytes| <= Sized(dataBlock)
      ensures |old(file)| + Sized(dataBlock) < TWO_32 ==> ok
    {
      ghost var bytes, layout, restarts;
      ok, handle, bytes, layout, restarts := WriteBlock(dataBlock, restartInterval);
      b := DataBlock(layout, restarts, bytes, handle);
    }

    /** Builds a block of the entries and writes it. */
    method WriteBlock(entries: seq<KeyValue>, interval: nat)
      returns (ok: bool, handle: BlockHandle, ghost bytes: Bytes, ghost layout: Layout, ghost restarts: seq<Uint32>)
      requires interval >= 1
      modifies this`file
      ensures ok ==>
        && file == old(file) + (bytes + Trailer(crc, bytes)) && Stored(crc, file, handle, bytes)
        && handle == BlockHandle(|old(file)|, |bytes|)
        && IsBlock(layout, restarts, bytes) && layout.entries == entries && |bytes| < TWO_32
        && |bytes| <= SizeBound(entries, |entries|)
      ensures !ok ==> file == old(file)
      ensures SizeBound(entries, |entries|) < TWO_32 && |old(file)| < 8 * TWO_32 ==> ok
    {
      var data;
      data, layout, restarts := BuildBlock(entries, interval);
      ok, handle, bytes := false, BlockHandle(0, 0), [];
      if data.Some? {
        bytes := data.value;
        ok, handle := WriteRawBlock(data.value);
      }
    }

    method WriteFilter(policy: Option<FilterPolicy>)
      returns (ok: bool, handle: Option<BlockHandle>, ghost bytes: Bytes, ghost offsets: seq<nat>, ghost filters: Bytes)
      requires Ok() && !failed && (policy.Some? ==> 1 <= policy.value.probes <= 30)
      modifies this`file
      ensures old(file) <= file
      ensures FilterOn(crc, file, handle, policy, bytes, offsets, filters, HandlesOf(h), GroupsOf(h))
      ensures dataBlock == [] && |old(file)| < TWO_32 && FilterFits(policy, Added()) ==> ok
      ensures |file| <= 2 * |old(file)| + 2 * TWO_32 && (ok ==> (handle.Some? <==> policy.Some?))
    {
      handle, ok, bytes, offsets, filters := None, true, [], [], [];
      if policy.Some? {
        HistoryBacked(crc, h);
        HistoryPlaced(crc, h);
        HistoryAscends(crc, h);
        var contents;
        contents, offsets, filters := BuildFilter(policy.value, handles, groups, |file|);
        if contents.None? { ok := false; return; }
        bytes := contents.value;
        var written, at := WriteRawBlock(contents.value);
        ok := written;
        handle := if written then Some(at) else None;
      }
    }

    method AddToBlock(key: Bytes, value: Bytes)
      requires Ok() && !closed && !failed && (Added() != [] ==> InternalLess(LastOf(Added()).key, key))
      modifies this
      ensures Ok() && !closed && !failed && !pendingIndexEntry && Added() == old(Added()) + [KeyValue(key, value)]
        && dataBlock == old(dataBlock) + [KeyValue(key, value)] && groups == old(groups)
    {
      LastKeyIsLast(h);
      ghost var before := indexBlock;
      var sep := [];
      if pendingIndexEntry {
        LastKeyIsLast(h.prev);
        sep := InternalSeparator(lastKey, key);
        indexBlock := indexBlock + [KeyValue(sep, EncodeHandle(pendingHandle))];
      }
      NoteKey(key, value, sep, before);
    }

    method NoteKey(key: Bytes, value: Bytes, ghost sep: Bytes, ghost before: seq<KeyValue>)
      requires restartInterval >= 1 && !failed && Proper(crc, h) && Compact(h) && file == FileOf(crc, h)
      requires Tracks(h, handles, groups, dataBlock, before, lastKey, pendingIndexEntry, pendingHandle)
      requires indexBlock == if pendingIndexEntry then before + [KeyValue(sep, EncodeHandle(pendingHandle))] else before
      requires AddedOf(h) != [] ==> InternalLess(LastKeyOf(h), key)
      requires h.Block? ==> GoodSeparator(LastKeyOf(h), sep, key) && |sep| <= |LastKeyOf(h)| + 8
      modifies this
      ensures Ok() && !failed && closed == old(closed) && !pendingIndexEntry
        && Added() == old(Added()) + [KeyValue(key, value)]
        && dataBlock == old(dataBlock) + [KeyValue(key, value)] && groups == old(groups)
    {
      KeyIsProper(crc, h, KeyValue(key, value), sep);
      TracksKey(h, KeyValue(key, value), sep, handles, groups, dataBlock, before, lastKey, pendingIndexEntry,
          pendingHandle);
      pendingIndexEntry := false;
      lastKey := key;
      dataBlock := dataBlock + [KeyValue(key, value)];
      h := Key(h, KeyValue(key, value), sep);
    }

    /** Finish: the last block, the filter block, the metaindex, the index block and the footer. */
    method Finish(policy: Option<FilterPolicy>)
      returns (r: Option<Bytes>, ghost f: Finished, ghost c: Contents, ghost indexBytes: Bytes,
               ghost filterBytes: Bytes)
      requires Ok() && !closed && (policy.Some? ==> 1 <= policy.value.probes <= 30)
      modifies this
      ensures closed
      ensures r.Some? ==>
        r.value == f.file && OnDisk(crc, f, c, policy, indexBytes, filterBytes) && Flat(c.groups) == old(Added())
      ensures r.Some? ==> c.groups == old(groups) + if old(dataBlock) == [] then [] else [old(dataBlock)]
      ensures !old(failed) && Small(old(Added())) && FilterFits(policy, old(Added())) ==> r.Some?
    {
      Flush();
      closed := true;
      c, indexBytes, filterBytes := Contents(Layout([], [], []), [], [], [], [], []), [], [];
      f := Finished(file, BlockHandle(0, 0), BlockHandle(0, 0), None);
      r := None;
      if !failed {
        ghost var fits, withFilter := Small(Added()) && FilterFits(policy, Added()), file;
        if fits { FinalSizes(crc, h); }
        r, f, c, indexBytes, filterBytes, withFilter := FinishBlocks(policy, fits);
        if r.Some? { FinishedOnDisk(crc, h, c, withFilter, f, policy, indexBytes, filterBytes); }
      }
    }

    method FinishBlocks(policy: Option<FilterPolicy>, ghost fits: bool)
      returns (r: Option<Bytes>, ghost f: Finished, ghost c: Contents, ghost indexBytes: Bytes,
               ghost filterBytes: Bytes, ghost withFilter: Bytes)
      requires Ok() && !failed && dataBlock == [] && (policy.Some? ==> 1 <= policy.value.probes <= 30)
      requires fits ==>
        && |file| < TWO_32 && FilterFits(policy, Added()) && Sized(IndexOf(h)) + |LastKeyOf(h)| + 47 < TWO_32
        && (h.Block? ==> |EncodeHandle(h.b.handle)| <= 20)
      modifies this
      ensures closed == old(closed) && h == old(h) && (fits ==> r.Some?)
      ensures r.Some? ==>
        && r.value == f.file && old(file) <= withFilter <= f.file && Footed(crc, f, policy)
        && c.blocks == BlocksOf(h) && c.groups == GroupsOf(h) && FinalIndex(h, c.index.entries)
        && Stored(crc, f.file, f.indexHandle, indexBytes) && IsBlock(c.index, c.indexRestarts, indexBytes)
      ensures r.Some? ==>
        FilterOn(crc, withFilter, f.filterHandle, policy, filterBytes, c.filterOffsets, c.filters, HandlesOf(h),
                 GroupsOf(h))
    {
      r, f, withFilter := None, Finished(file, BlockHandle(0, 0), BlockHandle(0, 0), None), file;
      c, indexBytes := Contents(Layout([], [], []), [], [], [], [], []), [];
      var ok, filterHandle;
      ghost var offsets, filters;
      ok, filterHandle, filterBytes, offsets, filters := WriteFilter(policy);
      if ok {
        withFilter := file;
        ghost var layout, restarts;
        ok, f, indexBytes, layout, restarts := WriteMetaIndexAndFooter(policy, filterHandle);
        c := Contents(layout, restarts, BlocksOf(h), GroupsOf(h), offsets, filters);
        r := if ok then Some(file) else None;
      }
    }

    method WriteMetaIndexAndFooter(policy: Option<FilterPolicy>, filterHandle: Option<BlockHandle>)
      returns (ok: bool, ghost f: Finished, ghost bytes: Bytes, ghost layout: Layout, ghost restarts: seq<Uint32>)
      requires restartInterval >= 1 && (policy.Some? <==> filterHandle.Some?)
      requires pendingIndexEntry == h.Block? && indexBlock == IndexOf(h) && lastKey == LastKeyOf(h)
        && (h.Block? ==> pendingHandle == h.b.handle)
      modifies this
      ensures h == old(h) && closed == old(closed) && old(file) <= file
      ensures ok ==>
        && f.file == file && f.filterHandle == filterHandle && Footed(crc, f, policy)
        && Stored(crc, f.file, f.indexHandle, bytes) && IsBlock(layout, restarts, bytes)
        && FinalIndex(h, layout.entries)
      ensures (Sized(IndexOf(h)) + |LastKeyOf(h)| + 47 < TWO_32 && |old(file)| < 4 * TWO_32
               && (filterHandle.Some? ==> HandleOk(filterHandle.value))
               && (policy.Some? ==> |policy.value.name| + 54 < TWO_32)
               && (h.Block? ==> |EncodeHandle(h.b.handle)| <= 20)) ==> ok
    {
      var metaHandle;
      f := Finished(file, BlockHandle(0, 0), BlockHandle(0, 0), None);
      bytes, layout, restarts := [], Layout([], [], []), [];
      ok, metaHandle := WriteMetaindex(policy, filterHandle);
      if ok {
        ok, f, bytes, layout, restarts := WriteIndexAndFooter(policy, filterHandle, metaHandle);
      }
    }

    method WriteIndexAndFooter(policy: Option<FilterPolicy>, filterHandle: Option<BlockHandle>, metaHandle: BlockHandle)
      returns (ok: bool, ghost f: Finished, ghost bytes: Bytes, ghost layout: Layout, ghost restarts: seq<Uint32>)
      requires pendingIndexEntry == h.Block? && indexBlock == IndexOf(h) && lastKey == LastKeyOf(h)
        && (h.Block? ==> pendingHandle == h.b.handle)
      modifies this
      ensures h == old(h) && closed == old(closed) && old(file) <= file
      ensures (ok && MetaOn(crc, old(file), metaHandle, MetaEntries(policy, filterHandle))
               && (policy.Some? <==> filterHandle.Some?)) ==> Footed(crc, f, policy)
      ensures ok ==>
        && f.file == file && f.filterHandle == filterHandle
        && Stored(crc, f.file, f.indexHandle, bytes) && IsBlock(layout, restarts, bytes)
        && FinalIndex(h, layout.entries)
      ensures (Sized(IndexOf(h)) + |LastKeyOf(h)| + 47 < TWO_32 && |old(file)| < 6 * TWO_32 && HandleOk(metaHandle)
               && (h.Block? ==> |EncodeHandle(h.b.handle)| <= 20)) ==> ok
    {
      ghost var withMeta := file;
      var indexHandle;
      ok, indexHandle, bytes, layout, restarts := WriteIndex();
      f := Finished(file, metaHandle, indexHandle, filterHandle);
      if !ok { return; }
      ghost var withIndex := file;
      ok := WriteFooter(metaHandle, indexHandle);
      f := Finished(file, metaHandle, indexHandle, filterHandle);
      if ok { FooterLast(crc, f, policy, withMeta, withIndex, bytes); }
    }

    method WriteMetaindex(policy: Option<FilterPolicy>, filterHandle: Option<BlockHandle>)
      returns (ok: bool, handle: BlockHandle)
      requires restartInterval >= 1
      modifies this`file
      ensures old(file) <= file && |file| < |old(file)| + TWO_32 + BLOCK_TRAILER_SIZE
      ensures ok ==> MetaOn(crc, file, handle, MetaEntries(policy, filterHandle)) && HandleOk(handle)
      ensures ((filterHandle.Some? ==> HandleOk(filterHandle.value)) && |old(file)| < 4 * TWO_32
               && (policy.Some? ==> |policy.value.name| + 54 < TWO_32)) ==> ok
    {
      var entries := MetaEntries(policy, filterHandle);
      if filterHandle.Some? && HandleOk(filterHandle.value) { HandleRoundTrip(filterHandle.value); }
      MetaSize(entries);
      ghost var bytes, layout, restarts;
      ok, handle, bytes, layout, restarts := WriteBlock(entries, restartInterval);
    }

    method WriteFooter(metaHandle: BlockHandle, indexHandle: BlockHandle) returns (ok: bool)
      modifies this`file
      ensures ok <==> HandleOk(metaHandle) && HandleOk(indexHandle) && |old(file)| + FOOTER_SIZE < TWO_64
      ensures ok ==>
        && |EncodeHandle(metaHandle)| <= 20 && |EncodeHandle(indexHandle)| <= 20
        && file == old(file) + Footer(metaHandle, indexHandle)
      ensures !ok ==> file == old(file)
    {
      ok := HandleOk(metaHandle) && HandleOk(indexHandle) && |file| + FOOTER_SIZE < TWO_64;
      if ok {
        HandleRoundTrip(metaHandle);
        HandleRoundTrip(indexHandle);
        file := file + Footer(metaHandle, indexHandle);
      }
    }

    method WriteIndex()
      returns (ok: bool, handle: BlockHandle, ghost bytes: Bytes, ghost layout: Layout, ghost restarts: seq<Uint32>)
      requires pendingIndexEntry == h.Block? && indexBlock == IndexOf(h) && lastKey == LastKeyOf(h)
        && (h.Block? ==> pendingHandle == h.b.handle)
      modifies this
      ensures h == old(h) && closed == old(closed) && old(file) <= file
      ensures ok ==>
          Stored(crc, file, handle, bytes) && IsBlock(layout, restarts, bytes) && FinalIndex(h, layout.entries)
      ensures (Sized(IndexOf(h)) + |LastKeyOf(h)| + 47 < TWO_32 && |old(file)| < 6 * TWO_32
               && (h.Block? ==> |EncodeHandle(h.b.handle)| <= 20)) ==> ok && |file| < 8 * TWO_32 && HandleOk(handle)
    {
      if pendingIndexEntry {
        lastKey := InternalSuccessor(lastKey);
        SizedSnoc(indexBlock, KeyValue(lastKey, EncodeHandle(pendingHandle)));
        indexBlock := indexBlock + [KeyValue(lastKey, EncodeHandle(pendingHandle))];
        pendingIndexEntry := false;
      }
      ok, handle, bytes, layout, restarts := WriteBlock(indexBlock, 1);
    }
  }

  lemma MetaSize(entries: seq<KeyValue>)
    requires |entries| <= 1
    ensures Sized(entries) == 8 + if entries == [] then 0 else |entries[0].key| + |entries[0].value| + 19
  {
    if entries != [] {
      assert SizeBound(entries, 1) == SizeBound(entries, 0) + |entries[0].key| + |entries[0].value| + 19;
    }
  }

  /** With the footer at its end the file can be read from there. */
  lemma FooterLast(crc: Checksum, f: Finished, policy: Option<FilterPolicy>, withMeta: Bytes, withIndex: Bytes,
                   indexBytes: Bytes)
    requires HandleOk(f.metaHandle) && HandleOk(f.indexHandle) && |EncodeHandle(f.metaHandle)| <= 20
      && |EncodeHandle(f.indexHandle)| <= 20 && f.file == withIndex + Footer(f.metaHandle, f.indexHandle)
    requires withMeta <= withIndex && |f.file| < TWO_64 && Stored(crc, withIndex, f.indexHandle, indexBytes)
    ensures Stored(crc, f.file, f.indexHandle, indexBytes) && withIndex <= f.file
    ensures (MetaOn(crc, withMeta, f.metaHandle, MetaEntries(policy, f.filterHandle))
             && (policy.Some? <==> f.filterHandle.Some?)) ==> Footed(crc, f, policy)
  {
    if MetaOn(crc, withMeta, f.metaHandle, MetaEntries(policy, f.filterHandle)) {
      MetaStays(crc, withMeta, f.metaHandle, MetaEntries(policy, f.filterHandle), f.file);
    }
    StoredStays(crc, withIndex, f.indexHandle, indexBytes, Footer(f.metaHandle, f.indexHandle));
    assert f.file[|withIndex|..] == Footer(f.metaHandle, f.indexHandle);
  }

  lemma FinishedOnDisk(crc: Checksum, h: History, c: Contents, withFilter: Bytes, f: Finished,
                       policy: Option<FilterPolicy>, indexBytes: Bytes, filterBytes: Bytes)
    requires Proper(crc, h) && TailOf(h) == [] && FileOf(crc, h) <= withFilter <= f.file
    requires c.blocks == BlocksOf(h) && c.groups == GroupsOf(h) && FinalIndex(h, c.index.entries)
    requires Stored(crc, f.file, f.indexHandle, indexBytes) && IsBlock(c.index, c.indexRestarts, indexBytes)
    requires Footed(crc, f, policy)
    requires FilterOn(crc, withFilter, f.filterHandle, policy, filterBytes, c.filterOffsets, c.filters, HandlesOf(h),
                      GroupsOf(h))
    ensures OnDisk(crc, f, c, policy, indexBytes, filterBytes) && Flat(c.groups) == AddedOf(h)
  {
    FinishedIsSound(crc, h, c, f.file);
    FilterStays(crc, h, c, withFilter, f.file, f.filterHandle, policy, filterBytes);
  }

  lemma FilterStays(crc: Checksum, h: History, c: Contents, file: Bytes, file': Bytes, handle: Option<BlockHandle>,
                    policy: Option<FilterPolicy>, bytes: Bytes)
    requires Proper(crc, h) && file <= file' && |file'| < TWO_64 && c.blocks == BlocksOf(h) && c.groups == GroupsOf(h)
    requires FilterOn(crc, file, handle, policy, bytes, c.filterOffsets, c.filters, HandlesOf(h), GroupsOf(h))
    ensures FilterOn(crc, file', handle, policy, bytes, c.filterOffsets, c.filters, HandlesIn(c.blocks), c.groups)
  {
    HistoryBacked(crc, h);
    assert HandlesIn(c.blocks) == HandlesOf(h);
    FilterOnStays(crc, file, file', handle, policy, bytes, c.filterOffsets, c.filters, HandlesIn(c.blocks), c.groups);
  }

  lemma FilterOnStays(crc: Checksum, file: Bytes, file': Bytes, handle: Option<BlockHandle>,
                      policy: Option<FilterPolicy>, bytes: Bytes, offsets: seq<nat>, filters: Bytes,
                      handles: seq<BlockHandle>, groups: seq<seq<KeyValue>>)
    requires file <= file' && |file'| < TWO_64
    requires FilterOn(crc, file, handle, policy, bytes, offsets, filters, handles, groups)
    ensures FilterOn(crc, file', handle, policy, bytes, offsets, filters, handles, groups)
  {
    if handle.Some? {
      assert file' == file + file'[|file|..];
      StoredStays(crc, file, handle.value, bytes, file'[|file|..]);
    }
  }
}
