/** Point lookups in a table (table/table.cc). */
module TableReader {
  import opened InternalKeys
  import opened ReadSpec
  import opened Coding
  import opened LogFormat
  import opened BlockFormat
  import opened BlockIters
  import opened Comparators
  import opened Bloom
  import opened FilterBlock
  import opened TableFormat

  /** What a table was built from. */
  datatype Contents = Contents(index: Layout, indexRestarts: seq<Uint32>,
                               blocks: seq<DataBlock>, groups: seq<seq<KeyValue>>,
                               filterOffsets: seq<nat>, filters: Bytes)

  ghost predicate InTable(c: Contents, a: KeyValue) {
    exists i :: 0 <= i < |c.groups| && a in c.groups[i]
  }

  /** `a` is the first entry of the table at or after `k`. */
  ghost predicate FirstAtOrAfter(c: Contents, k: Bytes, a: KeyValue) {
    && InTable(c, a) && !InternalLess(a.key, k)
    && forall b :: InTable(c, b) && !InternalLess(b.key, k) ==> !InternalLess(b.key, a.key)
  }

  ghost predicate Sound(c: Contents, crc: Checksum, file: Bytes) {
    && |c.index.entries| == |c.blocks| == |c.groups| && Layered(c.groups)
    && Backed(crc, file, c.blocks, c.groups) && Indexed(c.index.entries, c.blocks, c.groups)
  }

  lemma StrictInternal()
    ensures StrictOrder(InternalLess)
  {
    forall a, b, c ensures !InternalLess(a, a) && (InternalLess(a, b) && InternalLess(b, c) ==> InternalLess(a, c)) {
      InternalLessIsStrict(a, b, c);
    }
  }

  lemma IndexAscends(c: Contents, crc: Checksum, file: Bytes)
    requires Sound(c, crc, file)
    ensures Ascending(InternalLess, c.index.entries)
  {
    var index := c.index.entries;
    forall i, j | 0 <= i < j < |index| ensures InternalLess(index[i].key, index[j].key) {
      var b := c.groups[j][0];
      assert b in c.groups[j];
      assert Divides(index[i].key, c.groups[i], b);
      InternalWeak(index[i].key, b.key, index[j].key);
    }
  }

  /** Every entry of an earlier block lies before the key sought. */
  lemma EarlierBlocksAreBelow(c: Contents, crc: Checksum, file: Bytes, k: Bytes, i: nat, j: nat, a: KeyValue)
    requires Sound(c, crc, file) && IsSeekPosition(InternalLess, c.index.entries, k, i) && j < i && a in c.groups[j]
    ensures InternalLess(a.key, k)
  {
    InternalWeak(c.index.entries[j].key, k, a.key);
  }

  /** If a later block has the key sought, or an older entry of its user key, the block itself
      has an entry at or after it: only one block need be searched. */
  lemma LaterBlocksAreNotNeeded(c: Contents, crc: Checksum, file: Bytes, k: Bytes, i: nat, j: nat, b: KeyValue)
    requires Sound(c, crc, file) && IsSeekPosition(InternalLess, c.index.entries, k, i) && i < j < |c.groups|
      && b in c.groups[j]
    requires UserPart(b.key) == UserPart(k) && !InternalLess(b.key, k)
    ensures !InternalLess(c.groups[i][|c.groups[i]| - 1].key, k)
  {
    assert Divides(c.index.entries[i].key, c.groups[i], b);
  }

  lemma FoundIsLeast(groups: seq<seq<KeyValue>>, k: Bytes, i: nat, p: nat, j: nat, b: KeyValue)
    requires Layered(groups) && i <= j < |groups| && b in groups[j] && !InternalLess(b.key, k)
    requires IsSeekPosition(InternalLess, groups[i], k, p) && p < |groups[i]|
    ensures !InternalLess(b.key, groups[i][p].key)
  {
    var found: KeyValue := groups[i][p];
    InternalLessIsStrict(found.key, b.key, found.key);
    if j == i {
      var q :| 0 <= q < |groups[i]| && groups[i][q] == b;
      assert p < q ==> InternalLess(found.key, b.key);
    } else {
      assert found in groups[i];
    }
  }

  /** What a seek in block `i` finds is the first entry of the whole table at or after `k`. */
  lemma FoundIsFirst(c: Contents, crc: Checksum, file: Bytes, k: Bytes, i: nat, p: nat)
    requires Sound(c, crc, file) && IsSeekPosition(InternalLess, c.index.entries, k, i) && i < |c.groups|
    requires IsSeekPosition(InternalLess, c.groups[i], k, p) && p < |c.groups[i]|
    ensures FirstAtOrAfter(c, k, c.groups[i][p])
  {
    var groups: seq<seq<KeyValue>> := c.groups;
    var found: KeyValue := groups[i][p];
    assert found in groups[i] && !InternalLess(found.key, k);
    forall b | InTable(c, b) && !InternalLess(b.key, k) ensures !InternalLess(b.key, found.key) {
      var j: nat :| j < |groups| && b in groups[j];
      if j < i {
        EarlierBlocksAreBelow(c, crc, file, k, i, j, b);
      } else {
        FoundIsLeast(groups, k, i, p, j, b);
      }
    }
  }

  lemma SeekPositionIsOne(less: KeyOrder, entries: seq<KeyValue>, k: Bytes, i: nat, j: nat)
    requires IsSeekPosition(less, entries, k, i) && IsSeekPosition(less, entries, k, j)
    ensures i == j
  {
    assert i < |entries| ==> !less(entries[i].key, k);
    assert j < |entries| ==> !less(entries[j].key, k);
  }

  lemma LastDecides(group: seq<KeyValue>, k: Bytes, p: nat)
    requires IsSeekPosition(InternalLess, group, k, p) && group != []
    ensures p < |group| <==> !InternalLess(group[|group| - 1].key, k)
  {
  }

  /** The group has an entry of the user key of `k` at or after it. */
  ghost predicate HasAtOrAfter(group: seq<KeyValue>, k: Bytes) {
    exists a :: a in group && UserPart(a.key) == UserPart(k) && !InternalLess(a.key, k)
  }

  lemma SomeIsPast(group: seq<KeyValue>, k: Bytes)
    requires Ascending(InternalLess, group) && HasAtOrAfter(group, k)
    ensures group != [] && !InternalLess(group[|group| - 1].key, k)
  {
    var a :| a in group && UserPart(a.key) == UserPart(k) && !InternalLess(a.key, k);
    var last := group[|group| - 1];
    InternalLessIsStrict(a.key, last.key, k);
    assert a != last ==> InternalLess(a.key, last.key);
  }

  lemma LastServes(groups: seq<seq<KeyValue>>, k: Bytes, i: nat, j: nat, b: KeyValue)
    requires Layered(groups) && i < j < |groups| && b in groups[j] && groups[i] != []
    requires UserPart(b.key) == UserPart(k) && !InternalLess(groups[i][|groups[i]| - 1].key, k)
    ensures HasAtOrAfter(groups[i], k)
  {
    var last := groups[i][|groups[i]| - 1];
    assert last in groups[i];
    assert InternalLess(last.key, b.key);
    LessIsStrictOrder(UserPart(last.key), UserPart(k), UserPart(last.key));
  }

  /** If the seek finds nothing, the table has no entry of the user key at or after `k`. */
  lemma NothingMissed(c: Contents, crc: Checksum, file: Bytes, k: Bytes, i: nat, b: KeyValue)
    requires Sound(c, crc, file) && IsSeekPosition(InternalLess, c.index.entries, k, i)
    requires InTable(c, b) && UserPart(b.key) == UserPart(k) && !InternalLess(b.key, k)
    ensures i < |c.groups|
    ensures HasAtOrAfter(c.groups[i], k) && !InternalLess(c.groups[i][|c.groups[i]| - 1].key, k)
  {
    var j: nat :| j < |c.groups| && b in c.groups[j];
    BlockServes(c, crc, file, k, i, j, b);
  }

  lemma BlockServes(c: Contents, crc: Checksum, file: Bytes, k: Bytes, i: nat, j: nat, b: KeyValue)
    requires Sound(c, crc, file) && IsSeekPosition(InternalLess, c.index.entries, k, i) && j < |c.groups|
      && b in c.groups[j]
    requires UserPart(b.key) == UserPart(k) && !InternalLess(b.key, k)
    ensures i < |c.groups| && HasAtOrAfter(c.groups[i], k)
    ensures c.groups[i] != [] && !InternalLess(c.groups[i][|c.groups[i]| - 1].key, k)
  {
    if j < i {
      EarlierBlocksAreBelow(c, crc, file, k, i, j, b);
    } else if i < j {
      LaterBlocksAreNotNeeded(c, crc, file, k, i, j, b);
      LastServes(c.groups, k, i, j, b);
    } else {
      OneServes(c.groups[i], k, b);
    }
  }

  lemma OneServes(group: seq<KeyValue>, k: Bytes, b: KeyValue)
    requires b in group && UserPart(b.key) == UserPart(k) && !InternalLess(b.key, k) && Ascending(InternalLess, group)
    ensures HasAtOrAfter(group, k) && !InternalLess(group[|group| - 1].key, k)
  {
    SomeIsPast(group, k);
  }

  class Table {
    const crc: Checksum
    const file: Bytes
    const indexBlock: Bytes
    const filter: FilterBlockReader?

    constructor (crc: Checksum, file: Bytes, indexBlock: Bytes, filter: FilterBlockReader?)
      ensures this.crc == crc && this.file == file && this.indexBlock == indexBlock && this.filter == filter
    {
      this.crc, this.file, this.indexBlock, this.filter := crc, file, indexBlock, filter;
    }

    /** The table is one a builder finished with these contents. */
    ghost predicate Made(c: Contents)
      reads filter
    {
      && Sound(c, crc, file) && IsBlock(c.index, c.indexRestarts, indexBlock)
      && (filter != null ==>
            (filter.Reads(c.filterOffsets, c.filters) &&
             forall i, a :: 0 <= i < |c.groups| && a in c.groups[i] ==>
                 LetsThrough(filter.hash, c.filterOffsets, c.filters, c.blocks[i].handle.offset, a.key)))
    }

    /** Block `i` is read, as the filter lets the key through, and has an entry at or after it. */
    ghost predicate Answers(c: Contents, k: Bytes, i: nat)
      reads filter
      requires Made(c)
    {
      && i < |c.groups| && !InternalLess(c.groups[i][|c.groups[i]| - 1].key, k)
      && (filter != null ==>
            LetsThrough(filter.hash, c.filterOffsets, c.filters, c.blocks[i].handle.offset, k))
    }

    /** BlockReader, followed by Seek: the entry the block's iterator stops at. */
    method SeekInBlock(indexValue: Bytes, k: Bytes, verify: bool, ghost b: DataBlock) returns (found: Option<KeyValue>)
      ensures (IsBlock(b.layout, b.restarts, b.bytes) && Stored(crc, file, b.handle, b.bytes)
               && indexValue == EncodeHandle(b.handle) && Ascending(InternalLess, b.layout.entries)) ==>
        exists p :: IsSeekPosition(InternalLess, b.layout.entries, k, p) && found == EntryOf(b.layout.entries, p)
    {
      var handle := DecodeHandle(indexValue);
      if Stored(crc, file, b.handle, b.bytes) {
        HandleRoundTrip(b.handle);
        StoredReads(crc, file, b.handle, b.bytes, verify);
      }
      if handle.None? { return None; }
      var contents := ReadBlock(crc, file, verify, handle.value);
      if contents.None? { return None; }
      var iter := NewIterator(InternalLess, contents.value, b.layout, b.restarts);
      if iter.None? { return None; }
      StrictInternal();
      iter.value.Seek(k);
      found := if iter.value.Valid() then Some(KeyValue(iter.value.key, iter.value.Value())) else None;
    }

    /** The index entry a lookup of `k` leads to. */
    method SeekInIndex(k: Bytes, ghost c: Contents) returns (indexValue: Option<Bytes>)
      ensures IsBlock(c.index, c.indexRestarts, indexBlock) && Ascending(InternalLess, c.index.entries) ==>
        exists i :: IsSeekPosition(InternalLess, c.index.entries, k, i) && indexValue == ValueOf(c.index.entries, i)
    {
      var iiter := NewIterator(InternalLess, indexBlock, c.index, c.indexRestarts);
      if iiter.None? { return None; }
      StrictInternal();
      iiter.value.Seek(k);
      indexValue := if iiter.value.Valid() then Some(iiter.value.Value()) else None;
    }

    /** Delivers the first entry of the table at or after `k`, if any; and never misses when the
        table has an entry of the user key of `k` there.  Only the block the index leads to is searched,
        and only if its filter lets the key through. */
    method InternalGet(k: Bytes, verify: bool, ghost c: Contents) returns (found: Option<KeyValue>)
      requires filter != null ==> filter.InRange()
      ensures Made(c) && found.Some? ==> FirstAtOrAfter(c, k, found.value)
      ensures Made(c) ==>
        forall b :: InTable(c, b) && UserPart(b.key) == UserPart(k) && !InternalLess(b.key, k) ==> found.Some?
      ensures Made(c) ==>
        forall j :: IsSeekPosition(InternalLess, c.index.entries, k, j) ==> (found.Some? <==> Answers(c, k, j))
    {
      ghost var i;
      found, i := SearchBlock(k, verify, c);
      if Made(c) {
        forall j | IsSeekPosition(InternalLess, c.index.entries, k, j) ensures j == i {
          SeekPositionIsOne(InternalLess, c.index.entries, k, i, j);
        }
        forall b | InTable(c, b) && UserPart(b.key) == UserPart(k) && !InternalLess(b.key, k)
          ensures Answers(c, k, i)
        {
          AnswersForUserKey(c, k, i, b);
        }
      }
    }

    lemma AnswersForUserKey(c: Contents, k: Bytes, i: nat, b: KeyValue)
      requires Made(c) && IsSeekPosition(InternalLess, c.index.entries, k, i)
      requires InTable(c, b) && UserPart(b.key) == UserPart(k) && !InternalLess(b.key, k)
      ensures Answers(c, k, i)
    {
      NothingMissed(c, crc, file, k, i, b);
      BlockIsSpared(c, k, i);
    }

    lemma BlockIsSpared(c: Contents, k: Bytes, i: nat)
      requires Made(c) && i < |c.groups| && HasAtOrAfter(c.groups[i], k)
      ensures filter != null ==>
        LetsThrough(filter.hash, c.filterOffsets, c.filters, c.blocks[i].handle.offset, k)
    {
    }

    method SearchBlock(k: Bytes, verify: bool, ghost c: Contents) returns (found: Option<KeyValue>, ghost i: nat)
      requires filter != null ==> filter.InRange()
      ensures Made(c) ==>
        IsSeekPosition(InternalLess, c.index.entries, k, i) && (found.Some? <==> Answers(c, k, i))
      ensures Made(c) && found.Some? ==> FirstAtOrAfter(c, k, found.value)
    {
      found := None;
      if Made(c) { IndexAscends(c, crc, file); }
      var indexValue := SeekInIndex(k, c);
      i :| Made(c) ==>
          IsSeekPosition(InternalLess, c.index.entries, k, i) && indexValue == ValueOf(c.index.entries, i);
      if indexValue.None? { return; }
      ghost var b := if i < |c.blocks| then c.blocks[i] else DataBlock(c.index, [], [], BlockHandle(0, 0));
      found := SearchAt(indexValue.value, k, verify, c, b);
      if Made(c) { SearchedIsAnswer(c, k, i, found); }
    }

    /** What a search of the block of a handle comes to. */
    ghost predicate Searched(c: Contents, k: Bytes, b: DataBlock, found: Option<KeyValue>)
      reads filter
      requires filter != null ==> OffsetsOk(c.filterOffsets, c.filters)
    {
      if filter != null && !LetsThrough(filter.hash, c.filterOffsets, c.filters, b.handle.offset, k) then found == None
      else exists p :: IsSeekPosition(InternalLess, b.layout.entries, k, p) && found == EntryOf(b.layout.entries, p)
    }

    lemma SearchedIsAnswer(c: Contents, k: Bytes, i: nat, found: Option<KeyValue>)
      requires Made(c) && IsSeekPosition(InternalLess, c.index.entries, k, i) && i < |c.groups|
      requires Searched(c, k, c.blocks[i], found)
      ensures found.Some? <==> Answers(c, k, i)
      ensures found.Some? ==> FirstAtOrAfter(c, k, found.value)
    {
      if filter == null || LetsThrough(filter.hash, c.filterOffsets, c.filters, c.blocks[i].handle.offset, k) {
        var p: nat :| IsSeekPosition(InternalLess, c.groups[i], k, p) && found == EntryOf(c.groups[i], p);
        LastDecides(c.groups[i], k, p);
        if p < |c.groups[i]| { FoundIsFirst(c, crc, file, k, i, p); }
      }
    }

    method SearchAt(indexValue: Bytes, k: Bytes, verify: bool, ghost c: Contents, ghost b: DataBlock)
      returns (found: Option<KeyValue>)
      requires filter != null ==> filter.InRange()
      ensures ((filter != null ==> filter.Reads(c.filterOffsets, c.filters)) && Stored(crc, file, b.handle, b.bytes)
               && IsBlock(b.layout, b.restarts, b.bytes) && indexValue == EncodeHandle(b.handle)
               && Ascending(InternalLess, b.layout.entries)) ==>
        Searched(c, k, b, found)
    {
      found := None;
      var mayMatch := MayHold(indexValue, k, c, b.handle);
      if mayMatch {
        found := SeekInBlock(indexValue, k, verify, b);
      }
    }

    /** The filter's word on the block; without one, or with a damaged handle, it may hold the key. */
    method MayHold(indexValue: Bytes, k: Bytes, ghost c: Contents, ghost at: BlockHandle) returns (r: bool)
      requires filter != null ==> filter.InRange()
      ensures ((filter != null ==> filter.Reads(c.filterOffsets, c.filters)) && HandleOk(at)
               && indexValue == EncodeHandle(at)) ==>
        (r <==> filter != null ==> LetsThrough(filter.hash, c.filterOffsets, c.filters, at.offset, k))
    {
      r := true;
      var handle := DecodeHandle(indexValue);
      if HandleOk(at) { HandleRoundTrip(at); }
      if filter != null && handle.Some? {
        r := filter.KeyMayMatch(handle.value.offset, k, c.filterOffsets, c.filters);
      }
    }
  }

  function ValueOf(entries: seq<KeyValue>, p: nat): Option<Bytes> {
    if p < |entries| then Some(entries[p].value) else None
  }

  function EntryOf(entries: seq<KeyValue>, p: nat): Option<KeyValue> {
    if p < |entries| then Some(entries[p]) else None
  }
}
