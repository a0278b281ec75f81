/** A table built, opened and searched (table/table_builder.cc, table/table.cc). */
module TableLookup {
  import opened InternalKeys
  import opened ReadSpec
  import opened Coding
  import opened LogFormat
  import opened BlockFormat
  import opened BlockIters
  import opened Comparators
  import opened FilterBlock
  import opened TableFormat
  import opened TableReader
  import opened TableBuilders

  lemma StrictBytes()
    ensures StrictOrder(BytewiseLess)
  {
    forall a, b, c ensures !BytewiseLess(a, a) && (BytewiseLess(a, b) && BytewiseLess(b, c) ==> BytewiseLess(a, c)) {
      LessIsStrictOrder(a, b, c);
    }
  }

  /** The value the metaindex has under a key. */
  method SeekInMetaindex(contents: Bytes, key: Bytes, ghost layout: Layout, ghost restarts: seq<Uint32>)
    returns (value: Option<Bytes>)
    ensures forall v :: IsBlock(layout, restarts, contents) && layout.entries == [KeyValue(key, v)] ==> value == Some(v)
  {
    var iter := NewIterator(BytewiseLess, contents, layout, restarts);
    if iter.None? { return None; }
    StrictBytes();
    iter.value.Seek(key);
    value := if iter.value.Valid() && iter.value.key == key then Some(iter.value.Value()) else None;
  }

  /** ReadMeta and ReadFilter: a filter that cannot be found or read is done without. */
  method ReadMeta(crc: Checksum, file: Bytes, metaHandle: BlockHandle, policy: Option<FilterPolicy>, verify: bool,
                  ghost filterHandle: Option<BlockHandle>, ghost offsets: seq<nat>, ghost filters: Bytes,
                  ghost filterBytes: Bytes)
    returns (filter: FilterBlockReader?)
    ensures filter != null ==> fresh(filter) && filter.InRange() && policy.Some? && filter.hash == policy.value.hash
    ensures (filter != null && policy.Some? && filterHandle.Some?
             && MetaOn(crc, file, metaHandle, MetaEntries(policy, filterHandle))
             && Stored(crc, file, filterHandle.value, filterBytes) && IsFilterBlock(offsets, filters, filterBytes)) ==>
      filter.Reads(offsets, filters)
    ensures (policy.Some? && filterHandle.Some? && MetaOn(crc, file, metaHandle, MetaEntries(policy, filterHandle))
             && Stored(crc, file, filterHandle.value, filterBytes)) ==> filter != null
  {
    filter := null;
    if policy.None? { return; }
    ghost var layout, restarts, bytes := Layout([], [], []), [], [];
    ghost var on := MetaOn(crc, file, metaHandle, MetaEntries(policy, filterHandle)) && filterHandle.Some?
      && Stored(crc, file, filterHandle.value, filterBytes);
    if on {
      layout, restarts, bytes :| IsBlock(layout, restarts, bytes) && Stored(crc, file, metaHandle, bytes)
        && layout.entries == MetaEntries(policy, filterHandle);
      StoredReads(crc, file, metaHandle, bytes, verify);
      StoredReads(crc, file, filterHandle.value, filterBytes, verify);
      HandleRoundTrip(filterHandle.value);
    }
    var meta := ReadBlock(crc, file, verify, metaHandle);
    if meta.None? { return; }
    var value := SeekInMetaindex(meta.value, FilterKey(policy.value.name), layout, restarts);
    if value.None? { return; }
    var handle := DecodeHandle(value.value);
    if handle.None? { return; }
    var contents := ReadBlock(crc, file, verify, handle.value);
    if contents.None? { return; }
    filter := new FilterBlockReader(policy.value.hash, contents.value, offsets, filters);
  }

  lemma FooterLeads(crc: Checksum, f: Finished, policy: Option<FilterPolicy>, indexBytes: Bytes, verify: bool)
    requires Footed(crc, f, policy) && Stored(crc, f.file, f.indexHandle, indexBytes)
    ensures |f.file| >= FOOTER_SIZE
      && DecodeFooter(f.file[|f.file| - FOOTER_SIZE..]) == Some(Handles(f.metaHandle, f.indexHandle))
      && ReadBlock(crc, f.file, verify, f.indexHandle) == Some(indexBytes)
  {
    FooterRoundTrip(f.metaHandle, f.indexHandle);
    StoredReads(crc, f.file, f.indexHandle, indexBytes, verify);
  }

  lemma FilterSpares(crc: Checksum, f: Finished, c: Contents, policy: Option<FilterPolicy>, indexBytes: Bytes,
                     filterBytes: Bytes)
    requires OnDisk(crc, f, c, policy, indexBytes, filterBytes)
    ensures policy.Some? ==> forall i, a :: 0 <= i < |c.groups| && a in c.groups[i] ==>
      LetsThrough(policy.value.hash, c.filterOffsets, c.filters, c.blocks[i].handle.offset, a.key)
  {
    if policy.Some? {
      var handles := HandlesIn(c.blocks);
      FiltersSpareTheirKeys(policy.value, c.filterOffsets, c.filters, handles, c.groups);
      forall i, a | 0 <= i < |c.groups| && a in c.groups[i]
        ensures LetsThrough(policy.value.hash, c.filterOffsets, c.filters, c.blocks[i].handle.offset, a.key)
      {
        assert handles[i] == c.blocks[i].handle;
      }
    }
  }

  /** Table::Open, from the bytes of the file alone. */
  method Open(crc: Checksum, file: Bytes, policy: Option<FilterPolicy>, verify: bool, ghost f: Finished,
              ghost c: Contents, ghost indexBytes: Bytes, ghost filterBytes: Bytes)
    returns (t: Option<Table>)
    ensures t.Some? ==>
      t.value.crc == crc && t.value.file == file && (t.value.filter != null ==> t.value.filter.InRange())
    ensures file == f.file && OnDisk(crc, f, c, policy, indexBytes, filterBytes) ==> t.Some? && t.value.Made(c)
    ensures file == f.file && OnDisk(crc, f, c, policy, indexBytes, filterBytes) && policy.Some? ==>
      t.value.filter != null
  {
    if file == f.file && OnDisk(crc, f, c, policy, indexBytes, filterBytes) {
      FooterLeads(crc, f, policy, indexBytes, verify);
      FilterSpares(crc, f, c, policy, indexBytes, filterBytes);
    }
    if |file| < FOOTER_SIZE { return None; }
    var footer := DecodeFooter(file[|file| - FOOTER_SIZE..]);
    if footer.None? { return None; }
    var index := ReadBlock(crc, file, verify, footer.value.index);
    if index.None? { return None; }
    var filter := ReadMeta(crc, file, footer.value.meta, policy, verify, f.filterHandle, c.filterOffsets, c.filters,
                           filterBytes);
    var table := new Table(crc, file, index.value, filter);
    t := Some(table);
  }

  ghost predicate AtOrAfter(a: KeyValue, k: Bytes) {
    !InternalLess(a.key, k)
  }

  /** For every ascending list of entries, block size, restart interval and filter, and every key:
      a lookup in the table built from them finds an entry whenever there is one of its user key at
      or after it, and what it finds is the first of all entries at or after it.  Building fails at
      most where 4 GB of blocks, index or filters would outgrow the offsets that describe them. */
  method BuildAndGet(crc: Checksum, entries: seq<KeyValue>, blockSize: nat, interval: nat,
                     policy: Option<FilterPolicy>, k: Bytes, verify: bool)
    returns (built: bool, found: Option<KeyValue>)
    requires interval >= 1 && Ascending(InternalLess, entries) && (policy.Some? ==> 1 <= policy.value.probes <= 30)
    ensures Small(entries) && FilterFits(policy, entries) ==> built
    ensures built && found.Some? ==> found.value in entries && AtOrAfter(found.value, k)
    ensures built && found.Some? ==>
      forall b :: b in entries && AtOrAfter(b, k) ==> !InternalLess(b.key, found.value.key)
    ensures built ==> forall b :: b in entries && UserPart(b.key) == UserPart(k) && AtOrAfter(b, k) ==> found.Some?
  {
    built, found := false, None;
    var file;
    ghost var f, c, indexBytes, filterBytes;
    file, f, c, indexBytes, filterBytes := Build(crc, entries, blockSize, interval, policy);
    if file.None? { return; }
    var t := Open(crc, file.value, policy, verify, f, c, indexBytes, filterBytes);
    if t.None? { return; }
    found := t.value.InternalGet(k, verify, c);
    forall b ensures InTable(c, b) <==> b in entries { InTableIsInFlat(c, b); }
    built := true;
  }

  method Build(crc: Checksum, entries: seq<KeyValue>, blockSize: nat, interval: nat, policy: Option<FilterPolicy>)
    returns (file: Option<Bytes>, ghost f: Finished, ghost c: Contents, ghost indexBytes: Bytes,
             ghost filterBytes: Bytes)
    requires interval >= 1 && Ascending(InternalLess, entries) && (policy.Some? ==> 1 <= policy.value.probes <= 30)
    ensures file.Some? ==>
      file.value == f.file && OnDisk(crc, f, c, policy, indexBytes, filterBytes) && Flat(c.groups) == entries
    ensures Small(entries) && FilterFits(policy, entries) ==> file.Some?
  {
    file, f := None, Finished([], BlockHandle(0, 0), BlockHandle(0, 0), None);
    c, indexBytes, filterBytes := Contents(Layout([], [], []), [], [], [], [], []), [], [];
    var builder := new TableBuilder(crc, blockSize, interval);
    for i := 0 to |entries|
      invariant fresh(builder) && builder.Ok() && !builder.closed && builder.crc == crc
      invariant !builder.failed ==> builder.Added() == entries[..i]
      invariant Small(entries) ==> !builder.failed
    {
      if builder.failed { return; }
      assert entries[..i + 1] == entries[..i] + [entries[i]];
      CostAscends(entries, i + 1);
      builder.Add(entries[i].key, entries[i].value);
    }
    assert entries[..|entries|] == entries;
    if builder.failed { return; }
    file, f, c, indexBytes, filterBytes := builder.Finish(policy);
  }

  lemma {:induction false} InTableIsInFlat(c: Contents, b: KeyValue)
    ensures InTable(c, b) <==> b in Flat(c.groups)
    decreases |c.groups|
  {
    if c.groups != [] {
      var n := |c.groups| - 1;
      var init := c.(groups := c.groups[..n]);
      InTableIsInFlat(init, b);
      if i :| 0 <= i < |c.groups| && b in c.groups[i] {
        if i < n { assert b in init.groups[i]; }
      }
      if InTable(init, b) {
        var i :| 0 <= i < |init.groups| && b in init.groups[i];
        assert b in c.groups[i];
      }
    }
  }
}
