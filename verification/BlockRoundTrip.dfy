/** A block built and read again. */
module BlockRoundTrip {
  import opened InternalKeys
  import opened ReadSpec
  import opened Coding
  import opened BlockFormat
  import opened BlockBuilders
  import opened BlockIters

  /** Next from the first entry on visits exactly the entries of a built block, in order. */
  method ReadAll(less: KeyOrder, data: Bytes, ghost layout: Layout, ghost offsets: seq<Uint32>)
    returns (out: seq<KeyValue>)
    ensures IsBlock(layout, offsets, data) ==> out == layout.entries
  {
    out := [];
    var handle := NewIterator(less, data, layout, offsets);
    if handle.None? { return; }
    var it := handle.value;
    it.SeekToFirst();
    while it.Valid()
      invariant fresh(it) && it.Ok() && it.data == data && it.layout == layout && it.offsets == offsets
      invariant it.Built() ==> out == layout.entries[..it.pos]
      decreases it.restarts - it.current
    {
      out := ReadOne(it, out);
    }
  }

  method ReadOne(it: BlockIter, before: seq<KeyValue>) returns (out: seq<KeyValue>)
    requires it.Ok() && it.Valid() && (it.Built() ==> before == it.layout.entries[..it.pos])
    modifies it
    ensures it.Ok() && it.restarts - it.current < old(it.restarts - it.current)
    ensures it.Built() ==> out == it.layout.entries[..it.pos]
  {
    out := before + [KeyValue(it.key, it.Value())];
    it.Next();
  }

  /** Whatever the restart interval, a block gives back the entries it was built from. */
  method BuildAndRead(less: KeyOrder, entries: seq<KeyValue>, interval: nat) returns (out: seq<KeyValue>)
    requires interval >= 1 && SizeBound(entries, |entries|) < TWO_32
    ensures out == entries
  {
    ghost var layout, restarts;
    var data;
    data, layout, restarts := BuildBlock(entries, interval);
    out := ReadAll(less, data.value, layout, restarts);
  }
}
