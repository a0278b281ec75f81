/** Block handles, stored blocks and the order of a table (table/format.cc, table/table_builder.cc). */
module TableFormat {
  import opened InternalKeys
  import opened ReadSpec
  import opened Coding
  import opened LogFormat
  import opened BlockFormat
  import opened BlockIters
  import opened Comparators

  const BLOCK_TRAILER_SIZE: nat := 5
  const NO_COMPRESSION: Byte := 0

  datatype BlockHandle = BlockHandle(offset: nat, size: nat)

  function EncodeHandle(h: BlockHandle): (r: Bytes) {
    Varint(h.offset) + Varint(h.size)
  }

  datatype GotHandle = GotHandle(handle: BlockHandle, rest: Bytes)

  function GetHandle(s: Bytes): Option<GotHandle> {
    match GetVarint64(s)
    case None => None
    case Some(a) => (match GetVarint64(s[a.length..])
      case None => None
      case Some(b) => Some(GotHandle(BlockHandle(a.value, b.value), s[a.length..][b.length..])))
  }

  /** Extra bytes after the handle are allowed. */
  function DecodeHandle(s: Bytes): Option<BlockHandle> {
    match GetHandle(s) case None => None case Some(g) => Some(g.handle)
  }

  predicate HandleOk(h: BlockHandle) {
    h.offset < TWO_64 && h.size < TWO_64
  }

  lemma HandleThenMore(h: BlockHandle, more: Bytes)
    requires HandleOk(h)
    ensures GetHandle(EncodeHandle(h) + more) == Some(GotHandle(h, more)) && |EncodeHandle(h)| <= 20
  {
    var a, b := Varint(h.offset), Varint(h.size);
    assert a + b + more == a + (b + more);
    Varint64RoundTrip(h.offset, b + more);
    Varint64RoundTrip(h.size, more);
    assert (a + (b + more))[|a|..] == b + more && (b + more)[|b|..] == more;
  }

  lemma HandleRoundTrip(h: BlockHandle)
    requires HandleOk(h)
    ensures DecodeHandle(EncodeHandle(h)) == Some(h) && |EncodeHandle(h)| <= 20
  {
    HandleThenMore(h, []);
    assert EncodeHandle(h) + [] == EncodeHandle(h);
  }

  // ----- the footer -----

  const FOOTER_SIZE: nat := 48
  const HANDLES_SIZE: nat := 40
  const MAGIC_LOW: Uint32 := 0x8b80_fb57
  const MAGIC_HIGH: Uint32 := 0xdb47_7524

  function Footer(meta: BlockHandle, index: BlockHandle): (r: Bytes)
    requires |EncodeHandle(meta)| <= 20 && |EncodeHandle(index)| <= 20
    ensures |r| == FOOTER_SIZE
  {
    var handles := EncodeHandle(meta) + EncodeHandle(index);
    handles + seq(HANDLES_SIZE - |handles|, _ => 0) + (EncodeFixed32(MAGIC_LOW) + EncodeFixed32(MAGIC_HIGH))
  }

  datatype Handles = Handles(meta: BlockHandle, index: BlockHandle)

  /** None for a file that is no table. */
  function DecodeFooter(s: Bytes): Option<Handles>
    requires |s| == FOOTER_SIZE
  {
    if DecodeFixed32(s[HANDLES_SIZE..]) != MAGIC_LOW || DecodeFixed32(s[HANDLES_SIZE + 4..]) != MAGIC_HIGH then None
    else match GetHandle(s)
      case None => None
      case Some(g) => match DecodeHandle(g.rest) case None => None case Some(index) => Some(Handles(g.handle, index))
  }

  lemma FooterRoundTrip(meta: BlockHandle, index: BlockHandle)
    requires HandleOk(meta) && HandleOk(index) && |EncodeHandle(meta)| <= 20 && |EncodeHandle(index)| <= 20
    ensures DecodeFooter(Footer(meta, index)) == Some(Handles(meta, index))
  {
    var m, i := EncodeHandle(meta), EncodeHandle(index);
    var pad, magic := seq(HANDLES_SIZE - |m + i|, _ => 0), EncodeFixed32(MAGIC_LOW) + EncodeFixed32(MAGIC_HIGH);
    var s := Footer(meta, index);
    assert s[HANDLES_SIZE..][..4] == EncodeFixed32(MAGIC_LOW);
    assert s[HANDLES_SIZE + 4..][..4] == EncodeFixed32(MAGIC_HIGH);
    FixedRoundTrip(MAGIC_LOW, s[HANDLES_SIZE..]);
    FixedRoundTrip(MAGIC_HIGH, s[HANDLES_SIZE + 4..]);
    assert s == m + (i + (pad + magic));
    HandleThenMore(meta, i + (pad + magic));
    HandleThenMore(index, pad + magic);
  }

  function Trailer(crc: Checksum, contents: Bytes): (r: Bytes)
    ensures |r| == BLOCK_TRAILER_SIZE
  {
    [NO_COMPRESSION] + EncodeFixed32(Mask(crc(contents + [NO_COMPRESSION])))
  }

  /** The contents of the block at a handle; None if the read is short, the checksum asked for is
      wrong, or the block is compressed. */
  function ReadBlock(crc: Checksum, file: Bytes, verify: bool, h: BlockHandle): Option<Bytes> {
    var n := h.size;
    if h.offset + n + BLOCK_TRAILER_SIZE > |file| then None
    else
      var data := file[h.offset..h.offset + n + BLOCK_TRAILER_SIZE];
      if verify && Unmask(DecodeFixed32(data[n + 1..])) != crc(data[..n + 1]) then None
      else if data[n] == NO_COMPRESSION then Some(data[..n])
      else None
  }

  /** A data block of the table: what is in it, its bytes and where they are. */
  datatype DataBlock = DataBlock(layout: Layout, restarts: seq<Uint32>, bytes: Bytes, handle: BlockHandle)

  ghost predicate Stored(crc: Checksum, file: Bytes, h: BlockHandle, contents: Bytes) {
    var n := h.size;
    && h.offset + n + BLOCK_TRAILER_SIZE <= |file| < TWO_64 && |contents| == n
    && file[h.offset..h.offset + n + BLOCK_TRAILER_SIZE] == contents + Trailer(crc, contents)
  }

  lemma StoredReads(crc: Checksum, file: Bytes, h: BlockHandle, contents: Bytes, verify: bool)
    requires Stored(crc, file, h, contents)
    ensures ReadBlock(crc, file, verify, h) == Some(contents)
  {
    var n, data := h.size, contents + Trailer(crc, contents);
    assert data[..n + 1] == contents + [NO_COMPRESSION] && data[..n] == contents;
    assert data[n + 1..][..4] == EncodeFixed32(Mask(crc(contents + [NO_COMPRESSION])));
    FixedRoundTrip(Mask(crc(contents + [NO_COMPRESSION])), data[n + 1..]);
    UnmaskMask(crc(contents + [NO_COMPRESSION]));
  }

  lemma StoredStays(crc: Checksum, file: Bytes, h: BlockHandle, contents: Bytes, more: Bytes)
    requires Stored(crc, file, h, contents) && |file + more| < TWO_64
    ensures Stored(crc, file + more, h, contents)
  {
  }

  lemma AppendedIsStored(crc: Checksum, file: Bytes, contents: Bytes)
    requires |file| + |contents| + BLOCK_TRAILER_SIZE < TWO_64
    ensures Stored(crc, file + contents + Trailer(crc, contents), BlockHandle(|file|, |contents|), contents)
  {
    var whole := file + contents + Trailer(crc, contents);
    assert whole[|file|..|file| + |contents| + BLOCK_TRAILER_SIZE] == contents + Trailer(crc, contents);
  }

  /** Groups of entries, each ascending and each wholly before the next. */
  ghost predicate Layered(groups: seq<seq<KeyValue>>) {
    && (forall i :: 0 <= i < |groups| ==> Ascending(InternalLess, groups[i]))
    && (forall i, j, a, b :: 0 <= i < j < |groups| && a in groups[i] && b in groups[j] ==> InternalLess(a.key, b.key))
  }

  /** An index key may stand between a block and a later entry: nothing of the entry's user key lies
      between the index key and it unless the index key is the last key of the block. */
  ghost predicate Divides(key: Bytes, group: seq<KeyValue>, later: KeyValue) {
    && InternalLess(key, later.key)
    && ((group != [] && key == group[|group| - 1].key) || BytewiseLess(UserPart(key), UserPart(later.key)))
  }

  ghost predicate IndexNames(index: seq<KeyValue>, blocks: seq<DataBlock>) {
    |index| <= |blocks| && forall i :: 0 <= i < |index| ==> index[i].value == EncodeHandle(blocks[i].handle)
  }

  ghost predicate IndexCovers(index: seq<KeyValue>, groups: seq<seq<KeyValue>>) {
    |index| <= |groups| && forall i, a :: 0 <= i < |index| && a in groups[i] ==> !InternalLess(index[i].key, a.key)
  }

  ghost predicate IndexDivides(index: seq<KeyValue>, groups: seq<seq<KeyValue>>) {
    |index| <= |groups| && forall i, j, b :: 0 <= i < |index| && i < j < |groups| && b in groups[j] ==>
        Divides(index[i].key, groups[i], b)
  }

  /** Index entry i leads to block i: at or above all of it and below all that follows. */
  ghost predicate Indexed(index: seq<KeyValue>, blocks: seq<DataBlock>, groups: seq<seq<KeyValue>>) {
    IndexNames(index, blocks) && IndexCovers(index, groups) && IndexDivides(index, groups)
  }

  /** The blocks hold the first groups and can be read back from the file. */
  ghost predicate Backed(crc: Checksum, file: Bytes, blocks: seq<DataBlock>, groups: seq<seq<KeyValue>>) {
    && |blocks| <= |groups|
    && (forall i :: 0 <= i < |blocks| ==>
          && blocks[i].layout.entries == groups[i] && groups[i] != []
          && IsBlock(blocks[i].layout, blocks[i].restarts, blocks[i].bytes)
          && Stored(crc, file, blocks[i].handle, blocks[i].bytes))
  }

  /** The order is a weak one: whatever is before one key is before or level with any other. */
  lemma InternalWeak(a: Bytes, b: Bytes, c: Bytes)
    requires InternalLess(a, b)
    ensures InternalLess(a, c) || InternalLess(c, b)
  {
    LessIsStrictOrder(UserPart(a), UserPart(c), UserPart(b));
    LessIsStrictOrder(UserPart(c), UserPart(b), UserPart(a));
    LessIsStrictOrder(UserPart(a), UserPart(b), UserPart(c));
  }
}
