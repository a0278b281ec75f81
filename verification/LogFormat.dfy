/** The layout of a log file (db/log_format.h, db/log_writer.cc): records cut into
    physical records that never cross a block boundary. */
module LogFormat {
  import opened InternalKeys
  import opened Coding

  const BLOCK_SIZE: int := 32768
  const HEADER_SIZE: int := 7

  const ZERO_TYPE: Byte := 0
  const FULL_TYPE: Byte := 1
  const FIRST_TYPE: Byte := 2
  const MIDDLE_TYPE: Byte := 3
  const LAST_TYPE: Byte := 4

  /** An offset within a block; a full block is 32768, not 0. */
  type Offset = o: int | 0 <= o <= 32768

  /** The checksum function is not looked into. */
  type Checksum = Bytes -> Uint32

  function Header(crc: Checksum, t: Byte, payload: Bytes): (r: Bytes)
    requires |payload| < 0x1_0000
    ensures |r| == HEADER_SIZE
  {
    EncodeFixed32(Mask(crc([t] + payload))) + [|payload| % 256, |payload| / 256, t]
  }

  /** The zero bytes that fill a block too full for another header. */
  function Padding(o: Offset): (r: Bytes)
    ensures |r| < HEADER_SIZE
  {
    if BLOCK_SIZE - o < HEADER_SIZE then seq(BLOCK_SIZE - o, _ => 0) else []
  }

  function Start(o: Offset): (r: Offset)
    ensures r + HEADER_SIZE <= BLOCK_SIZE
  {
    if BLOCK_SIZE - o < HEADER_SIZE then 0 else o
  }

  function PieceLength(o: Offset, left: nat): (r: nat)
    ensures r <= left && Start(o) + HEADER_SIZE + r <= BLOCK_SIZE
  {
    var avail := BLOCK_SIZE - Start(o) - HEADER_SIZE;
    if left < avail then left else avail
  }

  function PieceType(begin: bool, end: bool): Byte {
    if begin && end then FULL_TYPE else if begin then FIRST_TYPE else if end then LAST_TYPE else MIDDLE_TYPE
  }

  /** The next physical record of `data`, with the padding before it. */
  function Piece(crc: Checksum, o: Offset, data: Bytes, begin: bool): (r: Bytes)
    ensures |r| == |Padding(o)| + HEADER_SIZE + PieceLength(o, |data|)
  {
    var n := PieceLength(o, |data|);
    Padding(o) + Header(crc, PieceType(begin, n == |data|), data[..n]) + data[..n]
  }

  function PieceEnd(o: Offset, left: nat): Offset {
    Start(o) + HEADER_SIZE + PieceLength(o, left)
  }

  /** A record is cut only at the end of a block, and a block is left early only if no header fits. */
  lemma CutAtBlockEnd(o: Offset, left: nat)
    ensures PieceLength(o, left) < left ==> PieceEnd(o, left) == BLOCK_SIZE
    ensures Start(o) != o ==> BLOCK_SIZE - o < HEADER_SIZE
  {
  }

  /** All physical records of what is left of one record. */
  function Emit(crc: Checksum, o: Offset, data: Bytes, begin: bool): (r: Bytes)
    ensures |r| >= HEADER_SIZE
    decreases |data|, if PieceLength(o, |data|) == 0 then 1 else 0
  {
    var n := PieceLength(o, |data|);
    if n == |data| then Piece(crc, o, data, begin)
    else Piece(crc, o, data, begin) + Emit(crc, PieceEnd(o, |data|), data[n..], false)
  }

  /** Where in its block the record ends. */
  function EmitEnd(o: Offset, left: nat): Offset
    decreases left, if PieceLength(o, left) == 0 then 1 else 0
  {
    var n := PieceLength(o, left);
    if n == left then PieceEnd(o, left) else EmitEnd(PieceEnd(o, left), left - n)
  }

  /** How many physical records a record of `n` bytes takes: one, and one more for every further block. */
  function Pieces(o: Offset, n: nat): nat {
    var room := BLOCK_SIZE - Start(o) - HEADER_SIZE;
    if n <= room then 1 else 1 + (n - room + BLOCK_SIZE - HEADER_SIZE - 1) / (BLOCK_SIZE - HEADER_SIZE)
  }

  /** A record costs no more than its bytes, one header a piece and the padding before it. */
  lemma {:induction false} EmitSize(crc: Checksum, o: Offset, data: Bytes, begin: bool)
    ensures |Emit(crc, o, data, begin)| == |Padding(o)| + |data| + HEADER_SIZE * Pieces(o, |data|)
    decreases |data|, if PieceLength(o, |data|) == 0 then 1 else 0
  {
    var n := PieceLength(o, |data|);
    if n < |data| {
      EmitSize(crc, PieceEnd(o, |data|), data[n..], false);
      OnePieceMore(|data| - n);
    }
  }

  lemma OnePieceMore(left: nat)
    requires left > 0
    ensures Pieces(BLOCK_SIZE, left) == (left + BLOCK_SIZE - HEADER_SIZE - 1) / (BLOCK_SIZE - HEADER_SIZE)
  {
    var w := BLOCK_SIZE - HEADER_SIZE;
    if left > w { assert left + w - 1 == (left - w + w - 1) + w; }
  }

  function Log(crc: Checksum, o: Offset, records: seq<Bytes>): Bytes
    decreases |records|
  {
    if records == [] then [] else Emit(crc, o, records[0], true) + Log(crc, EmitEnd(o, |records[0]|), records[1..])
  }

  function LogEnd(o: Offset, records: seq<Bytes>): Offset
    decreases |records|
  {
    if records == [] then o else LogEnd(EmitEnd(o, |records[0]|), records[1..])
  }

  /** The records that lie wholly within the first `n` bytes. */
  function Complete(crc: Checksum, o: Offset, records: seq<Bytes>, n: nat): seq<Bytes>
    decreases |records|
  {
    if records == [] || |Emit(crc, o, records[0], true)| > n then []
    else [records[0]] + Complete(crc, EmitEnd(o, |records[0]|), records[1..], n - |Emit(crc, o, records[0], true)|)
  }

  lemma Regroup(a: Bytes, b: Bytes, c: Bytes)
    ensures a + (b + c) == a + b + c
  {
  }

  lemma LogOfOne(crc: Checksum, o: Offset, record: Bytes)
    ensures Log(crc, o, [record]) == Emit(crc, o, record, true) && LogEnd(o, [record]) == EmitEnd(o, |record|)
  {
    assert [record][1..] == [];
  }

  /** A log continued is the log of all the records. */
  lemma {:induction false} LogAppend(crc: Checksum, o: Offset, a: seq<Bytes>, b: seq<Bytes>)
    ensures Log(crc, o, a + b) == Log(crc, o, a) + Log(crc, LogEnd(o, a), b)
    ensures LogEnd(o, a + b) == LogEnd(LogEnd(o, a), b)
    decreases |a|
  {
    if a == [] {
      assert a + b == b;
    } else {
      LogAppend(crc, EmitEnd(o, |a[0]|), a[1..], b);
      var end := EmitEnd(o, |a[0]|);
      assert (a + b)[1..] == a[1..] + b && (a + b)[0] == a[0];
      Regroup(Emit(crc, o, a[0], true), Log(crc, end, a[1..]), Log(crc, LogEnd(end, a[1..]), b));
    }
  }

  /** `Complete` is the longest run of leading records whose log fits in `n` bytes. */
  lemma {:induction false} CompleteIsLongest(crc: Checksum, o: Offset, records: seq<Bytes>, n: nat)
    ensures var k := |Complete(crc, o, records, n)|;
      && k <= |records| && Complete(crc, o, records, n) == records[..k] && |Log(crc, o, records[..k])| <= n
      && (k < |records| ==> n < |Log(crc, o, records[..k + 1])|)
    decreases |records|
  {
    if records != [] {
      var end := EmitEnd(o, |records[0]|);
      var first := |Emit(crc, o, records[0], true)|;
      if first <= n {
        CompleteIsLongest(crc, end, records[1..], n - first);
        var k := |Complete(crc, end, records[1..], n - first)|;
        assert records[..k + 1][1..] == records[1..][..k];
        if k + 1 < |records| { assert records[..k + 2][1..] == records[1..][..k + 1]; }
      } else {
        assert records[..1][1..] == [];
      }
    }
  }

  lemma {:induction false} WholeLogIsComplete(crc: Checksum, o: Offset, records: seq<Bytes>)
    ensures Complete(crc, o, records, |Log(crc, o, records)|) == records
    decreases |records|
  {
    if records != [] {
      WholeLogIsComplete(crc, EmitEnd(o, |records[0]|), records[1..]);
    }
  }
}
