/** What the log reader makes of any bytes whatever (db/log_reader.cc), as a function of them. */
module LogReading {
  import opened InternalKeys
  import opened ReadSpec
  import opened Coding
  import opened LogFormat

  const EOF: nat := 5
  const BAD_RECORD: nat := 6

  /** A call of ReadPhysicalRecord: what it returns, what is left unread, where in its block that
      begins, and how many corruptions it reports. */
  datatype Physical = Physical(kind: nat, fragment: Bytes, rest: Bytes, at: Offset, reports: nat)

  /** The payload length in a header. */
  function Announced(s: Bytes): nat
    requires |s| >= HEADER_SIZE
  {
    s[4] as int + 256 * s[5] as int
  }

  predicate ZeroHeader(s: Bytes)
    requires |s| >= HEADER_SIZE
  {
    s[6] == ZERO_TYPE && Announced(s) == 0
  }

  /** At offset `o` of a block, `s` begins with a physical record that is all there and whose checksum is right. */
  predicate Sound(crc: Checksum, o: Offset, s: Bytes) {
    && |s| >= HEADER_SIZE && HEADER_SIZE + Announced(s) <= |s| && o + HEADER_SIZE + Announced(s) <= BLOCK_SIZE
    && !ZeroHeader(s) && crc(s[6..HEADER_SIZE + Announced(s)]) == Unmask(DecodeFixed32(s))
  }

  /** The rest of the block is given up. */
  function Drop(o: Offset, s: Bytes, reports: nat): Physical {
    if |s| < BLOCK_SIZE - o then Physical(BAD_RECORD, [], [], 0, reports)
    else Physical(BAD_RECORD, [], s[BLOCK_SIZE - o..], BLOCK_SIZE, reports)
  }

  function Parse(crc: Checksum, o: Offset, s: Bytes): (p: Physical)
    requires |s| >= HEADER_SIZE && o + HEADER_SIZE <= BLOCK_SIZE
    ensures p.kind == EOF || |p.rest| < |s|
  {
    var n := HEADER_SIZE + Announced(s);
    if n > |s| || o + n > BLOCK_SIZE then
      if |s| < BLOCK_SIZE - o then Physical(EOF, [], [], 0, 0) else Drop(o, s, 1)
    else if ZeroHeader(s) then Drop(o, s, 0)
    else if crc(s[6..n]) != Unmask(DecodeFixed32(s)) then Drop(o, s, 1)
    else Physical(s[6], s[HEADER_SIZE..n], s[n..], o + n, 0)
  }

  function ReadPhysical(crc: Checksum, o: Offset, unread: Bytes): (p: Physical)
    ensures p.kind == EOF || |p.rest| < |unread|
  {
    var pad := |Padding(o)|;
    if |unread| < pad + HEADER_SIZE then Physical(EOF, [], [], 0, 0) else Parse(crc, Start(o), unread[pad..])
  }

  /** A record that is finished, what is held of one that is not, and the corruptions reported. */
  datatype Assembled = Assembled(record: Option<Bytes>, held: Option<Bytes>, reports: nat)

  /** How ReadRecord treats a physical record, given what it holds of a record not finished. */
  function Assemble(kind: nat, fragment: Bytes, held: Option<Bytes>): Assembled {
    match kind
    case 1 => Assembled(Some(fragment), None, Unfinished(held))
    case 2 => Assembled(None, Some(fragment), Unfinished(held))
    case 3 => if held.Some? then Assembled(None, Some(held.value + fragment), 0) else Assembled(None, None, 1)
    case 4 => if held.Some? then Assembled(Some(held.value + fragment), None, 0) else Assembled(None, None, 1)
    case 6 => Assembled(None, None, if held.Some? then 1 else 0)
    case _ => Assembled(None, None, 1)
  }

  /** A record that begins while another is not finished is reported, unless that is still empty. */
  function Unfinished(held: Option<Bytes>): nat {
    if held.Some? && held.value != [] then 1 else 0
  }

  /** The records a reader delivers and the corruptions it reports. */
  datatype Delivery = Delivery(records: seq<Bytes>, reports: nat)

  function After(records: seq<Bytes>, reports: nat, d: Delivery): Delivery {
    Delivery(records + d.records, reports + d.reports)
  }

  /** What is delivered if `p` is the physical record at hand and `next` is delivered after it. */
  function Combine(p: Physical, held: Option<Bytes>, next: Delivery): Delivery {
    if p.kind == EOF then Delivery([], p.reports)
    else
      var a := Assemble(p.kind, p.fragment, held);
      After(if a.record.Some? then [a.record.value] else [], p.reports + a.reports, next)
  }

  /** All that ReadRecord delivers from here on. */
  function Drain(crc: Checksum, o: Offset, unread: Bytes, held: Option<Bytes>): Delivery
    decreases |unread|
  {
    var p := ReadPhysical(crc, o, unread);
    if p.kind == EOF then Delivery([], p.reports)
    else Combine(p, held, Drain(crc, p.at, p.rest, Assemble(p.kind, p.fragment, held).held))
  }

  lemma DrainStep(crc: Checksum, o: Offset, unread: Bytes, held: Option<Bytes>, p: Physical)
    requires p == ReadPhysical(crc, o, unread)
    ensures Drain(crc, o, unread, held) ==
      Combine(p, held, Drain(crc, p.at, p.rest, Assemble(p.kind, p.fragment, held).held))
  {
  }

  lemma AfterTwice(a: seq<Bytes>, m: nat, b: seq<Bytes>, n: nat, d: Delivery)
    ensures After(a, m, After(b, n, d)) == After(a + b, m + n, d)
  {
    assert a + (b + d.records) == a + b + d.records;
  }

  lemma AfterNothing(n: nat, d: Delivery)
    ensures After([], n, d) == Delivery(d.records, n + d.reports)
  {
    assert [] + d.records == d.records;
  }

  /** A full block and a fresh one read alike. */
  lemma FreshBlock(crc: Checksum, unread: Bytes, held: Option<Bytes>)
    ensures Drain(crc, BLOCK_SIZE, unread, held) == Drain(crc, 0, unread, held)
  {
    assert ReadPhysical(crc, BLOCK_SIZE, unread) == ReadPhysical(crc, 0, unread);
  }

  // ---- Physical records -----------------------------------------------------

  lemma HeaderParses(crc: Checksum, t: Byte, payload: Bytes, s: Bytes)
    requires |payload| < 0x1_0000 && |s| >= HEADER_SIZE && s[..HEADER_SIZE] == Header(crc, t, payload)
    ensures Announced(s) == |payload| && s[6] == t
    ensures Unmask(DecodeFixed32(s)) == crc([t] + payload)
  {
    var h := Header(crc, t, payload);
    assert forall i :: 0 <= i < HEADER_SIZE ==> s[i] == h[i];
    FixedRoundTrip(Mask(crc([t] + payload)), s);
    UnmaskMask(crc([t] + payload));
  }

  lemma ParseWhole(crc: Checksum, o: Offset, t: Byte, payload: Bytes, more: Bytes)
    requires o + HEADER_SIZE + |payload| <= BLOCK_SIZE && t != ZERO_TYPE
    ensures Parse(crc, o, Header(crc, t, payload) + payload + more) ==
      Physical(t, payload, more, o + HEADER_SIZE + |payload|, 0)
  {
    var s := Header(crc, t, payload) + payload + more;
    var n := HEADER_SIZE + |payload|;
    assert s[..HEADER_SIZE] == Header(crc, t, payload);
    HeaderParses(crc, t, payload, s);
    assert s[6..n] == [t] + payload;
    assert s[HEADER_SIZE..n] == payload && s[n..] == more;
  }

  lemma PhysicalWhole(crc: Checksum, o: Offset, data: Bytes, begin: bool, more: Bytes)
    ensures var n := PieceLength(o, |data|);
      ReadPhysical(crc, o, Piece(crc, o, data, begin) + more) ==
        Physical(PieceType(begin, n == |data|), data[..n], more, PieceEnd(o, |data|), 0)
  {
    var n := PieceLength(o, |data|);
    var t, payload := PieceType(begin, n == |data|), data[..n];
    var unread := Piece(crc, o, data, begin) + more;
    assert unread[|Padding(o)|..] == Header(crc, t, payload) + payload + more;
    ParseWhole(crc, Start(o), t, payload, more);
  }

  /** The file ends before the physical record does. */
  lemma PhysicalCut(crc: Checksum, o: Offset, data: Bytes, begin: bool, unread: Bytes)
    requires var piece, h := Piece(crc, o, data, begin), |Padding(o)| + HEADER_SIZE;
      |unread| < |piece| && (|unread| >= h ==> unread[..h] == piece[..h])
    ensures ReadPhysical(crc, o, unread) == Physical(EOF, [], [], 0, 0)
  {
    var n, pad := PieceLength(o, |data|), |Padding(o)|;
    if |unread| >= pad + HEADER_SIZE {
      var t, payload := PieceType(begin, n == |data|), data[..n];
      var piece := Padding(o) + Header(crc, t, payload) + payload;
      assert unread[pad..][..HEADER_SIZE] == unread[..pad + HEADER_SIZE][pad..];
      assert piece[..pad + HEADER_SIZE][pad..] == Header(crc, t, payload);
      HeaderParses(crc, t, payload, unread[pad..]);
    }
  }

  // ---- Records ----------------------------------------------------------------

  lemma EmitStep(crc: Checksum, o: Offset, data: Bytes, begin: bool)
    ensures var n, end := PieceLength(o, |data|), PieceEnd(o, |data|);
      if n == |data| then Emit(crc, o, data, begin) == Piece(crc, o, data, begin) && EmitEnd(o, |data|) == end
      else Emit(crc, o, data, begin) == Piece(crc, o, data, begin) + Emit(crc, end, data[n..], false)
           && EmitEnd(o, |data|) == EmitEnd(end, |data| - n)
  {
  }

  /** A record of which `held` was read before goes on, or one begins. */
  predicate Fits(begin: bool, held: Option<Bytes>) {
    begin || held.Some?
  }

  function Gathered(begin: bool, held: Option<Bytes>, fragment: Bytes): Bytes
    requires Fits(begin, held)
  {
    if begin then fragment else held.value + fragment
  }

  function Interrupted(begin: bool, held: Option<Bytes>): nat {
    if begin then Unfinished(held) else 0
  }

  lemma DrainPiece(crc: Checksum, o: Offset, data: Bytes, begin: bool, more: Bytes, held: Option<Bytes>)
    requires Fits(begin, held)
    ensures var n, end := PieceLength(o, |data|), PieceEnd(o, |data|);
      Drain(crc, o, Piece(crc, o, data, begin) + more, held) ==
        if n == |data| then
          After([Gathered(begin, held, data)], Interrupted(begin, held), Drain(crc, end, more, None))
        else
          After([], Interrupted(begin, held), Drain(crc, end, more, Some(Gathered(begin, held, data[..n]))))
  {
    var n := PieceLength(o, |data|);
    PhysicalWhole(crc, o, data, begin, more);
    assert data[..|data|] == data;
  }

  lemma GatheredOn(begin: bool, held: Option<Bytes>, data: Bytes, n: nat)
    requires n <= |data| && Fits(begin, held)
    ensures Gathered(false, Some(Gathered(begin, held, data[..n])), data[n..]) == Gathered(begin, held, data)
  {
    assert data == data[..n] + data[n..];
  }

  lemma Chain(d: Delivery, rest: Delivery, a: seq<Bytes>, b: seq<Bytes>, reports: nat)
    requires d == After(b, 0, rest)
    ensures After(a, reports, d) == After(a + b, reports, rest)
    ensures a == [] ==> a + b == b
  {
    AfterTwice(a, reports, b, 0, rest);
  }

  lemma {:induction false} DrainEmit(crc: Checksum, o: Offset, data: Bytes, begin: bool, more: Bytes,
                                     held: Option<Bytes>)
    requires Fits(begin, held)
    ensures Drain(crc, o, Emit(crc, o, data, begin) + more, held) ==
      After([Gathered(begin, held, data)], Interrupted(begin, held), Drain(crc, EmitEnd(o, |data|), more, None))
    decreases |data|, if PieceLength(o, |data|) == 0 then 1 else 0
  {
    var n, end := PieceLength(o, |data|), PieceEnd(o, |data|);
    EmitStep(crc, o, data, begin);
    if n == |data| {
      DrainPiece(crc, o, data, begin, more, held);
    } else {
      var left, got := data[n..], Some(Gathered(begin, held, data[..n]));
      var rest := Emit(crc, end, left, false) + more;
      Regroup(Piece(crc, o, data, begin), Emit(crc, end, left, false), more);
      GatheredOn(begin, held, data, n);
      DrainPiece(crc, o, data, begin, rest, held);
      DrainEmit(crc, end, left, false, more, got);
      Chain(Drain(crc, end, rest, got), Drain(crc, EmitEnd(o, |data|), more, None), [],
            [Gathered(begin, held, data)], Interrupted(begin, held));
    }
  }

  /** Of a record cut off nothing is delivered, and nothing is reported. */
  lemma {:induction false} DrainCut(crc: Checksum, o: Offset, data: Bytes, begin: bool, unread: Bytes,
                                    held: Option<Bytes>)
    requires unread <= Emit(crc, o, data, begin) && |unread| < |Emit(crc, o, data, begin)|
    requires Fits(begin, held) && Interrupted(begin, held) == 0
    ensures Drain(crc, o, unread, held) == Delivery([], 0)
    decreases |data|, if PieceLength(o, |data|) == 0 then 1 else 0
  {
    var n, end, piece := PieceLength(o, |data|), PieceEnd(o, |data|), Piece(crc, o, data, begin);
    EmitStep(crc, o, data, begin);
    if |unread| < |piece| {
      var h := |Padding(o)| + HEADER_SIZE;
      if |unread| >= h { PrefixOfPrefix(unread, piece, Emit(crc, o, data, begin), h); }
      PhysicalCut(crc, o, data, begin, unread);
    } else {
      var left, more := data[n..], unread[|piece|..];
      CutAfter(unread, piece, Emit(crc, end, left, false));
      DrainPiece(crc, o, data, begin, more, held);
      DrainCut(crc, end, left, false, more, Some(Gathered(begin, held, data[..n])));
      AfterNothing(0, Delivery([], 0));
    }
  }

  lemma PrefixOfPrefix(a: Bytes, b: Bytes, whole: Bytes, h: nat)
    requires a <= whole && b <= whole && h <= |a| && h <= |b|
    ensures a[..h] == b[..h]
  {
  }

  lemma CutAfter(u: Bytes, a: Bytes, b: Bytes)
    requires u <= a + b && |a| <= |u|
    ensures u == a + u[|a|..] && u[|a|..] <= b
  {
    assert u == (a + b)[..|u|];
  }

  // ---- Logs -------------------------------------------------------------------

  lemma DrainFirst(crc: Checksum, o: Offset, records: seq<Bytes>, more: Bytes, held: Option<Bytes>)
    requires records != []
    ensures var end := EmitEnd(o, |records[0]|);
      Drain(crc, o, Log(crc, o, records) + more, held) ==
        After([records[0]], Unfinished(held), Drain(crc, end, Log(crc, end, records[1..]) + more, None))
  {
    var first, rest := records[0], Log(crc, EmitEnd(o, |records[0]|), records[1..]);
    Regroup(Emit(crc, o, first, true), rest, more);
    DrainEmit(crc, o, first, true, rest + more, held);
  }

  /** The records of a log are delivered; a record not finished before it is reported. */
  lemma DrainLog(crc: Checksum, o: Offset, records: seq<Bytes>, more: Bytes, held: Option<Bytes>)
    requires records != []
    ensures Drain(crc, o, Log(crc, o, records) + more, held) ==
      After(records, Unfinished(held), Drain(crc, LogEnd(o, records), more, None))
  {
    DrainFirst(crc, o, records, more, held);
    DrainOthers(crc, EmitEnd(o, |records[0]|), records[1..], more);
    FirstAndOthers(records);
    Chain(Drain(crc, EmitEnd(o, |records[0]|), Log(crc, EmitEnd(o, |records[0]|), records[1..]) + more, None),
          Drain(crc, LogEnd(o, records), more, None), [records[0]], records[1..], Unfinished(held));
  }

  lemma {:induction false} DrainOthers(crc: Checksum, o: Offset, records: seq<Bytes>, more: Bytes)
    ensures Drain(crc, o, Log(crc, o, records) + more, None) ==
      After(records, 0, Drain(crc, LogEnd(o, records), more, None))
    decreases |records|
  {
    if records == [] {
      NothingBefore(more);
      AfterNothing(0, Drain(crc, o, more, None));
    } else {
      DrainFirst(crc, o, records, more, None);
      DrainOthers(crc, EmitEnd(o, |records[0]|), records[1..], more);
      FirstAndOthers(records);
      Chain(Drain(crc, EmitEnd(o, |records[0]|), Log(crc, EmitEnd(o, |records[0]|), records[1..]) + more, None),
            Drain(crc, LogEnd(o, records), more, None), [records[0]], records[1..], 0);
    }
  }

  lemma FirstAndOthers(records: seq<Bytes>)
    requires records != []
    ensures [records[0]] + records[1..] == records
  {
  }

  lemma NothingBefore(s: Bytes)
    ensures [] + s == s
  {
  }

  lemma NothingToRead(crc: Checksum, o: Offset, held: Option<Bytes>)
    ensures Drain(crc, o, [], held) == Delivery([], 0)
  {
  }

  lemma DrainWholeLog(crc: Checksum, o: Offset, records: seq<Bytes>, held: Option<Bytes>)
    ensures Drain(crc, o, Log(crc, o, records), held) ==
      Delivery(records, if records == [] then 0 else Unfinished(held))
  {
    if records == [] {
      NothingToRead(crc, o, held);
    } else {
      DrainLog(crc, o, records, [], held);
      NothingToRead(crc, LogEnd(o, records), None);
      assert Log(crc, o, records) + [] == Log(crc, o, records) && records + [] == records;
    }
  }

  /** Of a prefix of a log exactly its whole records are delivered, with nothing reported. */
  lemma {:induction false} DrainPrefix(crc: Checksum, o: Offset, records: seq<Bytes>, unread: Bytes)
    requires unread <= Log(crc, o, records)
    ensures Drain(crc, o, unread, None) == Delivery(Complete(crc, o, records, |unread|), 0)
    decreases |records|
  {
    if records == [] {
      NothingToRead(crc, o, None);
    } else {
      var first, end := Emit(crc, o, records[0], true), EmitEnd(o, |records[0]|);
      if |unread| < |first| {
        assert unread <= first;
        DrainCut(crc, o, records[0], true, unread, None);
      } else {
        CutAfter(unread, first, Log(crc, end, records[1..]));
        DrainEmit(crc, o, records[0], true, unread[|first|..], None);
        DrainPrefix(crc, end, records[1..], unread[|first|..]);
      }
    }
  }
}
