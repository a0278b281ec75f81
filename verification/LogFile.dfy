/** Writing and reading a log file (db/log_writer.cc, db/log_reader.cc). */
module LogFile {
  import opened InternalKeys
  import opened ReadSpec
  import opened Coding
  import opened LogFormat
  import opened LogReading

  lemma EmitOn(crc: Checksum, dest: Bytes, o: Offset, data: Bytes, begin: bool)
    ensures var n, end, after := PieceLength(o, |data|), PieceEnd(o, |data|), dest + Piece(crc, o, data, begin);
      if n == |data| then dest + Emit(crc, o, data, begin) == after && EmitEnd(o, |data|) == end
      else dest + Emit(crc, o, data, begin) == after + Emit(crc, end, data[n..], false)
           && EmitEnd(o, |data|) == EmitEnd(end, |data| - n)
  {
    EmitStep(crc, o, data, begin);
    var n, end := PieceLength(o, |data|), PieceEnd(o, |data|);
    if n < |data| { Regroup(dest, Piece(crc, o, data, begin), Emit(crc, end, data[n..], false)); }
  }

  lemma RegroupPiece(dest: Bytes, pad: Bytes, header: Bytes, payload: Bytes)
    ensures dest + pad + header + payload == dest + (pad + header + payload)
  {
  }

  class Writer {
    const crc: Checksum
    var dest: Bytes
    var blockOffset: Offset

    constructor (crc: Checksum, dest: Bytes)
      ensures this.crc == crc && this.dest == dest && blockOffset == |dest| % BLOCK_SIZE
    {
      this.crc, this.dest, blockOffset := crc, dest, |dest| % BLOCK_SIZE;
    }

    method AddRecord(slice: Bytes)
      modifies this
      ensures dest == old(dest) + Emit(crc, old(blockOffset), slice, true)
      ensures blockOffset == EmitEnd(old(blockOffset), |slice|)
    {
      var left, begin, done := slice, true, false;
      ghost var all, end := dest + Emit(crc, blockOffset, slice, true), EmitEnd(blockOffset, |slice|);
      while !done
        invariant if done then dest == all && blockOffset == end
                  else dest + Emit(crc, blockOffset, left, begin) == all && EmitEnd(blockOffset, |left|) == end
        decreases !done, |left|, if PieceLength(blockOffset, |left|) == 0 then 1 else 0
      {
        EmitOn(crc, dest, blockOffset, left, begin);
        var fragmentLength := AddFragment(left, begin);
        done := fragmentLength == |left|;
        left, begin := left[fragmentLength..], false;
      }
    }

    /** One round of the loop of AddRecord: pad the block if no header fits, then one physical record. */
    method AddFragment(left: Bytes, begin: bool) returns (fragmentLength: nat)
      modifies this
      ensures fragmentLength == PieceLength(old(blockOffset), |left|)
      ensures dest == old(dest) + Piece(crc, old(blockOffset), left, begin)
      ensures blockOffset == PieceEnd(old(blockOffset), |left|)
    {
      var leftover := BLOCK_SIZE - blockOffset;
      if leftover < HEADER_SIZE {
        if leftover > 0 {
          dest := dest + seq(leftover, _ => 0);
        }
        blockOffset := 0;
      }
      assert dest == old(dest) + Padding(old(blockOffset));
      ghost var o := old(blockOffset);
      var avail := BLOCK_SIZE - blockOffset - HEADER_SIZE;
      fragmentLength := if |left| < avail then |left| else avail;
      var end := |left| == fragmentLength;
      var t := if begin && end then FULL_TYPE else if begin then FIRST_TYPE else if end then LAST_TYPE else MIDDLE_TYPE;
      EmitPhysicalRecord(t, left[..fragmentLength]);
      RegroupPiece(old(dest), Padding(o), Header(crc, t, left[..fragmentLength]), left[..fragmentLength]);
    }

    method EmitPhysicalRecord(t: Byte, payload: Bytes)
      requires blockOffset + HEADER_SIZE + |payload| <= BLOCK_SIZE
      modifies this
      ensures dest == old(dest) + Header(crc, t, payload) + payload
      ensures blockOffset == old(blockOffset) + HEADER_SIZE + |payload|
    {
      var buf := EncodeFixed32(Mask(crc([t] + payload))) + [|payload| % 256, |payload| / 256, t];
      dest := dest + buf;
      dest := dest + payload;
      blockOffset := blockOffset + HEADER_SIZE + |payload|;
    }
  }

  class Reader {
    const crc: Checksum
    var rest: Bytes       // what the file has not delivered yet
    var buffer: Bytes
    var eof: bool
    var corruptions: nat  // calls of Reporter::Corruption
    ghost var at: Offset  // where in its block the buffer begins

    constructor (crc: Checksum, file: Bytes)
      ensures this.crc == crc && corruptions == 0 && Valid() && Unread() == file && at == BLOCK_SIZE
    {
      this.crc, rest, buffer, eof, corruptions, at := crc, file, [], false, 0, BLOCK_SIZE;
    }

    ghost function Unread(): Bytes
      reads this
    {
      buffer + rest
    }

    /** The buffer holds what the file has of the rest of the block. */
    ghost predicate Valid()
      reads this
    {
      if eof then rest == [] && |buffer| < BLOCK_SIZE - at else |buffer| == BLOCK_SIZE - at
    }

    /** Reads on past a block's trailer; false at the end of the file. */
    method FillBuffer() returns (ok: bool)
      requires Valid()
      modifies this
      ensures Valid() && corruptions == old(corruptions)
      ensures ok == (|old(Unread())| >= |Padding(old(at))| + HEADER_SIZE)
      ensures if ok then
          Unread() == old(Unread())[|Padding(old(at))|..] && at == Start(old(at)) && |buffer| >= HEADER_SIZE
        else Unread() == [] && at == 0
    {
      ghost var skipped := false;
      while |buffer| < HEADER_SIZE
        invariant Valid() && corruptions == old(corruptions)
        invariant if skipped then |buffer| < BLOCK_SIZE ==> eof else at == old(at) && Unread() == old(Unread())
        invariant skipped ==>
          && BLOCK_SIZE - old(at) < HEADER_SIZE && at == 0
          && |Padding(old(at))| <= |old(Unread())| && Unread() == old(Unread())[|Padding(old(at))|..]
        decreases !skipped
      {
        if !eof {
          // a full read left only a trailer
          buffer := if |rest| < BLOCK_SIZE then rest else rest[..BLOCK_SIZE];
          rest := rest[|buffer|..];
          skipped, at := true, 0;
          if |buffer| < BLOCK_SIZE {
            eof := true;
          }
        } else {
          buffer, at := [], 0;
          return false;
        }
      }
      ok := true;
    }

    method ReadPhysicalRecord() returns (recordType: nat, fragment: Bytes)
      requires Valid()
      modifies this
      ensures Valid() && corruptions >= old(corruptions)
      ensures ReadPhysical(crc, old(at), old(Unread())) ==
        Physical(recordType, fragment, Unread(), at, corruptions - old(corruptions))
    {
      var ok := FillBuffer();
      if !ok { return EOF, []; }
      recordType, fragment := ParseRecord();
    }

    /** The rest of the block is given up. */
    method ClearBuffer()
      requires Valid()
      modifies this`buffer, this`at
      ensures Valid() && (BLOCK_SIZE - old(at) > |old(Unread())| ==> Unread() == [] && at == 0)
      ensures BLOCK_SIZE - old(at) <= |old(Unread())| ==>
        Unread() == old(Unread())[BLOCK_SIZE - old(at)..] && at == BLOCK_SIZE
    {
      buffer := [];
      at := if eof then 0 else BLOCK_SIZE;
    }

    method ParseRecord() returns (recordType: nat, fragment: Bytes)
      requires Valid() && |buffer| >= HEADER_SIZE
      modifies this
      ensures Valid() && corruptions >= old(corruptions)
      ensures Parse(crc, old(at), old(Unread())) ==
        Physical(recordType, fragment, Unread(), at, corruptions - old(corruptions))
    {
      InBuffer(buffer, rest);
      var a: int, b: int := buffer[4], buffer[5];
      var length := a + 256 * b;
      var kind := buffer[6];
      if HEADER_SIZE + length > |buffer| {
        ClearBuffer();
        if !eof {
          corruptions := corruptions + 1;
          return BAD_RECORD, [];
        }
        return EOF, [];
      }
      SliceInBuffer(buffer, rest, HEADER_SIZE + length);
      if kind == ZERO_TYPE && length == 0 {
        ClearBuffer();
        return BAD_RECORD, [];
      }
      var expected := Unmask(DecodeFixed32(buffer));
      if crc(buffer[6..HEADER_SIZE + length]) != expected {
        ClearBuffer();
        corruptions := corruptions + 1;
        return BAD_RECORD, [];
      }
      fragment := buffer[HEADER_SIZE..HEADER_SIZE + length];
      buffer := buffer[HEADER_SIZE + length..];
      at := at + HEADER_SIZE + length;
      return kind, fragment;
    }

    method ReadRecord() returns (ok: bool, record: Bytes)
      requires Valid()
      modifies this
      ensures Valid() && corruptions >= old(corruptions) && (ok ==> |Unread()| < |old(Unread())|)
      ensures Drain(crc, old(at), old(Unread()), None) ==
        if ok then After([record], corruptions - old(corruptions), Drain(crc, at, Unread(), None))
        else Delivery([], corruptions - old(corruptions))
    {
      var scratch := [];
      var inFragmentedRecord := false;
      record := [];
      ghost var all := Drain(crc, at, Unread(), None);
      AfterNothing(0, all);
      while true
        invariant Valid() && corruptions >= old(corruptions) && |Unread()| <= |old(Unread())|
        invariant all == After([], corruptions - old(corruptions),
                               Drain(crc, at, Unread(), Held(inFragmentedRecord, scratch)))
        decreases |Unread()|
      {
        ghost var reported, held := corruptions - old(corruptions), Held(inFragmentedRecord, scratch);
        var recordType, fragment := NextFragment(held, reported, all);
        match recordType {
          case 1 =>
            if inFragmentedRecord && scratch != [] { corruptions := corruptions + 1; }
            return true, fragment;
          case 2 =>
            if inFragmentedRecord && scratch != [] { corruptions := corruptions + 1; }
            scratch, inFragmentedRecord := fragment, true;
          case 3 =>
            if !inFragmentedRecord { corruptions := corruptions + 1; } else { scratch := scratch + fragment; }
          case 4 =>
            if !inFragmentedRecord {
              corruptions := corruptions + 1;
            } else {
              scratch := scratch + fragment;
              return true, scratch;
            }
          case 5 =>
            return false, [];
          case 6 =>
            if inFragmentedRecord {
              corruptions := corruptions + 1;
              inFragmentedRecord, scratch := false, [];
            }
          case _ =>
            corruptions := corruptions + 1;
            inFragmentedRecord, scratch := false, [];
        }
      }
    }

    /** ReadPhysicalRecord, and what the record comes to with what is held of one not finished. */
    method NextFragment(ghost held: Option<Bytes>, ghost reported: nat, ghost all: Delivery)
      returns (recordType: nat, fragment: Bytes)
      requires Valid() && all == After([], reported, Drain(crc, at, Unread(), held))
      modifies this
      ensures Valid() && corruptions >= old(corruptions) && (recordType != EOF ==> |Unread()| < |old(Unread())|)
      ensures var a, n := Assemble(recordType, fragment, held), reported + corruptions - old(corruptions);
        all == if recordType == EOF then Delivery([], n)
               else After(if a.record.Some? then [a.record.value] else [], n + a.reports,
                          Drain(crc, at, Unread(), a.held))
    {
      ghost var at', unread, before := at, Unread(), corruptions;
      recordType, fragment := ReadPhysicalRecord();
      ghost var p := Physical(recordType, fragment, Unread(), at, corruptions - before);
      ghost var a := Assemble(recordType, fragment, held);
      DrainStep(crc, at', unread, held, p);
      AfterCombine(p, held, reported, Drain(crc, at, Unread(), a.held));
    }
  }

  /** What the variables of ReadRecord say of a record not finished. */
  function Held(inFragmentedRecord: bool, scratch: Bytes): Option<Bytes> {
    if inFragmentedRecord then Some(scratch) else None
  }

  lemma AfterCombine(p: Physical, held: Option<Bytes>, reported: nat, next: Delivery)
    ensures var a := Assemble(p.kind, p.fragment, held);
      After([], reported, Combine(p, held, next)) ==
        if p.kind == EOF then Delivery([], reported + p.reports)
        else After(if a.record.Some? then [a.record.value] else [], reported + p.reports + a.reports, next)
  {
    AfterNothing(reported, Combine(p, held, next));
  }

  lemma InBuffer(buffer: Bytes, rest: Bytes)
    requires |buffer| >= HEADER_SIZE
    ensures Announced(buffer + rest) == Announced(buffer) && ZeroHeader(buffer + rest) == ZeroHeader(buffer)
      && (buffer + rest)[6] == buffer[6]
    ensures DecodeFixed32(buffer + rest) == DecodeFixed32(buffer)
  {
  }

  lemma SliceInBuffer(buffer: Bytes, rest: Bytes, n: nat)
    requires HEADER_SIZE <= n <= |buffer|
    ensures (buffer + rest)[6..n] == buffer[6..n] && (buffer + rest)[HEADER_SIZE..n] == buffer[HEADER_SIZE..n]
    ensures (buffer + rest)[n..] == buffer[n..] + rest
  {
  }

  /** Reads a whole log, as recovery does. */
  method ReadLog(crc: Checksum, file: Bytes) returns (out: seq<Bytes>, corruptions: nat)
    ensures Delivery(out, corruptions) == Drain(crc, 0, file, None)
  {
    var reader := new Reader(crc, file);
    out := [];
    ghost var all := Drain(crc, BLOCK_SIZE, file, None);
    FreshBlock(crc, file, None);
    AfterNothing(0, all);
    while true
      invariant fresh(reader) && reader.crc == crc && reader.Valid()
      invariant all == After(out, reader.corruptions, Drain(crc, reader.at, reader.Unread(), None))
      decreases |reader.Unread()|
    {
      ghost var before, reported := out, reader.corruptions;
      var ok, record := reader.ReadRecord();
      if !ok { break; }
      out := out + [record];
      AfterTwice(before, reported, [record], reader.corruptions - reported,
                 Drain(crc, reader.at, reader.Unread(), None));
    }
    corruptions := reader.corruptions;
    assert out + [] == out;
  }

  /** A writer opened at the end of a file goes on with the block the file ends in. */
  method AppendLog(crc: Checksum, before: Bytes, records: seq<Bytes>) returns (file: Bytes)
    ensures file == before + Log(crc, |before| % BLOCK_SIZE, records)
  {
    var writer := new Writer(crc, before);
    ghost var o := |before| % BLOCK_SIZE;
    for i := 0 to |records|
      invariant fresh(writer) && writer.crc == crc
      invariant writer.dest == before + Log(crc, o, records[..i]) && writer.blockOffset == LogEnd(o, records[..i])
    {
      writer.AddRecord(records[i]);
      assert records[..i + 1] == records[..i] + [records[i]];
      LogAppend(crc, o, records[..i], [records[i]]);
      LogOfOne(crc, LogEnd(o, records[..i]), records[i]);
      Regroup(before, Log(crc, o, records[..i]), Log(crc, LogEnd(o, records[..i]), [records[i]]));
    }
    assert records[..|records|] == records;
    file := writer.dest;
  }

  method WriteLog(crc: Checksum, records: seq<Bytes>) returns (file: Bytes)
    ensures file == Log(crc, 0, records)
  {
    NothingBefore(Log(crc, 0, records));
    file := AppendLog(crc, [], records);
  }

  /** Written, cut off after `n` bytes by a crash, and read again: the records wholly inside the
      cut come back, in order, no other does, and nothing is reported as corrupt. */
  method ReadAfterCrash(crc: Checksum, records: seq<Bytes>, n: nat) returns (out: seq<Bytes>, corruptions: nat)
    requires n <= |Log(crc, 0, records)|
    ensures corruptions == 0
    ensures |out| <= |records| && out == records[..|out|]
    ensures |Log(crc, 0, records[..|out|])| <= n
    ensures |out| < |records| ==> n < |Log(crc, 0, records[..|out| + 1])|
  {
    var file := WriteLog(crc, records);
    out, corruptions := ReadLog(crc, file[..n]);
    DrainPrefix(crc, 0, records, file[..n]);
    CompleteIsLongest(crc, 0, records, n);
  }
}
