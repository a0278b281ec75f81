/** Appending to a log that a crash has cut off (db/db_impl.cc, RecoverLogFile with reuse_logs;
    db/version_set.cc, ReuseManifest). */
module LogReopen {
  import opened InternalKeys
  import opened ReadSpec
  import opened Coding
  import opened LogFormat
  import opened LogReading
  import opened LogFile

  // ---- A writer finds its place in the block from the length of the file ----

  lemma {:induction false} EmitSpan(crc: Checksum, o: Offset, data: Bytes, begin: bool) returns (k: nat)
    ensures o + |Emit(crc, o, data, begin)| == EmitEnd(o, |data|) + k * BLOCK_SIZE
    decreases |data|, if PieceLength(o, |data|) == 0 then 1 else 0
  {
    var n, pad := PieceLength(o, |data|), if BLOCK_SIZE - o < HEADER_SIZE then 1 else 0;
    EmitStep(crc, o, data, begin);
    k := pad;
    if n < |data| {
      var more := EmitSpan(crc, PieceEnd(o, |data|), data[n..], false);
      k := pad + more;
      assert (pad + more) * BLOCK_SIZE == pad * BLOCK_SIZE + more * BLOCK_SIZE;
    }
  }

  lemma {:induction false} LogSpan(crc: Checksum, o: Offset, records: seq<Bytes>) returns (k: nat)
    ensures o + |Log(crc, o, records)| == LogEnd(o, records) + k * BLOCK_SIZE
    decreases |records|
  {
    k := 0;
    if records != [] {
      var first := EmitSpan(crc, o, records[0], true);
      var rest := LogSpan(crc, EmitEnd(o, |records[0]|), records[1..]);
      k := first + rest;
      assert (first + rest) * BLOCK_SIZE == first * BLOCK_SIZE + rest * BLOCK_SIZE;
    }
  }

  lemma WholeBlocks(n: nat, o: nat, j: nat, k: nat)
    requires n == o + k * BLOCK_SIZE
    ensures (n + j) % BLOCK_SIZE == (o + j) % BLOCK_SIZE
  {
    SameRemainder(o + j, k);
  }

  lemma {:induction false} SameRemainder(a: nat, k: nat)
    ensures (a + k * BLOCK_SIZE) % BLOCK_SIZE == a % BLOCK_SIZE
  {
    if k > 0 {
      SameRemainder(a, k - 1);
      assert a + k * BLOCK_SIZE == a + (k - 1) * BLOCK_SIZE + BLOCK_SIZE;
    }
  }

  function Zeros(n: nat): (r: Bytes)
    ensures |r| == n
  {
    seq(n, _ => 0)
  }

  lemma PaddedPlace(o: Offset, j: nat, left: nat)
    requires j <= |Padding(o)|
    ensures var o' := (o + j) % BLOCK_SIZE;
      && Start(o') == Start(o) && Zeros(j) + Padding(o') == Padding(o)
      && PieceLength(o', left) == PieceLength(o, left) && PieceEnd(o', left) == PieceEnd(o, left)
  {
    if j == 0 {
      assert Zeros(0) == [];
    } else {
      assert Padding(o) == Zeros(BLOCK_SIZE - o);
      var o' := (o + j) % BLOCK_SIZE;
      assert o' == if o + j == BLOCK_SIZE then 0 else o + j;
      assert Zeros(j) + Zeros(BLOCK_SIZE - o - j) == Zeros(BLOCK_SIZE - o);
    }
  }

  lemma PiecePadded(crc: Checksum, o: Offset, o': Offset, j: nat, data: Bytes)
    requires Zeros(j) + Padding(o') == Padding(o) && PieceLength(o', |data|) == PieceLength(o, |data|)
    ensures Zeros(j) + Piece(crc, o', data, true) == Piece(crc, o, data, true)
  {
    var n := PieceLength(o, |data|);
    var header := Header(crc, PieceType(true, n == |data|), data[..n]);
    assert Zeros(j) + (Padding(o') + header + data[..n]) == Zeros(j) + Padding(o') + header + data[..n];
  }

  /** Part of a block's padding makes no difference to what is written next. */
  lemma EmitPadded(crc: Checksum, o: Offset, o': Offset, j: nat, data: Bytes)
    requires j <= |Padding(o)| && o' == (o + j) % BLOCK_SIZE
    ensures Zeros(j) + Emit(crc, o', data, true) == Emit(crc, o, data, true)
      && EmitEnd(o', |data|) == EmitEnd(o, |data|)
  {
    PaddedPlace(o, j, |data|);
    PiecePadded(crc, o, o', j, data);
    EmitStep(crc, o, data, true);
    EmitStep(crc, o', data, true);
    var n := PieceLength(o, |data|);
    if n < |data| { Regroup(Zeros(j), Piece(crc, o', data, true), Emit(crc, PieceEnd(o, |data|), data[n..], false)); }
  }

  lemma LogPadded(crc: Checksum, o: Offset, o': Offset, j: nat, more: seq<Bytes>)
    requires j <= |Padding(o)| && more != [] && o' == (o + j) % BLOCK_SIZE
    ensures Zeros(j) + Log(crc, o', more) == Log(crc, o, more)
  {
    EmitPadded(crc, o, o', j, more[0]);
    Regroup(Zeros(j), Emit(crc, o', more[0], true), Log(crc, EmitEnd(o, |more[0]|), more[1..]));
  }

  // ---- Where a crash has cut ------------------------------------------------

  /** Between two physical records, after `written` bytes of the payload of a record that is not
      finished; or inside a physical record, `have` bytes of which are there. */
  datatype Cut =
    | Between(written: nat)
    | Inside(start: Offset, have: nat, length: nat, last: bool)

  /** Where `c` bytes of what AddRecord writes end, for a record of which `left` bytes are to be written. */
  function CutOf(o: Offset, left: nat, c: nat, written: nat): Cut
    decreases left, if PieceLength(o, left) == 0 then 1 else 0
  {
    var n, pad := PieceLength(o, left), |Padding(o)|;
    if c <= pad then Between(written)
    else if c < pad + HEADER_SIZE + n then Inside(Start(o), c - pad, n, n == left)
    else if n == left then Between(0)
    else CutOf(PieceEnd(o, left), left - n, c - (pad + HEADER_SIZE + n), written + n)
  }

  /** Where the first `n` bytes of a log end, as seen from its last whole record. */
  function LogCut(crc: Checksum, records: seq<Bytes>, n: nat): Cut
    requires n <= |Log(crc, 0, records)|
  {
    CompleteIsLongest(crc, 0, records, n);
    var kept := Complete(crc, 0, records, n);
    if |kept| == |records| then Between(0)
    else CutOf(LogEnd(0, kept), |records[|kept|]|, n - |Log(crc, 0, kept)|, 0)
  }

  /** Nothing of a further record is there but its empty first fragment, or there is no room for another
      header in the block and what is there of one looks like the zeros that fill a block. */
  predicate Harmless(cut: Cut) {
    match cut
    case Between(written) => written == 0
    case Inside(start, have, length, _) => !Room(start, have) && (have <= 4 || length == 0)
  }

  /** The writer has room for a header behind the bytes it finds. */
  predicate Room(start: Offset, have: nat) {
    start + have + HEADER_SIZE <= BLOCK_SIZE
  }

  // ---- What a reader makes of the rest of a block -----------------------------

  /** At the next block the reader is between two of the records appended, or inside one of them. */
  lemma {:induction false} NextBlock(crc: Checksum, a: Offset, more: seq<Bytes>) returns (q: nat, left: Bytes)
    requires more != [] && |Log(crc, a, more)| >= BLOCK_SIZE - a
    ensures q <= |more| && (q == 0 && left == [] <==> a + HEADER_SIZE > BLOCK_SIZE)
    ensures left == [] ==> Log(crc, a, more)[BLOCK_SIZE - a..] == Log(crc, 0, more[q..])
    ensures left != [] ==>
      q < |more| && Log(crc, a, more)[BLOCK_SIZE - a..] ==
        Emit(crc, BLOCK_SIZE, left, false) + Log(crc, EmitEnd(BLOCK_SIZE, |left|), more[q + 1..])
    ensures left != [] && q == 0 ==> |left| == |more[0]| - (BLOCK_SIZE - a - HEADER_SIZE)
    decreases |more|
  {
    var d := more[0];
    var n, end := PieceLength(a, |d|), EmitEnd(a, |d|);
    EmitStep(crc, a, d, true);
    if a + HEADER_SIZE > BLOCK_SIZE {
      q, left := 0, [];
      PaddedBlock(crc, a, more);
    } else if n < |d| {
      q, left := 0, d[n..];
      FragmentedFirst(crc, a, more);
    } else if more[1..] == [] {
      q, left := 1, [];
      assert Log(crc, a, more)[BLOCK_SIZE - a..] == [];
    } else {
      var q', left' := NextBlock(crc, end, more[1..]);
      q, left := q' + 1, left';
      SkipFirst(Log(crc, a, more), Emit(crc, a, d, true), Log(crc, end, more[1..]), BLOCK_SIZE - a);
      assert more[1..][q'..] == more[q..];
      if left != [] { assert more[1..][q' + 1..] == more[q + 1..]; }
    }
  }

  lemma FragmentedFirst(crc: Checksum, a: Offset, more: seq<Bytes>)
    requires more != [] && a + HEADER_SIZE <= BLOCK_SIZE && PieceLength(a, |more[0]|) < |more[0]|
    ensures var left := more[0][PieceLength(a, |more[0]|)..];
      && EmitEnd(a, |more[0]|) == EmitEnd(BLOCK_SIZE, |left|)
      && Log(crc, a, more)[BLOCK_SIZE - a..] ==
          Emit(crc, BLOCK_SIZE, left, false) + Log(crc, EmitEnd(a, |more[0]|), more[1..])
  {
    var piece, left := Piece(crc, a, more[0], true), more[0][PieceLength(a, |more[0]|)..];
    var first, rest := Emit(crc, BLOCK_SIZE, left, false), Log(crc, EmitEnd(a, |more[0]|), more[1..]);
    EmitStep(crc, a, more[0], true);
    Regroup(piece, first, rest);
    SplitAt(piece + first + rest, piece, first + rest);
  }

  lemma SplitAt(s: Bytes, a: Bytes, b: Bytes)
    requires s == a + b
    ensures s[|a|..] == b
  {
  }

  lemma SkipFirst(s: Bytes, a: Bytes, b: Bytes, n: nat)
    requires s == a + b && |a| <= n <= |s|
    ensures s[n..] == b[n - |a|..]
  {
  }

  lemma PaddedBlock(crc: Checksum, a: Offset, more: seq<Bytes>)
    requires a + HEADER_SIZE > BLOCK_SIZE && more != []
    ensures Log(crc, a, more) == Zeros(BLOCK_SIZE - a) + Log(crc, 0, more)
    ensures Log(crc, a, more)[BLOCK_SIZE - a..] == Log(crc, 0, more[0..])
  {
    LogPadded(crc, a, 0, BLOCK_SIZE - a, more);
    SplitAt(Log(crc, a, more), Zeros(BLOCK_SIZE - a), Log(crc, 0, more));
    assert more[0..] == more;
  }

  /** The next block begins at `at` with `rest`; the file may end before it. */
  ghost predicate FromNextBlock(log: Bytes, a: Offset, at: Offset, rest: Bytes) {
    if |log| >= BLOCK_SIZE - a then at == BLOCK_SIZE && rest == log[BLOCK_SIZE - a..] else at == 0 && rest == []
  }

  lemma FillsBlock(crc: Checksum, a: Offset, more: seq<Bytes>)
    requires more != []
    ensures a + HEADER_SIZE > BLOCK_SIZE ==> |Log(crc, a, more)| >= BLOCK_SIZE - a
  {
    if a + HEADER_SIZE > BLOCK_SIZE { PaddedBlock(crc, a, more); }
  }

  /** With nothing in hand, the reader gets all that was appended only if it comes upon all of it. */
  lemma SkippedBlock(crc: Checksum, a: Offset, more: seq<Bytes>, at: Offset, rest: Bytes)
    requires more != [] && FromNextBlock(Log(crc, a, more), a, at, rest)
    ensures Drain(crc, at, rest, None) == Delivery(more, 0) <==> a + HEADER_SIZE > BLOCK_SIZE
  {
    FillsBlock(crc, a, more);
    if |Log(crc, a, more)| < BLOCK_SIZE - a {
      NothingToRead(crc, at, None);
    } else {
      var q, left := NextBlock(crc, a, more);
      if left == [] {
        FreshBlock(crc, rest, None);
        DrainWholeLog(crc, 0, more[q..], None);
      } else {
        MissingStart(crc, left, Log(crc, EmitEnd(BLOCK_SIZE, |left|), more[q + 1..]));
      }
    }
  }

  /** A fragment whose first part is missing is reported. */
  lemma MissingStart(crc: Checksum, left: Bytes, more: Bytes)
    ensures Drain(crc, BLOCK_SIZE, Emit(crc, BLOCK_SIZE, left, false) + more, None).reports > 0
  {
    var n, end := PieceLength(BLOCK_SIZE, |left|), PieceEnd(BLOCK_SIZE, |left|);
    var piece := Piece(crc, BLOCK_SIZE, left, false);
    EmitStep(crc, BLOCK_SIZE, left, false);
    var rest := if n == |left| then more else Emit(crc, end, left[n..], false) + more;
    if n < |left| { Regroup(piece, Emit(crc, end, left[n..], false), more); }
    PhysicalWhole(crc, BLOCK_SIZE, left, false, rest);
  }

  /** With a fragment in hand that took up the block, the reader never gets what was appended. */
  lemma SwallowedBlock(crc: Checksum, a: Offset, more: seq<Bytes>, held: Bytes, rest: Bytes)
    requires more != [] && |Log(crc, a, more)| >= BLOCK_SIZE - a && rest == Log(crc, a, more)[BLOCK_SIZE - a..]
    requires |held| > 0 && |held| + a + HEADER_SIZE > BLOCK_SIZE
    ensures Drain(crc, BLOCK_SIZE, rest, Some(held)) != Delivery(more, 0)
  {
    var q, left := NextBlock(crc, a, more);
    if left == [] {
      FreshBlock(crc, rest, Some(held));
      DrainWholeLog(crc, 0, more[q..], Some(held));
    } else {
      var end := EmitEnd(BLOCK_SIZE, |left|);
      DrainEmit(crc, BLOCK_SIZE, left, false, Log(crc, end, more[q + 1..]), Some(held));
      DrainWholeLog(crc, end, more[q + 1..], None);
    }
  }

  /** Padding and a log in a block too full for another header, seen from a place nearer its end. */
  lemma PaddedFrom(crc: Checksum, a: Offset, end: Offset, more: seq<Bytes>, log: Bytes)
    requires more != [] && a <= end && a + HEADER_SIZE > BLOCK_SIZE && log == Zeros(BLOCK_SIZE - a) + Log(crc, 0, more)
    ensures log[end - a..] == Log(crc, end, more)
  {
    PaddedBlock(crc, end, more);
    ZerosFrom(BLOCK_SIZE - a, end - a, Log(crc, 0, more));
  }

  lemma ZerosFrom(n: nat, i: nat, more: Bytes)
    requires i <= n
    ensures (Zeros(n) + more)[i..] == Zeros(n - i) + more
  {
  }

  // ---- What follows a tear ------------------------------------------------------

  type Drainer = (Offset, Bytes, Option<Bytes>) -> Delivery

  function DrainerOf(crc: Checksum): Drainer {
    (o: Offset, unread: Bytes, held: Option<Bytes>) => Drain(crc, o, unread, held)
  }

  /** What a reader gets of `log`, written from offset `a` of a block to hold `more`, if it takes it up
      behind that block's end, with a fragment in hand that took up the block, or in that block's padding. */
  ghost predicate Resumes(drain: Drainer, a: Offset, log: Bytes, more: seq<Bytes>) {
    && ResumesSkipping(drain, a, log, more) && ResumesHolding(drain, a, log, more)
    && (a + HEADER_SIZE > BLOCK_SIZE ==> ResumesPadded(drain, a, log, more))
  }

  ghost predicate ResumesSkipping(drain: Drainer, a: Offset, log: Bytes, more: seq<Bytes>) {
    forall at, rest :: FromNextBlock(log, a, at, rest) ==>
      (drain(at, rest, None) == Delivery(more, 0) <==> a + HEADER_SIZE > BLOCK_SIZE)
  }

  ghost predicate ResumesHolding(drain: Drainer, a: Offset, log: Bytes, more: seq<Bytes>) {
    |log| >= BLOCK_SIZE - a ==>
      forall rest, held :: rest == log[BLOCK_SIZE - a..] && 0 < |held| && |held| + a + HEADER_SIZE > BLOCK_SIZE ==>
        drain(BLOCK_SIZE, rest, Some(held)) != Delivery(more, 0)
  }

  ghost predicate ResumesPadded(drain: Drainer, a: Offset, log: Bytes, more: seq<Bytes>) {
    && |log| >= BLOCK_SIZE - a && log[..BLOCK_SIZE - a] == Zeros(BLOCK_SIZE - a)
    && forall end: Offset, rest :: a <= end && rest == log[end - a..] ==> drain(end, rest, None) == Delivery(more, 0)
  }

  lemma LogResumes(crc: Checksum, a: Offset, more: seq<Bytes>, log: Bytes)
    requires more != [] && log == Log(crc, a, more)
    ensures Resumes(DrainerOf(crc), a, log, more)
  {
    forall at, rest | FromNextBlock(log, a, at, rest)
      ensures DrainerOf(crc)(at, rest, None) == Delivery(more, 0) <==> a + HEADER_SIZE > BLOCK_SIZE
    {
      SkippedBlock(crc, a, more, at, rest);
    }
    forall rest, held | |log| >= BLOCK_SIZE - a && rest == log[BLOCK_SIZE - a..] && 0 < |held|
      && |held| + a + HEADER_SIZE > BLOCK_SIZE
      ensures DrainerOf(crc)(BLOCK_SIZE, rest, Some(held)) != Delivery(more, 0)
    {
      SwallowedBlock(crc, a, more, held, rest);
    }
    if a + HEADER_SIZE > BLOCK_SIZE { LogResumesPadded(crc, a, more, log); }
  }

  lemma LogResumesPadded(crc: Checksum, a: Offset, more: seq<Bytes>, log: Bytes)
    requires more != [] && log == Log(crc, a, more) && a + HEADER_SIZE > BLOCK_SIZE
    ensures ResumesPadded(DrainerOf(crc), a, log, more)
  {
    PaddedBlock(crc, a, more);
    forall end: Offset, rest | a <= end && rest == log[end - a..]
      ensures DrainerOf(crc)(end, rest, None) == Delivery(more, 0)
    {
      PaddedFrom(crc, a, end, more, log);
      DrainWholeLog(crc, end, more, None);
    }
  }

  // ---- A physical record cut off -----------------------------------------------

  /** `head` begins a physical record of type `t` with a payload of `length` bytes. */
  ghost predicate Begun(head: Bytes, t: Byte, length: nat) {
    && (|head| > 4 ==> head[4] == length % 256)
    && (|head| > 5 ==> head[5] == length / 256)
    && (|head| > 6 ==> head[6] == t)
  }

  /** At `start` of a block, `head` of a physical record was written before the crash and `log` after it. */
  ghost predicate Torn(start: Offset, length: nat, begin: bool, last: bool, head: Bytes, log: Bytes) {
    && 0 < |head| < HEADER_SIZE + length && start + HEADER_SIZE + length <= BLOCK_SIZE && |log| >= HEADER_SIZE
    && (!last ==> start + HEADER_SIZE + length == BLOCK_SIZE) && (!begin ==> start == 0)
    && Begun(head, PieceType(begin, last), length)
  }

  /** Whether what the reader meets at the tear can be told without looking into the checksum function:
      it fails the checksum, or there was no room for a record behind it, or the tear is in the payload of a
      fragment, or of a record whose length the first record appended does not have. */
  predicate Told(cut: Cut, sound: bool, total: nat, more: seq<Bytes>)
    requires more != []
  {
    match cut
    case Between(_) => true
    case Inside(start, have, _, last) =>
      !sound || !Room(start, have) || (have >= HEADER_SIZE && (!last || |more[0]| != total))
  }

  /** What the reader sees where a record was broken off: nothing it can use, or a physical record. */
  ghost predicate Seen(crc: Checksum, start: Offset, length: nat, t: Byte, have: nat, s: Bytes, p: Physical)
    requires |s| >= HEADER_SIZE
  {
    if ZeroHeader(s) then p == Drop(start, s, 0) && !Sound(crc, start, s)
    else if !Sound(crc, start, s) then (p.kind == EOF && p.reports == 0) || (p.kind == BAD_RECORD && p.reports == 1)
    else if have < HEADER_SIZE then p.kind == s[6] as int && p.reports == 0
    else
      && |s| >= HEADER_SIZE + length && p.kind == t as int && p.reports == 0 && |p.fragment| == length
      && p.at == start + HEADER_SIZE + length && p.rest == s[HEADER_SIZE + length..]
  }

  lemma BrokenSeen(crc: Checksum, start: Offset, length: nat, t: Byte, head: Bytes, log: Bytes)
    requires start + HEADER_SIZE + length <= BLOCK_SIZE && |head + log| >= HEADER_SIZE && Begun(head, t, length)
    ensures Seen(crc, start, length, t, |head|, head + log, Parse(crc, start, head + log))
  {
    var s := head + log;
    if |head| >= HEADER_SIZE { assert s[4] == head[4] && s[5] == head[5] && s[6] == head[6]; }
  }

  /** With no room for another header, the bytes missing from one are read as zeros. */
  lemma BrokenHeader(drain: Drainer, start: Offset, length: nat, begin: bool, last: bool, head: Bytes, log: Bytes,
                     more: seq<Bytes>)
    requires Torn(start, length, begin, last, head, log) && |head| < HEADER_SIZE && !Room(start, |head|)
    requires Resumes(drain, start + |head|, log, more)
    ensures var s := head + log; s[6] == 0 && (ZeroHeader(s) <==> |head| <= 4 || length == 0)
  {
    var s, a := head + log, start + |head|;
    assert forall i :: |head| <= i < BLOCK_SIZE - start ==> s[i] == log[..BLOCK_SIZE - a][i - |head|] == 0;
    assert forall i :: 0 <= i < |head| ==> s[i] == head[i];
  }

  /** A header cut off is taken for padding, with nothing lost, just if the cut is harmless. */
  lemma HarmlessIsZero(drain: Drainer, start: Offset, length: nat, begin: bool, last: bool, head: Bytes, log: Bytes,
                       more: seq<Bytes>)
    requires Torn(start, length, begin, last, head, log) && Resumes(drain, start + |head|, log, more)
    ensures Harmless(Inside(start, |head|, length, last)) <==> ZeroHeader(head + log) && !Room(start, |head|)
  {
    if |head| >= HEADER_SIZE {
      var s := head + log;
      assert s[4] == head[4] && s[5] == head[5];
    } else if !Room(start, |head|) {
      BrokenHeader(drain, start, length, begin, last, head, log, more);
    }
  }

  lemma RestOfBlock(head: Bytes, log: Bytes, start: Offset, a: Offset)
    requires a == start + |head|
    ensures |head + log| >= BLOCK_SIZE - start <==> |log| >= BLOCK_SIZE - a
    ensures |log| >= BLOCK_SIZE - a ==> (head + log)[BLOCK_SIZE - start..] == log[BLOCK_SIZE - a..]
  {
  }

  /** The rest of the block is given up without a report. */
  lemma ZeroNext(drain: Drainer, start: Offset, head: Bytes, log: Bytes, more: seq<Bytes>, p: Physical,
                 held: Option<Bytes>, next: Delivery)
    requires start + |head| <= BLOCK_SIZE && Resumes(drain, start + |head|, log, more)
    requires p == Drop(start, head + log, 0) && (held.Some? ==> Room(start, |head|))
    requires next == drain(p.at, p.rest, None)
    ensures Combine(p, held, next) == Delivery(more, 0) <==> !Room(start, |head|)
  {
    RestOfBlock(head, log, start, start + |head|);
    assert FromNextBlock(log, start + |head|, p.at, p.rest);
    AfterNothing(0, next);
  }

  /** What follows in the file makes up for the rest of a fragment, checksum and all. */
  lemma FragmentNext(drain: Drainer, start: Offset, head: Bytes, log: Bytes, more: seq<Bytes>, p: Physical,
                     held: Option<Bytes>, next: Delivery)
    requires head != [] && start + |head| <= BLOCK_SIZE && Resumes(drain, start + |head|, log, more)
    requires (p.kind == 2 || (p.kind == 3 && held.Some?)) && p.at == BLOCK_SIZE && |p.fragment| > 0
      && |p.fragment| == BLOCK_SIZE - start - HEADER_SIZE
    requires |head + log| >= BLOCK_SIZE - start && p.rest == (head + log)[BLOCK_SIZE - start..]
    requires next == drain(p.at, p.rest, Assemble(p.kind, p.fragment, held).held)
    ensures Combine(p, held, next) != Delivery(more, 0)
  {
    RestOfBlock(head, log, start, start + |head|);
    AfterNothing(p.reports, next);
  }

  /** What follows in the file makes up for the rest of a record, checksum and all. */
  lemma RecordNext(drain: Drainer, start: Offset, head: Bytes, log: Bytes, more: seq<Bytes>, p: Physical,
                   held: Option<Bytes>, next: Delivery, total: nat)
    requires start + |head| <= p.at && Resumes(drain, start + |head|, log, more) && more != []
    requires (p.kind == 1 && held.None?) || (p.kind == 4 && held.Some?)
    requires total == |p.fragment| + if held.Some? then |held.value| else 0
    requires |head + log| >= p.at - start && p.rest == (head + log)[p.at - start..]
    requires next == drain(p.at, p.rest, None)
    requires !Room(start, |head|) || |more[0]| != total
    ensures Combine(p, held, next) != Delivery(more, 0)
  {
    if !Room(start, |head|) {
      SkipFirst(head + log, head, log, p.at - start);
      assert |Combine(p, held, next).records| == 1 + |next.records|;
    }
  }

  function Total(held: Option<Bytes>, left: nat): nat {
    left + if held.Some? then |held.value| else 0
  }

  /** Whether the reader gets all that was appended, if that can be told. */
  lemma BrokenCut(crc: Checksum, drain: Drainer, start: Offset, length: nat, begin: bool, last: bool, head: Bytes,
                  log: Bytes, more: seq<Bytes>, held: Option<Bytes>, s: Bytes, p: Physical, next: Delivery)
    requires Torn(start, length, begin, last, head, log) && Resumes(drain, start + |head|, log, more) && more != []
    requires begin == held.None? && s == head + log
      && Seen(crc, start, length, PieceType(begin, last), |head|, s, p)
    requires Told(Inside(start, |head|, length, last), Sound(crc, start, s), Total(held, length), more)
    requires next == drain(p.at, p.rest, Assemble(p.kind, p.fragment, held).held)
    ensures Combine(p, held, next) == Delivery(more, 0) <==> Harmless(Inside(start, |head|, length, last))
  {
    HarmlessIsZero(drain, start, length, begin, last, head, log, more);
    if ZeroHeader(s) {
      ZeroNext(drain, start, head, log, more, p, held, next);
    } else if Sound(crc, start, s) {
      if |head| < HEADER_SIZE {
        BrokenHeader(drain, start, length, begin, last, head, log, more);
      } else if last {
        RecordNext(drain, start, head, log, more, p, held, next, Total(held, length));
      } else {
        FragmentNext(drain, start, head, log, more, p, held, next);
      }
    }
  }
  // ---- A log cut off and appended to ---------------------------------------------

  /** Where in its block a writer goes on. */
  function Place(o: Offset, c: nat): Offset {
    (o + c) % BLOCK_SIZE
  }

  lemma PlaceInBlock(o: Offset, c: nat, have: nat)
    requires c == |Padding(o)| + have && 0 < have && Start(o) + have < BLOCK_SIZE
    ensures Place(o, c) == Start(o) + have
  {
    if BLOCK_SIZE - o < HEADER_SIZE { SameRemainder(have, 1); }
  }

  /** The first bytes of a physical record, without the padding before it. */
  function Head(crc: Checksum, o: Offset, data: Bytes, begin: bool, have: nat): (head: Bytes)
    requires have <= HEADER_SIZE + PieceLength(o, |data|)
    ensures |head| == have
  {
    var n := PieceLength(o, |data|);
    (Header(crc, PieceType(begin, n == |data|), data[..n]) + data[..n])[..have]
  }

  lemma HeadOfPiece(crc: Checksum, o: Offset, data: Bytes, begin: bool, have: nat)
    requires have <= HEADER_SIZE + PieceLength(o, |data|)
    ensures var n, c := PieceLength(o, |data|), |Padding(o)| + have;
      && c <= |Piece(crc, o, data, begin)|
      && Piece(crc, o, data, begin)[..c] == Padding(o) + Head(crc, o, data, begin, have)
      && Begun(Head(crc, o, data, begin, have), PieceType(begin, n == |data|), n)
  {
    var n := PieceLength(o, |data|);
    var header := Header(crc, PieceType(begin, n == |data|), data[..n]);
    Regroup(Padding(o), header, data[..n]);
    assert (Padding(o) + (header + data[..n]))[..|Padding(o)| + have] == Padding(o) + (header + data[..n])[..have];
  }

  lemma ReadBroken(crc: Checksum, o: Offset, head: Bytes, log: Bytes)
    requires |head + log| >= HEADER_SIZE
    ensures ReadPhysical(crc, o, Padding(o) + head + log) == Parse(crc, Start(o), head + log)
  {
    Regroup(Padding(o), head, log);
    SplitAt(Padding(o) + (head + log), Padding(o), head + log);
  }

  /** What the reader makes of a broken record, in terms of the physical record it sees there. */
  lemma DrainBroken(crc: Checksum, o: Offset, head: Bytes, log: Bytes, held: Option<Bytes>, p: Physical)
    requires |head + log| >= HEADER_SIZE && p == Parse(crc, Start(o), head + log)
    ensures Drain(crc, o, Padding(o) + head + log, held) ==
      Combine(p, held, DrainerOf(crc)(p.at, p.rest, Assemble(p.kind, p.fragment, held).held))
  {
    ReadBroken(crc, o, head, log);
    DrainStep(crc, o, Padding(o) + head + log, held, p);
  }

  /** As long as what follows is shorter than what is missing, the reader sees a record cut off at the
      end of the file. */
  lemma BrokenStalls(crc: Checksum, start: Offset, head: Bytes, log: Bytes, length: nat, t: Byte)
    requires start + HEADER_SIZE + length <= BLOCK_SIZE && Begun(head, t, length)
    requires |head| >= HEADER_SIZE && |head| + |log| < HEADER_SIZE + length
    ensures Parse(crc, start, head + log) == Physical(EOF, [], [], 0, 0)
  {
    var s := head + log;
    assert s[4] == head[4] && s[5] == head[5];
  }

  /** What the reader delivers from where a record was cut off, if `appended` bytes follow. */
  ghost predicate CutDelivers(cut: Cut, sound: bool, appended: nat, total: nat, more: seq<Bytes>, d: Delivery)
    requires more != []
  {
    match cut
    case Between(gathered) => d == Delivery(more, if gathered == 0 then 0 else 1)
    case Inside(_, have, length, _) =>
      && (Told(cut, sound, total, more) ==> (d == Delivery(more, 0) <==> Harmless(cut)))
      && (have >= HEADER_SIZE && have + appended < HEADER_SIZE + length ==> d == Delivery([], 0))
  }

  /** The reader comes upon the cut in the physical record at hand. */
  lemma CutInPiece(crc: Checksum, drain: Drainer, start: Offset, length: nat, begin: bool, last: bool, head: Bytes,
                   log: Bytes, more: seq<Bytes>, held: Option<Bytes>, total: nat, cut: Cut, p: Physical)
    requires Torn(start, length, begin, last, head, log) && Resumes(drain, start + |head|, log, more) && more != []
    requires begin == held.None? && cut == Inside(start, |head|, length, last)
      && (last ==> total == Total(held, length))
    requires p == Parse(crc, start, head + log)
    ensures CutDelivers(cut, Sound(crc, start, head + log), |log|, total, more,
                        Combine(p, held, drain(p.at, p.rest, Assemble(p.kind, p.fragment, held).held)))
  {
    BrokenSeen(crc, start, length, PieceType(begin, last), head, log);
    if Told(cut, Sound(crc, start, head + log), total, more) {
      BrokenCut(crc, drain, start, length, begin, last, head, log, more, held, head + log, p,
                drain(p.at, p.rest, Assemble(p.kind, p.fragment, held).held));
    }
    if |head| >= HEADER_SIZE && |head| + |log| < HEADER_SIZE + length {
      BrokenStalls(crc, start, head, log, length, PieceType(begin, last));
    }
  }

  /** What is written of the physical record the cut is in. */
  function Tear(written: Bytes, cut: Cut): Bytes
    requires cut.Inside? && cut.have <= |written|
  {
    written[|written| - cut.have..]
  }

  lemma {:induction false} CutFits(o: Offset, left: nat, c: nat, written: nat)
    ensures var cut := CutOf(o, left, c, written);
      cut.Inside? ==> 0 < cut.have <= c && cut.have < HEADER_SIZE + cut.length
    decreases left, if PieceLength(o, left) == 0 then 1 else 0
  {
    var n := PieceLength(o, left);
    if n < left && c >= |Padding(o)| + HEADER_SIZE + n {
      CutFits(PieceEnd(o, left), left - n, c - (|Padding(o)| + HEADER_SIZE + n), written + n);
    }
  }

  lemma LaterPlace(o: Offset, left: nat, c: nat)
    requires PieceLength(o, left) < left && |Padding(o)| + HEADER_SIZE + PieceLength(o, left) <= c
    ensures PieceEnd(o, left) == BLOCK_SIZE
      && Place(o, c) == Place(BLOCK_SIZE, c - (|Padding(o)| + HEADER_SIZE + PieceLength(o, left)))
  {
    var c' := c - (|Padding(o)| + HEADER_SIZE + PieceLength(o, left));
    SameRemainder(BLOCK_SIZE + c', if BLOCK_SIZE - o < HEADER_SIZE then 1 else 0);
  }

  lemma FirstBytes(s: Bytes, a: Bytes, b: Bytes, c: nat)
    requires s == a + b && |a| <= c <= |s|
    ensures s[..c] == a + b[..c - |a|]
  {
  }

  lemma LaterDrain(crc: Checksum, o: Offset, data: Bytes, begin: bool, held: Option<Bytes>, rest: Bytes, got: Bytes)
    requires PieceLength(o, |data|) < |data| && begin == held.None?
      && got == Gathered(begin, held, data[..PieceLength(o, |data|)])
    ensures Drain(crc, o, Piece(crc, o, data, begin) + rest, held) == Drain(crc, BLOCK_SIZE, rest, Some(got))
  {
    DrainPiece(crc, o, data, begin, rest, held);
    AfterNothing(0, Drain(crc, BLOCK_SIZE, rest, Some(got)));
  }

  /** What there is of a record, and what the reader holds of it before that. */
  datatype Part = Part(o: Offset, data: Bytes, begin: bool, held: Option<Bytes>, written: Bytes)

  ghost predicate IsPart(crc: Checksum, p: Part) {
    && p.begin == p.held.None? && (!p.begin ==> p.o == BLOCK_SIZE)
    && p.written <= Emit(crc, p.o, p.data, p.begin) && |p.written| < |Emit(crc, p.o, p.data, p.begin)|
  }

  function CutOfPart(p: Part): Cut {
    CutOf(p.o, |p.data|, |p.written|, Total(p.held, 0))
  }

  /** The part behind the first fragment. */
  lemma NextPart(crc: Checksum, p: Part) returns (q: Part)
    requires IsPart(crc, p) && |p.written| >= |Piece(crc, p.o, p.data, p.begin)|
    ensures var piece := Piece(crc, p.o, p.data, p.begin); var n := PieceLength(p.o, |p.data|);
      && n < |p.data| && p.written == piece + q.written
      && q.o == BLOCK_SIZE && q.data == p.data[n..] && q.held == Some(Gathered(p.begin, p.held, p.data[..n]))
    ensures IsPart(crc, q) && CutOfPart(q) == CutOfPart(p) && Total(q.held, |q.data|) == Total(p.held, |p.data|)
      && Place(q.o, |q.written|) == Place(p.o, |p.written|)
  {
    var n, piece := PieceLength(p.o, |p.data|), Piece(crc, p.o, p.data, p.begin);
    EmitStep(crc, p.o, p.data, p.begin);
    LaterPlace(p.o, |p.data|, |p.written|);
    CutAfter(p.written, piece, Emit(crc, BLOCK_SIZE, p.data[n..], false));
    q := Part(BLOCK_SIZE, p.data[n..], false, Some(Gathered(p.begin, p.held, p.data[..n])), p.written[|piece|..]);
  }

  /** The reader gathers the whole fragments and comes upon the cut in the last one begun. */
  lemma {:induction false} FindCut(crc: Checksum, p: Part, log: Bytes) returns (q: Part)
    requires IsPart(crc, p)
    ensures IsPart(crc, q) && |q.written| < |Piece(crc, q.o, q.data, q.begin)| && |q.written| <= |p.written|
      && p.written[|p.written| - |q.written|..] == q.written
    ensures CutOfPart(q) == CutOfPart(p) && Total(q.held, |q.data|) == Total(p.held, |p.data|)
      && Place(q.o, |q.written|) == Place(p.o, |p.written|)
    ensures Drain(crc, p.o, p.written + log, p.held) == Drain(crc, q.o, q.written + log, q.held)
    decreases |p.data|, if PieceLength(p.o, |p.data|) == 0 then 1 else 0
  {
    if |p.written| < |Piece(crc, p.o, p.data, p.begin)| {
      q := p;
    } else {
      var r := NextPart(crc, p);
      q := FindCut(crc, r, log);
      FoundLater(crc, p, r, log);
      SkipFirst(p.written, Piece(crc, p.o, p.data, p.begin), r.written, |p.written| - |q.written|);
    }
  }

  lemma FoundLater(crc: Checksum, p: Part, r: Part, log: Bytes)
    requires var n := PieceLength(p.o, |p.data|);
      && n < |p.data| && p.begin == p.held.None? && p.written == Piece(crc, p.o, p.data, p.begin) + r.written
      && r.o == BLOCK_SIZE && r.held == Some(Gathered(p.begin, p.held, p.data[..n]))
    ensures Drain(crc, p.o, p.written + log, p.held) == Drain(crc, r.o, r.written + log, r.held)
  {
    Regroup(Piece(crc, p.o, p.data, p.begin), r.written, log);
    LaterDrain(crc, p.o, p.data, p.begin, p.held, r.written + log, r.held.value);
  }

  /** The cut is in the padding before the first physical record. */
  lemma CutBefore(crc: Checksum, q: Part, more: seq<Bytes>, log: Bytes)
    requires IsPart(crc, q) && |q.written| <= |Padding(q.o)| && more != []
      && log == Log(crc, Place(q.o, |q.written|), more)
    ensures Drain(crc, q.o, q.written + log, q.held) == Delivery(more, Unfinished(q.held))
  {
    EmitStep(crc, q.o, q.data, q.begin);
    assert Padding(q.o) <= Piece(crc, q.o, q.data, q.begin) <= Emit(crc, q.o, q.data, q.begin);
    assert q.written == Zeros(|q.written|);
    LogPadded(crc, q.o, Place(q.o, |q.written|), |q.written|, more);
    DrainWholeLog(crc, q.o, more, q.held);
  }

  /** The cut is in the first physical record. */
  lemma PartInPiece(crc: Checksum, q: Part, log: Bytes) returns (head: Bytes)
    requires IsPart(crc, q) && |Padding(q.o)| < |q.written| < |Piece(crc, q.o, q.data, q.begin)|
      && |log| >= HEADER_SIZE
    ensures var n := PieceLength(q.o, |q.data|);
      && CutOfPart(q) == Inside(Start(q.o), |head|, n, n == |q.data|)
      && Torn(Start(q.o), n, q.begin, n == |q.data|, head, log)
      && Place(q.o, |q.written|) == Start(q.o) + |head| && q.written == Padding(q.o) + head
  {
    var have := |q.written| - |Padding(q.o)|;
    EmitStep(crc, q.o, q.data, q.begin);
    assert q.written == Piece(crc, q.o, q.data, q.begin)[..|q.written|];
    PlaceInBlock(q.o, |q.written|, have);
    HeadOfPiece(crc, q.o, q.data, q.begin, have);
    head := Head(crc, q.o, q.data, q.begin, have);
  }

  /** Whether the physical record the cut is in passes for a sound one with `log` behind it. */
  predicate Mended(crc: Checksum, cut: Cut, written: Bytes, log: Bytes)
    requires cut.Inside? ==> cut.have <= |written|
  {
    cut.Inside? && Sound(crc, cut.start, Tear(written, cut) + log)
  }

  lemma CutBetween(crc: Checksum, q: Part, more: seq<Bytes>, log: Bytes, cut: Cut)
    requires IsPart(crc, q) && |q.written| <= |Padding(q.o)| && more != []
      && log == Log(crc, Place(q.o, |q.written|), more) && cut == CutOfPart(q)
    ensures cut.Between? && CutDelivers(cut, false, |log|, Total(q.held, |q.data|), more,
                                        Drain(crc, q.o, q.written + log, q.held))
  {
    CutBefore(crc, q, more, log);
  }

  /** In terms of the physical record the reader sees at the cut. */
  lemma CutSeen(crc: Checksum, drain: Drainer, q: Part, head: Bytes, more: seq<Bytes>, log: Bytes, cut: Cut,
                p: Physical, d: Delivery)
    requires cut.Inside? && cut.start == Start(q.o) && cut.have == |head| && cut.last == (cut.length == |q.data|)
    requires Torn(cut.start, cut.length, q.begin, cut.last, head, log) && q.begin == q.held.None? && more != []
    requires q.written == Padding(q.o) + head && Resumes(drain, cut.start + |head|, log, more)
    requires p == Parse(crc, cut.start, head + log)
      && d == Combine(p, q.held, drain(p.at, p.rest, Assemble(p.kind, p.fragment, q.held).held))
    ensures cut.have <= |q.written|
      && CutDelivers(cut, Mended(crc, cut, q.written, log), |log|, Total(q.held, |q.data|), more, d)
  {
    SplitAt(q.written, Padding(q.o), head);
    CutInPiece(crc, drain, cut.start, cut.length, q.begin, cut.last, head, log, more, q.held,
               Total(q.held, |q.data|), cut, p);
  }

  lemma CutBehind(crc: Checksum, q: Part, head: Bytes, more: seq<Bytes>, log: Bytes, cut: Cut)
    requires cut.Inside? && cut.start == Start(q.o) && cut.have == |head| && cut.last == (cut.length == |q.data|)
    requires Torn(cut.start, cut.length, q.begin, cut.last, head, log) && q.begin == q.held.None? && more != []
    requires q.written == Padding(q.o) + head && Resumes(DrainerOf(crc), cut.start + |head|, log, more)
    ensures cut.have <= |q.written|
      && CutDelivers(cut, Mended(crc, cut, q.written, log), |log|, Total(q.held, |q.data|), more,
                     Drain(crc, q.o, q.written + log, q.held))
  {
    var p, drain := Parse(crc, Start(q.o), head + log), DrainerOf(crc);
    DrainBroken(crc, q.o, head, log, q.held, p);
    CutSeen(crc, drain, q, head, more, log, cut, p,
            Combine(p, q.held, drain(p.at, p.rest, Assemble(p.kind, p.fragment, q.held).held)));
  }

  lemma CutWithin(crc: Checksum, q: Part, more: seq<Bytes>, log: Bytes, cut: Cut) returns (head: Bytes)
    requires IsPart(crc, q) && |Padding(q.o)| < |q.written| < |Piece(crc, q.o, q.data, q.begin)| && more != []
      && log == Log(crc, Place(q.o, |q.written|), more)
    requires cut == CutOfPart(q)
    ensures cut.Inside? && cut.start == Start(q.o) && cut.have == |head| && cut.last == (cut.length == |q.data|)
    ensures Torn(cut.start, cut.length, q.begin, cut.last, head, log)
    ensures q.written == Padding(q.o) + head && Resumes(DrainerOf(crc), cut.start + |head|, log, more)
  {
    AppendedIsLong(crc, Place(q.o, |q.written|), more);
    head := PartInPiece(crc, q, log);
    LogResumes(crc, cut.start + |head|, more, log);
  }

  lemma AppendedIsLong(crc: Checksum, a: Offset, more: seq<Bytes>)
    requires more != []
    ensures |Log(crc, a, more)| >= HEADER_SIZE
  {
  }

  lemma CutRecord(crc: Checksum, p: Part, more: seq<Bytes>, log: Bytes, cut: Cut)
    requires IsPart(crc, p) && more != [] && log == Log(crc, Place(p.o, |p.written|), more)
    requires cut == CutOfPart(p) && (cut.Inside? ==> cut.have <= |p.written|)
    ensures CutDelivers(cut, Mended(crc, cut, p.written, log), |log|, Total(p.held, |p.data|), more,
                        Drain(crc, p.o, p.written + log, p.held))
  {
    var q := FindCut(crc, p, log);
    CutFits(q.o, |q.data|, |q.written|, Total(q.held, 0));
    assert cut.Inside? ==> Tear(q.written, cut) == Tear(p.written, cut);
    if |q.written| <= |Padding(q.o)| {
      CutBetween(crc, q, more, log, cut);
    } else {
      var head := CutWithin(crc, q, more, log, cut);
      CutBehind(crc, q, head, more, log, cut);
    }
  }

  /** The whole records before the cut, and what there is of the next. */
  lemma CutLog(crc: Checksum, records: seq<Bytes>, n: nat, k: nat)
    requires n <= |Log(crc, 0, records)| && k == |Complete(crc, 0, records, n)|
    ensures var l := |Log(crc, 0, Complete(crc, 0, records, n))|;
      && k <= |records| && Complete(crc, 0, records, n) == records[..k] && l <= n && (k == |records| ==> n == l)
      && n % BLOCK_SIZE == Place(LogEnd(0, records[..k]), n - l)
    ensures k < |records| ==>
      var o, c := LogEnd(0, records[..k]), n - |Log(crc, 0, records[..k])|;
      && c < |Emit(crc, o, records[k], true)|
      && Log(crc, 0, records)[..n] == Log(crc, 0, records[..k]) + Emit(crc, o, records[k], true)[..c]
  {
    CompleteIsLongest(crc, 0, records, n);
    var l, o := Log(crc, 0, records[..k]), LogEnd(0, records[..k]);
    var blocks := LogSpan(crc, 0, records[..k]);
    WholeBlocks(|l|, o, n - |l|, blocks);
    if k < |records| {
      LogAt(crc, records, k);
      var next, rest := Emit(crc, o, records[k], true), Log(crc, EmitEnd(o, |records[k]|), records[k + 1..]);
      FirstBytes(Log(crc, 0, records), l, next + rest, n);
      assert (next + rest)[..n - |l|] == next[..n - |l|];
    } else {
      assert records[..k] == records;
    }
  }

  lemma LogAt(crc: Checksum, records: seq<Bytes>, k: nat)
    requires k < |records|
    ensures var l, o := Log(crc, 0, records[..k]), LogEnd(0, records[..k]);
      var next := Emit(crc, o, records[k], true);
      && |Log(crc, 0, records[..k + 1])| == |l| + |next|
      && Log(crc, 0, records) == l + (next + Log(crc, EmitEnd(o, |records[k]|), records[k + 1..]))
  {
    var o := LogEnd(0, records[..k]);
    assert records == records[..k] + records[k..];
    assert records[k..][0] == records[k] && records[k..][1..] == records[k + 1..];
    LogAppend(crc, 0, records[..k], records[k..]);
    assert records[..k + 1] == records[..k] + [records[k]];
    LogAppend(crc, 0, records[..k], [records[k]]);
    LogOfOne(crc, o, records[k]);
  }
  /** The length of the record that was being written, if there was one. */
  function NextLength(crc: Checksum, records: seq<Bytes>, n: nat): nat
    requires n <= |Log(crc, 0, records)|
  {
    var k := |Complete(crc, 0, records, n)|;
    CompleteIsLongest(crc, 0, records, n);
    if k < |records| then |records[k]| else 0
  }

  /** `written` was cut off behind the records `kept`, in one of `total` bytes; `log` follows. */
  ghost predicate Outcome(crc: Checksum, kept: seq<Bytes>, written: Bytes, cut: Cut, total: nat, more: seq<Bytes>,
                          log: Bytes, d: Delivery)
    requires more != []
  {
    && Drain(crc, 0, written + log, None) == After(kept, 0, d) && (cut.Inside? ==> cut.have <= |written|)
    && CutDelivers(cut, Mended(crc, cut, written, log), |log|, total, more, d)
  }

  lemma KeptThenCut(crc: Checksum, kept: seq<Bytes>, l: Bytes, p: Part, more: seq<Bytes>, log: Bytes, cut: Cut)
    returns (d: Delivery)
    requires p.o == LogEnd(0, kept) && p.begin && IsPart(crc, p) && more != [] && l == Log(crc, 0, kept)
      && log == Log(crc, Place(p.o, |p.written|), more)
    requires cut == CutOfPart(p)
    ensures Outcome(crc, kept, l + p.written, cut, |p.data|, more, log, d)
  {
    d := Drain(crc, p.o, p.written + log, None);
    Regroup(l, p.written, log);
    DrainOthers(crc, 0, kept, p.written + log);
    CutFits(p.o, |p.data|, |p.written|, 0);
    CutRecord(crc, p, more, log, cut);
    SameTear(crc, cut, l, p.written, log);
  }

  lemma SameTear(crc: Checksum, cut: Cut, before: Bytes, part: Bytes, log: Bytes)
    requires cut.Inside? ==> cut.have <= |part|
    ensures Mended(crc, cut, before + part, log) == Mended(crc, cut, part, log)
  {
    if cut.Inside? { SkipFirst(before + part, before, part, |before + part| - cut.have); }
  }

  /** Of a log cut off and appended to, the whole records are delivered, and then what the reader
      makes of the cut. */
  lemma CutLogDelivers(crc: Checksum, records: seq<Bytes>, n: nat, more: seq<Bytes>, log: Bytes)
    returns (d: Delivery)
    requires n <= |Log(crc, 0, records)| && more != [] && log == Log(crc, n % BLOCK_SIZE, more)
    ensures Outcome(crc, Complete(crc, 0, records, n), Log(crc, 0, records)[..n], LogCut(crc, records, n),
                    NextLength(crc, records, n), more, log, d)
  {
    var k := |Complete(crc, 0, records, n)|;
    CutLog(crc, records, n, k);
    if k == |records| {
      CompletedLog(crc, records, n, more, log);
      d := Delivery(more, 0);
    } else {
      var l, o := Log(crc, 0, records[..k]), LogEnd(0, records[..k]);
      var p := Part(o, records[k], true, None, Emit(crc, o, records[k], true)[..n - |l|]);
      d := KeptThenCut(crc, records[..k], l, p, more, log, LogCut(crc, records, n));
    }
  }

  lemma CompletedLog(crc: Checksum, records: seq<Bytes>, n: nat, more: seq<Bytes>, log: Bytes)
    requires n <= |Log(crc, 0, records)| && more != [] && log == Log(crc, n % BLOCK_SIZE, more)
    requires |Complete(crc, 0, records, n)| == |records|
    ensures Drain(crc, 0, Log(crc, 0, records)[..n] + log, None) ==
      After(Complete(crc, 0, records, n), 0, Delivery(more, 0))
  {
    CutLog(crc, records, n, |records|);
    var o := LogEnd(0, records);
    assert records[..|records|] == records && Log(crc, 0, records)[..n] == Log(crc, 0, records);
    LogPadded(crc, o, n % BLOCK_SIZE, 0, more);
    assert Zeros(0) + log == log;
    DrainOthers(crc, 0, records, log);
    DrainWholeLog(crc, o, more, None);
  }

  /** Written, cut off after `n` bytes by a crash, reopened, appended to and read again.  Whenever it can be
      told without looking into the checksum function, all whole records and all that was appended come
      back with nothing reported if and only if the cut is harmless. */
  method AppendsAfterCrash(crc: Checksum, records: seq<Bytes>, n: nat, more: seq<Bytes>)
    returns (file: Bytes, out: seq<Bytes>, corruptions: nat)
    requires n <= |Log(crc, 0, records)|
    ensures file == Log(crc, 0, records)[..n] + Log(crc, n % BLOCK_SIZE, more)
    ensures more == [] ==> out == Complete(crc, 0, records, n) && corruptions == 0
    ensures more != [] ==>
      var kept, cut, log := Complete(crc, 0, records, n), LogCut(crc, records, n), Log(crc, n % BLOCK_SIZE, more);
      && (cut.Inside? ==> cut.have <= n)
      && (Told(cut, Mended(crc, cut, Log(crc, 0, records)[..n], log), NextLength(crc, records, n), more) ==>
          (out == kept + more && corruptions == 0 <==> Harmless(cut)))
      && (cut.Between? ==> out == kept + more && corruptions == if cut.written == 0 then 0 else 1)
      && (cut.Inside? && cut.have >= HEADER_SIZE && cut.have + |log| < HEADER_SIZE + cut.length ==>
          out == kept && corruptions == 0)
  {
    var log := WriteLog(crc, records);
    file := AppendLog(crc, log[..n], more);
    out, corruptions := ReadLog(crc, file);
    if more == [] {
      assert file == log[..n];
      DrainPrefix(crc, 0, records, log[..n]);
    } else {
      ghost var d := CutLogDelivers(crc, records, n, more, Log(crc, n % BLOCK_SIZE, more));
      Appended(Complete(crc, 0, records, n), d, more);
    }
  }

  lemma Appended(kept: seq<Bytes>, d: Delivery, more: seq<Bytes>)
    ensures kept + d.records == kept + more <==> d.records == more
    ensures d.records == [] ==> kept + d.records == kept
  {
    assert (kept + d.records)[|kept|..] == d.records && (kept + more)[|kept|..] == more;
  }

  /** For example: the writer dies before the first byte of a payload of 100, and the next record after
      reopening has one byte.  Its write succeeded, and it is not read back. */
  lemma TornByHeaderAlone(crc: Checksum, next: Bytes, record: Bytes)
    requires |next| == 100 && |record| == 1
    ensures HEADER_SIZE <= |Log(crc, 0, [next])|
      && LogCut(crc, [next], HEADER_SIZE) == Inside(0, HEADER_SIZE, 100, true)
    ensures HEADER_SIZE + |Log(crc, HEADER_SIZE % BLOCK_SIZE, [record])| < HEADER_SIZE + 100
  {
    LogOfOne(crc, 0, next);
    LogOfOne(crc, HEADER_SIZE, record);
    EmitStep(crc, HEADER_SIZE, record, true);
    EmitStep(crc, 0, next, true);
    assert Complete(crc, 0, [next], HEADER_SIZE) == [];
  }

  function NoChecksum(s: Bytes): Uint32 {
    0
  }

  lemma SevenBytes(o: Offset, data: Bytes, header: Bytes)
    requires |data| == HEADER_SIZE && o <= 2 * HEADER_SIZE && header == Header(NoChecksum, FULL_TYPE, data)
    ensures Log(NoChecksum, o, [data]) == Piece(NoChecksum, o, data, true) == header + data
      && PieceEnd(o, |data|) == o + 2 * HEADER_SIZE
  {
    LogOfOne(NoChecksum, o, data);
    EmitStep(NoChecksum, o, data, true);
    assert data[..HEADER_SIZE] == data && Padding(o) + header + data == header + data;
  }

  lemma HeaderStalls(o: Offset, record: Bytes, header: Bytes)
    requires |record| == HEADER_SIZE && o <= 2 * HEADER_SIZE && header == Header(NoChecksum, FULL_TYPE, record)
    ensures Drain(NoChecksum, o, header, None) == Delivery([], 0)
  {
    SevenBytes(o, record, header);
    PhysicalCut(NoChecksum, o, record, true, header);
  }

  lemma CutAtPayload(next: Bytes)
    requires |next| == HEADER_SIZE
    ensures HEADER_SIZE <= |Log(NoChecksum, 0, [next])|
      && LogCut(NoChecksum, [next], HEADER_SIZE) == Inside(0, HEADER_SIZE, HEADER_SIZE, true)
  {
    LogOfOne(NoChecksum, 0, next);
    EmitStep(NoChecksum, 0, next, true);
    assert Complete(NoChecksum, 0, [next], HEADER_SIZE) == [];
  }

  lemma Prefix(a: Bytes, b: Bytes)
    ensures (a + b)[..|a|] == a
  {
  }

  /** That the checksum fails cannot be done without: with none to speak of, the header of a record of seven
      bytes is left, seven bytes like it are appended, and the one record makes up for the other. */
  lemma ChanceMends(next: Bytes, record: Bytes)
    requires |next| == HEADER_SIZE && record == Header(NoChecksum, FULL_TYPE, next)
    ensures HEADER_SIZE <= |Log(NoChecksum, 0, [next])| && !Harmless(LogCut(NoChecksum, [next], HEADER_SIZE))
    ensures Drain(NoChecksum, 0, Log(NoChecksum, 0, [next])[..HEADER_SIZE] + Log(NoChecksum, HEADER_SIZE, [record]),
                  None) == Delivery([record], 0)
  {
    CutAtPayload(next);
    SevenBytes(0, next, record);
    SevenBytes(HEADER_SIZE, record, record);
    SevenBytes(0, record, record);
    Prefix(record, next);
    Regroup(record, record, record);
    DrainPiece(NoChecksum, 0, record, true, record, None);
    HeaderStalls(2 * HEADER_SIZE, record, record);
  }

  lemma FullBlockBut(crc: Checksum, a: Bytes)
    requires |a| == BLOCK_SIZE - 2 * HEADER_SIZE
    ensures |Emit(crc, 0, a, true)| == BLOCK_SIZE - HEADER_SIZE && EmitEnd(0, |a|) == BLOCK_SIZE - HEADER_SIZE
  {
    EmitStep(crc, 0, a, true);
  }

  lemma EmptyFragment(crc: Checksum, b: Bytes)
    requires |b| > 0
    ensures |Emit(crc, BLOCK_SIZE - HEADER_SIZE, b, true)| > HEADER_SIZE
      && CutOf(BLOCK_SIZE - HEADER_SIZE, |b|, HEADER_SIZE, 0) == Between(0)
  {
    EmitStep(crc, BLOCK_SIZE - HEADER_SIZE, b, true);
  }

  /** A cut that is harmless although a header was written: only the empty first fragment of a record had
      room in the block. */
  lemma EmptyFragmentAlone(crc: Checksum, a: Bytes, b: Bytes)
    requires |a| == BLOCK_SIZE - 2 * HEADER_SIZE && |b| > 0
    ensures BLOCK_SIZE <= |Log(crc, 0, [a, b])| && Complete(crc, 0, [a, b], BLOCK_SIZE) == [a]
      && LogCut(crc, [a, b], BLOCK_SIZE) == Between(0)
  {
    var o := BLOCK_SIZE - HEADER_SIZE;
    FullBlockBut(crc, a);
    EmptyFragment(crc, b);
    assert [a, b][1..] == [b];
    LogOfOne(crc, o, b);
    LogOfOne(crc, 0, a);
    assert Complete(crc, o, [b], HEADER_SIZE) == [];
  }
}