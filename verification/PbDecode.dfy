/** The decoder (nanopb pb_decode.c) and the field iterator (pb_common.c). */
module PbDecode {
  import opened InternalKeys
  import opened ReadSpec
  import opened Coding
  import opened Comparators
  import opened PbMessages
  import opened PbStream
  import opened PbProgress
  import opened PbDecoding

  /** pb_field_iter_t: a place in the field table and the number of required fields before it. */
  class FieldIter {
    const fields: seq<FieldDesc>
    var pos: nat
    var required: nat

    predicate Valid()
      reads this
    {
      if fields == [] then pos == 0 && required == 0
      else pos < |fields| && required == RequiredBefore(fields, pos)
    }

    constructor (fields: seq<FieldDesc>)
      ensures Valid() && this.fields == fields && pos == 0
    {
      this.fields, pos, required := fields, 0, 0;
    }

    /** pb_field_iter_next: false, and back at the start, at the end of the table. */
    method Next() returns (more: bool)
      requires Valid()
      modifies this
      ensures Valid() && more == (old(pos) + 1 < |fields|)
      ensures pos == if more then old(pos) + 1 else 0
    {
      if fields == [] {
        return false;
      }
      if pos + 1 == |fields| {
        pos, required := 0, 0;
        return false;
      }
      if fields[pos].htype.Required? {
        required := required + 1;
      }
      pos := pos + 1;
      more := true;
    }

    /** pb_field_iter_find searches from where the iterator is, once around. */
    method Find(tag: nat) returns (found: bool)
      requires Valid()
      modifies this
      ensures Valid()
      ensures found <==> exists i :: 0 <= i < |fields| && fields[i].tag == tag
      ensures found ==> pos < |fields| && fields[pos].tag == tag
      ensures !found ==> pos == old(pos)
    {
      if fields == [] {
        return false;
      }
      var start := pos;
      ghost var wrapped := false;
      while true
        invariant Valid() && (wrapped ==> pos < start) && (!wrapped ==> start <= pos)
        invariant forall i :: start <= i < (if wrapped then |fields| else pos) ==> fields[i].tag != tag
        invariant wrapped ==> forall i :: 0 <= i < pos ==> fields[i].tag != tag
        decreases if wrapped then start - pos else |fields| - pos + start
      {
        if fields[pos].tag == tag {
          return true;
        }
        var more := Next();
        if !more { wrapped := true; }
        if pos == start {
          return false;
        }
      }
    }

    /** The required fields of the whole table, found by going to its end. */
    method CountRequired() returns (count: nat)
      requires Valid()
      modifies this
      ensures Valid() && count == RequiredBefore(fields, |fields|)
    {
      if fields == [] {
        return 0;
      }
      count := 0;
      var more := true;
      while more
        invariant Valid()
        invariant !more ==> count == RequiredBefore(fields, |fields|)
        decreases if more then |fields| - pos + 1 else 0
      {
        count := required;
        if fields[pos].htype.Required? && pos + 1 == |fields| {
          count := count + 1;
        }
        more := Next();
      }
    }
  }

  lemma WrapInRange(v: int, bytes: nat)
    requires IntegerSize(bytes)
    ensures -Half(bytes) <= Wrap(v, bytes) < Half(bytes)
    ensures -Half(bytes) <= v < Half(bytes) ==> Wrap(v, bytes) == v
  {
  }

  lemma HighHalf(a: int)
    requires 0 <= a < 0x1_0000_0000
    ensures (a + 0x1_0000_0000_0000_0000) % 0x1_0000_0000 == a
  {
  }

  /** Small integers also come back when a 64-bit two's complement is cut to 32 bits first. */
  lemma SignedBack(v: int, bytes: nat)
    requires IntegerSize(bytes) && -Half(bytes) <= v < Half(bytes)
    ensures Wrap(Unsigned64(v), 8) == v
    ensures bytes < 8 ==> Wrap(Unsigned64(v), 4) == v
  {
    var u := if v < 0 then v + TWO_64 else v;
    assert Unsigned64(v) == u;
    assert Wrap(u, 8) == v;
    if bytes < 8 {
      assert -0x8000_0000 <= v < 0x8000_0000;
      HighHalf(v + Half(4));
    }
  }

  lemma ZigZagBack(v: int)
    ensures UnZigZag(ZigZag(v)) == v
    ensures -Half(8) <= v < Half(8) ==> ZigZag(v) < TWO_64
  {
  }

  method DecodeBool(s: IStream) returns (r: Option<Value>)
    modifies s
    ensures |s.rest| <= |old(s.rest)| && (r.Some? ==> ValidValue(Terminated, Bool, r.value))
    ensures forall v, tail :: Encoded(Bool, v, old(s.rest), tail) ==> r == Some(v) && s.rest == tail
    ensures Gives(TakePlain(Bool, old(s.rest)), r, s.rest)
  {
    ghost var whole := s.rest;
    forall v, tail | Encoded(Bool, v, whole, tail)
      ensures Reads32(whole, if v.b then 1 else 0, tail)
    {
      Read32(if v.b then 1 else 0, whole, tail);
    }
    var value, eof := s.DecodeVarint32();
    r := if value.None? then None else Some(B(value.value != 0));
  }

  ghost predicate Reads32(whole: Bytes, v: nat, tail: Bytes) {
    var p := ReadVarint(whole, 5);
    p.Some? && p.value.value == v < TWO_32 && p.value.length <= |whole| && whole[p.value.length..] == tail
  }

  ghost predicate Reads64(whole: Bytes, v: nat, tail: Bytes) {
    var p := GetVarint64(whole);
    p.Some? && p.value.value == v && p.value.length <= |whole| && whole[p.value.length..] == tail
  }

  /** pb_dec_varint: through 32 bits when the field is that small, and an error when it does not fit. */
  method DecodeSigned(s: IStream, n: nat) returns (r: Option<Value>)
    requires IntegerSize(n)
    modifies s
    ensures |s.rest| <= |old(s.rest)| && (r.Some? ==> ValidValue(Terminated, LType.Varint(n), r.value))
    ensures forall v, tail :: Encoded(LType.Varint(n), v, old(s.rest), tail) ==> r == Some(v) && s.rest == tail
    ensures Gives(TakePlain(LType.Varint(n), old(s.rest)), r, s.rest)
    ensures var p := GetVarint64(old(s.rest));
      r == if p.Some? && InHalf(Wrap(p.value.value, if n == 8 then 8 else 4), n)
           then Some(I(Wrap(p.value.value, if n == 8 then 8 else 4))) else None
  {
    ghost var whole := s.rest;
    forall v, tail | Encoded(LType.Varint(n), v, whole, tail)
      ensures Reads64(whole, Unsigned64(v.i), tail)
    {
      Read64(Unsigned64(v.i), whole, tail);
    }
    forall v: int | -Half(n) <= v < Half(n)
      ensures Wrap(Wrap(Unsigned64(v), if n == 8 then 8 else 4), n) == Wrap(Unsigned64(v), if n == 8 then 8 else 4) == v
    {
      SignedBack(v, n);
      WrapInRange(v, n);
    }
    var value := s.DecodeVarint();
    if value.None? {
      return None;
    }
    var svalue := Wrap(value.value, if n == 8 then 8 else 4);
    var clamped := Wrap(svalue, n);
    WrapInRange(svalue, n);
    if clamped != svalue {
      return None;
    }
    r := Some(I(clamped));
  }

  /** A value as an unsigned integer of so many bytes. */
  function LowBytes(v: nat, bytes: nat): (r: nat)
    requires IntegerSize(bytes)
    ensures r < 2 * Half(bytes) && (v < 2 * Half(bytes) ==> r == v)
  {
    v % (2 * Half(bytes))
  }

  method DecodeUnsigned(s: IStream, n: nat) returns (r: Option<Value>)
    requires IntegerSize(n)
    modifies s
    ensures |s.rest| <= |old(s.rest)| && (r.Some? ==> ValidValue(Terminated, LType.UVarint(n), r.value))
    ensures forall v, tail :: Encoded(LType.UVarint(n), v, old(s.rest), tail) ==> r == Some(v) && s.rest == tail
    ensures Gives(TakePlain(LType.UVarint(n), old(s.rest)), r, s.rest)
    ensures var p := GetVarint64(old(s.rest));
      r == if p.Some? && p.value.value < 2 * Half(n) then Some(I(p.value.value)) else None
  {
    ghost var whole := s.rest;
    forall v, tail | Encoded(LType.UVarint(n), v, whole, tail)
      ensures Reads64(whole, v.i, tail)
    {
      Read64(v.i, whole, tail);
    }
    var value := s.DecodeVarint();
    if value.None? {
      return None;
    }
    var clamped := LowBytes(value.value, n);
    if clamped != value.value {
      return None;
    }
    r := Some(I(clamped));
  }

  method DecodeZigZag(s: IStream, n: nat) returns (r: Option<Value>)
    requires IntegerSize(n)
    modifies s
    ensures |s.rest| <= |old(s.rest)| && (r.Some? ==> ValidValue(Terminated, LType.SVarint(n), r.value))
    ensures forall v, tail :: Encoded(LType.SVarint(n), v, old(s.rest), tail) ==> r == Some(v) && s.rest == tail
    ensures Gives(TakePlain(LType.SVarint(n), old(s.rest)), r, s.rest)
    ensures var p := GetVarint64(old(s.rest));
      r == if p.Some? && InHalf(UnZigZag(p.value.value), n) then Some(I(UnZigZag(p.value.value))) else None
  {
    ghost var whole := s.rest;
    forall v, tail | Encoded(LType.SVarint(n), v, whole, tail)
      ensures Reads64(whole, ZigZag(v.i), tail) && UnZigZag(ZigZag(v.i)) == v.i
    {
      ZigZagBack(v.i);
      Read64(ZigZag(v.i), whole, tail);
    }
    var u := s.DecodeVarint();
    if u.None? {
      return None;
    }
    var value := UnZigZag(u.value);
    var clamped := Wrap(value, n);
    WrapInRange(value, n);
    if clamped != value {
      return None;
    }
    r := Some(I(clamped));
  }

  /** pb_decode_fixed32 and pb_decode_fixed64. */
  method DecodeFixed(s: IStream, lt: LType) returns (r: Option<Value>)
    requires lt.Fixed32? || lt.Fixed64?
    modifies s
    ensures |s.rest| <= |old(s.rest)| && (r.Some? ==> ValidValue(Terminated, lt, r.value))
    ensures forall v, tail :: Encoded(lt, v, old(s.rest), tail) ==> r == Some(v) && s.rest == tail
    ensures Gives(TakePlain(lt, old(s.rest)), r, s.rest)
  {
    ghost var whole := s.rest;
    var n := if lt.Fixed32? then 4 else 8;
    assert Power256(4) == TWO_32 && Power256(8) == TWO_64 by {
      assert Power256(2) == 0x1_0000;
    }
    forall v, tail | Encoded(lt, v, whole, tail)
      ensures |whole| >= n && FromLittle(whole[..n]) == v.i && whole[n..] == tail
    {
      assert whole[..n] == Little(v.i, n);
      LittleRoundTrip(v.i, n);
    }
    var bytes := s.Read(n);
    if bytes.None? {
      return None;
    }
    FromLittleBounded(bytes.value);
    r := Some(I(FromLittle(bytes.value)));
  }

  method DecodeBlob(s: IStream, max: nat) returns (r: Option<Value>)
    modifies s
    ensures |s.rest| <= |old(s.rest)| && (r.Some? ==> ValidValue(Terminated, Blob(max), r.value))
    ensures forall v, tail :: Encoded(Blob(max), v, old(s.rest), tail) && |v.data| <= max ==>
      r == Some(v) && s.rest == tail
    ensures Gives(TakePlain(Blob(max), old(s.rest)), r, s.rest)
  {
    ghost var whole := s.rest;
    forall v, tail | Encoded(Blob(max), v, whole, tail) ensures CountedAs(whole, v.data, tail) {
      CountedParts(whole, v.data, tail);
    }
    var size, eof := s.DecodeVarint32();
    if size.None? || size.value > max {
      return None;
    }
    var data := s.Read(size.value);
    r := if data.None? then None else Some(Data(data.value));
  }

  /** pb_dec_string: one byte must be left for the NUL. */
  method DecodeText(s: IStream, dataSize: nat) returns (r: Option<Value>)
    modifies s
    ensures |s.rest| <= |old(s.rest)| && (r.Some? ==> ValidValue(Terminated, Text(dataSize), r.value))
    ensures forall v, tail :: Encoded(Text(dataSize), v, old(s.rest), tail) ==>
      r == (if |v.data| < dataSize then Some(v) else None) && (|v.data| < dataSize ==> s.rest == tail)
    ensures Gives(TakePlain(Text(dataSize), old(s.rest)), r, s.rest)
  {
    ghost var whole := s.rest;
    forall v, tail | Encoded(Text(dataSize), v, whole, tail) ensures CountedAs(whole, v.data, tail) {
      CountedParts(whole, v.data, tail);
    }
    var size, eof := s.DecodeVarint32();
    if size.None? || size.value + 1 > dataSize {
      return None;
    }
    var data := s.Read(size.value);
    r := if data.None? then None else Some(Data(UpToNul(data.value)));
  }

  /** pb_dec_fixed_length_bytes: no bytes at all stand for zeros. */
  method DecodeFixedBlob(s: IStream, n: nat) returns (r: Option<Value>)
    modifies s
    ensures |s.rest| <= |old(s.rest)| && (r.Some? ==> ValidValue(Terminated, FixedBlob(n), r.value))
    ensures forall v, tail :: Encoded(FixedBlob(n), v, old(s.rest), tail) ==> r == Some(v) && s.rest == tail
    ensures Gives(TakePlain(FixedBlob(n), old(s.rest)), r, s.rest)
  {
    ghost var whole := s.rest;
    forall v, tail | Encoded(FixedBlob(n), v, whole, tail) ensures CountedAs(whole, v.data, tail) {
      CountedParts(whole, v.data, tail);
    }
    var size, eof := s.DecodeVarint32();
    if size.None? {
      return None;
    }
    if size.value == 0 {
      return Some(Data(Zeros(n)));
    }
    if size.value != n {
      return None;
    }
    var data := s.Read(n);
    r := if data.None? then None else Some(Data(data.value));
  }

  /** What becomes of a value that was sent: a string that fills its array is refused. */
  ghost function Landed(lt: LType, v: Value): Option<Value> {
    if ValidValue(Terminated, lt, v) then Some(v) else None
  }

  ghost predicate Sent(lt: LType, v: Value, whole: Bytes, tail: Bytes) {
    ValidValue(Bounded, lt, v) && |ScalarBytes(lt, v)| < TWO_32 && whole == ScalarBytes(lt, v) + tail
  }

  /** One of PB_DECODERS; `before` is what the structure holds and `repeated` says it is a new array entry. */
  method DecodeScalar(s: IStream, lt: LType, repeated: bool, before: Value, ghost v: Value, ghost tail: Bytes)
    returns (r: Option<Value>)
    requires ValidType(lt) && ValidValue(Terminated, lt, before)
    modifies s
    ensures |s.rest| <= |old(s.rest)| && (r.Some? ==> ValidValue(Terminated, lt, r.value))
    ensures Sent(lt, v, old(s.rest), tail) && (repeated || before == DefaultValue(lt)) ==>
      r == Landed(lt, v) && (r.Some? ==> s.rest == tail)
    ensures Gives(TakeScalar(lt, repeated, before, old(s.rest)), r, s.rest)
    decreases lt, 8
  {
    assert !lt.Submessage? && Sent(lt, v, s.rest, tail) ==> Encoded(lt, v, s.rest, tail);
    match lt
    case Bool => r := DecodeBool(s);
    case Varint(n) => r := DecodeSigned(s, n);
    case UVarint(n) => r := DecodeUnsigned(s, n);
    case SVarint(n) => r := DecodeZigZag(s, n);
    case Blob(max) => r := DecodeBlob(s, max);
    case Text(size) => r := DecodeText(s, size);
    case FixedBlob(n) => r := DecodeFixedBlob(s, n);
    case Fixed32 => r := DecodeFixed(s, lt);
    case Fixed64 => r := DecodeFixed(s, lt);
    case Submessage(fields) =>
      var m := DecodeSubmessage(s, fields, repeated, before.message, if v.M? then v.message else [], tail);
      r := if m.Some? then Some(M(m.value)) else None;
  }

  /** pb_dec_submessage: a new array entry is initialized, anything else decodes into what is there. */
  method DecodeSubmessage(s: IStream, fields: seq<FieldDesc>, repeated: bool, before: Message, ghost m: Message,
                          ghost tail: Bytes) returns (r: Option<Message>)
    requires ValidFields(fields) && ValidMessage(Terminated, fields, before)
    modifies s
    ensures |s.rest| <= |old(s.rest)| && (r.Some? ==> ValidMessage(Terminated, fields, r.value))
    ensures Sent(Submessage(fields), M(m), old(s.rest), tail) && (repeated || before == Defaults(fields)) ==>
      r == (if ValidMessage(Terminated, fields, m) then Some(m) else None) && (r.Some? ==> s.rest == tail)
    ensures match TakeScalar(Submessage(fields), repeated, M(before), old(s.rest))
      case None => r == None
      case Some(t) => t.value.M? && r == Some(t.value.message) && s.rest == t.rest
    decreases fields, 7
  {
    var sub := s.MakeSubstream();
    if sub.None? {
      return None;
    }
    if repeated {
      r := Decode(sub.value, fields, m);
    } else {
      r := DecodeNoinit(sub.value, fields, before, m);
    }
  }

  lemma ScalarNonempty(lt: LType, v: Value)
    requires Packable(lt) && ValidValue(Bounded, lt, v)
    ensures ScalarBytes(lt, v) != [] && ValidValue(Terminated, lt, v)
  {
    if lt.Fixed32? { assert |Little(v.i, 4)| == 4; }
    if lt.Fixed64? { assert |Little(v.i, 8)| == 8; }
  }

  lemma FirstPacked(lt: LType, items: seq<Value>, i: nat)
    requires Packable(lt) && i < |items| && |Scalars(lt, items[i..])| < TWO_32
    requires forall j :: 0 <= j < |items| ==> ValidValue(Bounded, lt, items[j])
    ensures Sent(lt, items[i], Scalars(lt, items[i..]), Scalars(lt, items[i + 1..])) && Scalars(lt, items[i..]) != []
    ensures Landed(lt, items[i]) == Some(items[i]) && |Scalars(lt, items[i + 1..])| < TWO_32
  {
    ScalarsFirst(lt, items, i);
    ScalarNonempty(lt, items[i]);
  }

  ghost predicate Filling(lt: LType, items: seq<Value>, got: seq<Value>, rest: Bytes) {
    |got| <= |items| && got == items[..|got|] && rest == Scalars(lt, items[|got|..]) && |rest| < TWO_32
  }

  ghost predicate PackedDue(f: FieldDesc, before: seq<Value>, items: seq<Value>, rest: Bytes, tail: Bytes) {
    && ValidContent(Bounded, f, Many(items)) && before == []
    && |Scalars(f.ltype, items)| < TWO_32 && rest == Counted(Scalars(f.ltype, items)) + tail
  }

  /** The packed branch of decode_static_field: entries are appended while there are bytes and room. */
  method DecodePacked(s: IStream, f: FieldDesc, before: seq<Value>, ghost items: seq<Value>, ghost tail: Bytes)
    returns (r: Option<seq<Value>>)
    requires ValidField(f) && f.htype.Repeated? && Packable(f.ltype) && ValidContent(Terminated, f, Many(before))
    modifies s
    ensures |s.rest| <= |old(s.rest)| && (r.Some? ==> ValidContent(Terminated, f, Many(r.value)))
    ensures PackedDue(f, before, items, old(s.rest), tail) ==> r == Some(items) && s.rest == tail
    ensures match TakeCounted(old(s.rest))
      case None => r == None
      case Some(t) => r == TakeItems(f, before, t.value) && (r.Some? ==> s.rest == t.rest)
    decreases f, 9
  {
    ghost var on := PackedDue(f, before, items, s.rest, tail);
    var inner := s.MakeSubstream();
    if inner.None? {
      return None;
    }
    var sub, got, status := inner.value, before, true;
    ghost var packed, left := sub.rest, s.rest;
    DefaultValueValid(Terminated, f.ltype);
    assert items[0..] == items && items[..0] == [];
    while status && sub.rest != [] && |got| < f.htype.arraySize
      invariant ValidContent(Terminated, f, Many(got)) && fresh(sub) && |s.rest| <= |old(s.rest)|
      invariant on ==> status && s.rest == tail && Filling(f.ltype, items, got, sub.rest)
      invariant TakeItems(f, before, packed) == if status then TakeItems(f, got, sub.rest) else None
      invariant s.rest == left
      decreases f.htype.arraySize - |got|, status
    {
      ghost var i := |got|;
      if on {
        if i == |items| { assert false; }
        FirstPacked(f.ltype, items, i);
      }
      var v := DecodeScalar(sub, f.ltype, true, DefaultValue(f.ltype),
        if on then items[i] else DefaultValue(f.ltype), if on then Scalars(f.ltype, items[i + 1..]) else []);
      if v.None? {
        status := false;
      } else {
        got := got + [v.value];
        assert on ==> got == items[..i + 1];
      }
    }
    if on {
      if |got| < |items| { FirstPacked(f.ltype, items, |got|); }
      assert items[|got|..] == [] && items[..|got|] == items;
    }
    if sub.rest != [] {
      return None;
    }
    r := if status then Some(got) else None;
  }

  /** The decoder is at a value of the field: item `j` of an unpacked array, or all of `c`. */
  ghost predicate Due(f: FieldDesc, wireType: nat, before: Content, c: Content, j: nat, rest: Bytes, tail: Bytes) {
    && ValidContent(Bounded, f, c) && At(f, c, j) && Pending(f, c, j) && before == Partial(f, c, j)
    && wireType == SentWire(f) && |Payload(f, c, j)| < TWO_32 && rest == Payload(f, c, j) + tail
  }

  /** The value that is due. */
  ghost function DueValue(f: FieldDesc, c: Content, j: nat): Value
    requires At(f, c, j) && Pending(f, c, j) && !(f.htype.Repeated? && Packable(f.ltype))
  {
    match c case One(v) => v case Maybe(o) => o.value case Many(items) => if Unpacked(f) then items[j] else items[0]
  }

  lemma DueIsSent(f: FieldDesc, wireType: nat, before: Content, c: Content, j: nat, rest: Bytes, tail: Bytes)
    requires Due(f, wireType, before, c, j, rest, tail) && !(f.htype.Repeated? && Packable(f.ltype))
    requires ValidContent(Terminated, f, before)
    ensures Sent(f.ltype, DueValue(f, c, j), rest, tail)
    ensures ValidContent(Terminated, f, Next(f, c, j)) <==> ValidValue(Terminated, f.ltype, DueValue(f, c, j))
    ensures match f.htype
      case Repeated(n) => before.Many? && |before.items| == j < n && Next(f, c, j) == Many(before.items + [c.items[j]])
      case Required => before == One(DefaultValue(f.ltype)) && Next(f, c, j) == One(DueValue(f, c, j))
      case Singular => before == One(DefaultValue(f.ltype)) && Next(f, c, j) == One(DueValue(f, c, j))
      case _ => before == Maybe(None) && Next(f, c, j) == Maybe(Some(DueValue(f, c, j)))
  {
    if f.htype.Repeated? {
      assert c.items[..j + 1] == c.items[..j] + [c.items[j]];
      assert before.items == c.items[..j];
      if ValidValue(Terminated, f.ltype, c.items[j]) {
        var items := c.items[..j + 1];
        forall i | 0 <= i < |items| ensures ValidValue(Terminated, f.ltype, items[i]) {
          if i < j { assert before.items[i] == items[i]; }
        }
      } else {
        assert c.items[..j + 1][j] == c.items[j];
      }
    }
  }

  /** decode_static_field. */
  method DecodeField(s: IStream, f: FieldDesc, wireType: nat, before: Content, ghost c: Content, ghost j: nat,
                     ghost tail: Bytes) returns (r: Option<Content>)
    requires ValidField(f) && ValidContent(Terminated, f, before)
    modifies s
    ensures |s.rest| <= |old(s.rest)| && (r.Some? ==> ValidContent(Terminated, f, r.value))
    ensures Due(f, wireType, before, c, j, old(s.rest), tail) ==>
      && r == (if ValidContent(Terminated, f, Next(f, c, j)) then Some(Next(f, c, j)) else None)
      && (r.Some? ==> s.rest == tail)
    ensures Gives(TakeField(f, wireType, before, old(s.rest)), r, s.rest)
    decreases f, 10
  {
    ghost var on := Due(f, wireType, before, c, j, s.rest, tail);
    if f.htype.Repeated? && wireType == 2 && Packable(f.ltype) {
      if on { AllTerminated(f, c.items); }
      var items := DecodePacked(s, f, before.items, if on then c.items else [], tail);
      r := if items.Some? then Some(Many(items.value)) else None;
      assert before == Many(before.items);
      return;
    }
    DefaultValueValid(Terminated, f.ltype);
    if on { DueIsSent(f, wireType, before, c, j, s.rest, tail); }
    ghost var due := if on then DueValue(f, c, j) else DefaultValue(f.ltype);
    if f.htype.Repeated? {
      if |before.items| >= f.htype.arraySize {
        return None;
      }
      var v := DecodeScalar(s, f.ltype, true, DefaultValue(f.ltype), due, tail);
      r := if v.Some? then Some(Many(before.items + [v.value])) else None;
    } else if f.htype.Required? || f.htype.Singular? {
      var v := DecodeScalar(s, f.ltype, false, before.value, due, tail);
      r := if v.Some? then Some(One(v.value)) else None;
    } else {
      var start := if before.option.Some? then before.option.value else DefaultValue(f.ltype);
      var v := DecodeScalar(s, f.ltype, false, start, due, tail);
      r := if v.Some? then Some(Maybe(v)) else None;
    }
  }

  lemma AllTerminated(f: FieldDesc, items: seq<Value>)
    requires f.htype.Repeated? && Packable(f.ltype) && ValidContent(Bounded, f, Many(items))
    ensures ValidContent(Terminated, f, Many(items))
  {
    forall j | 0 <= j < |items| ensures ValidValue(Terminated, f.ltype, items[j]) { ScalarNonempty(f.ltype, items[j]); }
  }

  /** The bits of fields_seen for the required fields before `k`. */
  ghost predicate SeenUpTo(fields: seq<FieldDesc>, seen: set<nat>, k: nat)
    requires k <= |fields|
  {
    forall i :: 0 <= i < k && fields[i].htype.Required? && RequiredBefore(fields, i) < MAX_REQUIRED_FIELDS ==>
      RequiredBefore(fields, i) in seen
  }

  lemma AllSeen(fields: seq<FieldDesc>, seen: set<nat>)
    requires SeenUpTo(fields, seen, |fields|)
    ensures forall q: nat :: q < RequiredBefore(fields, |fields|) && q < MAX_REQUIRED_FIELDS ==> q in seen
  {
    forall q: nat | q < RequiredBefore(fields, |fields|) && q < MAX_REQUIRED_FIELDS ensures q in seen {
      var i := NthRequired(fields, |fields|, q);
    }
  }

  ghost predicate SentMessage(fields: seq<FieldDesc>, m: Message, bytes: Bytes) {
    ValidMessage(Bounded, fields, m) && bytes == MessageBytes(fields, m) && |bytes| < TWO_32
  }

  /** The required fields skipped on the way to the next pending one are none. */
  lemma SeenOn(fields: seq<FieldDesc>, seen: set<nat>, k: nat, k': nat)
    requires k <= k' <= |fields| && SeenUpTo(fields, seen, k)
    requires forall i :: k <= i < k' ==> !fields[i].htype.Required?
    ensures SeenUpTo(fields, seen, k')
  {
  }

  /** What the decoder meets next inside an encoding: the tag of the next pending field, its payload, the rest. */
  lemma Upcoming(fields: seq<FieldDesc>, m: Message, dest: Message, rest: Bytes, seen: set<nat>, k: nat, j: nat)
    returns (k': nat, j': nat, tail: Bytes)
    requires ValidFields(fields) && ValidMessage(Bounded, fields, m) && rest != [] && |rest| < TWO_32
    requires Progress(fields, m, dest, rest, k, j) && SeenUpTo(fields, seen, k)
    ensures k' < |fields| && Progress(fields, m, dest, rest, k', j') && SeenUpTo(fields, seen, k')
    ensures Pending(fields[k'], m[k'], j') && tail == RestAfter(fields, m, k', j')
    ensures var payload := Payload(fields[k'], m[k'], j') + tail;
      && Reads32(rest, fields[k'].tag * 8 + SentWire(fields[k']), payload)
      && Due(fields[k'], SentWire(fields[k']), dest[k'], m[k'], j', payload, tail)
  {
    k', j' := SkipEmpty(fields, m, dest, rest, k, j);
    SeenOn(fields, seen, k, k');
    tail := RestAfter(fields, m, k', j');
    NextParts(fields, m, dest, rest, k', j');
    assert ValidField(fields[k']) && ValidContent(Bounded, fields[k'], m[k']);
    Read32(fields[k'].tag * 8 + SentWire(fields[k']), rest, Payload(fields[k'], m[k'], j') + tail);
  }

  lemma NextIsPart(f: FieldDesc, c: Content, j: nat)
    requires ValidContent(Terminated, f, c) && At(f, c, j) && Pending(f, c, j)
    ensures ValidContent(Terminated, f, Next(f, c, j))
  {
  }

  lemma AllDecoded(fields: seq<FieldDesc>, m: Message, dest: Message, seen: set<nat>, k: nat, j: nat)
    requires ValidMessage(Bounded, fields, m) && Progress(fields, m, dest, [], k, j) && SeenUpTo(fields, seen, k)
    ensures dest == m
    ensures forall q: nat :: q < RequiredBefore(fields, |fields|) && q < MAX_REQUIRED_FIELDS ==> q in seen
  {
    var k', j' := SkipEmpty(fields, m, dest, [], k, j);
    if k' < |fields| { NextParts(fields, m, dest, [], k', j'); }
    SeenOn(fields, seen, k, k');
    AllSeen(fields, seen);
  }

  /** Where a run over the encoding of `m` is. */
  ghost predicate Underway(fields: seq<FieldDesc>, m: Message, dest: Message, rest: Bytes, seen: set<nat>, k: nat,
                           j: nat) {
    && ValidMessage(Bounded, fields, m) && |rest| < TWO_32
    && Progress(fields, m, dest, rest, k, j) && SeenUpTo(fields, seen, k)
  }

  predicate InTable(fields: seq<FieldDesc>, seen: set<nat>) {
    forall q :: q in seen ==> q < MAX_REQUIRED_FIELDS && q < RequiredBefore(fields, |fields|)
  }

  lemma MarkedInTable(fields: seq<FieldDesc>, seen: set<nat>, p: nat)
    requires p < |fields| && InTable(fields, seen)
    ensures InTable(fields, Marked(fields, seen, p))
  {
    RequiredGrows(fields, p, |fields|);
  }

  lemma Landing(fields: seq<FieldDesc>, m: Message, dest: Message, rest: Bytes, seen: set<nat>, k: nat, j: nat)
    returns (k': nat, j': nat)
    requires Underway(fields, m, dest, rest, seen, k, j) && k < |fields| && Pending(fields[k], m[k], j)
    requires |RestAfter(fields, m, k, j)| < TWO_32
    ensures Underway(fields, m, Store(fields, dest, k, Next(fields[k], m[k], j)), RestAfter(fields, m, k, j),
        Marked(fields, seen, k), k', j')
  {
    StoreReplacesNothing(fields, m, dest, rest, k, j, Next(fields[k], m[k], j));
    Stepped(fields, m, dest, rest, k, j);
    if Unpacked(fields[k]) { k', j' := k, j + 1; } else { k', j' := k + 1, 0; }
  }

  /** One known field of the loop of pb_decode_noinit. */
  method DecodeKnown(s: IStream, fields: seq<FieldDesc>, p: nat, wireType: nat, dest: Message, ghost m: Message,
                     ghost j: nat, ghost tail: Bytes) returns (r: Option<Message>)
    requires ValidFields(fields) && ValidMessage(Terminated, fields, dest) && p < |fields|
    modifies s
    ensures |s.rest| <= |old(s.rest)| && (r.Some? ==> ValidMessage(Terminated, fields, r.value))
    ensures (p < |m| && ValidMessage(Bounded, fields, m)
             && Due(fields[p], wireType, dest[p], m[p], j, old(s.rest), tail)) ==>
      if r.Some? then r.value == Store(fields, dest, p, Next(fields[p], m[p], j)) && s.rest == tail
      else !ValidMessage(Terminated, fields, m)
    ensures match TakeField(fields[p], wireType, dest[p], old(s.rest))
      case None => r == None
      case Some(t) => r == Some(Store(fields, dest, p, t.value)) && s.rest == t.rest
    decreases fields, 2
  {
    assert ValidField(fields[p]) && ValidContent(Terminated, fields[p], dest[p]);
    ghost var c := if p < |m| then m[p] else dest[p];
    ghost var due := Due(fields[p], wireType, dest[p], c, j, s.rest, tail);
    var content := DecodeField(s, fields[p], wireType, dest[p], c, j, tail);
    if due && ValidContent(Terminated, fields[p], c) { NextIsPart(fields[p], c, j); }
    if content.None? {
      return None;
    }
    StoreValid(fields, dest, p, content.value);
    r := Some(Store(fields, dest, p, content.value));
  }

  datatype Step = More | End | Failed

  /** One round of the loop over a field, as the specification has it. */
  lemma LoopTurn(fields: seq<FieldDesc>, dest: Message, seen: set<nat>, s: Bytes)
    requires |dest| == |fields| && TakeTag(s).Tag?
    ensures var t := TakeTag(s);
      Loop(fields, dest, seen, s) == match PlaceOf(fields, t.tag)
        case None =>
          (match Skipped(t.wireType, t.rest) case None => None case Some(after) => Loop(fields, dest, seen, after))
        case Some(p) =>
          match TakeField(fields[p], t.wireType, dest[p], t.rest)
          case None => None
          case Some(c) => Loop(fields, Store(fields, dest, p, c.value), Marked(fields, seen, p), c.rest)
  {
  }

  /** One round of the loop of pb_decode_noinit. */
  method DecodeNext(s: IStream, iter: FieldIter, fields: seq<FieldDesc>, before: Message, seenBefore: set<nat>,
                    ghost on: bool, ghost m: Message, ghost k: nat, ghost j: nat)
    returns (step: Step, dest: Message, seen: set<nat>, ghost k': nat, ghost j': nat)
    requires ValidFields(fields) && ValidMessage(Terminated, fields, before) && InTable(fields, seenBefore)
    requires iter.Valid() && iter.fields == fields && s.rest != []
    requires on ==> Underway(fields, m, before, s.rest, seenBefore, k, j)
    modifies s, iter
    ensures iter.Valid() && |s.rest| <= |old(s.rest)| && (step.More? ==> |s.rest| < |old(s.rest)|)
    ensures ValidMessage(Terminated, fields, dest) && InTable(fields, seen)
    ensures on ==> match step
      case More => Underway(fields, m, dest, s.rest, seen, k', j')
      case End => false
      case Failed => !ValidMessage(Terminated, fields, m)
    ensures Loop(fields, before, seenBefore, old(s.rest)) == match step
      case More => Loop(fields, dest, seen, s.rest)
      case End => Some(Progressed(dest, seen))
      case Failed => None
    decreases fields, 4
  {
    dest, seen, k', j' := before, seenBefore, k, j;
    ghost var tail: Bytes := [];
    if on {
      k', j', tail := Upcoming(fields, m, before, s.rest, seen, k, j);
    }
    ghost var here := s.rest;
    var ok, wireType, tag, eof := s.DecodeTag();
    if !ok {
      return if eof then End else Failed, dest, seen, k', j';
    }
    var found := iter.Find(tag);
    assert on ==> fields[k'].tag == tag;
    LoopTurn(fields, before, seenBefore, here);
    if !found {
      var skipped := s.SkipField(wireType);
      return if skipped then More else Failed, dest, seen, k', j';
    }
    assert on ==> iter.pos == k';
    assert PlaceOf(fields, tag) == Some(iter.pos);
    step, dest, seen, k', j' := TakeKnown(s, iter, fields, wireType, before, seenBefore, on, m, here, k', j', tail);
  }

  /** A field of the table has come. */
  method TakeKnown(s: IStream, iter: FieldIter, fields: seq<FieldDesc>, wireType: nat, before: Message,
                   seenBefore: set<nat>, ghost on: bool, ghost m: Message, ghost here: Bytes, ghost k: nat,
                   ghost j: nat, ghost tail: Bytes)
    returns (step: Step, dest: Message, seen: set<nat>, ghost k': nat, ghost j': nat)
    requires ValidFields(fields) && ValidMessage(Terminated, fields, before) && InTable(fields, seenBefore)
    requires iter.Valid() && iter.fields == fields && iter.pos < |fields|
    requires on ==>
      && Underway(fields, m, before, here, seenBefore, k, j) && k == iter.pos && Pending(fields[k], m[k], j)
      && tail == RestAfter(fields, m, k, j) && |tail| < TWO_32
      && Due(fields[k], wireType, before[k], m[k], j, s.rest, tail)
    modifies s
    ensures |s.rest| <= |old(s.rest)| && !step.End?
    ensures ValidMessage(Terminated, fields, dest) && InTable(fields, seen)
    ensures on ==>
      if step.More? then Underway(fields, m, dest, s.rest, seen, k', j') else !ValidMessage(Terminated, fields, m)
    ensures match TakeField(fields[iter.pos], wireType, before[iter.pos], old(s.rest))
      case None => step.Failed?
      case Some(t) =>
        && step.More? && dest == Store(fields, before, iter.pos, t.value)
        && seen == Marked(fields, seenBefore, iter.pos) && s.rest == t.rest
    decreases fields, 3
  {
    dest, seen, k', j' := before, seenBefore, k, j;
    var p := iter.pos;
    MarkedInTable(fields, seen, p);
    if fields[p].htype.Required? && iter.required < MAX_REQUIRED_FIELDS {
      seen := seen + {iter.required};
    }
    assert seen == Marked(fields, seenBefore, p);
    var r := DecodeKnown(s, fields, p, wireType, dest, m, j, tail);
    if r.None? {
      return Failed, dest, seen, k', j';
    }
    if on {
      k', j' := Landing(fields, m, before, here, seenBefore, k, j);
    }
    step, dest := More, r.value;
  }

  /** pb_decode_noinit: fields in any order, unknown ones skipped, and in the end every required one seen. */
  method DecodeNoinit(s: IStream, fields: seq<FieldDesc>, before: Message, ghost m: Message)
    returns (r: Option<Message>)
    requires ValidFields(fields) && ValidMessage(Terminated, fields, before)
    modifies s
    ensures r.Some? ==> ValidMessage(Terminated, fields, r.value)
    ensures old(s.rest) == [] ==> r == if RequiredBefore(fields, |fields|) == 0 then Some(before) else None
    ensures SentMessage(fields, m, old(s.rest)) && before == Defaults(fields) ==>
      r == if ValidMessage(Terminated, fields, m) then Some(m) else None
    ensures r == Decoded(fields, before, old(s.rest))
    decreases fields, 5
  {
    var dest, seen: set<nat>, step := before, {}, More;
    var iter := new FieldIter(fields);
    ghost var on := SentMessage(fields, m, s.rest) && before == Defaults(fields);
    ghost var k: nat, j: nat := 0, 0;
    if on { Begun(fields, m); }
    while step.More? && s.rest != []
      invariant ValidMessage(Terminated, fields, dest) && InTable(fields, seen)
      invariant iter.Valid() && iter.fields == fields && fresh(iter) && !step.Failed?
      invariant on ==> step.More? && Underway(fields, m, dest, s.rest, seen, k, j)
      invariant old(s.rest) == [] ==> s.rest == [] && dest == before && seen == {}
      invariant Loop(fields, before, {}, old(s.rest)) ==
        if step.More? then Loop(fields, dest, seen, s.rest) else Some(Progressed(dest, seen))
      decreases |s.rest| + (if step.More? then 1 else 0)
    {
      step, dest, seen, k, j := DecodeNext(s, iter, fields, dest, seen, on, m, k, j);
      if step.Failed? {
        return None;
      }
    }
    var count := iter.CountRequired();
    if count > MAX_REQUIRED_FIELDS {
      count := MAX_REQUIRED_FIELDS;
    }
    if on {
      AllDecoded(fields, m, dest, seen, k, j);
    }
    assert count > 0 ==> 0 in Low(count);
    if seen != Low(count) {
      return None;
    }
    r := Some(dest);
  }

  /** pb_decode. */
  method Decode(s: IStream, fields: seq<FieldDesc>, ghost m: Message) returns (r: Option<Message>)
    requires ValidFields(fields)
    modifies s
    ensures r.Some? ==> ValidMessage(Terminated, fields, r.value)
    ensures old(s.rest) == [] ==> r == if RequiredBefore(fields, |fields|) == 0 then Some(Defaults(fields)) else None
    ensures SentMessage(fields, m, old(s.rest)) ==> r == if ValidMessage(Terminated, fields, m) then Some(m) else None
    ensures r == Decoded(fields, Defaults(fields), old(s.rest))
    decreases fields, 6
  {
    DefaultsValid(Terminated, fields);
    r := DecodeNoinit(s, fields, Defaults(fields), m);
  }
}
