/** The descriptor-driven encoder (nanopb pb_encode.c). */
module PbEncode {
  import opened InternalKeys
  import opened ReadSpec
  import opened Coding
  import opened Comparators
  import opened PbMessages

  /** What an output stream stands for; a sizing stream has no callback and only counts. */
  datatype Sink = Sink(sizing: bool, maxSize: nat, written: nat, buffer: Bytes)

  /** The stream after writing `s`, unless it is too full for that. */
  function Put(o: Sink, s: Bytes): Option<Sink> {
    if o.sizing then Some(o.(written := o.written + |s|))
    else if s == [] || o.written + |s| <= o.maxSize then Some(o.(written := o.written + |s|, buffer := o.buffer + s))
    else None
  }

  /** Writing in two steps is writing at once; it fails if either part does. */
  lemma PutTwice(o: Sink, a: Bytes, b: Bytes)
    ensures Put(o, a + b) == match Put(o, a) case None => None case Some(p) => Put(p, b)
  {
    assert o.buffer + a + b == o.buffer + (a + b);
    if a == [] { assert a + b == b; }
    if b == [] { assert a + b == a; }
  }

  lemma PutNothing(o: Sink)
    ensures Put(o, []) == Some(o)
  {
    assert o.buffer + [] == o.buffer;
  }

  /** pb_encode_varint sets every high bit and then clears the last. */
  function AllMarked(v: nat): (r: Bytes)
    ensures v > 0 ==> |r| > 0
  {
    if v == 0 then [] else [v % 128 + 128] + AllMarked(v / 128)
  }

  predicate ClearedLast(marked: Bytes, s: Bytes) {
    |marked| > 0 && marked[|marked| - 1] >= 128 && s == marked[..|marked| - 1] + [marked[|marked| - 1] - 128]
  }

  lemma {:induction false} ClearingEndsVarint(v: nat)
    requires v > 0
    ensures ClearedLast(AllMarked(v), Coding.Varint(v))
  {
    if v >= 128 {
      ClearingEndsVarint(v / 128);
      var tail := AllMarked(v / 128);
      assert AllMarked(v) == [v % 128 + 128] + tail;
      assert AllMarked(v)[..|tail|] == [v % 128 + 128] + tail[..|tail| - 1];
    } else {
      assert AllMarked(v / 128) == [];
    }
  }

  method MarkedBytes(value: nat) returns (marked: Bytes)
    ensures marked == AllMarked(value)
  {
    var v := value;
    marked := [];
    while v > 0
      invariant AllMarked(value) == marked + AllMarked(v)
    {
      var low;
      low, v := SplitOff(v);
      marked := marked + [low];
    }
  }

  method SplitOff(v: nat) returns (low: Byte, high: nat)
    requires v > 0
    ensures AllMarked(v) == [low] + AllMarked(high) && high < v
  {
    low, high := v % 128 + 128, v / 128;
  }

  method VarintBytes(value: nat) returns (bytes: Bytes)
    ensures bytes == Coding.Varint(value)
  {
    if value <= 0x7F {
      return [value];
    }
    var marked := MarkedBytes(value);
    ClearingEndsVarint(value);
    var last := |marked| - 1;
    bytes := marked[..last] + [marked[last] - 128];
  }

  class OStream {
    const sizing: bool
    const maxSize: nat
    var written: nat
    var buffer: Bytes

    function Now(): Sink
      reads this
    {
      Sink(sizing, maxSize, written, buffer)
    }

    constructor (sizing: bool, maxSize: nat, buffer: Bytes)
      ensures Now() == Sink(sizing, maxSize, 0, buffer)
    {
      this.sizing, this.maxSize, this.written, this.buffer := sizing, maxSize, 0, buffer;
    }

    method Write(s: Bytes) returns (ok: bool)
      modifies this
      ensures ok == Put(old(Now()), s).Some?
      ensures ok ==> Now() == Put(old(Now()), s).value
    {
      if |s| > 0 && !sizing {
        if written + |s| > maxSize {
          return false;
        }
        buffer := buffer + s;
      }
      assert s == [] ==> buffer == buffer + s;
      written := written + |s|;
      ok := true;
    }

    method EncodeVarint(value: nat) returns (ok: bool)
      modifies this
      ensures ok == Put(old(Now()), Coding.Varint(value)).Some?
      ensures ok ==> Now() == Put(old(Now()), Coding.Varint(value)).value
    {
      var bytes := VarintBytes(value);
      ok := Write(bytes);
    }

    /** The sign moves to the lowest bit; all in 64-bit arithmetic. */
    method EncodeSVarint(value: int) returns (ok: bool)
      requires -Half(8) <= value < Half(8)
      modifies this
      ensures ok == Put(old(Now()), Coding.Varint(ZigZag(value))).Some?
      ensures ok ==> Now() == Put(old(Now()), Coding.Varint(ZigZag(value))).value
    {
      var shifted := 2 * Unsigned64(value) % TWO_64;
      ShiftedSign(value);
      ok := EncodeVarint(if value < 0 then TWO_64 - 1 - shifted else shifted);
    }

    method EncodeFixed32(v: nat) returns (ok: bool)
      requires v < TWO_32
      modifies this
      ensures ok == Put(old(Now()), Little(v, 4)).Some?
      ensures ok ==> Now() == Put(old(Now()), Little(v, 4)).value
    {
      FourBytes(v);
      ok := Write([v % 256, v / 256 % 256, v / 256 / 256 % 256, v / 256 / 256 / 256 % 256]);
    }

    method EncodeFixed64(v: nat) returns (ok: bool)
      requires v < TWO_64
      modifies this
      ensures ok == Put(old(Now()), Little(v, 8)).Some?
      ensures ok ==> Now() == Put(old(Now()), Little(v, 8)).value
    {
      var w := v / 256 / 256 / 256 / 256;
      EightBytes(v, w);
      FourBytes(v);
      FourBytes(w);
      ok := Write([v % 256, v / 256 % 256, v / 256 / 256 % 256, v / 256 / 256 / 256 % 256]
                + [w % 256, w / 256 % 256, w / 256 / 256 % 256, w / 256 / 256 / 256 % 256]);
    }

    method EncodeTag(wireType: nat, tag: nat) returns (ok: bool)
      requires wireType < 8
      modifies this
      ensures ok == Put(old(Now()), TagBytes(tag, wireType)).Some?
      ensures ok ==> Now() == Put(old(Now()), TagBytes(tag, wireType)).value
    {
      ok := EncodeVarint(tag * 8 + wireType);
    }

    method EncodeString(s: Bytes) returns (ok: bool)
      modifies this
      ensures ok == Put(old(Now()), Counted(s)).Some?
      ensures ok ==> Now() == Put(old(Now()), Counted(s)).value
    {
      PutTwice(Now(), Coding.Varint(|s|), s);
      ok := EncodeVarint(|s|);
      if ok { ok := Write(s); }
    }

    /** pb_write with no data on a stream that only counts. */
    method Count(size: nat)
      requires sizing
      modifies this
      ensures Now() == old(Now()).(written := old(written) + size)
    {
      written := written + size;
    }
  }

  lemma ShiftedSign(v: int)
    requires -Half(8) <= v < Half(8)
    ensures 0 <= 2 * Unsigned64(v) % TWO_64 < TWO_64
    ensures (if v < 0 then TWO_64 - 1 - 2 * Unsigned64(v) % TWO_64 else 2 * Unsigned64(v) % TWO_64) == ZigZag(v)
  {
    if v < 0 {
      assert Unsigned64(v) == v + TWO_64;
      assert 2 * (v + TWO_64) == 2 * v + TWO_64 + TWO_64;
    }
  }

  lemma FourBytes(v: nat)
    ensures Little(v, 4) == [v % 256, v / 256 % 256, v / 256 / 256 % 256, v / 256 / 256 / 256 % 256]
  {
    var a, b, c := v / 256, v / 256 / 256, v / 256 / 256 / 256;
    assert Little(c, 1) == [c % 256] + Little(c / 256, 0);
    assert Little(b, 2) == [b % 256] + Little(c, 1);
    assert Little(a, 3) == [a % 256] + Little(b, 2);
  }

  lemma EightBytes(v: nat, w: nat)
    requires w == v / 256 / 256 / 256 / 256
    ensures Little(v, 8) == Little(v, 4) + Little(w, 4)
  {
    LittleSplits(v, 4, 4);
    assert Shifted(v, 4) == Shifted(v / 256, 3) == Shifted(v / 256 / 256, 2) == Shifted(v / 256 / 256 / 256, 1) ==
        Shifted(w, 0);
  }

  function Shifted(v: nat, n: nat): nat {
    if n == 0 then v else Shifted(v / 256, n - 1)
  }

  lemma {:induction false} LittleSplits(v: nat, a: nat, b: nat)
    ensures Little(v, a + b) == Little(v, a) + Little(Shifted(v, a), b)
  {
    if a > 0 { LittleSplits(v / 256, a - 1, b); }
  }

  lemma {:induction false} ScalarsOfWidth(lt: LType, items: seq<Value>, width: nat)
    requires forall j :: 0 <= j < |items| ==> ValidValue(Typed, lt, items[j])
    requires (lt.Fixed32? && width == 4) || (lt.Fixed64? && width == 8)
    ensures |Scalars(lt, items)| == width * |items|
  {
    if items != [] {
      assert ValidValue(Typed, lt, items[0]);
      ScalarsOfWidth(lt, items[1..], width);
    }
  }

  /** One of PB_ENCODERS. */
  method EncodeScalar(o: OStream, lt: LType, v: Value) returns (ok: bool)
    requires ValidType(lt) && ValidValue(Typed, lt, v)
    modifies o
    ensures ok == (ValidValue(Bounded, lt, v) && Put(old(o.Now()), ScalarBytes(lt, v)).Some?)
    ensures ok ==> o.Now() == Put(old(o.Now()), ScalarBytes(lt, v)).value
    decreases lt, 6
  {
    match lt
    case Bool =>
      ok := o.EncodeVarint(if v.b then 1 else 0);
    case Varint(_) =>
      ok := o.EncodeVarint(Unsigned64(v.i));
    case UVarint(_) =>
      ok := o.EncodeVarint(v.i);
    case SVarint(_) =>
      ok := o.EncodeSVarint(v.i);
    case Fixed32 =>
      ok := o.EncodeFixed32(v.i);
    case Fixed64 =>
      ok := o.EncodeFixed64(v.i);
    case Blob(max) =>
      if |v.data| > max {
        return false;
      }
      ok := o.EncodeString(v.data);
    case Text(_) =>
      ok := o.EncodeString(v.data);
    case FixedBlob(_) =>
      ok := o.EncodeString(v.data);
    case Submessage(fields) =>
      ok := EncodeSubmessage(o, fields, v.message);
  }

  /** A first pass only counts, a second one writes behind the count. */
  method EncodeSubmessage(o: OStream, fields: seq<FieldDesc>, m: Message) returns (ok: bool)
    requires ValidFields(fields) && ValidMessage(Typed, fields, m)
    modifies o
    ensures ok == (ValidMessage(Bounded, fields, m) && Put(old(o.Now()), Counted(MessageBytes(fields, m))).Some?)
    ensures ok ==> o.Now() == Put(old(o.Now()), Counted(MessageBytes(fields, m))).value
    decreases fields, 5
  {
    ghost var bytes := MessageBytes(fields, m);
    var counting := new OStream(true, 0, []);
    ok := Encode(counting, fields, m);
    if !ok {
      return;
    }
    var size := counting.written;
    PutTwice(o.Now(), Coding.Varint(size), bytes);
    ok := o.EncodeVarint(size);
    if !ok {
      return;
    }
    if o.sizing {
      o.Count(size);
      return true;
    }
    if o.written + size > o.maxSize {
      return false;
    }
    var sub := new OStream(false, size, o.buffer);
    var status := Encode(sub, fields, m);
    // both passes produce the same number of bytes, so the submessage size never changes
    assert status && sub.written == size;
    o.written := o.written + sub.written;
    o.buffer := sub.buffer;
    ok := sub.written == size && status;
  }

  method EncodeTagged(o: OStream, f: FieldDesc, v: Value) returns (ok: bool)
    requires ValidField(f) && ValidValue(Typed, f.ltype, v)
    modifies o
    ensures ok == (ValidValue(Bounded, f.ltype, v) && Put(old(o.Now()), Tagged(f, v)).Some?)
    ensures ok ==> o.Now() == Put(old(o.Now()), Tagged(f, v)).value
    decreases f, 0
  {
    PutTwice(o.Now(), TagBytes(f.tag, WireType(f.ltype)), ScalarBytes(f.ltype, v));
    ok := o.EncodeTag(WireType(f.ltype), f.tag);
    if ok { ok := EncodeScalar(o, f.ltype, v); }
  }

  /** The body of a packed array. */
  method EncodeScalars(o: OStream, lt: LType, items: seq<Value>) returns (ok: bool)
    requires ValidType(lt) && Packable(lt)
    requires forall j :: 0 <= j < |items| ==> ValidValue(Typed, lt, items[j])
    modifies o
    ensures ok == Put(old(o.Now()), Scalars(lt, items)).Some?
    ensures ok ==> o.Now() == Put(old(o.Now()), Scalars(lt, items)).value
    decreases lt, 7
  {
    assert items[0..] == items;
    for i := 0 to |items|
      invariant Put(o.Now(), Scalars(lt, items[i..])) == Put(old(o.Now()), Scalars(lt, items))
    {
      ScalarsFirst(lt, items, i);
      PutTwice(o.Now(), ScalarBytes(lt, items[i]), Scalars(lt, items[i + 1..]));
      ok := EncodeScalar(o, lt, items[i]);
      if !ok {
        return;
      }
    }
    PutNothing(o.Now());
    ok := true;
  }

  method PackedSize(lt: LType, items: seq<Value>) returns (size: nat)
    requires ValidType(lt) && Packable(lt)
    requires forall j :: 0 <= j < |items| ==> ValidValue(Typed, lt, items[j])
    ensures size == |Scalars(lt, items)|
    decreases lt, 8
  {
    if lt.Fixed32? {
      ScalarsOfWidth(lt, items, 4);
      return 4 * |items|;
    }
    if lt.Fixed64? {
      ScalarsOfWidth(lt, items, 8);
      return 8 * |items|;
    }
    var counting := new OStream(true, 0, []);
    var ok := EncodeScalars(counting, lt, items);
    size := counting.written;
  }

  method EncodePacked(o: OStream, f: FieldDesc, items: seq<Value>) returns (ok: bool)
    requires ValidField(f) && Packable(f.ltype) && items != []
    requires forall j :: 0 <= j < |items| ==> ValidValue(Typed, f.ltype, items[j])
    modifies o
    ensures ok == Put(old(o.Now()), ArrayBytes(f, items)).Some?
    ensures ok ==> o.Now() == Put(old(o.Now()), ArrayBytes(f, items)).value
    decreases f, 1
  {
    ghost var body := Scalars(f.ltype, items);
    PutTwice(o.Now(), TagBytes(f.tag, 2), Counted(body));
    ok := o.EncodeTag(2, f.tag);
    if !ok {
      return;
    }
    var size := PackedSize(f.ltype, items);
    PutTwice(o.Now(), Coding.Varint(size), body);
    ok := o.EncodeVarint(size);
    if !ok {
      return;
    }
    if o.sizing {
      o.Count(size);
      return true;
    }
    ok := EncodeScalars(o, f.ltype, items);
  }

  method EncodeArray(o: OStream, f: FieldDesc, items: seq<Value>) returns (ok: bool)
    requires ValidField(f) && f.htype.Repeated? && ValidContent(Typed, f, Many(items))
    modifies o
    ensures ok == (ValidContent(Bounded, f, Many(items)) && Put(old(o.Now()), ArrayBytes(f, items)).Some?)
    ensures ok ==> o.Now() == Put(old(o.Now()), ArrayBytes(f, items)).value
    decreases f, 2
  {
    if |items| == 0 {
      PutNothing(o.Now());
      return true;
    }
    if |items| > f.htype.arraySize {
      return false;
    }
    if Packable(f.ltype) {
      ok := EncodePacked(o, f, items);
      return;
    }
    assert items[0..] == items;
    for i := 0 to |items|
      invariant Put(o.Now(), TaggedItems(f, items[i..])) == Put(old(o.Now()), ArrayBytes(f, items))
      invariant forall j :: 0 <= j < i ==> ValidValue(Bounded, f.ltype, items[j])
    {
      TaggedItemsFirst(f, items, i);
      PutTwice(o.Now(), Tagged(f, items[i]), TaggedItems(f, items[i + 1..]));
      ok := EncodeTagged(o, f, items[i]);
      if !ok {
        return;
      }
    }
    PutNothing(o.Now());
    ok := true;
  }

  /** encode_basic_field. */
  method EncodeField(o: OStream, f: FieldDesc, c: Content) returns (ok: bool)
    requires ValidField(f) && ValidContent(Typed, f, c)
    modifies o
    ensures ok == (ValidContent(Bounded, f, c) && Put(old(o.Now()), FieldBytes(f, c)).Some?)
    ensures ok ==> o.Now() == Put(old(o.Now()), FieldBytes(f, c)).value
    decreases f, 3
  {
    match f.htype
    case Required =>
      ok := EncodeTagged(o, f, c.value);
    case Singular =>
      var implicitHas := !IsDefault(f.ltype, c.value);
      if implicitHas {
        ok := EncodeTagged(o, f, c.value);
      } else {
        DefaultIsCanonical(Typed, f.ltype, c.value);
        DefaultValueValid(Bounded, f.ltype);
        PutNothing(o.Now());
        ok := true;
      }
    case Repeated(_) =>
      ok := EncodeArray(o, f, c.items);
    case _ =>
      if c.option.Some? {
        ok := EncodeTagged(o, f, c.option.value);
      } else {
        PutNothing(o.Now());
        ok := true;
      }
  }

  /** pb_encode: it succeeds exactly when every count and size is within bounds and the stream has
      room, and then it has written the wire format of the message. */
  method Encode(o: OStream, fields: seq<FieldDesc>, m: Message) returns (ok: bool)
    requires ValidFields(fields) && ValidMessage(Typed, fields, m)
    modifies o
    ensures ok == (ValidMessage(Bounded, fields, m) && Put(old(o.Now()), MessageBytes(fields, m)).Some?)
    ensures ok ==> o.Now() == Put(old(o.Now()), MessageBytes(fields, m)).value
    decreases fields, 4
  {
    assert fields[0..] == fields && m[0..] == m;
    for i := 0 to |fields|
      invariant Put(o.Now(), MessageBytes(fields[i..], m[i..])) == Put(old(o.Now()), MessageBytes(fields, m))
      invariant forall j :: 0 <= j < i ==> ValidContent(Bounded, fields[j], m[j])
    {
      FieldsFirst(fields, m, i);
      PutTwice(o.Now(), FieldBytes(fields[i], m[i]), MessageBytes(fields[i + 1..], m[i + 1..]));
      ok := EncodeField(o, fields[i], m[i]);
      if !ok {
        return;
      }
    }
    PutNothing(o.Now());
    ok := true;
  }

  method GetEncodedSize(fields: seq<FieldDesc>, m: Message) returns (size: Option<nat>)
    requires ValidFields(fields) && ValidMessage(Typed, fields, m)
    ensures size == if ValidMessage(Bounded, fields, m) then Some(|MessageBytes(fields, m)|) else None
  {
    var counting := new OStream(true, 0, []);
    var ok := Encode(counting, fields, m);
    size := if ok then Some(counting.written) else None;
  }
}
