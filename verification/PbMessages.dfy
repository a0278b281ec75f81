/** Messages and their wire format (nanopb pb.h; the Protocol Buffers Encoding specification,
    sections "Base 128 Varints", "Signed Integers" and "Message Structure"). */
module PbMessages {
  import opened InternalKeys
  import opened ReadSpec
  import opened Coding
  import opened Comparators

  /** PB_LTYPE of a statically allocated field, with the size of its data. */
  datatype LType =
    | Bool
    | Varint(bytes: nat)
    | UVarint(bytes: nat)
    | SVarint(bytes: nat)
    | Fixed32
    | Fixed64
    | Blob(max: nat)
    | Text(dataSize: nat)
    | FixedBlob(size: nat)
    | Submessage(fields: seq<FieldDesc>)

  /** PB_HTYPE; Singular is an optional field without a has_ flag (proto3). */
  datatype HType = Required | Optional | Singular | Repeated(arraySize: nat) | Oneof(group: nat)

  datatype FieldDesc = FieldDesc(tag: nat, ltype: LType, htype: HType)

  datatype Value = B(b: bool) | I(i: int) | Data(data: Bytes) | M(message: seq<Content>)

  /** What a structure holds for a field: the data, the has_ or which_ flag, the count.
      A string is the characters before its first NUL. */
  datatype Content = One(value: Value) | Maybe(option: Option<Value>) | Many(items: seq<Value>)

  type Message = seq<Content>

  function WireType(lt: LType): (w: nat)
    ensures w < 8
  {
    match lt
    case Bool => 0
    case Varint(_) => 0
    case UVarint(_) => 0
    case SVarint(_) => 0
    case Fixed64 => 1
    case Fixed32 => 5
    case _ => 2
  }

  predicate Packable(lt: LType) {
    WireType(lt) != 2
  }

  predicate IntegerSize(bytes: nat) {
    bytes == 1 || bytes == 2 || bytes == 4 || bytes == 8
  }

  /** Half the range of an integer of so many bytes. */
  function Half(bytes: nat): int {
    if bytes == 1 then 0x80
    else if bytes == 2 then 0x8000
    else if bytes == 4 then 0x8000_0000
    else 0x8000_0000_0000_0000
  }

  /** A field table a generator may emit: distinct nonzero tags, integers of a C width. */
  ghost predicate ValidFields(fields: seq<FieldDesc>)
    decreases fields
  {
    && (forall i, j :: 0 <= i < j < |fields| ==> fields[i].tag != fields[j].tag)
    && forall i :: 0 <= i < |fields| ==> ValidField(fields[i])
  }

  ghost predicate ValidField(f: FieldDesc)
    decreases f
  {
    0 < f.tag < 0x2000_0000 && ValidType(f.ltype)
  }

  ghost predicate ValidType(lt: LType)
    decreases lt
  {
    match lt
    case Varint(n) => IntegerSize(n)
    case UVarint(n) => IntegerSize(n)
    case SVarint(n) => IntegerSize(n)
    case Text(size) => size > 0
    case Submessage(fields) => ValidFields(fields)
    case _ => true
  }

  /** How much is asked of a value: that the C types can hold it; that in addition counts and
      sizes stay within the arrays, which the encoder checks; that in addition strings are
      terminated, which the encoder does not check. */
  datatype Level = Typed | Bounded | Terminated

  ghost predicate ValidValue(level: Level, lt: LType, v: Value)
    decreases lt
  {
    match lt
    case Bool => v.B?
    case Varint(n) => v.I? && -Half(n) <= v.i < Half(n)
    case UVarint(n) => v.I? && 0 <= v.i < 2 * Half(n)
    case SVarint(n) => v.I? && -Half(n) <= v.i < Half(n)
    case Fixed32 => v.I? && 0 <= v.i < TWO_32
    case Fixed64 => v.I? && 0 <= v.i < TWO_64
    case Blob(max) => v.Data? && (|v.data| <= max || level == Typed)
    case Text(size) => v.Data? && 0 !in v.data && |v.data| <= size && (|v.data| < size || level != Terminated)
    case FixedBlob(n) => v.Data? && |v.data| == n
    case Submessage(fields) => v.M? && ValidMessage(level, fields, v.message)
  }

  ghost predicate ValidMessage(level: Level, fields: seq<FieldDesc>, m: Message)
    decreases fields
  {
    && |m| == |fields|
    && (forall i :: 0 <= i < |fields| ==> ValidContent(level, fields[i], m[i]))
    && forall i, j :: 0 <= i < j < |fields| && fields[i].htype.Oneof? && fields[i].htype == fields[j].htype ==>
      m[i] == Maybe(None) || m[j] == Maybe(None)
  }

  ghost predicate ValidContent(level: Level, f: FieldDesc, c: Content)
    decreases f
  {
    match f.htype
    case Required => c.One? && ValidValue(level, f.ltype, c.value)
    case Singular => c.One? && ValidValue(level, f.ltype, c.value)
    case Repeated(n) => c.Many? && (|c.items| <= n || level == Typed) && forall j :: 0 <= j < |c.items| ==>
        ValidValue(level, f.ltype, c.items[j])
    case _ => c.Maybe? && (c.option.Some? ==> ValidValue(level, f.ltype, c.option.value))
  }

  function Zeros(n: nat): (r: Bytes)
    ensures |r| == n
  {
    seq(n, i => 0)
  }

  function DefaultValue(lt: LType): Value
    decreases lt
  {
    match lt
    case Bool => B(false)
    case Blob(_) => Data([])
    case Text(_) => Data([])
    case FixedBlob(n) => Data(Zeros(n))
    case Submessage(fields) => M(Defaults(fields))
    case _ => I(0)
  }

  function DefaultContent(f: FieldDesc): Content
    decreases f
  {
    match f.htype
    case Required => One(DefaultValue(f.ltype))
    case Singular => One(DefaultValue(f.ltype))
    case Repeated(_) => Many([])
    case _ => Maybe(None)
  }

  /** pb_message_set_to_defaults without descriptor defaults. */
  function Defaults(fields: seq<FieldDesc>): (m: Message)
    ensures |m| == |fields|
    decreases fields
  {
    if fields == [] then [] else [DefaultContent(fields[0])] + Defaults(fields[1..])
  }

  lemma {:induction false} DefaultsAt(fields: seq<FieldDesc>, i: nat)
    requires i < |fields|
    ensures Defaults(fields)[i] == DefaultContent(fields[i])
  {
    if i > 0 { DefaultsAt(fields[1..], i - 1); }
  }

  lemma {:induction false} DefaultValueValid(level: Level, lt: LType)
    requires ValidType(lt)
    ensures ValidValue(level, lt, DefaultValue(lt))
    decreases lt
  {
    if lt.Submessage? { DefaultsValid(level, lt.fields); }
  }

  lemma {:induction false} DefaultsValid(level: Level, fields: seq<FieldDesc>)
    requires ValidFields(fields)
    ensures ValidMessage(level, fields, Defaults(fields))
    decreases fields
  {
    forall i | 0 <= i < |fields|
      ensures ValidContent(level, fields[i], Defaults(fields)[i])
      ensures fields[i].htype.Oneof? ==> Defaults(fields)[i] == Maybe(None)
    {
      DefaultsAt(fields, i);
      DefaultContentValid(level, fields[i]);
    }
  }

  lemma {:induction false} DefaultContentValid(level: Level, f: FieldDesc)
    requires ValidField(f)
    ensures ValidContent(level, f, DefaultContent(f))
    decreases f
  {
    if f.htype.Required? || f.htype.Singular? { DefaultValueValid(level, f.ltype); }
  }

  /** pb_check_proto3_default_value. */
  predicate IsDefault(lt: LType, v: Value)
    decreases lt
  {
    match (lt, v)
    case (FixedBlob(n), _) => n == 0
    case (Submessage(fields), M(m)) => AllDefault(fields, m)
    case (_, B(b)) => !b
    case (_, I(i)) => i == 0
    case (_, Data(s)) => s == []
    case _ => false
  }

  predicate ContentIsDefault(f: FieldDesc, c: Content)
    decreases f
  {
    match (f.htype, c)
    case (Required, _) => false
    case (_, One(v)) => IsDefault(f.ltype, v)
    case (_, Maybe(o)) => o.None?
    case (_, Many(items)) => items == []
  }

  predicate AllDefault(fields: seq<FieldDesc>, m: Message)
    decreases fields
  {
    fields == [] || (m != [] && ContentIsDefault(fields[0], m[0]) && AllDefault(fields[1..], m[1..]))
  }

  /** Leaving a default value out loses nothing. */
  lemma {:induction false} DefaultIsCanonical(level: Level, lt: LType, v: Value)
    requires ValidValue(level, lt, v) && IsDefault(lt, v)
    ensures v == DefaultValue(lt)
    decreases lt
  {
    if lt.Submessage? {
      AllDefaultIsCanonical(level, lt.fields, v.message);
    }
  }

  lemma {:induction false} ContentDefaultIsCanonical(level: Level, f: FieldDesc, c: Content)
    requires ValidContent(level, f, c) && ContentIsDefault(f, c)
    ensures c == DefaultContent(f)
    decreases f
  {
    if f.htype.Singular? { DefaultIsCanonical(level, f.ltype, c.value); }
  }

  lemma {:induction false} AllDefaultIsCanonical(level: Level, fields: seq<FieldDesc>, m: Message)
    requires |m| == |fields| && AllDefault(fields, m)
    requires forall i :: 0 <= i < |fields| ==> ValidContent(level, fields[i], m[i])
    ensures m == Defaults(fields)
    decreases fields
  {
    if fields != [] {
      ContentDefaultIsCanonical(level, fields[0], m[0]);
      forall i | 0 <= i < |fields| - 1 ensures ValidContent(level, fields[1..][i], m[1..][i]) {
        assert ValidContent(level, fields[i + 1], m[i + 1]);
      }
      AllDefaultIsCanonical(level, fields[1..], m[1..]);
    }
  }

  /** Small numbers of either sign become small numbers: 0, -1, 1, -2, ... to 0, 1, 2, 3, ... */
  function ZigZag(v: int): nat {
    if v < 0 then -2 * v - 1 else 2 * v
  }

  function TagBytes(tag: nat, wireType: nat): Bytes {
    Coding.Varint(tag * 8 + wireType)
  }

  function Counted(s: Bytes): Bytes {
    Coding.Varint(|s|) + s
  }

  /** Two's complement in 64 bits. */
  function Unsigned64(v: int): nat {
    v % TWO_64
  }

  function ScalarBytes(lt: LType, v: Value): Bytes
    decreases lt, 0
  {
    match (lt, v)
    case (Bool, B(b)) => Coding.Varint(if b then 1 else 0)
    case (Varint(_), I(i)) => Coding.Varint(Unsigned64(i))
    case (UVarint(_), I(i)) => if i >= 0 then Coding.Varint(i) else []
    case (SVarint(_), I(i)) => Coding.Varint(ZigZag(i))
    case (Fixed32, I(i)) => if i >= 0 then Little(i, 4) else []
    case (Fixed64, I(i)) => if i >= 0 then Little(i, 8) else []
    case (Submessage(fields), M(m)) => Counted(MessageBytes(fields, m))
    case (_, Data(s)) => Counted(s)
    case _ => []
  }

  function Scalars(lt: LType, items: seq<Value>): Bytes
    decreases lt, |items|
  {
    if items == [] then [] else ScalarBytes(lt, items[0]) + Scalars(lt, items[1..])
  }

  /** A value with the tag of its field in front. */
  function Tagged(f: FieldDesc, v: Value): Bytes
    decreases f, 0
  {
    TagBytes(f.tag, WireType(f.ltype)) + ScalarBytes(f.ltype, v)
  }

  function TaggedItems(f: FieldDesc, items: seq<Value>): Bytes
    decreases f, 1, |items|
  {
    if items == [] then [] else Tagged(f, items[0]) + TaggedItems(f, items[1..])
  }

  function ArrayBytes(f: FieldDesc, items: seq<Value>): Bytes
    decreases f, 2
  {
    if !Packable(f.ltype) then TaggedItems(f, items)
    else if items == [] then []
    else TagBytes(f.tag, 2) + Counted(Scalars(f.ltype, items))
  }

  function FieldBytes(f: FieldDesc, c: Content): Bytes
    decreases f, 3
  {
    match c
    case One(v) => if f.htype.Singular? && IsDefault(f.ltype, v) then [] else Tagged(f, v)
    case Maybe(o) => if o.Some? then Tagged(f, o.value) else []
    case Many(items) => ArrayBytes(f, items)
  }

  function MessageBytes(fields: seq<FieldDesc>, m: Message): Bytes
    decreases fields, 4
  {
    if fields == [] || m == [] then [] else FieldBytes(fields[0], m[0]) + MessageBytes(fields[1..], m[1..])
  }

  lemma FieldsFirst(fields: seq<FieldDesc>, m: Message, i: nat)
    requires i < |fields| == |m|
    ensures MessageBytes(fields[i..], m[i..]) == FieldBytes(fields[i], m[i]) + MessageBytes(fields[i + 1..], m[i + 1..])
  {
    assert fields[i..][1..] == fields[i + 1..] && m[i..][1..] == m[i + 1..];
  }

  lemma ScalarsFirst(lt: LType, items: seq<Value>, i: nat)
    requires i < |items|
    ensures Scalars(lt, items[i..]) == ScalarBytes(lt, items[i]) + Scalars(lt, items[i + 1..])
  {
    assert items[i..][1..] == items[i + 1..];
  }

  lemma TaggedItemsFirst(f: FieldDesc, items: seq<Value>, i: nat)
    requires i < |items|
    ensures TaggedItems(f, items[i..]) == Tagged(f, items[i]) + TaggedItems(f, items[i + 1..])
  {
    assert items[i..][1..] == items[i + 1..];
  }
}
