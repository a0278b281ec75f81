/** What the decoder makes of any bytes (nanopb pb_decode.c). */
module PbDecoding {
  import opened InternalKeys
  import opened ReadSpec
  import opened Coding
  import opened Comparators
  import opened PbMessages
  import opened PbStream
  import opened PbProgress

  /** A value as a signed integer of so many bytes. */
  function Wrap(v: int, bytes: nat): int {
    (v + Half(bytes)) % (2 * Half(bytes)) - Half(bytes)
  }

  function UnZigZag(u: nat): int {
    if u % 2 == 1 then -(u / 2) - 1 else u / 2
  }

  /** The characters before the first NUL. */
  function UpToNul(s: Bytes): (r: Bytes)
    ensures |r| <= |s| && 0 !in r
    ensures 0 !in s ==> r == s
  {
    if s == [] || s[0] == 0 then [] else
      assert 0 !in s ==> 0 !in s[1..];
      [s[0]] + UpToNul(s[1..])
  }

  predicate InHalf(v: int, bytes: nat) {
    -Half(bytes) <= v < Half(bytes)
  }

  /** A signed varint is cut to 32 bits first for a smaller field; None if it does not fit the field. */
  function SignedOf(v: nat, bytes: nat): Option<Value> {
    var i := Wrap(v, if bytes == 8 then 8 else 4);
    if InHalf(i, bytes) then Some(I(i)) else None
  }

  function UnsignedOf(v: nat, bytes: nat): Option<Value> {
    if v < 2 * Half(bytes) then Some(I(v)) else None
  }

  function ZigZagOf(v: nat, bytes: nat): Option<Value> {
    var i := UnZigZag(v);
    if InHalf(i, bytes) then Some(I(i)) else None
  }

  /** An integer of the field's kind that fits its width. */
  function IntegerOf(lt: LType, v: nat): Option<Value> {
    match lt
    case Varint(n) => SignedOf(v, n)
    case UVarint(n) => UnsignedOf(v, n)
    case SVarint(n) => ZigZagOf(v, n)
    case _ => None
  }

  function TakeInteger(lt: LType, s: Bytes): (r: Option<Taken<Value>>)
    ensures r.Some? ==> |r.value.rest| < |s|
  {
    match TakeVarint64(s)
    case None => None
    case Some(t) => (match IntegerOf(lt, t.value) case None => None case Some(v) => Some(Taken(v, t.rest)))
  }

  function TakeFixed(n: nat, s: Bytes): (r: Option<Taken<Value>>)
    ensures r.Some? ==> |r.value.rest| <= |s|
  {
    match TakeBytes(s, n) case None => None case Some(t) => Some(Taken(I(FromLittle(t.value)), t.rest))
  }

  /** What is stored for counted bytes that fit the field. */
  function DataOf(lt: LType, data: Bytes): Option<Value> {
    match lt
    case Blob(max) => if |data| <= max then Some(Data(data)) else None
    case Text(size) => if |data| + 1 <= size then Some(Data(UpToNul(data))) else None
    case FixedBlob(n) => if data == [] then Some(Data(Zeros(n))) else if |data| == n then Some(Data(data)) else None
    case _ => None
  }

  function TakeData(lt: LType, s: Bytes): (r: Option<Taken<Value>>)
    ensures r.Some? ==> |r.value.rest| < |s|
  {
    match TakeCounted(s)
    case None => None
    case Some(t) => (match DataOf(lt, t.value) case None => None case Some(v) => Some(Taken(v, t.rest)))
  }

  /** The value of a field that is not a submessage. */
  function TakePlain(lt: LType, s: Bytes): (r: Option<Taken<Value>>)
    ensures r.Some? ==> |r.value.rest| <= |s|
  {
    match lt
    case Bool => (match TakeVarint32(s) case None => None case Some(t) => Some(Taken(B(t.value != 0), t.rest)))
    case Fixed32 => TakeFixed(4, s)
    case Fixed64 => TakeFixed(8, s)
    case Blob(_) => TakeData(lt, s)
    case Text(_) => TakeData(lt, s)
    case FixedBlob(_) => TakeData(lt, s)
    case _ => TakeInteger(lt, s)
  }

  /** A submessage is decoded into what is there, but for a new array entry. */
  function TakeScalar(lt: LType, repeated: bool, before: Value, s: Bytes): (r: Option<Taken<Value>>)
    ensures r.Some? ==> |r.value.rest| <= |s|
    decreases lt, 7
  {
    match lt
    case Submessage(fields) =>
      (match TakeCounted(s)
       case None => None
       case Some(t) =>
         var start := if repeated then Defaults(fields) else if before.M? then before.message else [];
         match Decoded(fields, start, t.value)
         case None => None
         case Some(m) => Some(Taken(M(m), t.rest)))
    case _ => TakePlain(lt, s)
  }

  /** Array entries are added while there are bytes and room. */
  function TakeItems(f: FieldDesc, got: seq<Value>, s: Bytes): (r: Option<seq<Value>>)
    decreases f, 8, if f.htype.Repeated? && |got| <= f.htype.arraySize then f.htype.arraySize - |got| else 0
  {
    if s == [] then Some(got)
    else if !f.htype.Repeated? || |got| >= f.htype.arraySize then None
    else
      match TakeScalar(f.ltype, true, DefaultValue(f.ltype), s)
      case None => None
      case Some(t) => TakeItems(f, got + [t.value], t.rest)
  }

  /** What the structure holds for the field after a value of it. */
  function TakeField(f: FieldDesc, wireType: nat, before: Content, s: Bytes): (r: Option<Taken<Content>>)
    ensures r.Some? ==> |r.value.rest| <= |s|
    decreases f, 9
  {
    match before
    case Many(items) =>
      if wireType == 2 && Packable(f.ltype) then
        match TakeCounted(s)
        case None => None
        case Some(t) =>
          (match TakeItems(f, items, t.value) case None => None case Some(all) => Some(Taken(Many(all), t.rest)))
      else if !f.htype.Repeated? || |items| >= f.htype.arraySize then None
      else
        (match TakeScalar(f.ltype, true, DefaultValue(f.ltype), s)
         case None => None
         case Some(t) => Some(Taken(Many(items + [t.value]), t.rest)))
    case One(v) =>
      (match TakeScalar(f.ltype, false, v, s) case None => None case Some(t) => Some(Taken(One(t.value), t.rest)))
    case Maybe(o) =>
      var start := if o.Some? then o.value else DefaultValue(f.ltype);
      match TakeScalar(f.ltype, false, start, s)
      case None => None
      case Some(t) => Some(Taken(Maybe(Some(t.value)), t.rest))
  }

  /** The place of a tag in the field table. */
  function PlaceOf(fields: seq<FieldDesc>, tag: nat): (r: Option<nat>)
    ensures r.Some? ==> r.value < |fields| && fields[r.value].tag == tag
    ensures r.None? ==> forall i :: 0 <= i < |fields| ==> fields[i].tag != tag
  {
    if fields == [] then None
    else if fields[0].tag == tag then Some(0)
    else match PlaceOf(fields[1..], tag) case None => None case Some(i) => Some(i + 1)
  }

  /** The structure and the required fields seen so far. */
  datatype Progressed = Progressed(dest: Message, seen: set<nat>)

  /** The loop over the fields; unknown ones are skipped. */
  function Loop(fields: seq<FieldDesc>, dest: Message, seen: set<nat>, s: Bytes): (r: Option<Progressed>)
    decreases fields, 3, |s|
  {
    match TakeTag(s)
    case EndOfMessage => Some(Progressed(dest, seen))
    case BadTag => None
    case Tag(tag, wireType, rest) =>
      match PlaceOf(fields, tag)
      case None => (match Skipped(wireType, rest) case None => None case Some(after) => Loop(fields, dest, seen, after))
      case Some(p) =>
        if |dest| != |fields| then None
        else
          match TakeField(fields[p], wireType, dest[p], rest)
          case None => None
          case Some(t) => Loop(fields, Store(fields, dest, p, t.value), Marked(fields, seen, p), t.rest)
  }

  /** How many required fields are checked for. */
  function Checked(fields: seq<FieldDesc>): nat {
    var count := RequiredBefore(fields, |fields|);
    if count > MAX_REQUIRED_FIELDS then MAX_REQUIRED_FIELDS else count
  }

  /** What `s` decodes to; None if it is refused. */
  function Decoded(fields: seq<FieldDesc>, before: Message, s: Bytes): (r: Option<Message>)
    decreases fields, 4
  {
    match Loop(fields, before, {}, s)
    case None => None
    case Some(p) => if p.seen == Low(Checked(fields)) then Some(p.dest) else None
  }

  function RequiredBefore(fields: seq<FieldDesc>, n: nat): nat
    requires n <= |fields|
  {
    if n == 0 then 0 else RequiredBefore(fields, n - 1) + (if fields[n - 1].htype.Required? then 1 else 0)
  }

  const MAX_REQUIRED_FIELDS: nat := 64

  function Low(count: nat): (r: set<nat>)
    ensures forall q: nat :: q in r <==> q < count
  {
    if count == 0 then {} else Low(count - 1) + {count - 1}
  }

  function Marked(fields: seq<FieldDesc>, seen: set<nat>, p: nat): set<nat>
    requires p < |fields|
  {
    if fields[p].htype.Required? && RequiredBefore(fields, p) < MAX_REQUIRED_FIELDS
    then seen + {RequiredBefore(fields, p)}
    else seen
  }

  lemma {:induction false} RequiredGrows(fields: seq<FieldDesc>, i: nat, n: nat)
    requires i < n <= |fields|
    ensures RequiredBefore(fields, i) + (if fields[i].htype.Required? then 1 else 0) <= RequiredBefore(fields, n)
  {
    if i < n - 1 { RequiredGrows(fields, i, n - 1); }
  }

  lemma {:induction false} NthRequired(fields: seq<FieldDesc>, n: nat, q: nat) returns (i: nat)
    requires n <= |fields| && q < RequiredBefore(fields, n)
    ensures i < n && fields[i].htype.Required? && RequiredBefore(fields, i) == q
  {
    if q < RequiredBefore(fields, n - 1) { i := NthRequired(fields, n - 1, q); }
    else { i := n - 1; }
  }
}
