/** Decoding any input: unknown fields are ignored wherever they stand, and success means that the required
    fields were met (nanopb pb_decode.c, pb_decode_noinit). */
module PbUnknown {
  import opened InternalKeys
  import opened ReadSpec
  import opened Coding
  import opened Comparators
  import opened PbMessages
  import opened PbStream
  import opened PbProgress
  import opened PbDecoding

  // ----- what is taken does not depend on what follows -----

  lemma {:induction false} MoreOf32Local(s: Bytes, result: Uint32, bitpos: nat, more: Bytes)
    requires AfterVarint(s).Some?
    ensures var t := MoreOf32(s, result, bitpos);
      && MoreOf32(s + more, result, bitpos) == Followed(t, more)
      && (t.Some? ==> t.value.rest == AfterVarint(s).value)
    decreases |s|
  {
    assert (s + more)[0] == s[0] && (s + more)[1..] == s[1..] + more;
    MergedFits(result, s[0], bitpos);
    if s[0] >= 128 {
      MoreOf32Local(s[1..], if bitpos >= 32 then result else Merged(result, s[0], bitpos), (bitpos + 7) % 256, more);
    }
  }

  /** The same is taken with more behind it. */
  function Followed<T>(t: Option<Taken<T>>, more: Bytes): Option<Taken<T>> {
    match t case None => None case Some(x) => Some(Taken(x.value, x.rest + more))
  }

  lemma Varint32Local(s: Bytes, more: Bytes)
    requires AfterVarint(s).Some?
    ensures var t := TakeVarint32(s);
      TakeVarint32(s + more) == Followed(t, more) && (t.Some? ==> t.value.rest == AfterVarint(s).value)
  {
    assert (s + more)[0] == s[0] && (s + more)[1..] == s[1..] + more;
    if s[0] >= 128 {
      LongVarint32(s);
      LongVarint32(s + more);
      MoreOf32Local(s[1..], s[0] % 128, 7, more);
    } else {
      ShortVarint32(s);
      ShortVarint32(s + more);
    }
  }

  lemma LongVarint32(s: Bytes)
    requires s != [] && s[0] >= 128
    ensures TakeVarint32(s) == MoreOf32(s[1..], s[0] % 128, 7) && AfterVarint(s) == AfterVarint(s[1..])
  {
  }

  lemma ShortVarint32(s: Bytes)
    requires s != [] && s[0] < 128
    ensures TakeVarint32(s) == Some(Taken(s[0], s[1..])) && AfterVarint(s) == Some(s[1..])
  {
  }

  lemma {:induction false} TakenEnds(s: Bytes, result: Uint32, bitpos: nat)
    requires MoreOf32(s, result, bitpos).Some?
    ensures AfterVarint(s).Some?
    decreases |s|
  {
    MergedFits(result, s[0], bitpos);
    if s[0] >= 128 {
      TakenEnds(s[1..], if bitpos >= 32 then result else Merged(result, s[0], bitpos), (bitpos + 7) % 256);
    }
  }

  /** A number that was read is read the same with more behind it. */
  lemma Varint32Taken(s: Bytes, more: Bytes)
    requires TakeVarint32(s).Some?
    ensures AfterVarint(s) == Some(TakeVarint32(s).value.rest)
    ensures TakeVarint32(s + more) == Followed(TakeVarint32(s), more)
  {
    if s[0] >= 128 { TakenEnds(s[1..], s[0] % 128, 7); }
    Varint32Local(s, more);
  }

  lemma {:induction false} ReadVarintLocal(s: Bytes, n: nat, more: Bytes)
    requires AfterVarint(s).Some?
    ensures ReadVarint(s + more, n) == ReadVarint(s, n)
    ensures ReadVarint(s, n).Some? ==> s[ReadVarint(s, n).value.length..] == AfterVarint(s).value
  {
    assert (s + more)[0] == s[0] && (s + more)[1..] == s[1..] + more;
    if n > 0 && s[0] >= 128 {
      ReadVarintLocal(s[1..], n - 1, more);
      var p := ReadVarint(s[1..], n - 1);
      if p.Some? { assert s[1..][p.value.length..] == s[p.value.length + 1..]; }
    }
  }

  lemma Varint64Local(s: Bytes, more: Bytes)
    requires AfterVarint(s) == Some([])
    ensures TakeVarint64(s + more) == Followed(TakeVarint64(s), more)
    ensures TakeVarint64(s).Some? ==> TakeVarint64(s).value.rest == []
  {
    ReadVarintLocal(s, MAX_VARINT64_LENGTH, more);
    var p := GetVarint64(s);
    if p.Some? {
      assert |s[p.value.length..]| == 0 && p.value.length == |s|;
      assert (s + more)[|s|..] == [] + more;
    }
  }

  lemma CountedLocal(s: Bytes, more: Bytes)
    requires TakeCounted(s).Some?
    ensures TakeCounted(s + more) == Followed(TakeCounted(s), more)
  {
    Varint32Taken(s, more);
    var t := TakeVarint32(s).value;
    assert (t.rest + more)[..t.value] == t.rest[..t.value] && (t.rest + more)[t.value..] == t.rest[t.value..] + more;
  }

  // ----- fields on the wire -----

  /** The bytes are one field: a tag and a value of its wire type, in any encoding the decoder can skip. */
  predicate IsField(c: Bytes) {
    match TakeTag(c) case Tag(_, wireType, value) => Skipped(wireType, value) == Some([]) case _ => false
  }

  predicate Unknown(fields: seq<FieldDesc>, c: Bytes) {
    var t := TakeTag(c);
    t.Tag? && PlaceOf(fields, t.tag).None?
  }

  /** The wire type is one the field may come with. */
  predicate WireFits(f: FieldDesc, wireType: nat) {
    wireType == WireType(f.ltype) || (wireType == 2 && f.htype.Repeated?)
  }

  predicate Fitting(fields: seq<FieldDesc>, c: Bytes) {
    match TakeTag(c)
    case Tag(tag, wireType, _) => var p := PlaceOf(fields, tag); p.Some? && WireFits(fields[p.value], wireType)
    case _ => false
  }

  lemma TagLocal(c: Bytes, more: Bytes)
    requires TakeTag(c).Tag?
    ensures TakeTag(c + more) == TakeTag(c).(rest := TakeTag(c).rest + more)
  {
    Varint32Taken(c, more);
  }

  lemma SkippedLocal(wireType: nat, value: Bytes, more: Bytes)
    requires Skipped(wireType, value) == Some([])
    ensures Skipped(wireType, value + more) == Some(more)
  {
    assert [] + more == more;
    match wireType
    case 0 => AfterVarintLocal(value, more);
    case 1 => assert |value[8..]| == 0 && (value + more)[8..] == more;
    case 2 => CountedLocal(value, more);
    case 5 => assert |value[4..]| == 0 && (value + more)[4..] == more;
    case _ =>
  }

  lemma {:induction false} AfterVarintLocal(s: Bytes, more: Bytes)
    requires AfterVarint(s).Some?
    ensures AfterVarint(s + more) == Some(AfterVarint(s).value + more)
  {
    assert (s + more)[0] == s[0] && (s + more)[1..] == s[1..] + more;
    if s[0] >= 128 { AfterVarintLocal(s[1..], more); }
  }

  /** What an encoder sends for a field, whatever its table, is one field. */
  lemma SentIsField(tag: nat, lt: LType, v: Value)
    requires 0 < tag < 0x2000_0000 && ValidType(lt) && ValidValue(Typed, lt, v) && |ScalarBytes(lt, v)| < TWO_32
    ensures var c := TagBytes(tag, WireType(lt)) + ScalarBytes(lt, v);
      IsField(c) && TakeTag(c) == Tag(tag, WireType(lt), ScalarBytes(lt, v))
  {
    TagAsSent(tag, WireType(lt), ScalarBytes(lt, v));
    ValueAsSent(lt, v, ScalarBytes(lt, v));
  }

  lemma TagAsSent(tag: nat, wireType: nat, value: Bytes)
    requires 0 < tag < 0x2000_0000 && wireType < 8
    ensures TakeTag(TagBytes(tag, wireType) + value) == Tag(tag, wireType, value)
  {
    var c := TagBytes(tag, wireType) + value;
    Read32(tag * 8 + wireType, c, value);
    Varint32Accepted(c);
  }

  lemma ValueAsSent(lt: LType, v: Value, value: Bytes)
    requires ValidType(lt) && ValidValue(Typed, lt, v) && value == ScalarBytes(lt, v) && |value| < TWO_32
    ensures Skipped(WireType(lt), value) == Some([])
  {
    assert value + [] == value;
    EncodedSkips(lt, v, value, []);
    SkippedAsSent(WireType(lt), value);
  }

  lemma SkippedAsSent(wireType: nat, value: Bytes)
    requires SkippedTo(wireType, value, []) && wireType in {0, 1, 2, 5}
    ensures Skipped(wireType, value) == Some([])
  {
    if wireType == 2 {
      var x: Bytes :| |x| < TWO_32 && CountedAs(value, x, []);
      Varint32Accepted(value);
    }
  }

  /** An unknown field is passed over, whatever has been decoded before it and whatever follows. */
  lemma UnknownIsSkipped(fields: seq<FieldDesc>, dest: Message, seen: set<nat>, u: Bytes, rest: Bytes)
    requires IsField(u) && Unknown(fields, u)
    ensures Loop(fields, dest, seen, u + rest) == Loop(fields, dest, seen, rest)
  {
    TagLocal(u, rest);
    SkippedLocal(TakeTag(u).wireType, TakeTag(u).rest, rest);
  }

  // ----- a known field takes exactly its own bytes -----

  lemma PlainLocal(lt: LType, value: Bytes, more: Bytes)
    requires Skipped(WireType(lt), value) == Some([]) && !lt.Submessage?
    ensures TakePlain(lt, value + more) == Followed(TakePlain(lt, value), more)
    ensures TakePlain(lt, value).Some? ==> TakePlain(lt, value).value.rest == []
  {
    match lt
    case Bool => Varint32Local(value, more);
    case Fixed32 => FixedLocal(4, value, more);
    case Fixed64 => FixedLocal(8, value, more);
    case Varint(_) => IntegerLocal(lt, value, more);
    case UVarint(_) => IntegerLocal(lt, value, more);
    case SVarint(_) => IntegerLocal(lt, value, more);
    case _ => DataLocal(lt, value, more);
  }

  lemma FixedLocal(n: nat, value: Bytes, more: Bytes)
    requires n <= |value|
    ensures TakeFixed(n, value + more) == Followed(TakeFixed(n, value), more)
  {
    assert (value + more)[..n] == value[..n] && (value + more)[n..] == value[n..] + more;
  }

  lemma IntegerLocal(lt: LType, value: Bytes, more: Bytes)
    requires AfterVarint(value) == Some([])
    ensures TakeInteger(lt, value + more) == Followed(TakeInteger(lt, value), more)
    ensures TakeInteger(lt, value).Some? ==> TakeInteger(lt, value).value.rest == []
  {
    Varint64Local(value, more);
  }

  lemma DataLocal(lt: LType, value: Bytes, more: Bytes)
    requires TakeCounted(value).Some? && TakeCounted(value).value.rest == []
    ensures TakeData(lt, value + more) == Followed(TakeData(lt, value), more)
    ensures TakeData(lt, value).Some? ==> TakeData(lt, value).value.rest == []
  {
    CountedLocal(value, more);
  }

  lemma ScalarLocal(lt: LType, repeated: bool, before: Value, value: Bytes, more: Bytes)
    requires Skipped(WireType(lt), value) == Some([])
    ensures TakeScalar(lt, repeated, before, value + more) == Followed(TakeScalar(lt, repeated, before, value), more)
    ensures TakeScalar(lt, repeated, before, value).Some? ==> TakeScalar(lt, repeated, before, value).value.rest == []
  {
    if lt.Submessage? { CountedLocal(value, more); } else { PlainLocal(lt, value, more); }
  }

  lemma FieldLocal(f: FieldDesc, wireType: nat, before: Content, value: Bytes, more: Bytes)
    requires Skipped(wireType, value) == Some([]) && WireFits(f, wireType) && (f.htype.Repeated? <==> before.Many?)
    ensures TakeField(f, wireType, before, value + more) == Followed(TakeField(f, wireType, before, value), more)
    ensures TakeField(f, wireType, before, value).Some? ==> TakeField(f, wireType, before, value).value.rest == []
  {
    if before.Many? && wireType == 2 && Packable(f.ltype) {
      CountedLocal(value, more);
    } else {
      var repeated, start := before.Many?, match before
        case Many(_) => DefaultValue(f.ltype)
        case One(v) => v
        case Maybe(o) => if o.Some? then o.value else DefaultValue(f.ltype);
      ScalarLocal(f.ltype, repeated, start, value, more);
    }
  }

  // ----- unknown fields anywhere -----

  /** Arrays are where the table has arrays. */
  ghost predicate Shaped(fields: seq<FieldDesc>, dest: Message) {
    |dest| == |fields| && forall i :: 0 <= i < |fields| ==> (fields[i].htype.Repeated? <==> dest[i].Many?)
  }

  lemma ValidIsShaped(level: Level, fields: seq<FieldDesc>, m: Message)
    requires ValidMessage(level, fields, m)
    ensures Shaped(fields, m)
  {
    forall i | 0 <= i < |fields| ensures fields[i].htype.Repeated? <==> m[i].Many? {
      assert ValidContent(level, fields[i], m[i]);
    }
  }

  lemma StoreKeepsShape(fields: seq<FieldDesc>, dest: Message, p: nat, c: Content)
    requires Shaped(fields, dest) && p < |fields| && (c.Many? <==> dest[p].Many?)
    ensures Shaped(fields, Store(fields, dest, p, c))
  {
  }

  /** The loop once a known field has been taken up. */
  ghost function AfterKnown(fields: seq<FieldDesc>, dest: Message, seen: set<nat>, p: nat,
                            t: Option<Taken<Content>>, rest: Bytes): Option<Progressed>
    requires p < |fields| == |dest|
  {
    match t
    case None => None
    case Some(x) => Loop(fields, Store(fields, dest, p, x.value), Marked(fields, seen, p), rest)
  }

  lemma KnownIsTaken(fields: seq<FieldDesc>, dest: Message, seen: set<nat>, c: Bytes, rest: Bytes)
    requires IsField(c) && Fitting(fields, c) && Shaped(fields, dest)
    ensures var t := TakeTag(c); var p := PlaceOf(fields, t.tag).value;
      Loop(fields, dest, seen, c + rest) ==
        AfterKnown(fields, dest, seen, p, TakeField(fields[p], t.wireType, dest[p], t.rest), rest)
  {
    var t := TakeTag(c);
    var p := PlaceOf(fields, t.tag).value;
    TagLocal(c, rest);
    FieldLocal(fields[p], t.wireType, dest[p], t.rest, rest);
    assert [] + rest == rest;
  }

  lemma TakenKeepsShape(f: FieldDesc, wireType: nat, before: Content, s: Bytes)
    ensures TakeField(f, wireType, before, s).Some? ==>
      (TakeField(f, wireType, before, s).value.value.Many? <==> before.Many?)
  {
  }

  function Joined(fs: seq<Bytes>): Bytes {
    if fs == [] then [] else fs[0] + Joined(fs[1..])
  }

  function KnownOf(fields: seq<FieldDesc>, fs: seq<Bytes>): seq<Bytes> {
    if fs == [] then []
    else (if Unknown(fields, fs[0]) then [] else [fs[0]]) + KnownOf(fields, fs[1..])
  }

  /** A message on the wire: fields one after the other, those of the table in a wire type that fits. */
  ghost predicate OnWire(fields: seq<FieldDesc>, fs: seq<Bytes>) {
    forall i :: 0 <= i < |fs| ==> IsField(fs[i]) && (Unknown(fields, fs[i]) || Fitting(fields, fs[i]))
  }

  /** Unknown fields before, between and after the others change nothing, in whatever state decoding is. */
  lemma {:induction false} UnknownAnywhere(fields: seq<FieldDesc>, dest: Message, seen: set<nat>, fs: seq<Bytes>)
    requires OnWire(fields, fs) && Shaped(fields, dest)
    ensures SameEnd(fields, dest, seen, fs)
    decreases |fs|
  {
    if fs != [] {
      if Unknown(fields, fs[0]) {
        UnknownIsSkipped(fields, dest, seen, fs[0], Joined(fs[1..]));
        UnknownAnywhere(fields, dest, seen, fs[1..]);
        UnknownFirst(fields, fs);
      } else {
        var p, taken := TakenOf(fields, dest, fs[0]);
        if taken.Some? {
          UnknownAnywhere(fields, Store(fields, dest, p, taken.value.value), Marked(fields, seen, p), fs[1..]);
        }
        KnownStep(fields, dest, seen, fs, p, taken);
      }
    }
  }

  lemma UnknownFirst(fields: seq<FieldDesc>, fs: seq<Bytes>)
    requires fs != [] && Unknown(fields, fs[0])
    ensures KnownOf(fields, fs) == KnownOf(fields, fs[1..]) && Joined(fs) == fs[0] + Joined(fs[1..])
  {
  }

  lemma KnownStep(fields: seq<FieldDesc>, dest: Message, seen: set<nat>, fs: seq<Bytes>, p: nat,
                  taken: Option<Taken<Content>>)
    requires fs != [] && IsField(fs[0]) && Fitting(fields, fs[0]) && Shaped(fields, dest)
    requires PlaceOf(fields, TakeTag(fs[0]).tag) == Some(p)
    requires taken == TakeField(fields[p], TakeTag(fs[0]).wireType, dest[p], TakeTag(fs[0]).rest)
    requires taken.Some? ==>
      SameEnd(fields, Store(fields, dest, p, taken.value.value), Marked(fields, seen, p), fs[1..])
    ensures SameEnd(fields, dest, seen, fs)
  {
    KnownFirst(fields, fs);
    KnownIsTaken(fields, dest, seen, fs[0], Joined(fs[1..]));
    KnownIsTaken(fields, dest, seen, fs[0], Joined(KnownOf(fields, fs[1..])));
  }

  ghost predicate SameEnd(fields: seq<FieldDesc>, dest: Message, seen: set<nat>, fs: seq<Bytes>) {
    Loop(fields, dest, seen, Joined(fs)) == Loop(fields, dest, seen, Joined(KnownOf(fields, fs)))
  }

  lemma TakenOf(fields: seq<FieldDesc>, dest: Message, c: Bytes) returns (p: nat, taken: Option<Taken<Content>>)
    requires Fitting(fields, c) && Shaped(fields, dest)
    ensures PlaceOf(fields, TakeTag(c).tag) == Some(p)
    ensures taken == TakeField(fields[p], TakeTag(c).wireType, dest[p], TakeTag(c).rest)
    ensures taken.Some? ==> Shaped(fields, Store(fields, dest, p, taken.value.value))
  {
    var t := TakeTag(c);
    p := PlaceOf(fields, t.tag).value;
    taken := TakeField(fields[p], t.wireType, dest[p], t.rest);
    TakenKeepsShape(fields[p], t.wireType, dest[p], t.rest);
    if taken.Some? { StoreKeepsShape(fields, dest, p, taken.value.value); }
  }

  lemma KnownFirst(fields: seq<FieldDesc>, fs: seq<Bytes>)
    requires fs != [] && !Unknown(fields, fs[0])
    ensures Joined(KnownOf(fields, fs)) == fs[0] + Joined(KnownOf(fields, fs[1..]))
  {
    assert KnownOf(fields, fs)[1..] == KnownOf(fields, fs[1..]);
  }

  /** So a message decodes to what it decodes to without its unknown fields. */
  lemma UnknownFieldsAreIgnored(fields: seq<FieldDesc>, before: Message, fs: seq<Bytes>)
    requires OnWire(fields, fs) && ValidMessage(Terminated, fields, before)
    ensures Decoded(fields, before, Joined(fs)) == Decoded(fields, before, Joined(KnownOf(fields, fs)))
  {
    ValidIsShaped(Terminated, fields, before);
    UnknownAnywhere(fields, before, {}, fs);
  }

  // ----- required fields -----

  /** The tags of known fields that are met and taken up. */
  ghost function TagsMet(fields: seq<FieldDesc>, dest: Message, s: Bytes): set<nat>
    decreases |s|
  {
    match TakeTag(s)
    case Tag(tag, wireType, rest) => (
      match PlaceOf(fields, tag)
      case None => (match Skipped(wireType, rest) case None => {} case Some(after) => TagsMet(fields, dest, after))
      case Some(p) =>
        if |dest| != |fields| then {}
        else
          match TakeField(fields[p], wireType, dest[p], rest)
          case None => {}
          case Some(t) => {tag} + TagsMet(fields, Store(fields, dest, p, t.value), t.rest))
    case _ => {}
  }

  /** The required field `i` is one that is checked for, as number `q`. */
  predicate IsChecked(fields: seq<FieldDesc>, i: nat, q: nat) {
    i < |fields| && fields[i].htype.Required? && RequiredBefore(fields, i) == q < MAX_REQUIRED_FIELDS
  }

  ghost predicate MetAs(fields: seq<FieldDesc>, met: set<nat>, q: nat) {
    exists i :: 0 <= i < |fields| && IsChecked(fields, i, q) && fields[i].tag in met
  }

  ghost predicate DistinctTags(fields: seq<FieldDesc>) {
    forall i, j :: 0 <= i < j < |fields| ==> fields[i].tag != fields[j].tag
  }

  /** The required fields seen are those whose tags were met. */
  lemma {:induction false} SeenIsMet(fields: seq<FieldDesc>, dest: Message, seen: set<nat>, s: Bytes)
    requires DistinctTags(fields) && Loop(fields, dest, seen, s).Some?
    ensures forall q: nat :: q in Loop(fields, dest, seen, s).value.seen <==>
      q in seen || MetAs(fields, TagsMet(fields, dest, s), q)
    decreases |s|
  {
    var t := TakeTag(s);
    if t.Tag? {
      var p := PlaceOf(fields, t.tag);
      if p.None? {
        SeenIsMet(fields, dest, seen, Skipped(t.wireType, t.rest).value);
      } else {
        var taken := TakeField(fields[p.value], t.wireType, dest[p.value], t.rest).value;
        var dest', seen' := Store(fields, dest, p.value, taken.value), Marked(fields, seen, p.value);
        SeenIsMet(fields, dest', seen', taken.rest);
        forall q: nat ensures q in seen' || MetAs(fields, TagsMet(fields, dest', taken.rest), q) <==>
          q in seen || MetAs(fields, TagsMet(fields, dest, s), q)
        {
          OneMoreMet(fields, seen, p.value, TagsMet(fields, dest', taken.rest), q);
        }
      }
    }
  }

  lemma OneMoreMet(fields: seq<FieldDesc>, seen: set<nat>, p: nat, met: set<nat>, q: nat)
    requires DistinctTags(fields) && p < |fields|
    ensures q in Marked(fields, seen, p) || MetAs(fields, met, q) <==>
      q in seen || MetAs(fields, {fields[p].tag} + met, q)
  {
    var more := {fields[p].tag} + met;
    if i :| 0 <= i < |fields| && IsChecked(fields, i, q) && fields[i].tag in met {
      assert fields[i].tag in more;
    }
    if IsChecked(fields, p, q) { assert fields[p].tag in more; }
    if i :| 0 <= i < |fields| && IsChecked(fields, i, q) && fields[i].tag in more {
      assert fields[i].tag in met || i == p;
    }
  }

  /** Decoding succeeds just if the loop comes to the end of the message and each of the first 64 required
      fields was met. */
  lemma RequiredAreMet(fields: seq<FieldDesc>, before: Message, s: Bytes)
    requires DistinctTags(fields)
    ensures Decoded(fields, before, s).Some? <==>
      Loop(fields, before, {}, s).Some? && forall i ::
        0 <= i < |fields| && fields[i].htype.Required? && RequiredBefore(fields, i) < MAX_REQUIRED_FIELDS ==>
          fields[i].tag in TagsMet(fields, before, s)
  {
    var r := Loop(fields, before, {}, s);
    if r.Some? {
      SeenIsMet(fields, before, {}, s);
      AllMet(fields, r.value.seen, TagsMet(fields, before, s));
    }
  }

  lemma AllMet(fields: seq<FieldDesc>, seen: set<nat>, met: set<nat>)
    requires forall q: nat :: q in seen <==> MetAs(fields, met, q)
    ensures seen == Low(Checked(fields)) <==> forall i ::
      0 <= i < |fields| && fields[i].htype.Required? && RequiredBefore(fields, i) < MAX_REQUIRED_FIELDS ==>
        fields[i].tag in met
  {
    forall q: nat | q in seen ensures q in Low(Checked(fields)) {
      var i :| 0 <= i < |fields| && IsChecked(fields, i, q) && fields[i].tag in met;
      RequiredGrows(fields, i, |fields|);
    }
    forall i: nat | i < |fields| && fields[i].htype.Required? && RequiredBefore(fields, i) < MAX_REQUIRED_FIELDS
      ensures RequiredBefore(fields, i) in Low(Checked(fields))
      ensures RequiredBefore(fields, i) in seen <==> fields[i].tag in met
    {
      RequiredGrows(fields, i, |fields|);
      CheckedIsMet(fields, met, i, RequiredBefore(fields, i));
    }
    forall q: nat | q in Low(Checked(fields))
      ensures exists i :: 0 <= i < |fields| && IsChecked(fields, i, q)
    {
      var i := NthRequired(fields, |fields|, q);
      assert IsChecked(fields, i, q);
    }
  }

  lemma CheckedIsMet(fields: seq<FieldDesc>, met: set<nat>, i: nat, q: nat)
    requires IsChecked(fields, i, q)
    ensures MetAs(fields, met, q) <==> fields[i].tag in met
  {
    forall j: nat | IsChecked(fields, j, q) ensures j == i {
      if i < j { RequiredGrows(fields, i, j); }
      if j < i { RequiredGrows(fields, j, i); }
    }
  }

  /** For example: field 2, a varint, where the table has only field 1. */
  lemma UnknownOnly()
    ensures var fields := [FieldDesc(1, UVarint(4), Singular)];
      Decoded(fields, Defaults(fields), [0x10, 0x05]) == Some(Defaults(fields))
  {
    var fields := [FieldDesc(1, UVarint(4), Singular)];
    var u: Bytes := [0x10, 0x05];
    assert TakeTag(u) == Tag(2, 0, [0x05]) && Skipped(0, u[1..]) == Some(u[2..]);
    UnknownIsSkipped(fields, Defaults(fields), {}, u, []);
    assert u + [] == u;
    assert RequiredBefore(fields, 1) == 0;
  }
}
