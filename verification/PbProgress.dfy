/** How far a decoder has come through the encoding of a message. */
module PbProgress {
  import opened InternalKeys
  import opened ReadSpec
  import opened Coding
  import opened PbMessages

  predicate Unpacked(f: FieldDesc) {
    f.htype.Repeated? && !Packable(f.ltype)
  }

  function SentWire(f: FieldDesc): (w: nat)
    ensures w < 8
  {
    if f.htype.Repeated? && Packable(f.ltype) then 2 else WireType(f.ltype)
  }

  /** `j` items of the field are decoded; only unpacked arrays are decoded item by item. */
  predicate At(f: FieldDesc, c: Content, j: nat) {
    if Unpacked(f) then c.Many? && j <= |c.items| else j == 0
  }

  /** What the structure holds for the field by then. */
  function Partial(f: FieldDesc, c: Content, j: nat): Content
    requires At(f, c, j)
  {
    if Unpacked(f) then Many(c.items[..j]) else DefaultContent(f)
  }

  /** What is still to come for the field. */
  function FieldTail(f: FieldDesc, c: Content, j: nat): Bytes
    requires At(f, c, j)
  {
    if Unpacked(f) then TaggedItems(f, c.items[j..]) else FieldBytes(f, c)
  }

  predicate Pending(f: FieldDesc, c: Content, j: nat)
    requires At(f, c, j)
  {
    match c
    case One(v) => !(f.htype.Singular? && IsDefault(f.ltype, v))
    case Maybe(o) => o.Some?
    case Many(items) => if Unpacked(f) then j < |items| else items != []
  }

  /** What follows the next tag. */
  function Payload(f: FieldDesc, c: Content, j: nat): Bytes
    requires At(f, c, j) && Pending(f, c, j)
  {
    match c
    case One(v) => ScalarBytes(f.ltype, v)
    case Maybe(o) => ScalarBytes(f.ltype, o.value)
    case Many(items) => if Unpacked(f) then ScalarBytes(f.ltype, items[j]) else Counted(Scalars(f.ltype, items))
  }

  function Next(f: FieldDesc, c: Content, j: nat): Content
    requires At(f, c, j) && Pending(f, c, j)
  {
    if Unpacked(f) then Many(c.items[..j + 1]) else c
  }

  lemma PendingParts(f: FieldDesc, c: Content, j: nat)
    requires ValidContent(Bounded, f, c) && At(f, c, j) && Pending(f, c, j)
    ensures FieldTail(f, c, j) == TagBytes(f.tag, SentWire(f)) + Payload(f, c, j)
        + (if Unpacked(f) then FieldTail(f, c, j + 1) else [])
  {
    if Unpacked(f) {
      TaggedItemsFirst(f, c.items, j);
    } else if f.htype.Repeated? {
      assert FieldBytes(f, c) == TagBytes(f.tag, 2) + Counted(Scalars(f.ltype, c.items));
    } else {
      assert FieldBytes(f, c) == Tagged(f, if c.One? then c.value else c.option.value);
    }
  }

  lemma NothingPending(f: FieldDesc, c: Content, j: nat)
    requires ValidContent(Bounded, f, c) && At(f, c, j) && !Pending(f, c, j)
    ensures FieldTail(f, c, j) == [] && Partial(f, c, j) == c && !f.htype.Required?
  {
    if Unpacked(f) {
      assert c.items[j..] == [] && c.items[..j] == c.items;
    } else {
      assert ContentIsDefault(f, c);
      assert c.Many? ==> ArrayBytes(f, c.items) == [];
      ContentDefaultIsCanonical(Bounded, f, c);
    }
  }

  lemma NothingDecoded(f: FieldDesc, c: Content)
    requires ValidContent(Bounded, f, c)
    ensures At(f, c, 0) && FieldTail(f, c, 0) == FieldBytes(f, c) && Partial(f, c, 0) == DefaultContent(f)
  {
    if Unpacked(f) { assert c.items[0..] == c.items && c.items[..0] == []; }
  }

  /** The fields before `k` are decoded, and `j` items of field `k`; `rest` encodes all others. */
  ghost predicate Progress(fields: seq<FieldDesc>, m: Message, dest: Message, rest: Bytes, k: nat, j: nat) {
    && k <= |fields| == |m| == |dest|
    && (forall i :: 0 <= i < k ==> dest[i] == m[i])
    && (forall i :: k < i < |fields| ==> dest[i] == DefaultContent(fields[i]))
    && if k == |fields| then j == 0 && rest == []
       else
         At(fields[k], m[k], j) && dest[k] == Partial(fields[k], m[k], j)
         && rest == FieldTail(fields[k], m[k], j) + After(fields, m, k)
  }

  function After(fields: seq<FieldDesc>, m: Message, k: nat): Bytes
    requires k < |fields| == |m|
  {
    MessageBytes(fields[k + 1..], m[k + 1..])
  }

  lemma Begun(fields: seq<FieldDesc>, m: Message)
    requires ValidMessage(Bounded, fields, m)
    ensures Progress(fields, m, Defaults(fields), MessageBytes(fields, m), 0, 0)
  {
    forall i | 0 <= i < |fields| ensures Defaults(fields)[i] == DefaultContent(fields[i]) { DefaultsAt(fields, i); }
    if fields != [] { AtBoundary(fields, m, Defaults(fields), MessageBytes(fields, m), 0); }
  }

  lemma AtBoundary(fields: seq<FieldDesc>, m: Message, dest: Message, rest: Bytes, k: nat)
    requires ValidMessage(Bounded, fields, m) && |dest| == |m| && k <= |fields|
    requires forall i :: 0 <= i < k ==> dest[i] == m[i]
    requires forall i :: k <= i < |fields| ==> dest[i] == DefaultContent(fields[i])
    requires rest == MessageBytes(fields[k..], m[k..])
    ensures Progress(fields, m, dest, rest, k, 0)
  {
    if k < |fields| {
      NothingDecoded(fields[k], m[k]);
      FieldsFirst(fields, m, k);
    } else {
      assert fields[k..] == [];
    }
  }

  /** On to the next field with something to decode. */
  lemma SkipEmpty(fields: seq<FieldDesc>, m: Message, dest: Message, rest: Bytes, k: nat, j: nat)
    returns (k': nat, j': nat)
    requires ValidMessage(Bounded, fields, m) && Progress(fields, m, dest, rest, k, j)
    ensures k <= k' && Progress(fields, m, dest, rest, k', j')
    ensures k' < |fields| ==> Pending(fields[k'], m[k'], j')
    ensures forall i :: k <= i < k' ==> !fields[i].htype.Required?
    decreases |fields| - k
  {
    if k == |fields| || Pending(fields[k], m[k], j) {
      return k, j;
    }
    NothingPending(fields[k], m[k], j);
    AtBoundary(fields, m, dest, rest, k + 1);
    k', j' := SkipEmpty(fields, m, dest, rest, k + 1, 0);
  }

  /** What is left after the next tag and payload. */
  function RestAfter(fields: seq<FieldDesc>, m: Message, k: nat, j: nat): Bytes
    requires k < |fields| == |m| && At(fields[k], m[k], j) && Pending(fields[k], m[k], j)
  {
    (if Unpacked(fields[k]) then FieldTail(fields[k], m[k], j + 1) else []) + After(fields, m, k)
  }

  lemma NextParts(fields: seq<FieldDesc>, m: Message, dest: Message, rest: Bytes, k: nat, j: nat)
    requires ValidMessage(Bounded, fields, m) && Progress(fields, m, dest, rest, k, j)
    requires k < |fields| && Pending(fields[k], m[k], j)
    ensures rest == TagBytes(fields[k].tag, SentWire(fields[k]))
        + (Payload(fields[k], m[k], j) + RestAfter(fields, m, k, j))
  {
    PendingParts(fields[k], m[k], j);
    Regroup(TagBytes(fields[k].tag, SentWire(fields[k])), Payload(fields[k], m[k], j),
      if Unpacked(fields[k]) then FieldTail(fields[k], m[k], j + 1) else [], After(fields, m, k));
  }

  lemma Regroup(a: Bytes, b: Bytes, c: Bytes, d: Bytes)
    ensures (a + b + c) + d == a + (b + (c + d))
  {
  }

  lemma Stepped(fields: seq<FieldDesc>, m: Message, dest: Message, rest: Bytes, k: nat, j: nat)
    requires ValidMessage(Bounded, fields, m) && Progress(fields, m, dest, rest, k, j)
    requires k < |fields| && Pending(fields[k], m[k], j)
    ensures var d := dest[k := Next(fields[k], m[k], j)];
      if Unpacked(fields[k]) then Progress(fields, m, d, RestAfter(fields, m, k, j), k, j + 1)
      else Progress(fields, m, d, RestAfter(fields, m, k, j), k + 1, 0)
  {
    if !Unpacked(fields[k]) {
      AtBoundary(fields, m, dest[k := m[k]], RestAfter(fields, m, k, j), k + 1);
    }
  }

  /** A field is put in place; a member of a union replaces every other member. */
  function Store(fields: seq<FieldDesc>, dest: Message, p: nat, c: Content): (r: Message)
    requires p < |fields| == |dest|
    ensures |r| == |dest|
  {
    if fields[p].htype.Oneof? then
      seq(|dest|, i requires 0 <= i < |dest| =>
        if i == p then c else if fields[i].htype == fields[p].htype then Maybe(None) else dest[i])
    else dest[p := c]
  }

  lemma StoreValid(fields: seq<FieldDesc>, dest: Message, p: nat, c: Content)
    requires ValidMessage(Terminated, fields, dest) && p < |fields| && ValidContent(Terminated, fields[p], c)
    ensures ValidMessage(Terminated, fields, Store(fields, dest, p, c))
  {
  }

  /** Decoding an encoding never has a union member to replace. */
  lemma StoreReplacesNothing(fields: seq<FieldDesc>, m: Message, dest: Message, rest: Bytes, k: nat, j: nat, c: Content)
    requires ValidMessage(Bounded, fields, m) && Progress(fields, m, dest, rest, k, j)
    requires k < |fields| && Pending(fields[k], m[k], j)
    ensures Store(fields, dest, k, c) == dest[k := c]
  {
    if fields[k].htype.Oneof? {
      forall i | 0 <= i < |fields| && i != k && fields[i].htype == fields[k].htype ensures dest[i] == Maybe(None) {
        assert ValidContent(Bounded, fields[k], m[k]);
        assert m[i] == Maybe(None);
      }
    }
  }
}
