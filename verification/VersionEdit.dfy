/** Version edits as bytes (db/version_edit.cc). */
module VersionEdits {
  import opened InternalKeys
  import opened ReadSpec
  import opened Coding

  datatype Level = Level(level: nat, number: nat)

  datatype NewFile = NewFile(level: nat, number: nat, size: nat, smallest: Bytes, largest: Bytes)

  /** The serialized parts of an edit; `deleted` is in the order of the set that holds it. */
  datatype VersionEdit = VersionEdit(
    comparator: Option<Bytes>,
    logNumber: Option<nat>,
    prevLogNumber: Option<nat>,
    nextFileNumber: Option<nat>,
    lastSequence: Option<nat>,
    compactPointers: seq<(nat, Bytes)>,
    deleted: seq<Level>,
    newFiles: seq<NewFile>)

  const EMPTY := VersionEdit(None, None, None, None, None, [], [], [])

  datatype Field =
    | Comparator(name: Bytes)
    | LogNumber(n: nat)
    | PrevLogNumber(n: nat)
    | NextFileNumber(n: nat)
    | LastSequence(n: nat)
    | CompactPointer(level: nat, key: Bytes)
    | DeletedFile(deleted: Level)
    | AddedFile(file: NewFile)

  function Tag(f: Field): nat {
    match f
    case Comparator(_) => 1
    case LogNumber(_) => 2
    case NextFileNumber(_) => 3
    case LastSequence(_) => 4
    case CompactPointer(_, _) => 5
    case DeletedFile(_) => 6
    case AddedFile(_) => 7
    case PrevLogNumber(_) => 9
  }

  function Body(f: Field): Bytes {
    match f
    case Comparator(name) => PutLengthPrefixedSlice(name)
    case LogNumber(n) => Varint(n)
    case PrevLogNumber(n) => Varint(n)
    case NextFileNumber(n) => Varint(n)
    case LastSequence(n) => Varint(n)
    case CompactPointer(level, key) => Varint(level) + PutLengthPrefixedSlice(key)
    case DeletedFile(d) => Varint(d.level) + Varint(d.number)
    case AddedFile(x) => FileBody(Varint(x.level), Varint(x.number), Varint(x.size),
        PutLengthPrefixedSlice(x.smallest), PutLengthPrefixedSlice(x.largest))
  }

  function FileBody(level: Bytes, number: Bytes, size: Bytes, smallest: Bytes, largest: Bytes): Bytes {
    level + (number + (size + (smallest + largest)))
  }

  function EncodeField(f: Field): Bytes {
    Varint(Tag(f)) + Body(f)
  }

  function OptionalField<T>(o: Option<T>, f: T -> Field): seq<Field> {
    if o.Some? then [f(o.value)] else []
  }

  /** The fields in the order EncodeTo writes them. */
  function Fields(e: VersionEdit): seq<Field> {
    OptionalField(e.comparator, n => Comparator(n)) + OptionalField(e.logNumber, n => LogNumber(n))
        + OptionalField(e.prevLogNumber, n => PrevLogNumber(n)) +
    OptionalField(e.nextFileNumber, n => NextFileNumber(n)) + OptionalField(e.lastSequence, n => LastSequence(n)) +
    seq(|e.compactPointers|, i requires 0 <= i < |e.compactPointers| =>
          CompactPointer(e.compactPointers[i].0, e.compactPointers[i].1)) +
    seq(|e.deleted|, i requires 0 <= i < |e.deleted| => DeletedFile(e.deleted[i])) +
    seq(|e.newFiles|, i requires 0 <= i < |e.newFiles| => AddedFile(e.newFiles[i]))
  }

  function Encode(e: VersionEdit): Bytes {
    Joined(EncodeField, Fields(e))
  }

  /** Every number fits its encoding and every level exists. */
  predicate FieldOk(f: Field) {
    match f
    case Comparator(name) => |name| < TWO_32
    case LogNumber(n) => n < TWO_64
    case PrevLogNumber(n) => n < TWO_64
    case NextFileNumber(n) => n < TWO_64
    case LastSequence(n) => n < TWO_64
    case CompactPointer(level, key) => level < NUM_LEVELS && |key| < TWO_32
    case DeletedFile(d) => d.level < NUM_LEVELS && d.number < TWO_64
    case AddedFile(x) =>
      x.level < NUM_LEVELS && x.number < TWO_64 && x.size < TWO_64 && |x.smallest| < TWO_32 && |x.largest| < TWO_32
  }

  datatype Got<T> = Got(value: T, rest: Bytes)

  function GetNumber(s: Bytes): (r: Option<Got<nat>>)
    ensures r.Some? ==> |r.value.rest| <= |s|
  {
    match GetVarint64(s) case None => None case Some(p) => Some(Got(p.value, s[p.length..]))
  }

  function GetLevel(s: Bytes): (r: Option<Got<nat>>)
    ensures r.Some? ==> |r.value.rest| <= |s|
  {
    match GetVarint32(s)
    case None => None
    case Some(p) => if p.value < NUM_LEVELS then Some(Got(p.value, s[p.length..])) else None
  }

  function GetSlice(s: Bytes): (r: Option<Got<Bytes>>)
    ensures r.Some? ==> |r.value.rest| <= |s|
  {
    match GetLengthPrefixedSlice(s) case None => None case Some(p) => Some(Got(p.slice, p.rest))
  }

  lemma NumberRoundTrip(n: nat, s: Bytes, rest: Bytes)
    requires n < TWO_64 && s == Varint(n) + rest
    ensures GetNumber(s) == Some(Got(n, rest))
  {
    Varint64RoundTrip(n, rest);
  }

  lemma LevelRoundTrip(n: nat, s: Bytes, rest: Bytes)
    requires n < NUM_LEVELS && s == Varint(n) + rest
    ensures GetLevel(s) == Some(Got(n, rest))
  {
    Varint32RoundTrip(n, rest);
  }

  lemma GetSliceRoundTrip(x: Bytes, s: Bytes, rest: Bytes)
    requires |x| < TWO_32 && s == PutLengthPrefixedSlice(x) + rest
    ensures GetSlice(s) == Some(Got(x, rest))
  {
    SliceRoundTrip(x, rest);
  }

  function GetFileKeys(s: Bytes, level: nat, number: nat, size: nat): (r: Option<Got<Field>>)
    ensures r.Some? ==> |r.value.rest| <= |s|
  {
    match GetSlice(s)
    case None => None
    case Some(d) => (match GetSlice(d.rest)
      case None => None
      case Some(e) => Some(Got(AddedFile(NewFile(level, number, size, d.value, e.value)), e.rest)))
  }

  function GetNewFile(s: Bytes): (r: Option<Got<Field>>)
    ensures r.Some? ==> |r.value.rest| <= |s|
  {
    match GetLevel(s)
    case None => None
    case Some(a) => (match GetNumber(a.rest)
      case None => None
      case Some(b) => (match GetNumber(b.rest)
        case None => None
        case Some(c) => GetFileKeys(c.rest, a.value, b.value, c.value)))
  }

  /** What follows a tag; None for an unknown tag or a damaged field. */
  function GetBody(tag: nat, s: Bytes): (r: Option<Got<Field>>)
    ensures r.Some? ==> |r.value.rest| <= |s|
  {
    if tag == 7 then GetNewFile(s) else match tag
    case 1 => (match GetSlice(s) case None => None case Some(a) => Some(Got(Comparator(a.value), a.rest)))
    case 2 => (match GetNumber(s) case None => None case Some(a) => Some(Got(LogNumber(a.value), a.rest)))
    case 9 => (match GetNumber(s) case None => None case Some(a) => Some(Got(PrevLogNumber(a.value), a.rest)))
    case 3 => (match GetNumber(s) case None => None case Some(a) => Some(Got(NextFileNumber(a.value), a.rest)))
    case 4 => (match GetNumber(s) case None => None case Some(a) => Some(Got(LastSequence(a.value), a.rest)))
    case 5 => (match GetLevel(s)
      case None => None
      case Some(a) => (match GetSlice(a.rest)
        case None => None
        case Some(b) => Some(Got(CompactPointer(a.value, b.value), b.rest))))
    case 6 => (match GetLevel(s)
      case None => None
      case Some(a) => (match GetNumber(a.rest)
        case None => None
        case Some(b) => Some(Got(DeletedFile(Level(a.value, b.value)), b.rest))))
    case _ => None
  }

  lemma FileKeysRoundTrip(x: NewFile, s: Bytes, tail: Bytes, rest: Bytes)
    requires |x.smallest| < TWO_32 && |x.largest| < TWO_32
    requires s == PutLengthPrefixedSlice(x.smallest) + tail && tail == PutLengthPrefixedSlice(x.largest) + rest
    ensures GetFileKeys(s, x.level, x.number, x.size) == Some(Got(AddedFile(x), rest))
  {
    GetSliceRoundTrip(x.smallest, s, tail);
    GetSliceRoundTrip(x.largest, tail, rest);
  }

  lemma NewFileSteps(s: Bytes, s1: Bytes, s2: Bytes, s3: Bytes, level: nat, number: nat, size: nat)
    requires GetLevel(s) == Some(Got(level, s1)) && GetNumber(s1) == Some(Got(number, s2))
      && GetNumber(s2) == Some(Got(size, s3))
    ensures GetNewFile(s) == GetFileKeys(s3, level, number, size)
  {
  }

  lemma NewFileRoundTrip(x: NewFile, s: Bytes, s1: Bytes, s2: Bytes, s3: Bytes, s4: Bytes, rest: Bytes)
    requires FieldOk(AddedFile(x)) && s == Varint(x.level) + s1 && s1 == Varint(x.number) + s2
      && s2 == Varint(x.size) + s3
    requires s3 == PutLengthPrefixedSlice(x.smallest) + s4 && s4 == PutLengthPrefixedSlice(x.largest) + rest
    ensures GetNewFile(s) == Some(Got(AddedFile(x), rest))
  {
    LevelRoundTrip(x.level, s, s1);
    NumberRoundTrip(x.number, s1, s2);
    NumberRoundTrip(x.size, s2, s3);
    NewFileSteps(s, s1, s2, s3, x.level, x.number, x.size);
    FileKeysRoundTrip(x, s3, s4, rest);
  }

  lemma Regroup4(a: Bytes, b: Bytes, c: Bytes, d: Bytes, e: Bytes, rest: Bytes)
    ensures (a + (b + (c + (d + e)))) + rest == a + (b + (c + (d + (e + rest))))
  {
  }

  lemma PointerRoundTrip(level: nat, key: Bytes, s: Bytes, tail: Bytes, rest: Bytes)
    requires FieldOk(CompactPointer(level, key)) && s == Varint(level) + tail
      && tail == PutLengthPrefixedSlice(key) + rest
    ensures GetBody(5, s) == Some(Got(CompactPointer(level, key), rest))
  {
    LevelRoundTrip(level, s, tail);
    GetSliceRoundTrip(key, tail, rest);
  }

  lemma DeletedRoundTrip(d: Level, s: Bytes, tail: Bytes, rest: Bytes)
    requires FieldOk(DeletedFile(d)) && s == Varint(d.level) + tail && tail == Varint(d.number) + rest
    ensures GetBody(6, s) == Some(Got(DeletedFile(d), rest))
  {
    LevelRoundTrip(d.level, s, tail);
    NumberRoundTrip(d.number, tail, rest);
  }

  lemma NumberFieldRoundTrip(f: Field, s: Bytes, rest: Bytes)
    requires FieldOk(f) && s == Body(f) + rest
      && (f.LogNumber? || f.PrevLogNumber? || f.NextFileNumber? || f.LastSequence?)
    ensures GetBody(Tag(f), s) == Some(Got(f, rest))
  {
    NumberRoundTrip(f.n, s, rest);
  }

  lemma NameRoundTrip(name: Bytes, s: Bytes, rest: Bytes)
    requires |name| < TWO_32 && s == PutLengthPrefixedSlice(name) + rest
    ensures GetBody(1, s) == Some(Got(Comparator(name), rest))
  {
    GetSliceRoundTrip(name, s, rest);
  }

  lemma NewFileIsTag7(s: Bytes)
    ensures GetBody(7, s) == GetNewFile(s)
  {
  }

  lemma AddedRoundTrip(x: NewFile, s: Bytes, rest: Bytes, a: Bytes, b: Bytes, c: Bytes, d: Bytes, e: Bytes)
    requires FieldOk(AddedFile(x)) && s == FileBody(a, b, c, d, e) + rest
    requires a == Varint(x.level) && b == Varint(x.number) && c == Varint(x.size)
      && d == PutLengthPrefixedSlice(x.smallest) && e == PutLengthPrefixedSlice(x.largest)
    ensures GetBody(7, s) == Some(Got(AddedFile(x), rest))
  {
    NewFileIsTag7(s);
    Regroup4(a, b, c, d, e, rest);
    NewFileRoundTrip(x, s, b + (c + (d + (e + rest))), c + (d + (e + rest)), d + (e + rest), e + rest, rest);
  }

  lemma Regroup2(a: Bytes, b: Bytes, rest: Bytes)
    ensures (a + b) + rest == a + (b + rest)
  {
  }

  lemma PointerBody(level: nat, key: Bytes, s: Bytes, rest: Bytes)
    requires FieldOk(CompactPointer(level, key)) && s == Body(CompactPointer(level, key)) + rest
    ensures GetBody(5, s) == Some(Got(CompactPointer(level, key), rest))
  {
    Regroup2(Varint(level), PutLengthPrefixedSlice(key), rest);
    PointerRoundTrip(level, key, s, PutLengthPrefixedSlice(key) + rest, rest);
  }

  lemma DeletedBody(d: Level, s: Bytes, rest: Bytes)
    requires FieldOk(DeletedFile(d)) && s == Body(DeletedFile(d)) + rest
    ensures GetBody(6, s) == Some(Got(DeletedFile(d), rest))
  {
    Regroup2(Varint(d.level), Varint(d.number), rest);
    DeletedRoundTrip(d, s, Varint(d.number) + rest, rest);
  }

  lemma AddedBody(x: NewFile, s: Bytes, rest: Bytes)
    requires FieldOk(AddedFile(x)) && s == Body(AddedFile(x)) + rest
    ensures GetBody(7, s) == Some(Got(AddedFile(x), rest))
  {
    AddedRoundTrip(x, s, rest, Varint(x.level), Varint(x.number), Varint(x.size), PutLengthPrefixedSlice(x.smallest),
        PutLengthPrefixedSlice(x.largest));
  }

  lemma BodyRoundTrip(f: Field, s: Bytes, rest: Bytes)
    requires FieldOk(f) && s == Body(f) + rest
    ensures GetBody(Tag(f), s) == Some(Got(f, rest))
  {
    match f {
      case Comparator(name) => NameRoundTrip(name, s, rest);
      case CompactPointer(level, key) => PointerBody(level, key, s, rest);
      case DeletedFile(d) => DeletedBody(d, s, rest);
      case AddedFile(x) => AddedBody(x, s, rest);
      case _ => NumberFieldRoundTrip(f, s, rest);
    }
  }

  predicate Before(a: Level, b: Level) {
    a.level < b.level || (a.level == b.level && a.number < b.number)
  }

  /** std::set::insert */
  function InsertDeleted(s: seq<Level>, x: Level): seq<Level> {
    if s == [] || Before(x, s[0]) then [x] + s else if x == s[0] then s else [s[0]] + InsertDeleted(s[1..], x)
  }

  ghost predicate Ordered(s: seq<Level>) {
    forall i, j :: 0 <= i < j < |s| ==> Before(s[i], s[j])
  }

  lemma {:induction false} InsertLast(s: seq<Level>, x: Level)
    requires forall i :: 0 <= i < |s| ==> Before(s[i], x)
    ensures InsertDeleted(s, x) == s + [x]
  {
    if s != [] {
      assert Before(s[0], x);
      InsertLast(s[1..], x);
    }
  }

  function WithField(e: VersionEdit, f: Field): VersionEdit {
    match f
    case Comparator(name) => e.(comparator := Some(name))
    case LogNumber(n) => e.(logNumber := Some(n))
    case PrevLogNumber(n) => e.(prevLogNumber := Some(n))
    case NextFileNumber(n) => e.(nextFileNumber := Some(n))
    case LastSequence(n) => e.(lastSequence := Some(n))
    case CompactPointer(level, key) => e.(compactPointers := e.compactPointers + [(level, key)])
    case DeletedFile(d) => e.(deleted := InsertDeleted(e.deleted, d))
    case AddedFile(x) => e.(newFiles := e.newFiles + [x])
  }

  function WithFields(e: VersionEdit, fs: seq<Field>): VersionEdit {
    if fs == [] then e else WithField(WithFields(e, fs[..|fs| - 1]), fs[|fs| - 1])
  }

  lemma {:induction false} WithAppended(e: VersionEdit, a: seq<Field>, b: seq<Field>)
    ensures WithFields(e, a + b) == WithFields(WithFields(e, a), b)
  {
    if b == [] {
      assert a + b == a;
    } else {
      WithAppended(e, a, b[..|b| - 1]);
      assert (a + b)[..|a + b| - 1] == a + b[..|b| - 1];
    }
  }

  ghost function PointerFields(e: VersionEdit, n: nat): seq<Field>
    requires n <= |e.compactPointers|
  {
    seq(n, i requires 0 <= i < n => CompactPointer(e.compactPointers[i].0, e.compactPointers[i].1))
  }

  ghost function DeletedFields(e: VersionEdit, n: nat): seq<Field>
    requires n <= |e.deleted|
  {
    seq(n, i requires 0 <= i < n => DeletedFile(e.deleted[i]))
  }

  ghost function AddedFields(e: VersionEdit, n: nat): seq<Field>
    requires n <= |e.newFiles|
  {
    seq(n, i requires 0 <= i < n => AddedFile(e.newFiles[i]))
  }

  lemma {:induction false} PointersBack(e: VersionEdit, x: VersionEdit, n: nat)
    requires n <= |e.compactPointers| && x.compactPointers == []
    ensures WithFields(x, PointerFields(e, n)) == x.(compactPointers := e.compactPointers[..n])
  {
    if n > 0 {
      PointersBack(e, x, n - 1);
      assert PointerFields(e, n)[..n - 1] == PointerFields(e, n - 1);
    }
  }

  lemma {:induction false} DeletedBack(e: VersionEdit, x: VersionEdit, n: nat)
    requires n <= |e.deleted| && x.deleted == [] && Ordered(e.deleted)
    ensures WithFields(x, DeletedFields(e, n)) == x.(deleted := e.deleted[..n])
  {
    if n > 0 {
      DeletedBack(e, x, n - 1);
      assert DeletedFields(e, n)[..n - 1] == DeletedFields(e, n - 1);
      InsertLast(e.deleted[..n - 1], e.deleted[n - 1]);
    }
  }

  lemma {:induction false} AddedBack(e: VersionEdit, x: VersionEdit, n: nat)
    requires n <= |e.newFiles| && x.newFiles == []
    ensures WithFields(x, AddedFields(e, n)) == x.(newFiles := e.newFiles[..n])
  {
    if n > 0 {
      AddedBack(e, x, n - 1);
      assert AddedFields(e, n)[..n - 1] == AddedFields(e, n - 1);
    }
  }

  ghost function Heads(e: VersionEdit): seq<Field> {
    OptionalField(e.comparator, n => Comparator(n)) + OptionalField(e.logNumber, n => LogNumber(n))
        + OptionalField(e.prevLogNumber, n => PrevLogNumber(n)) +
    OptionalField(e.nextFileNumber, n => NextFileNumber(n)) + OptionalField(e.lastSequence, n => LastSequence(n))
  }

  lemma OneBack(x: VersionEdit, f: Field)
    ensures WithFields(x, [f]) == WithField(x, f) && WithFields(x, []) == x
  {
    assert [f][..0] == [] && WithFields(x, []) == x;
  }

  lemma HeadsBack(e: VersionEdit)
    ensures WithFields(EMPTY, Heads(e)) == e.(compactPointers := [], deleted := [], newFiles := [])
  {
    var a, b, c := OptionalField(e.comparator, n => Comparator(n)), OptionalField(e.logNumber, n => LogNumber(n)),
        OptionalField(e.prevLogNumber, n => PrevLogNumber(n));
    var d, f := OptionalField(e.nextFileNumber, n => NextFileNumber(n)),
        OptionalField(e.lastSequence, n => LastSequence(n));
    WithAppended(EMPTY, a + b + c + d, f);
    WithAppended(EMPTY, a + b + c, d);
    WithAppended(EMPTY, a + b, c);
    WithAppended(EMPTY, a, b);
    var e1 := EMPTY.(comparator := e.comparator);
    if e.comparator.Some? { OneBack(EMPTY, Comparator(e.comparator.value)); }
    var e2 := e1.(logNumber := e.logNumber);
    if e.logNumber.Some? { OneBack(e1, LogNumber(e.logNumber.value)); }
    var e3 := e2.(prevLogNumber := e.prevLogNumber);
    if e.prevLogNumber.Some? { OneBack(e2, PrevLogNumber(e.prevLogNumber.value)); }
    var e4 := e3.(nextFileNumber := e.nextFileNumber);
    if e.nextFileNumber.Some? { OneBack(e3, NextFileNumber(e.nextFileNumber.value)); }
    if e.lastSequence.Some? { OneBack(e4, LastSequence(e.lastSequence.value)); }
  }

  /** Setting the written fields one by one in an empty edit gives the edit back. */
  lemma FieldsBack(e: VersionEdit)
    requires Ordered(e.deleted)
    ensures WithFields(EMPTY, Fields(e)) == e
  {
    var p, d, a := PointerFields(e, |e.compactPointers|), DeletedFields(e, |e.deleted|), AddedFields(e, |e.newFiles|);
    assert Fields(e) == Heads(e) + p + d + a;
    WithAppended(EMPTY, Heads(e) + p + d, a);
    WithAppended(EMPTY, Heads(e) + p, d);
    WithAppended(EMPTY, Heads(e), p);
    HeadsBack(e);
    PointersBack(e, e.(compactPointers := [], deleted := [], newFiles := []), |e.compactPointers|);
    DeletedBack(e, e.(deleted := [], newFiles := []), |e.deleted|);
    AddedBack(e, e.(newFiles := []), |e.newFiles|);
    assert e.compactPointers[..|e.compactPointers|] == e.compactPointers;
    assert e.deleted[..|e.deleted|] == e.deleted && e.newFiles[..|e.newFiles|] == e.newFiles;
  }

  lemma FieldRoundTrip(f: Field, input: Bytes, rest: Bytes)
    requires FieldOk(f) && input == EncodeField(f) + rest
    ensures GetVarint32(input) == Some(Parsed(Tag(f), |Varint(Tag(f))|))
    ensures GetBody(Tag(f), input[|Varint(Tag(f))|..]) == Some(Got(f, rest))
  {
    assert input == Varint(Tag(f)) + (Body(f) + rest);
    Varint32RoundTrip(Tag(f), Body(f) + rest);
    assert input[|Varint(Tag(f))|..] == Body(f) + rest;
    BodyRoundTrip(f, Body(f) + rest, rest);
  }

  /** The next tag and what follows it. */
  function GetField(input: Bytes): (r: Option<Got<Field>>)
    ensures r.Some? ==> |r.value.rest| < |input|
  {
    match GetVarint32(input)
    case None => None
    case Some(tag) => GetBody(tag.value, input[tag.length..])
  }

  lemma NextField(fs: seq<Field>, k: nat, input: Bytes, rest: Bytes)
    requires k < |fs| && FieldOk(fs[k]) && input == Joined(EncodeField, fs[k..])
      && rest == Joined(EncodeField, fs[k + 1..])
    ensures GetField(input) == Some(Got(fs[k], rest))
  {
    assert fs[k..][1..] == fs[k + 1..];
    FieldRoundTrip(fs[k], input, rest);
  }

  /** Nothing that EncodeTo wrote is out of range, and the deleted files are in their set's order. */
  ghost predicate Encodable(e: VersionEdit) {
    Ordered(e.deleted) && forall i :: 0 <= i < |Fields(e)| ==> FieldOk(Fields(e)[i])
  }

  /** The rest of the input and the edit so far, after `k` fields. */
  ghost predicate Decoding(fs: seq<Field>, k: nat, input: Bytes, edit: VersionEdit) {
    k <= |fs| && input == Joined(EncodeField, fs[k..]) && edit == WithFields(EMPTY, fs[..k])
  }

  method ReadField(input: Bytes, edit: VersionEdit, ghost fs: seq<Field>, ghost k: nat)
    returns (more: bool, rest: Bytes, edit': VersionEdit)
    ensures more ==> |rest| < |input|
    ensures !more ==> rest == input && edit' == edit
    ensures Decoding(fs, k, input, edit) && (forall i :: 0 <= i < |fs| ==> FieldOk(fs[i])) ==>
      if k < |fs| then more && Decoding(fs, k + 1, rest, edit') else !more && input == []
  {
    ghost var expects := Decoding(fs, k, input, edit) && (forall i :: 0 <= i < |fs| ==> FieldOk(fs[i]));
    if expects && k < |fs| {
      NextField(fs, k, input, Joined(EncodeField, fs[k + 1..]));
      Advance(fs, k);
    }
    var got := GetField(input);
    if got.None? { return false, input, edit; }
    return true, got.value.rest, WithField(edit, got.value.value);
  }

  /** Decodes into a fresh edit, until no further tag can be read; what was encoded comes back. */
  method DecodeFrom(src: Bytes, ghost e: VersionEdit) returns (ok: bool, edit: VersionEdit)
    ensures src == Encode(e) && Encodable(e) ==> ok && edit == e
  {
    edit := EMPTY;
    var input, more := src, true;
    ghost var fs, k: nat := Fields(e), 0;
    assert fs[0..] == fs && fs[..0] == [];
    while more
      invariant src == Encode(e) && Encodable(e) ==>
        Decoding(fs, k, input, edit) && (!more ==> input == [] && k == |fs|)
      decreases more, |input|
    {
      more, input, edit := ReadField(input, edit, fs, k);
      if more { k := k + 1; }
    }
    ok := input == [];
    if Encodable(e) {
      assert fs[..|fs|] == fs;
      FieldsBack(e);
    }
  }

  lemma Advance(fs: seq<Field>, k: nat)
    requires k < |fs|
    ensures WithFields(EMPTY, fs[..k + 1]) == WithField(WithFields(EMPTY, fs[..k]), fs[k])
  {
    assert fs[..k + 1][..k] == fs[..k];
  }
}
