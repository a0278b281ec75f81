/** The layout of a table block (table/block_builder.cc): prefix-compressed entries,
    then the offsets of the restart points, then their number. */
module BlockFormat {
  import opened InternalKeys
  import opened ReadSpec
  import opened Coding

  datatype KeyValue = KeyValue(key: Bytes, value: Bytes)

  /** Entry i shares `shared[i]` leading bytes with the entry before; entry `starts[j]` is restart point j. */
  datatype Layout = Layout(entries: seq<KeyValue>, shared: seq<nat>, starts: seq<nat>)

  function EncodeEntry(e: KeyValue, shared: nat): (r: Bytes)
    requires shared <= |e.key|
    ensures |r| >= 3
  {
    Varint(shared) + Varint(|e.key| - shared) + Varint(|e.value|) + e.key[shared..] + e.value
  }

  ghost predicate Shares(entries: seq<KeyValue>, shared: seq<nat>) {
    && |shared| == |entries|
    && (forall i :: 0 <= i < |entries| ==> shared[i] <= |entries[i].key|)
    && (forall i :: 0 < i < |entries| ==>
        shared[i] <= |entries[i - 1].key| && entries[i].key[..shared[i]] == entries[i - 1].key[..shared[i]])
    && (|entries| > 0 ==> shared[0] == 0)
  }

  /** Restart points begin at entry 0 and share nothing; an empty block still has one. */
  ghost predicate Restarts(starts: seq<nat>, shared: seq<nat>) {
    && |starts| >= 1 && starts[0] == 0
    && (forall j, k :: 0 <= j < k < |starts| ==> starts[j] < starts[k])
    && (forall j :: 0 <= j < |starts| ==>
        if shared == [] then starts[j] == 0 else starts[j] < |shared| && shared[starts[j]] == 0)
  }

  ghost predicate WellFormed(l: Layout) {
    Shares(l.entries, l.shared) && Restarts(l.starts, l.shared)
  }

  /** The bytes of the first `n` entries. */
  ghost function Data(entries: seq<KeyValue>, shared: seq<nat>, n: nat): (r: Bytes)
    requires Shares(entries, shared) && n <= |entries|
  {
    if n == 0 then [] else Data(entries, shared, n - 1) + EncodeEntry(entries[n - 1], shared[n - 1])
  }

  /** Where entry `n` begins. */
  ghost function Offset(l: Layout, n: nat): nat
    requires Shares(l.entries, l.shared) && n <= |l.entries|
  {
    |Data(l.entries, l.shared, n)|
  }

  /** Offsets are 32-bit: the whole block is shorter than 4 GB. */
  ghost predicate Fits(l: Layout)
    requires WellFormed(l)
  {
    Offset(l, |l.entries|) + 4 * |l.starts| + 4 < TWO_32
  }

  ghost predicate AreOffsets(l: Layout, rs: seq<Uint32>)
    requires WellFormed(l)
  {
    |rs| == |l.starts| && forall j :: 0 <= j < |rs| ==> rs[j] == Offset(l, l.starts[j])
  }

  function FixedArray(rs: seq<Uint32>, n: nat): (r: Bytes)
    requires n <= |rs|
    ensures |r| == 4 * n
  {
    if n == 0 then [] else FixedArray(rs, n - 1) + EncodeFixed32(rs[n - 1])
  }

  /** `data` is the finished block of this layout. */
  ghost predicate IsBlock(l: Layout, rs: seq<Uint32>, data: Bytes) {
    && WellFormed(l) && Fits(l) && AreOffsets(l, rs)
    && data == Data(l.entries, l.shared, |l.entries|) + FixedArray(rs, |rs|) + EncodeFixed32(|rs|)
  }

  /** Entries start at increasing offsets and each lies where its offset says. */
  lemma {:induction false} EntryInData(entries: seq<KeyValue>, shared: seq<nat>, i: nat, n: nat)
    requires Shares(entries, shared) && i < n <= |entries|
    ensures var d := Data(entries, shared, n);
      && |Data(entries, shared, i)| + 3 <= |Data(entries, shared, i + 1)| <= |d|
      && d[|Data(entries, shared, i)|..|Data(entries, shared, i + 1)|] == EncodeEntry(entries[i], shared[i])
  {
    if i + 1 < n { EntryInData(entries, shared, i, n - 1); }
  }

  lemma {:induction false} OffsetsAscend(l: Layout, i: nat, k: nat)
    requires Shares(l.entries, l.shared) && i <= k <= |l.entries|
    ensures Offset(l, i) <= Offset(l, k) && (i < k ==> Offset(l, i) < Offset(l, k))
  {
    if i < k { EntryInData(l.entries, l.shared, i, k); }
  }

  /** The bytes depend only on the entries written so far. */
  lemma {:induction false} DataOfPrefix(entries: seq<KeyValue>, shared: seq<nat>, e: KeyValue, s: nat, n: nat)
    requires Shares(entries, shared) && Shares(entries + [e], shared + [s]) && n <= |entries|
    ensures Data(entries + [e], shared + [s], n) == Data(entries, shared, n)
  {
    if n > 0 { DataOfPrefix(entries, shared, e, s, n - 1); }
  }

  /** A key is no longer than the block that holds it: what it shares was stored before it. */
  lemma {:induction false} KeyFits(entries: seq<KeyValue>, shared: seq<nat>, i: nat)
    requires Shares(entries, shared) && i < |entries|
    ensures |entries[i].key| <= |Data(entries, shared, i + 1)|
  {
    if i > 0 { KeyFits(entries, shared, i - 1); }
  }

  lemma {:induction false} FixedInArray(rs: seq<Uint32>, i: nat, n: nat)
    requires i < n <= |rs|
    ensures FixedArray(rs, n)[4 * i..4 * i + 4] == EncodeFixed32(rs[i])
  {
    if i + 1 < n { FixedInArray(rs, i, n - 1); }
  }

  lemma {:induction false} FixedOfPrefix(rs: seq<Uint32>, r: Uint32, n: nat)
    requires n <= |rs|
    ensures FixedArray(rs + [r], n) == FixedArray(rs, n)
  {
    if n > 0 { FixedOfPrefix(rs, r, n - 1); }
  }

  datatype Decoded = Decoded(shared: nat, nonShared: nat, valueLength: nat, header: nat)

  function TakeLengths(s: Bytes): (r: Option<Decoded>)
    ensures r.Some? ==> 3 <= r.value.header <= |s|
  {
    match GetVarint32(s)
    case None => None
    case Some(a) => (match GetVarint32(s[a.length..])
      case None => None
      case Some(b) => (match GetVarint32(s[a.length..][b.length..])
        case None => None
        case Some(c) => Some(Decoded(a.value, b.value, c.value, a.length + b.length + c.length))))
  }

  /** Decodes the lengths of the entry `s` begins with; its key bytes follow after `header` bytes. */
  function DecodeEntry(s: Bytes): (r: Option<Decoded>)
    ensures r.Some? ==> 3 <= r.value.header <= |s| && r.value.header + r.value.nonShared + r.value.valueLength <= |s|
  {
    if |s| < 3 then None
    else
      var d := if s[0] < 128 && s[1] < 128 && s[2] < 128 then Some(Decoded(s[0], s[1], s[2], 3)) else TakeLengths(s);
      match d
      case None => None
      case Some(x) => if |s| - x.header < x.nonShared + x.valueLength then None else d
  }

  lemma Skip(v: Uint32, rest: Bytes)
    ensures var s := Varint(v) + rest;
      GetVarint32(s) == Some(Parsed(v, |Varint(v)|)) && s[|Varint(v)|..] == rest
  {
    Varint32RoundTrip(v, rest);
  }

  lemma TakeParsed(s: Bytes, t: Bytes, u: Bytes, x: nat, y: nat, z: nat, a: nat, b: nat, c: nat)
    requires GetVarint32(s) == Some(Parsed(x, a)) && s[a..] == t
    requires GetVarint32(t) == Some(Parsed(y, b)) && t[b..] == u && GetVarint32(u) == Some(Parsed(z, c))
    ensures TakeLengths(s) == Some(Decoded(x, y, z, a + b + c))
  {
  }

  lemma TakeEncoded(s: Bytes, x: Uint32, y: Uint32, z: Uint32, tail: Bytes, a: nat, b: nat, c: nat)
    requires s == Varint(x) + (Varint(y) + (Varint(z) + tail)) && a == |Varint(x)| && b == |Varint(y)|
      && c == |Varint(z)|
    ensures TakeLengths(s) == Some(Decoded(x, y, z, a + b + c))
  {
    var u := Varint(z) + tail;
    var t := Varint(y) + u;
    Skip(x, t);
    Skip(y, u);
    Skip(z, tail);
    TakeParsed(s, t, u, x, y, z, a, b, c);
  }

  /** The fast path and the general one agree. */
  lemma OneByte(s: Bytes, x: nat, y: nat, z: nat, tail: Bytes, a: nat, b: nat, c: nat)
    requires s == Varint(x) + (Varint(y) + (Varint(z) + tail)) && a == |Varint(x)| && b == |Varint(y)|
      && c == |Varint(z)|
    ensures |s| >= 3 && (s[0] < 128 && s[1] < 128 && s[2] < 128 ==>
        s[0] == x && s[1] == y && s[2] == z && a + b + c == 3)
  {
  }

  lemma DecodeParsed(s: Bytes, x: nat, y: nat, z: nat, header: nat)
    requires TakeLengths(s) == Some(Decoded(x, y, z, header)) && y + z <= |s| - header
    requires s[0] < 128 && s[1] < 128 && s[2] < 128 ==> s[0] == x && s[1] == y && s[2] == z && header == 3
    ensures DecodeEntry(s) == Some(Decoded(x, y, z, header))
  {
  }

  lemma DecodeLengths(s: Bytes, x: Uint32, y: Uint32, z: Uint32, tail: Bytes, a: nat, b: nat, c: nat, header: nat)
    requires s == Varint(x) + (Varint(y) + (Varint(z) + tail)) && a == |Varint(x)| && b == |Varint(y)|
      && c == |Varint(z)|
    requires y + z <= |tail| && header == a + b + c
    ensures DecodeEntry(s) == Some(Decoded(x, y, z, header))
  {
    TakeEncoded(s, x, y, z, tail, a, b, c);
    OneByte(s, x, y, z, tail, a, b, c);
    DecodeParsed(s, x, y, z, header);
  }

  lemma EntryParts(e: KeyValue, shared: nat, more: Bytes)
    requires shared <= |e.key|
    ensures EncodeEntry(e, shared) + more
      == Varint(shared) + (Varint(|e.key| - shared) + (Varint(|e.value|) + (e.key[shared..] + e.value + more)))
  {
  }

  lemma EntryTail(e: KeyValue, shared: nat)
    requires shared <= |e.key|
    ensures var code, v, k := EncodeEntry(e, shared), |e.value|, |e.key| - shared;
      k + v <= |code| && code[|code| - v..] == e.value && code[|code| - v - k..|code| - v] == e.key[shared..]
  {
  }

  /** Decoding finds the lengths that were encoded, whatever follows the entry. */
  lemma DecodeEncoded(s: Bytes, e: KeyValue, shared: nat, more: Bytes, n: nat, v: nat, header: nat)
    requires shared <= |e.key| < TWO_32 && |EncodeEntry(e, shared)| < TWO_32
    requires s == EncodeEntry(e, shared) + more && n == |e.key| - shared && v == |e.value|
      && header == |EncodeEntry(e, shared)| - v - n
    ensures DecodeEntry(s) == Some(Decoded(shared, n, v, header))
  {
    EntryParts(e, shared, more);
    DecodeLengths(s, shared, n, v, e.key[shared..] + e.value + more, |Varint(shared)|, |Varint(n)|, |Varint(v)|,
        header);
  }

  lemma SliceOfSlice(s: Bytes, p: nat, q: nat, a: nat, b: nat)
    requires p <= q <= |s| && a <= b <= q - p
    ensures s[p..q][a..b] == s[p + a..p + b]
  {
    assert forall i :: 0 <= i < b - a ==> s[p..q][a..b][i] == s[p + a..p + b][i];
  }

  lemma MiddlePart(s: Bytes, d: Bytes, m: Bytes, t: Bytes, a: nat, b: nat)
    requires s == d + m + t && a <= b
    ensures b <= |d| ==> s[a..b] == d[a..b]
    ensures b <= |m| ==> s[|d| + a..|d| + b] == m[a..b]
  {
  }

  /** Entry `i` stands in the block between its offset and the next, the later ones after it. */
  lemma EntryAt(l: Layout, rs: seq<Uint32>, data: Bytes, i: nat)
    requires IsBlock(l, rs, data) && i < |l.entries|
    ensures var limit, p, next, code := Offset(l, |l.entries|), Offset(l, i), Offset(l, i + 1),
        EncodeEntry(l.entries[i], l.shared[i]);
      && p < next <= limit <= |data| && |code| == next - p
      && data[p..next] == code && data[p..limit] == code + data[next..limit]
  {
    var d := Data(l.entries, l.shared, |l.entries|);
    EntryInData(l.entries, l.shared, i, |l.entries|);
    MiddlePart(data, d, FixedArray(rs, |rs|), EncodeFixed32(|rs|), Offset(l, i), Offset(l, i + 1));
    assert data[Offset(l, i)..|d|] == data[Offset(l, i)..Offset(l, i + 1)] + data[Offset(l, i + 1)..|d|];
  }

  lemma EntryValue(data: Bytes, p: nat, next: nat, e: KeyValue, shared: nat)
    requires p <= next <= |data| && shared <= |e.key| && data[p..next] == EncodeEntry(e, shared)
    ensures var n, v := |e.key| - shared, |e.value|;
      next - v - n >= p && data[next - v..next] == e.value && data[next - v - n..next - v] == e.key[shared..]
  {
    var n, v, size := |e.key| - shared, |e.value|, next - p;
    EntryTail(e, shared);
    SliceOfSlice(data, p, next, size - v, size);
    SliceOfSlice(data, p, next, size - v - n, size - v);
  }

  /** The bytes at a restart point, or at any entry, decode to that entry. */
  lemma DecodeAt(l: Layout, rs: seq<Uint32>, data: Bytes, i: nat, s: Bytes, n: nat, v: nat, p: nat, next: nat)
    requires IsBlock(l, rs, data) && i < |l.entries| && n == |l.entries[i].key| - l.shared[i]
      && v == |l.entries[i].value|
    requires p == Offset(l, i) && next == Offset(l, i + 1) && p <= Offset(l, |l.entries|) <= |data|
      && s == data[p..Offset(l, |l.entries|)]
    ensures p < next <= Offset(l, |l.entries|) && p + v + n <= next
    ensures DecodeEntry(s) == Some(Decoded(l.shared[i], n, v, next - v - n - p))
    ensures data[next - v..next] == l.entries[i].value
      && data[next - v - n..next - v] == l.entries[i].key[l.shared[i]..]
  {
    EntryAt(l, rs, data, i);
    KeyFits(l.entries, l.shared, i);
    EntryValue(data, p, next, l.entries[i], l.shared[i]);
    DecodeEncoded(s, l.entries[i], l.shared[i], data[next..Offset(l, |l.entries|)], n, v, next - v - n - p);
  }

  lemma RestartAt(l: Layout, rs: seq<Uint32>, data: Bytes, j: nat)
    requires IsBlock(l, rs, data) && j < |l.starts|
    ensures var at := Offset(l, |l.entries|) + 4 * j;
      at + 4 <= |data| && DecodeFixed32(data[at..]) == Offset(l, l.starts[j])
  {
    var d := Data(l.entries, l.shared, |l.entries|);
    FixedInArray(rs, j, |rs|);
    MiddlePart(data, d, FixedArray(rs, |rs|), EncodeFixed32(|rs|), 4 * j, 4 * j + 4);
    SliceOfSlice(data, |d| + 4 * j, |data|, 0, 4);
    FixedRoundTrip(rs[j], data[|d| + 4 * j..]);
  }
}
