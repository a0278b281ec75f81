/** Input streams: bytes, varints, tags, substreams, skipping (nanopb pb_decode.c). */
module PbStream {
  import opened InternalKeys
  import opened ReadSpec
  import opened Coding
  import opened Comparators
  import opened PbMessages

  function BitOr(a: nat, b: nat): nat {
    if a == 0 then b else if b == 0 then a
    else 2 * BitOr(a / 2, b / 2) + (if a % 2 == 1 || b % 2 == 1 then 1 else 0)
  }

  /** Bits above all of `a` are simply added. */
  lemma {:induction false} OrAbove(a: nat, c: nat, n: nat)
    requires a < Power2(n)
    ensures BitOr(a, c * Power2(n)) == a + c * Power2(n)
  {
    if n == 0 {
      assert a == 0;
    } else {
      var b := c * Power2(n - 1);
      assert c * Power2(n) == 2 * b by { assert c * (2 * Power2(n - 1)) == 2 * (c * Power2(n - 1)); }
      assert a / 2 < Power2(n - 1);
      OrAbove(a / 2, c, n - 1);
    }
  }

  lemma {:induction false} SevenBits(k: nat)
    ensures Power2(7 * k) == Power128(k)
  {
    if k > 0 {
      SevenBits(k - 1);
      var n := 7 * (k - 1);
      assert Power2(n + 7) == 128 * Power2(n) by {
        assert Power2(n + 7) == 2 * Power2(n + 6) && Power2(n + 6) == 2 * Power2(n + 5) &&
          Power2(n + 5) == 2 * Power2(n + 4);
        assert Power2(n + 4) == 2 * Power2(n + 3) && Power2(n + 3) == 2 * Power2(n + 2) &&
          Power2(n + 2) == 2 * Power2(n + 1);
      }
    }
  }

  /** `result |= (uint32_t)(byte & 0x7F) << bitpos` */
  function Merged(result: nat, byte: Byte, bitpos: nat): nat {
    BitOr(result, byte % 128 * Power2(bitpos) % TWO_32)
  }

  lemma SmallMod(x: nat)
    requires x < TWO_32
    ensures x % TWO_32 == x
  {
  }

  lemma MergedAdds(result: nat, byte: Byte, bitpos: nat)
    requires result < Power2(bitpos) && byte % 128 * Power2(bitpos) < TWO_32
    ensures Merged(result, byte, bitpos) == result + byte % 128 * Power2(bitpos)
  {
    SmallMod(byte % 128 * Power2(bitpos));
    OrAbove(result, byte % 128, bitpos);
  }

  lemma Powers32()
    ensures Power128(1) == 0x80 && Power128(2) == 0x4000 && Power128(3) == 0x20_0000 && Power128(4) == 0x1000_0000
  {
  }

  lemma MergedIsSum(result: nat, byte: Byte, k: nat)
    requires 1 <= k <= 4 && result < Power128(k) && (k == 4 ==> byte % 128 < 16)
    ensures Merged(result, byte, 7 * k) == result + byte % 128 * Power128(k)
    ensures k < 4 ==> Merged(result, byte, 7 * k) < Power128(k + 1)
  {
    SevenBits(k);
    Powers32();
    var c: nat, w := byte % 128, Power128(k);
    assert c * w < TWO_32 && (k < 4 ==> result + c * w < 128 * w) by {
      if k == 1 {
        assert w == 0x80;
      } else if k == 2 {
        assert w == 0x4000;
      } else if k == 3 {
        assert w == 0x20_0000;
      } else {
        assert w == 0x1000_0000;
      }
    }
    MergedAdds(result, byte, 7 * k);
  }

  /** What is taken from the front of a stream, and what is left. */
  datatype Taken<+T> = Taken(value: T, rest: Bytes)

  /** The stream gave what it should, and has left what it should. */
  ghost predicate Gives<T(!new)>(t: Option<Taken<T>>, r: Option<T>, rest: Bytes) {
    match t case None => r == None case Some(x) => r == Some(x.value) && rest == x.rest
  }

  /** The bytes after the first of a varint, when `result` has been gathered from `bitpos` bits. */
  function MoreOf32(s: Bytes, result: Uint32, bitpos: nat): (r: Option<Taken<Uint32>>)
    ensures r.Some? ==> |r.value.rest| < |s|
  {
    if s == [] then None
    else
      var byte := s[0];
      if bitpos >= 32 && byte % 128 != 0 && (result < 0x8000_0000 || byte != if bitpos < 63 then 0xFF else 0x01)
      then None
      else
        MergedFits(result, byte, bitpos);
        var result': Uint32 := if bitpos >= 32 then result else Merged(result, byte, bitpos);
        var bitpos' := (bitpos + 7) % 256;
        if byte >= 128 then MoreOf32(s[1..], result', bitpos')
        else if bitpos' == 35 && byte / 16 % 8 != 0 then None
        else Some(Taken(result', s[1..]))
  }

  /** The 32-bit number at the front of `s`; None if it does not end or is out of range. */
  function TakeVarint32(s: Bytes): (r: Option<Taken<Uint32>>)
    ensures r.Some? ==> |r.value.rest| < |s|
  {
    if s == [] then None
    else if s[0] < 128 then Some(Taken(s[0], s[1..]))
    else MoreOf32(s[1..], s[0] % 128, 7)
  }

  /** Up to five bytes are accepted exactly for the numbers of 32 bits; for six to ten see Longer. */
  ghost predicate AcceptsVarint32(whole: Bytes, t: Option<Taken<Uint32>>) {
    var p := ReadVarint(whole, 5);
    && (p.Some? ==> t == if p.value.value < TWO_32 then Some(Taken(p.value.value, whole[p.value.length..])) else None)
    && Longer(whole, if t.Some? then Some(t.value.value) else None, if t.Some? then t.value.rest else [])
  }

  lemma {:induction false} MoreOf32Accepts(whole: Bytes, s: Bytes, result: Uint32, bitpos: nat, k: nat, c: nat)
    requires Reading(whole, s, result, bitpos, k) && Tracked(whole, s, result, bitpos, c) && whole[c - 1] >= 128
    ensures AcceptsVarint32(whole, MoreOf32(s, result, bitpos))
    decreases |s|
  {
    if s == [] {
      ReadingAll(whole, s, result, bitpos, k);
      EndlessVarint(whole, c);
    } else {
      var byte := s[0];
      Varint32Step(whole, s, result, bitpos, k);
      if bitpos >= 32 && byte % 128 != 0 && (result < 0x8000_0000 || byte != if bitpos < 63 then 0xFF else 0x01) {
        RefusedAccepts(whole, s, result, bitpos, k, c);
      } else {
        TrackedOn(whole, s, result, bitpos, c);
        MergedFits(result, byte, bitpos);
        var result': Uint32 := if bitpos >= 32 then result else Merged(result, byte, bitpos);
        var bitpos' := (bitpos + 7) % 256;
        if byte >= 128 {
          MoreOf32Accepts(whole, s[1..], result', bitpos', if k < 5 then k + 1 else 5, c + 1);
        } else {
          TrackedEnds(whole, s[1..], result', bitpos', c + 1);
        }
      }
    }
  }

  lemma RefusedAccepts(whole: Bytes, s: Bytes, result: Uint32, bitpos: nat, k: nat, c: nat)
    requires Reading(whole, s, result, bitpos, k) && Tracked(whole, s, result, bitpos, c) && whole[c - 1] >= 128
    requires s != [] && bitpos >= 32 && s[0] % 128 != 0
      && (result < 0x8000_0000 || s[0] != if bitpos < 63 then 0xFF else 0x01)
    ensures AcceptsVarint32(whole, None)
  {
    TrackedFails(whole, s, result, bitpos, c);
    if k == 5 { ReadingAll(whole, s, result, bitpos, k); }
  }

  lemma Varint32Accepted(whole: Bytes)
    ensures AcceptsVarint32(whole, TakeVarint32(whole))
  {
    if whole != [] {
      if whole[0] < 128 {
        ShortVarint(whole, 1);
      } else {
        TrackedFirst(whole);
        FirstByte(whole);
        MoreOf32Accepts(whole, whole[1..], whole[0] % 128, 7, 1, 1);
      }
    }
  }

  /** The low 64 bits of the varint at the front. */
  function TakeVarint64(s: Bytes): (r: Option<Taken<nat>>)
    ensures r.Some? ==> |r.value.rest| < |s| && r.value.value < TWO_64
  {
    match GetVarint64(s) case None => None case Some(p) => Some(Taken(p.value, s[p.length..]))
  }

  function TakeBytes(s: Bytes, n: nat): (r: Option<Taken<Bytes>>)
    ensures r.Some? ==> |r.value.rest| <= |s|
  {
    if n <= |s| then Some(Taken(s[..n], s[n..])) else None
  }

  function TakeCounted(s: Bytes): (r: Option<Taken<Bytes>>)
    ensures r.Some? ==> |r.value.rest| + |r.value.value| < |s|
  {
    match TakeVarint32(s) case None => None case Some(t) => TakeBytes(t.rest, t.value)
  }

  datatype TagTaken = Tag(tag: nat, wireType: nat, rest: Bytes) | EndOfMessage | BadTag

  /** A tag of zero ends the message like the end of the stream. */
  function TakeTag(s: Bytes): (r: TagTaken)
    ensures r.Tag? ==> |r.rest| < |s| && r.wireType < 8
  {
    if s == [] then EndOfMessage
    else
      match TakeVarint32(s)
      case None => BadTag
      case Some(t) => if t.value == 0 then EndOfMessage else Tag(t.value / 8, t.value % 8, t.rest)
  }

  /** What is left when a value of the wire type is skipped. */
  function Skipped(wireType: nat, s: Bytes): (r: Option<Bytes>)
    ensures r.Some? ==> |r.value| <= |s|
  {
    match wireType
    case 0 => AfterVarint(s)
    case 1 => if |s| >= 8 then Some(s[8..]) else None
    case 2 => (match TakeCounted(s) case None => None case Some(t) => Some(t.rest))
    case 5 => if |s| >= 4 then Some(s[4..]) else None
    case _ => None
  }

  class IStream {
    var rest: Bytes

    constructor (s: Bytes)
      ensures rest == s
    {
      rest := s;
    }

    method Read(count: nat) returns (s: Option<Bytes>)
      modifies this
      ensures s == if count <= |old(rest)| then Some(old(rest)[..count]) else None
      ensures rest == if count <= |old(rest)| then old(rest)[count..] else old(rest)
    {
      if |rest| < count {
        return None;
      }
      s := Some(rest[..count]);
      rest := rest[count..];
    }

    method ReadByte() returns (b: Option<Byte>)
      modifies this
      ensures b == if old(rest) != [] then Some(old(rest)[0]) else None
      ensures rest == if old(rest) != [] then old(rest)[1..] else []
    {
      if rest == [] {
        return None;
      }
      b := Some(rest[0]);
      rest := rest[1..];
    }

    /** pb_decode_varint32_eof. Up to five bytes it accepts exactly the numbers of 32 bits; from six to ten, the
        low 32 bits of those whose further bytes are zero or go on with a sign bit. */
    method DecodeVarint32() returns (value: Option<Uint32>, eof: bool)
      modifies this
      ensures eof == (old(rest) == []) && (eof ==> value.None?)
      ensures |rest| <= |old(rest)| && (value.Some? ==> |rest| < |old(rest)|)
      ensures var p := ReadVarint(old(rest), 5); p.Some? ==>
        && value == (if p.value.value < TWO_32 then Some(p.value.value) else None)
        && (value.Some? ==> rest == old(rest)[p.value.length..])
      ensures Longer(old(rest), value, rest) && Gives(TakeVarint32(old(rest)), value, rest)
    {
      Varint32Accepted(rest);
      eof := rest == [];
      var first := ReadByte();
      if first.None? {
        return None, eof;
      }
      if first.value < 128 {
        return Some(first.value), false;
      }
      value := MoreOfVarint32(first.value);
    }

    method MoreOfVarint32(first: Byte) returns (value: Option<Uint32>)
      modifies this
      ensures |rest| <= |old(rest)|
      ensures Gives(MoreOf32(old(rest), first % 128, 7), value, rest)
    {
      var result: nat, bitpos: nat, byte: Byte := first % 128, 7, 128;
      while byte >= 128
        invariant |rest| <= |old(rest)| && result < TWO_32
        invariant MoreOf32(old(rest), first % 128, 7) ==
          if byte >= 128 then MoreOf32(rest, result, bitpos)
          else if bitpos == 35 && byte / 16 % 8 != 0 then None else Some(Taken(result, rest))
        decreases |rest| + (if byte >= 128 then 1 else 0)
      {
        var next := ReadByte();
        if next.None? {
          return None;
        }
        byte := next.value;
        if bitpos >= 32 {
          var signExtension := if bitpos < 63 then 0xFF else 0x01;
          if byte % 128 != 0 && (result < 0x8000_0000 || byte != signExtension) {
            return None;
          }
        } else {
          MergedFits(result, byte, bitpos);
          result := Merged(result, byte, bitpos);
        }
        bitpos := (bitpos + 7) % 256; // uint_fast8_t
      }
      if bitpos == 35 && byte / 16 % 8 != 0 {
        return None;
      }
      value := Some(result);
    }

    /** pb_decode_varint: at most ten bytes, the low 64 bits of what they spell. */
    method DecodeVarint() returns (value: Option<nat>)
      modifies this
      ensures |rest| <= |old(rest)| && (value.Some? ==> |rest| < |old(rest)|)
      ensures var p := GetVarint64(old(rest));
        && value == (if p.Some? then Some(p.value.value) else None)
        && (value.Some? ==> rest == old(rest)[p.value.length..])
      ensures Gives(TakeVarint64(old(rest)), value, rest)
    {
      ghost var whole, all := rest, ReadVarint(rest, MAX_VARINT64_LENGTH);
      var result: nat, weight: nat, bitpos: nat, more := 0, 1, 0, true;
      ghost var k: nat := 0;
      while more
        invariant |rest| <= |whole| && (!more ==> |rest| < |whole|) && bitpos == 7 * k
        invariant Reading64(all, 10, whole, rest, result, weight, k, more)
        decreases |rest| + (if more then 1 else 0)
      {
        Reading64Step(all, 10, whole, rest, result, weight, k);
        if bitpos >= 64 {
          return None;
        }
        var byte := ReadByte();
        if byte.None? {
          return None;
        }
        more := byte.value >= 128;
        result, weight, bitpos := result + Placed(byte.value, weight), weight * 128, bitpos + 7;
        k := k + 1;
      }
      value := Some(result % TWO_64);
    }

    /** pb_make_string_substream; a substream and its parent share out the remaining bytes, and
        closing it drops what it has left. */
    method MakeSubstream() returns (sub: Option<IStream>)
      modifies this
      ensures |rest| <= |old(rest)|
      ensures sub.Some? ==> fresh(sub.value) && |sub.value.rest| + |rest| < |old(rest)|
      ensures forall x, tail :: old(rest) == Counted(x) + tail && |x| < TWO_32 ==>
        sub.Some? && sub.value.rest == x && rest == tail
      ensures Gives(TakeCounted(old(rest)), if sub.Some? then Some(sub.value.rest) else None, rest)
    {
      ghost var whole := rest;
      forall x, tail | whole == Counted(x) + tail && |x| < TWO_32
        ensures CountedAs(whole, x, tail)
      {
        CountedParts(whole, x, tail);
      }
      var size, eof := DecodeVarint32();
      if size.None? || |rest| < size.value {
        return None;
      }
      var s := new IStream(rest[..size.value]);
      rest := rest[size.value..];
      sub := Some(s);
    }

    /** A tag of zero ends the message like the end of the stream. */
    method DecodeTag() returns (ok: bool, wireType: nat, tag: nat, eof: bool)
      modifies this
      ensures |rest| <= |old(rest)| && (ok ==> |rest| < |old(rest)| && wireType < 8)
      ensures old(rest) == [] ==> !ok && eof
      ensures var p := ReadVarint(old(rest), 5); p.Some? && p.value.value < TWO_32 ==>
        if p.value.value == 0 then !ok && eof
        else ok && tag == p.value.value / 8 && wireType == p.value.value % 8 && rest == old(rest)[p.value.length..]
      ensures match TakeTag(old(rest))
        case Tag(t, w, left) => ok && tag == t && wireType == w && rest == left
        case EndOfMessage => !ok && eof
        case BadTag => !ok && !eof
    {
      ok, wireType, tag := false, 0, 0;
      var temp;
      temp, eof := DecodeVarint32();
      if temp.None? {
        return;
      }
      if temp.value == 0 {
        eof := true;
        return;
      }
      ok, wireType, tag := true, temp.value % 8, temp.value / 8;
    }

    method SkipVarint() returns (ok: bool)
      modifies this
      ensures |rest| <= |old(rest)|
      ensures ok == AfterVarint(old(rest)).Some? && (ok ==> rest == AfterVarint(old(rest)).value)
    {
      var byte := Read(1);
      while byte.Some? && byte.value[0] >= 128
        invariant |rest| <= |old(rest)|
        invariant byte.Some? ==> |byte.value| == 1
        invariant AfterVarint(old(rest)) ==
          if byte.None? then None else if byte.value[0] < 128 then Some(rest) else AfterVarint(rest)
        decreases |rest| + (if byte.Some? then 1 else 0)
      {
        byte := Read(1);
      }
      ok := byte.Some?;
    }

    /** pb_skip_field: whatever value a field of that wire type holds, exactly it is skipped. */
    method SkipField(wireType: nat) returns (ok: bool)
      modifies this
      ensures |rest| <= |old(rest)|
      ensures forall lt, v, tail :: Encoded(lt, v, old(rest), tail) && wireType == WireType(lt) ==> ok && rest == tail
      ensures wireType !in {0, 1, 2, 5} ==> !ok
      ensures ok == Skipped(wireType, old(rest)).Some? && (ok ==> rest == Skipped(wireType, old(rest)).value)
    {
      ghost var whole := rest;
      forall lt, v, tail | Encoded(lt, v, whole, tail)
        ensures SkippedTo(WireType(lt), whole, tail)
      {
        EncodedSkips(lt, v, whole, tail);
      }
      match wireType
      case 0 =>
        ok := SkipVarint();
      case 1 =>
        var s := Read(8);
        ok := s.Some?;
      case 2 =>
        var size, eof := DecodeVarint32();
        if size.None? {
          return false;
        }
        var s := Read(size.value);
        ok := s.Some?;
      case 5 =>
        var s := Read(4);
        ok := s.Some?;
      case _ =>
        ok := false;
    }
  }

  /** Inside a varint, after `k` bytes of it; more than five bytes are beyond what is claimed. */
  // ----- varints longer than five bytes -----

  /** The number that the first `n` bytes hold, seven bits each. */
  function Digits(s: Bytes, n: nat): nat
    requires n <= |s|
  {
    if n == 0 then 0 else s[0] % 128 + 128 * Digits(s[1..], n - 1)
  }

  lemma {:induction false} DigitsNext(s: Bytes, n: nat)
    requires n < |s|
    ensures Digits(s, n + 1) == Digits(s, n) + s[n] % 128 * Power128(n)
  {
    if n > 0 {
      DigitsNext(s[1..], n - 1);
      DigitsShift(Digits(s[1..], n - 1), s[n] % 128, Power128(n - 1));
    }
  }

  lemma DigitsShift(d: nat, c: nat, w: nat)
    ensures 128 * (d + c * w) == 128 * d + c * (128 * w)
  {
    assert 128 * (c * w) == c * (128 * w);
  }

  /** Beyond 35 bits nothing reaches the low 32. */
  lemma {:induction false} LowDigits(s: Bytes, n: nat)
    requires 5 <= n <= |s|
    ensures Digits(s, n) % TWO_32 == Digits(s, 5) % TWO_32
  {
    if n > 5 {
      LowDigits(s, n - 1);
      DigitsNext(s, n - 1);
      HighPower(n - 1);
      var m := Power128(n - 6) * 8;
      assert Power128(n - 1) == m * TWO_32;
      AddsNothing(Digits(s, n - 1), s[n - 1] % 128, m);
    }
  }

  lemma {:induction false} HighPower(n: nat)
    requires n >= 5
    ensures Power128(n) == Power128(n - 5) * 8 * TWO_32
  {
    if n == 5 {
      assert Power128(0) == 1 && Power128(1) == 128 && Power128(2) == 0x4000 && Power128(3) == 0x20_0000;
      assert Power128(5) == 0x8_0000_0000;
    } else {
      HighPower(n - 1);
      assert Power128(n) == 128 * Power128(n - 1) && Power128(n - 5) == 128 * Power128(n - 6);
    }
  }

  lemma AddsNothing(d: nat, c: nat, m: nat)
    ensures (d + c * (m * TWO_32)) % TWO_32 == d % TWO_32
  {
    var k := c * m;
    assert c * (m * TWO_32) == k * TWO_32;
    assert (d + k * TWO_32) % TWO_32 == d % TWO_32 by { ModAdd(d, k); }
  }

  lemma {:induction false} ModAdd(d: nat, k: nat)
    ensures (d + k * TWO_32) % TWO_32 == d % TWO_32
  {
    if k > 0 {
      ModAdd(d, k - 1);
      assert d + k * TWO_32 == d + (k - 1) * TWO_32 + TWO_32;
    }
  }

  /** A further byte may be zero, but for its high bit, or carry on a sign bit of 64-bit numbers. */
  predicate CarriesOn(byte: Byte, i: nat, low: nat) {
    byte % 128 == 0 || (low >= 0x8000_0000 && byte == if i < 9 then 255 else 1)
  }

  ghost predicate SignExtended(s: Bytes, n: nat, low: nat)
    requires n <= |s|
  {
    forall i :: 5 <= i < n ==> CarriesOn(s[i], i, low)
  }

  /** What becomes of a varint of six to ten bytes. */
  ghost predicate Longer(whole: Bytes, value: Option<Uint32>, rest: Bytes) {
    var p := ReadVarint(whole, 10);
    p.Some? && p.value.length > 5 ==>
      && (value.Some? <==> SignExtended(whole, p.value.length, p.value.value % TWO_32))
      && (value.Some? ==> value.value == p.value.value % TWO_32 && rest == whole[p.value.length..])
  }

  lemma {:induction false} VarintIs(s: Bytes, n: nat, c: nat)
    requires 1 <= c <= n && c <= |s| && s[c - 1] < 128 && forall i :: 0 <= i < c - 1 ==> s[i] >= 128
    ensures ReadVarint(s, n) == Some(Parsed(Digits(s, c), c))
  {
    if c > 1 {
      assert s[1..][c - 2] == s[c - 1];
      VarintIs(s[1..], n - 1, c - 1);
      assert s[0] % 128 == s[0] - 128;
    }
  }

  lemma {:induction false} VarintBytes(s: Bytes, n: nat)
    requires ReadVarint(s, n).Some?
    ensures var c := ReadVarint(s, n).value.length;
      && 1 <= c <= n && c <= |s| && s[c - 1] < 128 && (forall i :: 0 <= i < c - 1 ==> s[i] >= 128)
      && ReadVarint(s, n).value.value == Digits(s, c)
  {
    if s[0] >= 128 {
      VarintBytes(s[1..], n - 1);
      var c := ReadVarint(s, n).value.length;
      forall i | 0 <= i < c - 1 ensures s[i] >= 128 { if i > 0 { assert s[i] == s[1..][i - 1]; } }
      VarintIs(s, n, c);
    } else {
      VarintIs(s, n, 1);
    }
  }

  /** `c` bytes of a varint have been read. */
  ghost predicate Tracked(whole: Bytes, rest: Bytes, result: nat, bitpos: nat, c: nat) {
    && 1 <= c <= |whole| && rest == whole[c..] && bitpos == 7 * c % 256
    && (forall i :: 0 <= i < c - 1 ==> whole[i] >= 128)
    && (c <= 10 ==> result == Digits(whole, if c < 5 then c else 5) % TWO_32 && SignExtended(whole, c, result))
  }

  lemma TrackedFirst(whole: Bytes)
    requires whole != []
    ensures Tracked(whole, whole[1..], whole[0] % 128, 7, 1)
  {
    assert Digits(whole, 1) == whole[0] % 128 + 128 * Digits(whole[1..], 0);
  }

  lemma CutOff(d: nat, x: nat)
    requires d < 0x1000_0000 && x < 128
    ensures d + x % 16 * 0x1000_0000 < TWO_32
      && (d + x * 0x1000_0000) % TWO_32 == d + x % 16 * 0x1000_0000
      && x * 0x1000_0000 % TWO_32 == x % 16 * 0x1000_0000
  {
    var y := x % 16;
    assert x * 0x1000_0000 == y * 0x1000_0000 + x / 16 * TWO_32;
    ModAdd(y * 0x1000_0000, x / 16);
    ModAdd(d + y * 0x1000_0000, x / 16);
  }

  /** The fifth byte is cut off at 32 bits. */
  lemma FifthByte(d: nat, byte: Byte)
    requires d < 0x1000_0000
    ensures Merged(d, byte, 28) == (d + byte % 128 * 0x1000_0000) % TWO_32
  {
    SevenBits(4);
    Powers32();
    CutOff(d, byte % 128);
    OrAbove(d, byte % 128 % 16, 28);
  }

  lemma MergedWraps(d: nat, byte: Byte, c: nat)
    requires 1 <= c <= 4 && d < Power128(c)
    ensures Merged(d % TWO_32, byte, 7 * c) == (d + byte % 128 * Power128(c)) % TWO_32
  {
    Powers32();
    SmallMod(d);
    if c < 4 {
      MergedIsSum(d, byte, c);
      BoundedSum(d, byte % 128, Power128(c), c);
      SmallMod(d + byte % 128 * Power128(c));
    } else {
      FifthByte(d, byte);
    }
  }

  lemma BoundedSum(d: nat, x: nat, w: nat, c: nat)
    requires 1 <= c <= 4 && w == Power128(c) && d < w && x < 128 && (c == 4 ==> x < 16)
    ensures d + x * w < TWO_32
  {
    Powers32();
    if c == 1 { assert w == 0x80; } else if c == 2 { assert w == 0x4000; }
    else if c == 3 { assert w == 0x20_0000; } else { assert w == 0x1000_0000; }
  }

  lemma {:induction false} DigitsBounded(s: Bytes, n: nat)
    requires n <= |s|
    ensures Digits(s, n) < Power128(n)
  {
    if n > 0 { DigitsBounded(s[1..], n - 1); }
  }

  /** One byte more, if it is not refused. */
  lemma TrackedOn(whole: Bytes, rest: Bytes, result: nat, bitpos: nat, c: nat)
    requires Tracked(whole, rest, result, bitpos, c) && whole[c - 1] >= 128 && rest != []
    requires bitpos >= 32 && c < 10 ==> CarriesOn(rest[0], c, result)
    ensures Tracked(whole, rest[1..], if bitpos >= 32 then result else Merged(result, rest[0], bitpos),
                    (bitpos + 7) % 256, c + 1)
  {
    assert rest[0] == whole[c];
    BitAfter(c);
    if c < 5 { DigitsMerged(whole, c); }
  }

  lemma BitAfter(c: nat)
    ensures (7 * c % 256 + 7) % 256 == 7 * (c + 1) % 256
  {
  }

  lemma DigitsMerged(whole: Bytes, c: nat)
    requires 1 <= c <= 4 && c < |whole|
    ensures Merged(Digits(whole, c) % TWO_32, whole[c], 7 * c) == Digits(whole, c + 1) % TWO_32
  {
    DigitsNext(whole, c);
    DigitsBounded(whole, c);
    MergedWraps(Digits(whole, c), whole[c], c);
  }

  lemma TrackedFails(whole: Bytes, rest: Bytes, result: nat, bitpos: nat, c: nat)
    requires Tracked(whole, rest, result, bitpos, c) && whole[c - 1] >= 128 && rest != []
    requires c < 10 ==> bitpos >= 32 && !CarriesOn(rest[0], c, result)
    ensures Longer(whole, None, rest)
  {
    if ReadVarint(whole, 10).Some? {
      VarintBytes(whole, 10);
      var n := ReadVarint(whole, 10).value.length;
      if n > 5 && c < 10 {
        assert n > c && rest[0] == whole[c];
        LowDigits(whole, n);
      }
    }
  }

  lemma TrackedEnds(whole: Bytes, rest: Bytes, result: nat, bitpos: nat, c: nat)
    requires Tracked(whole, rest, result, bitpos, c) && whole[c - 1] < 128 && result < TWO_32
    ensures Longer(whole, Some(result), rest) && (c < 256 && bitpos == 35 ==> Longer(whole, None, rest))
  {
    if ReadVarint(whole, 10).Some? {
      VarintBytes(whole, 10);
      if c <= 10 { VarintIs(whole, 10, c); }
      if c >= 5 && c <= 10 { LowDigits(whole, c); }
    }
  }

  lemma ShortVarint(whole: Bytes, c: nat)
    requires 1 <= c <= 5 && c <= |whole| && whole[c - 1] < 128 && forall i :: 0 <= i < c - 1 ==> whole[i] >= 128
    ensures ReadVarint(whole, 10) == Some(Parsed(Digits(whole, c), c))
  {
    VarintIs(whole, 10, c);
  }

  lemma EndlessVarint(whole: Bytes, c: nat)
    requires c == |whole| && forall i :: 0 <= i < c ==> whole[i] >= 128
    ensures ReadVarint(whole, 10).None?
  {
    if ReadVarint(whole, 10).Some? { VarintBytes(whole, 10); }
  }

  ghost predicate Reading(whole: Bytes, rest: Bytes, result: nat, bitpos: nat, k: nat) {
    && 1 <= k <= 5
    && Prepended(ReadVarint(whole, 5), ReadVarint(rest, 5 - k), result, Power128(k), k)
    && (k < 5 ==> bitpos == 7 * k && k <= |whole| && rest == whole[k..] && result < Power128(k))
  }

  ghost predicate Finished(p: Parsed, whole: Bytes, rest: Bytes, result: nat, bitpos: nat, byte: Byte) {
    && p.length <= |whole| && rest == whole[p.length..]
    && (p.value >= TWO_32 <==> bitpos == 35 && byte / 16 % 8 != 0)
    && (p.value < TWO_32 ==> result == p.value)
  }

  lemma FirstByte(whole: Bytes)
    requires whole != [] && whole[0] >= 128
    ensures Reading(whole, whole[1..], whole[0] % 128, 7, 1)
  {
    assert Power128(1) == 128;
    var tail := ReadVarint(whole[1..], 4);
    assert ReadVarint(whole, 5) ==
      match tail case None => None case Some(p) => Some(Parsed(whole[0] - 128 + 128 * p.value, p.length + 1));
  }

  lemma ReadingAll(whole: Bytes, rest: Bytes, result: nat, bitpos: nat, k: nat)
    requires Reading(whole, rest, result, bitpos, k) && (rest == [] || k == 5)
    ensures ReadVarint(whole, 5).None?
  {
    assert ReadVarint(rest, 5 - k) == None;
  }

  /** Another byte of a varint that goes on. */
  lemma AnotherByte(whole: Bytes, rest: Bytes, result: nat, bitpos: nat, k: nat)
    requires Reading(whole, rest, result, bitpos, k) && rest != [] && rest[0] >= 128 && k < 5
    ensures Reading(whole, rest[1..], Merged(result, rest[0], bitpos), bitpos + 7, k + 1)
  {
    var byte := rest[0];
    PrependByte(ReadVarint(whole, 5), rest, 5 - k, result, Power128(k), k);
    assert Power128(k + 1) == Power128(k) * 128 && byte % 128 == byte - 128;
    if k < 4 {
      MergedIsSum(result, byte, k);
    } else {
      assert ReadVarint(rest[1..], 0) == None;
    }
  }

  lemma Varint32Step(whole: Bytes, rest: Bytes, result: nat, bitpos: nat, k: nat)
    requires Reading(whole, rest, result, bitpos, k) && rest != []
    ensures var byte := rest[0];
      var result' := if bitpos >= 32 then result else Merged(result, byte, bitpos);
      var bitpos' := (bitpos + 7) % 256;
      && (byte >= 128 ==> Reading(whole, rest[1..], result', bitpos', if k < 5 then k + 1 else 5))
      && (byte < 128 && ReadVarint(whole, 5).Some? ==>
          Finished(ReadVarint(whole, 5).value, whole, rest[1..], result', bitpos', byte))
  {
    var byte := rest[0];
    if k == 5 {
      ReadingAll(whole, rest, result, bitpos, k);
      assert ReadVarint(rest[1..], 0) == None;
    } else if byte >= 128 {
      AnotherByte(whole, rest, result, bitpos, k);
    } else {
      assert ReadVarint(rest, 5 - k) == Some(Parsed(byte, 1));
      LastByte(result, byte, k);
    }
  }

  lemma LastByte(result: nat, byte: Byte, k: nat)
    requires 1 <= k <= 4 && result < Power128(k) && byte < 128
    ensures result + Power128(k) * byte >= TWO_32 <==> k == 4 && byte / 16 % 8 != 0
    ensures result + Power128(k) * byte < TWO_32 ==> Merged(result, byte, 7 * k) == result + Power128(k) * byte
  {
    Powers32();
    var w := Power128(k);
    assert w * byte == byte % 128 * w;
    if k == 4 {
      assert w == 0x1000_0000 && (byte / 16 % 8 != 0 <==> byte >= 16);
      assert w * byte >= TWO_32 <==> byte >= 16;
    } else {
      assert w == 0x80 || w == 0x4000 || w == 0x20_0000;
      assert result + w * byte < TWO_32;
    }
    if k < 4 || byte < 16 { MergedIsSum(result, byte, k); }
  }

  lemma {:induction false} OrFits(a: nat, b: nat, n: nat)
    requires a < Power2(n) && b < Power2(n)
    ensures BitOr(a, b) < Power2(n)
  {
    if n > 0 { OrFits(a / 2, b / 2, n - 1); }
  }

  lemma MergedFits(result: nat, byte: Byte, bitpos: nat)
    requires result < TWO_32
    ensures Merged(result, byte, bitpos) < TWO_32
  {
    assert Power2(32) == TWO_32 by {
      assert Power2(4) == 16 && Power2(8) == 256 && Power2(12) == 0x1000 && Power2(16) == 0x1_0000;
      assert Power2(20) == 0x10_0000 && Power2(24) == 0x100_0000 && Power2(28) == 0x1000_0000;
    }
    OrFits(result, byte % 128 * Power2(bitpos) % TWO_32, 32);
  }

  /** `whole` splits into a count, `x` and `tail`, as the varint reader sees it. */
  ghost predicate CountedAs(whole: Bytes, x: Bytes, tail: Bytes) {
    var p := ReadVarint(whole, 5);
    && p.Some? && p.value.value == |x| && p.value.length <= |whole|
    && whole[p.value.length..] == x + tail
  }

  lemma CountedParts(whole: Bytes, x: Bytes, tail: Bytes)
    requires whole == Counted(x) + tail && |x| < TWO_32
    ensures CountedAs(whole, x, tail)
  {
    Read32(|x|, whole, x + tail);
  }

  /** What the 32-bit reader makes of a canonical varint. */
  lemma Read32(v: Uint32, whole: Bytes, tail: Bytes)
    requires whole == Coding.Varint(v) + tail
    ensures var p := ReadVarint(whole, 5);
      p.Some? && p.value.value == v && p.value.length <= |whole| && whole[p.value.length..] == tail
  {
    assert Power128(5) == 0x8_0000_0000 by { assert Power128(2) == 0x4000; assert Power128(4) == 0x1000_0000; }
    VarintRoundTrip(v, 5, tail);
  }

  lemma Read64(v: nat, whole: Bytes, tail: Bytes)
    requires v < TWO_64 && whole == Coding.Varint(v) + tail
    ensures var p := GetVarint64(whole);
      p.Some? && p.value.value == v && p.value.length <= |whole| && whole[p.value.length..] == tail
  {
    Varint64RoundTrip(v, tail);
  }

  function Placed(byte: Byte, weight: nat): nat {
    byte % 128 * weight
  }

  /** Inside a varint of at most `n` bytes, or just past it; `all` is what it stands for. */
  ghost predicate Reading64(all: Option<Parsed>, n: nat, whole: Bytes, rest: Bytes, result: nat, weight: nat, k: nat,
                            more: bool) {
    && k <= n && k <= |whole| && rest == whole[k..]
    && if more then Prepended(all, ReadVarint(rest, n - k), result, weight, k)
       else k > 0 && all == Some(Parsed(result, k))
  }

  lemma Reading64Step(all: Option<Parsed>, n: nat, whole: Bytes, rest: Bytes, result: nat, weight: nat, k: nat)
    requires Reading64(all, n, whole, rest, result, weight, k, true)
    ensures rest == [] || k == n ==> all.None?
    ensures rest != [] && k < n ==>
      Reading64(all, n, whole, rest[1..], result + Placed(rest[0], weight), weight * 128, k + 1, rest[0] >= 128)
  {
    if rest == [] || k == n {
      assert ReadVarint(rest, n - k) == None;
    } else if rest[0] >= 128 {
      assert rest[0] % 128 == rest[0] - 128;
      PrependByte(all, rest, n - k, result, weight, k);
    } else {
      assert ReadVarint(rest, n - k) == Some(Parsed(rest[0], 1));
      assert weight * rest[0] == rest[0] % 128 * weight;
    }
  }

  function AfterVarint(s: Bytes): (r: Option<Bytes>)
    ensures r.Some? ==> |r.value| < |s|
  {
    if s == [] then None else if s[0] < 128 then Some(s[1..]) else AfterVarint(s[1..])
  }

  lemma {:induction false} AfterVarintSkips(v: nat, tail: Bytes)
    ensures AfterVarint(Coding.Varint(v) + tail) == Some(tail)
  {
    var s := Coding.Varint(v) + tail;
    if v >= 128 {
      AfterVarintSkips(v / 128, tail);
      assert s[1..] == Coding.Varint(v / 128) + tail;
    } else {
      assert s[1..] == tail;
    }
  }

  /** `whole` starts with the value `v` as it is sent. */
  ghost predicate Encoded(lt: LType, v: Value, whole: Bytes, tail: Bytes) {
    && ValidType(lt) && ValidValue(Typed, lt, v)
    && |ScalarBytes(lt, v)| < TWO_32 && whole == ScalarBytes(lt, v) + tail
  }

  ghost predicate SkippedTo(wireType: nat, whole: Bytes, tail: Bytes) {
    match wireType
    case 0 => AfterVarint(whole) == Some(tail)
    case 1 => |whole| >= 8 && whole[8..] == tail
    case 2 => exists x :: |x| < TWO_32 && CountedAs(whole, x, tail)
    case _ => |whole| >= 4 && whole[4..] == tail
  }

  lemma EncodedSkips(lt: LType, v: Value, whole: Bytes, tail: Bytes)
    requires Encoded(lt, v, whole, tail)
    ensures SkippedTo(WireType(lt), whole, tail)
  {
    match lt
    case Bool => AfterVarintSkips(if v.b then 1 else 0, tail);
    case Varint(_) => AfterVarintSkips(Unsigned64(v.i), tail);
    case UVarint(_) => AfterVarintSkips(v.i, tail);
    case SVarint(_) => AfterVarintSkips(ZigZag(v.i), tail);
    case Fixed32 => assert |Little(v.i, 4)| == 4;
    case Fixed64 => assert |Little(v.i, 8)| == 8;
    case Submessage(fields) => CountedParts(whole, MessageBytes(fields, v.message), tail);
    case _ => CountedParts(whole, v.data, tail);
  }
}
