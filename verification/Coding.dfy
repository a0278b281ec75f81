/** Integer and slice encodings (util/coding.cc) and the masked checksum (util/crc32c.h). */
module Coding {
  import opened InternalKeys
  import opened ReadSpec

  const TWO_32: int := 0x1_0000_0000
  type Uint32 = v: int | 0 <= v < 0x1_0000_0000

  function EncodeFixed32(v: Uint32): (r: Bytes)
    ensures |r| == 4
  {
    [v % 256, v / 256 % 256, v / 256 / 256 % 256, v / 256 / 256 / 256]
  }

  function DecodeFixed32(s: Bytes): Uint32
    requires |s| >= 4
  {
    s[0] as int + 256 * (s[1] as int + 256 * (s[2] as int + 256 * s[3] as int))
  }

  lemma FixedRoundTrip(v: Uint32, s: Bytes)
    requires |s| >= 4 && s[..4] == EncodeFixed32(v)
    ensures DecodeFixed32(s) == v
  {
    assert forall i :: 0 <= i < 4 ==> s[i] == s[..4][i];
  }

  /** Seven bits a byte, least significant first, the high bit saying that more follow. */
  function Varint(v: nat): (r: Bytes)
    ensures |r| >= 1
  {
    if v < 128 then [v] else [v % 128 + 128] + Varint(v / 128)
  }

  datatype Parsed = Parsed(value: nat, length: nat)

  /** What a varint of at most `n` bytes at the start of `s` stands for. */
  function ReadVarint(s: Bytes, n: nat): (r: Option<Parsed>)
    ensures r.Some? ==> 1 <= r.value.length <= |s|
  {
    if n == 0 || s == [] then None
    else if s[0] < 128 then Some(Parsed(s[0], 1))
    else match ReadVarint(s[1..], n - 1)
      case None => None
      case Some(p) => Some(Parsed(s[0] - 128 + 128 * p.value, p.length + 1))
  }

  function Power2(n: nat): (r: nat)
    ensures r >= 1
  {
    if n == 0 then 1 else 2 * Power2(n - 1)
  }

  function Power128(n: nat): (r: nat)
    ensures r >= 1
  {
    if n == 0 then 1 else 128 * Power128(n - 1)
  }

  /** Reading undoes writing, whatever follows. */
  lemma {:induction false} VarintRoundTrip(v: nat, n: nat, rest: Bytes)
    requires n > 0 && v < Power128(n)
    ensures ReadVarint(Varint(v) + rest, n) == Some(Parsed(v, |Varint(v)|))
  {
    if v >= 128 {
      assert n > 1 && v / 128 < Power128(n - 1);
      VarintRoundTrip(v / 128, n - 1, rest);
      assert (Varint(v) + rest)[0] == v % 128 + 128;
      assert (Varint(v) + rest)[1..] == Varint(v / 128) + rest;
    }
  }

  lemma {:induction false} VarintLengthAtMost(v: nat, n: nat)
    requires n > 0 && v < Power128(n)
    ensures |Varint(v)| <= n
  {
    if v >= 128 {
      assert n > 1 && v / 128 < Power128(n - 1);
      VarintLengthAtMost(v / 128, n - 1);
    }
  }

  /** The unrolled 32-bit encoder. */
  function EncodeVarint32(v: Uint32): Bytes {
    var b7, b14 := v / 128, v / 128 / 128;
    var b21, b28 := b14 / 128, b14 / 128 / 128;
    if v < 0x80 then [v]
    else if v < 0x4000 then [v % 128 + 128, b7]
    else if v < 0x20_0000 then [v % 128 + 128, b7 % 128 + 128, b14]
    else if v < 0x1000_0000 then [v % 128 + 128, b7 % 128 + 128, b14 % 128 + 128, b21]
    else [v % 128 + 128, b7 % 128 + 128, b14 % 128 + 128, b21 % 128 + 128, b28]
  }

  lemma UnrolledVarint(v: Uint32)
    ensures EncodeVarint32(v) == Varint(v)
  {
    var b7 := v / 128;
    var b14 := b7 / 128;
    var b21 := b14 / 128;
    var b28 := b21 / 128;
    assert Varint(b28) == [b28];
    assert Varint(b21) == if b21 < 128 then [b21] else [b21 % 128 + 128] + Varint(b28);
    assert Varint(b14) == if b14 < 128 then [b14] else [b14 % 128 + 128] + Varint(b21);
    assert Varint(b7) == if b7 < 128 then [b7] else [b7 % 128 + 128] + Varint(b14);
    assert Varint(v) == if v < 128 then [v] else [v % 128 + 128] + Varint(b7);
  }

  method EncodeVarint64(value: nat) returns (r: Bytes)
    ensures r == Varint(value)
  {
    var v := value;
    r := [];
    while v >= 128
      invariant r + Varint(v) == Varint(value)
    {
      r := r + [v % 128 + 128];
      v := v / 128;
    }
    r := r + [v];
  }

  method VarintLength(value: nat) returns (len: nat)
    ensures len == |Varint(value)|
  {
    var v := value;
    len := 1;
    while v >= 128
      invariant len - 1 + |Varint(v)| == |Varint(value)|
    {
      v := v / 128;
      len := len + 1;
    }
  }

  const MAX_VARINT32_LENGTH: nat := 5

  /** The 32-bit reader keeps the low 32 bits of what five bytes spell. */
  function GetVarint32(s: Bytes): (r: Option<Parsed>)
    ensures r.Some? ==> 1 <= r.value.length <= |s| && r.value.value < TWO_32
  {
    match ReadVarint(s, MAX_VARINT32_LENGTH)
    case None => None
    case Some(p) => Some(Parsed(p.value % TWO_32, p.length))
  }

  method GetVarint32Ptr(s: Bytes) returns (r: Option<Parsed>)
    ensures r == GetVarint32(s)
  {
    var result, p, shift, weight := 0, 0, 0, 1;
    while shift <= 28 && p < |s|
      invariant shift == 7 * p <= 35 && p <= |s| && result >= 0 && weight >= 1
      invariant Prepended(ReadVarint(s, MAX_VARINT32_LENGTH), ReadVarint(s[p..], MAX_VARINT32_LENGTH - p), result,
          weight, p)
      decreases 35 - shift
    {
      var byte: int := s[p];
      p := p + 1;
      if byte < 128 {
        // only the last shift can push bits out of the word
        assert ReadVarint(s, MAX_VARINT32_LENGTH) == Some(Parsed(result + weight * byte, p));
        return Some(Parsed((result + weight * byte) % TWO_32, p));
      }
      assert s[p - 1..][1..] == s[p..];
      PrependByte(ReadVarint(s, MAX_VARINT32_LENGTH), s[p - 1..], MAX_VARINT32_LENGTH + 1 - p, result, weight, p - 1);
      result, weight, shift := result + (byte - 128) * weight, weight * 128, shift + 7;
    }
    r := None;
  }

  ghost predicate Prepended(whole: Option<Parsed>, tail: Option<Parsed>, result: nat, weight: nat, p: nat) {
    whole == match tail case None => None case Some(t) => Some(Parsed(result + weight * t.value, p + t.length))
  }

  lemma Distribute(w: nat, c: nat, t: nat)
    ensures w * (c + 128 * t) == c * w + (w * 128) * t && c * w >= 0
  {
    assert w * (128 * t) == (w * 128) * t;
  }

  lemma PrependByte(whole: Option<Parsed>, s: Bytes, n: nat, result: nat, weight: nat, p: nat)
    requires n > 0 && s != [] && s[0] >= 128 && Prepended(whole, ReadVarint(s, n), result, weight, p)
    ensures (s[0] - 128) * weight >= 0
    ensures Prepended(whole, ReadVarint(s[1..], n - 1), result + (s[0] - 128) * weight, weight * 128, p + 1)
  {
    var tail := ReadVarint(s[1..], n - 1);
    Distribute(weight, s[0] - 128, if tail.Some? then tail.value.value else 0);
  }

  function PutLengthPrefixedSlice(s: Bytes): Bytes {
    Varint(|s|) + s
  }

  datatype Sliced = Sliced(slice: Bytes, rest: Bytes)

  function GetLengthPrefixedSlice(s: Bytes): Option<Sliced> {
    match GetVarint32(s)
    case None => None
    case Some(p) =>
      if |s| - p.length < p.value then None
      else Some(Sliced(s[p.length..p.length + p.value], s[p.length + p.value..]))
  }

  lemma Varint32RoundTrip(v: Uint32, rest: Bytes)
    ensures GetVarint32(Varint(v) + rest) == Some(Parsed(v, |Varint(v)|)) && |Varint(v)| <= 5
  {
    assert Power128(5) == 0x8_0000_0000 by { assert Power128(2) == 0x4000; assert Power128(4) == 0x1000_0000; }
    VarintRoundTrip(v, 5, rest);
    VarintLengthAtMost(v, 5);
  }

  lemma SliceRoundTrip(s: Bytes, rest: Bytes)
    requires |s| < TWO_32
    ensures GetLengthPrefixedSlice(PutLengthPrefixedSlice(s) + rest) == Some(Sliced(s, rest))
  {
    var all := PutLengthPrefixedSlice(s) + rest;
    assert all == Varint(|s|) + (s + rest);
    Varint32RoundTrip(|s|, s + rest);
    assert all[|Varint(|s|)|..] == s + rest;
  }

  const TWO_64: int := 0x1_0000_0000_0000_0000
  const MAX_VARINT64_LENGTH: nat := 10

  function GetVarint64(s: Bytes): (r: Option<Parsed>)
    ensures r.Some? ==> 1 <= r.value.length <= |s| && r.value.value < TWO_64
  {
    match ReadVarint(s, MAX_VARINT64_LENGTH)
    case None => None
    case Some(p) => Some(Parsed(p.value % TWO_64, p.length))
  }

  lemma Varint64RoundTrip(v: nat, rest: Bytes)
    requires v < TWO_64
    ensures GetVarint64(Varint(v) + rest) == Some(Parsed(v, |Varint(v)|)) && |Varint(v)| <= 10
  {
    assert Power128(10) >= TWO_64 by {
      assert Power128(2) == 0x4000;
      assert Power128(4) == 0x1000_0000;
      assert Power128(8) == 0x100_0000_0000_0000;
    }
    VarintRoundTrip(v, 10, rest);
    VarintLengthAtMost(v, 10);
  }

  const MASK_DELTA: int := 0xa282ead8

  function Mask(crc: Uint32): Uint32 {
    (crc / 0x8000 + crc % 0x8000 * 0x2_0000 + MASK_DELTA) % TWO_32
  }

  function Unmask(masked: Uint32): Uint32 {
    var rot := (masked - MASK_DELTA) % TWO_32;
    rot / 0x2_0000 + rot % 0x2_0000 * 0x8000
  }

  lemma ShiftBack(r: Uint32)
    ensures ((r + MASK_DELTA) % TWO_32 - MASK_DELTA) % TWO_32 == r
  {
    if r + MASK_DELTA < TWO_32 {
      assert (r + MASK_DELTA) % TWO_32 == r + MASK_DELTA;
    } else {
      assert (r + MASK_DELTA) % TWO_32 == r + MASK_DELTA - TWO_32;
    }
  }

  lemma Halves(high: nat, low: nat)
    requires high < 0x2_0000
    ensures (high + low * 0x2_0000) / 0x2_0000 == low && (high + low * 0x2_0000) % 0x2_0000 == high
  {
  }

  /** The stored checksum determines the checksum. */
  lemma UnmaskMask(crc: Uint32)
    ensures Unmask(Mask(crc)) == crc
  {
    var high, low := crc / 0x8000, crc % 0x8000;
    var rot := high + low * 0x2_0000;
    ShiftBack(rot);
    Halves(high, low);
    assert Unmask(Mask(crc)) == rot / 0x2_0000 + rot % 0x2_0000 * 0x8000;
  }

  /** The encodings of the elements, one after the other. */
  function Joined<T>(f: T -> Bytes, xs: seq<T>): Bytes {
    if xs == [] then [] else f(xs[0]) + Joined(f, xs[1..])
  }

  lemma {:induction false} JoinedAppend<T>(f: T -> Bytes, a: seq<T>, b: seq<T>)
    ensures Joined(f, a + b) == Joined(f, a) + Joined(f, b)
  {
    if a == [] {
      assert a + b == b;
    } else {
      JoinedAppend(f, a[1..], b);
      assert (a + b)[1..] == a[1..] + b;
    }
  }

  lemma JoinedOne<T>(f: T -> Bytes, xs: seq<T>, x: T)
    ensures Joined(f, xs + [x]) == Joined(f, xs) + f(x)
  {
    JoinedAppend(f, xs, [x]);
    assert [x][1..] == [] && Joined(f, []) == [];
    assert Joined(f, [x]) == f(x) + [];
  }
}
