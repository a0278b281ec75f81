/** The Bloom filter (util/bloom.cc): a bit is set just if it is a probe of a key. */
module Bloom {
  import opened InternalKeys
  import opened Coding

  /** The hash function is not looked into. */
  type Hash = Bytes -> Uint32

  /** The bits of a byte, least significant first. */
  predicate Bit(x: nat, b: nat) {
    if b == 0 then x % 2 == 1 else Bit(x / 2, b - 1)
  }

  /** x | (1 << b) */
  function SetBit(x: nat, b: nat): nat {
    if b == 0 then x / 2 * 2 + 1 else SetBit(x / 2, b - 1) * 2 + x % 2
  }

  lemma {:induction false} BitOfSetBit(x: nat, b: nat, c: nat)
    ensures Bit(SetBit(x, b), c) == (b == c || Bit(x, c))
  {
    var y := SetBit(x, b);
    if b == 0 {
      assert y / 2 == x / 2 && y % 2 == 1;
    } else {
      assert y / 2 == SetBit(x / 2, b - 1) && y % 2 == x % 2;
      if c > 0 { BitOfSetBit(x / 2, b - 1, c - 1); }
    }
  }

  lemma OddBelow(x: nat, half: nat)
    requires x < 2 * half
    ensures x / 2 * 2 + 1 < 2 * half
  {
  }

  lemma Doubled(y: nat, bit: nat, half: nat)
    requires y < half && bit < 2
    ensures y * 2 + bit < 2 * half
  {
  }

  lemma {:induction false} SetBitStaysInWord(x: nat, b: nat, n: nat)
    requires b < n && x < Power2(n)
    ensures SetBit(x, b) < Power2(n)
  {
    var half := Power2(n - 1);
    assert Power2(n) == 2 * half;
    if b == 0 {
      OddBelow(x, half);
    } else {
      SetBitStaysInWord(x / 2, b - 1, n - 1);
      Doubled(SetBit(x / 2, b - 1), x % 2, half);
    }
  }

  predicate BitAt(bitmap: Bytes, p: nat)
    requires p < 8 * |bitmap|
  {
    Bit(bitmap[p / 8], p % 8)
  }

  function WithBit(bitmap: Bytes, p: nat): (r: Bytes)
    requires p < 8 * |bitmap|
    ensures |r| == |bitmap|
  {
    assert SetBit(bitmap[p / 8], p % 8) < 256 by {
      assert Power2(4) == 16 && Power2(8) == 256;
      SetBitStaysInWord(bitmap[p / 8], p % 8, 8);
    }
    bitmap[p / 8 := SetBit(bitmap[p / 8], p % 8)]
  }

  lemma WithBitSetsOnlyMore(bitmap: Bytes, p: nat, q: nat)
    requires p < 8 * |bitmap| && q < 8 * |bitmap|
    ensures BitAt(WithBit(bitmap, p), q) <==> p == q || BitAt(bitmap, q)
  {
    if p / 8 == q / 8 { BitOfSetBit(bitmap[p / 8], p % 8, q % 8); }
  }

  function Delta(h: Uint32): Uint32 {
    h / 0x2_0000 + h % 0x2_0000 * 0x8000
  }

  /** The hash after `j` rounds of adding the delta, in 32-bit arithmetic. */
  function Probe(h: Uint32, j: nat): Uint32 {
    if j == 0 then h else (Probe(h, j - 1) + Delta(h)) % TWO_32
  }

  ghost predicate AllSet(bitmap: Bytes, h: Uint32, k: nat)
    requires bitmap != []
  {
    forall j :: 0 <= j < k ==> ProbeSet(bitmap, h, j)
  }

  predicate ProbeSet(bitmap: Bytes, h: Uint32, j: nat)
    requires bitmap != []
  {
    BitAt(bitmap, Probe(h, j) % (8 * |bitmap|))
  }

  /** Whether a filter lets a key through. */
  ghost predicate MayMatch(hash: Hash, key: Bytes, filter: Bytes) {
    && |filter| >= 2
    && var k := filter[|filter| - 1]; (k > 30 || AllSet(filter[..|filter| - 1], hash(key), k))
  }

  method KeyMayMatch(hash: Hash, key: Bytes, filter: Bytes) returns (r: bool)
    ensures r <==> MayMatch(hash, key, filter)
  {
    var len := |filter|;
    if len < 2 { return false; }
    var bitmap := filter[..len - 1];
    var bits := (len - 1) * 8;
    var k := filter[len - 1];
    if k > 30 { return true; }
    var h := hash(key);
    var delta := Delta(h);
    for j := 0 to k
      invariant h == Probe(hash(key), j)
      invariant AllSet(bitmap, hash(key), j)
    {
      var bitpos := h % bits;
      if !BitAt(bitmap, bitpos) {
        assert !ProbeSet(bitmap, hash(key), j);
        return false;
      }
      h := (h + delta) % TWO_32;
    }
    r := true;
  }

  /** At least 64 bits in whole bytes, and the number of probes. */
  function FilterSize(n: nat, bitsPerKey: nat): (r: nat)
    ensures 9 <= r <= n * bitsPerKey + 10
  {
    var bits := n * bitsPerKey;
    ((if bits < 64 then 64 else bits) + 7) / 8 + 1
  }

  predicate ProbeIs(h: Uint32, j: nat, bits: nat, p: nat)
    requires bits > 0
  {
    Probe(h, j) % bits == p
  }

  /** Bit `p` is among the first `k` probes of a hash. */
  ghost predicate ProbedIn(h: Uint32, k: nat, bits: nat, p: nat)
    requires bits > 0
  {
    exists j :: 0 <= j < k && ProbeIs(h, j, bits, p)
  }

  /** Bit `p` is a probe of some key. */
  ghost predicate Probed(hash: Hash, k: nat, keys: seq<Bytes>, bits: nat, p: nat)
    requires bits > 0
  {
    exists i :: 0 <= i < |keys| && ProbedIn(hash(keys[i]), k, bits, p)
  }

  /** Just the probes of `keys` are set. */
  ghost predicate Marks(bitmap: Bytes, hash: Hash, k: nat, keys: seq<Bytes>) {
    bitmap != [] && forall p :: 0 <= p < 8 * |bitmap| ==>
      (BitAt(bitmap, p) <==> Probed(hash, k, keys, 8 * |bitmap|, p))
  }

  /** The filter is a bitmap with just the probes of `keys` set, and the number of probes. */
  ghost predicate IsFilter(hash: Hash, k: nat, keys: seq<Bytes>, filter: Bytes) {
    |filter| >= 2 && filter[|filter| - 1] == k && Marks(filter[..|filter| - 1], hash, k, keys)
  }

  /** The `j`th probe of a key is also a probe of one of `keys`. */
  ghost predicate ProbeShared(hash: Hash, k: nat, keys: seq<Bytes>, filter: Bytes, key: Bytes, j: nat)
    requires |filter| >= 2
  {
    var bits := 8 * (|filter| - 1);
    Probed(hash, k, keys, bits, Probe(hash(key), j) % bits)
  }

  /** A filter lets through just the keys whose probes are all probes of the keys it is for; so one probe
      that none of them has is enough to turn a key away, and a filter for no key turns all away. */
  lemma FilterLetsThrough(hash: Hash, k: nat, keys: seq<Bytes>, filter: Bytes, key: Bytes)
    requires IsFilter(hash, k, keys, filter) && 1 <= k <= 30
    ensures MayMatch(hash, key, filter) <==>
      forall j :: 0 <= j < k ==> ProbeShared(hash, k, keys, filter, key, j)
    ensures key in keys ==> MayMatch(hash, key, filter)
    ensures keys == [] ==> !MayMatch(hash, key, filter)
  {
    var bits, bitmap := 8 * (|filter| - 1), filter[..|filter| - 1];
    forall j | 0 <= j < k
      ensures ProbeSet(bitmap, hash(key), j) <==> ProbeShared(hash, k, keys, filter, key, j)
    {
    }
    assert ProbeSet(bitmap, hash(key), 0) <==> ProbeShared(hash, k, keys, filter, key, 0);
    if key in keys {
      var i :| 0 <= i < |keys| && keys[i] == key;
      forall j | 0 <= j < k ensures ProbeShared(hash, k, keys, filter, key, j) {
        assert ProbeIs(hash(keys[i]), j, bits, Probe(hash(key), j) % bits);
      }
    }
  }

  /** Appends to `dst` the filter of `keys`. */
  method CreateFilter(hash: Hash, bitsPerKey: nat, k: nat, keys: seq<Bytes>, dst: Bytes) returns (r: Bytes)
    requires 1 <= k <= 30
    ensures |r| == |dst| + FilterSize(|keys|, bitsPerKey) && r[..|dst|] == dst
    ensures IsFilter(hash, k, keys, r[|dst|..])
  {
    var bits := |keys| * bitsPerKey;
    if bits < 64 {
      bits := 64;
    }
    var bytes := (bits + 7) / 8;
    bits := bytes * 8;
    var bitmap: Bytes := seq(bytes, _ => 0);
    NothingSet(bitmap);
    for i := 0 to |keys|
      invariant |bitmap| == bytes && Marks(bitmap, hash, k, keys[..i])
    {
      bitmap := SetProbes(hash(keys[i]), k, bitmap, keys[..i], hash, keys[i]);
      assert keys[..i + 1] == keys[..i] + [keys[i]];
    }
    assert keys[..|keys|] == keys;
    r := dst + bitmap + [k];
    assert r[|dst|..] == bitmap + [k] && (bitmap + [k])[..bytes] == bitmap;
  }

  lemma {:induction false} ZeroHasNoBit(b: nat)
    ensures !Bit(0, b)
  {
    if b > 0 { ZeroHasNoBit(b - 1); }
  }

  lemma NothingSet(bitmap: Bytes)
    requires forall i :: 0 <= i < |bitmap| ==> bitmap[i] == 0
    ensures forall p :: 0 <= p < 8 * |bitmap| ==> !BitAt(bitmap, p)
  {
    forall p | 0 <= p < 8 * |bitmap| ensures !BitAt(bitmap, p) { ZeroHasNoBit(p % 8); }
  }

  lemma ProbedBy(hash: Hash, k: nat, keys: seq<Bytes>, key: Bytes, bits: nat, p: nat)
    requires bits > 0
    ensures Probed(hash, k, keys + [key], bits, p) <==>
      Probed(hash, k, keys, bits, p) || ProbedIn(hash(key), k, bits, p)
  {
    var all := keys + [key];
    if i :| 0 <= i < |keys| && ProbedIn(hash(keys[i]), k, bits, p) {
      assert ProbedIn(hash(all[i]), k, bits, p);
    }
    if ProbedIn(hash(key), k, bits, p) {
      assert ProbedIn(hash(all[|keys|]), k, bits, p);
    }
  }

  lemma OneMoreProbe(h: Uint32, j: nat, bits: nat, p: nat)
    requires bits > 0
    ensures ProbedIn(h, j + 1, bits, p) <==> ProbedIn(h, j, bits, p) || ProbeIs(h, j, bits, p)
  {
    if ProbeIs(h, j, bits, p) { assert ProbedIn(h, j + 1, bits, p); }
  }

  method SetProbes(h: Uint32, k: nat, before: Bytes, ghost keys: seq<Bytes>, ghost hash: Hash, ghost key: Bytes)
    returns (bitmap: Bytes)
    requires Marks(before, hash, k, keys) && h == hash(key)
    ensures |bitmap| == |before| && Marks(bitmap, hash, k, keys + [key])
  {
    bitmap := before;
    ghost var bits := 8 * |before|;
    var q, delta := h, Delta(h);
    for j := 0 to k
      invariant |bitmap| == |before| && q == Probe(h, j)
      invariant forall p :: 0 <= p < bits ==>
        (BitAt(bitmap, p) <==> Probed(hash, k, keys, bits, p) || ProbedIn(h, j, bits, p))
    {
      var bitpos := q % (8 * |bitmap|);
      ghost var was := bitmap;
      bitmap := WithBit(bitmap, bitpos);
      forall p | 0 <= p < bits
        ensures BitAt(bitmap, p) <==> Probed(hash, k, keys, bits, p) || ProbedIn(h, j + 1, bits, p)
      {
        WithBitSetsOnlyMore(was, bitpos, p);
        OneMoreProbe(h, j, bits, p);
      }
      q := (q + delta) % TWO_32;
    }
    forall p | 0 <= p < bits ensures BitAt(bitmap, p) <==> Probed(hash, k, keys + [key], bits, p) {
      ProbedBy(hash, k, keys, key, bits, p);
    }
  }
}
