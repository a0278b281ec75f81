/** Internal keys and their order (db/dbformat.h, db/dbformat.cc, util/comparator.cc).

    The engine orders user keys by a comparator the caller supplies.  Above the
    byte level nothing about a user key matters but its place in that order, so
    there a user key is represented by its rank, a real number: finite byte
    strings are countable, and every countable total order embeds in the reals.
    `RankOrder` shows the embedding for the built-in bytewise comparator. */
module InternalKeys {

  type Byte = b: int | 0 <= b < 256
  type Bytes = seq<Byte>

  /** Slice::compare: memcmp on the common length, then the shorter first. */
  predicate BytewiseLess(a: Bytes, b: Bytes) {
    if b == [] then false
    else if a == [] then true
    else if a[0] != b[0] then a[0] < b[0]
    else BytewiseLess(a[1..], b[1..])
  }

  function Rank(a: Bytes): (r: real)
    ensures 0.0 <= r < 1.0
  {
    if a == [] then 0.0 else (a[0] as real + 1.0 + Rank(a[1..])) / 257.0
  }

  /** Ranks compare exactly as the byte strings do. */
  lemma {:induction false} RankOrder(a: Bytes, b: Bytes)
    ensures BytewiseLess(a, b) <==> Rank(a) < Rank(b)
    ensures a == b <==> Rank(a) == Rank(b)
    decreases |a|
  {
    if a != [] && b != [] {
      RankOrder(a[1..], b[1..]);
      assert a == [a[0]] + a[1..] && b == [b[0]] + b[1..];
      if a[0] < b[0] {
        assert a[0] as real + 1.0 <= b[0] as real;
      } else if b[0] < a[0] {
        assert b[0] as real + 1.0 <= a[0] as real;
      }
    }
  }

  type UserKey = real

  /** config::kNumLevels */
  const NUM_LEVELS: nat := 7

  const MAX_SEQUENCE: int := 0xff_ffff_ffff_ffff
  type SequenceNumber = s: int | 0 <= s <= MAX_SEQUENCE

  datatype ValueType = Deletion | Value

  datatype InternalKey = InternalKey(user: UserKey, sequence: SequenceNumber, kind: ValueType)

  datatype Entry = Entry(key: InternalKey, value: Bytes)

  /** The packed trailer: sequence in the high 56 bits, type in the low 8. */
  function Tag(k: InternalKey): nat {
    k.sequence * 256 + if k.kind.Value? then 1 else 0
  }

  /** Increasing user key, then decreasing packed trailer. */
  predicate Less(a: InternalKey, b: InternalKey) {
    a.user < b.user || (a.user == b.user && Tag(a) > Tag(b))
  }

  predicate AtMost(a: InternalKey, b: InternalKey) {
    !Less(b, a)
  }

  /** The key a lookup of `user` at snapshot `sequence` seeks to (LookupKey). */
  function LookupKey(user: UserKey, sequence: SequenceNumber): InternalKey {
    InternalKey(user, sequence, Value)
  }

  ghost predicate Sorted(s: seq<Entry>) {
    forall i, j :: 0 <= i < j < |s| ==> Less(s[i].key, s[j].key)
  }
}
