/** Key order and key shortening on bytes (util/comparator.cc, db/dbformat.cc). */
module Comparators {
  import opened InternalKeys

  /** The first difference decides; without one the shorter string comes first. */
  lemma {:induction false} LessByFirstDifference(a: Bytes, b: Bytes, i: nat)
    requires i <= |a| && i <= |b| && a[..i] == b[..i]
    requires i == |a| || i == |b| || a[i] != b[i]
    ensures BytewiseLess(a, b) <==> i < |b| && (i == |a| || a[i] < b[i])
  {
    if i > 0 {
      assert a[0] == a[..i][0] && b[0] == b[..i][0];
      assert a[1..][..i - 1] == a[..i][1..] && b[1..][..i - 1] == b[..i][1..];
      LessByFirstDifference(a[1..], b[1..], i - 1);
    }
  }

  lemma LessIsStrictOrder(a: Bytes, b: Bytes, c: Bytes)
    ensures !BytewiseLess(a, a)
    ensures BytewiseLess(a, b) && BytewiseLess(b, c) ==> BytewiseLess(a, c)
    ensures BytewiseLess(a, b) || a == b || BytewiseLess(b, a)
  {
    RankOrder(a, a);
    RankOrder(a, b);
    RankOrder(b, c);
    RankOrder(a, c);
    RankOrder(b, a);
  }

  /** `key` cut after `i` bytes with the next byte raised by one. */
  function Raised(key: Bytes, i: nat): Bytes
    requires i < |key| && key[i] < 255
  {
    key[..i] + [key[i] + 1]
  }

  lemma RaisedIsGreater(key: Bytes, i: nat)
    requires i < |key| && key[i] < 255
    ensures BytewiseLess(key, Raised(key, i))
  {
    LessByFirstDifference(key, Raised(key, i), i);
  }

  /** The first difference is at `d`, and there is room below the limit for the byte raised by one. */
  ghost predicate MayRaise(start: Bytes, limit: Bytes, d: nat) {
    && d < |start| && d < |limit| && start[..d] == limit[..d]
    && start[d] < 255 && start[d] + 1 < limit[d]
  }

  lemma AgreeBefore(a: Bytes, b: Bytes, n: nat, i: nat)
    requires n <= |a| && n <= |b| && a[..n] == b[..n]
    ensures i < n ==> a[i] == b[i]
  {
    if i < n { assert a[..n][i] == b[..n][i]; }
  }

  lemma RaisedAtOnePlace(start: Bytes, limit: Bytes, d: nat, e: nat)
    requires d <= |start| && d <= |limit| && start[..d] == limit[..d] && MayRaise(start, limit, e)
    requires d == |start| || d == |limit| || start[d] != limit[d]
    ensures d == e
  {
    AgreeBefore(start, limit, e, d);
    AgreeBefore(start, limit, d, e);
  }

  /** BytewiseComparatorImpl::FindShortestSeparator: the first byte that differs is raised and the rest cut off
      if the result stays below the limit; otherwise nothing changes. */
  method FindShortestSeparator(start: Bytes, limit: Bytes) returns (r: Bytes)
    ensures r == start || (BytewiseLess(start, r) && BytewiseLess(r, limit) && |r| <= |start|)
    ensures forall d :: MayRaise(start, limit, d) ==> r == Raised(start, d)
    ensures r == start || exists d :: MayRaise(start, limit, d)
  {
    var minLength := if |start| < |limit| then |start| else |limit|;
    var diffIndex := 0;
    while diffIndex < minLength && start[diffIndex] == limit[diffIndex]
      invariant diffIndex <= minLength && start[..diffIndex] == limit[..diffIndex]
    {
      diffIndex := diffIndex + 1;
    }
    forall d | MayRaise(start, limit, d) ensures d == diffIndex {
      RaisedAtOnePlace(start, limit, diffIndex, d);
    }
    r := start;
    if diffIndex < minLength {
      var diffByte: int := start[diffIndex];
      if diffByte < 0xff && diffByte + 1 < limit[diffIndex] {
        r := Raised(start, diffIndex);
        RaisedIsGreater(start, diffIndex);
        LessByFirstDifference(r, limit, diffIndex);
        assert MayRaise(start, limit, diffIndex);
      }
    }
  }

  /** The first byte of the key that is not 0xff is raised by one and the rest cut off. */
  method FindShortSuccessor(key: Bytes) returns (r: Bytes)
    ensures r == key || (BytewiseLess(key, r) && |r| <= |key|)
    ensures r == key ==> forall b :: b in key ==> b == 255
    ensures forall i :: FirstBelow255(key, i) ==> r == Raised(key, i)
    ensures r == key || exists i :: FirstBelow255(key, i)
  {
    for i := 0 to |key|
      invariant forall j :: 0 <= j < i ==> key[j] == 255
    {
      var byte := key[i];
      if byte != 255 {
        RaisedIsGreater(key, i);
        assert FirstBelow255(key, i);
        return Raised(key, i);
      }
    }
    r := key;
  }

  ghost predicate FirstBelow255(key: Bytes, i: nat) {
    i < |key| && key[i] != 255 && forall j :: 0 <= j < i ==> key[j] == 255
  }

  function EncodeFixed64(v: nat): (r: Bytes)
    requires v < 0x1_0000_0000_0000_0000
    ensures |r| == 8
  {
    Little(v, 8)
  }

  /** The low `n` bytes of `v`, least significant first. */
  function Little(v: nat, n: nat): (r: Bytes)
    ensures |r| == n
  {
    if n == 0 then [] else [v % 256] + Little(v / 256, n - 1)
  }

  function FromLittle(s: Bytes): nat {
    if s == [] then 0 else s[0] + 256 * FromLittle(s[1..])
  }

  function Power256(n: nat): (r: nat)
    ensures r >= 1
  {
    if n == 0 then 1 else 256 * Power256(n - 1)
  }

  lemma {:induction false} LittleRoundTrip(v: nat, n: nat)
    requires v < Power256(n)
    ensures FromLittle(Little(v, n)) == v
  {
    if n > 0 {
      LittleRoundTrip(v / 256, n - 1);
      assert Little(v, n)[1..] == Little(v / 256, n - 1);
    }
  }

  lemma {:induction false} FromLittleBounded(s: Bytes)
    ensures FromLittle(s) < Power256(|s|)
  {
    if s != [] { FromLittleBounded(s[1..]); }
  }

  /** An internal key as bytes: the user key, then the packed sequence number and type. */
  function UserPart(k: Bytes): Bytes
  {
    if |k| < 8 then k else k[..|k| - 8]
  }

  function TagPart(k: Bytes): int {
    if |k| < 8 then -1 else FromLittle(k[|k| - 8..])
  }

  /** InternalKeyComparator::Compare on bytes. */
  predicate InternalLess(a: Bytes, b: Bytes) {
    BytewiseLess(UserPart(a), UserPart(b)) || (UserPart(a) == UserPart(b) && TagPart(a) > TagPart(b))
  }

  function Packed(user: Bytes, tag: nat): (r: Bytes)
    requires tag < 0x1_0000_0000_0000_0000
    ensures |r| == |user| + 8
  {
    user + EncodeFixed64(tag)
  }

  /** The largest sequence number with the type a seek uses: no key of the same user key comes earlier. */
  const SEEK_TAG: int := MAX_SEQUENCE * 256 + 1

  lemma PackedParts(user: Bytes, tag: nat)
    requires tag < 0x1_0000_0000_0000_0000
    ensures UserPart(Packed(user, tag)) == user && TagPart(Packed(user, tag)) == tag
  {
    var k := Packed(user, tag);
    assert k[|k| - 8..] == EncodeFixed64(tag);
    assert Power256(2) == 0x1_0000 && Power256(4) == 0x1_0000_0000 && Power256(8) == 0x1_0000_0000_0000_0000;
    LittleRoundTrip(tag, 8);
  }

  lemma InternalLessIsStrict(a: Bytes, b: Bytes, c: Bytes)
    ensures !InternalLess(a, a)
    ensures InternalLess(a, b) && InternalLess(b, c) ==> InternalLess(a, c)
  {
    LessIsStrictOrder(UserPart(a), UserPart(b), UserPart(c));
  }

  /** InternalKeyComparator::FindShortestSeparator: at or after `start`, before `limit`. */
  method InternalSeparator(start: Bytes, limit: Bytes) returns (r: Bytes)
    requires InternalLess(start, limit)
    ensures !InternalLess(r, start) && InternalLess(r, limit)
    ensures r == start || BytewiseLess(UserPart(r), UserPart(limit))
    ensures |r| <= |start| + 8
    ensures forall d: nat :: MayRaise(UserPart(start), UserPart(limit), d) && d + 1 < |UserPart(start)| ==>
      r == Packed(Raised(UserPart(start), d), SEEK_TAG)
    ensures r == start || exists d: nat :: MayRaise(UserPart(start), UserPart(limit), d) && d + 1 < |UserPart(start)|
  {
    var tmp := FindShortestSeparator(UserPart(start), UserPart(limit));
    LessIsStrictOrder(UserPart(start), tmp, UserPart(start));
    if |tmp| < |UserPart(start)| && BytewiseLess(UserPart(start), tmp) {
      r := Packed(tmp, SEEK_TAG);
      PackedParts(tmp, SEEK_TAG);
    } else {
      r := start;
    }
  }

  /** InternalKeyComparator::FindShortSuccessor: at or after `key`. */
  method InternalSuccessor(key: Bytes) returns (r: Bytes)
    ensures !InternalLess(r, key)
    ensures |r| <= |key| + 8
    ensures forall i: nat :: FirstBelow255(UserPart(key), i) && i + 1 < |UserPart(key)| ==>
      r == Packed(Raised(UserPart(key), i), SEEK_TAG)
    ensures r == key || exists i: nat :: FirstBelow255(UserPart(key), i) && i + 1 < |UserPart(key)|
  {
    var tmp := FindShortSuccessor(UserPart(key));
    LessIsStrictOrder(UserPart(key), tmp, UserPart(key));
    if |tmp| < |UserPart(key)| && BytewiseLess(UserPart(key), tmp) {
      r := Packed(tmp, SEEK_TAG);
      PackedParts(tmp, SEEK_TAG);
    } else {
      r := key;
    }
  }
}
