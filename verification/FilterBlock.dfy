/** The filter block of a table (table/filter_block.cc) over user keys (InternalFilterPolicy,
    db/dbformat.cc): one filter for every 2 KB of data-block offsets. */
module FilterBlock {
  import opened InternalKeys
  import opened ReadSpec
  import opened Coding
  import opened Comparators
  import opened Bloom
  import opened BlockFormat

  const FILTER_BASE_LG: Byte := 11
  const FILTER_BASE: nat := 2048

  /** A key and the offset of the data block it was added for. */
  datatype Added = Added(block: nat, key: Bytes)

  function FilterEnd(offsets: seq<nat>, result: Bytes, f: nat): nat
    requires f < |offsets|
  {
    if f + 1 < |offsets| then offsets[f + 1] else |result|
  }

  ghost predicate OffsetsOk(offsets: seq<nat>, result: Bytes) {
    && (forall i, j :: 0 <= i < j < |offsets| ==> offsets[i] <= offsets[j])
    && (forall i :: 0 <= i < |offsets| ==> offsets[i] <= |result|)
  }

  ghost function Filter(offsets: seq<nat>, result: Bytes, f: nat): Bytes
    requires f < |offsets| && OffsetsOk(offsets, result)
  {
    result[offsets[f]..FilterEnd(offsets, result, f)]
  }

  /** What the filter block says of a key in a block: a 2 KB range past its filters lets every key through. */
  ghost predicate LetsThrough(hash: Hash, offsets: seq<nat>, result: Bytes, block: nat, key: Bytes)
    requires OffsetsOk(offsets, result)
  {
    var f := block / FILTER_BASE;
    f < |offsets| ==> MayMatch(hash, UserPart(key), Filter(offsets, result, f))
  }

  /** The user keys added for the blocks that begin in the `f`th range. */
  ghost function KeysIn(added: seq<Added>, f: nat): (r: seq<Bytes>)
    ensures |r| <= |added|
  {
    if added == [] then []
    else
      var n, rest := |added| - 1, KeysIn(added[..|added| - 1], f);
      if added[n].block / FILTER_BASE == f then rest + [UserPart(added[n].key)] else rest
  }

  ghost predicate RightFilter(hash: Hash, k: nat, users: seq<Bytes>, filter: Bytes) {
    if users == [] then filter == [] else IsFilter(hash, k, users, filter)
  }

  /** Each range has the filter of its keys: none if there are none. */
  ghost predicate Exact(hash: Hash, k: nat, offsets: seq<nat>, result: Bytes, added: seq<Added>) {
    && OffsetsOk(offsets, result)
    && forall f :: 0 <= f < |offsets| ==> RightFilter(hash, k, KeysIn(added, f), Filter(offsets, result, f))
  }

  /** No block begins in a range past `n`. */
  ghost predicate RangesUpTo(added: seq<Added>, n: int) {
    forall i :: 0 <= i < |added| ==> added[i].block / FILTER_BASE <= n
  }

  lemma {:induction false} KeyIsIn(added: seq<Added>, i: nat)
    requires i < |added|
    ensures UserPart(added[i].key) in KeysIn(added, added[i].block / FILTER_BASE)
  {
    if i < |added| - 1 { KeyIsIn(added[..|added| - 1], i); }
  }

  lemma {:induction false} NoKeysPast(added: seq<Added>, n: int, f: nat)
    requires RangesUpTo(added, n) && n < f
    ensures KeysIn(added, f) == []
  {
    if added != [] { NoKeysPast(added[..|added| - 1], n, f); }
  }

  lemma OneMoreAdded(added: seq<Added>, a: Added, f: nat)
    ensures KeysIn(added + [a], f) ==
        if a.block / FILTER_BASE == f then KeysIn(added, f) + [UserPart(a.key)] else KeysIn(added, f)
  {
    assert (added + [a])[..|added|] == added;
  }

  /** A key that was added for a block is let through. */
  lemma AddedIsLetThrough(hash: Hash, k: nat, offsets: seq<nat>, result: Bytes, added: seq<Added>, a: Added)
    requires Exact(hash, k, offsets, result, added) && 1 <= k <= 30 && a in added
    ensures LetsThrough(hash, offsets, result, a.block, a.key)
  {
    var f, i :| 0 <= i < |added| && added[i] == a && f == a.block / FILTER_BASE;
    KeyIsIn(added, i);
    if f < |offsets| {
      FilterLetsThrough(hash, k, KeysIn(added, f), Filter(offsets, result, f), UserPart(a.key));
    }
  }

  /** A range no block begins in lets no key through. */
  lemma EmptyRangeRefuses(hash: Hash, k: nat, offsets: seq<nat>, result: Bytes, added: seq<Added>, block: nat,
                          key: Bytes)
    requires Exact(hash, k, offsets, result, added) && block / FILTER_BASE < |offsets|
    requires KeysIn(added, block / FILTER_BASE) == []
    ensures !LetsThrough(hash, offsets, result, block, key)
  {
  }

  /** A filter at the end leaves those before as they are. */
  lemma FilterAtEnd(hash: Hash, k: nat, offsets: seq<nat>, result: Bytes, more: Bytes, added: seq<Added>)
    requires Exact(hash, k, offsets, result, added) && RightFilter(hash, k, KeysIn(added, |offsets|), more)
    ensures Exact(hash, k, offsets + [|result|], result + more, added)
  {
    var offsets', result' := offsets + [|result|], result + more;
    forall f | 0 <= f < |offsets'| ensures RightFilter(hash, k, KeysIn(added, f), Filter(offsets', result', f)) {
      if f < |offsets| {
        assert Filter(offsets', result', f) == Filter(offsets, result, f);
      } else {
        assert Filter(offsets', result', f) == more;
      }
    }
  }

  lemma ExactStays(hash: Hash, k: nat, offsets: seq<nat>, result: Bytes, added: seq<Added>, a: Added)
    requires Exact(hash, k, offsets, result, added) && a.block / FILTER_BASE >= |offsets|
    ensures Exact(hash, k, offsets, result, added + [a])
  {
    forall f | 0 <= f < |offsets| ensures KeysIn(added + [a], f) == KeysIn(added, f) { OneMoreAdded(added, a, f); }
  }

  /** More than the filters of `n` keys take together. */
  function FiltersBound(n: nat, bitsPerKey: nat): nat {
    n * (bitsPerKey + 10)
  }

  lemma OneMoreFilter(done: nat, n: nat, bitsPerKey: nat)
    requires n > 0
    ensures FiltersBound(done, bitsPerKey) + FilterSize(n, bitsPerKey) <= FiltersBound(done + n, bitsPerKey)
  {
    var w := bitsPerKey + 10;
    assert (done + n) * w == done * w + n * w;
    assert n * w == n * bitsPerKey + 10 * n;
  }

  class FilterBlockBuilder {
    const hash: Hash
    const bitsPerKey: nat
    const probes: nat
    var keys: seq<Bytes>           // keys_ and start_: the keys of the filter being collected
    var result: Bytes
    var filterOffsets: seq<nat>
    ghost var added: seq<Added>
    ghost var block: nat           // the offset last given to StartBlock

    ghost predicate Ok()
      reads this
    {
      && 1 <= probes <= 30 && Exact(hash, probes, filterOffsets, result, added)
      && |keys| <= |added| && |result| <= FiltersBound(|added| - |keys|, bitsPerKey)
      && UserParts(keys) == KeysIn(added, |filterOffsets|)
    }

    constructor (hash: Hash, bitsPerKey: nat, probes: nat)
      requires 1 <= probes <= 30
      ensures Ok() && added == [] && block == 0 && filterOffsets == [] && this.hash == hash
        && this.bitsPerKey == bitsPerKey && this.probes == probes
    {
      this.hash, this.bitsPerKey, this.probes := hash, bitsPerKey, probes;
      keys, result, filterOffsets, added, block := [], [], [], [], 0;
    }

    method GenerateFilter()
      requires Ok() && RangesUpTo(added, |filterOffsets|)
      modifies this
      ensures Ok() && |filterOffsets| == |old(filterOffsets)| + 1 && keys == [] && added == old(added)
        && block == old(block)
    {
      ghost var offsets, before := filterOffsets, result;
      NoKeysPast(added, |filterOffsets|, |filterOffsets| + 1);
      if keys == [] {
        filterOffsets := filterOffsets + [|result|];
        FilterAtEnd(hash, probes, offsets, before, [], added);
        assert result == before + [];
        return;
      }
      filterOffsets := filterOffsets + [|result|];
      OneMoreFilter(|added| - |keys|, |keys|, bitsPerKey);
      result := CreateFilter(hash, bitsPerKey, probes, UserParts(keys), result);
      assert result == before + result[|before|..];
      FilterAtEnd(hash, probes, offsets, before, result[|before|..], added);
      keys := [];
    }

    method StartBlock(blockOffset: nat)
      requires Ok() && |filterOffsets| <= blockOffset / FILTER_BASE && RangesUpTo(added, |filterOffsets|)
      modifies this
      ensures Ok() && block == blockOffset && |filterOffsets| == blockOffset / FILTER_BASE && added == old(added)
    {
      block := blockOffset;
      var filterIndex := blockOffset / FILTER_BASE;
      while filterIndex > |filterOffsets|
        invariant Ok() && |filterOffsets| <= filterIndex && block == blockOffset && added == old(added)
        invariant RangesUpTo(added, |filterOffsets|)
      {
        GenerateFilter();
      }
    }

    method AddKey(key: Bytes)
      requires Ok() && |filterOffsets| == block / FILTER_BASE
      modifies this
      ensures Ok() && added == old(added) + [Added(block, key)] && block == old(block)
        && filterOffsets == old(filterOffsets)
    {
      ExactStays(hash, probes, filterOffsets, result, added, Added(block, key));
      OneMoreAdded(added, Added(block, key), |filterOffsets|);
      assert UserParts(keys + [key]) == UserParts(keys) + [UserPart(key)];
      keys := keys + [key];
      added := added + [Added(block, key)];
    }

    /** The finished block has the filter of each range, and one for every range a block begins in; None if
        its offsets do not fit 32 bits, where the source truncates them. */
    method Finish() returns (contents: Option<Bytes>)
      requires Ok() && RangesUpTo(added, |filterOffsets|)
      modifies this
      ensures added == old(added) && |result| <= FiltersBound(|added|, bitsPerKey)
      ensures contents.None? <==> |result| >= TWO_32
      ensures contents.Some? ==> IsFilterBlock(filterOffsets, result, contents.value)
      ensures Exact(hash, probes, filterOffsets, result, added)
      ensures |filterOffsets| == |old(filterOffsets)| + if KeysIn(added, |old(filterOffsets)|) == [] then 0 else 1
      ensures RangesUpTo(added, |filterOffsets| - 1)
    {
      assert keys == [] <==> UserParts(keys) == [];
      if keys != [] {
        GenerateFilter();
      } else {
        forall i | 0 <= i < |added| ensures added[i].block / FILTER_BASE <= |filterOffsets| - 1 {
          KeyIsIn(added, i);
        }
      }
      if |result| >= TWO_32 { return None; }
      var offsets := AppendOffsets(result, filterOffsets);
      contents := Some(offsets + EncodeFixed32(|result|) + [FILTER_BASE_LG]);
    }
  }

  function UserParts(keys: seq<Bytes>): (r: seq<Bytes>)
    ensures |r| == |keys| && forall i :: 0 <= i < |r| ==> r[i] == UserPart(keys[i])
  {
    seq(|keys|, i requires 0 <= i < |keys| => UserPart(keys[i]))
  }

  method AppendOffsets(result: Bytes, offsets: seq<Uint32>) returns (r: Bytes)
    ensures r == result + FixedArray(offsets, |offsets|)
  {
    r := result;
    for i := 0 to |offsets|
      invariant r == result + FixedArray(offsets, i)
    {
      r := r + EncodeFixed32(offsets[i]);
      assert r == result + (FixedArray(offsets, i) + EncodeFixed32(offsets[i]));
    }
  }

  ghost predicate IsFilterBlock(offsets: seq<nat>, result: Bytes, contents: Bytes) {
    && OffsetsOk(offsets, result) && |result| < TWO_32
    && contents == result + FixedArray(offsets, |offsets|) + EncodeFixed32(|result|) + [FILTER_BASE_LG]
  }

  class FilterBlockReader {
    const hash: Hash
    var data: Bytes      // empty if the contents are damaged
    var offset: nat      // where the array of filter offsets begins
    var num: nat
    var baseLg: nat

    predicate InRange()
      reads this
    {
      num > 0 ==> offset + 4 * num + 4 <= |data|
    }

    ghost predicate Reads(offsets: seq<nat>, result: Bytes)
      reads this
    {
      IsFilterBlock(offsets, result, data) && offset == |result| && num == |offsets| && baseLg == FILTER_BASE_LG
    }

    constructor (hash: Hash, contents: Bytes, ghost offsets: seq<nat>, ghost result: Bytes)
      ensures this.hash == hash && InRange()
      ensures IsFilterBlock(offsets, result, contents) ==> Reads(offsets, result)
    {
      this.hash := hash;
      data, offset, num, baseLg := [], 0, 0, 0;
      new;
      var n := |contents|;
      if IsFilterBlock(offsets, result, contents) {
        assert contents[n - 5..][..4] == EncodeFixed32(|result|);
        FixedRoundTrip(|result|, contents[n - 5..]);
      }
      if n >= 5 {
        baseLg := contents[n - 1];
        var lastWord := DecodeFixed32(contents[n - 5..]);
        if lastWord <= n - 5 {
          data, offset, num := contents, lastWord, (n - 5 - lastWord) / 4;
        }
      }
    }

    method Bounds(index: nat, ghost offsets: seq<nat>, ghost result: Bytes) returns (start: nat, limit: nat)
      requires InRange() && index < num
      ensures Reads(offsets, result) ==> start == offsets[index] && limit == FilterEnd(offsets, result, index)
    {
      if Reads(offsets, result) { OffsetsInBlock(offsets, result, data, index); }
      start := DecodeFixed32(data[offset + index * 4..]);
      limit := DecodeFixed32(data[offset + index * 4 + 4..]);
    }

    /** The filter of the range decides; a block past all filters may have any key. */
    method KeyMayMatch(blockOffset: nat, key: Bytes, ghost offsets: seq<nat>, ghost result: Bytes) returns (r: bool)
      requires InRange()
      ensures Reads(offsets, result) ==> (r <==> LetsThrough(hash, offsets, result, blockOffset, key))
    {
      var index := FilterIndex(blockOffset, baseLg);
      if index >= num { return true; }
      var start, limit := Bounds(index, offsets, result);
      if start <= limit && limit <= offset && offset <= |data| {
        if Reads(offsets, result) { SliceOfFilter(offsets, result, data, start, limit); }
        r := Bloom.KeyMayMatch(hash, UserPart(key), data[start..limit]);
      } else {
        r := start != limit;
      }
    }
  }

  lemma BaseIsPower()
    ensures Power2(FILTER_BASE_LG) == FILTER_BASE
  {
    assert Power2(4) == 16 && Power2(8) == 256;
  }

  method FilterIndex(blockOffset: nat, baseLg: nat) returns (index: nat)
    ensures baseLg == FILTER_BASE_LG ==> index == blockOffset / FILTER_BASE
  {
    BaseIsPower();
    var base := Power2(baseLg);
    index := blockOffset / base;
  }

  lemma SliceOfFilter(offsets: seq<nat>, result: Bytes, data: Bytes, start: nat, limit: nat)
    requires IsFilterBlock(offsets, result, data) && start <= limit <= |result|
    ensures data[start..limit] == result[start..limit]
  {
  }

  /** The array gives where a filter begins and, with the word after the array, where it ends. */
  lemma OffsetsInBlock(offsets: seq<nat>, result: Bytes, data: Bytes, f: nat)
    requires IsFilterBlock(offsets, result, data) && f < |offsets|
    ensures var at := |result| + 4 * f;
      && at + 8 <= |data| && DecodeFixed32(data[at..]) == offsets[f]
      && DecodeFixed32(data[at + 4..]) == FilterEnd(offsets, result, f)
  {
    var words := FixedArray(offsets, |offsets|);
    var at := |result| + 4 * f;
    WordAt(offsets, result, data, f);
    if f + 1 < |offsets| {
      WordAt(offsets, result, data, f + 1);
    } else {
      assert data[at + 4..][..4] == EncodeFixed32(|result|);
      FixedRoundTrip(|result|, data[at + 4..]);
    }
  }

  lemma WordAt(offsets: seq<Uint32>, result: Bytes, data: Bytes, f: nat)
    requires IsFilterBlock(offsets, result, data) && f < |offsets|
    ensures |result| + 4 * f + 4 <= |data| && DecodeFixed32(data[|result| + 4 * f..]) == offsets[f]
  {
    var words, at := FixedArray(offsets, |offsets|), |result| + 4 * f;
    FixedInArray(offsets, f, |offsets|);
    assert data == result + words + (EncodeFixed32(|result|) + [FILTER_BASE_LG]);
    MiddlePart(data, result, words, EncodeFixed32(|result|) + [FILTER_BASE_LG], 4 * f, 4 * f + 4);
    SliceOfSlice(data, at, |data|, 0, 4);
    FixedRoundTrip(offsets[f], data[at..]);
  }
}
