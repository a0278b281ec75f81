/** Iterating over a table block (table/block.cc).  The iterator works on any bytes;
    on a block the builder made it is a cursor over the entries added. */
module BlockIters {
  import opened InternalKeys
  import opened ReadSpec
  import opened Coding
  import opened BlockFormat

  type KeyOrder = (Bytes, Bytes) -> bool

  ghost predicate StrictOrder(less: KeyOrder) {
    && (forall a :: !less(a, a))
    && (forall a, b, c :: less(a, b) && less(b, c) ==> less(a, c))
  }

  ghost predicate Ascending(less: KeyOrder, entries: seq<KeyValue>) {
    forall i, j :: 0 <= i < j < |entries| ==> less(entries[i].key, entries[j].key)
  }

  /** The first entry at or after `target`. */
  ghost predicate IsSeekPosition(less: KeyOrder, entries: seq<KeyValue>, target: Bytes, pos: nat) {
    && pos <= |entries|
    && (forall i :: 0 <= i < pos ==> less(entries[i].key, target))
    && (forall i :: pos <= i < |entries| ==> !less(entries[i].key, target))
  }

  /** Reading can go on at entry `i`: the key at hand holds the bytes that entry shares. */
  ghost predicate Poised(l: Layout, i: nat, at: nat, key: Bytes, restart: nat) {
    && WellFormed(l) && i <= |l.entries| && at == Offset(l, i) && restart < |l.starts|
    && (i < |l.entries| ==>
        && l.starts[restart] <= i && l.shared[i] <= |key| && l.shared[i] <= |l.entries[i].key|
        && key[..l.shared[i]] == l.entries[i].key[..l.shared[i]])
  }

  /** Entry `i` has been read: its key, and where in the block its value lies. */
  ghost predicate Stands(l: Layout, data: Bytes, i: nat, at: nat, key: Bytes, valueAt: nat, valueLength: nat) {
    && WellFormed(l) && i < |l.entries| && at == Offset(l, i) && key == l.entries[i].key
    && valueAt + valueLength == Offset(l, i + 1) <= |data| && data[valueAt..valueAt + valueLength] == l.entries[i].value
  }

  /** `d` tells the lengths of entry `i` at offset `at`, and its bytes are where it says. */
  ghost predicate Locates(l: Layout, data: Bytes, i: nat, at: nat, d: Decoded)
    requires WellFormed(l) && i < |l.entries|
  {
    var e, n, p := l.entries[i], |l.entries[i].key| - l.shared[i], at + d.header;
    && d.shared == l.shared[i] && d.nonShared == n && d.valueLength == |e.value|
    && p + n + |e.value| == Offset(l, i + 1) <= |data|
    && data[p..p + n] == e.key[l.shared[i]..] && data[p + n..p + n + |e.value|] == e.value
  }

  lemma LocatesEntry(l: Layout, rs: seq<Uint32>, data: Bytes, i: nat, at: nat, next: nat, s: Bytes, d: Option<Decoded>)
    requires IsBlock(l, rs, data) && i < |l.entries| && at == Offset(l, i) && next == Offset(l, i + 1)
      && d == DecodeEntry(s)
    requires at <= Offset(l, |l.entries|) <= |data| && s == data[at..Offset(l, |l.entries|)]
    ensures d.Some? && Locates(l, data, i, at, d.value)
  {
    var n, v := |l.entries[i].key| - l.shared[i], |l.entries[i].value|;
    DecodeAt(l, rs, data, i, s, n, v, at, next);
    assert d == Some(Decoded(l.shared[i], n, v, next - v - n - at));
  }

  /** Having read entry `i`, the iterator can go on at the next. */
  lemma PoisedAfter(l: Layout, i: nat, restart: nat)
    requires WellFormed(l) && i < |l.entries| && restart < |l.starts| && l.starts[restart] <= i
    ensures Poised(l, i + 1, Offset(l, i + 1), l.entries[i].key, restart)
  {
  }

  lemma KeyRebuilt(last: Bytes, key: Bytes, shared: nat)
    requires shared <= |last| && shared <= |key| && last[..shared] == key[..shared]
    ensures last[..shared] + key[shared..] == key
  {
  }

  lemma PoisedAtRestart(l: Layout, j: nat)
    requires WellFormed(l) && j < |l.starts|
    ensures Poised(l, l.starts[j], Offset(l, l.starts[j]), [], j)
  {
  }

  lemma LessCarries(less: KeyOrder, entries: seq<KeyValue>, target: Bytes, i: nat, j: nat)
    requires StrictOrder(less) && Ascending(less, entries) && i <= j < |entries|
    ensures less(entries[j].key, target) ==> less(entries[i].key, target)
  {
    assert i < j ==> less(entries[i].key, entries[j].key);
  }

  lemma SeekFound(less: KeyOrder, entries: seq<KeyValue>, target: Bytes, pos: nat)
    requires StrictOrder(less) && Ascending(less, entries) && pos <= |entries|
    requires pos > 0 ==> less(entries[pos - 1].key, target)
    requires pos < |entries| ==> !less(entries[pos].key, target)
    ensures IsSeekPosition(less, entries, target, pos)
  {
    forall i | 0 <= i < pos ensures less(entries[i].key, target) {
      assert i < pos - 1 ==> less(entries[i].key, entries[pos - 1].key);
    }
    forall i | pos <= i < |entries| ensures !less(entries[i].key, target) {
      LessCarries(less, entries, target, pos, i);
    }
  }

  class BlockIter {
    const less: KeyOrder
    const data: Bytes
    const restarts: nat      // where the restart array begins
    const numRestarts: nat
    var current: nat         // offset of the current entry, `restarts` if there is none
    var restartIndex: nat
    var key: Bytes
    var valueAt: nat
    var valueLength: nat
    var corrupt: bool
    ghost const layout: Layout
    ghost const offsets: seq<Uint32>
    ghost var pos: nat

    ghost predicate Built() {
      && IsBlock(layout, offsets, data) && restarts == Offset(layout, |layout.entries|) && numRestarts == |offsets|
    }

    ghost predicate Shape()
      reads this
    {
      numRestarts > 0 && restarts + 4 * numRestarts + 4 == |data| &&
        (current < restarts ==> restartIndex < numRestarts) && current <= restarts
    }

    ghost predicate AtEntry()
      reads this
    {
      && Stands(layout, data, pos, current, key, valueAt, valueLength)
      && restartIndex < |layout.starts| && layout.starts[restartIndex] <= pos && !corrupt
    }

    /** On a block the builder made, `pos` is the entry the iterator stands at. */
    ghost predicate Ok()
      reads this
    {
      Shape() && (Valid() ==> current + 3 <= NextEntryOffset() <= restarts) &&
        (Built() ==> if Valid() then AtEntry() else pos == |layout.entries| && !corrupt)
    }

    constructor (less: KeyOrder, data: Bytes, restarts: nat, numRestarts: nat, ghost layout: Layout,
                 ghost offsets: seq<Uint32>)
      requires numRestarts > 0 && restarts + 4 * numRestarts + 4 == |data|
      ensures Ok() && !Valid() && this.less == less && this.data == data && this.restarts == restarts
        && this.numRestarts == numRestarts
      ensures this.layout == layout && this.offsets == offsets
    {
      this.less, this.data, this.restarts, this.numRestarts := less, data, restarts, numRestarts;
      this.layout, this.offsets := layout, offsets;
      current, restartIndex, key, valueAt, valueLength, corrupt := restarts, numRestarts, [], 0, 0, false;
      pos := |layout.entries|;
    }

    predicate Valid()
      reads this
    {
      current < restarts
    }

    function NextEntryOffset(): nat
      reads this
    {
      valueAt + valueLength
    }

    function GetRestartPoint(index: nat): Uint32
      requires index < numRestarts && restarts + 4 * numRestarts <= |data|
    {
      DecodeFixed32(data[restarts + 4 * index..])
    }

    lemma RestartPoint(index: nat)
      requires index < numRestarts && restarts + 4 * numRestarts <= |data| && Built()
      ensures GetRestartPoint(index) == Offset(layout, layout.starts[index])
    {
      RestartAt(layout, offsets, data, index);
    }

    method SeekToRestartPoint(index: nat)
      requires Shape() && index < numRestarts
      modifies this
      ensures NextEntryOffset() == GetRestartPoint(index) && restartIndex == index && key == []
        && current == old(current) && corrupt == old(corrupt)
      ensures Built() ==> Poised(layout, layout.starts[index], NextEntryOffset(), key, restartIndex)
    {
      key := [];
      restartIndex := index;
      valueAt, valueLength := GetRestartPoint(index), 0;
      if Built() {
        RestartPoint(index);
        PoisedAtRestart(layout, index);
      }
    }

    method CorruptionError()
      modifies this
      ensures current == restarts && restartIndex == numRestarts && corrupt && pos == old(pos)
    {
      current, restartIndex, corrupt := restarts, numRestarts, true;
      key, valueAt, valueLength := [], 0, 0;
    }

    /** Reads the entry at the end of the last one; on a built block, entry `i`. */
    method ParseNextKey(ghost i: nat) returns (ok: bool)
      requires Shape() && restartIndex < numRestarts
      modifies this
      ensures Shape() && ok == Valid()
      ensures ok ==> current + 3 <= NextEntryOffset() <= restarts && current == old(NextEntryOffset())
      ensures Built() && old(!corrupt && Poised(layout, i, NextEntryOffset(), key, restartIndex)) ==> Ok() && pos == i
    {
      if Built() && Poised(layout, i, NextEntryOffset(), key, restartIndex) {
        OffsetsAscend(layout, i, |layout.entries|);
      }
      current := NextEntryOffset();
      if current >= restarts {
        current := restarts;
        restartIndex := numRestarts;
        pos := i;
        return false;
      }
      ok := ReadEntry(i);
      if ok { AdvanceRestart(i); }
      pos := i;
    }

    /** Decodes the entry at `current` into the key and the value; false if it is damaged. */
    method ReadEntry(ghost i: nat) returns (ok: bool)
      requires Shape() && Valid() && restartIndex < numRestarts
      modifies this
      ensures Shape() && ok == Valid()
      ensures ok ==>
          current + 3 <= NextEntryOffset() <= restarts && current == old(current) && restartIndex == old(restartIndex)
      ensures Built() && i < |layout.entries| && old(!corrupt && Poised(layout, i, current, key, restartIndex)) ==>
        ok && !corrupt && Stands(layout, data, i, current, key, valueAt, valueLength)
    {
      var d := DecodeFrom(current, i);
      ParsedIfPoised(i, current, d, key, restartIndex);
      if d.None? || |key| < d.value.shared {
        CorruptionError();
        return false;
      }
      var p := current + d.value.header;
      key := key[..d.value.shared] + data[p..p + d.value.nonShared];
      valueAt, valueLength := p + d.value.nonShared, d.value.valueLength;
      ok := true;
    }

    method DecodeFrom(at: nat, ghost i: nat) returns (d: Option<Decoded>)
      requires at <= restarts <= |data|
      ensures d.Some? ==>
        3 <= d.value.header && at + d.value.header + d.value.nonShared + d.value.valueLength <= restarts
      ensures Built() && i < |layout.entries| && at == Offset(layout, i) ==>
        d.Some? && Locates(layout, data, i, at, d.value)
    {
      var s := data[at..restarts];
      d := DecodeEntry(s);
      if Built() && i < |layout.entries| && at == Offset(layout, i) { DecodeLocates(i, at, s, d); }
    }

    lemma DecodeLocates(i: nat, at: nat, s: Bytes, d: Option<Decoded>)
      requires Built() && i < |layout.entries| && at == Offset(layout, i) <= restarts <= |data|
        && s == data[at..restarts] && d == DecodeEntry(s)
      ensures d.Some? && Locates(layout, data, i, at, d.value)
    {
      LocatesEntry(layout, offsets, data, i, at, Offset(layout, i + 1), s, d);
    }

    lemma ParsedStands(i: nat, at: nat, d: Decoded, key: Bytes)
      requires WellFormed(layout) && i < |layout.entries| && at == Offset(layout, i) && Locates(layout, data, i, at, d)
      requires layout.shared[i] <= |key| && key[..layout.shared[i]] == layout.entries[i].key[..layout.shared[i]]
      ensures d.shared <= |key|
      ensures var p := at + d.header;
        Stands(layout, data, i, at, key[..d.shared] + data[p..p + d.nonShared], p + d.nonShared, d.valueLength)
    {
      KeyRebuilt(key, layout.entries[i].key, d.shared);
    }

    lemma ParsedIfPoised(i: nat, at: nat, d: Option<Decoded>, key: Bytes, restart: nat)
      requires d.Some? ==> at + d.value.header + d.value.nonShared <= |data|
      requires Built() && i < |layout.entries| && at == Offset(layout, i) ==>
        d.Some? && Locates(layout, data, i, at, d.value)
      ensures Built() && i < |layout.entries| && Poised(layout, i, at, key, restart) ==>
        d.Some? && d.value.shared <= |key| && var p := at + d.value.header;
        Stands(layout, data, i, at, key[..d.value.shared] + data[p..p + d.value.nonShared], p + d.value.nonShared,
          d.value.valueLength)
    {
      if Built() && i < |layout.entries| && Poised(layout, i, at, key, restart) { ParsedStands(i, at, d.value, key); }
    }

    lemma RestartBefore(j: nat, i: nat)
      requires restarts + 4 * numRestarts + 4 == |data| && Built() && j < numRestarts && i < |layout.entries|
      requires GetRestartPoint(j) < Offset(layout, i)
      ensures layout.starts[j] <= i
    {
      RestartPoint(j);
      if i < layout.starts[j] { OffsetsAscend(layout, i, layout.starts[j]); }
    }

    method AdvanceRestart(ghost i: nat)
      requires restarts + 4 * numRestarts + 4 == |data| && restartIndex < numRestarts
      modifies this`restartIndex
      ensures restartIndex < numRestarts
      ensures (Built() && i < |layout.entries| && current == Offset(layout, i)
               && old(layout.starts[restartIndex]) <= i) ==> layout.starts[restartIndex] <= i
    {
      while restartIndex + 1 < numRestarts && GetRestartPoint(restartIndex + 1) < current
        invariant restartIndex < numRestarts
        invariant (Built() && i < |layout.entries| && current == Offset(layout, i)
                   && old(layout.starts[restartIndex]) <= i) ==> layout.starts[restartIndex] <= i
        decreases numRestarts - restartIndex
      {
        if Built() && i < |layout.entries| && current == Offset(layout, i) { RestartBefore(restartIndex + 1, i); }
        restartIndex := restartIndex + 1;
      }
    }

    function Value(): Bytes
      requires Ok() && Valid()
      reads this
    {
      data[valueAt..valueAt + valueLength]
    }

    method Next()
      requires Ok() && Valid()
      modifies this
      ensures Ok() && (Valid() ==> current > old(current)) && (Built() ==> pos == old(pos) + 1)
    {
      if Built() { PoisedAfter(layout, pos, restartIndex); }
      var _ := ParseNextKey(pos + 1);
    }

    /** Backs up to a restart point before the current entry; false if there is none. */
    method BackUp(original: nat) returns (found: bool)
      requires Ok() && Valid() && original == current
      modifies this`restartIndex
      ensures restartIndex < numRestarts
      ensures found ==> GetRestartPoint(restartIndex) < original
      ensures Built() ==> found == (pos > 0)
    {
      while GetRestartPoint(restartIndex) >= original
        invariant restartIndex < numRestarts
        decreases restartIndex
      {
        if restartIndex == 0 {
          if Built() { RestartPoint(0); OffsetsAscend(layout, 0, pos); }
          return false;
        }
        restartIndex := restartIndex - 1;
      }
      found := true;
      if Built() { assert Offset(layout, 0) == 0; }
    }

    method Prev()
      requires Ok() && Valid()
      modifies this
      ensures Ok() && (Built() ==> pos == if old(pos) == 0 then |layout.entries| else old(pos) - 1)
    {
      var original := current;
      ghost var p := pos;
      var found := BackUp(original);
      if !found {
        current := restarts;
        restartIndex := numRestarts;
        pos := |layout.entries|;
        return;
      }
      SeekToRestartPoint(restartIndex);
      ghost var i: nat := if Built() then layout.starts[restartIndex] else 0;
      if Built() { RestartPoint(restartIndex); if p <= i { OffsetsAscend(layout, p, i); } }
      ScanTo(original, i, p);
    }

    /** Reads on until the next entry would be the one at `original`. */
    method ScanTo(original: nat, ghost first: nat, ghost p: nat)
      requires Shape() && restartIndex < numRestarts && NextEntryOffset() < original
      requires Built() ==>
        first < p <= |layout.entries| && original == Offset(layout, p) && !corrupt &&
          Poised(layout, first, NextEntryOffset(), key, restartIndex)
      modifies this
      ensures Ok() && (Built() ==> pos + 1 == p)
    {
      ghost var i: nat := first;
      while true
        invariant Shape() && restartIndex < numRestarts && NextEntryOffset() < original
        invariant Built() ==>
          i < p <= |layout.entries| && original == Offset(layout, p) && !corrupt &&
            Poised(layout, i, NextEntryOffset(), key, restartIndex)
        decreases original - NextEntryOffset()
      {
        var ok := ParseNextKey(i);
        if Built() { StopsBefore(i, p, original); }
        if !ok || NextEntryOffset() >= original { break; }
        if Built() { PoisedAfter(layout, i, restartIndex); }
        i := i + 1;
      }
    }

    /** Scanning towards entry `p` stops at the entry before it. */
    lemma StopsBefore(i: nat, p: nat, original: nat)
      requires Built() && Ok() && pos == i < p <= |layout.entries| && original == Offset(layout, p)
      ensures Valid() && (NextEntryOffset() >= original <==> i + 1 == p)
    {
      OffsetsAscend(layout, i + 1, p);
    }

    method SeekToFirst()
      requires Ok()
      modifies this
      ensures Ok() && (Built() ==> pos == 0)
    {
      SeekToRestartPoint(0);
      var _ := ParseNextKey(0);
    }

    method SeekToLast()
      requires Ok()
      modifies this
      ensures Ok() && (Built() ==> pos == if layout.entries == [] then 0 else |layout.entries| - 1)
    {
      SeekToRestartPoint(numRestarts - 1);
      ghost var i: nat := if Built() then layout.starts[numRestarts - 1] else 0;
      while true
        invariant Shape() && restartIndex < numRestarts
        invariant Built() ==>
          (i < |layout.entries| || layout.entries == []) && !corrupt &&
            Poised(layout, i, NextEntryOffset(), key, restartIndex)
        decreases restarts - NextEntryOffset()
      {
        var ok := ParseNextKey(i);
        if Built() && layout.entries != [] { StopsBefore(i, |layout.entries|, restarts); }
        if !ok || NextEntryOffset() >= restarts { break; }
        if Built() { PoisedAfter(layout, i, restartIndex); }
        i := i + 1;
      }
    }

    /** The key at restart point `mid`, read without moving the iterator; None if it is damaged. */
    method RestartKey(mid: nat) returns (k: Option<Bytes>)
      requires Shape() && mid < numRestarts
      ensures Built() && layout.entries != [] ==> k == Some(layout.entries[layout.starts[mid]].key)
    {
      var regionOffset := GetRestartPoint(mid);
      if Built() && layout.entries != [] {
        RestartPoint(mid);
        OffsetsAscend(layout, layout.starts[mid], |layout.entries|);
      }
      if regionOffset > restarts { return None; }
      var d := DecodeFrom(regionOffset, if Built() then layout.starts[mid] else 0);
      if d.None? || d.value.shared != 0 { return None; }
      var p := regionOffset + d.value.header;
      k := Some(data[p..p + d.value.nonShared]);
    }

    /** No restart point after `j` has a key below `target`. */
    ghost predicate NoneBelow(j: nat, target: Bytes)
      requires Built()
      reads this
    {
      forall k :: j < k < |layout.starts| ==>
        layout.entries != [] && !less(layout.entries[layout.starts[k]].key, target)
    }

    lemma NoneBelowFrom(mid: nat, target: Bytes)
      requires Built() && StrictOrder(less) && Ascending(less, layout.entries)
      requires 0 < mid < |layout.starts| && layout.entries != []
      requires !less(layout.entries[layout.starts[mid]].key, target)
      ensures NoneBelow(mid - 1, target)
    {
      forall k | mid < k < |layout.starts| ensures !less(layout.entries[layout.starts[k]].key, target) {
        assert layout.starts[mid] < layout.starts[k];
      }
    }

    /** Binary search for the last restart point with a key below `target`; None on a damaged one. */
    method SearchRestarts(target: Bytes) returns (r: Option<nat>)
      requires Shape()
      ensures r.Some? ==> r.value < numRestarts
      ensures Built() ==>
        r.Some? && (r.value > 0 ==> layout.entries != [] && less(layout.entries[layout.starts[r.value]].key, target))
      ensures Built() && StrictOrder(less) && Ascending(less, layout.entries) ==> NoneBelow(r.value, target)
    {
      var left: nat, right: nat := 0, numRestarts - 1;
      while left < right
        invariant left <= right < numRestarts
        invariant Built() && left > 0 ==> layout.entries != [] && less(layout.entries[layout.starts[left]].key, target)
        invariant Built() && StrictOrder(less) && Ascending(less, layout.entries) ==> NoneBelow(right, target)
      {
        var mid := (left + right + 1) / 2;
        if Built() { assert layout.starts[0] < layout.starts[mid]; }
        var k := RestartKey(mid);
        if k.None? { return None; }
        if less(k.value, target) {
          left := mid;
        } else {
          if Built() && StrictOrder(less) && Ascending(less, layout.entries) { NoneBelowFrom(mid, target); }
          right := mid - 1;
        }
      }
      r := Some(left);
    }

    method Seek(target: Bytes)
      requires Ok()
      modifies this
      ensures Ok() && (Built() && StrictOrder(less) && Ascending(less, layout.entries) ==>
          IsSeekPosition(less, layout.entries, target, pos))
    {
      var left := SearchRestarts(target);
      if left.None? {
        CorruptionError();
        return;
      }
      SeekToRestartPoint(left.value);
      ghost var ordered := Built() && StrictOrder(less) && Ascending(less, layout.entries);
      if ordered { BelowRestart(left.value, target); }
      Scan(target, if Built() then layout.starts[left.value] else 0);
      if ordered { SeekFound(less, layout.entries, target, pos); }
    }

    /** Reads on from entry `i` to the first at or after `target`. */
    method Scan(target: Bytes, ghost start: nat)
      requires Shape() && restartIndex < numRestarts
      requires Built() ==> !corrupt && Poised(layout, start, NextEntryOffset(), key, restartIndex)
      modifies this
      ensures Ok()
      ensures Built() && (0 < start <= |layout.entries| ==> less(layout.entries[start - 1].key, target)) ==>
        Brackets(target)
    {
      ghost var i: nat := start;
      ghost var below := Built() && (0 < start <= |layout.entries| ==> less(layout.entries[start - 1].key, target));
      while true
        invariant Shape() && restartIndex < numRestarts
        invariant Built() ==> !corrupt && Poised(layout, i, NextEntryOffset(), key, restartIndex)
        invariant below && 0 < i <= |layout.entries| ==> less(layout.entries[i - 1].key, target)
        decreases restarts - NextEntryOffset()
      {
        var ok := ParseNextKey(i);
        if !ok || !less(key, target) { break; }
        if Built() { PoisedAfter(layout, i, restartIndex); }
        i := i + 1;
      }
    }

    /** The target lies between the entry before `pos` and the one at it. */
    ghost predicate Brackets(target: Bytes)
      reads this
    {
      && pos <= |layout.entries|
      && (pos > 0 ==> less(layout.entries[pos - 1].key, target))
      && (pos < |layout.entries| ==> !less(layout.entries[pos].key, target))
    }

    lemma BelowRestart(j: nat, target: Bytes)
      requires Built() && StrictOrder(less) && Ascending(less, layout.entries) && j < numRestarts
      requires j > 0 ==> layout.entries != [] && less(layout.entries[layout.starts[j]].key, target)
      ensures 0 < layout.starts[j] ==>
        layout.starts[j] <= |layout.entries| && less(layout.entries[layout.starts[j] - 1].key, target)
    {
      if j > 0 {
        var i := layout.starts[j];
        assert layout.starts[0] < i;
        assert less(layout.entries[i - 1].key, layout.entries[i].key);
      }
    }
  }

  /** Block's constructor and NewIterator: None for contents too short for their restart array or
      an empty one, as the source then hands out an iterator with nothing in it. */
  method NewIterator(less: KeyOrder, data: Bytes, ghost layout: Layout, ghost offsets: seq<Uint32>)
    returns (iter: Option<BlockIter>)
    ensures iter.Some? ==>
      fresh(iter.value) && iter.value.Ok() && !iter.value.Valid() && iter.value.data == data && iter.value.less == less
    ensures iter.Some? ==> iter.value.layout == layout && iter.value.offsets == offsets
    ensures IsBlock(layout, offsets, data) ==> iter.Some? && iter.value.Built()
  {
    if |data| < 4 { return None; }
    var numRestarts := DecodeFixed32(data[|data| - 4..]);
    if IsBlock(layout, offsets, data) {
      assert data[|data| - 4..][..4] == EncodeFixed32(|offsets|);
      FixedRoundTrip(|offsets|, data[|data| - 4..]);
    }
    var maxRestartsAllowed := (|data| - 4) / 4;
    if numRestarts > maxRestartsAllowed || numRestarts == 0 { return None; }
    var it := new BlockIter(less, data, |data| - (1 + numRestarts) * 4, numRestarts, layout, offsets);
    iter := Some(it);
  }
}
