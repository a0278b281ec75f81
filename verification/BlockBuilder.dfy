/** Building a table block (table/block_builder.cc). */
module BlockBuilders {
  import opened InternalKeys
  import opened ReadSpec
  import opened Coding
  import opened BlockFormat

  /** The layout grown by one entry, at a new restart point if `restart`. */
  ghost function Grown(l: Layout, e: KeyValue, shared: nat, restart: bool): Layout {
    Layout(l.entries + [e], l.shared + [shared], if restart then l.starts + [|l.entries|] else l.starts)
  }

  /** The length of the longest common prefix. */
  function CommonLength(a: Bytes, b: Bytes): (n: nat)
    ensures n <= |a| && n <= |b| && a[..n] == b[..n]
    ensures n < |a| && n < |b| ==> a[n] != b[n]
  {
    if a == [] || b == [] || a[0] != b[0] then 0 else 1 + CommonLength(a[1..], b[1..])
  }

  function LastKey(entries: seq<KeyValue>): Bytes {
    if entries == [] then [] else entries[|entries| - 1].key
  }

  /** How a builder lays entries out: a restart point once `interval` entries follow the last, and otherwise
      each key shares all it can with the one before. */
  ghost function LayoutOf(entries: seq<KeyValue>, interval: nat): (l: Layout)
    ensures l.entries == entries && |l.shared| == |entries| && l.starts != []
    ensures l.starts[|l.starts| - 1] <= |entries|
  {
    if entries == [] then Layout([], [], [0])
    else NextLayout(LayoutOf(entries[..|entries| - 1], interval), entries[|entries| - 1], interval)
  }

  ghost function NextLayout(l: Layout, e: KeyValue, interval: nat): Layout
    requires l.starts != []
  {
    var restart := |l.entries| - l.starts[|l.starts| - 1] >= interval;
    Grown(l, e, if restart then 0 else CommonLength(LastKey(l.entries), e.key), restart)
  }

  lemma {:induction false} RestartsApart(entries: seq<KeyValue>, interval: nat)
    requires interval >= 1
    ensures Apart(LayoutOf(entries, interval).starts, |entries|, interval)
  {
    if entries != [] {
      var init := entries[..|entries| - 1];
      RestartsApart(init, interval);
      NextApart(LayoutOf(init, interval), entries[|init|], interval);
    }
  }

  lemma NextApart(l: Layout, e: KeyValue, interval: nat)
    requires interval >= 1 && Apart(l.starts, |l.entries|, interval)
    ensures Apart(NextLayout(l, e, interval).starts, |l.entries| + 1, interval)
  {
    ApartStep(l.starts, |l.entries|, interval);
  }

  /** The restart points of `n` entries are those at the multiples of `interval`, one at least. */
  ghost predicate Apart(starts: seq<nat>, n: nat, interval: nat) {
    && (forall j :: 0 <= j < |starts| ==> starts[j] == j * interval)
    && n <= |starts| * interval && starts != [] && (|starts| == 1 || (|starts| - 1) * interval < n)
  }

  lemma ApartStep(starts: seq<nat>, n: nat, interval: nat)
    requires interval >= 1 && Apart(starts, n, interval)
    ensures Apart(if n - starts[|starts| - 1] >= interval then starts + [n] else starts, n + 1, interval)
  {
    assert starts[|starts| - 1] == (|starts| - 1) * interval;
    assert (|starts| - 1) * interval + interval == |starts| * interval;
    assert (|starts| + 1) * interval == |starts| * interval + interval;
  }

  /** Any other entry shares the longest prefix its key has in common with the one before. */
  lemma {:induction false} SharesAll(entries: seq<KeyValue>, interval: nat, i: nat)
    requires interval >= 1 && i < |entries|
    ensures var l := LayoutOf(entries, interval);
      l.shared[i] == if i in l.starts then 0 else CommonLength(LastKey(entries[..i]), entries[i].key)
  {
    var n := |entries| - 1;
    var before := LayoutOf(entries[..n], interval);
    StartsAreBefore(entries[..n], interval);
    if i < n {
      SharesAll(entries[..n], interval, i);
      assert entries[..n][..i] == entries[..i];
    }
  }

  lemma {:induction false} StartsAreBefore(entries: seq<KeyValue>, interval: nat)
    requires interval >= 1
    ensures forall s :: s in LayoutOf(entries, interval).starts ==> s < |entries| || (s == 0 && entries == [])
  {
    if entries != [] { StartsAreBefore(entries[..|entries| - 1], interval); }
  }

  /** What an entry may share with the one before it. */
  ghost predicate MayShare(l: Layout, e: KeyValue, shared: nat) {
    && shared <= |e.key| && (l.entries == [] ==> shared == 0)
    && (l.entries != [] ==>
        var last := l.entries[|l.entries| - 1].key; shared <= |last| && e.key[..shared] == last[..shared])
  }

  lemma GrownShares(l: Layout, e: KeyValue, shared: nat)
    requires Shares(l.entries, l.shared) && MayShare(l, e, shared)
    ensures Shares(l.entries + [e], l.shared + [shared])
  {
    var n := |l.entries|;
    assert n > 0 ==> (l.entries + [e])[n - 1] == l.entries[n - 1];
  }

  lemma SecondStart(starts: seq<nat>, sharing: seq<nat>)
    requires Restarts(starts, sharing)
    ensures |starts| > 1 ==> sharing != []
  {
    if |starts| > 1 { assert starts[0] < starts[1]; }
  }

  lemma GrownRestarts(starts: seq<nat>, sharing: seq<nat>, shared: nat, restart: bool)
    requires Restarts(starts, sharing) && (restart ==> sharing != [] && shared == 0) && (sharing == [] ==> shared == 0)
    ensures Restarts(if restart then starts + [|sharing|] else starts, sharing + [shared])
  {
    var grown := if restart then starts + [|sharing|] else starts;
    SecondStart(starts, sharing);
    forall j | 0 <= j < |grown| ensures grown[j] < |sharing| + 1 && (sharing + [shared])[grown[j]] == 0 {
      if j < |starts| { assert grown[j] == starts[j]; }
    }
  }

  lemma GrownData(l: Layout, e: KeyValue, shared: nat, restart: bool)
    requires WellFormed(l) && WellFormed(Grown(l, e, shared, restart)) && shared <= |e.key|
    ensures var g := Grown(l, e, shared, restart);
      && Data(g.entries, g.shared, |g.entries|) == Data(l.entries, l.shared, |l.entries|) + EncodeEntry(e, shared)
      && forall n :: 0 <= n <= |l.entries| ==> Offset(g, n) == Offset(l, n)
  {
    forall n | 0 <= n <= |l.entries|
      ensures Data(l.entries + [e], l.shared + [shared], n) == Data(l.entries, l.shared, n)
    {
      DataOfPrefix(l.entries, l.shared, e, shared, n);
    }
  }

  lemma GrownOffsets(l: Layout, rs: seq<Uint32>, e: KeyValue, shared: nat, restart: bool)
    requires WellFormed(l) && WellFormed(Grown(l, e, shared, restart)) && shared <= |e.key| && AreOffsets(l, rs)
    requires Offset(l, |l.entries|) < TWO_32
    ensures AreOffsets(Grown(l, e, shared, restart), if restart then rs + [Offset(l, |l.entries|)] else rs)
  {
    GrownData(l, e, shared, restart);
    forall j | 0 <= j < |l.starts| ensures l.starts[j] <= |l.entries| {
    }
  }

  /** The builder's fields say what has been added. */
  ghost predicate Holds(l: Layout, buffer: Bytes, restarts: seq<Uint32>, counter: nat, lastKey: Bytes) {
    && WellFormed(l) && AreOffsets(l, restarts)
    && counter == |l.entries| - l.starts[|l.starts| - 1]
    && lastKey == LastKey(l.entries)
    && buffer == Data(l.entries, l.shared, |l.entries|)
  }

  lemma GrownHolds(l: Layout, buffer: Bytes, rs: seq<Uint32>, counter: nat, lastKey: Bytes, e: KeyValue, interval: nat,
                   shared: nat, restart: bool, delta: Bytes, rs': seq<Uint32>, counter': nat) returns (g: Layout)
    requires Holds(l, buffer, rs, counter, lastKey) && |buffer| < TWO_32 && interval >= 1
    requires restart == (counter >= interval) && shared == if restart then 0 else CommonLength(lastKey, e.key)
    requires rs' == (if restart then rs + [|buffer|] else rs) && counter' == (if restart then 1 else counter + 1)
    requires delta == EncodeEntry(e, shared)
    ensures Holds(g, buffer + delta, rs', counter', e.key) && g == NextLayout(l, e, interval)
  {
    g := Grown(l, e, shared, restart);
    GrownWellFormed(l, e, shared, restart);
    GrownData(l, e, shared, restart);
    GrownOffsets(l, rs, e, shared, restart);
    GrownCounter(l, counter, e, shared, restart, counter');
  }

  lemma GrownWellFormed(l: Layout, e: KeyValue, shared: nat, restart: bool)
    requires WellFormed(l) && MayShare(l, e, shared) && (restart ==> l.entries != [] && shared == 0)
    ensures WellFormed(Grown(l, e, shared, restart))
  {
    GrownShares(l, e, shared);
    GrownRestarts(l.starts, l.shared, shared, restart);
  }

  lemma GrownCounter(l: Layout, counter: nat, e: KeyValue, shared: nat, restart: bool, counter': nat)
    requires |l.starts| > 0 && counter == |l.entries| - l.starts[|l.starts| - 1]
    requires counter' == if restart then 1 else counter + 1
    ensures var g := Grown(l, e, shared, restart); counter' == |g.entries| - g.starts[|g.starts| - 1]
  {
  }

  lemma EntrySize(e: KeyValue, shared: nat)
    requires shared <= |e.key|
    ensures |e.key| < TWO_32 && |e.value| < TWO_32 ==> |EncodeEntry(e, shared)| <= |e.key| + |e.value| + 15
  {
    if |e.key| < TWO_32 && |e.value| < TWO_32 {
      Varint32RoundTrip(shared, []);
      Varint32RoundTrip(|e.key| - shared, []);
      Varint32RoundTrip(|e.value|, []);
    }
  }

  method CommonPrefix(a: Bytes, b: Bytes) returns (shared: nat)
    ensures shared == CommonLength(a, b)
  {
    var minLength := if |a| < |b| then |a| else |b|;
    shared := 0;
    while shared < minLength && a[shared] == b[shared]
      invariant shared <= minLength && shared + CommonLength(a[shared..], b[shared..]) == CommonLength(a, b)
    {
      assert a[shared..][1..] == a[shared + 1..] && b[shared..][1..] == b[shared + 1..];
      shared := shared + 1;
    }
  }

  class BlockBuilder {
    const interval: nat
    var buffer: Bytes
    var restarts: seq<Uint32>
    var counter: nat
    var finished: bool
    var lastKey: Bytes
    ghost var layout: Layout

    ghost predicate Ok()
      reads this
    {
      && interval >= 1 && counter <= interval
      && (!finished ==> Holds(layout, buffer, restarts, counter, lastKey))
      && (finished ==> IsBlock(layout, restarts, buffer))
    }

    constructor (interval: nat)
      requires interval >= 1
      ensures Ok() && !finished && layout == LayoutOf([], interval) && this.interval == interval
        && CurrentSizeEstimate() == 8
    {
      this.interval := interval;
      buffer, restarts, counter, finished, lastKey := [], [0], 0, false, [];
      layout := Layout([], [], [0]);
    }

    function CurrentSizeEstimate(): nat
      reads this
    {
      |buffer| + 4 * |restarts| + 4
    }

    /** The bytes of the next entry and the restart array and counter after it. */
    method EncodeNext(key: Bytes, value: Bytes)
      returns (delta: Bytes, restarts': seq<Uint32>, counter': nat, ghost grown: Layout)
      requires interval >= 1 && counter <= interval && Holds(layout, buffer, restarts, counter, lastKey)
        && |buffer| < TWO_32
      ensures Holds(grown, buffer + delta, restarts', counter', key) && counter' <= interval
      ensures grown == NextLayout(layout, KeyValue(key, value), interval)
      ensures |key| < TWO_32 && |value| < TWO_32 ==> |delta| <= |key| + |value| + 15
      ensures |restarts'| <= |restarts| + 1
    {
      var shared, restart := 0, counter >= interval;
      restarts', counter' := restarts, counter;
      if !restart {
        shared := CommonPrefix(lastKey, key);
      } else {
        restarts' := restarts + [|buffer|];
        counter' := 0;
      }
      var nonShared := |key| - shared;
      delta := Varint(shared) + Varint(nonShared) + Varint(|value|) + key[shared..] + value;
      EntrySize(KeyValue(key, value), shared);
      counter' := counter' + 1;
      grown := GrownHolds(layout, buffer, restarts, counter, lastKey, KeyValue(key, value), interval, shared, restart,
                          delta, restarts', counter');
    }

    /** Appends one entry; restart points stay `interval` entries apart. */
    method Add(key: Bytes, value: Bytes)
      requires Ok() && !finished && |buffer| < TWO_32
      modifies this
      ensures Ok() && !finished && layout == NextLayout(old(layout), KeyValue(key, value), interval)
      ensures |key| < TWO_32 && |value| < TWO_32 ==>
        CurrentSizeEstimate() <= old(CurrentSizeEstimate()) + |key| + |value| + 19
    {
      var delta, newRestarts, newCounter;
      ghost var grown;
      delta, newRestarts, newCounter, grown := EncodeNext(key, value);
      buffer := buffer + delta;
      restarts, counter, lastKey, layout := newRestarts, newCounter, key, grown;
    }

    /** The finished block is as long as the estimate said. */
    method Finish() returns (block: Bytes)
      requires Ok() && !finished && CurrentSizeEstimate() < TWO_32
      modifies this
      ensures Ok() && layout == old(layout) && IsBlock(layout, restarts, block) && |block| == old(CurrentSizeEstimate())
    {
      ghost var data, l := buffer, layout;
      for i := 0 to |restarts|
        invariant layout == l && restarts == old(restarts) && counter == old(counter) && finished == old(finished)
        invariant buffer == data + FixedArray(restarts, i)
      {
        buffer := buffer + EncodeFixed32(restarts[i]);
        assert buffer == data + (FixedArray(restarts, i) + EncodeFixed32(restarts[i]));
      }
      buffer := buffer + EncodeFixed32(|restarts|);
      finished := true;
      block := buffer;
    }
  }

  /** An upper bound on the size of a block of these entries. */
  function SizeBound(entries: seq<KeyValue>, n: nat): nat
    requires n <= |entries|
  {
    if n == 0 then 8 else SizeBound(entries, n - 1) + |entries[n - 1].key| + |entries[n - 1].value| + 19
  }

  lemma {:induction false} SizeBoundAscends(entries: seq<KeyValue>, i: nat, n: nat)
    requires i <= n <= |entries|
    ensures SizeBound(entries, i) + (if i < n then |entries[i].key| + |entries[i].value| else 0)
         <= SizeBound(entries, n)
  {
    if i < n { SizeBoundAscends(entries, i, n - 1); }
  }

  ghost predicate Within(size: nat, entries: seq<KeyValue>, n: nat)
    requires n <= |entries|
  {
    SizeBound(entries, |entries|) < TWO_32 ==> size <= SizeBound(entries, n)
  }

  /** The size of the block of `entries`. */
  ghost function BlockSize(entries: seq<KeyValue>, interval: nat): nat
    requires interval >= 1
  {
    LayoutShares(entries, interval);
    var l := LayoutOf(entries, interval);
    Offset(l, |entries|) + 4 * |l.starts| + 4
  }

  lemma {:induction false} LayoutShares(entries: seq<KeyValue>, interval: nat)
    requires interval >= 1
    ensures WellFormed(LayoutOf(entries, interval))
  {
    if entries != [] {
      var n := |entries| - 1;
      LayoutShares(entries[..n], interval);
      NextGrows(LayoutOf(entries[..n], interval), entries[n], interval);
    }
  }

  lemma NextGrows(l: Layout, e: KeyValue, interval: nat)
    requires WellFormed(l) && interval >= 1
    ensures var next := NextLayout(l, e, interval);
      && WellFormed(next) && |l.starts| <= |next.starts| && Offset(l, |l.entries|) <= Offset(next, |l.entries| + 1)
  {
    var restart := |l.entries| - l.starts[|l.starts| - 1] >= interval;
    GrownGrows(l, e, if restart then 0 else CommonLength(LastKey(l.entries), e.key), restart);
  }

  lemma GrownGrows(l: Layout, e: KeyValue, shared: nat, restart: bool)
    requires WellFormed(l) && MayShare(l, e, shared) && (restart ==> l.entries != [] && shared == 0)
    ensures var next := Grown(l, e, shared, restart);
      && WellFormed(next) && |l.starts| <= |next.starts| && Offset(l, |l.entries|) <= Offset(next, |l.entries| + 1)
  {
    GrownWellFormed(l, e, shared, restart);
    GrownData(l, e, shared, restart);
  }

  /** A block is no smaller than the entries of an earlier moment were. */
  lemma {:induction false} SizeAtLeast(entries: seq<KeyValue>, interval: nat, i: nat)
    requires interval >= 1 && i <= |entries|
    ensures BlockSize(entries[..i], interval) <= BlockSize(entries, interval)
  {
    var n := |entries| - 1;
    if i <= n {
      SizeAtLeast(entries[..n], interval, i);
      assert entries[..n][..i] == entries[..i];
      LayoutShares(entries[..n], interval);
      NextGrows(LayoutOf(entries[..n], interval), entries[n], interval);
    } else {
      assert entries[..i] == entries;
    }
  }

  /** The builder holds the first `i` entries. */
  ghost predicate Filled(b: BlockBuilder, entries: seq<KeyValue>, i: nat, interval: nat)
    reads b
  {
    && b.Ok() && !b.finished && b.interval == interval && i <= |entries|
    && b.layout == LayoutOf(entries[..i], interval) && Within(b.CurrentSizeEstimate(), entries, i)
  }

  method FillNext(b: BlockBuilder, entries: seq<KeyValue>, i: nat, ghost interval: nat)
    requires Filled(b, entries, i, interval) && |b.buffer| < TWO_32 && i < |entries|
    modifies b
    ensures Filled(b, entries, i + 1, interval)
  {
    SizeBoundAscends(entries, i, |entries|);
    NextLaid(entries, i, interval);
    b.Add(entries[i].key, entries[i].value);
  }

  lemma NextLaid(entries: seq<KeyValue>, i: nat, interval: nat)
    requires i < |entries|
    ensures LayoutOf(entries[..i + 1], interval) == NextLayout(LayoutOf(entries[..i], interval), entries[i], interval)
  {
    assert entries[..i + 1][..i] == entries[..i];
  }

  lemma SizeOfHeld(l: Layout, buffer: Bytes, restarts: seq<Uint32>, counter: nat, lastKey: Bytes,
                   entries: seq<KeyValue>, interval: nat)
    requires Holds(l, buffer, restarts, counter, lastKey) && l == LayoutOf(entries, interval) && interval >= 1
    ensures |buffer| + 4 * |restarts| + 4 == BlockSize(entries, interval)
  {
  }

  lemma SizeOfFilled(b: BlockBuilder, entries: seq<KeyValue>, i: nat, interval: nat)
    requires Filled(b, entries, i, interval)
    ensures b.CurrentSizeEstimate() == BlockSize(entries[..i], interval) <= BlockSize(entries, interval)
  {
    SizeOfHeld(b.layout, b.buffer, b.restarts, b.counter, b.lastKey, entries[..i], interval);
    SizeAtLeast(entries, interval, i);
  }

  /** A block builder that holds exactly `entries`; None if they outgrow 32-bit offsets. */
  method Fill(entries: seq<KeyValue>, interval: nat) returns (r: Option<BlockBuilder>)
    requires interval >= 1
    ensures r.Some? ==>
      fresh(r.value) && r.value.Ok() && !r.value.finished && r.value.layout == LayoutOf(entries, interval) &&
        r.value.CurrentSizeEstimate() == BlockSize(entries, interval)
    ensures r.Some? <==> BlockSize(entries, interval) < TWO_32
    ensures SizeBound(entries, |entries|) < TWO_32 ==> BlockSize(entries, interval) <= SizeBound(entries, |entries|)
  {
    var b := new BlockBuilder(interval);
    for i := 0 to |entries|
      invariant fresh(b) && Filled(b, entries, i, interval)
    {
      SizeOfFilled(b, entries, i, interval);
      SizeBoundAscends(entries, i, |entries|);
      if |b.buffer| >= TWO_32 { return None; }
      FillNext(b, entries, i, interval);
    }
    SizeOfFilled(b, entries, |entries|, interval);
    assert entries[..|entries|] == entries;
    r := if b.CurrentSizeEstimate() < TWO_32 then Some(b) else None;
  }

  method BuildBlock(entries: seq<KeyValue>, interval: nat)
    returns (bytes: Option<Bytes>, ghost layout: Layout, ghost restarts: seq<Uint32>)
    requires interval >= 1
    ensures bytes.Some? ==>
      IsBlock(layout, restarts, bytes.value) && layout == LayoutOf(entries, interval) && |bytes.value| < TWO_32
    ensures bytes.Some? <==> BlockSize(entries, interval) < TWO_32
    ensures bytes.Some? ==> |bytes.value| <= SizeBound(entries, |entries|)
    ensures SizeBound(entries, |entries|) < TWO_32 ==> bytes.Some?
  {
    var b := Fill(entries, interval);
    layout, restarts := Layout([], [], []), [];
    if b.None? { return None, layout, restarts; }
    var data := b.value.Finish();
    bytes, layout, restarts := Some(data), b.value.layout, b.value.restarts;
  }

  /** CurrentSizeEstimate of the block of `entries`, but no more than 4 GB. */
  method EstimatedSize(entries: seq<KeyValue>, interval: nat) returns (size: nat)
    requires interval >= 1
    ensures size == if BlockSize(entries, interval) < TWO_32 then BlockSize(entries, interval) else TWO_32
  {
    var b := Fill(entries, interval);
    size := if b.Some? then b.value.CurrentSizeEstimate() else TWO_32;
  }
}
