/** The user-visible iterator (db/db_iter.cc): many internal entries per user key
    become one, forwards and backwards. */
module DbIter {
  import opened InternalKeys
  import opened ReadSpec
  import opened CompactionWork
  import opened Iterators

  predicate Visible(s: seq<Entry>, sequence: int, i: nat)
    requires i < |s|
  {
    s[i].key.sequence <= sequence
  }

  /** Entry `i` is what a read at `sequence` returns for its user key. */
  ghost predicate Live(s: seq<Entry>, sequence: int, i: int) {
    0 <= i < |s| && Visible(s, sequence, i) && s[i].key.kind.Value? &&
    forall j :: 0 <= j < i && s[j].key.user == s[i].key.user ==> !Visible(s, sequence, j)
  }

  /** Live positions are exactly the bindings of the map a reader sees. */
  lemma LiveIsRead(s: seq<Entry>, sequence: int, u: UserKey, v: Bytes)
    requires Sorted(s) && Distinct(EntrySet(s))
    ensures Read(EntrySet(s), u, sequence) == Some(v) <==>
      exists i :: Live(s, sequence, i) && s[i].key.user == u && s[i].value == v
  {
    if i :| Live(s, sequence, i) && s[i].key.user == u && s[i].value == v {
      assert s[i] in EntrySet(s);
      forall x | x in EntrySet(s) && Candidate(x, u, sequence) ensures x.key.sequence <= s[i].key.sequence {
        var k :| 0 <= k < |s| && s[k] == x;
        assert k >= i;
      }
      NewestUnique(EntrySet(s), u, sequence, s[i]);
    }
    if Read(EntrySet(s), u, sequence) == Some(v) {
      var e := Newest(EntrySet(s), u, sequence).value;
      var i :| 0 <= i < |s| && s[i] == e;
      forall j | 0 <= j < i && s[j].key.user == u ensures !Visible(s, sequence, j) {
        assert Less(s[j].key, s[i].key) && s[j] in EntrySet(s);
        assert s[j] != s[i];
      }
      assert Live(s, sequence, i);
    }
  }

  /** `r` is the first live position from `from` on whose key is beyond `skip`; |s| if there is none. */
  ghost predicate FirstLive(s: seq<Entry>, sequence: int, from: int, skip: Option<UserKey>, r: int) {
    && 0 <= from <= r <= |s|
    && (forall i :: from <= i < r ==> !(Live(s, sequence, i) && Beyond(s, i, skip)))
    && (r < |s| ==> Live(s, sequence, r) && Beyond(s, r, skip))
  }

  predicate Beyond(s: seq<Entry>, i: nat, skip: Option<UserKey>)
    requires i < |s|
  {
    skip.None? || skip.value < s[i].key.user
  }

  /** `r` is the last live position before `to`; -1 if there is none. */
  ghost predicate LastLive(s: seq<Entry>, sequence: int, to: int, r: int) {
    && -1 <= r < to <= |s|
    && (forall i :: r < i < to ==> !Live(s, sequence, i))
    && (r >= 0 ==> Live(s, sequence, r))
  }

  /** Skipping keys up to `skip` hides exactly what visible entries before `p` hide. */
  ghost predicate SkipCovers(s: seq<Entry>, sequence: int, p: int, skip: Option<UserKey>) {
    && (forall i, j :: 0 <= i < p <= j < |s| && s[i].key.user == s[j].key.user && Visible(s, sequence, i) ==>
        !Beyond(s, j, skip))
    && (forall j :: 0 <= p <= j < |s| && Visible(s, sequence, j) && skip.Some? ==> skip.value <= s[j].key.user)
  }

  lemma UsersAscend(s: seq<Entry>, i: nat, j: nat)
    requires Sorted(s) && i <= j < |s|
    ensures s[i].key.user <= s[j].key.user
  {
    if i < j { assert Less(s[i].key, s[j].key); }
  }

  /** State of the forward scan from `p` with initial `skip0`: at `x`, skipping up to `skip`. */
  ghost predicate Scanning(s: seq<Entry>, sequence: int, p: int, skip0: Option<UserKey>, x: int,
                           skip: Option<UserKey>) {
    && 0 <= p <= x <= |s| && SkipCovers(s, sequence, x, skip)
    && (skip0.Some? ==> skip.Some? && skip0.value <= skip.value)
    && (forall i :: p <= i < x ==> !(Live(s, sequence, i) && Beyond(s, i, skip0)))
    && (forall i :: x <= i < |s| && !Beyond(s, i, skip) ==> !(Live(s, sequence, i) && Beyond(s, i, skip0)))
  }

  /** Passing an entry that is not yielded; a visible tombstone makes the rest of its key skipped. */
  lemma ScanPasses(s: seq<Entry>, sequence: int, p: int, skip0: Option<UserKey>, x: nat, skip: Option<UserKey>)
    requires Sorted(s) && x < |s| && Scanning(s, sequence, p, skip0, x, skip)
    requires Visible(s, sequence, x) ==> s[x].key.kind.Deletion? || !Beyond(s, x, skip)
    ensures Scanning(s, sequence, p, skip0, x + 1,
                     if Visible(s, sequence, x) && s[x].key.kind.Deletion? then Some(s[x].key.user) else skip)
  {
    forall j | x <= j < |s| ensures s[x].key.user <= s[j].key.user { UsersAscend(s, x, j); }
  }

  lemma ScanYields(s: seq<Entry>, sequence: int, p: int, skip0: Option<UserKey>, x: nat, skip: Option<UserKey>)
    requires x < |s| && Scanning(s, sequence, p, skip0, x, skip)
    requires Visible(s, sequence, x) && s[x].key.kind.Value? && Beyond(s, x, skip)
    ensures FirstLive(s, sequence, p, skip0, x)
  {
  }

  /** A live position hides the rest of its key, so beyond the key means beyond the position. */
  lemma LiveBeyond(s: seq<Entry>, sequence: int, c: nat, p: nat, r: int)
    requires Sorted(s) && Live(s, sequence, c) && p <= c && FirstLive(s, sequence, p, Some(s[c].key.user), r)
    ensures FirstLive(s, sequence, c + 1, None, r)
  {
    forall i | 0 <= i < |s| && Live(s, sequence, i) ensures i <= c <==> !Beyond(s, i, Some(s[c].key.user)) {
      UsersAscend(s, if i <= c then i else c, if i <= c then c else i);
    }
  }

  /** State of the backward scan from `to`, having passed everything after `x`:
      the last visible entry passed decides what is saved. */
  ghost predicate ScanningBack(s: seq<Entry>, sequence: int, to: int, x: int, kind: ValueType, key: Option<UserKey>,
                               value: Bytes) {
    -1 <= x < to <= |s| &&
    if kind.Deletion? then forall i :: x < i < to ==> !Live(s, sequence, i)
    else exists q :: Saved(s, sequence, to, x, key, value, q)
  }

  ghost predicate Saved(s: seq<Entry>, sequence: int, to: int, x: int, key: Option<UserKey>, value: Bytes, q: int) {
    && -1 <= x < q < to <= |s| && s[q].key.sequence <= sequence && s[q].key.kind.Value?
    && key == Some(s[q].key.user) && value == s[q].value
    && (forall i :: 0 <= i && x < i < q ==> !Visible(s, sequence, i))
    && (forall i :: q < i < to ==> !Live(s, sequence, i))
  }

  lemma PassInvisible(s: seq<Entry>, sequence: int, to: int, x: nat, kind: ValueType, key: Option<UserKey>,
                      value: Bytes)
    requires ScanningBack(s, sequence, to, x, kind, key, value) && !Visible(s, sequence, x)
    ensures ScanningBack(s, sequence, to, x - 1, kind, key, value)
  {
    if kind.Value? {
      var q :| Saved(s, sequence, to, x, key, value, q);
      assert Saved(s, sequence, to, x - 1, key, value, q);
    }
  }

  lemma PassVisible(s: seq<Entry>, sequence: int, to: int, x: nat, kind: ValueType, key: Option<UserKey>, value: Bytes)
    requires Sorted(s) && ScanningBack(s, sequence, to, x, kind, key, value) && Visible(s, sequence, x)
    requires kind.Value? ==> !(s[x].key.user < key.value)
    ensures ScanningBack(s, sequence, to, x - 1, s[x].key.kind,
                         if s[x].key.kind.Value? then Some(s[x].key.user) else None,
                         if s[x].key.kind.Value? then s[x].value else [])
  {
    if kind.Value? {
      var q :| Saved(s, sequence, to, x, key, value, q);
      UsersAscend(s, x, q);
    }
    if s[x].key.kind.Value? {
      assert Saved(s, sequence, to, x - 1, Some(s[x].key.user), s[x].value, x);
    }
  }

  /** When the scan stops at a smaller key, or at the front, the saved entry is live. */
  lemma SavedIsLive(s: seq<Entry>, sequence: int, to: int, x: int, key: Option<UserKey>, value: Bytes) returns (q: int)
    requires Sorted(s) && ScanningBack(s, sequence, to, x, Value, key, value)
    requires x >= 0 ==> s[x].key.user < key.value
    ensures Saved(s, sequence, to, x, key, value, q) && LastLive(s, sequence, to, q)
  {
    q :| Saved(s, sequence, to, x, key, value, q);
    forall j | 0 <= j < q && s[j].key.user == s[q].key.user ensures !Visible(s, sequence, j) {
      if j <= x { UsersAscend(s, j, x); }
    }
    forall i | q < i < to ensures !Live(s, sequence, i) {}
  }

  /** Each live key is visited once, in increasing order. */
  lemma LiveKeysAscend(s: seq<Entry>, sequence: int, i: nat, j: nat)
    requires Sorted(s) && Live(s, sequence, i) && Live(s, sequence, j) && i < j
    ensures s[i].key.user < s[j].key.user
  {
    UsersAscend(s, i, j);
  }

  /** Turning round at any point comes back to the same entry. */
  lemma NextUndoesPrev(s: seq<Entry>, sequence: int, c: nat, r: int, n: int)
    requires Live(s, sequence, c) && LastLive(s, sequence, c, r) && r >= 0 && FirstLive(s, sequence, r + 1, None, n)
    ensures n == c
  {
    assert Live(s, sequence, c) && Beyond(s, c, None);
    assert n < |s| ==> Live(s, sequence, n);
  }

  datatype Direction = Forward | Reverse

  class DBIter {
    const iter: EntryIterator
    const sequence: SequenceNumber
    var direction: Direction
    var valid: bool
    var savedKey: Option<UserKey>
    var savedValue: Bytes
    ghost var cur: int   // position of the entry being yielded

    /** The inner iterator stands before every entry of `k`, past no visible entry of a smaller key. */
    ghost predicate StandsBefore(k: UserKey)
      reads this, iter
    {
      && (iter.Valid() ==> iter.Key().user < k)
      && forall i :: 0 <= i < |iter.entries| && (iter.Valid() ==> iter.pos < i) && iter.entries[i].key.user < k
           ==> !Visible(iter.entries, sequence, i)
    }

    ghost predicate Ok()
      reads this, iter
    {
      && iter.Ok()
      && (valid ==> Live(iter.entries, sequence, cur) && Yields())
    }

    /** How the position of the inner iterator and the saved data give the current entry. */
    ghost predicate Yields()
      requires 0 <= cur < |iter.entries|
      reads this, iter
    {
      if direction.Forward? then iter.pos == cur
      else
        savedKey == Some(iter.entries[cur].key.user) && savedValue == iter.entries[cur].value
        && StandsBefore(savedKey.value)
    }

    constructor (iter: EntryIterator, sequence: SequenceNumber)
      requires iter.Ok()
      ensures Ok() && this.iter == iter && this.sequence == sequence && !valid
    {
      this.iter, this.sequence := iter, sequence;
      direction, valid, savedKey, savedValue := Forward, false, None, [];
      cur := -1;
    }

    method Key() returns (k: UserKey)
      requires Ok() && valid
      ensures k == iter.entries[cur].key.user
    {
      k := if direction.Forward? then iter.Key().user else savedKey.value;
    }

    method Value() returns (v: Bytes)
      requires Ok() && valid
      ensures v == iter.entries[cur].value
    {
      v := if direction.Forward? then iter.entries[iter.pos].value else savedValue;
    }

    /** Scans forward to the first live entry that is not to be skipped. */
    method FindNextUserEntry(skip0: Option<UserKey>)
      requires iter.Ok() && iter.Valid() && direction.Forward?
      requires SkipCovers(iter.entries, sequence, iter.pos, skip0)
      modifies this, iter
      ensures Ok() && direction.Forward? && FirstLive(iter.entries, sequence, old(iter.pos), skip0, cur)
      ensures valid <==> cur < |iter.entries|
    {
      ghost var s, p := iter.entries, iter.pos;
      var skip := skip0;
      while iter.Valid()
        invariant iter.Ok() && direction.Forward? && Scanning(s, sequence, p, skip0, iter.pos, skip)
        decreases |s| - iter.pos
      {
        var e := iter.entries[iter.pos];
        if e.key.sequence <= sequence && e.key.kind.Value? && (skip.None? || skip.value < e.key.user) {
          ScanYields(s, sequence, p, skip0, iter.pos, skip);
          valid, savedKey := true, None;
          cur := iter.pos;
          return;
        }
        ScanPasses(s, sequence, p, skip0, iter.pos, skip);
        if e.key.sequence <= sequence && e.key.kind.Deletion? {
          skip := Some(e.key.user);
        }
        iter.Next();
      }
      savedKey, valid := None, false;
      cur := |s|;
    }

    /** Moves to the next live entry, turning round first if needed. */
    method Next()
      requires Ok() && valid
      modifies this, iter
      ensures Ok() && FirstLive(iter.entries, sequence, old(cur) + 1, None, cur)
      ensures valid <==> cur < |iter.entries|
    {
      ghost var s, c := iter.entries, cur;
      if direction.Reverse? {
        direction := Forward;
        if !iter.Valid() {
          iter.SeekToFirst();
        } else {
          iter.Next();
        }
        // the entries of the current key are still ahead
        assert iter.Valid();
      } else {
        savedKey := Some(iter.Key().user);
      }
      ghost var p := iter.pos;
      forall i, j | 0 <= i <= j < |s| ensures s[i].key.user <= s[j].key.user { UsersAscend(s, i, j); }
      FindNextUserEntry(savedKey);
      LiveBeyond(s, sequence, c, p, cur);
    }

    /** The position of the inner iterator, -1 when it has moved off the front. */
    ghost function At(): int
      reads iter
    {
      if iter.Valid() then iter.pos else -1
    }

    /** Scans backward to the last live entry before `to`. */
    method FindPrevUserEntry(ghost to: nat)
      requires iter.Ok() && direction.Reverse? && At() < to <= |iter.entries|
      requires forall i :: At() < i < to && 0 <= i ==> !Visible(iter.entries, sequence, i)
      modifies this, iter
      ensures Ok() && LastLive(iter.entries, sequence, to, cur)
      ensures valid <==> cur >= 0
    {
      ghost var s := iter.entries;
      var kind := Deletion;
      while iter.Valid()
        invariant iter.Ok() && direction.Reverse? && ScanningBack(s, sequence, to, At(), kind, savedKey, savedValue)
        decreases At()
      {
        var e := iter.entries[iter.pos];
        if e.key.sequence <= sequence {
          if kind.Value? && e.key.user < savedKey.value {
            break;
          }
          PassVisible(s, sequence, to, iter.pos, kind, savedKey, savedValue);
          kind := e.key.kind;
          if kind.Deletion? {
            savedKey, savedValue := None, [];
          } else {
            savedKey, savedValue := Some(e.key.user), e.value;
          }
        } else {
          PassInvisible(s, sequence, to, iter.pos, kind, savedKey, savedValue);
        }
        iter.Prev();
      }
      if kind.Deletion? {
        valid, savedKey, savedValue, direction := false, None, [], Forward;
        cur := -1;
      } else {
        ghost var q := SavedIsLive(s, sequence, to, At(), savedKey, savedValue);
        forall i, j | 0 <= i <= j < |s| ensures s[i].key.user <= s[j].key.user { UsersAscend(s, i, j); }
        valid := true;
        cur := q;
      }
    }

    /** Moves to the previous live entry, turning round first if needed. */
    method Prev()
      requires Ok() && valid
      modifies this, iter
      ensures Ok() && LastLive(iter.entries, sequence, old(cur), cur)
      ensures valid <==> cur >= 0
    {
      ghost var s, c := iter.entries, cur;
      forall i, j | 0 <= i <= j < |s| ensures s[i].key.user <= s[j].key.user { UsersAscend(s, i, j); }
      if direction.Forward? {
        savedKey := Some(iter.Key().user);
        while true
          invariant iter.Ok() && iter.Valid() && iter.pos <= c && direction.Forward?
          invariant savedKey == Some(s[c].key.user)
          invariant forall i :: iter.pos <= i <= c ==> s[i].key.user == s[c].key.user
          decreases iter.pos
        {
          iter.Prev();
          if !iter.Valid() {
            valid, savedKey, savedValue := false, None, [];
            cur := -1;
            return;
          }
          if iter.Key().user < savedKey.value {
            break;
          }
        }
        direction := Reverse;
      }
      FindPrevUserEntry(c);
    }

    /** Moves to the first live entry whose key is at or after `target`. */
    method Seek(target: UserKey)
      requires Ok()
      modifies this, iter
      ensures Ok() && 0 <= cur <= |iter.entries| && (valid <==> cur < |iter.entries|)
      ensures valid ==> Live(iter.entries, sequence, cur) && target <= iter.entries[cur].key.user
      ensures forall i :: 0 <= i < cur && Live(iter.entries, sequence, i) ==> iter.entries[i].key.user < target
    {
      direction, savedValue := Forward, [];
      iter.Seek(LookupKey(target, sequence));
      if iter.Valid() {
        FindNextUserEntry(None);
      } else {
        valid := false;
        cur := |iter.entries|;
      }
    }

    method SeekToFirst()
      requires Ok()
      modifies this, iter
      ensures Ok() && FirstLive(iter.entries, sequence, 0, None, cur) && (valid <==> cur < |iter.entries|)
    {
      direction, savedValue := Forward, [];
      iter.SeekToFirst();
      if iter.Valid() {
        FindNextUserEntry(None);
      } else {
        valid := false;
        cur := |iter.entries|;
      }
    }

    method SeekToLast()
      requires Ok()
      modifies this, iter
      ensures Ok() && LastLive(iter.entries, sequence, |iter.entries|, cur) && (valid <==> cur >= 0)
    {
      direction, savedValue := Reverse, [];
      iter.SeekToLast();
      FindPrevUserEntry(|iter.entries|);
    }
  }
}
