/** Searching the files of one version (db/version_set.cc): the queries that
    compaction picking, flush placement and lookup are built from. */
module VersionQueries {
  import opened InternalKeys
  import opened ReadSpec
  import opened Levels

  /** The files of a version, level by level. */
  type Files = seq<seq<Table>>

  /** The order a level is stored in: by smallest key, then by number. */
  predicate BySmallest(f: Table, g: Table) {
    Less(Smallest(f), Smallest(g)) || (AtMost(Smallest(f), Smallest(g)) && f.number < g.number)
  }

  ghost predicate InOrder(files: seq<Table>) {
    forall i, j :: 0 <= i < j < |files| ==> BySmallest(files[i], files[j])
  }

  /** Ascending and disjoint, as every level but 0 is. */
  ghost predicate Disjoint(files: seq<Table>) {
    forall i, j :: 0 <= i < j < |files| ==> Before(files[i], files[j])
  }

  ghost function SetOf(files: seq<Table>): set<Table> {
    set f | f in files
  }

  ghost function LevelsOf(v: Files): Levels {
    seq(|v|, l requires 0 <= l < |v| => SetOf(v[l]))
  }

  ghost predicate ValidVersion(v: Files) {
    |v| == NUM_LEVELS && (forall l :: 0 <= l < NUM_LEVELS ==> InOrder(v[l])) && WellFormed(LevelsOf(v))
  }

  lemma LevelDisjoint(v: Files, l: int)
    requires ValidVersion(v) && 1 <= l < NUM_LEVELS
    ensures Disjoint(v[l])
  {
    forall i, j | 0 <= i < j < |v[l]| ensures Before(v[l][i], v[l][j]) {
      var f, g := v[l][i], v[l][j];
      assert BySmallest(f, g);
      assert f in LevelsOf(v)[l] && g in LevelsOf(v)[l] && Ordered(LevelsOf(v)[l]);
      Bounds(f);
      Bounds(g);
    }
  }

  /** The first file whose largest key is at or after `key`. */
  method FindFile(files: seq<Table>, key: InternalKey) returns (index: nat)
    requires Disjoint(files)
    ensures index <= |files|
    ensures forall i :: 0 <= i < index ==> Less(Largest(files[i]), key)
    ensures forall i :: index <= i < |files| ==> AtMost(key, Largest(files[i]))
  {
    var left, right := 0, |files|;
    while left < right
      invariant 0 <= left <= right <= |files|
      invariant forall i :: 0 <= i < left ==> Less(Largest(files[i]), key)
      invariant forall i :: right <= i < |files| ==> AtMost(key, Largest(files[i]))
    {
      var mid := (left + right) / 2;
      forall i | 0 <= i < |files| && i != mid
        ensures if i < mid then Less(Largest(files[i]), Largest(files[mid]))
            else Less(Largest(files[mid]), Largest(files[i]))
      {
        Bounds(files[i]);
        Bounds(files[mid]);
        assert if i < mid then Before(files[i], files[mid]) else Before(files[mid], files[i]);
      }
      if Less(Largest(files[mid]), key) {
        left := mid + 1;
      } else {
        right := mid;
      }
    }
    index := right;
  }

  /** Does `f` meet the range from `smallest` to `largest`?  None is unbounded. */
  predicate Touches(f: Table, smallest: Option<UserKey>, largest: Option<UserKey>) {
    !AfterFile(smallest, f) && !BeforeFile(largest, f)
  }

  predicate AfterFile(u: Option<UserKey>, f: Table) {
    u.Some? && u.value > Hi(f)
  }

  predicate BeforeFile(u: Option<UserKey>, f: Table) {
    u.Some? && u.value < Lo(f)
  }

  method SomeFileOverlapsRange(disjointSortedFiles: bool, files: seq<Table>, smallest: Option<UserKey>,
                               largest: Option<UserKey>)
    returns (overlap: bool)
    requires disjointSortedFiles ==> Disjoint(files)
    ensures overlap <==> exists f :: f in files && Touches(f, smallest, largest)
  {
    if !disjointSortedFiles {
      for i := 0 to |files|
        invariant forall j :: 0 <= j < i ==> !Touches(files[j], smallest, largest)
      {
        if AfterFile(smallest, files[i]) || BeforeFile(largest, files[i]) {
        } else {
          assert Touches(files[i], smallest, largest);
          return true;
        }
      }
      return false;
    }
    var index := 0;
    if smallest.Some? {
      index := FindFile(files, InternalKey(smallest.value, MAX_SEQUENCE, Value));
    }
    if index >= |files| {
      return false;
    }
    overlap := !BeforeFile(largest, files[index]);
    if overlap {
      assert Touches(files[index], smallest, largest);
    } else {
      forall j | 0 <= j < |files| ensures !Touches(files[j], smallest, largest) {
        Bounds(files[j]);
        Bounds(files[index]);
        assert index < j ==> Before(files[index], files[j]);
      }
    }
  }

  /** `f` lies within the range. */
  predicate Within(f: Table, smallest: Option<UserKey>, largest: Option<UserKey>) {
    (smallest.Some? ==> smallest.value <= Lo(f)) && (largest.Some? ==> Hi(f) <= largest.value)
  }

  ghost predicate WiderRange(lo: Option<UserKey>, hi: Option<UserKey>, lo': Option<UserKey>, hi': Option<UserKey>) {
    (lo'.Some? ==> lo.Some? && lo'.value <= lo.value) && (hi'.Some? ==> hi.Some? && hi.value <= hi'.value)
  }

  /** No file meets the range without lying inside it. */
  ghost predicate ClosedRange(files: seq<Table>, lo: Option<UserKey>, hi: Option<UserKey>) {
    forall f :: f in files && Touches(f, lo, hi) ==> Within(f, lo, hi)
  }

  /** Every point of the range lies in a table of `s`. */
  ghost predicate Covers(s: set<Table>, lo: Option<UserKey>, hi: Option<UserKey>) {
    forall x: UserKey :: InRangeOf(x, lo, hi) ==> Hit(s, x)
  }

  predicate InRangeOf(x: UserKey, lo: Option<UserKey>, hi: Option<UserKey>) {
    (lo.Some? ==> lo.value <= x) && (hi.Some? ==> x <= hi.value)
  }

  ghost function User(k: Option<InternalKey>): Option<UserKey> {
    match k case None => None case Some(key) => Some(key.user)
  }

  /** The bounds that files still exceed; every restart removes one. */
  ghost function Exceeded(files: seq<Table>, lo: Option<UserKey>, hi: Option<UserKey>): set<int> {
    (set i | 0 <= i < |files| && lo.Some? && Lo(files[i]) < lo.value) +
    (set i | 0 <= i < |files| && hi.Some? && Hi(files[i]) > hi.value :: -i - 1)
  }

  ghost function Touching(files: seq<Table>, n: nat, lo: Option<UserKey>, hi: Option<UserKey>): seq<Table>
    requires n <= |files|
  {
    if n == 0 then []
    else Touching(files, n - 1, lo, hi) + if Touches(files[n - 1], lo, hi) then [files[n - 1]] else []
  }

  lemma {:induction false} TouchingAll(files: seq<Table>, n: nat, lo: Option<UserKey>, hi: Option<UserKey>)
    requires n <= |files|
    ensures forall f :: f in Touching(files, n, lo, hi) <==> (f in files[..n] && Touches(f, lo, hi))
  {
    if n > 0 {
      TouchingAll(files, n - 1, lo, hi);
      assert files[..n] == files[..n - 1] + [files[n - 1]];
    }
  }

  /** All files of a level that meet the range.  At level 0, where files may
      overlap, the range grows to the least one that no file crosses. */
  method GetOverlappingInputs(files: seq<Table>, level: nat, begin: Option<InternalKey>, end: Option<InternalKey>,
                              ghost others: set<Table>)
    returns (inputs: seq<Table>, ghost lo: Option<UserKey>, ghost hi: Option<UserKey>)
    requires begin.Some? && end.Some? ==> begin.value.user <= end.value.user
    ensures inputs == Touching(files, |files|, lo, hi)
    ensures level > 0 ==> lo == User(begin) && hi == User(end)
    ensures level == 0 ==> WiderRange(User(begin), User(end), lo, hi) && ClosedRange(files, lo, hi)
    ensures level == 0 ==>
      forall a, b :: WiderRange(User(begin), User(end), a, b) && ClosedRange(files, a, b) ==> WiderRange(lo, hi, a, b)
    ensures Covers(others + SetOf(files), User(begin), User(end)) ==> Covers(others + SetOf(inputs), lo, hi)
  {
    var userBegin := if begin.Some? then Some(begin.value.user) else None;
    var userEnd := if end.Some? then Some(end.value.user) else None;
    inputs := [];
    var i := 0;
    while i < |files|
      invariant 0 <= i <= |files|
      invariant inputs == Touching(files, i, userBegin, userEnd)
      invariant level > 0 ==> userBegin == User(begin) && userEnd == User(end)
      invariant userBegin.Some? && userEnd.Some? ==> userBegin.value <= userEnd.value
      invariant WiderRange(User(begin), User(end), userBegin, userEnd)
      invariant level == 0 ==>
        forall j :: 0 <= j < i && Touches(files[j], userBegin, userEnd) ==> Within(files[j], userBegin, userEnd)
      invariant level == 0 ==>
        forall a, b :: WiderRange(User(begin), User(end), a, b) && ClosedRange(files, a, b) ==>
          WiderRange(userBegin, userEnd, a, b)
      invariant Covers(others + SetOf(files), User(begin), User(end)) ==>
        Covers(others + SetOf(files), userBegin, userEnd)
      decreases Exceeded(files, userBegin, userEnd), |files| - i
    {
      var f := files[i];
      i := i + 1;
      if userBegin.Some? && Hi(f) < userBegin.value {
      } else if userEnd.Some? && Lo(f) > userEnd.value {
      } else {
        inputs := inputs + [f];
        if level == 0 {
          if userBegin.Some? && Lo(f) < userBegin.value {
            Expand(files, others, i - 1, userBegin, userEnd, Some(Lo(f)), userEnd);
            userBegin := Some(Lo(f));
            inputs := [];
            i := 0;
          } else if userEnd.Some? && Hi(f) > userEnd.value {
            Expand(files, others, i - 1, userBegin, userEnd, userBegin, Some(Hi(f)));
            userEnd := Some(Hi(f));
            inputs := [];
            i := 0;
          }
        }
      }
    }
    lo, hi := userBegin, userEnd;
    TouchingCovers(files, others, lo, hi);
  }

  lemma TouchingCovers(files: seq<Table>, others: set<Table>, lo: Option<UserKey>, hi: Option<UserKey>)
    ensures Covers(others + SetOf(files), lo, hi) ==> Covers(others + SetOf(Touching(files, |files|, lo, hi)), lo, hi)
  {
    TouchingAll(files, |files|, lo, hi);
    assert files[..|files|] == files;
    var inputs := others + SetOf(Touching(files, |files|, lo, hi));
    if Covers(others + SetOf(files), lo, hi) {
      forall x: UserKey | InRangeOf(x, lo, hi) ensures Hit(inputs, x) {
        assert Hit(others + SetOf(files), x);
        var h :| h in others + SetOf(files) && Lo(h) <= x <= Hi(h);
        assert h in inputs;
      }
    }
  }

  lemma Expand(files: seq<Table>, others: set<Table>, k: int, lo: Option<UserKey>, hi: Option<UserKey>,
               lo': Option<UserKey>, hi': Option<UserKey>)
    requires 0 <= k < |files| && Touches(files[k], lo, hi)
    requires (lo.Some? && lo' == Some(Lo(files[k])) && Lo(files[k]) < lo.value && hi' == hi)
          || (hi.Some? && hi' == Some(Hi(files[k])) && Hi(files[k]) > hi.value && lo' == lo)
    ensures Exceeded(files, lo', hi') < Exceeded(files, lo, hi)
    ensures Covers(others + SetOf(files), lo, hi) ==> Covers(others + SetOf(files), lo', hi')
    ensures forall a, b :: ClosedRange(files, a, b) && WiderRange(lo, hi, a, b) ==> WiderRange(lo', hi', a, b)
  {
    var f := files[k];
    Bounds(f);
    if lo' != lo {
      assert k in Exceeded(files, lo, hi) && k !in Exceeded(files, lo', hi');
    } else {
      assert -k - 1 in Exceeded(files, lo, hi) && -k - 1 !in Exceeded(files, lo', hi');
    }
    assert f in others + SetOf(files);
    forall x: UserKey | InRangeOf(x, lo', hi') ensures InRangeOf(x, lo, hi) || Lo(f) <= x <= Hi(f) {}
    forall a, b | ClosedRange(files, a, b) && WiderRange(lo, hi, a, b) ensures WiderRange(lo', hi', a, b) {
      assert Touches(f, a, b);
    }
  }
}
