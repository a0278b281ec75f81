/** Iterator positions over a sorted run of entries, as LevelFileNumIterator and
    the block and memtable iterators keep them (db/version_set.cc): an invalid
    iterator does not remember on which side it fell off. */
module Iterators {
  import opened InternalKeys

  /** The first position at or after `key`. */
  ghost predicate IsSeekPosition(s: seq<Entry>, key: InternalKey, pos: nat) {
    pos <= |s| && (forall i :: 0 <= i < pos ==> Less(s[i].key, key)) &&
      (forall i :: pos <= i < |s| ==> AtMost(key, s[i].key))
  }

  class EntryIterator {
    const entries: seq<Entry>
    var pos: nat   // |entries| if not valid

    ghost predicate Ok()
      reads this
    {
      Sorted(entries) && pos <= |entries|
    }

    constructor (entries: seq<Entry>)
      requires Sorted(entries)
      ensures Ok() && this.entries == entries && pos == |entries|
    {
      this.entries := entries;
      pos := |entries|;
    }

    predicate Valid()
      reads this
    {
      pos < |entries|
    }

    function Key(): InternalKey
      requires Valid()
      reads this
    {
      entries[pos].key
    }

    method Seek(target: InternalKey)
      requires Ok()
      modifies this
      ensures Ok() && IsSeekPosition(entries, target, pos)
    {
      var left, right := 0, |entries|;
      while left < right
        invariant 0 <= left <= right <= |entries|
        invariant forall i :: 0 <= i < left ==> Less(entries[i].key, target)
        invariant forall i :: right <= i < |entries| ==> AtMost(target, entries[i].key)
      {
        var mid := (left + right) / 2;
        assert forall i :: 0 <= i < mid ==> Less(entries[i].key, entries[mid].key);
        assert forall i :: mid < i < |entries| ==> Less(entries[mid].key, entries[i].key);
        if Less(entries[mid].key, target) {
          left := mid + 1;
        } else {
          right := mid;
        }
      }
      pos := right;
    }

    method SeekToFirst()
      modifies this
      ensures pos == 0
    {
      pos := 0;
    }

    method SeekToLast()
      modifies this
      ensures pos == if entries == [] then 0 else |entries| - 1
    {
      pos := if entries == [] then 0 else |entries| - 1;
    }

    method Next()
      requires Valid()
      modifies this
      ensures pos == old(pos) + 1
    {
      pos := pos + 1;
    }

    method Prev()
      requires Valid()
      modifies this
      ensures pos == if old(pos) == 0 then |entries| else old(pos) - 1
    {
      pos := if pos == 0 then |entries| else pos - 1;
    }
  }
}
