/** Reading a key through the memtable, the immutable memtable and the version
    (db/db_impl.cc, DBImpl::Get; db/memtable.cc, MemTable::Get). */
module DbGet {
  import opened InternalKeys
  import opened ReadSpec
  import opened Levels
  import opened VersionQueries
  import opened CompactionWork
  import opened VersionGet
  import opened Jobs
  import opened EngineState
  import opened EngineProof

  /** The memtable delivers the newest visible entry of the key, if it has one. */
  method MemTableGet(mem: seq<Entry>, u: UserKey, snapshot: SequenceNumber)
    returns (state: SaverState, ghost hit: Option<Entry>)
    requires Sorted(mem)
    ensures state.NotFound? ==> hit.None? && NoCandidate(EntrySet(mem), u, snapshot)
    ensures !state.NotFound? ==> hit.Some? && NewestIn(mem, u, snapshot, hit.value)
    ensures state.Found? ==> hit.value.key.kind.Value? && state.value == hit.value.value
    ensures state.Deleted? ==> hit.value.key.kind.Deletion?
  {
    SeekFindsNewest(mem, u, snapshot);
    var r := SeekEntry(mem, LookupKey(u, snapshot));
    state := SaveValue(r, u);
    hit := if state.NotFound? then None else r;
  }

  lemma HitDecides(upper: set<Entry>, here: seq<Entry>, lower: set<Entry>, u: UserKey, snapshot: int, e: Entry)
    requires Distinct(upper + EntrySet(here) + lower) && Above(EntrySet(here), lower)
    requires NoCandidate(upper, u, snapshot) && NewestIn(here, u, snapshot, e)
    ensures Newest(upper + EntrySet(here) + lower, u, snapshot) == Some(e)
  {
    NewestUnique(upper + EntrySet(here) + lower, u, snapshot, e);
  }

  lemma MissPasses(upper: set<Entry>, lower: set<Entry>, u: UserKey, snapshot: int)
    requires Distinct(upper + lower) && NoCandidate(upper, u, snapshot)
    ensures Read(upper + lower, u, snapshot) == Read(lower, u, snapshot)
  {
    OnlyOld(lower, upper, u, snapshot);
    assert upper + lower == lower + upper;
  }

  method Get(mem: seq<Entry>, imm: seq<Entry>, v: Files, u: UserKey, snapshot: SequenceNumber)
    returns (result: Option<Bytes>)
    requires Sorted(mem) && Sorted(imm) && ValidVersion(v)
    requires Distinct(EntrySet(mem) + EntrySet(imm) + AllEntries(LevelsOf(v)))
    requires Above(EntrySet(mem), EntrySet(imm) + AllEntries(LevelsOf(v)))
      && Above(EntrySet(imm), AllEntries(LevelsOf(v)))
    ensures result == Read(EntrySet(mem) + EntrySet(imm) + AllEntries(LevelsOf(v)), u, snapshot)
  {
    ghost var m, i, t := EntrySet(mem), EntrySet(imm), AllEntries(LevelsOf(v));
    assert m + i + t == {} + m + (i + t) && m + i + t == (m + i) + t;
    var state, hit := MemTableGet(mem, u, snapshot);
    if state.NotFound? {
      state, hit := MemTableGet(imm, u, snapshot);
      if state.NotFound? {
        MissPasses(m + i, t, u, snapshot);
        result := VersionGet.Get(v, u, snapshot);
        return;
      }
      HitDecides(m, imm, t, u, snapshot, hit.value);
    } else {
      HitDecides({}, mem, i + t, u, snapshot, hit.value);
    }
    result := if state.Found? then Some(state.value) else None;
  }

  /** In a reachable state a Get at a held snapshot or at the last sequence number,
      even one that sees part of a batch still being inserted, returns the newest
      write at or below the snapshot. */
  lemma GetSeesHistory(states: seq<State>, steps: seq<Step>, n: nat, part: set<Entry>, u: UserKey, snapshot: int)
    requires Run(states, steps) && n < |states|
    requires Served(states[n], snapshot) && snapshot <= states[n].lastSequence && part <= states[n].pending
    ensures var s := states[n];
            Read(s.mem + part + s.imm + AllEntries(s.levels), u, snapshot) == Read(s.history, u, snapshot)
  {
    RunInv(states, steps, n);
    var s := states[n];
    var seen, rest := s.mem + part + s.imm + AllEntries(s.levels), s.pending - part;
    assert Contents(s) == seen + rest;
    assert Distinct(seen + rest) by { assert seen + rest <= s.history; }
    OnlyOld(seen, rest, u, snapshot);
  }

  lemma RecoveredContents(s: State, chunks: seq<Table>, reuse: bool, save: bool, first: nat, last: nat)
    requires LogsOk(s) && CanRecover(s, chunks, reuse, save, first, last)
    ensures Contents(Recovered(s, chunks, reuse, save, first, last)) == Contents(s) ==
        AllEntries(s.levels) + Replayed(s)
  {
    RecoverLevels(s, chunks, reuse, save, first, last);
    RecoverContents(s, Recovered(s, chunks, reuse, save, first, last), LevelEntries(ChunkSet(chunks)));
    ReplayedIs(s);
    assert Contents(s) == AllEntries(s.levels) + (s.imm + (s.mem + s.pending));
  }

  lemma RecoveredReads(s: State, chunks: seq<Table>, reuse: bool, save: bool, first: nat, last: nat, u: UserKey)
    requires Layered(s) && Faithful(s) && LogsOk(s) && ManifestOk(s) && CanRecover(s, chunks, reuse, save, first, last)
    ensures Read(AllEntries(s.levels) + Replayed(s), u, last) == Read(s.history, u, MAX_SEQUENCE)
  {
    RecoversLast(s, last);
    RecoveredContents(s, chunks, reuse, save, first, last);
    assert Served(s, last);
    ReadAtTop(s.history, u, last);
  }

  /** Whatever the crash point, between steps or in the middle of an append to the log, reopening
      rebuilds the latest value of every key from the manifest's tables and the logs it still needs;
      and every table it names is on disk. */
  lemma CrashLosesNothing(states: seq<State>, steps: seq<Step>, n: nat, chunks: seq<Table>, reuse: bool, save: bool,
                          first: nat, last: nat, u: UserKey)
    requires Run(states, steps) && n < |states| && CanRecover(states[n], chunks, reuse, save, first, last)
    ensures var s := states[n];
            && Contents(Recovered(s, chunks, reuse, save, first, last)) == AllEntries(s.levels) + Replayed(s)
            && Read(AllEntries(s.levels) + Replayed(s), u, last) == Read(s.history, u, MAX_SEQUENCE)
    ensures forall l, f :: 0 <= l < |states[n].levels| && f in states[n].levels[l] ==> f.number in states[n].tables
  {
    RunInv(states, steps, n);
    RecoveredContents(states[n], chunks, reuse, save, first, last);
    RecoveredReads(states[n], chunks, reuse, save, first, last, u);
  }

  lemma ReadAtTop(s: set<Entry>, u: UserKey, top: int)
    requires Distinct(s) && AtOrBelow(s, top) && top <= MAX_SEQUENCE
    ensures Read(s, u, top) == Read(s, u, MAX_SEQUENCE)
  {
    match Newest(s, u, top)
    case None =>
    case Some(e) => NewestUnique(s, u, MAX_SEQUENCE, e);
  }
}
