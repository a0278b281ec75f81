/** A manifest as a file (db/version_set.cc, VersionSet::Recover): the edits a run has written, as bytes in
    a log file that a crash may have cut off, rebuild the levels. */
module ManifestBytes {
  import opened InternalKeys
  import opened ReadSpec
  import opened Coding
  import opened Comparators
  import opened Levels
  import opened EngineState
  import opened EngineProof
  import opened ManifestRun
  import VersionReplay
  import VersionEdits
  import LogFormat
  import LogReading
  import LogFile

  /** An internal key out of its bytes. */
  function KeyOf(k: Bytes): InternalKey {
    var tag := if TagPart(k) < 0 then 0 else TagPart(k);
    InternalKey(Rank(UserPart(k)), tag / 256 % (MAX_SEQUENCE + 1), if tag % 256 == 1 then Value else Deletion)
  }

  function FileIn(x: VersionEdits.NewFile): VersionReplay.File {
    VersionReplay.File(x.number, x.size, KeyOf(x.smallest), KeyOf(x.largest))
  }

  /** The files an edit adds to a level, in the order it lists them. */
  function AddedIn(files: seq<VersionEdits.NewFile>, l: nat): seq<VersionReplay.File> {
    if files == [] then []
    else
      var x := files[|files| - 1];
      AddedIn(files[..|files| - 1], l) + if x.level == l then [FileIn(x)] else []
  }

  function DeletedIn(deleted: seq<VersionEdits.Level>, l: nat): set<nat> {
    set d | d in deleted && d.level == l :: d.number
  }

  /** What Builder::Apply takes from a decoded edit. */
  function EditIn(e: VersionEdits.VersionEdit): (r: Edit)
    ensures |r.added| == |r.deleted| == NUM_LEVELS
  {
    VersionReplay.Edit(seq(NUM_LEVELS, l requires 0 <= l < NUM_LEVELS => DeletedIn(e.deleted, l)),
                       seq(NUM_LEVELS, l requires 0 <= l < NUM_LEVELS => AddedIn(e.newFiles, l)))
  }

  /** The record of an edit. */
  ghost predicate Recorded(record: Bytes, e: Edit) {
    exists ve :: VersionEdits.Encodable(ve) && record == VersionEdits.Encode(ve) && EditIn(ve) == e
  }

  ghost predicate Records(records: seq<Bytes>, edits: seq<Edit>) {
    |records| == |edits| && forall i :: 0 <= i < |edits| ==> Recorded(records[i], edits[i])
  }

  /** The file is what a crash may have left of a manifest: all of `edits`, and perhaps part of one more. */
  ghost predicate Holds(crc: LogFormat.Checksum, file: Bytes, edits: seq<Edit>) {
    exists records, n: nat ::
      && n <= |LogFormat.Log(crc, 0, records)| && file == LogFormat.Log(crc, 0, records)[..n]
      && Records(LogFormat.Complete(crc, 0, records, n), edits)
  }

  lemma RecordsRead(crc: LogFormat.Checksum, file: Bytes, edits: seq<Edit>, records: seq<Bytes>)
    requires Holds(crc, file, edits) && LogReading.Drain(crc, 0, file, None).records == records
    ensures Records(records, edits)
  {
    var written, n: nat :|
      && n <= |LogFormat.Log(crc, 0, written)| && file == LogFormat.Log(crc, 0, written)[..n]
      && Records(LogFormat.Complete(crc, 0, written, n), edits);
    LogReading.DrainPrefix(crc, 0, written, file);
  }

  method ReadEdit(record: Bytes, ghost e: Edit) returns (r: Option<Edit>)
    ensures Recorded(record, e) ==> r == Some(e)
  {
    ghost var ve := VersionEdits.EMPTY;
    if Recorded(record, e) {
      ve :| VersionEdits.Encodable(ve) && record == VersionEdits.Encode(ve) && EditIn(ve) == e;
    }
    var ok, edit := VersionEdits.DecodeFrom(record, ve);
    r := if ok then Some(EditIn(edit)) else None;
  }

  /** The edits of a manifest file; None if one of them is damaged. */
  method ReadEdits(crc: LogFormat.Checksum, file: Bytes, ghost edits: seq<Edit>) returns (r: Option<seq<Edit>>)
    ensures Holds(crc, file, edits) ==> r == Some(edits)
  {
    var records, corruptions := LogFile.ReadLog(crc, file);
    ghost var whole := Holds(crc, file, edits);
    if whole { RecordsRead(crc, file, edits, records); }
    var read: seq<Edit> := [];
    for i := 0 to |records|
      invariant |read| == i && (whole ==> Records(records, edits) && forall k :: 0 <= k < i ==> read[k] == edits[k])
    {
      var e := ReadEdit(records[i], if i < |edits| then edits[i] else EditIn(VersionEdits.EMPTY));
      if e.None? { return None; }
      read := read + [e.value];
    }
    assert whole ==> read == edits;
    r := Some(read);
  }

  /** VersionSet::Recover on the manifest of a run: the version it saves has, level by level and in key
      order, exactly the files of the levels, whatever part of a further edit a crash has left. */
  method RecoverVersion(crc: LogFormat.Checksum, file: Bytes, ghost edits: seq<Edit>,
                        ghost states: seq<State>, ghost steps: seq<Step>, ghost m: nat, ghost n: nat)
    returns (v: seq<seq<VersionReplay.File>>)
    requires Run(states, steps) && Written(states, steps, m, n, edits) && Holds(crc, file, edits)
    ensures |v| == |states[n].levels| == NUM_LEVELS
    ensures forall l :: 0 <= l < NUM_LEVELS ==>
      VersionReplay.Ordered(v[l]) && VersionReplay.SetOf(v[l]) == FilesOf(states[n].levels[l])
  {
    ManifestRebuilds(states, steps, m, n, edits);
    var read := ReadEdits(crc, file, edits);
    var empty: seq<seq<VersionReplay.File>> := seq(NUM_LEVELS, _ => []);
    v := VersionReplay.Recover(empty, read.value);
    assert VersionReplay.SetOf([]) == {};
  }
}
