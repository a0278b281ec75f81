/** Write batches as bytes (db/write_batch.cc). */
module WriteBatches {
  import opened InternalKeys
  import opened ReadSpec
  import opened Coding
  import opened Comparators
  import opened GroupCommit

  const HEADER: nat := 12

  function EncodeOp(op: Op): Bytes {
    match op
    case Put(key, value) => [1] + PutLengthPrefixedSlice(key) + PutLengthPrefixedSlice(value)
    case Delete(key) => [0] + PutLengthPrefixedSlice(key)
  }

  function Data(ops: seq<Op>): Bytes {
    Joined(EncodeOp, ops)
  }

  /** Slices are described by 32-bit lengths. */
  predicate Fits(op: Op) {
    |op.key| < TWO_32 && (op.Put? ==> |op.value| < TWO_32)
  }

  datatype ParsedOp = ParsedOp(op: Op, rest: Bytes)

  /** The next record of a batch. */
  function ReadOp(input: Bytes): (r: Option<ParsedOp>)
    requires input != []
    ensures r.Some? ==> |r.value.rest| < |input|
  {
    var tail := input[1..];
    if input[0] == 1 then
      match GetLengthPrefixedSlice(tail)
      case None => None
      case Some(k) => (match GetLengthPrefixedSlice(k.rest)
        case None => None
        case Some(v) => Some(ParsedOp(Put(k.slice, v.slice), v.rest)))
    else if input[0] == 0 then
      match GetLengthPrefixedSlice(tail)
      case None => None
      case Some(k) => Some(ParsedOp(Delete(k.slice), k.rest))
    else None
  }

  lemma PutRoundTrip(input: Bytes, key: Bytes, value: Bytes, second: Bytes, more: Bytes)
    requires |key| < TWO_32 && |value| < TWO_32
    requires input != [] && input[0] == 1 && input[1..] == PutLengthPrefixedSlice(key) + second
      && second == PutLengthPrefixedSlice(value) + more
    ensures ReadOp(input) == Some(ParsedOp(Put(key, value), more))
  {
    SliceRoundTrip(key, second);
    SliceRoundTrip(value, more);
  }

  lemma DeleteRoundTrip(input: Bytes, key: Bytes, more: Bytes)
    requires |key| < TWO_32
    requires input != [] && input[0] == 0 && input[1..] == PutLengthPrefixedSlice(key) + more
    ensures ReadOp(input) == Some(ParsedOp(Delete(key), more))
  {
    SliceRoundTrip(key, more);
  }

  lemma OpRoundTrip(input: Bytes, op: Op, more: Bytes)
    requires Fits(op) && input == EncodeOp(op) + more
    ensures input != [] && ReadOp(input) == Some(ParsedOp(op, more))
  {
    match op {
      case Put(key, value) => PutRoundTrip(input, key, value, PutLengthPrefixedSlice(value) + more, more);
      case Delete(key) => DeleteRoundTrip(input, key, more);
    }
  }

  class WriteBatch {
    var rep: Bytes

    ghost predicate Holds(ops: seq<Op>)
      reads this
    {
      && |rep| >= HEADER && rep[HEADER..] == Data(ops)
      && |ops| < TWO_32 && rep[8..HEADER] == EncodeFixed32(|ops|)
      && forall i :: 0 <= i < |ops| ==> Fits(ops[i])
    }

    constructor ()
      ensures Holds([])
    {
      rep := seq(HEADER, _ => 0);
    }

    /** SetContents: a record of the log. */
    method SetContents(contents: Bytes)
      modifies this
      ensures rep == contents
    {
      rep := contents;
    }

    function Sequence(): nat
      requires |rep| >= HEADER
      reads this
    {
      FromLittle(rep[..8])
    }

    function Count(): Uint32
      requires |rep| >= HEADER
      reads this
    {
      DecodeFixed32(rep[8..])
    }

    method SetCount(n: Uint32)
      requires |rep| >= HEADER
      modifies this
      ensures rep == old(rep[..8]) + EncodeFixed32(n) + old(rep[HEADER..])
    {
      rep := rep[..8] + EncodeFixed32(n) + rep[HEADER..];
    }

    /** SetSequence leaves the records and their number alone. */
    method SetSequence(s: nat, ghost ops: seq<Op>)
      requires Holds(ops) && s < 0x1_0000_0000_0000_0000
      modifies this
      ensures Holds(ops) && rep[..8] == EncodeFixed64(s)
    {
      rep := EncodeFixed64(s) + rep[8..];
    }

    method Put(key: Bytes, value: Bytes, ghost ops: seq<Op>)
      requires Holds(ops) && |ops| + 1 < TWO_32 && |key| < TWO_32 && |value| < TWO_32
      modifies this
      ensures Holds(ops + [Op.Put(key, value)]) && rep[..8] == old(rep[..8])
    {
      CountIs(ops);
      SetCount(Count() + 1);
      rep := rep + [1];
      rep := rep + PutLengthPrefixedSlice(key);
      rep := rep + PutLengthPrefixedSlice(value);
      JoinedOne(EncodeOp, ops, Op.Put(key, value));
    }

    method Delete(key: Bytes, ghost ops: seq<Op>)
      requires Holds(ops) && |ops| + 1 < TWO_32 && |key| < TWO_32
      modifies this
      ensures Holds(ops + [Op.Delete(key)]) && rep[..8] == old(rep[..8])
    {
      CountIs(ops);
      SetCount(Count() + 1);
      rep := rep + [0];
      rep := rep + PutLengthPrefixedSlice(key);
      JoinedOne(EncodeOp, ops, Op.Delete(key));
    }

    lemma CountIs(ops: seq<Op>)
      requires Holds(ops)
      ensures Count() == |ops|
    {
      assert rep[8..][..4] == rep[8..HEADER];
      FixedRoundTrip(|ops|, rep[8..]);
    }

    /** The records of `source` after those of this batch. */
    method Append(source: WriteBatch, ghost ops: seq<Op>, ghost more: seq<Op>)
      requires source != this && Holds(ops) && source.Holds(more) && |ops| + |more| < TWO_32
      modifies this
      ensures Holds(ops + more) && rep[..8] == old(rep[..8])
    {
      CountIs(ops);
      source.CountIs(more);
      SetCount(Count() + source.Count());
      rep := rep + source.rep[HEADER..];
      JoinedAppend(EncodeOp, ops, more);
    }

    /** Hands the operations over in the order they were added; false for a damaged batch. */
    method Iterate(ghost ops: seq<Op>) returns (ok: bool, out: seq<Op>)
      ensures Holds(ops) ==> ok && out == ops
    {
      out := [];
      if |rep| < HEADER { return false, out; }
      var input := rep[HEADER..];
      while input != []
        invariant Holds(ops) ==> |out| <= |ops| && out == ops[..|out|] && input == Data(ops[|out|..])
        decreases |input|
      {
        if Holds(ops) {
          assert |out| < |ops| && ops[|out|..][1..] == ops[|out| + 1..];
          OpRoundTrip(input, ops[|out|], Data(ops[|out| + 1..]));
        }
        var r := ReadOp(input);
        if r.None? { return false, out; }
        out := out + [r.value.op];
        input := r.value.rest;
      }
      if Holds(ops) {
        CountIs(ops);
        if |out| < |ops| {
          assert ops[|out|..][1..] == ops[|out| + 1..];
          OpRoundTrip(input, ops[|out|], Data(ops[|out| + 1..]));
        }
      }
      ok := |out| == Count();
    }
  }
}
