/** What nanopb promises of a message that is encoded and decoded again. */
module PbRoundTrip {
  import opened InternalKeys
  import opened ReadSpec
  import opened Coding
  import opened PbMessages
  import opened PbEncode
  import opened PbStream
  import opened PbDecode

  /** Into a buffer of `size` bytes and back.  Encoding fails exactly when a count or size is out
      of bounds or the buffer is too small; the message comes back whole exactly when in addition
      every string that is sent leaves room for its NUL. */
  method EncodeAndDecode(fields: seq<FieldDesc>, m: Message, size: nat) returns (encoded: bool, r: Option<Message>)
    requires ValidFields(fields) && ValidMessage(Typed, fields, m) && size < TWO_32
    ensures encoded <==> ValidMessage(Bounded, fields, m) && |MessageBytes(fields, m)| <= size
    ensures encoded ==> r == if ValidMessage(Terminated, fields, m) then Some(m) else None
  {
    var o := new OStream(false, size, []);
    encoded := Encode(o, fields, m);
    if !encoded {
      return false, None;
    }
    assert o.buffer == MessageBytes(fields, m);
    var s := new IStream(o.buffer);
    r := Decode(s, fields, m);
  }

  /** A proto3 string of four characters in an array of four goes out but is not taken back. */
  lemma FullStringIsSentButRefused()
    ensures var f := [FieldDesc(1, Text(4), Singular)];
      var m := [One(Data([97, 98, 99, 100]))];
      ValidFields(f) && ValidMessage(Bounded, f, m) && !ValidMessage(Terminated, f, m)
  {
    var f := [FieldDesc(1, Text(4), Singular)];
    var m := [One(Data([97, 98, 99, 100]))];
    assert ValidField(f[0]);
    assert !ValidContent(Terminated, f[0], m[0]);
  }
}
