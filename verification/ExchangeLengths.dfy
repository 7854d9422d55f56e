/** How long the two packets of an EXCHANGE are, in terms of the requests alone. */
module ExchangeLengths {
  import opened Basics
  import opened Encryption
  import opened Tlv
  import opened UserMachine
  import opened ExchangeCodec
  import opened ExchangeEndToEnd

  /** An object with a one-byte tag and the shortest length. */
  function ObjLength(n: nat): nat {
    1 + (if n < 0x80 then 1 else if n < 0x100 then 2 else 3) + n
  }

  function WritesLength(writes: seq<(nat, seq<byte>)>): nat
  {
    if writes == [] then 0
    else WritesLength(writes[..|writes| - 1]) + ObjLength(2 + |writes[|writes| - 1].1|)
  }

  /** The mailbox commands: the flag, the reads, the writes and the sets. */
  function CommandsLength(w: Wanted): nat {
    3 + 6 * |w.readRequests| + WritesLength(w.writeRequests) + 7 * |w.setRequests|
  }

  /** The encrypted payload and its tag. */
  function PacketLength(w: Wanted): nat {
    (if w.Empty() then 0 else ObjLength(CommandsLength(w))) + TAG_LENGTH
  }

  /** The requested bytes, each read behind its length. */
  function SlicesLength(wanted: seq<(nat, nat)>): nat
  {
    if wanted == [] then 0 else SlicesLength(wanted[..|wanted| - 1]) + 2 + wanted[|wanted| - 1].1
  }

  /** The encrypted answer: the slices, the status code and the tag. */
  function AnswerLength(w: Wanted): nat {
    SlicesLength(w.readRequests) + 4 + TAG_LENGTH
  }

  // ---------------------------------------------------------------- the command

  lemma OneObj(o: Obj)
    requires o.Valid()
    ensures |ObjBytes([o])| == |o.Bytes()|
  {
    assert [o][1..] == [];
  }

  lemma CanonicalLength(tag: nat, value: seq<byte>)
    requires 0x20 <= tag < 0x100 && tag % 0x20 != 0x1F && |value| < 0x1_0000
    ensures |ObjBytes([Canonical(tag, value)])| == ObjLength(|value|)
  {
    OneObj(Canonical(tag, value));
  }

  lemma {:induction false} ReadsLength(wanted: seq<(nat, nat)>)
    requires forall i :: 0 <= i < |wanted| ==> wanted[i].0 < 0x1_0000 && wanted[i].1 < 0x1_0000
    ensures |ObjBytes(ReadObjs(wanted))| == 6 * |wanted|
  {
    if wanted != [] {
      var n := |wanted| - 1;
      var value := U16(wanted[n].0) + U16(wanted[n].1);
      ReadsLength(wanted[..n]);
      CanonicalLength(TAG_READ, value);
      ObjBytesConcat(ReadObjs(wanted[..n]), [Canonical(TAG_READ, value)]);
    }
  }

  lemma {:induction false} SetsLength(sets: seq<(nat, nat, nat)>)
    requires forall i :: 0 <= i < |sets| ==> sets[i].0 < 0x1_0000 && sets[i].1 < 0x1_0000 && sets[i].2 < 0x100
    ensures |ObjBytes(SetObjs(sets))| == 7 * |sets|
  {
    if sets != [] {
      var n := |sets| - 1;
      var value := U16(sets[n].0) + U16(sets[n].1) + [sets[n].2];
      SetsLength(sets[..n]);
      CanonicalLength(TAG_SET, value);
      ObjBytesConcat(SetObjs(sets[..n]), [Canonical(TAG_SET, value)]);
    }
  }

  lemma {:induction false} WriteObjsLength(writes: seq<(nat, seq<byte>)>)
    requires forall i :: 0 <= i < |writes| ==> writes[i].0 < 0x1_0000 && |writes[i].1| < 0x1_0000 - 2
    ensures |ObjBytes(WriteObjs(writes))| == WritesLength(writes)
  {
    if writes != [] {
      var n := |writes| - 1;
      var value := U16(writes[n].0) + writes[n].1;
      WriteObjsLength(writes[..n]);
      CanonicalLength(TAG_WRITE, value);
      ObjBytesConcat(WriteObjs(writes[..n]), [Canonical(TAG_WRITE, value)]);
    }
  }

  lemma CommandsLengthIs(w: Wanted)
    requires w.Encodable()
    ensures |ObjBytes(MailboxObjs(w, false))| == CommandsLength(w)
  {
    var readObjs, writes, sets := ReadObjs(w.readRequests), WriteObjs(w.writeRequests), SetObjs(w.setRequests);
    ReadsLength(w.readRequests);
    WriteObjsLength(w.writeRequests);
    SetsLength(w.setRequests);
    ObjBytesConcat(readObjs, writes);
    ObjBytesConcat(readObjs + writes, sets);
    CanonicalLength(TAG_ATOMIC, [0]);
    ObjBytesConcat([Canonical(TAG_ATOMIC, [0])], readObjs + writes + sets);
  }

  /** The length of the packet that the reader sends. */
  lemma PacketLengthIs(w: Wanted)
    requires w.Encodable() && CommandsLength(w) < 0x1_0000
    ensures |ObjBytes(MailboxObjs(w, false))| < 0x1_0000
            && |Payload(w, false)| + TAG_LENGTH == PacketLength(w) < 0x2_0000
  {
    CommandsLengthIs(w);
    if !w.Empty() {
      CanonicalLength(TAG_MAILBOX, ObjBytes(MailboxObjs(w, false)));
    }
  }

  // ---------------------------------------------------------------- the answer

  lemma {:induction false} FramedLength(data: seq<byte>, wanted: seq<(nat, nat)>)
    requires forall i :: 0 <= i < |wanted| ==> wanted[i].0 + wanted[i].1 <= |data|
    ensures |Framed(Slices(data, wanted))| == SlicesLength(wanted)
  {
    if wanted != [] {
      var n := |wanted| - 1;
      FramedLength(data, wanted[..n]);
      assert Slices(data, wanted)[..n] == Slices(data, wanted[..n]);
    }
  }

  /** The length of the packet that the device answers with. */
  lemma AnswerLengthIs(data: seq<byte>, w: Wanted)
    requires InRange(w, |data|)
    ensures |Reply(data, w)| + TAG_LENGTH == AnswerLength(w)
  {
    FramedLength(data, w.readRequests);
  }
}
