/** The mailbox behind a call in the terms of its caller: which write or set decides each byte. */
module ExchangeWritten {
  import opened Basics
  import opened MailboxStore
  import opened MailboxExchange
  import opened ExchangeCodec
  import opened ExchangeEndToEnd

  /** The last of the writes that covers byte k, or -1. */
  function LastWrite(writes: seq<(nat, seq<byte>)>, k: nat): (i: int)
    ensures -1 <= i < |writes|
    ensures i >= 0 ==> writes[i].0 <= k < writes[i].0 + |writes[i].1|
    ensures forall j :: i < j < |writes| ==> !(writes[j].0 <= k < writes[j].0 + |writes[j].1|)
  {
    if writes == [] then -1
    else
      var last := writes[|writes| - 1];
      if last.0 <= k < last.0 + |last.1| then |writes| - 1 else LastWrite(writes[..|writes| - 1], k)
  }

  /** The last of the sets that covers byte k, or -1. */
  function LastSet(sets: seq<(nat, nat, nat)>, k: nat): (i: int)
    ensures -1 <= i < |sets|
    ensures i >= 0 ==> sets[i].0 <= k < sets[i].0 + sets[i].1
    ensures forall j :: i < j < |sets| ==> !(sets[j].0 <= k < sets[j].0 + sets[j].1)
  {
    if sets == [] then -1
    else
      var last := sets[|sets| - 1];
      if last.0 <= k < last.0 + last.1 then |sets| - 1 else LastSet(sets[..|sets| - 1], k)
  }

  /** Byte k behind a call, in the caller's terms: the last write decides, without one the last set, else nothing. */
  function ByteAfter(data: seq<byte>, w: Wanted, k: nat): nat
    requires k < |data|
  {
    var i, j := LastWrite(w.writeRequests, k), LastSet(w.setRequests, k);
    if i >= 0 then w.writeRequests[i].1[k - w.writeRequests[i].0]
    else if j >= 0 then w.setRequests[j].2
    else data[k]
  }

  lemma {:induction false} LastCoverConcat(first: seq<Op>, second: seq<Op>, k: nat)
    ensures var i, j := LastCover(second, k), LastCover(first, k);
            LastCover(first + second, k) == if i >= 0 then |first| + i else j
  {
    if second == [] {
      assert first + second == first;
    } else {
      var before, last := second[..|second| - 1], second[|second| - 1];
      assert (first + second)[..|first + second| - 1] == first + before;
      assert (first + second)[|first + second| - 1] == last;
      LastCoverConcat(first, before, k);
    }
  }

  lemma WriteCovers(offset: nat, data: seq<byte>, k: nat)
    requires offset < 0x1_0000
    ensures var op := WriteOp(U16(offset) + data);
            (op.Covers(k) <==> offset <= k < offset + |data|) && (op.Covers(k) ==> op.ByteAt(k) == data[k - offset])
  {
    WriteValue(offset, data);
    if offset <= k < offset + |data| {
      assert (U16(offset) + data)[2..][k - offset] == data[k - offset];
    }
  }

  lemma SetCovers(offset: nat, length: nat, value: byte, k: nat)
    requires offset < 0x1_0000 && length < 0x1_0000
    ensures var op := SetOp(U16(offset) + U16(length) + [value]);
            op.Valid() && (op.Covers(k) <==> offset <= k < offset + length) && (op.Covers(k) ==> op.ByteAt(k) == value)
  {
    SetValue(offset, length, value);
  }

  /** The commands of a log that are the writes of a caller. */
  predicate AreWrites(ops: seq<Op>, writes: seq<(nat, seq<byte>)>) {
    |ops| == |writes|
    && forall i :: 0 <= i < |ops| ==> writes[i].0 < 0x1_0000 && ops[i] == WriteOp(U16(writes[i].0) + writes[i].1)
  }

  predicate AreSets(ops: seq<Op>, sets: seq<(nat, nat, nat)>) {
    |ops| == |sets|
    && forall i :: 0 <= i < |ops| ==>
         && sets[i].0 < 0x1_0000 && sets[i].1 < 0x1_0000 && sets[i].2 < 0x100
         && ops[i] == SetOp(U16(sets[i].0) + U16(sets[i].1) + [sets[i].2])
  }

  lemma LogAre(w: Wanted)
    requires w.Encodable()
    ensures AreWrites(WriteOps(Values(WriteObjs(w.writeRequests))), w.writeRequests)
    ensures AreSets(SetOps(Values(SetObjs(w.setRequests))), w.setRequests)
  {
  }

  lemma {:induction false} LastWriteIs(ops: seq<Op>, writes: seq<(nat, seq<byte>)>, k: nat)
    requires AreWrites(ops, writes)
    ensures LastCover(ops, k) == LastWrite(writes, k)
  {
    if ops != [] {
      var n := |ops| - 1;
      WriteCovers(writes[n].0, writes[n].1, k);
      LastWriteIs(ops[..n], writes[..n], k);
    }
  }

  lemma {:induction false} LastSetIs(ops: seq<Op>, sets: seq<(nat, nat, nat)>, k: nat)
    requires AreSets(ops, sets)
    ensures LastCover(ops, k) == LastSet(sets, k)
  {
    if ops != [] {
      var n := |ops| - 1;
      SetCovers(sets[n].0, sets[n].1, sets[n].2, k);
      LastSetIs(ops[..n], sets[..n], k);
    }
  }

  /** The byte that a log of sets and writes leaves. */
  predicate Decides(data: seq<byte>, log: seq<Op>, k: nat, value: nat)
    requires k < |data|
  {
    var i := LastCover(log, k);
    if i < 0 then value == data[k] as nat else log[i].Valid() && value == log[i].ByteAt(k) as nat
  }

  lemma WriteDecides(data: seq<byte>, sets: seq<Op>, writes: seq<Op>, w: Wanted, k: nat)
    requires AreWrites(writes, w.writeRequests) && k < |data| && LastWrite(w.writeRequests, k) >= 0
    ensures Decides(data, sets + writes, k, ByteAfter(data, w, k))
  {
    var i := LastWrite(w.writeRequests, k);
    LastWriteIs(writes, w.writeRequests, k);
    LastCoverConcat(sets, writes, k);
    WriteCovers(w.writeRequests[i].0, w.writeRequests[i].1, k);
    assert (sets + writes)[|sets| + i] == writes[i];
  }

  lemma SetDecides(data: seq<byte>, sets: seq<Op>, writes: seq<Op>, w: Wanted, k: nat)
    requires AreSets(sets, w.setRequests) && AreWrites(writes, w.writeRequests) && k < |data|
    requires LastWrite(w.writeRequests, k) < 0
    ensures Decides(data, sets + writes, k, ByteAfter(data, w, k))
  {
    var j := LastSet(w.setRequests, k);
    LastWriteIs(writes, w.writeRequests, k);
    LastSetIs(sets, w.setRequests, k);
    LastCoverConcat(sets, writes, k);
    if j >= 0 {
      SetCovers(w.setRequests[j].0, w.setRequests[j].1, w.setRequests[j].2, k);
      assert (sets + writes)[j] == sets[j];
    }
  }

  /** The mailbox behind a call, byte for byte: writes win over sets, and later ones over earlier ones. */
  lemma WrittenMeans(box: Box, w: Wanted, after: Box, k: nat)
    requires w.Encodable() && Written(box, w, Some(after)) && k < |box.data|
    ensures |after.data| == |box.data| && after.data[k] as nat == ByteAfter(box.data, w, k)
  {
    LogAre(w);
    var sets, writes := SetOps(Values(SetObjs(w.setRequests))), WriteOps(Values(WriteObjs(w.writeRequests)));
    if LastWrite(w.writeRequests, k) >= 0 {
      WriteDecides(box.data, sets, writes, w, k);
    } else {
      SetDecides(box.data, sets, writes, w, k);
    }
    assert RequestsOf(w, false).Log() == sets + writes;
  }
}
