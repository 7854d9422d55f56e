/**
 * `Mailbox`, a byte array with an index and a cached flag, and `MailboxSession`, the log of the set and write
 * commands of an atomic session.
 */
module MailboxStore {
  import opened Basics

  /** `data[lo:hi] = part`: the bounds are clamped, and the length may change. */
  function Splice(data: seq<byte>, lo: nat, hi: nat, part: seq<byte>): seq<byte>
    requires lo <= hi
  {
    var from := if lo < |data| then lo else |data|;
    var to := if hi < |data| then hi else |data|;
    data[..from] + part + data[to..]
  }

  function Repeat(value: byte, length: nat): seq<byte> {
    seq(length, _ => value)
  }

  predicate AllZero(data: seq<byte>) {
    forall i :: 0 <= i < |data| ==> data[i] == 0
  }

  datatype Element = Element(oui: seq<byte>, kind: int, data: seq<byte>)

  datatype IndexEntry = IndexEntry(oui: seq<byte>, kind: int, offset: nat)

  /** The fields of a `Mailbox`; permission for the step-up phase is always off. */
  datatype Box = Box(data: seq<byte>, dataSet: bool, index: seq<IndexEntry>, readPermission: bool,
                     writePermission: bool)
  {
    predicate CheckBoundaries(offset: nat, length: int) {
      |data| >= offset + length
    }

    function Set(offset: nat, length: nat, value: byte): Result<Box> {
      if !writePermission then Err(MailboxPermissionError)
      else Ok(this.(data := Splice(data, offset, offset + length, Repeat(value, length)), dataSet := true))
    }

    function Write(offset: nat, part: seq<byte>): Result<Box> {
      if !writePermission then Err(MailboxPermissionError)
      else Ok(this.(data := Splice(data, offset, offset + |part|, part), dataSet := true))
    }

    function Read(offset: nat, length: nat): Result<seq<byte>> {
      if !readPermission then Err(MailboxPermissionError) else Ok(Slice(data, offset, length + offset))
    }

    predicate DataIsSet() {
      dataSet && !AllZero(data)
    }
  }

  function EmptyBox(size: nat, readPermission: bool, writePermission: bool): Box {
    Box(Repeat(0, size), false, [], readPermission, writePermission)
  }

  /** The concatenation of the elements' data, and an index line with the running offset for each. */
  function FilledBox(elements: seq<Element>, readPermission: bool, writePermission: bool): Box
  {
    if elements == [] then Box([], false, [], readPermission, writePermission)
    else
      var before, e := FilledBox(elements[..|elements| - 1], readPermission, writePermission), elements[|elements| - 1];
      var data := before.data + e.data;
      Box(data, !AllZero(data), before.index + [IndexEntry(e.oui, e.kind, |before.data|)], readPermission,
          writePermission)
  }

  class Mailbox {
    const readPermission: bool
    const writePermission: bool
    const stepUpPermission: bool := false
    var data: seq<byte>
    var dataSet: bool
    var index: seq<IndexEntry>

    function View(): Box
      reads this
    {
      Box(data, dataSet, index, readPermission, writePermission)
    }

    constructor Sized(size: nat, readPermission: bool, writePermission: bool)
      ensures View() == EmptyBox(size, readPermission, writePermission)
    {
      this.readPermission, this.writePermission := readPermission, writePermission;
      data, dataSet, index := Repeat(0, size), false, [];
    }

    constructor Filled(elements: seq<Element>, readPermission: bool, writePermission: bool)
      ensures View() == FilledBox(elements, readPermission, writePermission)
    {
      this.readPermission, this.writePermission := readPermission, writePermission;
      data, dataSet, index := [], false, [];
      new;
      var offset := 0;
      for i := 0 to |elements|
        invariant offset == |data| && !dataSet
        invariant data == FilledBox(elements[..i], readPermission, writePermission).data
        invariant index == FilledBox(elements[..i], readPermission, writePermission).index
      {
        assert elements[..i + 1][..i] == elements[..i];
        index := index + [IndexEntry(elements[i].oui, elements[i].kind, offset)];
        offset := offset + |elements[i].data|;
        data := data + elements[i].data;
      }
      assert elements[..|elements|] == elements;
      if !AllZero(data) {
        dataSet := true;
      }
    }

    method DataIsSet() returns (r: bool)
      ensures r == View().DataIsSet()
    {
      if dataSet == false {
        return false;
      }
      return !AllZero(data);
    }

    method Set(offset: nat, length: nat, value: byte) returns (r: Option<Error>)
      modifies this`data, this`dataSet
      ensures old(View()).Set(offset, length, value) == if r.Some? then Err(r.value) else Ok(View())
      ensures r.Some? ==> View() == old(View())
    {
      if !writePermission {
        return Some(MailboxPermissionError);
      }
      data := Splice(data, offset, offset + length, Repeat(value, length));
      dataSet := true;
      return None;
    }

    method Read(offset: nat, length: nat) returns (r: Result<seq<byte>>)
      ensures r == View().Read(offset, length)
    {
      if !readPermission {
        return Err(MailboxPermissionError);
      }
      return Ok(Slice(data, offset, length + offset));
    }

    method Write(offset: nat, part: seq<byte>) returns (r: Option<Error>)
      modifies this`data, this`dataSet
      ensures old(View()).Write(offset, part) == if r.Some? then Err(r.value) else Ok(View())
      ensures r.Some? ==> View() == old(View())
    {
      if !writePermission {
        return Some(MailboxPermissionError);
      }
      data := Splice(data, offset, offset + |part|, part);
      dataSet := true;
      return None;
    }
  }

  // ---------------------------------------------------------------- one command

  /** A splice in range replaces its window and nothing else; out of range it makes the data longer. */
  lemma SpliceLaw(data: seq<byte>, lo: nat, part: seq<byte>)
    ensures var r := Splice(data, lo, lo + |part|, part);
            && (|r| == |data| <==> lo + |part| <= |data| || part == [])
            && |r| >= |data|
            && (lo + |part| <= |data| ==>
                  forall k :: 0 <= k < |data| ==> r[k] == if lo <= k < lo + |part| then part[k - lo] else data[k])
  {
  }

  lemma EmptySplice(data: seq<byte>, lo: nat)
    ensures Splice(data, lo, lo, []) == data
  {
  }

  /** Index line i names element i and has the position of its bytes. */
  predicate Locates(box: Box, elements: seq<Element>, i: nat)
    requires i < |elements|
  {
    && i < |box.index| && box.index[i].oui == elements[i].oui && box.index[i].kind == elements[i].kind
    && box.index[i].offset + |elements[i].data| <= |box.data|
    && box.data[box.index[i].offset..box.index[i].offset + |elements[i].data|] == elements[i].data
  }

  lemma LocatesStays(box: Box, longer: Box, elements: seq<Element>, more: seq<Element>, i: nat)
    requires i < |elements| && Locates(box, elements, i)
    requires box.index <= longer.index && box.data <= longer.data && elements <= more
    ensures Locates(longer, more, i)
  {
    SameSlice(box.data, longer.data, box.index[i].offset, box.index[i].offset + |elements[i].data|);
  }

  lemma SameSlice(data: seq<byte>, longer: seq<byte>, from: nat, to: nat)
    requires data <= longer && from <= to <= |data|
    ensures longer[from..to] == data[from..to]
  {
  }

  /** Right after construction each index line locates exactly the bytes of its element. */
  lemma {:induction false} IndexLocates(elements: seq<Element>, readPermission: bool, writePermission: bool, i: nat)
    requires i < |elements|
    ensures var box := FilledBox(elements, readPermission, writePermission);
            |box.index| == |elements| && Locates(box, elements, i)
    decreases |elements|
  {
    var n := |elements| - 1;
    var before := FilledBox(elements[..n], readPermission, writePermission);
    var box := FilledBox(elements, readPermission, writePermission);
    if n > 0 {
      IndexLocates(elements[..n], readPermission, writePermission, if i < n then i else 0);
    }
    if i < n {
      LocatesStays(before, box, elements[..n], elements, i);
    } else {
      NewLineLocates(before, box, elements);
    }
  }

  lemma NewLineLocates(before: Box, box: Box, elements: seq<Element>)
    requires elements != [] && |before.index| == |elements| - 1
    requires var e := elements[|elements| - 1];
             box.data == before.data + e.data && box.index == before.index + [IndexEntry(e.oui, e.kind, |before.data|)]
    ensures Locates(box, elements, |elements| - 1)
  {
    assert box.data[|before.data|..] == elements[|elements| - 1].data;
  }

  // ---------------------------------------------------------------- the cached flag

  datatype Access = Setting(offset: nat, length: nat, value: byte) | Writing(offset: nat, part: seq<byte>)

  /** The box after calls of `set` and `write`; a refused call changes nothing. */
  function After(box: Box, accesses: seq<Access>): Box
  {
    if accesses == [] then box
    else
      var before, a := After(box, accesses[..|accesses| - 1]), accesses[|accesses| - 1];
      var r := if a.Setting? then before.Set(a.offset, a.length, a.value) else before.Write(a.offset, a.part);
      if r.Ok? then r.value else before
  }

  predicate FlagSound(box: Box) {
    AllZero(box.data) || box.dataSet
  }

  lemma ConstructedFlagSound(size: nat, elements: seq<Element>, readPermission: bool, writePermission: bool)
    ensures FlagSound(EmptyBox(size, readPermission, writePermission))
    ensures FlagSound(FilledBox(elements, readPermission, writePermission))
  {
  }

  /** Over every run of `set` and `write` the query tells whether some byte is not zero, cached flag or not. */
  lemma {:induction false} FlagIsHonest(box: Box, accesses: seq<Access>)
    requires FlagSound(box)
    ensures FlagSound(After(box, accesses))
    ensures var after := After(box, accesses);
            after.DataIsSet() <==> exists i :: 0 <= i < |after.data| && after.data[i] != 0
  {
    if accesses != [] {
      FlagIsHonest(box, accesses[..|accesses| - 1]);
    }
  }

  // ---------------------------------------------------------------- the log of a session

  /** A logged command: the bytes of a set request, or of a write request. */
  datatype Op = SetOp(bytes: seq<byte>) | WriteOp(bytes: seq<byte>)
  {
    function Offset(): nat {
      BigEndian(Slice(bytes, 0, 2))
    }

    /** As the boundary check computes it: a write of fewer than two bytes has a negative length. */
    function Length(): int {
      if SetOp? then BigEndian(Slice(bytes, 2, 4)) else |bytes| - 2
    }

    predicate Covers(k: nat) {
      Offset() <= k < Offset() + Length()
    }

    function ByteAt(k: nat): byte
      requires Valid() && Covers(k)
    {
      if SetOp? then bytes[4] else bytes[2 + k - Offset()]
    }

    /** A set request has five bytes; the parser sees to that. */
    predicate Valid() {
      SetOp? ==> |bytes| == 5
    }

    predicate InRange(size: nat) {
      Valid() && size >= Offset() + Length()
    }
  }

  function Tail(bytes: seq<byte>): seq<byte> {
    if |bytes| >= 2 then bytes[2..] else []
  }

  /** One round of `execute_commands`. */
  function Apply(box: Box, op: Op): Result<Box>
  {
    match op
    case WriteOp(bytes) => box.Write(op.Offset(), Tail(bytes))
    case SetOp(bytes) =>
      if |bytes| <= 4 then Err(IndexError)
      else box.Set(op.Offset(), BigEndian(Slice(bytes, 2, 4)), bytes[4])
  }

  /** The box after the commands, and the error that ended them early. */
  function ApplyAll(box: Box, ops: seq<Op>): (Box, Option<Error>)
    decreases |ops|
  {
    if ops == [] then (box, None)
    else
      match Apply(box, ops[0])
      case Err(e) => (box, Some(e))
      case Ok(next) => ApplyAll(next, ops[1..])
  }

  datatype Session = Session(commands: seq<Op>, started: bool)

  class MailboxSession {
    var commands: seq<Op>
    var started: bool

    function View(): Session
      reads this
    {
      Session(commands, started)
    }

    constructor ()
      ensures View() == Session([], false)
    {
      commands, started := [], false;
    }

    method Start()
      modifies this
      ensures View() == old(View()).(started := true)
    {
      started := true;
    }

    method Stop()
      modifies this
      ensures View() == Session([], false)
    {
      commands, started := [], false;
    }

    method AddSet(data: seq<byte>)
      modifies this
      ensures View() == old(View()).(commands := old(commands) + [SetOp(data)])
    {
      commands := commands + [SetOp(data)];
    }

    method AddWrite(data: seq<byte>)
      modifies this
      ensures View() == old(View()).(commands := old(commands) + [WriteOp(data)])
    {
      commands := commands + [WriteOp(data)];
    }

    method ExecuteCommands(mailbox: Mailbox) returns (r: Option<Error>)
      modifies mailbox
      ensures (mailbox.View(), r) == ApplyAll(old(mailbox.View()), commands)
    {
      assert commands[0..] == commands;
      for i := 0 to |commands|
        invariant ApplyAll(mailbox.View(), commands[i..]) == ApplyAll(old(mailbox.View()), commands)
      {
        var op := commands[i];
        assert commands[i..][0] == op && commands[i..][1..] == commands[i + 1..];
        if op.WriteOp? {
          r := mailbox.Write(op.Offset(), Tail(op.bytes));
        } else if |op.bytes| <= 4 {
          return Some(IndexError);
        } else {
          r := mailbox.Set(op.Offset(), BigEndian(Slice(op.bytes, 2, 4)), op.bytes[4]);
        }
        if r.Some? {
          return;
        }
      }
      return None;
    }
  }

  // ---------------------------------------------------------------- what a log does

  /** The last command that covers byte k, or -1. */
  function LastCover(ops: seq<Op>, k: nat): (i: int)
    ensures -1 <= i < |ops|
    ensures i >= 0 ==> ops[i].Covers(k)
    ensures forall j :: i < j < |ops| ==> !ops[j].Covers(k)
  {
    if ops == [] then -1
    else if ops[|ops| - 1].Covers(k) then |ops| - 1
    else LastCover(ops[..|ops| - 1], k)
  }

  predicate AllInRange(ops: seq<Op>, size: nat) {
    forall i :: 0 <= i < |ops| ==> ops[i].InRange(size)
  }

  /** What a command in range makes of the data. */
  predicate Effect(data: seq<byte>, op: Op, after: seq<byte>)
    requires op.Valid()
  {
    && |after| == |data|
    && forall k :: 0 <= k < |data| ==> after[k] == if op.Covers(k) then op.ByteAt(k) else data[k]
  }

  lemma SetEffect(data: seq<byte>, op: Op)
    requires op.SetOp? && op.InRange(|data|)
    ensures Effect(data, op, Splice(data, op.Offset(), op.Offset() + op.Length(), Repeat(op.bytes[4], op.Length())))
  {
    SpliceLaw(data, op.Offset(), Repeat(op.bytes[4], op.Length()));
  }

  lemma WriteEffect(data: seq<byte>, op: Op)
    requires op.WriteOp? && op.InRange(|data|)
    ensures Effect(data, op, Splice(data, op.Offset(), op.Offset() + |Tail(op.bytes)|, Tail(op.bytes)))
  {
    if |op.bytes| >= 2 {
      SpliceLaw(data, op.Offset(), op.bytes[2..]);
    } else {
      EmptySplice(data, op.Offset());
    }
  }

  lemma ApplyInRange(box: Box, op: Op)
    requires box.writePermission && op.InRange(|box.data|)
    ensures var r := Apply(box, op);
            r.Ok? && r.value == box.(data := r.value.data, dataSet := true) && Effect(box.data, op, r.value.data)
  {
    if op.SetOp? {
      SetEffect(box.data, op);
    } else {
      WriteEffect(box.data, op);
    }
  }

  lemma {:induction false} ApplyAllSnoc(box: Box, ops: seq<Op>, op: Op)
    ensures ApplyAll(box, ops + [op])
         == var (mid, error) := ApplyAll(box, ops);
            if error.Some? then (mid, error) else ApplyAll(mid, [op])
    decreases |ops|
  {
    if ops == [] {
      assert [] + [op] == [op];
    } else {
      assert (ops + [op])[1..] == ops[1..] + [op];
      var first := Apply(box, ops[0]);
      if first.Ok? {
        ApplyAllSnoc(first.value, ops[1..], op);
      }
    }
  }

  /** A log in range cannot fail: each byte is what the last command covering it says, or as it was. */
  lemma {:induction false} CommitLaw(box: Box, ops: seq<Op>)
    requires box.writePermission && AllInRange(ops, |box.data|)
    ensures var (after, error) := ApplyAll(box, ops);
            && error.None? && |after.data| == |box.data|
            && after == box.(data := after.data, dataSet := after.dataSet)
            && forall k :: 0 <= k < |box.data| ==>
                 after.data[k] == var i := LastCover(ops, k); if i < 0 then box.data[k] else ops[i].ByteAt(k)
    decreases |ops|
  {
    if ops != [] {
      var n := |ops| - 1;
      var before, op := ops[..n], ops[n];
      assert ops == before + [op];
      CommitLaw(box, before);
      ApplyAllSnoc(box, before, op);
      var mid := ApplyAll(box, before).0;
      ApplyInRange(mid, op);
      assert ApplyAll(mid, [op]) == (Apply(mid, op).value, None);
    }
  }
}
