/**
 * `APDU.create_command` and `APDU.create_response`: how a payload is cut into frames. The `Apdu` object
 * holds the length limits; the functions above it say what its methods answer.
 */
module Fragmentation {
  import opened Basics
  import opened ApduCodec

  datatype Transport = Nfc | BleUwb | SocketNfc | SocketBle

  const COMMAND_MAX: nat := 255
  const RESPONSE_MAX: nat := 256
  const BLE_MAX_PAYLOAD: nat := 247 - 1 - 1 - 2
  const BLE_COMMAND_MAX: nat := BLE_MAX_PAYLOAD - 4
  const BLE_RESPONSE_MAX: nat := BLE_MAX_PAYLOAD - 2

  /** The fields of an `APDU` object that bound its commands and responses. */
  datatype Limits = Limits(transport: Transport, extended: bool, maxCommandApdu: nat, maxResponseApdu: nat,
                           commandLength: int)
  {
    /** As `Device.__init__`, `set_extended_length` and the two-byte fields of the SELECT response leave them. */
    predicate Standard() {
      && commandLength == (if transport.BleUwb? then BLE_COMMAND_MAX else COMMAND_MAX)
      && maxCommandApdu <= 0xFFFF
      && maxResponseApdu <= 0xFFFF
    }
  }

  // ---------------------------------------------------------------- cutting commands

  /** `max_data_len` after the overheads are taken off; they are computed from the whole payload. */
  function ChunkSize(l: Limits, dataLen: nat, le: Option<nat>): Result<int>
  {
    if !l.extended then
      if le.Some? && le.value > RESPONSE_MAX then Err(MessageTooLongError)
      else if !l.transport.BleUwb? then Ok(l.commandLength)
      else if dataLen >= 256 then Err(MessageTooLongError)
      else if le.Some? && le.value >= 256 then Err(UnboundLocalError)
      else Ok(l.commandLength - (if dataLen == 0 then 0 else 1) - (if le.None? then 0 else 1))
    else
      var leLen := if le.None? then 0
                   else if le.value < 256 && dataLen < 256 then 1
                   else if dataLen == 0 then 3 else 2;
      if leLen != 2 && dataLen > 0xFFFF then Err(MessageTooLongError)
      else
        var lcLen := if leLen == 2 then 3 else if dataLen == 0 then 0 else if dataLen < 256 then 1 else 3;
        Ok(l.maxCommandApdu - 4 - lcLen - leLen)
  }

  /** The cutting loop ends: the chunks are not empty, or the payload fits at once. */
  predicate Terminates(size: int, dataLen: nat) {
    size >= 1 || dataLen <= size
  }

  function Chunks(data: seq<byte>, size: int): (parts: seq<seq<byte>>)
    requires Terminates(size, |data|)
    ensures |parts| >= 1
    decreases |data|
  {
    if |data| <= size then [data] else [data[..size]] + Chunks(data[size..], size)
  }

  function BuildAll(cla: nat, ins: nat, p1: nat, p2: nat, parts: seq<seq<byte>>, le: Option<nat>): Result<seq<Command>>
  {
    if parts == [] then Ok([])
    else
      match Encode(if |parts| == 1 then cla else WithChainBit(cla), ins, p1, p2, parts[0], le)
      case Err(e) => Err(e)
      case Ok(first) =>
        Prepend([first], BuildAll(cla, ins, p1, p2, parts[1..], le))
  }

  predicate Answers(l: Limits, dataLen: nat, le: Option<nat>) {
    var size := ChunkSize(l, dataLen, le);
    size.Ok? ==> Terminates(size.value, dataLen)
  }

  /** What `create_command` returns or raises. */
  function Commands(l: Limits, cla: nat, ins: nat, p1: nat, p2: nat, data: seq<byte>, le: Option<nat>)
    : Result<seq<Command>>
    requires Answers(l, |data|, le)
  {
    match ChunkSize(l, |data|, le)
    case Err(e) => Err(e)
    case Ok(size) => BuildAll(cla, ins, p1, p2, Chunks(data, size), le)
  }

  // ---------------------------------------------------------------- when the cutting loop ends

  /** Python's `s[n:]`, which counts from the end for a negative `n`. */
  function PyDrop(s: seq<byte>, n: int): (r: seq<byte>)
    ensures 0 <= n <= |s| ==> r == s[n..]
    ensures n < 0 && |s| <= -n ==> r == s
    ensures n < 0 && |s| > -n ==> |r| == -n
  {
    if n >= 0 then (if n <= |s| then s[n..] else [])
    else if |s| + n >= 0 then s[|s| + n..] else s
  }

  /** The variable `data` after k rounds of the loop, for any chunk size. */
  function Remaining(data: seq<byte>, size: int, k: nat): seq<byte>
  {
    if k == 0 then data else PyDrop(Remaining(data, size, k - 1), size)
  }

  predicate EndsAfter(data: seq<byte>, size: int, k: nat) {
    |Remaining(data, size, k)| <= size && forall j: nat :: j < k ==> |Remaining(data, size, j)| > size
  }

  lemma {:induction false} NeverEnds(data: seq<byte>, size: int, k: nat)
    requires size < 1 && size < |data|
    ensures |Remaining(data, size, k)| > size
    ensures size == 0 ==> Remaining(data, size, k) == data
  {
    if k > 0 {
      NeverEnds(data, size, k - 1);
    }
  }

  lemma {:induction false} EndsSomewhere(data: seq<byte>, size: int, k: nat) returns (end: nat)
    requires size >= 1 && forall j: nat :: j < k ==> |Remaining(data, size, j)| > size
    ensures EndsAfter(data, size, end)
    decreases |Remaining(data, size, k)|
  {
    if |Remaining(data, size, k)| <= size {
      end := k;
    } else {
      assert Remaining(data, size, k + 1) == Remaining(data, size, k)[size..];
      end := EndsSomewhere(data, size, k + 1);
    }
  }

  /** A positive chunk size, or a payload that fits, is exactly what the loop needs. */
  lemma CuttingEndsIff(data: seq<byte>, size: int)
    ensures (exists k: nat :: EndsAfter(data, size, k)) <==> Terminates(size, |data|)
  {
    if size >= 1 {
      var end := EndsSomewhere(data, size, 0);
    } else if |data| <= size {
      assert EndsAfter(data, size, 0);
    } else {
      forall k: nat ensures !EndsAfter(data, size, k) {
        NeverEnds(data, size, k);
      }
    }
  }

  // ---------------------------------------------------------------- the fragmentation laws

  /** The chunks put together are the payload; all but the last are full, and none of several is empty. */
  lemma {:induction false} ChunksLaw(data: seq<byte>, size: int)
    requires Terminates(size, |data|)
    ensures var parts := Chunks(data, size);
            && Concat(parts) == data
            && (forall i :: 0 <= i < |parts| - 1 ==> |parts[i]| == size)
            && |parts[|parts| - 1]| <= size
            && (|parts| >= 2 ==> size >= 1 && forall i :: 0 <= i < |parts| ==> parts[i] != [])
    decreases |data|
  {
    var parts := Chunks(data, size);
    if |data| <= size {
      assert Concat([data]) == data + Concat<byte>([]);
    } else {
      ChunksLaw(data[size..], size);
      var rest := Chunks(data[size..], size);
      assert parts[0] == data[..size] && parts[1..] == rest;
      assert forall i :: 1 <= i < |parts| ==> parts[i] == rest[i - 1];
      assert data == data[..size] + data[size..];
      if |rest| == 1 {
        assert rest[0] == data[size..];
      }
    }
  }

  /** The number of chunks is the length divided by the size, rounded up. */
  lemma {:induction false} ChunkCount(data: seq<byte>, size: nat)
    requires size >= 1
    ensures var n := |Chunks(data, size)|;
            |data| <= n * size && (n >= 2 ==> (n - 1) * size < |data|)
    decreases |data|
  {
    if |data| > size {
      ChunkCount(data[size..], size);
      var n := |Chunks(data[size..], size)|;
      assert (n + 1) * size == n * size + size && n * size == (n - 1) * size + size;
    }
  }

  /** Command i of a chain of n: the i-th part, chained unless it is the last. */
  predicate IsFragment(c: Command, cla: byte, ins: byte, p1: byte, p2: byte, part: seq<byte>, le: Option<nat>,
                       last: bool) {
    Encode(if last then cla else WithChainBit(cla), ins, p1, p2, part, le) == Ok(c)
  }

  lemma {:induction false} BuildAllLaw(cla: byte, ins: byte, p1: byte, p2: byte, parts: seq<seq<byte>>, le: Option<nat>)
    requires forall i :: 0 <= i < |parts| ==> Representable(parts[i], le)
    ensures var r := BuildAll(cla, ins, p1, p2, parts, le);
            r.Ok? && |r.value| == |parts| &&
            forall i :: 0 <= i < |parts| ==> IsFragment(r.value[i], cla, ins, p1, p2, parts[i], le, i == |parts| - 1)
  {
    if parts != [] {
      BuildAllLaw(cla, ins, p1, p2, parts[1..], le);
      CommandRoundTrip(if |parts| == 1 then cla else WithChainBit(cla), ins, p1, p2, parts[0], le);
      var rest := BuildAll(cla, ins, p1, p2, parts[1..], le).value;
      var r := BuildAll(cla, ins, p1, p2, parts, le).value;
      forall i | 0 <= i < |parts|
        ensures IsFragment(r[i], cla, ins, p1, p2, parts[i], le, i == |parts| - 1)
      {
        if i > 0 {
          assert r[i] == rest[i - 1] && parts[i] == parts[1..][i - 1];
        }
      }
    }
  }

  predicate TwoByteLe(le: Option<nat>) {
    le.Some? ==> le.value <= 0xFFFF
  }

  function FrameLimit(l: Limits): nat {
    if l.extended then l.maxCommandApdu
    else if l.transport.BleUwb? then BLE_MAX_PAYLOAD
    else 4 + 1 + COMMAND_MAX + 1
  }

  /** Le 256 passes the length check of short mode on NFC, but makes the frame extended. */
  predicate TooLong(l: Limits, part: seq<byte>, le: Option<nat>) {
    !l.extended && !l.transport.BleUwb? && le == Some(256) && |part| > 252
  }

  /** A frame fits its mode although its overhead was computed from the whole payload, with one exception. */
  lemma FrameFits(l: Limits, cla: byte, ins: byte, p1: byte, p2: byte, dataLen: nat, part: seq<byte>, le: Option<nat>)
    requires l.Standard() && TwoByteLe(le)
    requires ChunkSize(l, dataLen, le).Ok? && |part| <= ChunkSize(l, dataLen, le).value
    requires |part| <= dataLen && (part == [] ==> dataLen == 0)
    ensures var c := Encode(cla, ins, p1, p2, part, le);
            c.Ok? && (|c.value.wire| <= FrameLimit(l) <==> !TooLong(l, part, le))
  {
    CommandRoundTrip(cla, ins, p1, p2, part, le);
    assert |Encode(cla, ins, p1, p2, part, le).value.wire|
        == 4 + |LcField(|part|, le).value| + |part| + |LeField(|part|, le).value|;
  }

  function Payloads(commands: seq<Command>): (parts: seq<seq<byte>>)
    ensures |parts| == |commands| && forall i :: 0 <= i < |parts| ==> parts[i] == commands[i].Payload()
  {
    if commands == [] then [] else [commands[0].Payload()] + Payloads(commands[1..])
  }

  lemma {:induction false} PartsAreSmaller(data: seq<byte>, size: int, i: nat)
    requires Terminates(size, |data|) && i < |Chunks(data, size)|
    ensures |Chunks(data, size)[i]| <= |data|
    ensures Chunks(data, size)[i] == [] ==> data == []
    decreases |data|
  {
    if |data| > size && i > 0 {
      PartsAreSmaller(data[size..], size, i - 1);
      assert data[size..] != [];
    }
  }

  /** A chain of commands that carries `data`: chained up to the last, every frame within the limit. */
  predicate IsRequestChain(commands: seq<Command>, cla: byte, ins: byte, p1: byte, p2: byte, data: seq<byte>,
                           le: Option<nat>) {
    && |commands| >= 1
    && Concat(Payloads(commands)) == data
    && (forall i :: 0 <= i < |commands| ==> ChainCommand(commands, i, cla, ins, p1, p2, le))
  }

  /** Command i is the encoding of its own payload, chained up to the last. */
  predicate ChainCommand(commands: seq<Command>, i: nat, cla: byte, ins: byte, p1: byte, p2: byte, le: Option<nat>)
    requires i < |commands|
  {
    && Representable(commands[i].Payload(), le)
    && IsFragment(commands[i], cla, ins, p1, p2, commands[i].Payload(), le, i == |commands| - 1)
  }

  /** The chain that `create_command` makes of a payload. */
  lemma RequestFragmentation(l: Limits, cla: byte, ins: byte, p1: byte, p2: byte, data: seq<byte>, le: Option<nat>)
    requires l.Standard() && TwoByteLe(le)
    requires ChunkSize(l, |data|, le).Ok? && Terminates(ChunkSize(l, |data|, le).value, |data|)
    ensures var r := Commands(l, cla, ins, p1, p2, data, le);
            && r.Ok?
            && IsRequestChain(r.value, cla, ins, p1, p2, data, le)
            && Payloads(r.value) == Chunks(data, ChunkSize(l, |data|, le).value)
  {
    var size := ChunkSize(l, |data|, le).value;
    assert size <= 0xFFFF;
    ChunksAreChain(cla, ins, p1, p2, data, le, size);
  }

  /** The commands carry the chunks. */
  lemma RequestPayloads(l: Limits, cla: byte, ins: byte, p1: byte, p2: byte, data: seq<byte>, le: Option<nat>)
    requires l.Standard() && TwoByteLe(le)
    requires ChunkSize(l, |data|, le).Ok? && Terminates(ChunkSize(l, |data|, le).value, |data|)
    ensures var r := Commands(l, cla, ins, p1, p2, data, le);
            r.Ok? && r.value != [] && Payloads(r.value) == Chunks(data, ChunkSize(l, |data|, le).value)
  {
    RequestFragmentation(l, cla, ins, p1, p2, data, le);
  }

  /** The last command carries the last chunk. */
  lemma LastCommand(l: Limits, cla: byte, ins: byte, p1: byte, p2: byte, data: seq<byte>, le: Option<nat>,
                    commands: seq<Command>)
    requires l.Standard() && TwoByteLe(le) && Answers(l, |data|, le)
    requires Commands(l, cla, ins, p1, p2, data, le) == Ok(commands)
    ensures ChunkSize(l, |data|, le).Ok? && commands != []
    ensures var parts := Chunks(data, ChunkSize(l, |data|, le).value);
            parts != [] && commands[|commands| - 1].Payload() == parts[|parts| - 1]
  {
    RequestPayloads(l, cla, ins, p1, p2, data, le);
    LastPart(commands, Chunks(data, ChunkSize(l, |data|, le).value));
  }

  lemma LastPart(commands: seq<Command>, parts: seq<seq<byte>>)
    requires commands != [] && Payloads(commands) == parts
    ensures parts != [] && commands[|commands| - 1].Payload() == parts[|parts| - 1]
  {
  }

  lemma ChunksAreChain(cla: byte, ins: byte, p1: byte, p2: byte, data: seq<byte>, le: Option<nat>, size: int)
    requires size <= 0xFFFF && Terminates(size, |data|) && TwoByteLe(le)
    ensures var r := BuildAll(cla, ins, p1, p2, Chunks(data, size), le);
            r.Ok? && IsRequestChain(r.value, cla, ins, p1, p2, data, le) && Payloads(r.value) == Chunks(data, size)
  {
    var parts := Chunks(data, size);
    ChunksLaw(data, size);
    forall i | 0 <= i < |parts|
      ensures Representable(parts[i], le)
    {
      ChunkBound(data, size, i);
    }
    BuildAllLaw(cla, ins, p1, p2, parts, le);
    FragmentsAreChain(BuildAll(cla, ins, p1, p2, parts, le).value, cla, ins, p1, p2, parts, le);
  }

  lemma FragmentsAreChain(commands: seq<Command>, cla: byte, ins: byte, p1: byte, p2: byte, parts: seq<seq<byte>>,
                          le: Option<nat>)
    requires |commands| == |parts| >= 1 && forall i :: 0 <= i < |parts| ==> Representable(parts[i], le)
    requires forall i :: 0 <= i < |parts| ==> IsFragment(commands[i], cla, ins, p1, p2, parts[i], le, i == |parts| - 1)
    ensures IsRequestChain(commands, cla, ins, p1, p2, Concat(parts), le) && Payloads(commands) == parts
  {
    FragmentPayloads(commands, cla, ins, p1, p2, parts, le);
    forall i | 0 <= i < |commands|
      ensures ChainCommand(commands, i, cla, ins, p1, p2, le)
    {
      PartIsChained(commands, i, cla, ins, p1, p2, parts[i], le);
    }
  }

  lemma PartIsChained(commands: seq<Command>, i: nat, cla: byte, ins: byte, p1: byte, p2: byte, part: seq<byte>,
                      le: Option<nat>)
    requires i < |commands| && Representable(part, le)
    requires IsFragment(commands[i], cla, ins, p1, p2, part, le, i == |commands| - 1)
    ensures ChainCommand(commands, i, cla, ins, p1, p2, le)
  {
  }

  lemma {:induction false} FragmentPayloads(commands: seq<Command>, cla: byte, ins: byte, p1: byte, p2: byte,
                                            parts: seq<seq<byte>>, le: Option<nat>)
    requires |commands| == |parts|
    requires forall i :: 0 <= i < |parts| ==> IsFragment(commands[i], cla, ins, p1, p2, parts[i], le, i == |parts| - 1)
    ensures Payloads(commands) == parts
  {
    forall i | 0 <= i < |parts|
      ensures Payloads(commands)[i] == parts[i]
    {
      assert IsFragment(commands[i], cla, ins, p1, p2, parts[i], le, i == |parts| - 1);
    }
  }

  /** Every frame of the chain fits its mode, again with that exception. */
  lemma RequestFramesFit(l: Limits, cla: byte, ins: byte, p1: byte, p2: byte, data: seq<byte>, le: Option<nat>,
                         commands: seq<Command>, i: nat)
    requires l.Standard() && TwoByteLe(le)
    requires ChunkSize(l, |data|, le).Ok? && Terminates(ChunkSize(l, |data|, le).value, |data|)
    requires Commands(l, cla, ins, p1, p2, data, le) == Ok(commands) && i < |commands|
    ensures |commands[i].wire| <= FrameLimit(l) <==> !TooLong(l, commands[i].Payload(), le)
  {
    var size := ChunkSize(l, |data|, le).value;
    var part := commands[i].Payload();
    assert IsFragment(commands[i], cla, ins, p1, p2, part, le, i == |commands| - 1)
           && part == Chunks(data, size)[i] by {
      RequestFragmentation(l, cla, ins, p1, p2, data, le);
      assert ChainCommand(commands, i, cla, ins, p1, p2, le);
      assert Payloads(commands)[i] == part;
    }
    assert |part| <= size && |part| <= |data| && (part == [] ==> data == []) by {
      ChunksLaw(data, size);
      PartsAreSmaller(data, size, i);
    }
    FragmentFits(l, commands[i], cla, ins, p1, p2, |data|, part, le, i == |commands| - 1);
  }

  lemma FragmentFits(l: Limits, c: Command, cla: byte, ins: byte, p1: byte, p2: byte, dataLen: nat,
                     part: seq<byte>, le: Option<nat>, last: bool)
    requires l.Standard() && TwoByteLe(le)
    requires ChunkSize(l, dataLen, le).Ok? && |part| <= ChunkSize(l, dataLen, le).value
    requires |part| <= dataLen && (part == [] ==> dataLen == 0)
    requires IsFragment(c, cla, ins, p1, p2, part, le, last)
    ensures c.Payload() == part && (|c.wire| <= FrameLimit(l) <==> !TooLong(l, part, le))
  {
    FrameFits(l, if last then cla else WithChainBit(cla), ins, p1, p2, dataLen, part, le);
  }

  /** The bytes of a frame around a payload: header, Lc and Le as the encoder writes them, which stops at 2^24. */
  function Overhead(dataLen: nat, le: Option<nat>): nat
    requires TwoByteLe(le)
  {
    var n := if dataLen < 0x100_0000 then dataLen else 0xFF_FFFF;
    4 + |LcField(n, le).value| + |LeField(n, le).value|
  }

  lemma FrameLength(c: Command, cla: byte, ins: byte, p1: byte, p2: byte, part: seq<byte>, le: Option<nat>)
    requires |part| < 0x100_0000 && TwoByteLe(le) && Encode(cla, ins, p1, p2, part, le) == Ok(c)
    ensures |c.wire| == |part| + Overhead(|part|, le) && c.Payload() == part
  {
  }

  /**
   * No more fits into a frame: 255 bytes of data in short mode, the 243 bytes of a BLE payload, or in extended mode the
   * announced maximum but for the bytes by which Lc and Le of the part are shorter than those of the whole payload.
   */
  predicate IsFull(l: Limits, c: Command, dataLen: nat, le: Option<nat>)
    requires TwoByteLe(le)
  {
    if l.extended then |c.wire| + (Overhead(dataLen, le) - Overhead(|c.Payload()|, le)) == l.maxCommandApdu
    else if l.transport.BleUwb? then |c.wire| == 243
    else |c.Payload()| == 255
  }

  /** A payload that goes out in one frame. */
  predicate FitsOneFrame(l: Limits, dataLen: nat, le: Option<nat>)
    requires TwoByteLe(le)
  {
    if l.extended then dataLen + Overhead(dataLen, le) <= l.maxCommandApdu
    else if l.transport.BleUwb? then dataLen + Overhead(dataLen, le) <= 243
    else dataLen <= 255
  }

  /** What makes `create_command` raise before it cuts. */
  function Refusal(l: Limits, dataLen: nat, le: Option<nat>): Option<Error> {
    var ble := !l.extended && l.transport.BleUwb?;
    if !l.extended && le.Some? && le.value > 256 then Some(MessageTooLongError)
    else if ble && dataLen >= 256 then Some(MessageTooLongError)
    else if ble && le == Some(256) then Some(UnboundLocalError)
    else if l.extended && dataLen > 65535 && le.None? then Some(MessageTooLongError)
    else None
  }

  lemma SizeIsRoom(l: Limits, dataLen: nat, le: Option<nat>)
    requires l.Standard() && TwoByteLe(le) && ChunkSize(l, dataLen, le).Ok?
    ensures var size := ChunkSize(l, dataLen, le).value;
            size == if l.extended then l.maxCommandApdu - Overhead(dataLen, le)
                    else if l.transport.BleUwb? then 243 - Overhead(dataLen, le)
                    else 255
  {
  }

  lemma RefusalIs(l: Limits, dataLen: nat, le: Option<nat>)
    requires l.Standard() && TwoByteLe(le)
    ensures var refusal, size := Refusal(l, dataLen, le), ChunkSize(l, dataLen, le);
            if refusal.Some? then size == Err(refusal.value) else size.Ok?
  {
  }

  /** A part of the computed size in a frame that is not the last. */
  lemma PartIsFull(l: Limits, c: Command, cla: byte, ins: byte, p1: byte, p2: byte, dataLen: nat, le: Option<nat>)
    requires l.Standard() && TwoByteLe(le) && ChunkSize(l, dataLen, le).Ok?
    requires |c.Payload()| == ChunkSize(l, dataLen, le).value
    requires IsFragment(c, cla, ins, p1, p2, c.Payload(), le, false) && c.Payload() != [] && |c.Payload()| < dataLen
    ensures IsFull(l, c, dataLen, le)
  {
    SizeIsRoom(l, dataLen, le);
    FrameLength(c, WithChainBit(cla), ins, p1, p2, c.Payload(), le);
  }

  /** Command i of a chain before the last, where the sizes are those of `ChunksLaw`. */
  lemma CommandIsFull(l: Limits, cla: byte, ins: byte, p1: byte, p2: byte, data: seq<byte>, le: Option<nat>,
                      commands: seq<Command>, i: nat)
    requires l.Standard() && TwoByteLe(le) && Answers(l, |data|, le)
    requires Commands(l, cla, ins, p1, p2, data, le) == Ok(commands) && i < |commands| - 1
    ensures IsFull(l, commands[i], |data|, le)
  {
    var size := ChunkSize(l, |data|, le).value;
    RequestFragmentation(l, cla, ins, p1, p2, data, le);
    ChunkBeforeLast(data, size, i);
    assert ChainCommand(commands, i, cla, ins, p1, p2, le) && Payloads(commands)[i] == Chunks(data, size)[i];
    PartIsFull(l, commands[i], cla, ins, p1, p2, |data|, le);
  }

  lemma ChunkBeforeLast(data: seq<byte>, size: int, i: nat)
    requires Terminates(size, |data|) && i < |Chunks(data, size)| - 1
    ensures 1 <= |Chunks(data, size)[i]| == size < |data|
  {
    ChunksLaw(data, size);
  }

  /** Every command is refused, or every one but the last is full, and there is one exactly if the payload fits it. */
  lemma CommandsAreFull(l: Limits, cla: byte, ins: byte, p1: byte, p2: byte, data: seq<byte>, le: Option<nat>)
    requires l.Standard() && TwoByteLe(le) && Answers(l, |data|, le)
    ensures var r, refusal := Commands(l, cla, ins, p1, p2, data, le), Refusal(l, |data|, le);
            if refusal.Some? then r == Err(refusal.value)
            else
              && r.Ok? && (|r.value| == 1 <==> FitsOneFrame(l, |data|, le))
              && forall i :: 0 <= i < |r.value| - 1 ==> IsFull(l, r.value[i], |data|, le)
  {
    RefusalIs(l, |data|, le);
    if Refusal(l, |data|, le).None? {
      var r := Commands(l, cla, ins, p1, p2, data, le);
      RequestPayloads(l, cla, ins, p1, p2, data, le);
      SizeIsRoom(l, |data|, le);
      OneChunkIff(data, ChunkSize(l, |data|, le).value);
      forall i | 0 <= i < |r.value| - 1
        ensures IsFull(l, r.value[i], |data|, le)
      {
        CommandIsFull(l, cla, ins, p1, p2, data, le, r.value, i);
      }
    }
  }

  lemma OneChunkIff(data: seq<byte>, size: int)
    requires Terminates(size, |data|)
    ensures |Chunks(data, size)| == 1 <==> |data| <= size
  {
  }

  /** All and only the non-final commands of a chain carry the chaining bit. */
  lemma ChainBits(commands: seq<Command>, cla: byte, ins: byte, p1: byte, p2: byte, data: seq<byte>, le: Option<nat>)
    requires IsRequestChain(commands, cla, ins, p1, p2, data, le) && !HasChainBit(cla)
    ensures forall i :: 0 <= i < |commands| ==> (commands[i].Chained() <==> i < |commands| - 1)
  {
    forall i | 0 <= i < |commands|
      ensures commands[i].Chained() <==> i < |commands| - 1
    {
      assert ChainCommand(commands, i, cla, ins, p1, p2, le);
    }
  }

  // ---------------------------------------------------------------- cutting responses

  /** The status of a fragment with `left` bytes not yet sent, itself included. */
  function ChainStatus(left: nat, status: nat, limit: nat): nat {
    if left <= limit then status
    else if left <= limit + 0xFF then SW_MORE_DATA + (left - limit)
    else SW_MORE_DATA
  }

  function ChainFrom(data: seq<byte>, status: nat, limit: nat): Result<seq<Response>>
    requires limit >= 1
    decreases |data|
  {
    if data == [] then Ok([])
    else
      match EncodeResponse(Some(Slice(data, 0, limit)), ChainStatus(|data|, status, limit))
      case Err(e) => Err(e)
      case Ok(first) =>
        Prepend([first], ChainFrom(if |data| <= limit then [] else data[limit..], status, limit))
  }

  /** What `create_response_chain` returns or raises: `range` refuses a zero step and is empty for a negative one. */
  function ResponseChain(data: seq<byte>, status: nat, limit: int): Result<seq<Response>>
  {
    if limit == 0 then Err(ValueError)
    else if limit < 0 then Ok([])
    else ChainFrom(data, status, limit)
  }

  /** What `create_response` returns or raises; in extended mode it is the command limit that bounds a response. */
  function Responses(l: Limits, responseLength: int, data: Option<seq<byte>>, status: nat): Result<seq<Response>>
  {
    var limit := if l.extended then l.maxCommandApdu - 2 else responseLength;
    if data.Some? && |data.value| > limit then ResponseChain(data.value, status, limit)
    else
      match EncodeResponse(data, status)
      case Err(e) => Err(e)
      case Ok(r) => Ok([r])
  }

  function ResponsePayloads(responses: seq<Response>): (parts: seq<seq<byte>>)
    ensures |parts| == |responses| && forall i :: 0 <= i < |parts| ==> parts[i] == responses[i].Payload()
  {
    if responses == [] then [] else [responses[0].Payload()] + ResponsePayloads(responses[1..])
  }

  /** A response fragment: its bytes, and a status that counts the bytes still to come. */
  predicate IsResponseFragment(r: Response, part: seq<byte>, toCome: nat, status: nat) {
    && r.data == Some(part)
    && r.status <= 0xFFFF && r.wire == part + U16(r.status)
    && (if toCome > 0 then Sw1(r.status) == SW_MORE_DATA_SW1 && Sw2(r.status) == (if toCome <= 0xFF then toCome else 0)
        else r.status == status)
  }

  predicate IsResponseChain(responses: seq<Response>, data: seq<byte>, status: nat) {
    var parts := ResponsePayloads(responses);
    && |responses| >= 1
    && Concat(parts) == data
    && (forall i :: 0 <= i < |parts| ==> parts[i] != [])
    && (forall i :: 0 <= i < |parts| ==> IsResponseFragment(responses[i], parts[i], |Concat(parts[i + 1..])|, status))
  }

  /** The chain is built, and it is a response chain of the chunks. */
  predicate ChainOf(r: Result<seq<Response>>, data: seq<byte>, status: nat, limit: nat)
    requires limit >= 1
  {
    r.Ok? && IsResponseChain(r.value, data, status) && ResponsePayloads(r.value) == Chunks(data, limit)
  }

  /** The response chain: the chunks of the payload with a countdown in SW2, and the caller's status last. */
  lemma {:induction false} ResponseChainLaw(data: seq<byte>, status: nat, limit: nat)
    requires limit >= 1 && status <= 0xFFFF && data != []
    ensures ChainOf(ChainFrom(data, status, limit), data, status, limit)
    decreases |data|
  {
    if |data| <= limit {
      LastOfChain(data, status, limit);
    } else {
      ResponseChainLaw(data[limit..], status, limit);
      OneMoreInChain(data, status, limit);
    }
  }

  lemma LastOfChain(data: seq<byte>, status: nat, limit: nat)
    requires status <= 0xFFFF && 0 < |data| <= limit
    ensures ChainOf(ChainFrom(data, status, limit), data, status, limit)
  {
    var first := EncodeResponse(Some(data), ChainStatus(|data|, status, limit)).value;
    assert Slice(data, 0, limit) == data;
    SingleResponse(first, data, status);
    assert [first] + [] == [first];
  }

  lemma OneMoreInChain(data: seq<byte>, status: nat, limit: nat)
    requires 1 <= limit < |data| && status <= 0xFFFF
    requires ChainOf(ChainFrom(data[limit..], status, limit), data[limit..], status, limit)
    ensures ChainOf(ChainFrom(data, status, limit), data, status, limit)
  {
    var part, rest := data[..limit], data[limit..];
    var first := EncodeResponse(Some(part), ChainStatus(|data|, status, limit)).value;
    var tail := ChainFrom(rest, status, limit).value;
    assert Slice(data, 0, limit) == part && data == part + rest;
    assert ChainFrom(data, status, limit) == Ok([first] + tail);
    ChainCons(first, part, tail, rest, status);
  }

  /** The longest response frame: short mode has a limit for its data, extended mode one for all of it. */
  function ResponseFrame(l: Limits, responseLength: int): int {
    if l.extended then l.maxCommandApdu else responseLength + 2
  }

  /** An answer is one response exactly if it fits the frame with its status; else each but the last fills a frame. */
  lemma ResponsesAreFull(l: Limits, responseLength: int, data: seq<byte>, status: nat)
    requires data != [] && status <= 0xFFFF
    ensures var r, frame := Responses(l, responseLength, Some(data), status), ResponseFrame(l, responseLength);
            if frame == 2 then r == Err(ValueError)
            else if frame < 2 then r == Ok([])
            else
              && r.Ok? && (|r.value| == 1 <==> |data| + 2 <= frame)
              && forall i :: 0 <= i < |r.value| - 1 ==> |r.value[i].wire| == frame
  {
    var limit := ResponseFrame(l, responseLength) - 2;
    if limit >= 1 && |data| > limit {
      ResponseChainLaw(data, status, limit);
      ChunksLaw(data, limit);
      OneChunkIff(data, limit);
      var rs := ChainFrom(data, status, limit).value;
      forall i | 0 <= i < |rs| - 1 ensures |rs[i].wire| == limit + 2 {
        FragmentLength(rs, data, status, i);
        assert ResponsePayloads(rs)[i] == Chunks(data, limit)[i];
      }
    }
  }

  lemma FragmentLength(rs: seq<Response>, data: seq<byte>, status: nat, i: nat)
    requires IsResponseChain(rs, data, status) && i < |rs|
    ensures |rs[i].wire| == |ResponsePayloads(rs)[i]| + 2
  {
    var parts := ResponsePayloads(rs);
    assert IsResponseFragment(rs[i], parts[i], |Concat(parts[i + 1..])|, status);
  }

  lemma SingleResponse(r: Response, data: seq<byte>, status: nat)
    requires data != [] && IsResponseFragment(r, data, 0, status)
    ensures IsResponseChain([r], data, status) && ResponsePayloads([r]) == [data]
  {
    SinglePart(r);
    assert [data][1..] == [];
  }

  /** A fragment that counts the bytes of a chain, in front of that chain. */
  lemma ChainCons(first: Response, part: seq<byte>, tail: seq<Response>, rest: seq<byte>, status: nat)
    requires part != [] && rest != [] && IsResponseChain(tail, rest, status)
    requires IsResponseFragment(first, part, |rest|, status)
    ensures IsResponseChain([first] + tail, part + rest, status)
    ensures ResponsePayloads([first] + tail) == [part] + ResponsePayloads(tail)
  {
    var rs := [first] + tail;
    assert rs[1..] == tail;
    var parts := ResponsePayloads(rs);
    assert parts == [part] + ResponsePayloads(tail);
    assert parts[1..] == ResponsePayloads(tail);
    forall i | 0 <= i < |parts|
      ensures IsResponseFragment(rs[i], parts[i], |Concat(parts[i + 1..])|, status)
    {
      if i > 0 {
        assert parts[i + 1..] == ResponsePayloads(tail)[i..];
        assert rs[i] == tail[i - 1] && parts[i] == ResponsePayloads(tail)[i - 1];
      }
    }
  }

  lemma SinglePart(r: Response)
    ensures ResponsePayloads([r]) == [r.Payload()] && Concat(ResponsePayloads([r])) == r.Payload()
  {
    assert ResponsePayloads([r]) == [r.Payload()] + ResponsePayloads([]);
    assert Concat([r.Payload()]) == r.Payload() + Concat<byte>([]);
  }

  // ---------------------------------------------------------------- the one-shot Le limit

  /** One short-mode exchange: the command's Le narrows the limit, the answer puts the default back. */
  function Round(limit: int, max: nat, le: nat, data: Option<seq<byte>>, status: nat): (int, Result<seq<Response>>)
  {
    var narrowed := if le < max then le else limit;
    var r := Responses(Limits(Nfc, false, 0, 0, 0), narrowed, data, status);
    (if r.Ok? then max else narrowed, r)
  }

  datatype Exchanged = Exchanged(le: nat, data: Option<seq<byte>>, status: nat)
  {
    /** A parsed Le of zero, which is how a command without an Le field reads, with something to answer. */
    predicate HasData() {
      data.Some? && data.value != []
    }

    function Payload(): seq<byte> {
      if data.Some? then data.value else []
    }

    function Bound(max: nat): nat {
      if le < max then le else max
    }
  }

  /** The limit after a run of exchanges. */
  function LimitAfter(max: nat, run: seq<Exchanged>): int
  {
    if run == [] then max
    else
      var last := run[|run| - 1];
      Round(LimitAfter(max, run[..|run| - 1]), max, last.le, last.data, last.status).0
  }

  predicate Cut(r: Result<seq<Response>>, data: seq<byte>, bound: nat) {
    && r.Ok?
    && Concat(ResponsePayloads(r.value)) == data
    && forall i :: 0 <= i < |r.value| ==> |r.value[i].Payload()| <= bound
  }

  /** The last answer of the run raised: its limit was narrowed to nothing, by its own Le or still by an earlier one. */
  predicate LastRaised(max: nat, run: seq<Exchanged>)
  {
    run != [] &&
    var last := run[|run| - 1];
    last.HasData() && (last.le == 0 || (last.le >= max && LastRaised(max, run[..|run| - 1])))
  }

  /** Since some command with an Le of 0, every answer had data and no command had an Le that narrows to something. */
  predicate StarvedSince(max: nat, run: seq<Exchanged>, j: nat)
    requires j < |run|
  {
    run[j].le == 0 && forall k :: j <= k < |run| ==> run[k].HasData() && (run[k].le == 0 || run[k].le >= max)
  }

  lemma {:induction false} LastRaisedMeans(max: nat, run: seq<Exchanged>)
    ensures LastRaised(max, run) <==> exists j :: 0 <= j < |run| && StarvedSince(max, run, j)
  {
    if run != [] {
      var n := |run| - 1;
      var before := run[..n];
      LastRaisedMeans(max, before);
      if LastRaised(max, run) {
        if run[n].le == 0 {
          assert StarvedSince(max, run, n);
        } else {
          var j :| 0 <= j < n && StarvedSince(max, before, j);
          forall k | j <= k < |run| ensures run[k].HasData() && (run[k].le == 0 || run[k].le >= max) {
            assert k < n ==> run[k] == before[k];
          }
          assert run[j] == before[j];
          assert StarvedSince(max, run, j);
        }
      }
      if j :| 0 <= j < n && StarvedSince(max, run, j) {
        assert forall k :: j <= k < n ==> before[k] == run[k];
        assert StarvedSince(max, before, j);
      }
    }
  }

  /** The i-th answer of a run raises, or is all of its payload in fragments within the Le of its own command. */
  predicate AnswerObeys(max: nat, run: seq<Exchanged>, i: nat)
    requires i < |run|
  {
    var e := run[i];
    var answer := Round(LimitAfter(max, run[..i]), max, e.le, e.data, e.status).1;
    if LastRaised(max, run[..i + 1]) then answer == Err(ValueError) else Cut(answer, e.Payload(), e.Bound(max))
  }

  /** A round that finds a limit of 0 or the default one: whether the answer raises, and the limit behind it. */
  lemma RoundLaw(limit: nat, max: nat, e: Exchanged)
    requires max >= 1 && e.status <= 0xFFFF && (limit == 0 || limit == max)
    ensures var (after, answer) := Round(limit, max, e.le, e.data, e.status);
            var raises := e.HasData() && (e.le == 0 || (e.le >= max && limit == 0));
            && (answer == Err(ValueError) <==> raises)
            && (if raises then after == 0 else after == max && Cut(answer, e.Payload(), e.Bound(max)))
  {
    var narrowed := if e.le < max then e.le else limit;
    if narrowed > 0 || !e.HasData() {
      NarrowedAnswer(e.data, e.status, narrowed);
    }
  }

  lemma NarrowedAnswer(data: Option<seq<byte>>, status: nat, bound: nat)
    requires status <= 0xFFFF && (bound == 0 ==> data.None? || data.value == [])
    ensures Cut(Responses(Limits(Nfc, false, 0, 0, 0), bound, data, status),
                if data.Some? then data.value else [], bound)
  {
    if data.Some? && |data.value| > bound {
      ChainIsCut(data.value, status, bound);
    } else {
      SinglePart(EncodeResponse(data, status).value);
    }
  }

  lemma ChainIsCut(data: seq<byte>, status: nat, bound: nat)
    requires status <= 0xFFFF && bound >= 1 && data != []
    ensures Cut(ChainFrom(data, status, bound), data, bound)
  {
    ResponseChainLaw(data, status, bound);
    var rs := ChainFrom(data, status, bound).value;
    forall i | 0 <= i < |rs|
      ensures |rs[i].Payload()| <= bound
    {
      ChunkBound(data, bound, i);
      assert ResponsePayloads(rs)[i] == rs[i].Payload();
    }
  }

  lemma {:induction false} ChunkBound(data: seq<byte>, size: int, i: nat)
    requires Terminates(size, |data|) && i < |Chunks(data, size)|
    ensures |Chunks(data, size)[i]| <= size
    decreases |data|
  {
    if |data| > size && i > 0 {
      ChunkBound(data[size..], size, i - 1);
    }
  }

  /**
   * Over every run, each answer obeys the Le of its own command or raises, and the limit is back at its default exactly
   * if the last answer did not raise.
   */
  lemma {:induction false} OneShotLimit(max: nat, run: seq<Exchanged>)
    requires max >= 1 && forall i :: 0 <= i < |run| ==> run[i].status <= 0xFFFF
    ensures LimitAfter(max, run) == if LastRaised(max, run) then 0 else max
    ensures forall i :: 0 <= i < |run| ==> AnswerObeys(max, run, i)
  {
    if run != [] {
      var before := run[..|run| - 1];
      OneShotLimit(max, before);
      RoundLaw(LimitAfter(max, before), max, run[|run| - 1]);
      forall i | 0 <= i < |run|
        ensures AnswerObeys(max, run, i)
      {
        if i < |before| {
          assert AnswerObeys(max, before, i);
          assert run[..i] == before[..i] && run[i] == before[i] && run[..i + 1] == before[..i + 1];
        } else {
          assert run[..i + 1] == run;
        }
      }
    }
  }

  // ---------------------------------------------------------------- the APDU object

  class Apdu {
    const transport: Transport
    const maxResponseLength: nat
    var extended: bool
    var maxCommandApdu: nat
    var maxResponseApdu: nat
    var commandLength: int
    var responseLength: int

    function View(): Limits
      reads this
    {
      Limits(transport, extended, maxCommandApdu, maxResponseApdu, commandLength)
    }

    /** `Device.__init__` chooses the two lengths by transport. */
    constructor (transport: Transport)
      ensures View().Standard() && !extended && this.transport == transport
      ensures responseLength == maxResponseLength == if transport.BleUwb? then 241 else 256
    {
      this.transport := transport;
      extended, maxCommandApdu, maxResponseApdu := false, 0, 0;
      commandLength := if transport.BleUwb? then BLE_COMMAND_MAX else COMMAND_MAX;
      responseLength := if transport.BleUwb? then BLE_RESPONSE_MAX else RESPONSE_MAX;
      maxResponseLength := if transport.BleUwb? then BLE_RESPONSE_MAX else RESPONSE_MAX;
    }

    method SetExtendedLength(command: nat, response: nat)
      modifies this
      ensures View() == old(View()).(extended := true, maxCommandApdu := command, maxResponseApdu := response)
      ensures responseLength == old(responseLength)
    {
      extended, maxCommandApdu, maxResponseApdu := true, command, response;
    }

    method ResetExtendedLength()
      modifies this
      ensures View() == old(View()).(extended := false, maxCommandApdu := 0, maxResponseApdu := 0)
      ensures responseLength == old(responseLength)
    {
      extended, maxCommandApdu, maxResponseApdu := false, 0, 0;
    }

    /** `wait_for_message` narrows the limit for the next answer to the Le of the command. */
    method NarrowResponse(le: nat)
      modifies this`responseLength
      ensures responseLength == if le < maxResponseLength then le else old(responseLength)
    {
      if le < maxResponseLength {
        responseLength := le;
      }
    }

    method CreateCommand(cla: nat, ins: nat, p1: nat, p2: nat, data: seq<byte>, le: Option<nat>)
      returns (r: Result<seq<Command>>)
      requires Answers(View(), |data|, le)
      ensures r == Commands(View(), cla, ins, p1, p2, data, le)
    {
      var size := MaxDataLength(|data|, le);
      if size.Err? {
        return Err(size.error);
      }
      var parts := CutData(data, size.value);

      var commands: seq<Command> := [];
      PrependNil(BuildAll(cla, ins, p1, p2, parts, le));
      assert parts[0..] == parts;
      for i := 0 to |parts|
        invariant BuildAll(cla, ins, p1, p2, parts, le) == Prepend(commands, BuildAll(cla, ins, p1, p2, parts[i..], le))
      {
        assert parts[i..][0] == parts[i] && parts[i..][1..] == parts[i + 1..];
        var c := Encode(if i == |parts| - 1 then cla else WithChainBit(cla), ins, p1, p2, parts[i], le);
        if c.Err? {
          return Err(c.error);
        }
        PrependSnoc(commands, c.value, BuildAll(cla, ins, p1, p2, parts[i + 1..], le));
        commands := commands + [c.value];
      }
      PrependNil(Ok(commands));
      return Ok(commands);
    }

    method MaxDataLength(dataLen: nat, le: Option<nat>) returns (r: Result<int>)
      ensures r == ChunkSize(View(), dataLen, le)
    {
      if !extended && le.Some? && le.value > RESPONSE_MAX {
        return Err(MessageTooLongError);
      }
      var lcLen, leLen := 0, 0;
      if !extended {
        if transport.BleUwb? {
          if dataLen == 0 {
          } else if dataLen < 256 {
            lcLen := 1;
          } else {
            return Err(MessageTooLongError);
          }
          if le.None? {
          } else if le.value < 256 {
            leLen := 1;
          } else {
            return Err(UnboundLocalError);
          }
          return Ok(commandLength - lcLen - leLen);
        }
        return Ok(commandLength);
      }
      if le.None? {
      } else if le.value < 256 && dataLen < 256 {
        leLen := 1;
      } else if dataLen == 0 {
        leLen := 3;
      } else {
        leLen := 2;
      }
      if leLen == 2 {
        lcLen := 3;
      } else if dataLen == 0 {
      } else if dataLen < 256 {
        lcLen := 1;
      } else if dataLen <= 65535 {
        lcLen := 3;
      } else {
        return Err(MessageTooLongError);
      }
      return Ok(maxCommandApdu - 4 - lcLen - leLen);
    }

    static method CutData(data: seq<byte>, size: int) returns (parts: seq<seq<byte>>)
      requires Terminates(size, |data|)
      ensures parts == Chunks(data, size)
    {
      parts := [];
      var rest := data;
      while |rest| > size
        invariant Terminates(size, |rest|)
        invariant parts + Chunks(rest, size) == Chunks(data, size)
        decreases |rest|
      {
        parts := parts + [rest[..size]];
        rest := rest[size..];
      }
      parts := parts + [rest];
    }

    method CreateResponse(data: Option<seq<byte>>, status: nat) returns (r: Result<seq<Response>>)
      modifies this`responseLength
      ensures r == Responses(View(), old(responseLength), data, status)
      ensures responseLength == if !extended && r.Ok? then maxResponseLength else old(responseLength)
    {
      if !extended {
        if data.Some? && |data.value| > responseLength {
          r := CreateResponseChain(data.value, status, responseLength);
        } else {
          var single := EncodeResponse(data, status);
          r := if single.Ok? then Ok([single.value]) else Err(single.error);
        }
        if r.Err? {
          return;
        }
        responseLength := maxResponseLength;
      } else {
        if data.Some? && |data.value| + 2 > maxCommandApdu {
          r := CreateResponseChain(data.value, status, maxCommandApdu - 2);
        } else {
          var single := EncodeResponse(data, status);
          r := if single.Ok? then Ok([single.value]) else Err(single.error);
        }
      }
    }

    /** One short-mode answer behind its command. */
    method AnswerWithin(le: nat, data: Option<seq<byte>>, status: nat) returns (r: Result<seq<Response>>)
      requires !extended
      modifies this`responseLength
      ensures (responseLength, r) == Round(old(responseLength), maxResponseLength, le, data, status)
    {
      NarrowResponse(le);
      r := CreateResponse(data, status);
    }

    method CreateResponseChain(data: seq<byte>, status: nat, limit: int) returns (r: Result<seq<Response>>)
      ensures r == ResponseChain(data, status, limit)
    {
      if limit == 0 {
        return Err(ValueError);
      }
      var list: seq<Response> := [];
      if limit < 0 {
        return Ok(list);
      }
      var idx, left := 0, |data|;
      assert data[0..] == data;
      PrependNil(ChainFrom(data, status, limit));
      while idx < |data|
        invariant 0 <= idx && left == |data| - idx
        invariant ChainFrom(data, status, limit)
               == Prepend(list, ChainFrom(if idx <= |data| then data[idx..] else [], status, limit))
        decreases |data| - idx
      {
        var chainStatus: nat;
        if left <= limit {
          chainStatus := status;
        } else if limit < left <= limit + 0xFF {
          chainStatus := SW_MORE_DATA + (left - limit);
        } else {
          chainStatus := SW_MORE_DATA;
        }
        assert Slice(data[idx..], 0, limit) == Slice(data, idx, idx + limit);
        assert left > limit ==> data[idx..][limit..] == data[idx + limit..];
        var fragment := EncodeResponse(Some(Slice(data, idx, idx + limit)), chainStatus);
        if fragment.Err? {
          return Err(fragment.error);
        }
        PrependSnoc(list, fragment.value, ChainFrom(if left <= limit then [] else data[idx + limit..], status, limit));
        list := list + [fragment.value];
        left := left - limit;
        idx := idx + limit;
      }
      PrependNil(Ok(list));
      return Ok(list);
    }
  }
}
