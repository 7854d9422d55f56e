/**
 * One encrypted command and its answer over the chaining layer: cut into commands by the reader, rebuilt and answered
 * by the device. A chained answer is only asked for in the class of the command, so it matters which command it is.
 */
module OverWire {
  import opened Basics
  import opened ApduCodec
  import opened Fragmentation
  import opened Chaining
  import TP = TwoParty

  datatype Kind = ExchangeKind | EnvelopeKind
  {
    function Cla(): byte {
      if ExchangeKind? then 0x80 else 0x00
    }

    function Ins(): byte {
      if ExchangeKind? then INS_EXCHANGE else INS_ENVELOPE
    }
  }

  /**
   * What decides whether a packet gets through: the command, the limits of both `APDU` objects, the answer length of
   * the device as it stands and its default, and whether messages are framed and timed.
   */
  datatype Wire = Wire(kind: Kind, readerLimits: Limits, deviceLimits: Limits, responseLength: nat,
                       maxResponseLength: nat, ble: bool, timer: bool)
  {
    /** `expected_response_size` */
    function Le(): nat {
      if readerLimits.extended then readerLimits.maxResponseApdu else 0
    }

    function Size(packetLength: nat): Result<int> {
      ChunkSize(readerLimits, packetLength, Some(Le()))
    }

    /** `create_command` returns: it neither raises nor cuts for ever. */
    predicate CanBeBuilt(packetLength: nat) {
      Size(packetLength).Ok? && Terminates(Size(packetLength).value, packetLength)
    }

    /** The Le that the device reads. */
    function DeviceLe(packetLength: nat): nat
      requires CanBeBuilt(packetLength)
    {
      NormalLe(Some(Le()), LastLength(packetLength, Size(packetLength).value))
    }

    /** The longest answer that the device sends in one response to a command with this Le. */
    function AnswerLimit(le: int): int {
      if deviceLimits.extended then deviceLimits.maxCommandApdu - 2
      else if le < maxResponseLength then le else responseLength
    }

    /** The reader gets an answer of this length: in one response, or in several that it can ask for. */
    predicate Returns(le: int, answerLength: nat) {
      answerLength <= AnswerLimit(le) || (kind.EnvelopeKind? && AnswerLimit(le) >= 1)
    }

    /** The command can be built, and the reader gets the answer. */
    predicate Delivers(packetLength: nat, answerLength: nat) {
      CanBeBuilt(packetLength) && Returns(DeviceLe(packetLength), answerLength)
    }

    /** What sending an answer of this length raises: `create_response`, or the wait for the first GET RESPONSE. */
    function SendingRaises(le: int, answerLength: nat): Option<Error> {
      if Returns(le, answerLength) || AnswerLimit(le) < 0 then None
      else if AnswerLimit(le) == 0 then Some(ValueError)
      else Some(InvalidCLAError)
    }

    /** What `create_response` makes of an answer to a command with this Le. */
    function Cut(le: int, answer: seq<byte>): Result<seq<Response>> {
      Responses(deviceLimits, AnswerLimit(le), Some(answer), SW_SUCCESS)
    }
  }

  /** The length of the last chunk. */
  function LastLength(length: nat, size: int): nat
    requires Terminates(size, length)
    decreases length
  {
    if length <= size then length else LastLength(length - size, size)
  }

  lemma {:induction false} LastLengthIs(data: seq<byte>, size: int)
    requires Terminates(size, |data|)
    ensures var parts := Chunks(data, size); |parts[|parts| - 1]| == LastLength(|data|, size)
    decreases |data|
  {
    if |data| > size {
      LastLengthIs(data[size..], size);
    }
  }

  // ---------------------------------------------------------------- two packets over the chaining layer

  /** The two parties as `create_command` sets them up for a packet. */
  ghost predicate IsSetup(x: Wire, u: TP.Setup, packet: seq<byte>) {
    IsBuilt(x, u, packet) && u.Valid() && u.Derived()
  }

  predicate IsBuilt(x: Wire, u: TP.Setup, packet: seq<byte>) {
    && x.CanBeBuilt(|packet|) && x.readerLimits.Standard()
    && u.limits == x.readerLimits && u.ble == x.ble && u.timer == x.timer
    && u.cla == x.kind.Cla() && u.ins == x.kind.Ins() && u.p1 == 0 && u.p2 == 0
    && u.data == packet && u.le == Some(x.Le())
    && Commands(x.readerLimits, x.kind.Cla(), x.kind.Ins(), 0, 0, packet, Some(x.Le())) == Ok(u.commands)
  }

  /** A list of responses, none if `create_response` raises. */
  function Listed(responses: Result<seq<Response>>): seq<Response> {
    if responses.Ok? then responses.value else []
  }

  /**
   * A complete run over the channel. What the device sends is what `create_response` makes of the answer, under the Le
   * of the command that it has seen in this run.
   */
  ghost predicate Carried(x: Wire, u: TP.Setup, run: seq<TP.System>, packet: seq<byte>, answer: seq<byte>) {
    && IsSetup(x, u, packet) && u.answer == answer && TP.Behaviour(u, run)
    && var last := run[|run| - 1];
       && last.delivered == u.Total() && last.seen.Some?
       && u.responses == Listed(x.Cut(last.seen.value.le, answer))
  }

  /** What sending the answer raises in the handler: `create_response` itself, or the loop that sends. */
  function Raises(responses: Result<seq<Response>>, device: TP.DeviceState): Option<Error> {
    if responses.Err? then Some(responses.error)
    else if device.DeviceFailed? then Some(device.error)
    else None
  }

  /** One response if the answer fits; otherwise several, or none at all. */
  lemma FitsIff(x: Wire, le: int, answer: seq<byte>)
    requires answer != []
    ensures var n, limit := |Listed(x.Cut(le, answer))|, x.AnswerLimit(le);
            && (n == 1 <==> |answer| <= limit)
            && (n == 0 <==> |answer| > limit && limit <= 0)
            && (x.Cut(le, answer) == Err(ValueError) <==> limit == 0) && (x.Cut(le, answer).Err? ==> limit == 0)
  {
    var limit := x.AnswerLimit(le);
    if |answer| > limit && limit >= 1 {
      ResponseChainLaw(answer, SW_SUCCESS, limit);
      SeveralChunks(answer, limit);
    }
  }

  lemma SeveralChunks(data: seq<byte>, size: nat)
    requires 1 <= size < |data|
    ensures |Chunks(data, size)| >= 2
  {
    assert Chunks(data, size) == [data[..size]] + Chunks(data[size..], size);
  }

  /** The command of this kind with this payload, under an Le. */
  predicate IsPacket(x: Wire, packet: seq<byte>, le: int, c: Command) {
    c.data == Some(packet) && c.cla == x.kind.Cla() && c.ins == x.kind.Ins() && c.p1 == 0 && c.p2 == 0 && c.le == le
  }

  /** The device sees the packet, under the Le that the caller can compute. */
  lemma SeesPacket(x: Wire, u: TP.Setup, packet: seq<byte>, seen: Command)
    requires IsBuilt(x, u, packet) && packet != [] && u.N() >= 1 && TP.Understood(u, seen)
    ensures IsPacket(x, packet, x.DeviceLe(|packet|), seen)
  {
    LastPart(x, u, packet);
  }

  lemma LastPart(x: Wire, u: TP.Setup, packet: seq<byte>)
    requires IsBuilt(x, u, packet) && u.N() >= 1
    ensures |u.commands[u.N() - 1].Payload()| == LastLength(|packet|, x.Size(|packet|).value)
  {
    LastPayload(x.kind, x.readerLimits, packet, x.Le(), u.commands);
  }

  lemma LastPayload(kind: Kind, l: Limits, packet: seq<byte>, le: nat, commands: seq<Command>)
    requires l.Standard() && le <= 0xFFFF && Fragmentation.Answers(l, |packet|, Some(le))
    requires Commands(l, kind.Cla(), kind.Ins(), 0, 0, packet, Some(le)) == Ok(commands)
    ensures ChunkSize(l, |packet|, Some(le)).Ok? && commands != []
    ensures |commands[|commands| - 1].Payload()| == LastLength(|packet|, ChunkSize(l, |packet|, Some(le)).value)
  {
    LastCommand(l, kind.Cla(), kind.Ins(), 0, 0, packet, Some(le), commands);
    LastLengthIs(packet, ChunkSize(l, |packet|, Some(le)).value);
  }

  lemma DeviceSees(x: Wire, u: TP.Setup, run: seq<TP.System>, packet: seq<byte>, answer: seq<byte>)
    requires Carried(x, u, run, packet, answer) && packet != []
    ensures IsPacket(x, packet, x.DeviceLe(|packet|), run[|run| - 1].seen.value)
  {
    TP.TwoPartyChaining(u, run, |run| - 1);
    SeesPacket(x, u, packet, run[|run| - 1].seen.value);
  }

  /**
   * How a run ends: the device has the packet, and the reader has the answer exactly if it fits one response or can be
   * asked for. If not, the first GET RESPONSE is refused for its class, or there is no response at all.
   */
  lemma Carries(x: Wire, u: TP.Setup, run: seq<TP.System>, packet: seq<byte>, answer: seq<byte>)
    requires Carried(x, u, run, packet, answer) && packet != [] && answer != []
    ensures var last := run[|run| - 1];
            var le := x.DeviceLe(|packet|);
            && IsPacket(x, packet, le, last.seen.value)
            && (if x.Returns(le, |answer|) then
                  && last.reader.ReaderDone? && last.reader.response.data == Some(answer)
                  && last.reader.response.status == SW_SUCCESS
                else !last.reader.ReaderDone?)
            && Raises(x.Cut(le, answer), last.device) == x.SendingRaises(le, |answer|)
  {
    var last := run[|run| - 1];
    TP.TwoPartyChaining(u, run, |run| - 1);
    SeesPacket(x, u, packet, last.seen.value);
    FitsIff(x, last.seen.value.le, answer);
  }

  // ---------------------------------------------------------------- every packet that can be built has a run

  /** Where a command with data can be built, so can a GET RESPONSE. */
  lemma CanAsk(x: Wire, length: nat)
    requires x.readerLimits.Standard() && x.CanBeBuilt(length) && length > 0
    ensures CanGetResponse(x.readerLimits)
  {
    TP.CanGetResponseIff(x.readerLimits);
  }

  lemma CutAnswers(x: Wire, le: int, answer: seq<byte>)
    requires answer != []
    ensures var responses := Listed(x.Cut(le, answer)); responses == [] || TP.AnswerChain(responses, answer)
  {
    if x.AnswerLimit(le) >= 1 {
      TP.ResponsesAnswer(x.deviceLimits, x.AnswerLimit(le), Some(answer));
    } else {
      FitsIff(x, le, answer);
    }
  }

  lemma CanSetUp(x: Wire, packet: seq<byte>, answer: seq<byte>) returns (u: TP.Setup)
    requires x.readerLimits.Standard() && packet != [] && answer != [] && |packet| < 0x100_0000
    requires x.CanBeBuilt(|packet|)
    ensures IsSetup(x, u, packet) && u.answer == answer && u.responses == Listed(x.Cut(x.DeviceLe(|packet|), answer))
  {
    var commands := CanBuild(x, packet);
    var responses := Listed(x.Cut(x.DeviceLe(|packet|), answer));
    CanAsk(x, |packet|);
    CutAnswers(x, x.DeviceLe(|packet|), answer);
    u := DeriveFor(x, packet, answer, commands, responses);
  }

  lemma DeriveFor(x: Wire, packet: seq<byte>, answer: seq<byte>, commands: seq<Command>, responses: seq<Response>)
    returns (u: TP.Setup)
    requires x.readerLimits.Standard() && |packet| < 0x100_0000 && x.CanBeBuilt(|packet|)
             && CanGetResponse(x.readerLimits)
    requires Commands(x.readerLimits, x.kind.Cla(), x.kind.Ins(), 0, 0, packet, Some(x.Le())) == Ok(commands)
    requires IsRequestChain(commands, x.kind.Cla(), x.kind.Ins(), 0, 0, packet, Some(x.Le()))
    requires responses == [] || TP.AnswerChain(responses, answer)
    ensures IsSetup(x, u, packet) && u.answer == answer && u.responses == responses
  {
    u := TP.CanDerive(SetupOf(x, packet, answer, commands, responses));
    DerivedIsSetup(x, u, packet, answer, commands, responses);
  }

  function SetupOf(x: Wire, packet: seq<byte>, answer: seq<byte>, commands: seq<Command>, responses: seq<Response>)
    : TP.Setup
    requires commands != []
  {
    TP.Setup(x.readerLimits, x.kind.Cla(), x.kind.Ins(), 0, 0, packet, Some(x.Le()), commands, answer, responses, x.ble,
             x.timer, commands[0], [], Response(None, 0, []))
  }

  lemma DerivedIsSetup(x: Wire, u: TP.Setup, packet: seq<byte>, answer: seq<byte>, commands: seq<Command>,
                       responses: seq<Response>)
    requires x.readerLimits.Standard() && |packet| < 0x100_0000 && x.CanBeBuilt(|packet|)
             && CanGetResponse(x.readerLimits)
    requires Commands(x.readerLimits, x.kind.Cla(), x.kind.Ins(), 0, 0, packet, Some(x.Le())) == Ok(commands)
    requires IsRequestChain(commands, x.kind.Cla(), x.kind.Ins(), 0, 0, packet, Some(x.Le()))
    requires responses == [] || TP.AnswerChain(responses, answer)
    requires u.Derived()
    requires u == SetupOf(x, packet, answer, commands, responses).(whole := u.whole, questions := u.questions,
                                                                   final := u.final)
    ensures IsSetup(x, u, packet) && u.answer == answer && u.responses == responses
  {
    SetupIsValid(u);
  }

  lemma CanBuild(x: Wire, packet: seq<byte>) returns (commands: seq<Command>)
    requires x.readerLimits.Standard() && x.CanBeBuilt(|packet|)
    ensures Commands(x.readerLimits, x.kind.Cla(), x.kind.Ins(), 0, 0, packet, Some(x.Le())) == Ok(commands)
    ensures IsRequestChain(commands, x.kind.Cla(), x.kind.Ins(), 0, 0, packet, Some(x.Le()))
  {
    RequestFragmentation(x.readerLimits, x.kind.Cla(), x.kind.Ins(), 0, 0, packet, Some(x.Le()));
    commands := Commands(x.readerLimits, x.kind.Cla(), x.kind.Ins(), 0, 0, packet, Some(x.Le())).value;
  }

  lemma SetupIsValid(u: TP.Setup)
    requires CanGetResponse(u.limits) && u.limits.maxResponseApdu <= 0xFFFF && u.Derived() && !HasChainBit(u.cla)
    requires IsRequestChain(u.commands, u.cla, u.ins, u.p1, u.p2, u.data, u.le) && |u.data| < 0x100_0000
    requires u.responses == [] || TP.AnswerChain(u.responses, u.answer)
    ensures u.Valid()
  {
  }

  lemma CanBeCarried(x: Wire, packet: seq<byte>, answer: seq<byte>) returns (u: TP.Setup, run: seq<TP.System>)
    requires x.readerLimits.Standard() && packet != [] && answer != [] && |packet| < 0x100_0000
             && x.CanBeBuilt(|packet|)
    ensures Carried(x, u, run, packet, answer)
  {
    u := CanSetUp(x, packet, answer);
    var more := TP.BothEndsFinish(u, [TP.Init(u)]);
    run := [TP.Init(u)] + more;
    TP.TwoPartyChaining(u, run, |run| - 1);
    SeesPacket(x, u, packet, run[|run| - 1].seen.value);
  }
}
