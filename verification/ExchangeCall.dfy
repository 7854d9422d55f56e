/**
 * A call of `Reader.handle_exchange` without an atomic session, from the caller's requests to the bytes of the mailbox
 * and back. It returns the requested slices exactly if the command can be built and the answer fits one response.
 */
module ExchangeCall {
  import opened Basics
  import opened Encryption
  import opened Fragmentation
  import opened Chaining
  import opened MailboxStore
  import opened UserMachine
  import opened UserEngines
  import opened ExchangeCodec
  import opened ExchangeEndToEnd
  import opened ExchangeLengths
  import opened OverWire
  import RF = ReaderFailure
  import CE = ChainingEnds
  import TP = TwoParty

  /** The requests, the payload and the engine of the reader, the device, and what lies between them. */
  datatype Call = Call(aead: Aead, w: Wanted, plain: seq<byte>, engine: Engine, device: Device, wire: Wire)
  {
    function Choice(): UserMachine.Choice
      requires device.session.Some?
    {
      AnswerChoice(device.session.value.state)
    }

    /** The engine of the device that the reader's engine belongs to. */
    function User(): Engine
      requires device.session.Some? && EngineOf(device.session.value, Choice()).Some?
    {
      EngineOf(device.session.value, Choice()).value
    }

    /** Requests in range on a permitted mailbox without an open atomic session. */
    predicate Asks() {
      && device.mailbox.Some? && device.log == Session([], false)
      && w.Encodable() && CommandsLength(w) < 0x1_0000
      && InRange(w, |device.mailbox.value.data|) && Permitted(device.mailbox.value, w)
    }

    /** Engines in step, in a state that accepts an EXCHANGE. */
    predicate InSession() {
      && MayExchange(device) && InStep(engine, User()) && User().(dec := User().dec + 1).CountersValid()
    }

    ghost predicate Valid() {
      && aead.Correct() && InSession() && Asks() && wire.readerLimits.Standard() && wire.kind.ExchangeKind?
      && plain == PayloadOf(w)
    }

    /** What the caller can check beforehand. */
    predicate Deliverable() {
      wire.Delivers(PacketLength(w), AnswerLength(w))
    }

    predicate CanBeBuilt() {
      wire.CanBeBuilt(PacketLength(w))
    }

    /** The longest answer that the device sends in one response. */
    function Limit(): int
      requires CanBeBuilt()
    {
      wire.AnswerLimit(wire.DeviceLe(PacketLength(w)))
    }

    /** The reader seals before it builds the command. */
    function Sealing(): (Engine, Result<Sealed>) {
      engine.Encrypt(aead, plain, [])
    }

    function Expected(): seq<seq<byte>>
      requires Asks()
    {
      Slices(device.mailbox.value.data, w.readRequests)
    }
  }

  function PayloadOf(w: Wanted): seq<byte>
    requires w.Encodable() && CommandsLength(w) < 0x1_0000
  {
    PacketLengthIs(w);
    Payload(w, false)
  }

  // ---------------------------------------------------------------- the end of a call

  /** `parse_as_exchange` on a response. */
  function Interpreted(aead: Aead, engine: Engine, r: ApduCodec.Response): RF.Reply {
    if r.data.None? then RF.BadFormat
    else
      match engine.Decrypt(aead, FromWire(r.data.value), []).1
      case Ok(payload) => RF.Answer(payload)
      case Err(e) => if e.VerificationError? then RF.BadTag else RF.Broken(e)
  }

  /**
   * How the wait of the reader ends. If it is still waiting when nothing is in flight any more, no further message
   * answers it: there is a timeout, a message of a new session, or the error status of the device's failure process.
   */
  predicate Hears(aead: Aead, engine: Engine, s: ReaderState, reply: RF.Reply) {
    if s.ReaderDone? then reply == Interpreted(aead, engine, s.response)
    else reply.Timeout? || reply.Broken? || reply.StatusWord?
  }

  /** What the session machine is given for a command that arrived whole: `parse_as_exchange` up to the decryption. */
  function Arrived(c: ApduCodec.Command): (Command, Option<Error>) {
    if c.ins != ApduCodec.INS_EXCHANGE then (Unknown, None)
    else
      (Exchange(FromWire(c.Payload())),
       if c.cla != 0x80 && c.cla != 0x90 then Some(InvalidCLAError)
       else if c.p1 != 0 || c.p2 != 0 then Some(InvalidParameterError)
       else if c.data.None? then Some(InvalidCommandDataError)
       else None)
  }

  /** The step of the device on the command that it has seen, told what sending the answer raised in the run. */
  function StepOn(c: Call, last: TP.System, answer: seq<byte>): Device
    requires last.seen.Some?
  {
    var (command, fault) := Arrived(last.seen.value);
    Step(Env(c.aead, ParseExchange), c.device,
         Input.Received(command, fault, Raises(c.wire.Cut(last.seen.value.le, answer), last.device)))
  }

  /** A complete run over the channel, which carries back the answer that the step of the device seals. */
  ghost predicate Happens(c: Call, u: TP.Setup, run: seq<TP.System>, after: Device, reply: RF.Reply) {
    && c.Sealing().1.Ok? && after.answer.Some?
    && Carried(c.wire, u, run, c.Sealing().1.value.Wire(), after.answer.value.Wire())
    && after == StepOn(c, run[|run| - 1], after.answer.value.Wire())
    && Hears(c.aead, c.Sealing().0, run[|run| - 1].reader, reply)
  }

  /** The call ends with this reply and leaves the device like this. */
  ghost predicate Ends(c: Call, after: Device, reply: RF.Reply) {
    var size := c.wire.Size(PacketLength(c.w));
    if size.Err? then after == c.device && reply == RF.NotBuilt(size.error)
    else exists u, run :: Happens(c, u, run, after, reply)
  }

  // ---------------------------------------------------------------- the device

  lemma PacketWire(c: Call)
    requires c.Valid()
    ensures c.Sealing().1.Ok?
    ensures var packet := c.Sealing().1.value;
            |packet.Wire()| == PacketLength(c.w) && TAG_LENGTH <= PacketLength(c.w) < 0x2_0000
              && FromWire(packet.Wire()) == packet
  {
    PacketLengthIs(c.w);
    WireRoundTrip(c.Sealing().1.value);
  }

  /** What the handler of the device leaves behind, and the answer that it has sealed. */
  ghost predicate Answered(c: Call, served: Device)
    requires c.InSession() && c.Asks()
  {
    && Performed(c.aead, c.device, c.User().(dec := c.User().dec + 1), c.w, served)
    && |served.answer.value.Wire()| == AnswerLength(c.w) && FromWire(served.answer.value.Wire()) == served.answer.value
  }

  lemma DeviceAnswers(c: Call, packet: Sealed, sending: Option<Error>) returns (served: Device)
    requires c.Valid() && c.Sealing().1 == Ok(packet)
    ensures Answered(c, served)
    ensures var after := Step(Env(c.aead, ParseExchange), c.device, Input.Received(Exchange(packet), None, sending));
            after == AfterCommand(served, Exchange(packet), sending) && after.answer == served.answer
  {
    PlainParses(c.w);
    served := DevicePerforms(Env(c.aead, ParseExchange), c.device, c.engine, c.w, c.plain, packet, sending);
    AfterCommandEngines(served, Exchange(packet), sending);
    AnswerWire(c, served);
  }

  lemma PlainParses(w: Wanted)
    requires w.Encodable() && CommandsLength(w) < 0x1_0000
    ensures ParseExchange(PayloadOf(w)) == Ok(ContentOf(w))
  {
    PacketLengthIs(w);
    ExchangeRoundTrip(w, false);
  }

  lemma AnswerWire(c: Call, served: Device)
    requires c.Valid() && Performed(c.aead, c.device, c.User().(dec := c.User().dec + 1), c.w, served)
    ensures Answered(c, served)
  {
    AnswerLengthIs(c.device.mailbox.value.data, c.w);
    WireRoundTrip(served.answer.value);
  }

  lemma ArrivesAs(x: Wire, packet: Sealed, le: int, seen: ApduCodec.Command)
    requires x.kind.ExchangeKind? && IsPacket(x, packet.Wire(), le, seen) && FromWire(packet.Wire()) == packet
    ensures Arrived(seen) == (Exchange(packet), None)
  {
  }

  /** The command that arrives is the packet. */
  lemma StepIsOnPacket(c: Call, u: TP.Setup, run: seq<TP.System>, packet: Sealed, answer: seq<byte>)
    requires Carried(c.wire, u, run, packet.Wire(), answer) && packet.Wire() != [] && FromWire(packet.Wire()) == packet
    requires c.wire.kind.ExchangeKind?
    ensures var last := run[|run| - 1];
            StepOn(c, last, answer)
            == Step(Env(c.aead, ParseExchange), c.device,
                    Input.Received(Exchange(packet), None, Raises(c.wire.Cut(last.seen.value.le, answer), last.device)))
  {
    DeviceSees(c.wire, u, run, packet.Wire(), answer);
    ArrivesAs(c.wire, packet, run[|run| - 1].seen.value.le, run[|run| - 1].seen.value);
  }

  /** What sending the answer raises, by its length alone. */
  function SendingRaises(c: Call): Option<Error>
    requires c.CanBeBuilt()
  {
    c.wire.SendingRaises(c.wire.DeviceLe(PacketLength(c.w)), AnswerLength(c.w))
  }

  /** The reader has the whole answer exactly if it fits one response. */
  predicate ReaderHas(c: Call, s: ReaderState, answer: seq<byte>)
    requires c.CanBeBuilt()
  {
    if AnswerLength(c.w) <= c.Limit() then s.ReaderDone? && s.response.data == Some(answer) else !s.ReaderDone?
  }

  /** In every run the device performs the requests; what follows depends on the length of the answer alone. */
  lemma Happened(c: Call, u: TP.Setup, run: seq<TP.System>, after: Device, reply: RF.Reply) returns (served: Device)
    requires c.Valid() && Happens(c, u, run, after, reply)
    ensures Answered(c, served) && c.CanBeBuilt()
    ensures after == AfterCommand(served, Exchange(c.Sealing().1.value), SendingRaises(c))
    ensures ReaderHas(c, run[|run| - 1].reader, served.answer.value.Wire())
  {
    var packet, last := c.Sealing().1.value, run[|run| - 1];
    var sending := Raises(c.wire.Cut(last.seen.value.le, after.answer.value.Wire()), last.device);
    PacketWire(c);
    StepIsOnPacket(c, u, run, packet, after.answer.value.Wire());
    served := DeviceAnswers(c, packet, sending);
    RunDecides(c, u, run, packet.Wire(), after.answer.value.Wire());
  }

  lemma RunDecides(c: Call, u: TP.Setup, run: seq<TP.System>, packet: seq<byte>, answer: seq<byte>)
    requires Carried(c.wire, u, run, packet, answer) && packet != [] && answer != []
    requires |packet| == PacketLength(c.w) && |answer| == AnswerLength(c.w) && c.wire.kind.ExchangeKind?
    ensures c.CanBeBuilt() && ReaderHas(c, run[|run| - 1].reader, answer)
    ensures Raises(c.wire.Cut(run[|run| - 1].seen.value.le, answer), run[|run| - 1].device) == SendingRaises(c)
  {
    Carries(c.wire, u, run, packet, answer);
  }

  // ---------------------------------------------------------------- the reader

  /** The reader opens the answer, finds success, gets the slices, and is in step with the engine of the device. */
  lemma AnswerUnderstood(c: Call, served: Device)
    requires c.Valid() && Answered(c, served)
    ensures var reader, user := c.Sealing().0, EngineOf(served.session.value, c.Choice()).value;
            var (reader', text) := reader.Decrypt(c.aead, served.answer.value, []);
            && text == Ok(Reply(c.device.mailbox.value.data, c.w)) && InStep(reader', user)
            && RF.StatusCode(text.value) == RF.EXCHANGE_OK
            && RF.ReadData(Some(|c.w.readRequests|), RF.DataPart(text.value)) == Ok(c.Expected())
  {
    var data := c.device.mailbox.value.data;
    RoundTrip(c.aead, c.engine, c.User(), c.plain, Reply(data, c.w));
    SlicesAreShort(data, c.w);
    AnswerRoundTrip(c.Expected());
  }

  /** The reader has the engine that the device will answer with. */
  predicate HasEngine(r: RF.Reader, choice: UserMachine.Choice) {
    r.session.Some? && if choice.UseStepUp? then r.session.value.stepup else r.session.value.expedited
  }

  lemma ReturnsSlices(c: Call, served: Device, response: ApduCodec.Response, peer: RF.Peer, r: RF.Reader)
    requires c.Valid() && Answered(c, served)
    requires response.data == Some(served.answer.value.Wire()) && HasEngine(r, c.Choice())
    requires peer(r.Sent()) == Interpreted(c.aead, c.Sealing().0, response)
    ensures RF.HandleExchange(peer, r, 0, c.Choice().UseStepUp?, Some(|c.w.readRequests|), None)
         == (r.Sending(0, RF.ExchangeMessage(c.Choice().UseStepUp?, None)), Ok(c.Expected()))
  {
    AnswerUnderstood(c, served);
    ReturnsParts(peer, r, c.Choice().UseStepUp?, |c.w.readRequests|, Reply(c.device.mailbox.value.data, c.w),
                 c.Expected());
  }

  lemma ReturnsParts(peer: RF.Peer, r: RF.Reader, stepup: bool, requested: nat, payload: seq<byte>,
                     parts: seq<seq<byte>>)
    requires r.session.Some? && (if stepup then r.session.value.stepup else r.session.value.expedited)
    requires peer(r.Sent()) == RF.Answer(payload) && RF.StatusCode(payload) == RF.EXCHANGE_OK
    requires RF.ReadData(Some(requested), RF.DataPart(payload)) == Ok(parts)
    ensures RF.HandleExchange(peer, r, 0, stepup, Some(requested), None)
         == (r.Sending(0, RF.ExchangeMessage(stepup, None)), Ok(parts))
  {
  }

  /** Whatever the reader does about a reply that is no answer, it returns no data. */
  lemma ReturnsNothing(peer: RF.Peer, r: RF.Reader, stepup: bool, requested: Option<nat>)
    requires !peer(r.Sent()).Answer?
    ensures RF.HandleExchange(peer, r, 0, stepup, requested, None).1.Err?
  {
  }

  // ---------------------------------------------------------------- the theorem

  /** The session goes on, in step with the engine of the reader once it has decrypted the answer. */
  predicate GoesOn(c: Call, after: Device)
    requires c.InSession()
  {
    && Live(after) && after.answer.Some? && EngineOf(after.session.value, c.Choice()).Some?
    && InStep(c.Sealing().0.Decrypt(c.aead, after.answer.value, []).0, EngineOf(after.session.value, c.Choice()).value)
  }

  /**
   * The session of the device is over, whose answer was chained or could not be cut; or the session goes on, out of
   * step with the engine that has sealed the command.
   */
  predicate LeftBehind(c: Call, after: Device)
    requires c.InSession()
  {
    if c.CanBeBuilt() && c.Limit() >= 0 then NoEngines(after)
    else
      && Live(after) && EngineOf(after.session.value, c.Choice()).Some?
      && !InStep(c.Sealing().0, EngineOf(after.session.value, c.Choice()).value)
  }

  /** All sets and then all writes are in the mailbox, whether or not the call returns. */
  predicate Applied(c: Call, after: Device)
    requires c.Asks()
  {
    Written(c.device.mailbox.value, c.w, after.mailbox) && after.log == c.device.log
  }

  /**
   * What the caller finds: the requested slices of the mailbox as it was, in request order, if and only if the command
   * can be built and the answer fits one response. Then one message was sent and the session goes on. If the command
   * was built and the answer does not fit, the requests were performed all the same, and the caller gets an error; if
   * it was not built, nothing happened but that the reader used up a number.
   */
  predicate Returns(c: Call, after: Device, peer: RF.Peer, r: RF.Reader)
    requires c.InSession() && c.Asks()
  {
    var (r', result) := RF.HandleExchange(peer, r, 0, c.Choice().UseStepUp?, Some(|c.w.readRequests|), None);
    && (result == Ok(c.Expected()) <==> c.Deliverable())
    && (if c.Deliverable() then r' == r.Sending(0, RF.ExchangeMessage(c.Choice().UseStepUp?, None)) && GoesOn(c, after)
        else result.Err? && LeftBehind(c, after))
    && (if c.CanBeBuilt() then Applied(c, after) else after == c.device)
  }

  /** However a call ends, whatever the reader does about the reply. */
  lemma CallReturnsIff(c: Call, after: Device, reply: RF.Reply, peer: RF.Peer, r: RF.Reader)
    requires c.Valid() && Ends(c, after, reply) && HasEngine(r, c.Choice()) && peer(r.Sent()) == reply
    ensures Returns(c, after, peer, r)
  {
    if c.wire.Size(PacketLength(c.w)).Err? {
      UnbuiltCallRaises(c, peer, r);
    } else {
      var u: TP.Setup, run: seq<TP.System> :| Happens(c, u, run, after, reply);
      RanCallReturnsIff(c, u, run, after, reply, peer, r);
    }
  }

  lemma UnbuiltCallRaises(c: Call, peer: RF.Peer, r: RF.Reader)
    requires c.Valid() && c.wire.Size(PacketLength(c.w)).Err? && !peer(r.Sent()).Answer? && HasEngine(r, c.Choice())
    ensures Returns(c, c.device, peer, r)
  {
    ReturnsNothing(peer, r, c.Choice().UseStepUp?, Some(|c.w.readRequests|));
  }

  lemma RanCallReturnsIff(c: Call, u: TP.Setup, run: seq<TP.System>, after: Device, reply: RF.Reply, peer: RF.Peer,
                          r: RF.Reader)
    requires c.Valid() && Happens(c, u, run, after, reply) && HasEngine(r, c.Choice()) && peer(r.Sent()) == reply
    ensures Returns(c, after, peer, r)
  {
    var served := Happened(c, u, run, after, reply);
    BuiltCallReturnsIff(c, served, run[|run| - 1].reader, after, peer, r);
  }

  lemma BuiltCallReturnsIff(c: Call, served: Device, s: ReaderState, after: Device, peer: RF.Peer, r: RF.Reader)
    requires c.Valid() && Answered(c, served) && c.CanBeBuilt() && HasEngine(r, c.Choice())
    requires after == AfterCommand(served, Exchange(c.Sealing().1.value), SendingRaises(c))
    requires ReaderHas(c, s, served.answer.value.Wire()) && Hears(c.aead, c.Sealing().0, s, peer(r.Sent()))
    ensures Returns(c, after, peer, r)
  {
    if c.Deliverable() {
      CallDelivered(c, served, s, after, peer, r);
    } else {
      CallNotDelivered(c, served, after, peer, r);
    }
  }

  lemma CallDelivered(c: Call, served: Device, s: ReaderState, after: Device, peer: RF.Peer, r: RF.Reader)
    requires c.Valid() && Answered(c, served) && c.Deliverable() && HasEngine(r, c.Choice())
    requires after == AfterCommand(served, Exchange(c.Sealing().1.value), SendingRaises(c))
    requires ReaderHas(c, s, served.answer.value.Wire()) && Hears(c.aead, c.Sealing().0, s, peer(r.Sent()))
    ensures Returns(c, after, peer, r)
  {
    ReturnsSlices(c, served, s.response, peer, r);
    ServedGoesOn(c, served);
  }

  lemma ServedGoesOn(c: Call, served: Device)
    requires c.Valid() && Answered(c, served)
    ensures AfterCommand(served, Exchange(c.Sealing().1.value), None) == served && GoesOn(c, served)
            && Applied(c, served)
  {
    AnswerUnderstood(c, served);
  }

  lemma CallNotDelivered(c: Call, served: Device, after: Device, peer: RF.Peer, r: RF.Reader)
    requires c.Valid() && Answered(c, served) && c.CanBeBuilt() && !c.Deliverable() && HasEngine(r, c.Choice())
    requires after == AfterCommand(served, Exchange(c.Sealing().1.value), SendingRaises(c)) && !peer(r.Sent()).Answer?
    ensures Returns(c, after, peer, r)
  {
    ReturnsNothing(peer, r, c.Choice().UseStepUp?, Some(|c.w.readRequests|));
    AfterCommandEngines(served, Exchange(c.Sealing().1.value), SendingRaises(c));
  }

  // ---------------------------------------------------------------- every call ends, or is never built

  /** A call whose command is built or refused has an end. */
  lemma CallEnds(c: Call) returns (after: Device, reply: RF.Reply)
    requires c.Valid() && (c.wire.Size(PacketLength(c.w)).Err? || c.CanBeBuilt())
    ensures Ends(c, after, reply)
  {
    if c.wire.Size(PacketLength(c.w)).Err? {
      after, reply := c.device, RF.NotBuilt(c.wire.Size(PacketLength(c.w)).error);
    } else {
      var u, run, answer := CallRuns(c);
      var s := run[|run| - 1].reader;
      after := StepOn(c, run[|run| - 1], answer.Wire());
      reply := if s.ReaderDone? then Interpreted(c.aead, c.Sealing().0, s.response) else RF.Timeout;
      assert Happens(c, u, run, after, reply);
    }
  }

  lemma CallRuns(c: Call) returns (u: TP.Setup, run: seq<TP.System>, answer: Sealed)
    requires c.Valid() && c.CanBeBuilt()
    ensures c.Sealing().1.Ok? && Carried(c.wire, u, run, c.Sealing().1.value.Wire(), answer.Wire())
    ensures StepOn(c, run[|run| - 1], answer.Wire()).answer == Some(answer)
  {
    PacketWire(c);
    var packet := c.Sealing().1.value;
    var served := DeviceAnswers(c, packet, None);
    answer := served.answer.value;
    u, run := CanBeCarried(c.wire, packet.Wire(), answer.Wire());
    StepAnswers(c, u, run, packet, answer);
  }

  /** Whatever sending the answer raises, it is the same answer. */
  lemma StepAnswers(c: Call, u: TP.Setup, run: seq<TP.System>, packet: Sealed, answer: Sealed)
    requires c.Valid() && Ok(packet) == c.Sealing().1
    requires var e := c.User().(dec := c.User().dec + 1);
             Ok(answer) == e.Encrypt(c.aead, Reply(c.device.mailbox.value.data, c.w), []).1
    requires Carried(c.wire, u, run, packet.Wire(), answer.Wire())
    ensures StepOn(c, run[|run| - 1], answer.Wire()).answer == Some(answer)
  {
    PacketWire(c);
    StepIsOnPacket(c, u, run, packet, answer.Wire());
    var last := run[|run| - 1];
    var served := DeviceAnswers(c, packet, Raises(c.wire.Cut(last.seen.value.le, answer.Wire()), last.device));
  }

  /** Any other call has none: `create_command` cuts for ever. */
  lemma CallHangs(c: Call)
    requires c.Valid() && c.wire.Size(PacketLength(c.w)).Ok? && !c.CanBeBuilt()
    ensures !exists k: nat :: EndsAfter(c.Sealing().1.value.Wire(), c.wire.Size(PacketLength(c.w)).value, k)
  {
    PacketWire(c);
    CuttingEndsIff(c.Sealing().1.value.Wire(), c.wire.Size(PacketLength(c.w)).value);
  }

  lemma EndsOnlyIf(c: Call, after: Device, reply: RF.Reply)
    requires c.Valid() && Ends(c, after, reply)
    ensures c.wire.Size(PacketLength(c.w)).Err? || c.CanBeBuilt()
  {
    if c.wire.Size(PacketLength(c.w)).Ok? {
      var u: TP.Setup, run: seq<TP.System> :| Happens(c, u, run, after, reply);
      PacketWire(c);
      assert IsBuilt(c.wire, u, c.Sealing().1.value.Wire());
    }
  }

  // ---------------------------------------------------------------- an answer with an error status

  /** What the handler is given of a wait that has ended, or of one that no message ends. */
  function ReplyOf(aead: Aead, engine: Engine, s: ReaderState): RF.Reply {
    match s
    case ReaderDone(response, _, _) => Interpreted(aead, engine, response)
    case ReaderFailed(e) => if e.InvalidStatusError? then RF.StatusWord(e.status) else RF.Broken(e)
    case _ => RF.Timeout
  }

  /**
   * Whatever messages come in: if the answer that decides has an error status, the failure process of the reader runs
   * in the state STATUS_WORD, and the call raises that status unless the failure process raises another error. The call
   * returns only if an answer with the success status decides.
   */
  lemma StatusOfCall(aead: Aead, engine: Engine, l: Limits, commands: seq<ApduCodec.Command>, timer: bool,
                     inbox: seq<Chaining.Event>, peer: RF.Peer, r: RF.Reader, stepup: bool, requested: Option<nat>,
                     status: nat)
    requires CE.Askable(l, commands)
    requires r.session.Some? && if stepup then r.session.value.stepup else r.session.value.expedited
    requires var run := RunReader(l, commands, timer, AwaitCommand(0), inbox, [commands[0].wire]);
             peer(r.Sent()) == ReplyOf(aead, engine, run.state)
    ensures var n, heard := |commands|, CE.Transcribe(timer, inbox, 0x01).heard;
            var (r', result) := RF.HandleExchange(peer, r, 0, stepup, requested, None);
            var r1 := r.Sending(0, RF.ExchangeMessage(stepup, None));
            && ((status != 0x9000 && exists k: nat :: CE.DecidesAt(n, heard, k) && CE.StatusOf(heard[k]) == status) ==>
                  && result.Err?
                  && RF.FailsAs(peer, r1, 0x00, RF.STATUS_WORD, InvalidStatusError(status), r', result.error))
            && (result.Ok? ==> exists k: nat :: CE.DecidesAt(n, heard, k) && CE.StatusOf(heard[k]) == 0x9000)
  {
    var s := RunReader(l, commands, timer, AwaitCommand(0), inbox, [commands[0].wire]).state;
    assert [] + [commands[0].wire] == [commands[0].wire];
    CE.StatusDecides(l, commands, timer, inbox, [], status);
    RF.ExchangeReplies(peer, r, stepup, requested, None, 0x00, RF.STATUS_WORD, InvalidStatusError(status));
    if !s.ReaderDone? {
      ReturnsNothing(peer, r, stepup, requested);
    }
  }
}
