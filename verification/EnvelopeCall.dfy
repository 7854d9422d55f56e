/**
 * A call of `Reader.handle_envelope`, from the request to the documents of the device. Its class is the one in which
 * GET RESPONSE is understood, so that the answer arrives however many responses it takes.
 */
module EnvelopeCall {
  import opened Basics
  import opened Encryption
  import opened Chaining
  import opened UserMachine
  import opened UserEngines
  import opened OverWire
  import EE = ExchangeEndToEnd
  import AC = ApduCodec
  import TP = TwoParty

  /** An encrypted payload in a CBOR map in an object with tag 0x53; the libraries take apart what they have written. */
  datatype Wrapping = Wrapping(wrap: seq<byte> -> seq<byte>, unwrap: seq<byte> -> Option<seq<byte>>, length: nat -> nat)
  {
    predicate Inverts(p: seq<byte>) {
      unwrap(wrap(p)) == Some(p) && |wrap(p)| == length(|p|) && length(|p|) > 0
    }

    ghost predicate Correct() {
      forall p :: Inverts(p)
    }
  }

  /** The assumption can be met. */
  lemma SomeWrappingIsCorrect()
    ensures Wrapping(p => [0x53] + p, s => if s == [] then None else Some(s[1..]), n => n + 1).Correct()
  {
    var w := Wrapping((p: seq<byte>) => [0x53 as byte] + p, s => if s == [] then None else Some(s[1..]), n => n + 1);
    forall p ensures w.Inverts(p) {
      assert ([0x53] + p)[1..] == p;
    }
  }

  /** What the device answers with is the document, whatever was asked for. */
  datatype Call = Call(env: Env, wrapping: Wrapping, request: seq<byte>, document: seq<byte>, engine: Engine,
                       device: Device, wire: Wire)
  {
    /** Step-up engines in step, in a state that accepts an ENVELOPE. */
    predicate InSession() {
      && MayEnvelope(device) && InStep(engine, device.session.value.stepup.value)
      && engine.enc < COUNTER_END && engine.dec < COUNTER_END
      // a single transaction takes nothing but an EXCHANGE while an atomic session is open
      && (device.config.mode.SingleTransaction? ==> !device.log.started)
    }

    ghost predicate Valid() {
      && env.aead.Correct() && wrapping.Correct() && InSession() && wire.readerLimits.Standard()
      && wire.kind.EnvelopeKind?
    }

    function CommandLength(): nat {
      wrapping.length(|request| + TAG_LENGTH)
    }

    function AnswerLength(): nat {
      wrapping.length(|document| + TAG_LENGTH)
    }

    predicate CanBeBuilt() {
      wire.CanBeBuilt(CommandLength())
    }

    function Le(): int
      requires CanBeBuilt()
    {
      wire.DeviceLe(CommandLength())
    }

    /** What the caller can check beforehand; the length of the document does not matter. */
    predicate Deliverable() {
      CanBeBuilt() && wire.AnswerLimit(Le()) >= 1
    }

    /** The reader seals before it builds the command. */
    function Sealing(): (Engine, Result<Sealed>) {
      engine.Encrypt(env.aead, request, [])
    }

    /** The engine of the device once it has decrypted the command. */
    function Decrypted(): Engine
      requires InSession()
    {
      var e := device.session.value.stepup.value;
      e.(dec := e.dec + 1)
    }
  }

  // ---------------------------------------------------------------- the two parsers

  function Unwrapped(w: Wrapping, data: Option<seq<byte>>): Option<Sealed> {
    if data.None? then None
    else
      match w.unwrap(data.value)
      case None => None
      case Some(p) => Some(FromWire(p))
  }

  /** `parse_as_envelope` on a command that arrived whole, up to the decryption. */
  function Arrived(w: Wrapping, document: seq<byte>, c: AC.Command): (Command, Option<Error>) {
    if c.ins != AC.INS_ENVELOPE then (Unknown, None)
    else
      var packet := Unwrapped(w, c.data);
      (Envelope(if packet.Some? then packet.value else Sealed([], []), document),
       if c.cla != 0x00 && c.cla != 0x10 then Some(InvalidCLAError)
       else if c.p1 != 0 || c.p2 != 0 then Some(InvalidParameterError)
       else if packet.None? then Some(InvalidCommandDataError)
       else None)
  }

  /** `parse_as_envelope` on a response. */
  function Interpreted(c: Call, e: Engine, r: AC.Response): Result<seq<byte>> {
    if r.status != AC.SW_SUCCESS then Err(InvalidStatusError(r.status))
    else if r.data.None? then Err(InvalidResponseError)
    else
      match Unwrapped(c.wrapping, r.data)
      case None => Err(InvalidCommandDataError)
      case Some(packet) => e.Decrypt(c.env.aead, packet, []).1
  }

  // ---------------------------------------------------------------- the end of a call

  /** A reader that is still waiting when nothing is in flight any more gets no document. */
  function Heard(c: Call, s: ReaderState): Result<seq<byte>> {
    if s.ReaderDone? then Interpreted(c, c.Sealing().0, s.response) else Err(TimeoutError)
  }

  /** What the call returns: an error is raised behind a failure process or a timeout, which may raise another. */
  predicate Hears(c: Call, s: ReaderState, result: Result<seq<byte>>) {
    if Heard(c, s).Ok? then result == Heard(c, s) else result.Err?
  }

  /** The step of the device on the command that it has seen, told what sending the answer raised in the run. */
  function StepOn(c: Call, last: TP.System, answer: seq<byte>): Device
    requires last.seen.Some?
  {
    var (command, fault) := Arrived(c.wrapping, c.document, last.seen.value);
    Step(c.env, c.device,
         Input.Received(command, fault, Raises(c.wire.Cut(last.seen.value.le, answer), last.device)))
  }

  /** A complete run over the channel, which carries back the answer that the step of the device seals. */
  ghost predicate Happens(c: Call, u: TP.Setup, run: seq<TP.System>, after: Device, result: Result<seq<byte>>) {
    && c.Sealing().1.Ok? && after.answer.Some?
    && var answer := c.wrapping.wrap(after.answer.value.Wire());
       && Carried(c.wire, u, run, c.wrapping.wrap(c.Sealing().1.value.Wire()), answer)
       && after == StepOn(c, run[|run| - 1], answer)
       && Hears(c, run[|run| - 1].reader, result)
  }

  /** The call ends with this result and leaves the device like this. */
  ghost predicate Ends(c: Call, after: Device, result: Result<seq<byte>>) {
    var size := c.wire.Size(c.CommandLength());
    if size.Err? then after == c.device && result == Err(size.error)
    else exists u, run :: Happens(c, u, run, after, result)
  }

  // ---------------------------------------------------------------- the device

  /** The document is sealed by the step-up engine that has decrypted the command, and nothing is stored. */
  predicate Answered(c: Call, served: Device)
    requires c.InSession()
  {
    && served.mailbox == c.device.mailbox && served.log == c.device.log && served.phase == c.device.phase
    && served.config == c.device.config && served.session.Some? && served.answer.Some?
    && served.session.value.stepup == Some(c.Decrypted().(enc := c.Decrypted().enc + 1))
    && Ok(served.answer.value) == c.Decrypted().Encrypt(c.env.aead, c.document, []).1
  }

  function WithStepUp(d: Device, e: Engine): Device
    requires d.session.Some?
  {
    d.(session := Some(WithEngine(d.session.value, UseStepUp, e)))
  }

  /** The session behind the decryption. */
  function Opened(c: Call): Device
    requires c.InSession()
  {
    WithStepUp(c.device, c.Decrypted())
  }

  /** The command is parsed and decrypted, and leaves the device like this. */
  predicate Waits(env: Env, d: Device, command: Command, d1: Device)
    requires d.session.Some?
  {
    WaitForCommand(env, d, command, None) == (d1, Ok(Parsed(command, None)))
  }

  lemma GenuineParsed(env: Env, d: Device, reader: Engine, plain: seq<byte>, command: Command)
    requires env.aead.Correct() && MayEnvelope(d) && command.Envelope?
    requires InStep(reader, d.session.value.stepup.value) && reader.enc < COUNTER_END
    requires Ok(command.packet) == reader.Encrypt(env.aead, plain, []).1
    ensures var e := d.session.value.stepup.value;
            Waits(env, d, command, WithStepUp(d, e.(dec := e.dec + 1)))
  {
    var s := d.session.value;
    EnginesAgree(s.state);
    EE.DecryptsGenuine(env, s, UseStepUp, reader, plain, command.packet);
    WaitParses(env, d, command, WithEngine(s, UseStepUp, s.stepup.value.(dec := s.stepup.value.dec + 1)), plain);
  }

  lemma WaitParses(env: Env, d: Device, command: Command, s: UserSession, plain: seq<byte>)
    requires d.session.Some? && command.Envelope? && DecryptionChoice(d.session.value.state, false).UseStepUp?
    requires Decrypted(env, d.session.value, UseStepUp, command.packet) == (s, Ok(Some(plain)))
    ensures Waits(env, d, command, d.(session := Some(s)))
  {
  }

  lemma EnvelopeWaits(c: Call, packet: Sealed)
    requires c.Valid() && c.Sealing().1 == Ok(packet)
    ensures Waits(c.env, c.device, Envelope(packet, c.document), Opened(c))
  {
    GenuineParsed(c.env, c.device, c.engine, c.request, Envelope(packet, c.document));
  }

  /** What the handler leaves behind; without an error the state is updated. */
  lemma EnvelopeServes(c: Call, sending: Option<Error>)
    requires c.Valid()
    ensures var (served, error) := HandleEnvelope(c.env, Opened(c), c.document, sending);
            && error == sending && Answered(c, served)
            && (sending.None? ==> served.session.value.state.ENVELOPE_DONE?)
  {
  }

  lemma DeviceAnswers(c: Call, packet: Sealed, sending: Option<Error>) returns (served: Device)
    requires c.Valid() && c.Sealing().1 == Ok(packet)
    ensures Answered(c, served) && (sending.None? ==> served.session.value.state.ENVELOPE_DONE?)
    ensures Step(c.env, c.device, Input.Received(Envelope(packet, c.document), None, sending))
         == AfterCommand(served, Envelope(packet, c.document), sending)
  {
    EnvelopeWaits(c, packet);
    EnvelopeServes(c, sending);
    served := HandleEnvelope(c.env, Opened(c), c.document, sending).0;
    StepIs(c.env, c.device, Opened(c), Envelope(packet, c.document), served, sending);
  }

  lemma StepIs(env: Env, d: Device, d1: Device, command: Command, served: Device, sending: Option<Error>)
    requires Live(d) && command.Envelope? && d1.session.Some?
    requires d1.config.mode.SingleTransaction? ==> !d1.log.started
    requires Waits(env, d, command, d1)
    requires HandleEnvelope(env, d1, command.document, sending) == (served, sending)
    ensures Step(env, d, Input.Received(command, None, sending)) == AfterCommand(served, command, sending)
  {
    var p := Parsed(command, None);
    assert LoopCommand(env, d, command, None, sending) == LoopParsed(env, d1, command, p, sending);
  }

  lemma ArrivesAs(c: Call, packet: Sealed, le: int, seen: AC.Command)
    requires c.Valid() && c.Sealing().1 == Ok(packet)
    requires IsPacket(c.wire, c.wrapping.wrap(packet.Wire()), le, seen)
    ensures Arrived(c.wrapping, c.document, seen) == (Envelope(packet, c.document), None)
  {
    assert c.wrapping.Inverts(packet.Wire());
    WireRoundTrip(packet);
  }

  lemma StepIsOnPacket(c: Call, u: TP.Setup, run: seq<TP.System>, packet: Sealed, answer: seq<byte>)
    requires c.Valid() && c.Sealing().1 == Ok(packet)
    requires Carried(c.wire, u, run, c.wrapping.wrap(packet.Wire()), answer)
    ensures var last := run[|run| - 1];
            StepOn(c, last, answer)
            == Step(c.env, c.device,
                    Input.Received(Envelope(packet, c.document), None,
                                   Raises(c.wire.Cut(last.seen.value.le, answer), last.device)))
  {
    var seen := run[|run| - 1].seen.value;
    assert c.wrapping.Inverts(packet.Wire());
    DeviceSees(c.wire, u, run, c.wrapping.wrap(packet.Wire()), answer);
    ArrivesAs(c, packet, seen.le, seen);
  }

  /** How long the two messages are. */
  lemma Lengths(c: Call, served: Device)
    requires c.Valid() && Answered(c, served)
    ensures c.Sealing().1.Ok? && |c.wrapping.wrap(c.Sealing().1.value.Wire())| == c.CommandLength() > 0
    ensures |c.wrapping.wrap(served.answer.value.Wire())| == c.AnswerLength() > 0
  {
    assert c.wrapping.Inverts(c.Sealing().1.value.Wire()) && c.wrapping.Inverts(served.answer.value.Wire());
  }

  /** The reader has the whole answer, unless the device may not send a byte. */
  predicate ReaderHas(c: Call, s: ReaderState, answer: seq<byte>)
    requires c.CanBeBuilt()
  {
    if c.Deliverable() then s.ReaderDone? && s.response.data == Some(answer) && s.response.status == AC.SW_SUCCESS
    else !s.ReaderDone?
  }

  function SendingRaises(c: Call): Option<Error>
    requires c.CanBeBuilt()
  {
    if !c.Deliverable() && c.wire.AnswerLimit(c.Le()) == 0 then Some(ValueError) else None
  }

  lemma RunDecides(c: Call, u: TP.Setup, run: seq<TP.System>, packet: seq<byte>, answer: seq<byte>)
    requires c.wire.kind.EnvelopeKind? && Carried(c.wire, u, run, packet, answer) && packet != [] && answer != []
    requires |packet| == c.CommandLength() && |answer| == c.AnswerLength()
    ensures c.CanBeBuilt() && ReaderHas(c, run[|run| - 1].reader, answer)
    ensures Raises(c.wire.Cut(run[|run| - 1].seen.value.le, answer), run[|run| - 1].device) == SendingRaises(c)
  {
    Carries(c.wire, u, run, packet, answer);
  }

  /** In every run the device answers; what follows depends on the limit of the answer alone. */
  lemma Happened(c: Call, u: TP.Setup, run: seq<TP.System>, after: Device, result: Result<seq<byte>>)
    returns (served: Device)
    requires c.Valid() && Happens(c, u, run, after, result)
    ensures Answered(c, served) && c.CanBeBuilt() && after.answer == served.answer
    ensures after == AfterCommand(served, Envelope(c.Sealing().1.value, c.document), SendingRaises(c))
    ensures SendingRaises(c).None? ==> served.session.value.state.ENVELOPE_DONE?
    ensures ReaderHas(c, run[|run| - 1].reader, c.wrapping.wrap(served.answer.value.Wire()))
  {
    var packet, last := c.Sealing().1.value, run[|run| - 1];
    var answer := c.wrapping.wrap(after.answer.value.Wire());
    var sending := Raises(c.wire.Cut(last.seen.value.le, answer), last.device);
    StepIsOnPacket(c, u, run, packet, answer);
    served := DeviceAnswers(c, packet, sending);
    AfterCommandEngines(served, Envelope(packet, c.document), sending);
    Lengths(c, served);
    RunDecides(c, u, run, c.wrapping.wrap(packet.Wire()), answer);
  }

  // ---------------------------------------------------------------- the theorem

  /** The session goes on, in step with the engine of the reader once it has decrypted the answer. */
  predicate GoesOn(c: Call, after: Device) {
    && Live(after) && after.session.value.state.ENVELOPE_DONE? && after.answer.Some? && after.session.value.stepup.Some?
    && InStep(c.Sealing().0.Decrypt(c.env.aead, after.answer.value, []).0, after.session.value.stepup.value)
  }

  /** The loop has ended, since the answer could not be cut; or the session goes on, out of step. */
  predicate LeftBehind(c: Call, after: Device) {
    if c.CanBeBuilt() && c.wire.AnswerLimit(c.Le()) == 0 then after.phase == Stopped(Some(ValueError))
    else
      && Live(after) && after.session.value.stepup.Some?
      && !InStep(c.Sealing().0, after.session.value.stepup.value)
  }

  /**
   * What the caller finds: the document, however long, if and only if the command can be built and the device may send
   * a byte in one response. The mailbox is never touched.
   */
  predicate Returns(c: Call, after: Device, result: Result<seq<byte>>) {
    && (result == Ok(c.document) <==> c.Deliverable())
    && (if c.Deliverable() then GoesOn(c, after) else result.Err? && LeftBehind(c, after))
    && after.mailbox == c.device.mailbox && after.log == c.device.log
    && (!c.CanBeBuilt() ==> after == c.device)
  }

  /** However a call ends. */
  lemma EnvelopeReturnsIff(c: Call, after: Device, result: Result<seq<byte>>)
    requires c.Valid() && Ends(c, after, result)
    ensures Returns(c, after, result)
  {
    if c.wire.Size(c.CommandLength()).Ok? {
      var u: TP.Setup, run: seq<TP.System> :| Happens(c, u, run, after, result);
      RanReturnsIff(c, u, run, after, result);
    } else {
      UnbuiltReturns(c, after, result);
    }
  }

  lemma UnbuiltReturns(c: Call, after: Device, result: Result<seq<byte>>)
    requires c.Valid() && !c.CanBeBuilt() && after == c.device && result.Err?
    ensures Returns(c, after, result)
  {
  }

  lemma RanReturnsIff(c: Call, u: TP.Setup, run: seq<TP.System>, after: Device, result: Result<seq<byte>>)
    requires c.Valid() && Happens(c, u, run, after, result)
    ensures Returns(c, after, result)
  {
    var served := Happened(c, u, run, after, result);
    LoopGoesOn(served, Envelope(c.Sealing().1.value, c.document));
    ValueErrorStops(served, Envelope(c.Sealing().1.value, c.document));
    if c.Deliverable() {
      Delivered(c, served, run[|run| - 1].reader.response, result);
    } else {
      NotDelivered(c, served, after, result);
    }
  }

  lemma NotDelivered(c: Call, served: Device, after: Device, result: Result<seq<byte>>)
    requires c.Valid() && Answered(c, served) && c.CanBeBuilt() && !c.Deliverable() && result.Err?
    requires after == if SendingRaises(c).None? then served else Stop(served, Some(ValueError))
    ensures Returns(c, after, result)
  {
  }

  lemma LoopGoesOn(d: Device, command: Command)
    requires d.session.Some? && command.Envelope?
    ensures AfterCommand(d, command, None) == d
  {
  }

  lemma ValueErrorStops(d: Device, command: Command)
    ensures AfterCommand(d, command, Some(ValueError)) == Stop(d, Some(ValueError))
  {
  }

  lemma Delivered(c: Call, served: Device, response: AC.Response, result: Result<seq<byte>>)
    requires c.Valid() && Answered(c, served) && served.session.value.state.ENVELOPE_DONE?
    requires response.data == Some(c.wrapping.wrap(served.answer.value.Wire())) && response.status == AC.SW_SUCCESS
    requires var heard := Interpreted(c, c.Sealing().0, response); heard.Ok? ==> result == heard
    ensures result == Ok(c.document) && GoesOn(c, served)
  {
    AnswerUnderstood(c, served);
    assert c.wrapping.Inverts(served.answer.value.Wire());
    WireRoundTrip(served.answer.value);
  }

  lemma AnswerUnderstood(c: Call, served: Device)
    requires c.Valid() && Answered(c, served)
    ensures var (reader, text) := c.Sealing().0.Decrypt(c.env.aead, served.answer.value, []);
            text == Ok(c.document) && InStep(reader, served.session.value.stepup.value)
  {
    RoundTrip(c.env.aead, c.engine, c.device.session.value.stepup.value, c.request, c.document);
  }

  // ---------------------------------------------------------------- every call ends, or is never built

  /** A call whose command is built or refused has an end. */
  lemma EnvelopeEnds(c: Call) returns (after: Device, result: Result<seq<byte>>)
    requires c.Valid() && c.CommandLength() < 0x100_0000
    requires c.wire.Size(c.CommandLength()).Err? || c.CanBeBuilt()
    ensures Ends(c, after, result)
  {
    if c.wire.Size(c.CommandLength()).Err? {
      after, result := c.device, Err(c.wire.Size(c.CommandLength()).error);
    } else {
      var u, run, answer := EnvelopeRuns(c);
      after, result := StepOn(c, run[|run| - 1], answer), Heard(c, run[|run| - 1].reader);
      assert Happens(c, u, run, after, result);
    }
  }

  lemma EnvelopeRuns(c: Call) returns (u: TP.Setup, run: seq<TP.System>, answer: seq<byte>)
    requires c.Valid() && c.CommandLength() < 0x100_0000 && c.CanBeBuilt()
    ensures c.Sealing().1.Ok? && Carried(c.wire, u, run, c.wrapping.wrap(c.Sealing().1.value.Wire()), answer)
    ensures var after := StepOn(c, run[|run| - 1], answer);
            after.answer.Some? && answer == c.wrapping.wrap(after.answer.value.Wire())
  {
    var packet := c.Sealing().1.value;
    var served := DeviceAnswers(c, packet, None);
    answer := c.wrapping.wrap(served.answer.value.Wire());
    Lengths(c, served);
    u, run := CanBeCarried(c.wire, c.wrapping.wrap(packet.Wire()), answer);
    StepAnswers(c, u, run, packet, served, answer);
  }

  /** Whatever sending the answer raises, it is the same answer. */
  lemma StepAnswers(c: Call, u: TP.Setup, run: seq<TP.System>, packet: Sealed, served: Device, answer: seq<byte>)
    requires c.Valid() && c.Sealing().1 == Ok(packet) && Answered(c, served)
    requires Carried(c.wire, u, run, c.wrapping.wrap(packet.Wire()), answer)
    ensures StepOn(c, run[|run| - 1], answer).answer == served.answer
  {
    var last := run[|run| - 1];
    var sending := Raises(c.wire.Cut(last.seen.value.le, answer), last.device);
    StepIsOnPacket(c, u, run, packet, answer);
    var again := DeviceAnswers(c, packet, sending);
    AfterCommandEngines(again, Envelope(packet, c.document), sending);
  }
}
