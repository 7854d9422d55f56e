/**
 * What an EXCHANGE leads to, whatever its payload asks for: the requests, the reader status, the URSK and the
 * notifications decide together whether it is served, refused with or without an answer, or leaves the loop.
 */
module UserExchanges {
  import opened Basics
  import opened Encryption
  import opened MailboxStore
  import opened MailboxExchange
  import opened UserMachine
  import opened UserEngines
  import opened UserOrder
  import opened UserHandshake
  import opened UserStore
  import EE = ExchangeEndToEnd

  // ---------------------------------------------------------------- notifications

  /** The tags that the handler knows, by the masks that it tests. */
  predicate KnownTag(tag: bv16) {
    || tag == 0x82 || tag == 0xB5
    || (tag & 0xFF00 == 0x9F00 && (tag & 0xFFE0 == 0x9F20 || (tag & 0xFFE0 == 0x9F40 && tag & 0x0007 < 5)))
  }

  lemma NotifyTagMeans(tag: bv16)
    ensures NotifyTagValid(tag as nat) <==> KnownTag(tag)
  {
  }

  /** Every notification is known, the first as well as the last. */
  predicate AllNotified(tags: seq<nat>) {
    forall tag :: tag in tags ==> NotifyTagValid(tag)
  }

  // ---------------------------------------------------------------- what an exchange comes to

  /** Refused before any request is looked at: a reader status that is none on BLE, or a second URSK. */
  predicate Forbidden(d: Device, content: Content)
    requires d.session.Some?
  {
    || (content.readerStatus.Some? && content.readerStatus.value >= 0x100 && d.config.IsBle())
    || (content.ursk && d.session.value.ursk)
  }

  /** The requests are performed. */
  predicate Performs(d: Device, content: Content)
    requires d.session.Some?
  {
    !Forbidden(d, content) && Check(d.mailbox, content.requests).Accepted? && AllNotified(content.notifyTags)
  }

  /** The plaintext of the answer, if there is one. */
  function AnswerTo(d: Device, content: Content): Option<seq<byte>>
    requires d.session.Some?
  {
    if Performs(d, content) then
      Some((if d.mailbox.Some? then Framed(ReadAll(d.mailbox.value, content.requests.readRequests)) else [])
           + [0x00, 0x02, 0x00, 0x00])
    else if !Forbidden(d, content) && Check(d.mailbox, content.requests) == Refused(true) then
      Some([0x00, 0x02, 0xFF, 0xFF])
    else None
  }

  function ExchangeEvents(trace: seq<Event>, content: Content): seq<Event> {
    [ExchangeEntered(InStepUp(Stage(trace)))] + (if content.readerStatus.Some? then [StatusReported] else [])
    + [ExchangeAnswered]
  }

  function ExchangeOutcome(d: Device, content: Content, sending: Option<Error>): Outcome
    requires d.session.Some?
  {
    if sending.Some? && AnswerTo(d, content).Some? then
      SendingFate(d.config, Exchange(Sealed([], [])), sending.value)
    else if Performs(d, content) then Serves(ExchangeEvents(d.trace, content))
    else Refuses
  }

  /** The engine that answers, and the store behind the exchange. */
  predicate Leaves(env: Env, d: Device, content: Content, d': Device)
    requires d.session.Some? && EngineOf(d.session.value, AnswerChoice(d.session.value.state)).Some?
  {
    var e := EngineOf(d.session.value, AnswerChoice(d.session.value.state)).value;
    && (if Performs(d, content) && d.mailbox.Some? then
          var store := Perform(Store(d.mailbox.value, d.log), content.requests).0;
          d'.mailbox == Some(store.box) && d'.log == store.session
        else d'.mailbox == d.mailbox && d'.log == d.log)
    && (match AnswerTo(d, content)
        case None => d'.answer == d.answer
        case Some(text) => d'.answer.Some? && Ok(d'.answer.value) == e.Encrypt(env.aead, text, []).1)
  }

  /** Neither counter is used up. */
  predicate Usable(e: Engine) {
    e.enc < 0xFFFF && e.dec < 0xFFFF
  }

  /** An EXCHANGE that is taken, with an engine whose counters are not used up. */
  predicate Enters(d: Device) {
    && Stands(d) && MayExchangeAt(Stage(d.trace))
    && EngineOf(d.session.value, AnswerChoice(d.session.value.state)).Some?
    && Usable(EngineOf(d.session.value, AnswerChoice(d.session.value.state)).value)
  }

  /** What the handler did: the events of a served exchange, or an error with the fate of the outcome. */
  predicate Handled(env: Env, d: Device, content: Content, sending: Option<Error>, r: (Device, Option<Error>))
    requires Enters(d)
  {
    && Leaves(env, d, content, r.0) && r.0.config == d.config && r.0.phase == d.phase && r.0.session.Some?
    && (if sending.Some? && AnswerTo(d, content).Some? then r.1 == sending
        else if Performs(d, content) then
          && r.1.None? && r.0.trace == d.trace + ExchangeEvents(d.trace, content)
          && r.0.session.value.ursk == (d.session.value.ursk || content.ursk)
        else r.1 == Some(AccessProtocolError))
  }

  lemma PrepareDoes(d: Device, content: Content)
    requires d.session.Some? && !d.session.value.state.ENVELOPE_DONE?
    ensures var (d1, error) := Prepare(d, content);
            && d1 == d.(session := d1.session, trace := d1.trace) && d1.session.Some?
            && d1.session.value.expedited == d.session.value.expedited
            && d1.session.value.stepup == d.session.value.stepup
            && (if Forbidden(d, content) then error == Some(AccessProtocolError)
                else
                  && error.None? && d1.session.value.ursk == (d.session.value.ursk || content.ursk)
                  && d1.trace == d.trace + (if content.readerStatus.Some? then [StatusReported] else []))
  {
  }

  lemma MailboxDoes(env: Env, d: Device, choice: Choice, r: Requests, sending: Option<Error>)
    requires d.session.Some? && EngineOf(d.session.value, choice).Some?
    requires EngineOf(d.session.value, choice).value.enc < COUNTER_END
    requires d.mailbox.Some? ==> Perform(Store(d.mailbox.value, d.log), r).1.None?
    ensures var (d', error) := HandleMailbox(env, d, choice, r, sending);
            var text := (if d.mailbox.Some? then Framed(ReadAll(d.mailbox.value, r.readRequests)) else [])
                        + [0x00, 0x02, 0x00, 0x00];
            && error == sending && d'.session.Some? && d'.config == d.config && d'.phase == d.phase
            && (if d.mailbox.Some? then
                  var store := Perform(Store(d.mailbox.value, d.log), r).0;
                  d'.mailbox == Some(store.box) && d'.log == store.session
                else d'.mailbox == d.mailbox && d'.log == d.log)
            && d'.answer.Some?
            && Ok(d'.answer.value) == EngineOf(d.session.value, choice).value.Encrypt(env.aead, text, []).1
            && d'.session.value.ursk == d.session.value.ursk
            && (sending.None? ==> d'.trace == d.trace + [ExchangeAnswered])
  {
    if d.mailbox.Some? {
      var store := Perform(Store(d.mailbox.value, d.log), r).0;
      AnswerSeals(env, d.(mailbox := Some(store.box), log := store.session), choice, AnswerPayload(d.mailbox.value, r),
                  sending);
    } else {
      assert [] + EXCHANGE_SUCCESS == EXCHANGE_SUCCESS;
      AnswerSeals(env, d, choice, EXCHANGE_SUCCESS, sending);
    }
  }

  /** Performing cannot fail: after a run the open log, if there is one, can be applied. */
  predicate CanPerform(d: Device, r: Requests) {
    d.mailbox.Some? && Check(d.mailbox, r).Accepted? ==> Perform(Store(d.mailbox.value, d.log), r).1.None?
  }

  /** Behind the preparation, on a device that differs from `d` in its session and its trace. */
  lemma ServeDoes(env: Env, d: Device, d1: Device, choice: Choice, content: Content, sending: Option<Error>)
    requires d.session.Some? && d1 == d.(session := d1.session, trace := d1.trace) && d1.session.Some?
    requires EngineOf(d.session.value, choice).Some?
    requires EngineOf(d1.session.value, choice) == EngineOf(d.session.value, choice)
    requires EngineOf(d.session.value, choice).value.enc < COUNTER_END
    requires !Forbidden(d, content) && CanPerform(d, content.requests) && choice == AnswerChoice(d.session.value.state)
    ensures var r := Serve(env, d1, choice, content, sending);
            && Leaves(env, d, content, r.0) && r.0.config == d.config && r.0.phase == d.phase && r.0.session.Some?
            && (if sending.Some? && AnswerTo(d, content).Some? then r.1 == sending
                else if Performs(d, content) then
                  && r.1.None? && r.0.trace == d1.trace + [ExchangeAnswered]
                  && r.0.session.value.ursk == d1.session.value.ursk
                else r.1 == Some(AccessProtocolError))
  {
    assert Notified(content.notifyTags) <==> AllNotified(content.notifyTags);
    match Check(d.mailbox, content.requests)
    case Refused(_) => AnswerSeals(env, d1, choice, EXCHANGE_ERROR, sending);
    case Accepted =>
      if Notified(content.notifyTags) {
        MailboxDoes(env, d1, choice, content.requests, sending);
      }
  }

  /** Behind the state update, the preparation and the rest. */
  lemma PreparedDoes(env: Env, d: Device, d1: Device, content: Content, sending: Option<Error>)
    requires Enters(d) && CanPerform(d, content.requests) && d1 == d.(session := d1.session, trace := d1.trace)
    requires d1.session.Some? && !d1.session.value.state.ENVELOPE_DONE? && d1.session.value.ursk == d.session.value.ursk
    requires d1.session.value.expedited == d.session.value.expedited
             && d1.session.value.stepup == d.session.value.stepup
    requires d1.trace == d.trace + [ExchangeEntered(InStepUp(Stage(d.trace)))]
    ensures Handled(env, d, content, sending,
                    HandleContent(env, d1, AnswerChoice(d.session.value.state), content, sending))
  {
    PrepareDoes(d1, content);
    assert Forbidden(d1, content) == Forbidden(d, content);
    var (d2, error) := Prepare(d1, content);
    if error.None? {
      ServeDoes(env, d, d2, AnswerChoice(d.session.value.state), content, sending);
      EventsJoin(d.trace, content);
    }
  }

  lemma EventsJoin(trace: seq<Event>, content: Content)
    ensures trace + [ExchangeEntered(InStepUp(Stage(trace)))]
            + (if content.readerStatus.Some? then [StatusReported] else []) + [ExchangeAnswered]
         == trace + ExchangeEvents(trace, content)
  {
  }

  lemma ContentDoes(env: Env, d: Device, content: Content, sending: Option<Error>)
    requires Enters(d) && CanPerform(d, content.requests)
    ensures Handled(env, d, content, sending, HandleExchange(env, d, Some(content), sending))
  {
    EnteredKeeps(d);
    PreparedDoes(env, d, Entered(d), content, sending);
    HandlesContent(env, d, content, sending);
  }

  lemma HandlesContent(env: Env, d: Device, content: Content, sending: Option<Error>)
    requires Enters(d)
    ensures HandleExchange(env, d, Some(content), sending)
         == HandleContent(env, Entered(d), AnswerChoice(d.session.value.state), content, sending)
  {
  }

  lemma HandledLeads(env: Env, d: Device, content: Content, sending: Option<Error>, r: (Device, Option<Error>),
                     packet: Sealed)
    requires Enters(d) && d.phase.Looping? && Handled(env, d, content, sending, r)
    ensures var d' := AfterCommand(r.0, Exchange(packet), r.1);
            Leaves(env, d, content, d') && EndsAs(d, d', ExchangeOutcome(d, content, sending))
  {
    RaisedFate(d, r.0, packet, r.1);
  }

  /** Behind an EXCHANGE, with or without an error. */
  lemma RaisedFate(d: Device, d1: Device, packet: Sealed, error: Option<Error>)
    requires d1.config == d.config && d1.session.Some?
    ensures var d' := AfterCommand(d1, Exchange(packet), error);
            && d'.mailbox == d1.mailbox && d'.log == d1.log && d'.answer == d1.answer
            && match error
               case None => d' == d1
               case Some(e) => EndsAs(d, d', SendingFate(d.config, Exchange(Sealed([], [])), e))
  {
  }

  /** Nothing was decrypted, or the counters are used up: the loop is left, and the store is as it was. */
  lemma CannotEnter(env: Env, d: Device, content: Option<Content>, sending: Option<Error>, packet: Sealed)
    requires Stands(d) && d.phase.Looping? && MayExchangeAt(Stage(d.trace))
    requires !Enters(d) || content.None?
    ensures var r := HandleExchange(env, d, content, sending);
            var d' := AfterCommand(r.0, Exchange(packet), r.1);
            && d'.mailbox == d.mailbox && d'.log == d.log && d'.answer == d.answer
            && EndsAs(d, d', if EngineOf(d.session.value, AnswerChoice(d.session.value.state)).None? then Refuses
                             else if !Enters(d) then Raises(SessionError)
                             else Raises(AttributeError))
  {
    NotEntered(env, d, content, sending);
    var r := HandleExchange(env, d, content, sending);
    NotEnteredLeads(d, r.0, r.1, packet);
  }

  lemma NotEntered(env: Env, d: Device, content: Option<Content>, sending: Option<Error>)
    requires Stands(d) && MayExchangeAt(Stage(d.trace)) && (!Enters(d) || content.None?)
    ensures var (d', error) := HandleExchange(env, d, content, sending);
            && d'.mailbox == d.mailbox && d'.log == d.log && d'.answer == d.answer && d'.config == d.config
            && (if EngineOf(d.session.value, AnswerChoice(d.session.value.state)).None? then
                  error == Some(AccessProtocolError)
                else if !Enters(d) then error.None? && d'.session.None?
                else error == Some(AttributeError))
  {
  }

  lemma NotEnteredLeads(d: Device, d1: Device, error: Option<Error>, packet: Sealed)
    requires d1.config == d.config && (error.None? ==> d1.session.None?)
    ensures var d' := AfterCommand(d1, Exchange(packet), error);
            && d'.mailbox == d1.mailbox && d'.log == d1.log && d'.answer == d1.answer
            && (error.None? ==> EndsAs(d, d', Raises(SessionError)))
            && (error == Some(AccessProtocolError) ==> EndsAs(d, d', Refuses))
            && (error == Some(AttributeError) ==> EndsAs(d, d', Raises(AttributeError)))
  {
  }

  /** The content decides what is performed, what is answered, what is recorded and whether the session goes on. */
  lemma ExchangeLeads(env: Env, d: Device, content: Content, sending: Option<Error>, packet: Sealed)
    requires Enters(d) && d.phase.Looping? && CanPerform(d, content.requests)
    ensures var d' := LoopParsed(env, d, Exchange(packet), Parsed(Exchange(packet), Some(content)), sending);
            Leaves(env, d, content, d') && EndsAs(d, d', ExchangeOutcome(d, content, sending))
  {
    var r := HandleExchange(env, d, Some(content), sending);
    ContentDoes(env, d, content, sending);
    HandledLeads(env, d, content, sending, r, packet);
  }

  // ---------------------------------------------------------------- after any run

  /** A log that a run has left can be applied, whatever is asked for behind it. */
  lemma RunsCanPerform(config: Config, box: Box, known: set<SubId>, env: Env, inputs: seq<Input>, r: Requests)
    requires env.Valid() && r.Parsed()
    ensures CanPerform(RunDevice(env, StartDevice(config, Some(box), known), inputs), r)
  {
    var exchanges := RunIsExchanges(config, box, known, env, inputs);
    AtomicSessions(box, exchanges, r);
  }

  /** The device behind the decryption of a genuine command, which nothing but the number of its engine tells apart. */
  function Opened(d: Device): Device
    requires d.session.Some? && EngineOf(d.session.value, AnswerChoice(d.session.value.state)).Some?
  {
    d.(session := Some(EE.AfterDecryption(d.session.value)))
  }

  lemma OpenedEnters(d: Device)
    requires Stands(d) && MayExchangeAt(Stage(d.trace))
    requires EngineOf(d.session.value, AnswerChoice(d.session.value.state)).Some?
    requires var e := EngineOf(d.session.value, AnswerChoice(d.session.value.state)).value;
             Usable(e.(dec := e.dec + 1))
    ensures Enters(Opened(d))
  {
  }

  lemma MayIfAtStage(d: Device)
    requires Stands(d) && d.phase.Looping?
    ensures (&& MayExchangeAt(Stage(d.trace)) && Stage(d.trace) != Event.Selected(StepUp)
             && EngineOf(d.session.value, AnswerChoice(d.session.value.state)).Some?) ==> MayExchange(d)
    ensures MayEnvelopeAt(Stage(d.trace)) && d.session.value.stepup.Some? ==> MayEnvelope(d)
  {
  }

  lemma OpenedLeads(env: Env, d: Device, reader: Engine, plain: seq<byte>, packet: Sealed, content: Content,
                    sending: Option<Error>)
    requires env.aead.Correct() && MayExchange(d) && env.parse(plain) == Ok(content)
    requires InStep(reader, EngineOf(d.session.value, AnswerChoice(d.session.value.state)).value)
    requires reader.enc < COUNTER_END && Ok(packet) == reader.Encrypt(env.aead, plain, []).1
    ensures UserMachine.Step(env, d, Received(Exchange(packet), None, sending))
         == LoopParsed(env, Opened(d), Exchange(packet), Parsed(Exchange(packet), Some(content)), sending)
  {
    EnginesAgree(d.session.value.state);
    EE.GenuineParsed(env, d, reader, plain, Exchange(packet), content);
    WaitedLeads(env, d, Opened(d), Exchange(packet), Parsed(Exchange(packet), Some(content)), sending);
  }

  lemma WaitedLeads(env: Env, d: Device, d1: Device, command: Command, p: Parsed, sending: Option<Error>)
    requires Live(d) && d1.session.Some? && WaitForCommand(env, d, command, None) == (d1, Ok(p))
    ensures UserMachine.Step(env, d, Received(command, None, sending)) == LoopParsed(env, d1, command, p, sending)
  {
    assert LoopCommand(env, d, command, None, sending) == LoopParsed(env, d1, command, p, sending);
  }

  /**
   * A genuine EXCHANGE after any run, whatever is in it and whatever sending its answer raises, with engines in step:
   * requests, reader status, URSK and notifications decide together what is performed, what is answered, what is
   * recorded, and whether the session goes on.
   */
  lemma ExchangeServed(config: Config, box: Box, known: set<SubId>, env: Env, inputs: seq<Input>, reader: Engine,
                       plain: seq<byte>, packet: Sealed, sending: Option<Error>)
    requires env.Valid() && env.parse(plain).Ok?
    requires var d := RunDevice(env, StartDevice(config, Some(box), known), inputs);
             && Live(d) && MayExchangeAt(Stage(d.trace)) && Stage(d.trace) != Event.Selected(StepUp)
             && EngineOf(d.session.value, AnswerChoice(d.session.value.state)).Some?
             && var e := EngineOf(d.session.value, AnswerChoice(d.session.value.state)).value;
                InStep(reader, e) && e.enc < 0xFFFF && e.dec + 1 < 0xFFFF
    requires Ok(packet) == reader.Encrypt(env.aead, plain, []).1
    ensures var d := RunDevice(env, StartDevice(config, Some(box), known), inputs);
            var d' := UserMachine.Step(env, d, Received(Exchange(packet), None, sending));
            var content := env.parse(plain).value;
            Leaves(env, Opened(d), content, d') && EndsAs(d, d', ExchangeOutcome(d, content, sending))
  {
    var d, content := RunDevice(env, StartDevice(config, Some(box), known), inputs), env.parse(plain).value;
    EveryRunInOrder(config, Some(box), known, env, inputs);
    RunsCanPerform(config, box, known, env, inputs, content.requests);
    MayIfAtStage(d);
    OpenedEnters(d);
    OpenedLeads(env, d, reader, plain, packet, content, sending);
    ExchangeLeads(env, Opened(d), content, sending, packet);
    SameOutcome(d, content, sending);
  }

  lemma SameOutcome(d: Device, content: Content, sending: Option<Error>)
    requires d.session.Some? && EngineOf(d.session.value, AnswerChoice(d.session.value.state)).Some?
    ensures ExchangeOutcome(Opened(d), content, sending) == ExchangeOutcome(d, content, sending)
  {
  }

  // ---------------------------------------------------------------- an envelope

  /** The handler of a decrypted ENVELOPE seals the document and records that it was answered. */
  lemma EnvelopeDoes(env: Env, d: Device, document: seq<byte>, sending: Option<Error>)
    requires Stands(d) && MayEnvelopeAt(Stage(d.trace)) && d.session.value.stepup.Some?
    requires d.session.value.stepup.value.enc < COUNTER_END
    ensures var (d', error) := HandleEnvelope(env, d, document, sending);
            && error == sending && d'.mailbox == d.mailbox && d'.log == d.log && d'.config == d.config
            && d'.phase == d.phase && d'.session.Some? && d'.answer.Some?
            && Ok(d'.answer.value) == d.session.value.stepup.value.Encrypt(env.aead, document, []).1
            && (sending.None? ==> d'.trace == d.trace + [EnvelopeAnswered])
  {
    AnswerSeals(env, d, UseStepUp, document, sending);
  }

  lemma EnvelopeParsed(env: Env, d: Device, command: Command, sending: Option<Error>)
    requires Stands(d) && d.phase.Looping? && MayEnvelopeAt(Stage(d.trace)) && !Blocked(d) && command.Envelope?
    requires d.session.value.stepup.Some? && d.session.value.stepup.value.enc < COUNTER_END
    ensures var d' := LoopParsed(env, d, command, Parsed(command, None), sending);
            && d'.answer.Some?
            && Ok(d'.answer.value) == d.session.value.stepup.value.Encrypt(env.aead, command.document, []).1
            && Leads(d, d', if sending.Some? then SendingFate(d.config, command, sending.value)
                            else Serves([EnvelopeAnswered]))
  {
    EnvelopeDoes(env, d, command.document, sending);
    var r := HandleEnvelope(env, d, command.document, sending);
    DoesLead(d, r, command, Serves([EnvelopeAnswered]), true, sending);
    assert LoopParsed(env, d, command, Parsed(command, None), sending) == AfterCommand(r.0, command, r.1);
  }

  function StepUpOpened(d: Device): Device
    requires d.session.Some? && d.session.value.stepup.Some?
  {
    var e := d.session.value.stepup.value;
    d.(session := Some(WithEngine(d.session.value, UseStepUp, e.(dec := e.dec + 1))))
  }

  /**
   * The document is sealed behind the decryption, and that it was answered is recorded if sending it raises nothing.
   */
  predicate EnvelopeEnds(env: Env, d: Device, command: Command, sending: Option<Error>, d': Device)
    requires d.session.Some? && d.session.value.stepup.Some? && command.Envelope?
  {
    var e := d.session.value.stepup.value;
    && d'.answer.Some? && Ok(d'.answer.value) == e.(dec := e.dec + 1).Encrypt(env.aead, command.document, []).1
    && Leads(d, d', if sending.Some? then SendingFate(d.config, command, sending.value) else Serves([EnvelopeAnswered]))
  }

  /** A genuine ENVELOPE after any run, with step-up engines in step: nothing depends on what it asks for. */
  lemma EnvelopeServed(config: Config, mailbox: Option<Box>, known: set<SubId>, env: Env, inputs: seq<Input>,
                       reader: Engine, plain: seq<byte>, command: Command, sending: Option<Error>)
    requires env.aead.Correct() && command.Envelope? && Ok(command.packet) == reader.Encrypt(env.aead, plain, []).1
    requires var d := RunDevice(env, StartDevice(config, mailbox, known), inputs);
             && Live(d) && !Blocked(d) && MayEnvelopeAt(Stage(d.trace)) && d.session.value.stepup.Some?
             && InStep(reader, d.session.value.stepup.value) && d.session.value.stepup.value.enc < COUNTER_END
    ensures var d := RunDevice(env, StartDevice(config, mailbox, known), inputs);
            EnvelopeEnds(env, d, command, sending, UserMachine.Step(env, d, Received(command, None, sending)))
  {
    EveryRunInOrder(config, mailbox, known, env, inputs);
    EnvelopeLeads(env, RunDevice(env, StartDevice(config, mailbox, known), inputs), reader, plain, command, sending);
  }

  lemma EnvelopeLeads(env: Env, d: Device, reader: Engine, plain: seq<byte>, command: Command, sending: Option<Error>)
    requires env.aead.Correct() && command.Envelope? && Ok(command.packet) == reader.Encrypt(env.aead, plain, []).1
    requires Stands(d) && d.phase.Looping? && !Blocked(d) && MayEnvelopeAt(Stage(d.trace))
    requires d.session.value.stepup.Some? && InStep(reader, d.session.value.stepup.value)
             && d.session.value.stepup.value.enc < COUNTER_END
    ensures EnvelopeEnds(env, d, command, sending, UserMachine.Step(env, d, Received(command, None, sending)))
  {
    MayIfAtStage(d);
    EnvelopeOpens(env, d, reader, plain, command, sending);
    EnvelopeParsed(env, StepUpOpened(d), command, sending);
    OpenedEnds(env, d, command, sending,
               LoopParsed(env, StepUpOpened(d), command, Parsed(command, None), sending));
  }

  lemma OpenedEnds(env: Env, d: Device, command: Command, sending: Option<Error>, d': Device)
    requires d.session.Some? && d.session.value.stepup.Some? && command.Envelope? && d'.answer.Some?
    requires Ok(d'.answer.value)
          == StepUpOpened(d).session.value.stepup.value.Encrypt(env.aead, command.document, []).1
    requires Leads(StepUpOpened(d), d', if sending.Some? then SendingFate(d.config, command, sending.value)
                                        else Serves([EnvelopeAnswered]))
    ensures EnvelopeEnds(env, d, command, sending, d')
  {
  }

  lemma EnvelopeOpens(env: Env, d: Device, reader: Engine, plain: seq<byte>, command: Command, sending: Option<Error>)
    requires env.aead.Correct() && MayEnvelope(d) && command.Envelope?
    requires InStep(reader, d.session.value.stepup.value) && Ok(command.packet) == reader.Encrypt(env.aead, plain, []).1
    ensures UserMachine.Step(env, d, Received(command, None, sending))
         == LoopParsed(env, StepUpOpened(d), command, Parsed(command, None), sending)
  {
    EnginesAgree(d.session.value.state);
    EE.DecryptsGenuine(env, d.session.value, UseStepUp, reader, plain, command.packet);
    EnvelopeWaits(env, d, command, plain);
    WaitedLeads(env, d, StepUpOpened(d), command, Parsed(command, None), sending);
  }

  lemma EnvelopeWaits(env: Env, d: Device, command: Command, plain: seq<byte>)
    requires d.session.Some? && d.session.value.stepup.Some? && command.Envelope?
    requires DecryptionChoice(d.session.value.state, false).UseStepUp?
    requires Decrypted(env, d.session.value, UseStepUp, command.packet)
          == (StepUpOpened(d).session.value, Ok(Some(plain)))
    ensures WaitForCommand(env, d, command, None) == (StepUpOpened(d), Ok(Parsed(command, None)))
  {
  }
}
