/** A genuine reader beside the device: both ends of the expedited and of the step-up channel stay in step. */
module UserEngines {
  import opened Basics
  import opened Encryption
  import opened MailboxStore
  import opened MailboxExchange
  import opened UserMachine

  /** A command is decrypted and its answer encrypted with one engine, except for an EXCHANGE in SELECT_STEP_UP_DONE. */
  lemma EnginesAgree(state: SessionState)
    ensures ExchangeAllowed(state) ==>
              (DecryptionChoice(state, true) == AnswerChoice(state) <==> !state.SELECT_STEP_UP_DONE?)
    ensures EnvelopeAllowed(state) ==> DecryptionChoice(state, false) == UseStepUp
  {
  }

  /** Crossed keys, and each side will decrypt with the number that the other will encrypt with. */
  predicate InStep(reader: Engine, user: Engine) {
    Paired(reader, user) && reader.enc == user.dec && reader.dec == user.enc
  }

  /** One round trip under engines in step: both texts arrive, and the engines are in step again. */
  lemma RoundTrip(aead: Aead, reader: Engine, user: Engine, question: seq<byte>, answer: seq<byte>)
    requires aead.Correct() && InStep(reader, user) && reader.enc < COUNTER_END && user.enc < COUNTER_END
    ensures var (reader1, c) := reader.Encrypt(aead, question, []);
            && c.Ok? && user.Decrypt(aead, c.value, []).1 == Ok(question)
            && var (user1, _) := user.Decrypt(aead, c.value, []);
               var (user2, r) := user1.Encrypt(aead, answer, []);
               && r.Ok? && reader1.Decrypt(aead, r.value, []).1 == Ok(answer)
               && InStep(reader1.Decrypt(aead, r.value, []).0, user2)
  {
    aead.OpensWhatWasSealed(reader.encryptionKey, reader.EncryptionIv(), [], question);
    aead.OpensWhatWasSealed(user.encryptionKey, user.EncryptionIv(), [], answer);
  }

  // ---------------------------------------------------------------- a reader that follows the session

  /**
   * One engine of the reader, and the numbers that it has used up alone: commands that were sealed and not sent, since
   * `create_command` raised behind the seal, and answers of the device that were not decrypted.
   */
  datatype End = End(engine: Engine, unsent: nat, missed: nat)
  {
    /** The engine of the device is behind by the commands that were not sent, and ahead by the answers missed. */
    predicate Aligned(user: Engine) {
      Paired(engine, user) && engine.enc == user.dec + unsent && engine.dec + missed == user.enc
    }
  }

  datatype ReaderSide = ReaderSide(expedited: Option<End>, stepup: Option<End>)
  {
    function Get(choice: Choice): Option<End> {
      match choice
      case UseExpedited => expedited
      case UseStepUp => stepup
      case UseNone => None
    }

    function Put(choice: Choice, e: End): ReaderSide {
      match choice
      case UseExpedited => this.(expedited := Some(e))
      case UseStepUp => this.(stepup := Some(e))
      case UseNone => this
    }
  }

  /** Both parties, and what the reader made of the latest answer, if it decrypted one in the latest turn. */
  datatype Joint = Joint(device: Device, reader: ReaderSide, heard: Option<Result<seq<byte>>>)

  /** A command of the reader, whether the device's sending raises, and whether the reader gets the answer. */
  datatype Turn =
    | Other(input: Input)
    | SendExchange(plain: seq<byte>, sending: Option<Error>, arrives: bool)
    | SendEnvelope(plain: seq<byte>, document: seq<byte>, sending: Option<Error>, arrives: bool)
    | SealOnly(choice: Choice, plain: seq<byte>)

  predicate Live(d: Device) {
    d.phase.Looping? && d.session.Some?
  }

  /** The transport has handed over the previous answer. */
  function Listening(d: Device): Device {
    d.(answer := None)
  }

  /** The reader makes its engines when the device has made them, and decrypts the answer to AUTH1. */
  function AfterOther(env: Env, reader: ReaderSide, d: Device, command: Command): Joint {
    if !Live(d) then Joint(d, reader, None)
    else if command.Auth0? && d.session.value.state.AUTH0_FAST_DONE? then
      var e := NewEngine(Reader, command.auth0.skReader, command.auth0.skDevice);
      Joint(d, reader.(expedited := Some(End(e, 0, 0))), None)
    else if command.Auth1? && d.session.value.state.AUTH1_DONE? && d.answer.Some? then
      var made := NewEngine(Reader, command.auth1.skReader, command.auth1.skDevice);
      var (e, plain) := made.Decrypt(env.aead, d.answer.value, []);
      var stepup := NewEngine(Reader, command.auth1.stepReader, command.auth1.stepDevice);
      Joint(d, ReaderSide(Some(End(e, 0, 0)), Some(End(stepup, 0, 0))), Some(plain))
    else Joint(d, reader, None)
  }

  /** Sends a command under `choice` and takes the answer, if one comes. */
  function Ask(env: Env, j: Joint, choice: Choice, question: Question): Joint
  {
    match j.reader.Get(choice)
    case None => j.(heard := None)
    case Some(end) =>
      var (e1, packet) := end.engine.Encrypt(env.aead, question.plain, []);
      match packet
      case Err(_) => j.(heard := None)
      case Ok(c) => SendCommand(env, j, choice, question, end.(engine := e1), question.Sealed(c))
  }

  function SendCommand(env: Env, j: Joint, choice: Choice, question: Question, end: End, command: Command): Joint {
    var d := Step(env, Listening(j.device), Received(command, None, question.sending));
    TakeAnswer(env, d, j.reader, choice, end, question.arrives)
  }

  datatype Question = Question(plain: seq<byte>, document: Option<seq<byte>>, sending: Option<Error>, arrives: bool)
  {
    function Sealed(c: Encryption.Sealed): Command {
      if document.Some? then Envelope(c, document.value) else Exchange(c)
    }
  }

  function TakeAnswer(env: Env, d: Device, reader: ReaderSide, choice: Choice, end: End, arrives: bool): Joint {
    if d.answer.None? then Joint(d, reader.Put(choice, end), None)
    else if !arrives then Joint(d, reader.Put(choice, end.(missed := end.missed + 1)), None)
    else
      var (e, plain) := end.engine.Decrypt(env.aead, d.answer.value, []);
      Joint(d, reader.Put(choice, end.(engine := e)), Some(plain))
  }

  /** `create_command` raises behind the seal: a number is used up, and nothing is sent. */
  function SealUnsent(env: Env, j: Joint, choice: Choice, plain: seq<byte>): Joint
  {
    match j.reader.Get(choice)
    case None => j.(heard := None)
    case Some(end) =>
      var (e1, packet) := end.engine.Encrypt(env.aead, plain, []);
      if packet.Err? then j.(heard := None)
      else Joint(j.device, j.reader.Put(choice, end.(engine := e1, unsent := end.unsent + 1)), None)
  }

  predicate MayExchange(d: Device) {
    && Live(d) && ExchangeAllowed(d.session.value.state) && !d.session.value.state.SELECT_STEP_UP_DONE?
    && EngineOf(d.session.value, AnswerChoice(d.session.value.state)).Some?
  }

  predicate MayEnvelope(d: Device) {
    Live(d) && EnvelopeAllowed(d.session.value.state) && d.session.value.stepup.Some?
  }

  function Take(env: Env, j: Joint, turn: Turn): Joint
  {
    match turn
    case Other(input) =>
      if input.Received? && (input.command.Exchange? || input.command.Envelope?) then j.(heard := None)
      else
        var d := Step(env, Listening(j.device), input);
        if input.Received? then AfterOther(env, j.reader, d, input.command) else Joint(d, j.reader, None)
    case SendExchange(plain, sending, arrives) =>
      if !MayExchange(j.device) then j.(heard := None)
      else Ask(env, j, AnswerChoice(j.device.session.value.state), Question(plain, None, sending, arrives))
    case SendEnvelope(plain, document, sending, arrives) =>
      if !MayEnvelope(j.device) then j.(heard := None)
      else Ask(env, j, UseStepUp, Question(plain, Some(document), sending, arrives))
    case SealOnly(choice, plain) => SealUnsent(env, j, choice, plain)
  }

  function Play(env: Env, j: Joint, turns: seq<Turn>): Joint
  {
    if turns == [] then j else Take(env, Play(env, j, turns[..|turns| - 1]), turns[|turns| - 1])
  }

  // ---------------------------------------------------------------- lockstep

  predicate Together(reader: Option<End>, user: Option<Engine>) {
    user.Some? ==> reader.Some? && reader.value.Aligned(user.value)
  }

  predicate Engines(s: UserSession, reader: ReaderSide) {
    Together(reader.expedited, s.expedited) && Together(reader.stepup, s.stepup)
  }

  predicate Lockstep(j: Joint) {
    Live(j.device) ==> Engines(j.device.session.value, j.reader)
  }

  /** An initiating device has no engines yet. */
  predicate FreshStart(d: Device) {
    d.phase.Initiating? && d.session.Some? ==> d.session.value.expedited.None? && d.session.value.stepup.None?
  }

  /** The device has sealed a text with this engine. */
  ghost predicate SealedBy(env: Env, e: Engine, answer: Option<Sealed>) {
    answer.Some? && exists plain :: Ok(answer.value) == e.Encrypt(env.aead, plain, []).1
  }

  lemma WaitKeepsEngines(env: Env, d: Device, command: Command, fault: Option<Error>)
    requires d.session.Some? && !command.Exchange? && !command.Envelope?
    ensures var (d1, parsed) := WaitForCommand(env, d, command, fault);
            && (d1 == d || d1 == FailureProcess(d))
            && (parsed.Ok? ==> parsed.value.command == command && d1 == d)
            && (d1 == d && parsed.Err? && (parsed.error.InvalidAIDError? || parsed.error.InvalidINSError?) ==>
                  command.Select? || command.GetData?)
  {
  }

  /** A device that has no engines, or none that matter. */
  predicate NoEngines(d: Device) {
    Live(d) ==> d.session.value.expedited.None? && d.session.value.stepup.None? && d.session.value.state.SESSION_START?
  }

  lemma AfterWaitEngines(d: Device, e: Error)
    requires d.phase.Looping?
    ensures (AfterWait(d, e) == d && (e.InvalidAIDError? || e.InvalidINSError?) && d.session.Some?)
            || NoEngines(AfterWait(d, e))
    ensures FreshStart(AfterWait(d, e)) && AfterWait(d, e).answer == d.answer
  {
  }

  lemma AfterHandlerEngines(d: Device, error: Option<Error>)
    requires d.phase.Looping?
    ensures (AfterHandler(d, error) == d && error.None? && d.session.Some?) || NoEngines(AfterHandler(d, error))
    ensures FreshStart(AfterHandler(d, error)) && AfterHandler(d, error).answer == d.answer
  {
  }

  /** A timeout behind an answer stops the loop as well. */
  lemma AfterCommandEngines(d: Device, command: Command, error: Option<Error>)
    requires d.phase.Looping?
    ensures var d' := AfterCommand(d, command, error);
            (d' == d && error.None? && d.session.Some? && !command.ControlFlow?) || NoEngines(d')
    ensures FreshStart(AfterCommand(d, command, error)) && AfterCommand(d, command, error).answer == d.answer
  {
    AfterHandlerEngines(d, error);
  }

  // ---------------------------------------------------------------- other commands

  lemma Auth0Engines(env: Env, d: Device, a: Auth0Data, sending: Option<Error>, reader: ReaderSide)
    requires Live(d) && Engines(d.session.value, reader)
    ensures var (d', error) := HandleAuth0(d, a, sending);
            error.None? ==> Live(d') && Lockstep(AfterOther(env, reader, d', Auth0(a)))
  {
  }

  lemma Auth1Engines(env: Env, d: Device, a: Auth1Data, sending: Option<Error>, reader: ReaderSide)
    requires env.Valid() && Live(d) && Engines(d.session.value, reader)
    ensures var (d', error) := HandleAuth1(env, d, a, sending);
            error.None? ==> Live(d') && Lockstep(AfterOther(env, reader, d', Auth1(a)))
                            && AfterOther(env, reader, d', Auth1(a)).heard == Some(Ok(a.response))
  {
    var (d1, error) := CheckAuth1(d, a);
    if error.None? {
      KeysEngines(env, Record(d1, Auth1Verified(d1.session.value.sub)), a, sending, reader);
    }
  }

  /** The reader decrypts the answer to AUTH1 with the engine that it has just made. */
  lemma KeysEngines(env: Env, d: Device, a: Auth1Data, sending: Option<Error>, reader: ReaderSide)
    requires env.Valid() && Live(d)
    ensures var (d', error) := KeysAfterAuth1(env, d, a, sending);
            error.None? ==> Live(d') && Lockstep(AfterOther(env, reader, d', Auth1(a)))
                            && AfterOther(env, reader, d', Auth1(a)).heard == Some(Ok(a.response))
  {
    var user := NewEngine(User, a.skReader, a.skDevice);
    env.aead.OpensWhatWasSealed(user.encryptionKey, user.EncryptionIv(), [], a.response);
  }

  lemma DispatchEngines(env: Env, d: Device, p: Parsed, sending: Option<Error>, reader: ReaderSide)
    requires env.Valid() && Live(d) && Engines(d.session.value, reader) && !p.command.Exchange? && !p.command.Envelope?
    ensures var (d', error) := Dispatch(env, d, p, sending);
            && (error.None? ==> Live(d') && Lockstep(AfterOther(env, reader, d', p.command)))
            && d'.phase == d.phase
  {
    match p.command
    case Auth0(a) => Auth0Engines(env, d, a, sending, reader);
    case Auth1(a) => Auth1Engines(env, d, a, sending, reader);
    case _ => PlainEngines(env, d, p, sending, reader);
  }

  /** The commands that make no engines. */
  lemma PlainEngines(env: Env, d: Device, p: Parsed, sending: Option<Error>, reader: ReaderSide)
    requires Live(d) && Engines(d.session.value, reader) && !p.command.Exchange? && !p.command.Envelope?
    requires !p.command.Auth0? && !p.command.Auth1?
    ensures var (d', error) := Dispatch(env, d, p, sending);
            && (error.None? ==> Live(d') && Lockstep(AfterOther(env, reader, d', p.command)))
            && d'.phase == d.phase
  {
  }

  lemma LoopOther(env: Env, d: Device, command: Command, fault: Option<Error>, sending: Option<Error>,
                  reader: ReaderSide)
    requires env.Valid() && Live(d) && Engines(d.session.value, reader) && !command.Exchange? && !command.Envelope?
    ensures var d' := LoopCommand(env, d, command, fault, sending);
            Lockstep(AfterOther(env, reader, d', command)) && FreshStart(d')
  {
    WaitKeepsEngines(env, d, command, fault);
    var (d1, parsed) := WaitForCommand(env, d, command, fault);
    if parsed.Err? {
      AfterWaitEngines(d1, parsed.error);
    } else {
      DispatchEngines(env, d1, parsed.value, sending, reader);
      var (d2, error) := Dispatch(env, d1, parsed.value, sending);
      AfterCommandEngines(d2, command, error);
    }
  }

  lemma FirstOther(env: Env, d: Device, command: Command, fault: Option<Error>, sending: Option<Error>,
                   reader: ReaderSide)
    requires d.phase.Initiating? && d.session.Some? && FreshStart(d) && !command.Exchange? && !command.Envelope?
    ensures var d' := FirstCommand(env, d, command, fault, sending);
            Lockstep(AfterOther(env, reader, d', command)) && FreshStart(d')
  {
    WaitKeepsEngines(env, d, command, fault);
  }

  // ---------------------------------------------------------------- exchange and envelope

  /** One engine has encrypted once more, and nothing else has happened to the engines. */
  predicate OneAnswer(s: UserSession, s': UserSession, choice: Choice) {
    && EngineOf(s, choice).Some?
    && var e := EngineOf(s, choice).value;
       var t := WithEngine(s, choice, e.(enc := e.enc + 1));
       s'.expedited == t.expedited && s'.stepup == t.stepup
  }

  /** Whatever was answered was sealed by the chosen engine; without an error something was. */
  ghost predicate AnswersWith(env: Env, s: UserSession, choice: Choice, d': Device, error: Option<Error>) {
    && (d'.answer.Some? ==> EngineOf(s, choice).Some? && SealedBy(env, EngineOf(s, choice).value, d'.answer))
    && (error.None? && d'.session.Some? ==> d'.answer.Some? && OneAnswer(s, d'.session.value, choice))
  }

  lemma AnswerEngines(env: Env, d: Device, choice: Choice, payload: seq<byte>, sending: Option<Error>)
    requires d.session.Some? && d.answer.None?
    ensures var (d', error) := Answer(env, d, choice, payload, sending);
            d'.phase == d.phase && d'.session.Some? && AnswersWith(env, d.session.value, choice, d', error)
  {
  }

  lemma MailboxEngines(env: Env, d: Device, choice: Choice, r: Requests, sending: Option<Error>)
    requires d.session.Some? && d.answer.None?
    ensures var (d', error) := HandleMailbox(env, d, choice, r, sending);
            d'.phase == d.phase && d'.session.Some? && AnswersWith(env, d.session.value, choice, d', error)
  {
    if d.mailbox.None? {
      AnswerEngines(env, d, choice, EXCHANGE_SUCCESS, sending);
    } else {
      var payload := Framed(ReadAll(d.mailbox.value, r.readRequests)) + EXCHANGE_SUCCESS;
      var store := Perform(Store(d.mailbox.value, d.log), r).0;
      AnswerEngines(env, d.(mailbox := Some(store.box), log := store.session), choice, payload, sending);
    }
  }

  lemma PrepareEngines(d: Device, content: Content)
    requires d.session.Some?
    ensures var d' := Prepare(d, content).0;
            && d'.phase == d.phase && d'.answer == d.answer
            && d'.session.value.expedited == d.session.value.expedited
            && d'.session.value.stepup == d.session.value.stepup
  {
  }

  lemma ServeEngines(env: Env, d: Device, choice: Choice, content: Content, sending: Option<Error>)
    requires d.session.Some? && d.answer.None?
    ensures var (d', error) := Serve(env, d, choice, content, sending);
            d'.phase == d.phase && d'.session.Some? && AnswersWith(env, d.session.value, choice, d', error)
  {
    AnswerEngines(env, d, choice, EXCHANGE_ERROR, sending);
    MailboxEngines(env, d, choice, content.requests, sending);
  }

  lemma AnswersFrom(env: Env, s: UserSession, t: UserSession, choice: Choice, d': Device, error: Option<Error>)
    requires AnswersWith(env, t, choice, d', error) && t.expedited == s.expedited && t.stepup == s.stepup
    ensures AnswersWith(env, s, choice, d', error)
  {
    assert EngineOf(s, choice) == EngineOf(t, choice);
  }

  lemma ContentEngines(env: Env, d: Device, choice: Choice, content: Content, sending: Option<Error>)
    requires d.session.Some? && d.answer.None?
    ensures var (d', error) := HandleContent(env, d, choice, content, sending);
            d'.phase == d.phase && d'.session.Some? && AnswersWith(env, d.session.value, choice, d', error)
  {
    PrepareEngines(d, content);
    var (d1, error) := Prepare(d, content);
    if error.None? {
      ServeEngines(env, d1, choice, content, sending);
      var (d', e) := Serve(env, d1, choice, content, sending);
      AnswersFrom(env, d.session.value, d1.session.value, choice, d', e);
    }
  }

  lemma ExchangeEngines(env: Env, d: Device, content: Option<Content>, sending: Option<Error>)
    requires d.session.Some? && d.answer.None?
    ensures var (d', error) := HandleExchange(env, d, content, sending);
            d'.phase == d.phase && AnswersWith(env, d.session.value, AnswerChoice(d.session.value.state), d', error)
  {
    var s := d.session.value;
    var choice := AnswerChoice(s.state);
    if ExchangeAllowed(s.state) && content.Some? && EngineOf(s, choice).Some?
      && EngineOf(s, choice).value.CountersValid() {
      var d1 := Entered(d);
      ContentEngines(env, d1, choice, content.value, sending);
      var (d', e) := HandleContent(env, d1, choice, content.value, sending);
      AnswersFrom(env, s, d1.session.value, choice, d', e);
    }
  }

  lemma EnvelopeEngines(env: Env, d: Device, document: seq<byte>, sending: Option<Error>)
    requires d.session.Some? && d.answer.None?
    ensures var (d', error) := HandleEnvelope(env, d, document, sending);
            d'.phase == d.phase && AnswersWith(env, d.session.value, UseStepUp, d', error)
  {
    AnswerEngines(env, d, UseStepUp, document, sending);
  }

  /** One engine has decrypted once more. */
  predicate OneQuestion(s: UserSession, s': UserSession, choice: Choice) {
    && EngineOf(s, choice).Some?
    && var e := EngineOf(s, choice).value;
       s' == WithEngine(s, choice, e.(dec := e.dec + 1))
  }

  /** Any packet moves the counter of the chosen engine, or the loop will not go on with this session. */
  lemma AnyWait(env: Env, d: Device, choice: Choice, command: Command)
    requires d.session.Some? && EngineOf(d.session.value, choice).Some? && (command.Exchange? || command.Envelope?)
    requires choice == DecryptionChoice(d.session.value.state, command.Exchange?)
    ensures var (d1, parsed) := WaitForCommand(env, d, command, None);
            && (parsed.Ok? ==> d1.session.Some? && OneQuestion(d.session.value, d1.session.value, choice)
                               && d1 == d.(session := d1.session) && parsed.value.command == command)
            && d1.phase == d.phase && d1.answer == d.answer
            && (parsed.Err? && IsInvalidCommand(parsed.error) ==> d1.session.None?)
  {
  }

  /** A genuine command decrypts under the engine in step: the wait cannot fail in the verification. */
  lemma GenuineWait(env: Env, d: Device, choice: Choice, reader: Engine, plain: seq<byte>, command: Command)
    requires env.Valid() && d.session.Some? && EngineOf(d.session.value, choice).Some?
    requires InStep(reader, EngineOf(d.session.value, choice).value) && reader.enc < COUNTER_END
    requires command.Exchange? || command.Envelope?
    requires choice == DecryptionChoice(d.session.value.state, command.Exchange?)
    requires Ok(command.packet) == reader.Encrypt(env.aead, plain, []).1
    ensures Decrypted(env, d.session.value, choice, command.packet).1 == Ok(Some(plain))
    ensures var (d1, parsed) := WaitForCommand(env, d, command, None);
            parsed.Err? ==> command.Exchange? && env.parse(plain) == Err(parsed.error)
  {
    env.aead.OpensWhatWasSealed(reader.encryptionKey, reader.EncryptionIv(), [], plain);
  }

  lemma NoSealNoText(aead: Aead, e: Engine, packet: Sealed)
    requires aead.Correct() && e.dec < COUNTER_END
    requires forall plain :: packet != aead.seal(e.decryptionKey, e.DecryptionIv(), [], plain)
    ensures e.Decrypt(aead, packet, []).1 == Err(VerificationError)
  {
    var text := aead.open(e.decryptionKey, e.DecryptionIv(), [], packet);
    DecryptIff(aead, e, packet, [], if text.Some? then text.value else []);
  }

  /** A packet that is no seal under the number that the device expects ends the session, whatever the reader meant. */
  lemma OutOfStepIsRefused(env: Env, d: Device, choice: Choice, command: Command, sending: Option<Error>)
    requires env.Valid() && Live(d) && EngineOf(d.session.value, choice).Some?
             && (command.Exchange? || command.Envelope?)
    requires choice == DecryptionChoice(d.session.value.state, command.Exchange?)
    requires var e := EngineOf(d.session.value, choice).value;
             e.dec < COUNTER_END &&
             forall plain :: command.packet != env.aead.seal(e.decryptionKey, e.DecryptionIv(), [], plain)
    ensures WaitForCommand(env, d, command, None).1 == Err(VerificationError)
    ensures NoEngines(Step(env, d, Received(command, None, sending)))
  {
    var e := EngineOf(d.session.value, choice).value;
    NoSealNoText(env.aead, e, command.packet);
    var (d1, parsed) := WaitForCommand(env, d, command, None);
    AfterWaitEngines(d1, parsed.error);
  }

  /** Behind one command: no session with engines, or one more question and one more answer on the chosen engine. */
  predicate OneRound(s: UserSession, d': Device, choice: Choice) {
    && EngineOf(s, choice).Some? && d'.answer.Some? && Live(d')
    && var e := EngineOf(s, choice).value;
       OneAnswer(WithEngine(s, choice, e.(dec := e.dec + 1)), d'.session.value, choice)
  }

  lemma AskLoop(env: Env, d: Device, choice: Choice, command: Command, sending: Option<Error>)
    requires Live(d) && d.answer.None? && EngineOf(d.session.value, choice).Some?
             && (command.Exchange? || command.Envelope?)
    requires choice == DecryptionChoice(d.session.value.state, command.Exchange?)
    requires choice == if command.Exchange? then AnswerChoice(d.session.value.state) else UseStepUp
    ensures var e, d' := EngineOf(d.session.value, choice).value, LoopCommand(env, d, command, None, sending);
            && FreshStart(d') && (NoEngines(d') || OneRound(d.session.value, d', choice))
            && (d'.answer.Some? ==> SealedBy(env, e.(dec := e.dec + 1), d'.answer))
  {
    AnyWait(env, d, choice, command);
    var (d1, parsed) := WaitForCommand(env, d, command, None);
    if parsed.Err? {
      AfterWaitEngines(d1, parsed.error);
    } else if !(d.config.mode.SingleTransaction? && d.log.started && !command.Exchange?) {
      if command.Exchange? {
        ExchangeEngines(env, d1, parsed.value.content, sending);
      } else {
        EnvelopeEngines(env, d1, command.document, sending);
      }
      var (d2, error) := Dispatch(env, d1, parsed.value, sending);
      AfterCommandEngines(d2, command, error);
    }
  }

  lemma AskSteps(env: Env, d: Device, choice: Choice, command: Command, sending: Option<Error>)
    requires Live(d) && d.answer.None? && EngineOf(d.session.value, choice).Some?
    requires command.Exchange? || command.Envelope?
    requires choice == DecryptionChoice(d.session.value.state, command.Exchange?)
    requires choice == if command.Exchange? then AnswerChoice(d.session.value.state) else UseStepUp
    ensures Rounded(env, d.session.value, Step(env, d, Received(command, None, sending)), choice)
  {
    AskLoop(env, d, choice, command, sending);
  }

  /** Behind one command, and what there is to decrypt. */
  ghost predicate Rounded(env: Env, s: UserSession, d': Device, choice: Choice)
    requires EngineOf(s, choice).Some?
  {
    var e := EngineOf(s, choice).value;
    && FreshStart(d') && (NoEngines(d') || OneRound(s, d', choice))
    && (d'.answer.Some? ==> SealedBy(env, e.(dec := e.dec + 1), d'.answer))
  }

  /** In step as before, and the answer understood unless one before it was missed. */
  predicate Taken(end: End, j: Joint) {
    Lockstep(j) && FreshStart(j.device) && (j.heard.Some? && end.missed == 0 ==> j.heard.value.Ok?)
  }

  /** The number under which the device has sealed is the one that the reader decrypts with, if it has missed none. */
  lemma AnswerOpens(env: Env, end: End, user: Engine, answer: Sealed)
    requires env.Valid() && end.Aligned(user) && end.missed == 0 && SealedBy(env, user, Some(answer))
    ensures end.engine.Decrypt(env.aead, answer, []).1.Ok?
  {
    var plain :| Ok(answer) == user.Encrypt(env.aead, plain, []).1;
    env.aead.OpensWhatWasSealed(user.encryptionKey, user.EncryptionIv(), [], plain);
  }

  /** One round on one engine, answered or not, decrypted or not, keeps the counts. */
  lemma RoundAligned(env: Env, s: UserSession, d': Device, reader: ReaderSide, choice: Choice, end: End, arrives: bool)
    requires Engines(s, reader) && reader.Get(choice) == Some(end) && OneRound(s, d', choice)
    requires end.engine.enc < COUNTER_END && EngineOf(d'.session.value, choice).value.enc <= COUNTER_END
    ensures Lockstep(TakeAnswer(env, d', reader, choice, end.(engine := end.engine.(enc := end.engine.enc + 1)),
                                arrives))
  {
  }

  lemma AskKeeps(env: Env, j: Joint, choice: Choice, question: Question)
    requires env.Valid() && Live(j.device) && FreshStart(j.device) && Lockstep(j)
    requires EngineOf(j.device.session.value, choice).Some?
    requires choice == DecryptionChoice(j.device.session.value.state, question.document.None?)
    requires choice == if question.document.Some? then UseStepUp else AnswerChoice(j.device.session.value.state)
    ensures Taken(j.reader.Get(choice).value, Ask(env, j, choice, question))
  {
    var end := j.reader.Get(choice).value;
    if end.engine.enc < COUNTER_END {
      var command := question.Sealed(end.engine.Encrypt(env.aead, question.plain, []).1.value);
      SentKeeps(env, j, choice, question, end, command);
      AskIs(env, j, choice, question, end, command);
    } else {
      NothingSent(env, j, choice, question, end);
    }
  }

  lemma AskIs(env: Env, j: Joint, choice: Choice, question: Question, end: End, command: Command)
    requires j.reader.Get(choice) == Some(end) && end.engine.enc < COUNTER_END
    requires command == question.Sealed(end.engine.Encrypt(env.aead, question.plain, []).1.value)
    ensures var e1 := end.engine.(enc := end.engine.enc + 1);
            Ask(env, j, choice, question) == SendCommand(env, j, choice, question, end.(engine := e1), command)
  {
  }

  lemma NothingSent(env: Env, j: Joint, choice: Choice, question: Question, end: End)
    requires j.reader.Get(choice) == Some(end) && end.engine.enc >= COUNTER_END
    requires Lockstep(j) && FreshStart(j.device)
    ensures Taken(end, Ask(env, j, choice, question))
  {
  }

  lemma SentKeeps(env: Env, j: Joint, choice: Choice, question: Question, end: End, command: Command)
    requires env.Valid() && Live(j.device) && Engines(j.device.session.value, j.reader)
    requires EngineOf(j.device.session.value, choice).Some? && j.reader.Get(choice) == Some(end)
    requires end.engine.enc < COUNTER_END && (command.Exchange? || command.Envelope?)
    requires choice == DecryptionChoice(j.device.session.value.state, command.Exchange?)
    requires choice == if command.Exchange? then AnswerChoice(j.device.session.value.state) else UseStepUp
    ensures var e1 := end.engine.(enc := end.engine.enc + 1);
            Taken(end, SendCommand(env, j, choice, question, end.(engine := e1), command))
  {
    var d := Listening(j.device);
    AskSteps(env, d, choice, command, question.sending);
    AnswerTaken(env, d.session.value, Step(env, d, Received(command, None, question.sending)), j.reader, choice, end,
                question.arrives);
  }

  lemma AnswerTaken(env: Env, s: UserSession, d': Device, reader: ReaderSide, choice: Choice, end: End, arrives: bool)
    requires env.Valid() && Engines(s, reader) && reader.Get(choice) == Some(end) && end.engine.enc < COUNTER_END
    requires EngineOf(s, choice).Some? && Rounded(env, s, d', choice)
    ensures var e1 := end.engine.(enc := end.engine.enc + 1);
            Taken(end, TakeAnswer(env, d', reader, choice, end.(engine := e1), arrives))
  {
    var user := EngineOf(s, choice).value;
    if d'.answer.Some? {
      SealedInRange(env, user.(dec := user.dec + 1), d'.answer.value);
      if end.missed == 0 {
        var e1 := end.engine.(enc := end.engine.enc + 1);
        AnswerOpens(env, end.(engine := e1), user.(dec := user.dec + 1), d'.answer.value);
      }
    }
    if !NoEngines(d') {
      RoundAligned(env, s, d', reader, choice, end, arrives);
    }
  }

  lemma SealedInRange(env: Env, user: Engine, answer: Sealed)
    requires SealedBy(env, user, Some(answer))
    ensures user.enc < COUNTER_END
  {
  }

  lemma StepOther(env: Env, j: Joint, input: Input)
    requires env.Valid() && Lockstep(j) && FreshStart(j.device)
    requires !(input.Received? && (input.command.Exchange? || input.command.Envelope?))
    ensures var j' := Take(env, j, Other(input)); Lockstep(j') && FreshStart(j'.device)
  {
    var d := Listening(j.device);
    if !d.phase.Stopped? && d.session.Some? {
      match input
      case NotReceived(e) =>
        if d.phase.Looping? {
          AfterWaitEngines(d, e);
        }
      case Busy =>
      case Ble(apc, completed, raised) =>
        if d.phase.Looping? {
          AfterHandlerEngines(if apc then WithState(d, BLE_READER_STATUS_AP_COMPLETED) else d, raised);
        }
      case Received(command, fault, sending) =>
        if d.phase.Looping? {
          LoopOther(env, d, command, fault, sending, j.reader);
        } else {
          FirstOther(env, d, command, fault, sending, j.reader);
        }
    }
  }

  lemma TakeKeeps(env: Env, j: Joint, turn: Turn)
    requires env.Valid() && Lockstep(j) && FreshStart(j.device)
    ensures Lockstep(Take(env, j, turn)) && FreshStart(Take(env, j, turn).device)
  {
    match turn
    case Other(input) =>
      if !(input.Received? && (input.command.Exchange? || input.command.Envelope?)) {
        StepOther(env, j, input);
      }
    case SendExchange(plain, sending, arrives) =>
      if MayExchange(j.device) {
        EnginesAgree(j.device.session.value.state);
        AskKeeps(env, j, AnswerChoice(j.device.session.value.state), Question(plain, None, sending, arrives));
      }
    case SendEnvelope(plain, document, sending, arrives) =>
      if MayEnvelope(j.device) {
        EnginesAgree(j.device.session.value.state);
        AskKeeps(env, j, UseStepUp, Question(plain, Some(document), sending, arrives));
      }
    case SealOnly(choice, plain) =>
  }

  lemma {:induction false} EveryRunAligned(env: Env, config: Config, mailbox: Option<Box>, known: set<SubId>,
                                           reader: ReaderSide, turns: seq<Turn>)
    requires env.Valid()
    ensures var j := Play(env, Joint(StartDevice(config, mailbox, known), reader, None), turns);
            Lockstep(j) && FreshStart(j.device)
  {
    if turns != [] {
      var before := turns[..|turns| - 1];
      EveryRunAligned(env, config, mailbox, known, reader, before);
      TakeKeeps(env, Play(env, Joint(StartDevice(config, mailbox, known), reader, None), before), turns[|turns| - 1]);
    }
  }

  /**
   * Over every run and on both engines of a session: the reader has its counterpart, and the two are in step exactly
   * if, since the engines were made, every command that was sealed was sent and every answer was decrypted.
   */
  lemma LockstepForever(env: Env, config: Config, mailbox: Option<Box>, known: set<SubId>, reader: ReaderSide,
                        turns: seq<Turn>, choice: Choice)
    requires env.Valid()
    ensures var j := Play(env, Joint(StartDevice(config, mailbox, known), reader, None), turns);
            Live(j.device) && EngineOf(j.device.session.value, choice).Some? ==>
              && j.reader.Get(choice).Some?
              && var end, user := j.reader.Get(choice).value, EngineOf(j.device.session.value, choice).value;
                 && end.Aligned(user)
                 && (InStep(end.engine, user) <==> end.unsent == 0 && end.missed == 0)
  {
    EveryRunAligned(env, config, mailbox, known, reader, turns);
  }

  /** A turn in which no number is used up by one side alone. */
  predicate Lossless(turn: Turn) {
    !turn.SealOnly? && (turn.SendExchange? || turn.SendEnvelope? ==> turn.arrives)
  }

  predicate Clean(reader: ReaderSide) {
    && (reader.expedited.Some? ==> reader.expedited.value.unsent == 0 && reader.expedited.value.missed == 0)
    && (reader.stepup.Some? ==> reader.stepup.value.unsent == 0 && reader.stepup.value.missed == 0)
  }

  /** So the counts come from nothing else than commands that were not sent and answers that did not arrive. */
  lemma {:induction false} LosslessRun(env: Env, config: Config, mailbox: Option<Box>, known: set<SubId>,
                                       turns: seq<Turn>)
    requires forall turn :: turn in turns ==> Lossless(turn)
    ensures Clean(Play(env, Joint(StartDevice(config, mailbox, known), ReaderSide(None, None), None), turns).reader)
  {
    if turns != [] {
      var before := turns[..|turns| - 1];
      LosslessRun(env, config, mailbox, known, before);
      var j := Play(env, Joint(StartDevice(config, mailbox, known), ReaderSide(None, None), None), before);
      LosslessTurn(env, j, turns[|turns| - 1]);
    }
  }

  lemma LosslessTurn(env: Env, j: Joint, turn: Turn)
    requires Lossless(turn) && Clean(j.reader)
    ensures Clean(Take(env, j, turn).reader)
  {
  }

  /** After every run, an answer that the reader decrypts is understood, if it has missed none before it. */
  lemma EveryAnswerIsUnderstood(env: Env, config: Config, mailbox: Option<Box>, known: set<SubId>, reader: ReaderSide,
                                turns: seq<Turn>, turn: Turn)
    requires env.Valid() && (turn.SendExchange? || turn.SendEnvelope?)
    ensures var j := Play(env, Joint(StartDevice(config, mailbox, known), reader, None), turns);
            var choice := if turn.SendEnvelope? || j.device.session.None? then UseStepUp
                          else AnswerChoice(j.device.session.value.state);
            var heard := Take(env, j, turn).heard;
            heard.Some? && j.reader.Get(choice).Some? && j.reader.Get(choice).value.missed == 0 ==> heard.value.Ok?
  {
    EveryRunAligned(env, config, mailbox, known, reader, turns);
    var j := Play(env, Joint(StartDevice(config, mailbox, known), reader, None), turns);
    if turn.SendExchange? && MayExchange(j.device) {
      EnginesAgree(j.device.session.value.state);
      AskKeeps(env, j, AnswerChoice(j.device.session.value.state),
               Question(turn.plain, None, turn.sending, turn.arrives));
    } else if turn.SendEnvelope? && MayEnvelope(j.device) {
      EnginesAgree(j.device.session.value.state);
      AskKeeps(env, j, UseStepUp, Question(turn.plain, Some(turn.document), turn.sending, turn.arrives));
    }
  }

  // ---------------------------------------------------------------- a successful exchange

  /** Nothing but mailbox requests. */
  predicate Plain(content: Content) {
    content.readerStatus.None? && !content.ursk && content.notifyTags == []
  }

  /** The payload that answers requests which are accepted. */
  function AnswerPayload(box: Box, r: Requests): seq<byte> {
    Framed(ReadAll(box, r.readRequests)) + EXCHANGE_SUCCESS
  }

  /** An answer is sealed whatever sending it raises, and only the engine that seals it moves on. */
  lemma AnswerSeals(env: Env, d: Device, choice: Choice, payload: seq<byte>, sending: Option<Error>)
    requires d.session.Some? && EngineOf(d.session.value, choice).Some?
    requires EngineOf(d.session.value, choice).value.enc < COUNTER_END
    ensures var (d', error) := Answer(env, d, choice, payload, sending);
            var e := EngineOf(d.session.value, choice).value;
            && error == sending && d'.answer.Some? && Ok(d'.answer.value) == e.Encrypt(env.aead, payload, []).1
            && d' == d.(session := Some(WithEngine(d.session.value, choice, e.(enc := e.enc + 1))), answer := d'.answer)
  {
  }

  lemma MailboxAnswers(env: Env, d: Device, choice: Choice, r: Requests, sending: Option<Error>)
    requires d.session.Some? && d.mailbox.Some? && EngineOf(d.session.value, choice).Some?
    requires EngineOf(d.session.value, choice).value.enc < COUNTER_END
    requires Perform(Store(d.mailbox.value, d.log), r).1.None?
    ensures var (d', error) := HandleMailbox(env, d, choice, r, sending);
            error == sending && Served(env, d, d', choice, r) && d'.session.value.state == d.session.value.state
  {
    var store := Perform(Store(d.mailbox.value, d.log), r).0;
    AnswerSeals(env, d.(mailbox := Some(store.box), log := store.session), choice, AnswerPayload(d.mailbox.value, r),
                sending);
  }

  lemma ContentAnswers(env: Env, d: Device, choice: Choice, content: Content, sending: Option<Error>)
    requires d.session.Some? && d.mailbox.Some? && EngineOf(d.session.value, choice).Some?
    requires EngineOf(d.session.value, choice).value.enc < COUNTER_END && !d.session.value.state.ENVELOPE_DONE?
    requires Plain(content) && Check(d.mailbox, content.requests).Accepted?
    ensures HandleContent(env, d, choice, content, sending) == HandleMailbox(env, d, choice, content.requests, sending)
  {
    assert Prepare(d, content) == (d, None);
  }

  /** What an accepted exchange leaves behind, whether or not sending its answer raises. */
  predicate Served(env: Env, d: Device, d': Device, choice: Choice, r: Requests)
    requires d.session.Some? && d.mailbox.Some? && EngineOf(d.session.value, choice).Some?
  {
    var e := EngineOf(d.session.value, choice).value;
    var store := Perform(Store(d.mailbox.value, d.log), r).0;
    && d'.phase == d.phase && d'.config == d.config && d'.mailbox == Some(store.box) && d'.log == store.session
    && d'.session.Some? && OneAnswer(d.session.value, d'.session.value, choice)
    && d'.answer.Some? && Ok(d'.answer.value) == e.Encrypt(env.aead, AnswerPayload(d.mailbox.value, r), []).1
  }

  lemma ExchangeServes(env: Env, d: Device, content: Content, sending: Option<Error>)
    requires d.session.Some? && d.mailbox.Some? && ExchangeAllowed(d.session.value.state)
    requires var choice := AnswerChoice(d.session.value.state);
             EngineOf(d.session.value, choice).Some? && EngineOf(d.session.value, choice).value.CountersValid()
    requires Plain(content) && Check(d.mailbox, content.requests).Accepted?
    requires Perform(Store(d.mailbox.value, d.log), content.requests).1.None?
    ensures var (d', error) := HandleExchange(env, d, Some(content), sending);
            && error == sending && Served(env, d, d', AnswerChoice(d.session.value.state), content.requests)
            && d'.session.value.state == Entered(d).session.value.state
  {
    var choice, d1 := AnswerChoice(d.session.value.state), Entered(d);
    assert EngineOf(d1.session.value, choice) == EngineOf(d.session.value, choice);
    ContentAnswers(env, d1, choice, content, sending);
    MailboxAnswers(env, d1, choice, content.requests, sending);
    assert HandleExchange(env, d, Some(content), sending) == HandleContent(env, d1, choice, content, sending);
  }

  // ---------------------------------------------------------------- the exception

  /**
   * In SELECT_STEP_UP_DONE an accepted exchange is decrypted by one engine and answered by the other. The session goes
   * on, and then neither engine is in step with the reader that asked with the step-up engine and decrypted with it.
   */
  lemma SelectStepUpBreaksStep(env: Env, d: Device, expedited: Engine, stepup: Engine, plain: seq<byte>, packet: Sealed,
                               content: Content)
    requires env.Valid() && Live(d) && d.session.value.state.SELECT_STEP_UP_DONE? && d.mailbox.Some?
    requires d.session.value.expedited.Some? && d.session.value.stepup.Some?
    requires InStep(expedited, d.session.value.expedited.value) && InStep(stepup, d.session.value.stepup.value)
    requires d.session.value.expedited.value.CountersValid() && Ok(packet) == stepup.Encrypt(env.aead, plain, []).1
    requires env.parse(plain) == Ok(content) && Plain(content) && Check(d.mailbox, content.requests).Accepted?
    requires Perform(Store(d.mailbox.value, d.log), content.requests).1.None?
    ensures var d' := Step(env, d, Received(Exchange(packet), None, None));
            && Live(d') && d'.session.value.state.EXCHANGE_DONE? && d'.answer.Some?
            && d'.session.value.expedited.Some? && d'.session.value.stepup.Some?
            && !InStep(stepup.(enc := stepup.enc + 1, dec := stepup.dec + 1), d'.session.value.stepup.value)
            && !InStep(expedited, d'.session.value.expedited.value)
  {
    var user := d.session.value.stepup.value;
    GenuineWait(env, d, UseStepUp, stepup, plain, Exchange(packet));
    var d1 := d.(session := Some(d.session.value.(stepup := Some(user.(dec := user.dec + 1)))));
    assert WaitForCommand(env, d, Exchange(packet), None) == (d1, Ok(Parsed(Exchange(packet), Some(content))));
    ExchangeServes(env, d1, content, None);
  }

  /** Reached without AUTH1, that state has no step-up engine: an EXCHANGE is not decrypted, and the loop ends. */
  lemma SelectStepUpWithoutAuth1(env: Env, d: Device, packet: Sealed)
    requires Live(d) && d.session.value.state.SELECT_STEP_UP_DONE? && d.session.value.stepup.None?
    requires d.session.value.expedited.Some? && d.session.value.expedited.value.CountersValid()
    ensures Step(env, d, Received(Exchange(packet), None, None)).phase == Stopped(Some(AttributeError))
  {
    assert WaitForCommand(env, d, Exchange(packet), None) == (d, Ok(Parsed(Exchange(packet), None)));
    NothingDecrypted(env, d, Parsed(Exchange(packet), None));
  }

  lemma NothingDecrypted(env: Env, d: Device, p: Parsed)
    requires Live(d) && d.session.value.state.SELECT_STEP_UP_DONE? && p.command.Exchange? && p.content.None?
    requires d.session.value.expedited.Some? && d.session.value.expedited.value.CountersValid()
    ensures Dispatch(env, d, p, None) == (Entered(d), Some(AttributeError))
  {
  }

  /**
   * The test for the step-up permission of the mailbox comes after the state update: in whatever state an EXCHANGE is
   * entered, the test does not fire.
   */
  lemma StepUpGuardIsDead(env: Env, d: Device, content: Content, sending: Option<Error>)
    requires d.session.Some?
    ensures EnterExchange(env, d, Some(content), sending)
         == HandleContent(env, Entered(d), AnswerChoice(d.session.value.state), content, sending)
    ensures !StepUpGuard(Prepare(Entered(d), content).0, content.requests)
  {
  }

  /** So the requests of an EXCHANGE behind an ENVELOPE are served like any others. */
  lemma StepUpMailboxIsServed(env: Env, d: Device, content: Content)
    requires d.session.Some? && d.session.value.state.ENVELOPE_DONE? && d.mailbox.Some?
    requires d.session.value.stepup.Some? && d.session.value.stepup.value.CountersValid()
    requires Plain(content) && Check(d.mailbox, content.requests).Accepted?
    requires Perform(Store(d.mailbox.value, d.log), content.requests).1.None?
    ensures var (d', error) := HandleExchange(env, d, Some(content), None);
            && error.None? && d'.mailbox.Some?
            && Store(d'.mailbox.value, d'.log) == Perform(Store(d.mailbox.value, d.log), content.requests).0
  {
    ExchangeServes(env, d, content, None);
  }
}
