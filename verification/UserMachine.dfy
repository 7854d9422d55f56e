/**
 * The User Device as a state machine: what each command does to the session, its engines and the mailbox, and how
 * the loops go on. A run is a list of inputs; cryptographic checks are inputs too, the cipher is a parameter.
 */
module UserMachine {
  import opened Basics
  import opened Encryption
  import opened Fragmentation
  import opened MailboxStore
  import opened MailboxExchange

  datatype SessionState =
    | SESSION_START | SELECT_DONE | AUTH0_STD_DONE | AUTH0_FAST_DONE | AUTH1_DONE | EXCHANGE_DONE
    | SELECT_STEP_UP_DONE | ENVELOPE_DONE | STEPUP_EXCHANGE_DONE | TRANSACTION_COMPLETE
    | BLE_READER_STATUS_AP_COMPLETED

  type SubId = seq<byte>

  /** `UserSession`. The two certificate flags are unset until a certificate arrives. */
  datatype UserSession = UserSession(state: SessionState, expedited: Option<Engine>, stepup: Option<Engine>,
                                     certDecoded: Option<bool>, certVerified: Option<bool>, ursk: bool, sub: SubId)

  function NewSession(): UserSession {
    UserSession(SESSION_START, None, None, None, None, false, [])
  }

  datatype Loop = MainLoop | SingleTransaction

  /** `terminateAtEnd` is the parameter of `single_transaction`. */
  datatype Config = Config(transport: Transport, bleLink: bool, mode: Loop, terminateAtEnd: bool, versions: seq<nat>,
                           fast: bool, test: bool)
  {
    predicate IsBle() {
      transport.BleUwb? || transport.SocketBle?
    }
  }

  /** What happened so far, for stating properties of runs. */
  datatype Event =
    | Started
    | Selected(aid: Aid)
    | Auth0Standard(sub: SubId)
    | Auth0Fast(sub: SubId)
    | Certificate(outcome: CertOutcome)
    | Auth1Verified(sub: SubId)
    | Stored(sub: SubId)
    | ExchangeEntered(stepup: bool)
    | StatusReported
    | ExchangeAnswered
    | ExchangeRefused
    | EnvelopeAnswered
    | ProtocolCompleted

  datatype Phase = Initiating | Looping | Stopped(raised: Option<Error>)

  /** `answer` is the last encrypted payload that was handed to the transport. */
  datatype Device = Device(config: Config, session: Option<UserSession>, mailbox: Option<Box>, log: Session,
                           kpersistent: set<SubId>, answer: Option<Sealed>, phase: Phase, trace: seq<Event>)

  // ---------------------------------------------------------------- inputs

  /** The decrypted payload of an EXCHANGE; the notifications are given by their tags. */
  datatype Content = Content(requests: Requests, readerStatus: Option<nat>, ursk: bool, notifyTags: seq<nat>)

  datatype Env = Env(aead: Aead, parse: seq<byte> -> Result<Content>)
  {
    ghost predicate Valid() {
      aead.Correct() && forall p :: parse(p).Ok? ==> parse(p).value.requests.Parsed()
    }
  }

  datatype Aid = Expedited | StepUp | OtherAid

  datatype CertOutcome = Undecodable | Unverified | Verified

  datatype Auth0Data = Auth0Data(version: nat, keyValid: bool, credentialFound: bool, parameters: nat, sub: SubId,
                                 groupKeyFound: bool, skReader: Key, skDevice: Key)

  /** `response` is the plaintext of the answer. */
  datatype Auth1Data = Auth1Data(certificate: Option<CertOutcome>, groupKeyFound: bool, readerKeyFound: bool,
                                 signatureVerifies: bool, skReader: Key, skDevice: Key, stepReader: Key,
                                 stepDevice: Key, response: seq<byte>)

  datatype Command =
    | Select(aid: Aid, parametersValid: bool)
    | Auth0(auth0: Auth0Data)
    | LoadCert(outcome: CertOutcome, groupKeyFound: bool)
    | Auth1(auth1: Auth1Data)
    | Exchange(packet: Sealed)
    | Envelope(packet: Sealed, document: seq<byte>)
    | ControlFlow
    | GetData
    | GetResponse
    | Unknown

  /**
   * `fault` is what a parser raises before it decrypts anything, `sending` what the transport raises while the
   * answer is sent.
   */
  datatype Input =
    | Received(command: Command, fault: Option<Error>, sending: Option<Error>)
    | Ble(accessProtocolCompleted: bool, completed: bool, raised: Option<Error>)
    | Busy
    | NotReceived(error: Error)

  // ---------------------------------------------------------------- waiting for a command

  datatype Parsed = Parsed(command: Command, content: Option<Content>)

  /** The engine that `wait_for_message` decrypts with. */
  datatype Choice = UseExpedited | UseStepUp | UseNone

  function DecryptionChoice(state: SessionState, isExchange: bool): Choice
  {
    if state.AUTH0_STD_DONE? || state.AUTH0_FAST_DONE? then UseExpedited
    else if (state.EXCHANGE_DONE? || state.AUTH1_DONE?) && isExchange then UseExpedited
    else if state.AUTH1_DONE? || state.EXCHANGE_DONE? || state.SELECT_STEP_UP_DONE? || state.ENVELOPE_DONE?
            || state.STEPUP_EXCHANGE_DONE? then UseStepUp
    else UseNone
  }

  /** The engine that `handle_exchange` answers with. */
  function AnswerChoice(state: SessionState): Choice {
    if state.ENVELOPE_DONE? || state.STEPUP_EXCHANGE_DONE? then UseStepUp else UseExpedited
  }

  function EngineOf(s: UserSession, choice: Choice): Option<Engine> {
    match choice
    case UseExpedited => s.expedited
    case UseStepUp => s.stepup
    case UseNone => None
  }

  function WithEngine(s: UserSession, choice: Choice, e: Engine): UserSession {
    match choice
    case UseExpedited => s.(expedited := Some(e))
    case UseStepUp => s.(stepup := Some(e))
    case UseNone => s
  }

  function Decrypted(env: Env, s: UserSession, choice: Choice, packet: Sealed): (UserSession, Result<Option<seq<byte>>>)
  {
    match EngineOf(s, choice)
    case None => (s, Ok(None))
    case Some(e) =>
      var (e', plain) := e.Decrypt(env.aead, packet, []);
      (WithEngine(s, choice, e'), match plain case Ok(p) => Ok(Some(p)) case Err(error) => Err(error))
  }

  /** `parse_command` */
  function ParseCommand(env: Env, s: UserSession, command: Command, fault: Option<Error>): (UserSession, Result<Parsed>)
  {
    if fault.Some? then (s, Err(fault.value))
    else
      match command
      case Unknown => (s, Err(InvalidINSError))
      case GetData => (s, Err(InvalidINSError))
      case Exchange(packet) =>
        var (s', plain) := Decrypted(env, s, DecryptionChoice(s.state, true), packet);
        (match plain
         case Err(e) => (s', Err(e))
         case Ok(None) => (s', Ok(Parsed(command, None)))
         case Ok(Some(p)) =>
           match env.parse(p)
           case Err(e) => (s', Err(e))
           case Ok(content) => (s', Ok(Parsed(command, Some(content)))))
      case Envelope(packet, _) =>
        var (s', plain) := Decrypted(env, s, DecryptionChoice(s.state, false), packet);
        (s', match plain case Err(e) => Err(e) case Ok(_) => Ok(Parsed(command, None)))
      case _ => (s, Ok(Parsed(command, None)))
  }

  /** Sends an error status and ends the session. */
  function FailureProcess(d: Device): Device {
    d.(session := None)
  }

  predicate EndsSession(e: Error) {
    IsInvalidCommand(e) || e.VerificationError?
  }

  /** `wait_for_message`, for a command that arrived whole. */
  function WaitForCommand(env: Env, d: Device, command: Command, fault: Option<Error>): (r: (Device, Result<Parsed>))
    requires d.session.Some?
    ensures r.1.Ok? ==> r.0.session.Some? && r.0 == d.(session := r.0.session)
  {
    if command.GetData? then (d, Err(InvalidINSError))
    else if command.Select? && (!command.parametersValid || command.aid.OtherAid?) then (d, Err(InvalidAIDError))
    else
      var (s, parsed) := ParseCommand(env, d.session.value, command, fault);
      var d' := d.(session := Some(s));
      (if parsed.Err? && EndsSession(parsed.error) then FailureProcess(d') else d', parsed)
  }

  // ---------------------------------------------------------------- the handlers

  function Record(d: Device, e: Event): Device {
    d.(trace := d.trace + [e])
  }

  function WithState(d: Device, state: SessionState): Device
    requires d.session.Some?
  {
    d.(session := Some(d.session.value.(state := state)))
  }

  function HandleSelect(d: Device, aid: Aid, sending: Option<Error>): (Device, Option<Error>)
    requires d.session.Some?
  {
    var state := d.session.value.state;
    match aid
    case Expedited => (Record(WithState(d, SELECT_DONE), Selected(Expedited)), sending)
    case StepUp =>
      if state.AUTH1_DONE? || state.EXCHANGE_DONE? then
        (Record(WithState(d, SELECT_STEP_UP_DONE), Selected(StepUp)), sending)
      else (d, Some(AccessProtocolError))
    case OtherAid => (FailureProcess(d), Some(InvalidAIDError))
  }

  /** State, version, reader key and credential. */
  function CheckAuth0(d: Device, a: Auth0Data): (r: (Device, Option<Error>))
    requires d.session.Some?
    ensures r.1.None? ==> r.0 == d.(session := Some(d.session.value.(sub := a.sub)))
  {
    if !d.session.value.state.SELECT_DONE? && !d.config.IsBle() then (FailureProcess(d), Some(SessionError))
    else if a.version !in d.config.versions then (FailureProcess(d), Some(VersionError))
    else if !a.keyValid then (d, Some(AccessProtocolError))
    else
      (d.(session := Some(d.session.value.(sub := a.sub))),
       if a.credentialFound then None else Some(AccessProtocolError))
  }

  /** `derive_key_volatile_fast` */
  function WithFastEngine(d: Device, a: Auth0Data): (r: Device)
    requires d.session.Some?
    ensures r.session.Some?
  {
    d.(session := Some(d.session.value.(expedited := Some(NewEngine(User, a.skReader, a.skDevice)))))
  }

  /** The standard path, or the fast one if it is implemented and a persistent key is stored for the reader. */
  function ChooseTransaction(d: Device, a: Auth0Data, sending: Option<Error>): (Device, Option<Error>)
    requires d.session.Some?
  {
    if a.parameters > 1 then (d, Some(IndexError))
    else if a.parameters == 0 || !d.config.fast || a.sub !in d.kpersistent then
      (Record(WithState(d, AUTH0_STD_DONE), Auth0Standard(a.sub)), sending)
    else if !a.groupKeyFound then (d, Some(KeyLookupFailed))
    else
      var d1 := WithFastEngine(d, a);
      if d.config.IsBle() && !d.config.bleLink then (d1, Some(AccessProtocolError))
      else (Record(WithState(d1, AUTH0_FAST_DONE), Auth0Fast(a.sub)), sending)
  }

  function HandleAuth0(d: Device, a: Auth0Data, sending: Option<Error>): (Device, Option<Error>)
    requires d.session.Some?
  {
    var (d1, error) := CheckAuth0(d, a);
    if error.Some? then (d1, error) else ChooseTransaction(d1, a, sending)
  }

  /** `set_cert_and_verify` leaves the verification flag alone when the certificate does not decode. */
  function WithCert(s: UserSession, outcome: CertOutcome): UserSession {
    match outcome
    case Undecodable => s.(certDecoded := Some(false))
    case Unverified => s.(certDecoded := Some(true), certVerified := Some(false))
    case Verified => s.(certDecoded := Some(true), certVerified := Some(true))
  }

  function TakeCertificate(d: Device, outcome: CertOutcome): (r: Device)
    requires d.session.Some?
    ensures r.session.Some?
  {
    Record(d.(session := Some(WithCert(d.session.value, outcome))), Certificate(outcome))
  }

  predicate AfterAuth0(s: UserSession) {
    s.state.AUTH0_FAST_DONE? || s.state.AUTH0_STD_DONE?
  }

  function HandleLoadCert(d: Device, outcome: CertOutcome, groupKeyFound: bool, sending: Option<Error>)
    : (Device, Option<Error>)
    requires d.session.Some?
  {
    if !AfterAuth0(d.session.value) then (FailureProcess(d), Some(SessionError))
    else if !groupKeyFound then (d, Some(KeyLookupFailed))
    else
      var d1 := TakeCertificate(d, outcome);
      if sending.Some? then (d1, sending)
      else if d.config.test && !outcome.Verified? then (d1, Some(AccessProtocolError))
      else (d1, None)
  }

  /** The certificate and the reader signature; without an error the session is still there. */
  function CheckAuth1(d: Device, a: Auth1Data): (r: (Device, Option<Error>))
    requires d.session.Some?
    ensures r.1.None? ==> r.0.session.Some?
  {
    if !AfterAuth0(d.session.value) then (FailureProcess(d), Some(SessionError))
    else if a.certificate.Some? && !a.groupKeyFound then (d, Some(KeyLookupFailed))
    else
      CheckCertificate(if a.certificate.Some? then TakeCertificate(d, a.certificate.value) else d, a)
  }

  function CheckCertificate(d: Device, a: Auth1Data): (r: (Device, Option<Error>))
    requires d.session.Some?
    ensures r.1.None? ==> r.0 == d
  {
    var s := d.session.value;
    if s.certDecoded == Some(false) || s.certVerified == Some(false) then (FailureProcess(d), Some(AccessProtocolError))
    else CheckReaderAuthenticationData(d, a)
  }

  function CheckReaderAuthenticationData(d: Device, a: Auth1Data): (r: (Device, Option<Error>))
    requires d.session.Some?
    ensures r.1.None? ==> r.0 == d
  {
    if !a.readerKeyFound then (d, Some(KeyLookupFailed))
    else if !a.signatureVerifies then (FailureProcess(d), Some(AccessProtocolError))
    else (d, None)
  }

  function HandleAuth1(env: Env, d: Device, a: Auth1Data, sending: Option<Error>): (Device, Option<Error>)
    requires d.session.Some?
  {
    var (d1, error) := CheckAuth1(d, a);
    if error.Some? then (d1, error)
    else KeysAfterAuth1(env, Record(d1, Auth1Verified(d1.session.value.sub)), a, sending)
  }

  /** `derive_key_volatile` */
  function WithEngines(d: Device, a: Auth1Data): (r: Device)
    requires d.session.Some?
    ensures r.session.Some?
  {
    d.(session := Some(d.session.value.(expedited := Some(NewEngine(User, a.skReader, a.skDevice)),
                                        stepup := Some(NewEngine(User, a.stepReader, a.stepDevice)))))
  }

  /** Behind a verified reader signature: new engines, the persistent key, and the encrypted answer. */
  function KeysAfterAuth1(env: Env, d: Device, a: Auth1Data, sending: Option<Error>): (Device, Option<Error>)
    requires d.session.Some?
  {
    if !a.groupKeyFound then (FailureProcess(d), Some(KeyLookupFailed))
    else
      var d1 := WithEngines(d, a);
      if d.config.IsBle() && !d.config.bleLink then (d1, Some(AccessProtocolError))
      else
        var sub := d.session.value.sub;
        var d2 := Record(d1.(kpersistent := d1.kpersistent + {sub}), Stored(sub));
        Answer(env, WithState(d2, AUTH1_DONE), UseExpedited, a.response, sending)
  }

  /** Encrypts an answer and sends it. */
  function Answer(env: Env, d: Device, choice: Choice, payload: seq<byte>, sending: Option<Error>)
    : (Device, Option<Error>)
    requires d.session.Some?
  {
    match EngineOf(d.session.value, choice)
    case None => (d, Some(AccessProtocolError))
    case Some(e) =>
      var (e', packet) := e.Encrypt(env.aead, payload, []);
      if packet.Err? then (d, Some(packet.error))
      else (d.(session := Some(WithEngine(d.session.value, choice, e')), answer := Some(packet.value)), sending)
  }

  /** What is recorded of an answer that was sent. */
  function Answered(r: (Device, Option<Error>), e: Event): (Device, Option<Error>) {
    (if r.1.None? then Record(r.0, e) else r.0, r.1)
  }

  predicate ExchangeAllowed(state: SessionState) {
    || state.AUTH0_FAST_DONE? || state.AUTH1_DONE? || state.EXCHANGE_DONE? || state.ENVELOPE_DONE?
    || state.STEPUP_EXCHANGE_DONE? || state.SELECT_STEP_UP_DONE?
  }

  predicate EnvelopeAllowed(state: SessionState) {
    state.AUTH1_DONE? || state.EXCHANGE_DONE? || state.ENVELOPE_DONE? || state.SELECT_STEP_UP_DONE?
  }

  const EXCHANGE_SUCCESS: seq<byte> := [0x00, 0x02, 0x00, 0x00]
  const EXCHANGE_ERROR: seq<byte> := [0x00, 0x02, 0xFF, 0xFF]

  /** Each part behind its two-byte length. */
  function Framed(parts: seq<seq<byte>>): seq<byte>
  {
    if parts == [] then []
    else Framed(parts[..|parts| - 1]) + (U16(|parts[|parts| - 1]| % 0x1_0000) + parts[|parts| - 1])
  }

  predicate NotifyTagValid(tag: nat) {
    || tag == 0x82 || tag == 0xB5 || 0x9F20 <= tag < 0x9F40
    || (0x9F40 <= tag < 0x9F60 && tag % 8 < 5)
  }

  function HandleExchange(env: Env, d: Device, content: Option<Content>, sending: Option<Error>)
    : (Device, Option<Error>)
    requires d.session.Some?
  {
    var s := d.session.value;
    if !ExchangeAllowed(s.state) then (FailureProcess(d), Some(SessionError))
    else
      var choice := AnswerChoice(s.state);
      match EngineOf(s, choice)
      case None => (d, Some(AccessProtocolError))
      case Some(e) => BeginExchange(env, d, e, content, sending)
  }

  /** Counters that are used up end the session without an error. */
  function BeginExchange(env: Env, d: Device, e: Engine, content: Option<Content>, sending: Option<Error>)
    : (Device, Option<Error>)
    requires d.session.Some?
  {
    if e.CountersValid() then EnterExchange(env, d, content, sending) else (FailureProcess(d), None)
  }

  /** Behind the counter check: the state is updated before the content is looked at. */
  function EnterExchange(env: Env, d: Device, content: Option<Content>, sending: Option<Error>): (Device, Option<Error>)
    requires d.session.Some?
  {
    var choice, d1 := AnswerChoice(d.session.value.state), Entered(d);
    if content.None? then (d1, Some(AttributeError)) else HandleContent(env, d1, choice, content.value, sending)
  }

  function Entered(d: Device): (r: Device)
    requires d.session.Some?
    ensures r.session.Some?
  {
    var stepup := AnswerChoice(d.session.value.state).UseStepUp?;
    Record(WithState(d, if stepup then STEPUP_EXCHANGE_DONE else EXCHANGE_DONE), ExchangeEntered(stepup))
  }

  /** Reader status, URSK and the step-up permission, before any request is looked at. */
  function Prepare(d: Device, content: Content): (r: (Device, Option<Error>))
    requires d.session.Some?
    ensures r.0.session.Some?
  {
    var (d1, error) := TakeStatus(d, content);
    if error.Some? then (d1, error)
    else
      var (d2, again) := TakeUrsk(d1, content);
      if again.Some? then (d2, again)
      // the mailbox never gives permission for the step-up phase
      else (d2, if StepUpGuard(d2, content.requests) then Some(AccessProtocolError) else None)
  }

  function TakeStatus(d: Device, content: Content): (r: (Device, Option<Error>))
    requires d.session.Some?
    ensures r.0.session.Some?
  {
    if content.readerStatus.None? then (d, None)
    else if d.config.IsBle() && content.readerStatus.value / 0x100 != 0 then (d, Some(AccessProtocolError))
    else (Record(WithState(d, TRANSACTION_COMPLETE), StatusReported), None)
  }

  function TakeUrsk(d: Device, content: Content): (r: (Device, Option<Error>))
    requires d.session.Some?
    ensures r.0.session.Some?
  {
    if !content.ursk then (d, None)
    else if d.session.value.ursk then (d, Some(AccessProtocolError))
    else (d.(session := Some(d.session.value.(ursk := true))), None)
  }

  predicate StepUpGuard(d: Device, r: Requests)
    requires d.session.Some?
  {
    d.mailbox.Some? && r.Count() > 0 && d.session.value.state.ENVELOPE_DONE?
  }

  /** `return_exchange_error_and_close_channel`, and the error that follows it. */
  function AnswerError(env: Env, d: Device, choice: Choice, sending: Option<Error>): (Device, Option<Error>)
    requires d.session.Some?
  {
    var (d1, error) := Answered(Answer(env, d, choice, EXCHANGE_ERROR, sending), ExchangeRefused);
    (d1, if error.Some? then error else Some(AccessProtocolError))
  }

  predicate Notified(tags: seq<nat>) {
    forall i :: 0 <= i < |tags| ==> NotifyTagValid(tags[i])
  }

  function Serve(env: Env, d: Device, choice: Choice, content: Content, sending: Option<Error>): (Device, Option<Error>)
    requires d.session.Some?
  {
    match Check(d.mailbox, content.requests)
    case Refused(answered) => if answered then AnswerError(env, d, choice, sending) else (d, Some(AccessProtocolError))
    case Accepted =>
      if !Notified(content.notifyTags) then (d, Some(AccessProtocolError))
      else HandleMailbox(env, d, choice, content.requests, sending)
  }

  /** The content of an exchange, once the engine is chosen and the state is updated. */
  function HandleContent(env: Env, d: Device, choice: Choice, content: Content, sending: Option<Error>)
    : (Device, Option<Error>)
    requires d.session.Some?
  {
    var (d1, error) := Prepare(d, content);
    if error.Some? then (d1, error) else Serve(env, d1, choice, content, sending)
  }

  /** Reads, then sets and writes, then the answer. */
  function HandleMailbox(env: Env, d: Device, choice: Choice, r: Requests, sending: Option<Error>)
    : (Device, Option<Error>)
    requires d.session.Some?
  {
    if d.mailbox.None? then Answered(Answer(env, d, choice, EXCHANGE_SUCCESS, sending), ExchangeAnswered)
    else
      var payload := Framed(ReadAll(d.mailbox.value, r.readRequests)) + EXCHANGE_SUCCESS;
      var (store, error) := Perform(Store(d.mailbox.value, d.log), r);
      var d1 := d.(mailbox := Some(store.box), log := store.session);
      if error.Some? then (d1, error)
      else Answered(Answer(env, d1, choice, payload, sending), ExchangeAnswered)
  }

  function HandleEnvelope(env: Env, d: Device, document: seq<byte>, sending: Option<Error>): (Device, Option<Error>)
    requires d.session.Some?
  {
    if !EnvelopeAllowed(d.session.value.state) then (FailureProcess(d), Some(SessionError))
    else
      var (d1, error) := Answered(Answer(env, d, UseStepUp, document, sending), EnvelopeAnswered);
      if error.Some? then (d1, error) else (WithState(d1, ENVELOPE_DONE), None)
  }

  // ---------------------------------------------------------------- the loops

  /** A new connection and a new session. On BLE the loop begins at once, on NFC a SELECT has to come first. */
  function Restart(d: Device): Device {
    Record(d.(session := Some(NewSession()), phase := if d.config.IsBle() then Looping else Initiating), Started)
  }

  function Stop(d: Device, raised: Option<Error>): Device {
    d.(phase := Stopped(raised))
  }

  /** `handle_timeout`, and the error that leaves the loop behind it: only a BLE link can tell the peer. */
  function Expire(d: Device): Device {
    if !d.config.bleLink then Stop(d, Some(InvalidProtocolTypeError))
    else if d.session.None? then Stop(d, Some(SessionError))
    else Stop(d.(session := None), Some(TimeoutError))
  }

  /** The loops test for a session before they wait; without one they raise. */
  function GoOn(d: Device): Device {
    if d.session.None? then Stop(d, Some(SessionError)) else d
  }

  function Dispatch(env: Env, d: Device, p: Parsed, sending: Option<Error>): (Device, Option<Error>)
    requires d.session.Some?
  {
    match p.command
    case Select(aid, _) => HandleSelect(d, aid, sending)
    case Auth0(a) => HandleAuth0(d, a, sending)
    case LoadCert(outcome, found) => HandleLoadCert(d, outcome, found, sending)
    case Auth1(a) => HandleAuth1(env, d, a, sending)
    case Exchange(_) => HandleExchange(env, d, p.content, sending)
    case Envelope(_, document) => HandleEnvelope(env, d, document, sending)
    case ControlFlow => (WithState(d, SELECT_DONE), sending)
    case _ => (d, Some(NotImplementedError))
  }

  /** A command that is not valid ends the session, and then the loop begins anew or returns. */
  function BeginAnew(d: Device): Device {
    if d.config.mode.MainLoop? then Restart(FailureProcess(d)) else Stop(FailureProcess(d), None)
  }

  /** How a loop goes on after the wait raised something. */
  function AfterWait(d: Device, e: Error): Device
  {
    if e.InvalidAIDError? || e.InvalidINSError? then GoOn(d)
    else if EndsSession(e) then BeginAnew(d)
    else if e.NoDeviceConnectedError? && d.config.mode.MainLoop? then Restart(d)
    else if e.TimeoutError? then Expire(d)
    else Stop(d, Some(e))
  }

  /** How a loop goes on after a handler. */
  function AfterHandler(d: Device, error: Option<Error>): Device
  {
    match error
    case None => GoOn(d)
    case Some(e) =>
      if d.config.mode.MainLoop? then
        if IsAccessProtocol(e) || e.NoDeviceConnectedError? then Restart(d) else Stop(d, Some(e))
      else if IsAccessProtocol(e) then Stop(FailureProcess(d), None)
      else Stop(d, Some(e))
  }

  /** One command in a loop. */
  function LoopCommand(env: Env, d: Device, command: Command, fault: Option<Error>, sending: Option<Error>): Device
    requires d.session.Some?
  {
    var (d1, parsed) := WaitForCommand(env, d, command, fault);
    match parsed
    case Err(e) => AfterWait(d1, e)
    case Ok(p) => LoopParsed(env, d1, command, p, sending)
  }

  /** In a single transaction only an EXCHANGE is taken while an atomic session is open. */
  function LoopParsed(env: Env, d: Device, command: Command, p: Parsed, sending: Option<Error>): Device
    requires d.session.Some?
  {
    if d.config.mode.SingleTransaction? && d.log.started && !command.Exchange? then Stop(FailureProcess(d), None)
    else
      var (d1, error) := Dispatch(env, d, p, sending);
      AfterCommand(d1, command, error)
  }

  /** Answers to SELECT and CONTROL FLOW are sent without a timer, so nothing handles a timeout there. */
  function AfterCommand(d: Device, command: Command, error: Option<Error>): Device
  {
    if command.ControlFlow? && error.None? then Terminate(d)
    else if error == Some(TimeoutError) && !command.Select? && !command.ControlFlow? then Expire(d)
    else AfterHandler(d, error)
  }

  /** `transaction_termination` behind a CONTROL FLOW. */
  function Terminate(d: Device): Device {
    if d.config.mode.MainLoop? then Restart(d.(session := None)) else Stop(AtEnd(d), None)
  }

  function AtEnd(d: Device): Device {
    if d.config.terminateAtEnd then d.(session := None) else d
  }

  /** The SELECT that an NFC transaction begins with; here every error but two leaves the loop. */
  function FirstCommand(env: Env, d: Device, command: Command, fault: Option<Error>, sending: Option<Error>): Device
    requires d.session.Some?
  {
    var (d1, parsed) := WaitForCommand(env, d, command, fault);
    match parsed
    case Err(e) => FirstRaised(d1, e)
    case Ok(_) => FirstParsed(d1, command, sending)
  }

  function FirstRaised(d: Device, e: Error): Device {
    if e.InvalidAIDError? || e.InvalidINSError? then GoOn(d)
    else if e.TimeoutError? then Expire(d)
    else Stop(d, Some(e))
  }

  function FirstParsed(d: Device, command: Command, sending: Option<Error>): Device
    requires d.session.Some?
  {
    if !command.Select? then Stop(d, Some(AccessProtocolError))
    else
      var (d1, error) := HandleSelect(d, command.aid, sending);
      if error.Some? then Stop(d1, error) else d1.(phase := Looping)
  }

  function BleMessage(d: Device, accessProtocolCompleted: bool, completed: bool, error: Option<Error>): Device
    requires d.session.Some?
  {
    var d1 := if accessProtocolCompleted then Record(WithState(d, BLE_READER_STATUS_AP_COMPLETED), ProtocolCompleted)
              else d;
    if error.Some? then AfterHandler(d1, error)
    else if completed && d.config.mode.SingleTransaction? then Stop(AtEnd(d1), None)
    else d1
  }

  function Step(env: Env, d: Device, input: Input): Device
  {
    if d.phase.Stopped? then d
    else if d.session.None? then Stop(d, Some(SessionError))
    else
      match input
      case NotReceived(e) =>
        if d.phase.Looping? then AfterWait(d, e) else FirstRaised(d, e)
      case Busy => d
      case Ble(apc, completed, error) =>
        if d.phase.Looping? then BleMessage(d, apc, completed, error) else Stop(d, Some(UnexpectedBLEMessageError))
      case Received(command, fault, sending) =>
        if d.phase.Looping? then LoopCommand(env, d, command, fault, sending)
        else FirstCommand(env, d, command, fault, sending)
  }

  function StartDevice(config: Config, mailbox: Option<Box>, kpersistent: set<SubId>): Device {
    Restart(Device(config, None, mailbox, Session([], false), kpersistent, None, Looping, []))
  }

  function RunDevice(env: Env, d: Device, inputs: seq<Input>): Device
  {
    if inputs == [] then d else Step(env, RunDevice(env, d, inputs[..|inputs| - 1]), inputs[|inputs| - 1])
  }
}
