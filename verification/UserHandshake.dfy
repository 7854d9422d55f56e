/**
 * What each command of the handshake leads to after any run, both ways: the events of the run decide whether it is
 * served and what is then recorded, and a command that is not served ends the session.
 */
module UserHandshake {
  import opened Basics
  import opened MailboxStore
  import opened UserMachine
  import opened UserEngines
  import opened UserSafety
  import opened UserOrder

  // ---------------------------------------------------------------- out of order

  /** The stages at which a command is taken. */
  predicate Taken(ble: bool, stage: Event, command: Command) {
    match command
    case Select(aid, _) => aid.Expedited? || MaySelectStepUp(stage)
    case Auth0(_) => ble || stage == Event.Selected(Expedited)
    case LoadCert(_, _) => IsAuth0(stage)
    case Auth1(_) => IsAuth0(stage)
    case Exchange(_) => MayExchangeAt(stage)
    case Envelope(_, _) => MayEnvelopeAt(stage)
    case _ => true
  }

  /** Names a known application, and is no GET DATA: the loop passes over all others. */
  predicate Understood(command: Command) {
    !command.GetData? && !command.Unknown? && (command.Select? ==> command.parametersValid && !command.aid.OtherAid?)
  }

  /** The loop has ended, or there is a new session without engines; nothing else has been recorded. */
  predicate SessionOver(d: Device, d': Device) {
    if d'.phase.Stopped? then d'.trace == d.trace
    else d'.session == Some(NewSession()) && d'.trace == d.trace + [Started]
  }

  predicate NothingElse(d: Device, d': Device) {
    SameStoreAndAnswer(d, d') && d'.kpersistent == d.kpersistent
  }

  /** What a parser raises behind the decryption is not passed over by the loops; see `ExchangeCodec.ParseErrors`. */
  ghost predicate RaisesLoudly(env: Env) {
    forall p :: env.parse(p).Err? ==> !PassedOver(env.parse(p).error)
  }

  predicate PassedOver(e: Error) {
    e.InvalidAIDError? || e.InvalidINSError?
  }

  /** A handler that refuses a command outright. */
  predicate RefusesAll(d: Device, r: (Device, Option<Error>)) {
    && NothingElse(d, r.0) && r.0.trace == d.trace && r.0.config == d.config
    && r.1.Some? && (r.1 == Some(SessionError) || r.1 == Some(AccessProtocolError))
  }

  lemma RefusedIsOver(d: Device, r: (Device, Option<Error>), command: Command)
    requires RefusesAll(d, r)
    ensures SessionOver(d, AfterCommand(r.0, command, r.1)) && NothingElse(d, AfterCommand(r.0, command, r.1))
  {
  }

  lemma DispatchRefuses(env: Env, d: Device, p: Parsed, sending: Option<Error>)
    requires Stands(d) && Understood(p.command) && !Taken(d.config.IsBle(), Stage(d.trace), p.command)
    ensures RefusesAll(d, Dispatch(env, d, p, sending))
  {
    match p.command
    case Select(aid, _) => assert RefusesAll(d, HandleSelect(d, aid, sending));
    case Auth0(a) => assert RefusesAll(d, HandleAuth0(d, a, sending));
    case LoadCert(outcome, found) => assert RefusesAll(d, HandleLoadCert(d, outcome, found, sending));
    case Auth1(a) => assert RefusesAll(d, HandleAuth1(env, d, a, sending));
    case Exchange(_) => assert RefusesAll(d, HandleExchange(env, d, p.content, sending));
    case Envelope(_, document) => assert RefusesAll(d, HandleEnvelope(env, d, document, sending));
  }

  lemma ParsedRefuses(env: Env, d: Device, command: Command, p: Parsed, sending: Option<Error>)
    requires Stands(d) && p.command == command && Understood(command)
    requires !Taken(d.config.IsBle(), Stage(d.trace), command)
    ensures var d' := LoopParsed(env, d, command, p, sending); SessionOver(d, d') && NothingElse(d, d')
  {
    DispatchRefuses(env, d, p, sending);
    RefusedIsOver(d, Dispatch(env, d, p, sending), command);
  }

  lemma WaitIsLoud(env: Env, d: Device, command: Command)
    requires Stands(d) && Understood(command) && RaisesLoudly(env)
    ensures var (d1, parsed) := WaitForCommand(env, d, command, None);
            && NothingElse(d, d1) && d1.trace == d.trace && d1.config == d.config
            && (parsed.Err? ==> !PassedOver(parsed.error))
  {
  }

  lemma RaisedIsOver(d: Device, d1: Device, e: Error)
    requires !PassedOver(e) && NothingElse(d, d1) && d1.trace == d.trace
    ensures SessionOver(d, AfterWait(d1, e)) && NothingElse(d, AfterWait(d1, e))
  {
  }

  lemma LoopRefuses(env: Env, d: Device, command: Command, sending: Option<Error>)
    requires Stands(d) && d.phase.Looping? && Understood(command) && RaisesLoudly(env)
    requires !Taken(d.config.IsBle(), Stage(d.trace), command)
    ensures var d' := LoopCommand(env, d, command, None, sending); SessionOver(d, d') && NothingElse(d, d')
  {
    WaitIsLoud(env, d, command);
    WaitStands(env, d, command, None);
    var (d1, parsed) := WaitForCommand(env, d, command, None);
    if parsed.Err? {
      RaisedIsOver(d, d1, parsed.error);
    } else {
      ParsedRefuses(env, d1, command, parsed.value, sending);
    }
  }

  lemma FirstRefuses(env: Env, d: Device, command: Command, sending: Option<Error>)
    requires Stands(d) && d.phase.Initiating? && Stage(d.trace) == Started && Understood(command) && RaisesLoudly(env)
    requires command != Select(Expedited, true)
    ensures var d' := FirstCommand(env, d, command, None, sending);
            d'.phase.Stopped? && SessionOver(d, d') && NothingElse(d, d')
  {
    var (d1, parsed) := WaitForCommand(env, d, command, None);
    if !command.Select? {
      WaitIsLoud(env, d, command);
    }
  }

  /**
   * After any run: a command at a stage that does not take it ends the session, whatever is raised on the way, and
   * changes nothing else. A run that waits for its first SELECT takes nothing else either.
   */
  lemma OutOfOrderEndsSession(config: Config, mailbox: Option<Box>, known: set<SubId>, env: Env, inputs: seq<Input>,
                              command: Command, sending: Option<Error>)
    requires Understood(command) && RaisesLoudly(env)
    ensures var d := RunDevice(env, StartDevice(config, mailbox, known), inputs);
            var d' := Step(env, d, Received(command, None, sending));
            && (Live(d) && !Taken(config.IsBle(), Stage(d.trace), command) ==> SessionOver(d, d') && NothingElse(d, d'))
            && (d.phase.Initiating? && d.session.Some? && command != Select(Expedited, true) ==>
                  d'.phase.Stopped? && SessionOver(d, d') && NothingElse(d, d'))
  {
    var d := RunDevice(env, StartDevice(config, mailbox, known), inputs);
    EveryRunInOrder(config, mailbox, known, env, inputs);
    if Live(d) && !Taken(config.IsBle(), Stage(d.trace), command) {
      LoopRefuses(env, d, command, sending);
    }
    if d.phase.Initiating? && d.session.Some? && command != Select(Expedited, true) {
      FirstRefuses(env, d, command, sending);
    }
  }

  // ---------------------------------------------------------------- in order

  predicate OfHandshake(command: Command) {
    Understood(command) && (command.Select? || command.Auth0? || command.LoadCert? || command.Auth1?)
  }

  /** The session goes on with these events, it ends, or the loop is left with an error. */
  datatype Outcome = Serves(events: seq<Event>) | Refuses | Raises(error: Error)

  /** An AUTH0 that is taken: the fast path is for readers with a persistent key. */
  function Auth0Outcome(config: Config, keys: set<SubId>, a: Auth0Data): Outcome {
    if a.version !in config.versions || !a.keyValid || !a.credentialFound then Refuses
    else if a.parameters > 1 then Raises(IndexError)
    else if a.parameters == 0 || !config.fast || a.sub !in keys then Serves([Auth0Standard(a.sub)])
    else if !a.groupKeyFound then Raises(KeyLookupFailed)
    else if config.IsBle() && !config.bleLink then Refuses
    else Serves([Auth0Fast(a.sub)])
  }

  /** What stops an AUTH1 that is taken, up to its signature. */
  function Auth1Objection(trace: seq<Event>, a: Auth1Data): Option<Outcome> {
    if a.certificate.Some? && !a.groupKeyFound then Some(Raises(KeyLookupFailed))
    else if !Passes(if a.certificate.Some? then a.certificate else LatestCertificate(trace)) then Some(Refuses)
    else if !a.readerKeyFound then Some(Raises(KeyLookupFailed))
    else if !a.signatureVerifies then Some(Refuses)
    else None
  }

  /** The events of an AUTH1 up to the signature. */
  function CertificateEvents(a: Auth1Data): seq<Event> {
    if a.certificate.Some? then [Certificate(a.certificate.value)] else []
  }

  function Auth1Outcome(config: Config, trace: seq<Event>, a: Auth1Data): Outcome {
    var objection, reader := Auth1Objection(trace, a), NamedReader(trace);
    if objection.Some? then objection.value
    else if !a.groupKeyFound then Raises(KeyLookupFailed)
    else if config.IsBle() && !config.bleLink then Refuses
    else Serves(CertificateEvents(a) + [Auth1Verified(reader), Stored(reader)])
  }

  /** What a command of the handshake leads to once its answer is sent. */
  function OutcomeOf(config: Config, keys: set<SubId>, trace: seq<Event>, command: Command): Outcome
    requires OfHandshake(command)
  {
    if !Taken(config.IsBle(), Stage(trace), command) then Refuses
    else
      match command
      case Select(aid, _) => Serves([Event.Selected(aid)])
      case Auth0(a) => Auth0Outcome(config, keys, a)
      case LoadCert(outcome, found) =>
        if !found then Raises(KeyLookupFailed)
        else if config.test && outcome != Verified then Refuses
        else Serves([Certificate(outcome)])
      case Auth1(a) => Auth1Outcome(config, trace, a)
  }

  /** LOAD CERT is answered before the certificate is looked at. */
  predicate Sends(config: Config, keys: set<SubId>, trace: seq<Event>, command: Command)
    requires OfHandshake(command)
  {
    OutcomeOf(config, keys, trace, command).Serves?
    || (command.LoadCert? && Taken(config.IsBle(), Stage(trace), command) && command.groupKeyFound)
  }

  // ---------------------------------------------------------------- how the two loops go on

  /** The main loop begins anew behind an error of the protocol; a single transaction ends. */
  predicate Ends(d: Device, d': Device) {
    if d.config.mode.MainLoop? then
      && d'.session == Some(NewSession()) && d'.phase == (if d.config.IsBle() then Looping else Initiating)
      && d'.trace != [] && d'.trace[|d'.trace| - 1] == Started
    else d'.phase == Stopped(None) && d'.session.None?
  }

  predicate EndsAs(d: Device, d': Device, outcome: Outcome) {
    match outcome
    case Serves(events) => Live(d') && d'.trace == d.trace + events
    case Refuses => Ends(d, d')
    case Raises(e) => d'.phase == Stopped(Some(e))
  }

  predicate Leads(d: Device, d': Device, outcome: Outcome) {
    d'.mailbox == d.mailbox && d'.log == d.log && EndsAs(d, d', outcome)
  }

  /** An error that a handler raises: what it does to the loop depends on its class and on which loop it is. */
  function Fate(config: Config, e: Error): Outcome {
    if IsAccessProtocol(e) || (e.NoDeviceConnectedError? && config.mode.MainLoop?) then Refuses else Raises(e)
  }

  /** A timeout behind an answer tells the peer, which needs a link; SELECT is answered without a timer. */
  function SendingFate(config: Config, command: Command, e: Error): Outcome {
    if e.TimeoutError? && !command.Select? then
      Raises(if config.bleLink then TimeoutError else InvalidProtocolTypeError)
    else Fate(config, e)
  }

  /** The handler did what the trace says, or raised an error with that fate. */
  predicate Does(d: Device, r: (Device, Option<Error>), outcome: Outcome, sends: bool, sending: Option<Error>) {
    && r.0.mailbox == d.mailbox && r.0.log == d.log && r.0.config == d.config && r.0.phase == d.phase
    && (if sends && sending.Some? then r.1 == sending && r.0.session.Some?
        else if outcome.Serves? then r.1.None? && r.0.session.Some? && r.0.trace == d.trace + outcome.events
        else r.1.Some? && !r.1.value.TimeoutError? && Fate(d.config, r.1.value) == outcome)
  }

  lemma SelectDoes(d: Device, aid: Aid, sending: Option<Error>)
    requires Stands(d) && !aid.OtherAid?
    ensures var outcome := OutcomeOf(d.config, d.kpersistent, d.trace, Select(aid, true));
            Does(d, HandleSelect(d, aid, sending), outcome, outcome.Serves?, sending)
  {
  }

  /** What stops an AUTH0 that is taken before the transaction is chosen. */
  lemma CheckAuth0Does(d: Device, a: Auth0Data)
    requires Stands(d)
    ensures var (d1, error) := CheckAuth0(d, a);
            && d1.mailbox == d.mailbox && d1.log == d.log && d1.config == d.config && d1.phase == d.phase
            && (if Taken(d.config.IsBle(), Stage(d.trace), Auth0(a)) && a.version in d.config.versions && a.keyValid
                   && a.credentialFound then
                  error.None? && d1 == d.(session := Some(d.session.value.(sub := a.sub)))
                else error.Some? && !error.value.TimeoutError? && Fate(d.config, error.value) == Refuses)
  {
  }

  lemma ChooseDoes(d: Device, a: Auth0Data, sending: Option<Error>)
    requires d.session.Some? && a.version in d.config.versions && a.keyValid && a.credentialFound
    ensures var outcome := Auth0Outcome(d.config, d.kpersistent, a);
            Does(d, ChooseTransaction(d, a, sending), outcome, outcome.Serves?, sending)
  {
  }

  lemma Auth0Does(d: Device, a: Auth0Data, sending: Option<Error>)
    requires Stands(d)
    ensures var outcome := OutcomeOf(d.config, d.kpersistent, d.trace, Auth0(a));
            Does(d, HandleAuth0(d, a, sending), outcome, outcome.Serves?, sending)
  {
    CheckAuth0Does(d, a);
    var (d1, error) := CheckAuth0(d, a);
    if error.None? {
      ChooseDoes(d1, a, sending);
    }
  }

  lemma LoadCertDoes(d: Device, outcome: CertOutcome, found: bool, sending: Option<Error>)
    requires Stands(d)
    ensures var command := LoadCert(outcome, found);
            Does(d, HandleLoadCert(d, outcome, found, sending),
                 OutcomeOf(d.config, d.kpersistent, d.trace, command),
                 Sends(d.config, d.kpersistent, d.trace, command), sending)
  {
  }

  lemma CheckAuth1Does(d: Device, a: Auth1Data)
    requires Stands(d) && IsAuth0(Stage(d.trace))
    ensures var (d1, error) := CheckAuth1(d, a);
            var objection := Auth1Objection(d.trace, a);
            && d1.mailbox == d.mailbox && d1.log == d.log && d1.config == d.config && d1.phase == d.phase
            && (if objection.Some? then
                  error.Some? && !error.value.TimeoutError? && Fate(d.config, error.value) == objection.value
                else
                  && error.None? && d1.session.Some? && d1.session.value.sub == NamedReader(d.trace)
                  && d1.trace == d.trace + CertificateEvents(a))
  {
    if a.certificate.Some? {
      CertificateKeeps(d, a.certificate.value);
    }
  }

  lemma KeysDo(env: Env, d: Device, a: Auth1Data, sending: Option<Error>)
    requires d.session.Some?
    ensures var (d', error) := KeysAfterAuth1(env, d, a, sending);
            && d'.mailbox == d.mailbox && d'.log == d.log && d'.config == d.config && d'.phase == d.phase
            && (if !a.groupKeyFound then error == Some(KeyLookupFailed)
                else if d.config.IsBle() && !d.config.bleLink then error == Some(AccessProtocolError)
                else
                  error == sending && d'.session.Some? && d'.trace == d.trace + [Stored(d.session.value.sub)])
  {
  }

  lemma Auth1Does(env: Env, d: Device, a: Auth1Data, sending: Option<Error>)
    requires Stands(d)
    ensures var outcome := OutcomeOf(d.config, d.kpersistent, d.trace, Auth1(a));
            Does(d, HandleAuth1(env, d, a, sending), outcome, outcome.Serves?, sending)
  {
    if IsAuth0(Stage(d.trace)) {
      CheckAuth1Does(d, a);
      var (d1, error) := CheckAuth1(d, a);
      if error.None? {
        var sub := d1.session.value.sub;
        KeysDo(env, Record(d1, Auth1Verified(sub)), a, sending);
        assert d1.trace + [Auth1Verified(sub)] + [Stored(sub)]
            == d.trace + (CertificateEvents(a) + [Auth1Verified(sub), Stored(sub)]);
      }
    }
  }

  lemma DispatchDoes(env: Env, d: Device, p: Parsed, sending: Option<Error>)
    requires Stands(d) && OfHandshake(p.command)
    ensures Does(d, Dispatch(env, d, p, sending), OutcomeOf(d.config, d.kpersistent, d.trace, p.command),
                 Sends(d.config, d.kpersistent, d.trace, p.command), sending)
  {
    match p.command
    case Select(aid, _) => SelectDoes(d, aid, sending);
    case Auth0(a) => Auth0Does(d, a, sending);
    case LoadCert(outcome, found) => LoadCertDoes(d, outcome, found, sending);
    case Auth1(a) => Auth1Does(env, d, a, sending);
  }

  lemma DoesLead(d: Device, r: (Device, Option<Error>), command: Command, outcome: Outcome, sends: bool,
                 sending: Option<Error>)
    requires Live(d) && Does(d, r, outcome, sends, sending) && !command.ControlFlow?
    ensures Leads(d, AfterCommand(r.0, command, r.1),
                  if sends && sending.Some? then SendingFate(d.config, command, sending.value) else outcome)
  {
  }

  /** In a single transaction an open atomic session lets nothing but an EXCHANGE through. */
  predicate Blocked(d: Device) {
    d.config.mode.SingleTransaction? && d.log.started
  }

  /** What the loop makes of a command of the handshake, with what sending its answer raises. */
  function LoopOutcome(d: Device, keys: set<SubId>, command: Command, sending: Option<Error>): Outcome
    requires OfHandshake(command)
  {
    if Blocked(d) then Refuses
    else if sending.Some? && Sends(d.config, keys, d.trace, command) then
      SendingFate(d.config, command, sending.value)
    else OutcomeOf(d.config, keys, d.trace, command)
  }

  lemma LoopLeads(env: Env, d: Device, command: Command, sending: Option<Error>)
    requires Stands(d) && d.phase.Looping? && OfHandshake(command)
    ensures Leads(d, LoopCommand(env, d, command, None, sending), LoopOutcome(d, d.kpersistent, command, sending))
  {
    var p := Parsed(command, None);
    assert WaitForCommand(env, d, command, None) == (d, Ok(p));
    ParsedLeads(env, d, command, p, sending);
  }

  lemma ParsedLeads(env: Env, d: Device, command: Command, p: Parsed, sending: Option<Error>)
    requires Stands(d) && d.phase.Looping? && OfHandshake(command) && p.command == command
    ensures Leads(d, LoopParsed(env, d, command, p, sending), LoopOutcome(d, d.kpersistent, command, sending))
  {
    DispatchDoes(env, d, p, sending);
    DoesLead(d, Dispatch(env, d, p, sending), command, OutcomeOf(d.config, d.kpersistent, d.trace, command),
             Sends(d.config, d.kpersistent, d.trace, command), sending);
  }

  /**
   * After any run: what a SELECT, AUTH0, LOAD CERT or AUTH1 leads to depends on the command and on what the run has
   * recorded, and on nothing else: it is served, and that and no more is recorded; or the session ends; or the loop is
   * left with an error.
   */
  lemma HandshakeServed(config: Config, mailbox: Option<Box>, known: set<SubId>, env: Env, inputs: seq<Input>,
                        command: Command, sending: Option<Error>)
    requires OfHandshake(command)
    ensures var d := RunDevice(env, StartDevice(config, mailbox, known), inputs);
            var d' := Step(env, d, Received(command, None, sending));
            && d.config == config
            && (Live(d) ==> Leads(d, d', LoopOutcome(d, known + StoredIn(d.trace), command, sending)))
  {
    var d := RunDevice(env, StartDevice(config, mailbox, known), inputs);
    EveryRunInOrder(config, mailbox, known, env, inputs);
    EveryRunIsSafe(config, mailbox, known, env, inputs);
    if Live(d) {
      LoopLeads(env, d, command, sending);
    }
  }
}
