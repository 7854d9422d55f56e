/** What every run of the User Device lets happen only behind a verified signature or a stored persistent key. */
module UserSafety {
  import opened Basics
  import opened Encryption
  import opened MailboxStore
  import opened MailboxExchange
  import opened UserMachine

  // ---------------------------------------------------------------- authentication

  /** Since the session started, the latest AUTH0 took the fast path or was followed by a verified signature. */
  predicate Authenticated(trace: seq<Event>)
  {
    trace != [] &&
    var last, before := trace[|trace| - 1], trace[..|trace| - 1];
    if last.Auth0Fast? || last.Auth1Verified? then true
    else if last.Started? || last.Auth0Standard? then false
    else Authenticated(before)
  }

  /** A reader signature was verified since the session started. */
  predicate SignatureSeen(trace: seq<Event>)
  {
    trace != [] &&
    var last, before := trace[|trace| - 1], trace[..|trace| - 1];
    last.Auth1Verified? || (!last.Started? && SignatureSeen(before))
  }

  lemma {:induction false} AuthenticatedMeans(trace: seq<Event>)
    ensures Authenticated(trace) <==>
            exists j :: 0 <= j < |trace| && (trace[j].Auth0Fast? || trace[j].Auth1Verified?)
                        && forall k :: j < k < |trace| ==> !trace[k].Started? && !trace[k].Auth0Standard?
  {
    if trace != [] {
      var n := |trace| - 1;
      AuthenticatedMeans(trace[..n]);
      if Authenticated(trace) {
        if trace[n].Auth0Fast? || trace[n].Auth1Verified? {
          assert trace[n] == trace[|trace| - 1];
        } else {
          var j :| 0 <= j < n && (trace[..n][j].Auth0Fast? || trace[..n][j].Auth1Verified?)
                   && forall k :: j < k < n ==> !trace[..n][k].Started? && !trace[..n][k].Auth0Standard?;
          forall k | j < k < |trace| ensures !trace[k].Started? && !trace[k].Auth0Standard? {
            assert k < n ==> trace[..n][k] == trace[k];
          }
          assert trace[j] == trace[..n][j];
        }
      }
      if j :| 0 <= j < n && (trace[j].Auth0Fast? || trace[j].Auth1Verified?)
              && forall k :: j < k < |trace| ==> !trace[k].Started? && !trace[k].Auth0Standard? {
        assert trace[..n][j] == trace[j];
        assert forall k :: j < k < n ==> trace[..n][k] == trace[k];
      }
    }
  }

  lemma {:induction false} SignatureSeenMeans(trace: seq<Event>)
    ensures SignatureSeen(trace) <==>
            exists j :: 0 <= j < |trace| && trace[j].Auth1Verified?
              && forall k :: j < k < |trace| ==> !trace[k].Started?
  {
    if trace != [] {
      var n := |trace| - 1;
      SignatureSeenMeans(trace[..n]);
      if SignatureSeen(trace) && !trace[n].Auth1Verified? {
        var j :| 0 <= j < n && trace[..n][j].Auth1Verified? && forall k :: j < k < n ==> !trace[..n][k].Started?;
        forall k | j < k < |trace| ensures !trace[k].Started? {
          assert k < n ==> trace[..n][k] == trace[k];
        }
        assert trace[j] == trace[..n][j];
      }
      if j :| 0 <= j < n && trace[j].Auth1Verified? && forall k :: j < k < |trace| ==> !trace[k].Started? {
        assert trace[..n][j] == trace[j];
        assert forall k :: j < k < n ==> trace[..n][k] == trace[k];
      }
    }
  }

  /** The readers whose persistent key the trace stored. */
  function StoredIn(trace: seq<Event>): set<SubId>
  {
    if trace == [] then {}
    else
      var last := trace[|trace| - 1];
      StoredIn(trace[..|trace| - 1]) + if last.Stored? then {last.sub} else {}
  }

  /** What has to come before an event. A persistent key is stored right behind the verified signature of its reader. */
  predicate Justified(known: set<SubId>, before: seq<Event>, e: Event) {
    match e
    case ExchangeAnswered => Authenticated(before)
    case ExchangeRefused => Authenticated(before)
    case EnvelopeAnswered => SignatureSeen(before)
    case Auth0Fast(sub) => sub in known + StoredIn(before)
    case Stored(sub) => before != [] && before[|before| - 1] == Auth1Verified(sub)
    case _ => true
  }

  predicate TraceSafe(known: set<SubId>, trace: seq<Event>)
  {
    trace == [] ||
    (TraceSafe(known, trace[..|trace| - 1])
     && Justified(known, trace[..|trace| - 1], trace[|trace| - 1]))
  }

  predicate Safe(known: set<SubId>, d: Device) {
    && TraceSafe(known, d.trace)
    && d.kpersistent == known + StoredIn(d.trace)
    && (d.session.Some? ==>
          && (ExchangeAllowed(d.session.value.state) ==> Authenticated(d.trace))
          && (d.session.value.stepup.Some? ==> SignatureSeen(d.trace)))
  }

  lemma RecordLaw(d: Device, e: Event)
    ensures var t := Record(d, e).trace; t != [] && t[|t| - 1] == e && t[..|t| - 1] == d.trace
  {
  }

  lemma WaitSafe(known: set<SubId>, env: Env, d: Device, command: Command, fault: Option<Error>)
    requires d.session.Some? && Safe(known, d)
    ensures Safe(known, WaitForCommand(env, d, command, fault).0)
  {
  }

  lemma SelectSafe(known: set<SubId>, d: Device, aid: Aid, sending: Option<Error>)
    requires d.session.Some? && Safe(known, d)
    ensures Safe(known, HandleSelect(d, aid, sending).0)
  {
  }

  lemma CheckAuth0Safe(known: set<SubId>, d: Device, a: Auth0Data)
    requires d.session.Some? && Safe(known, d)
    ensures Safe(known, CheckAuth0(d, a).0)
  {
  }

  lemma ChooseSafe(known: set<SubId>, d: Device, a: Auth0Data, sending: Option<Error>)
    requires d.session.Some? && Safe(known, d)
    ensures Safe(known, ChooseTransaction(d, a, sending).0)
  {
    RecordLaw(WithState(d, AUTH0_STD_DONE), Auth0Standard(a.sub));
    RecordLaw(d, Auth0Fast(a.sub));
  }

  lemma Auth0Safe(known: set<SubId>, d: Device, a: Auth0Data, sending: Option<Error>)
    requires d.session.Some? && Safe(known, d)
    ensures Safe(known, HandleAuth0(d, a, sending).0)
  {
    CheckAuth0Safe(known, d, a);
    if CheckAuth0(d, a).1.None? {
      ChooseSafe(known, CheckAuth0(d, a).0, a, sending);
    }
  }

  lemma LoadCertSafe(known: set<SubId>, d: Device, outcome: CertOutcome, found: bool, sending: Option<Error>)
    requires d.session.Some? && Safe(known, d)
    ensures Safe(known, HandleLoadCert(d, outcome, found, sending).0)
  {
    CertificateSafe(known, d, outcome);
  }

  lemma AnswerSafe(known: set<SubId>, env: Env, d: Device, choice: Choice, payload: seq<byte>, sending: Option<Error>)
    requires d.session.Some? && Safe(known, d)
    ensures var (d', e) := Answer(env, d, choice, payload, sending);
            && Safe(known, d') && d' == d.(session := d'.session, answer := d'.answer) && d'.session.Some?
            && d'.session.value.state == d.session.value.state
            && (d'.session.value.stepup.Some? <==> d.session.value.stepup.Some?)
            && (e.None? ==> EngineOf(d.session.value, choice).Some?)
  {
  }

  lemma CheckAuth1Safe(known: set<SubId>, d: Device, a: Auth1Data)
    requires d.session.Some? && Safe(known, d)
    ensures Safe(known, CheckAuth1(d, a).0)
  {
    if a.certificate.Some? {
      CertificateSafe(known, d, a.certificate.value);
    }
  }

  lemma CertificateSafe(known: set<SubId>, d: Device, outcome: CertOutcome)
    requires d.session.Some? && Safe(known, d)
    ensures Safe(known, TakeCertificate(d, outcome))
  {
    RecordLaw(d.(session := Some(WithCert(d.session.value, outcome))), Certificate(outcome));
  }

  lemma VerifiedSafe(known: set<SubId>, d: Device)
    requires d.session.Some? && Safe(known, d)
    ensures var e := Auth1Verified(d.session.value.sub);
            var d' := Record(d, e);
            Safe(known, d') && d'.trace != [] && d'.trace[|d'.trace| - 1] == e
  {
    RecordLaw(d, Auth1Verified(d.session.value.sub));
  }

  lemma Auth1Safe(known: set<SubId>, env: Env, d: Device, a: Auth1Data, sending: Option<Error>)
    requires d.session.Some? && Safe(known, d)
    ensures Safe(known, HandleAuth1(env, d, a, sending).0)
  {
    CheckAuth1Safe(known, d, a);
    var (d1, error) := CheckAuth1(d, a);
    if error.None? {
      VerifiedSafe(known, d1);
      KeysSafe(known, env, Record(d1, Auth1Verified(d1.session.value.sub)), a, sending);
    }
  }

  lemma KeysSafe(known: set<SubId>, env: Env, d: Device, a: Auth1Data, sending: Option<Error>)
    requires d.session.Some? && Safe(known, d)
    requires d.trace != [] && d.trace[|d.trace| - 1] == Auth1Verified(d.session.value.sub)
    ensures Safe(known, KeysAfterAuth1(env, d, a, sending).0)
  {
    if a.groupKeyFound && !(d.config.IsBle() && !d.config.bleLink) {
      var d1, sub := WithEngines(d, a), d.session.value.sub;
      var d2 := Record(d1.(kpersistent := d1.kpersistent + {sub}), Stored(sub));
      RecordLaw(d1.(kpersistent := d1.kpersistent + {sub}), Stored(sub));
      assert Safe(known, WithState(d2, AUTH1_DONE));
      AnswerSafe(known, env, WithState(d2, AUTH1_DONE), UseExpedited, a.response, sending);
    }
  }

  lemma AnsweredSafe(known: set<SubId>, r: (Device, Option<Error>), e: Event)
    requires Safe(known, r.0) && (r.1.None? ==> Justified(known, r.0.trace, e))
             && (e.ExchangeAnswered? || e.ExchangeRefused? || e.EnvelopeAnswered?)
    ensures Safe(known, Answered(r, e).0)
  {
    RecordLaw(r.0, e);
  }

  lemma MailboxSafe(known: set<SubId>, env: Env, d: Device, choice: Choice, r: Requests, sending: Option<Error>)
    requires d.session.Some? && Safe(known, d) && Authenticated(d.trace)
    ensures Safe(known, HandleMailbox(env, d, choice, r, sending).0)
  {
    if d.mailbox.None? {
      AnswerSafe(known, env, d, choice, EXCHANGE_SUCCESS, sending);
      AnsweredSafe(known, Answer(env, d, choice, EXCHANGE_SUCCESS, sending), ExchangeAnswered);
    } else {
      var payload := Framed(ReadAll(d.mailbox.value, r.readRequests)) + EXCHANGE_SUCCESS;
      var (store, error) := Perform(Store(d.mailbox.value, d.log), r);
      var d1 := d.(mailbox := Some(store.box), log := store.session);
      if error.None? {
        AnswerSafe(known, env, d1, choice, payload, sending);
        AnsweredSafe(known, Answer(env, d1, choice, payload, sending), ExchangeAnswered);
      }
    }
  }

  lemma PrepareSafe(known: set<SubId>, d: Device, content: Content)
    requires d.session.Some? && Safe(known, d) && Authenticated(d.trace)
    ensures Safe(known, Prepare(d, content).0) && Authenticated(Prepare(d, content).0.trace)
  {
  }

  lemma ServeSafe(known: set<SubId>, env: Env, d: Device, choice: Choice, content: Content, sending: Option<Error>)
    requires d.session.Some? && Safe(known, d) && Authenticated(d.trace)
    ensures Safe(known, Serve(env, d, choice, content, sending).0)
  {
    match Check(d.mailbox, content.requests)
    case Refused(_) => ErrorSafe(known, env, d, choice, sending);
    case Accepted => MailboxSafe(known, env, d, choice, content.requests, sending);
  }

  lemma ErrorSafe(known: set<SubId>, env: Env, d: Device, choice: Choice, sending: Option<Error>)
    requires d.session.Some? && Safe(known, d) && Authenticated(d.trace)
    ensures Safe(known, AnswerError(env, d, choice, sending).0)
  {
    AnswerSafe(known, env, d, choice, EXCHANGE_ERROR, sending);
    AnsweredSafe(known, Answer(env, d, choice, EXCHANGE_ERROR, sending), ExchangeRefused);
  }

  lemma ContentSafe(known: set<SubId>, env: Env, d: Device, choice: Choice, content: Content, sending: Option<Error>)
    requires d.session.Some? && Safe(known, d) && Authenticated(d.trace)
    ensures Safe(known, HandleContent(env, d, choice, content, sending).0)
  {
    PrepareSafe(known, d, content);
    ServeSafe(known, env, Prepare(d, content).0, choice, content, sending);
  }

  lemma ExchangeSafe(known: set<SubId>, env: Env, d: Device, content: Option<Content>, sending: Option<Error>)
    requires d.session.Some? && Safe(known, d)
    ensures Safe(known, HandleExchange(env, d, content, sending).0)
  {
    var state := d.session.value.state;
    if ExchangeAllowed(state) {
      var choice := AnswerChoice(state);
      var d1 := Entered(d);
      assert Safe(known, d1);
      if content.Some? {
        ContentSafe(known, env, d1, choice, content.value, sending);
      }
    }
  }

  lemma EnvelopeSafe(known: set<SubId>, env: Env, d: Device, document: seq<byte>, sending: Option<Error>)
    requires d.session.Some? && Safe(known, d)
    ensures Safe(known, HandleEnvelope(env, d, document, sending).0)
  {
    if EnvelopeAllowed(d.session.value.state) {
      AnswerSafe(known, env, d, UseStepUp, document, sending);
      var r := Answer(env, d, UseStepUp, document, sending);
      AnsweredSafe(known, r, EnvelopeAnswered);
      assert Authenticated(d.trace);
      RecordLaw(r.0, EnvelopeAnswered);
    }
  }

  lemma DispatchSafe(known: set<SubId>, env: Env, d: Device, p: Parsed, sending: Option<Error>)
    requires d.session.Some? && Safe(known, d)
    ensures Safe(known, Dispatch(env, d, p, sending).0)
  {
    match p.command
    case Select(aid, _) => SelectSafe(known, d, aid, sending);
    case Auth0(a) => Auth0Safe(known, d, a, sending);
    case LoadCert(outcome, found) => LoadCertSafe(known, d, outcome, found, sending);
    case Auth1(a) => Auth1Safe(known, env, d, a, sending);
    case Exchange(_) => ExchangeSafe(known, env, d, p.content, sending);
    case Envelope(_, document) => EnvelopeSafe(known, env, d, document, sending);
    case _ =>
  }

  lemma RestartSafe(known: set<SubId>, d: Device)
    requires Safe(known, d)
    ensures Safe(known, Restart(d))
  {
    RecordLaw(d.(session := Some(NewSession()), phase := if d.config.IsBle() then Looping else Initiating), Started);
  }

  /** Ends of a round that neither record anything nor touch a session that stays. */
  lemma QuietEndsSafe(known: set<SubId>, d: Device, raised: Option<Error>)
    requires Safe(known, d)
    ensures Safe(known, Stop(d, raised)) && Safe(known, FailureProcess(d)) && Safe(known, GoOn(d))
    ensures Safe(known, Stop(FailureProcess(d), raised)) && Safe(known, d.(phase := Looping))
  {
  }

  lemma AfterSafe(known: set<SubId>, d: Device, e: Error, error: Option<Error>)
    requires Safe(known, d)
    ensures Safe(known, AfterWait(d, e)) && Safe(known, AfterHandler(d, error))
  {
    QuietEndsSafe(known, d, Some(e));
    QuietEndsSafe(known, d, error);
    QuietEndsSafe(known, d, None);
    RestartSafe(known, d);
    RestartSafe(known, FailureProcess(d));
  }

  lemma LoopCommandSafe(known: set<SubId>, env: Env, d: Device, command: Command, fault: Option<Error>,
                        sending: Option<Error>)
    requires d.session.Some? && Safe(known, d)
    ensures Safe(known, LoopCommand(env, d, command, fault, sending))
  {
    WaitSafe(known, env, d, command, fault);
    var (d1, parsed) := WaitForCommand(env, d, command, fault);
    if parsed.Err? {
      AfterSafe(known, d1, parsed.error, None);
    } else {
      QuietEndsSafe(known, d1, None);
      DispatchSafe(known, env, d1, parsed.value, sending);
      var (d2, error) := Dispatch(env, d1, parsed.value, sending);
      AfterSafe(known, d2, AccessProtocolError, error);
      QuietEndsSafe(known, d2, None);
      RestartSafe(known, d2.(session := None));
    }
  }

  lemma FirstCommandSafe(known: set<SubId>, env: Env, d: Device, command: Command, fault: Option<Error>,
                         sending: Option<Error>)
    requires d.session.Some? && Safe(known, d)
    ensures Safe(known, FirstCommand(env, d, command, fault, sending))
  {
    WaitSafe(known, env, d, command, fault);
    var (d1, parsed) := WaitForCommand(env, d, command, fault);
    if parsed.Err? {
      FirstRaisedSafe(known, d1, parsed.error);
    } else {
      FirstParsedSafe(known, d1, command, sending);
    }
  }

  lemma FirstRaisedSafe(known: set<SubId>, d: Device, e: Error)
    requires Safe(known, d)
    ensures Safe(known, FirstRaised(d, e))
  {
  }

  lemma FirstParsedSafe(known: set<SubId>, d: Device, command: Command, sending: Option<Error>)
    requires d.session.Some? && Safe(known, d)
    ensures Safe(known, FirstParsed(d, command, sending))
  {
    if command.Select? {
      SelectSafe(known, d, command.aid, sending);
    }
  }

  lemma BleSafe(known: set<SubId>, d: Device, apc: bool, completed: bool, raised: Option<Error>)
    requires d.session.Some? && Safe(known, d)
    ensures Safe(known, BleMessage(d, apc, completed, raised))
  {
    var moved := WithState(d, BLE_READER_STATUS_AP_COMPLETED);
    RecordLaw(moved, ProtocolCompleted);
    assert Safe(known, Record(moved, ProtocolCompleted));
    AfterSafe(known, if apc then Record(moved, ProtocolCompleted) else d, AccessProtocolError, raised);
  }

  lemma StepSafe(known: set<SubId>, env: Env, d: Device, input: Input)
    requires Safe(known, d)
    ensures Safe(known, Step(env, d, input))
  {
    if !d.phase.Stopped? && d.session.Some? {
      match input
      case NotReceived(e) => AfterSafe(known, d, e, None);
      case Busy =>
      case Ble(apc, completed, raised) => BleSafe(known, d, apc, completed, raised);
      case Received(command, fault, sending) =>
        LoopCommandSafe(known, env, d, command, fault, sending);
        FirstCommandSafe(known, env, d, command, fault, sending);
    }
  }

  lemma StartSafe(config: Config, mailbox: Option<Box>, known: set<SubId>)
    ensures Safe(known, StartDevice(config, mailbox, known))
  {
    RestartSafe(known, Device(config, None, mailbox, Session([], false), known, None, Looping, []));
  }

  lemma {:induction false} EveryRunIsSafe(config: Config, mailbox: Option<Box>, known: set<SubId>, env: Env,
                                          inputs: seq<Input>)
    ensures Safe(known, RunDevice(env, StartDevice(config, mailbox, known), inputs))
  {
    if inputs == [] {
      StartSafe(config, mailbox, known);
    } else {
      EveryRunIsSafe(config, mailbox, known, env, inputs[..|inputs| - 1]);
      StepSafe(known, env, RunDevice(env, StartDevice(config, mailbox, known), inputs[..|inputs| - 1]),
               inputs[|inputs| - 1]);
    }
  }

  lemma {:induction false} TraceSafeAt(known: set<SubId>, trace: seq<Event>, i: nat)
    requires TraceSafe(known, trace) && i < |trace|
    ensures Justified(known, trace[..i], trace[i])
  {
    var n := |trace| - 1;
    if i < n {
      TraceSafeAt(known, trace[..n], i);
      assert trace[..n][..i] == trace[..i];
    }
  }

  /**
   * In every run, on every transport and in both loops: an EXCHANGE is answered, with its data or with the error
   * payload of a refused request, only while the session is authenticated, an ENVELOPE only if a signature was verified
   * in the session, and the fast path is taken only with a persistent key that was known at the start or stored behind
   * a verified signature of the same reader.
   */
  lemma AuthenticatedStateSafety(config: Config, mailbox: Option<Box>, known: set<SubId>, env: Env, inputs: seq<Input>,
                                 i: nat)
    requires i < |RunDevice(env, StartDevice(config, mailbox, known), inputs).trace|
    ensures var trace := RunDevice(env, StartDevice(config, mailbox, known), inputs).trace;
            Justified(known, trace[..i], trace[i])
  {
    EveryRunIsSafe(config, mailbox, known, env, inputs);
    TraceSafeAt(known, RunDevice(env, StartDevice(config, mailbox, known), inputs).trace, i);
  }

  // ---------------------------------------------------------------- changes, whether or not they are recorded

  predicate SameStoreAndAnswer(d: Device, d': Device) {
    d'.mailbox == d.mailbox && d'.log == d.log && d'.answer == d.answer
  }

  predicate NewlyVerified(trace: seq<Event>, trace': seq<Event>) {
    exists i :: |trace| <= i < |trace'| && trace'[i].Auth1Verified?
  }

  /**
   * Mailbox and log change only by an EXCHANGE in an authenticated session. An answer is sealed only there, for an
   * ENVELOPE behind a verified signature, and for an AUTH1 whose own signature has just been verified.
   */
  predicate ChangesAllowed(d: Device, d': Device, command: Command) {
    match command
    case Exchange(_) => SameStoreAndAnswer(d, d') || Authenticated(d.trace)
    case Envelope(_, _) =>
      && SameStoreAndAnswer(d, d'.(answer := d.answer))
      && (d'.answer == d.answer || SignatureSeen(d.trace))
    case Auth1(_) =>
      && SameStoreAndAnswer(d, d'.(answer := d.answer))
      && (d'.answer == d.answer || NewlyVerified(d.trace, d'.trace))
    case _ => SameStoreAndAnswer(d, d')
  }

  lemma WaitChangesNothing(env: Env, d: Device, command: Command, fault: Option<Error>)
    requires d.session.Some?
    ensures var (d', parsed) := WaitForCommand(env, d, command, fault);
            SameStoreAndAnswer(d, d') && d'.trace == d.trace && (parsed.Ok? ==> parsed.value.command == command)
  {
  }

  lemma Auth1Changes(env: Env, d: Device, a: Auth1Data, sending: Option<Error>)
    requires d.session.Some?
    ensures ChangesAllowed(d, HandleAuth1(env, d, a, sending).0, Auth1(a))
  {
    var (d1, error) := CheckAuth1(d, a);
    if error.None? {
      var d2 := Record(d1, Auth1Verified(d1.session.value.sub));
      assert d2.trace[|d1.trace|].Auth1Verified? && |d.trace| <= |d1.trace|;
      KeysChange(env, d2, a, sending);
    }
  }

  lemma KeysChange(env: Env, d: Device, a: Auth1Data, sending: Option<Error>)
    requires d.session.Some?
    ensures var d' := KeysAfterAuth1(env, d, a, sending).0;
            SameStoreAndAnswer(d, d'.(answer := d.answer)) && d.trace <= d'.trace
  {
  }

  lemma EnvelopeChanges(known: set<SubId>, env: Env, d: Device, packet: Sealed, document: seq<byte>,
                        sending: Option<Error>)
    requires d.session.Some? && Safe(known, d)
    ensures ChangesAllowed(d, HandleEnvelope(env, d, document, sending).0, Envelope(packet, document))
  {
  }

  lemma DispatchChanges(known: set<SubId>, env: Env, d: Device, p: Parsed, sending: Option<Error>)
    requires d.session.Some? && Safe(known, d)
    ensures ChangesAllowed(d, Dispatch(env, d, p, sending).0, p.command)
  {
    match p.command
    case Exchange(_) => assert ExchangeAllowed(d.session.value.state) ==> Authenticated(d.trace);
    case Envelope(packet, document) => EnvelopeChanges(known, env, d, packet, document, sending);
    case Auth1(a) => Auth1Changes(env, d, a, sending);
    case _ =>
  }

  /** Nothing changes but that a new session may be recorded. */
  predicate Quiet(d: Device, d': Device) {
    SameStoreAndAnswer(d, d') && d.trace <= d'.trace
  }

  lemma RestartIsQuiet(d: Device)
    ensures Quiet(d, Restart(d)) && Quiet(d, Restart(FailureProcess(d))) && Quiet(d, Restart(d.(session := None)))
  {
  }

  /** What the loops do behind a wait or a handler. */
  lemma WaitEndsQuietly(d: Device, e: Error)
    ensures Quiet(d, AfterWait(d, e))
  {
    RestartIsQuiet(d);
  }

  lemma HandlerEndsQuietly(d: Device, error: Option<Error>)
    ensures Quiet(d, AfterHandler(d, error))
  {
    RestartIsQuiet(d);
  }

  lemma CommandEndsQuietly(d: Device, command: Command, error: Option<Error>)
    ensures Quiet(d, AfterCommand(d, command, error))
  {
    RestartIsQuiet(d);
    HandlerEndsQuietly(d, error);
  }

  lemma AllowedThrough(d: Device, d1: Device, d2: Device, d': Device, command: Command)
    requires SameStoreAndAnswer(d, d1) && d1.trace == d.trace && ChangesAllowed(d1, d2, command)
    requires Quiet(d2, d')
    ensures ChangesAllowed(d, d', command)
  {
  }

  lemma LoopChanges(known: set<SubId>, env: Env, d: Device, command: Command, fault: Option<Error>,
                    sending: Option<Error>)
    requires d.session.Some? && Safe(known, d)
    ensures ChangesAllowed(d, LoopCommand(env, d, command, fault, sending), command)
  {
    WaitSafe(known, env, d, command, fault);
    WaitChangesNothing(env, d, command, fault);
    var (d1, parsed) := WaitForCommand(env, d, command, fault);
    if parsed.Err? {
      WaitEndsQuietly(d1, parsed.error);
    } else {
      ParsedChanges(known, env, d1, command, parsed.value, sending);
    }
  }

  lemma ParsedChanges(known: set<SubId>, env: Env, d: Device, command: Command, p: Parsed, sending: Option<Error>)
    requires d.session.Some? && Safe(known, d) && p.command == command
    ensures ChangesAllowed(d, LoopParsed(env, d, command, p, sending), command)
  {
    DispatchChanges(known, env, d, p, sending);
    var (d2, error) := Dispatch(env, d, p, sending);
    CommandEndsQuietly(d2, command, error);
    AllowedThrough(d, d, d2, AfterCommand(d2, command, error), command);
  }

  lemma FirstChanges(env: Env, d: Device, command: Command, fault: Option<Error>, sending: Option<Error>)
    requires d.session.Some?
    ensures SameStoreAndAnswer(d, FirstCommand(env, d, command, fault, sending))
  {
    WaitChangesNothing(env, d, command, fault);
  }

  lemma StepChanges(known: set<SubId>, env: Env, d: Device, input: Input)
    requires Safe(known, d)
    ensures if input.Received? then ChangesAllowed(d, Step(env, d, input), input.command)
            else SameStoreAndAnswer(d, Step(env, d, input))
  {
    if !d.phase.Stopped? && d.session.Some? && input.Received? {
      if d.phase.Looping? {
        LoopChanges(known, env, d, input.command, input.fault, input.sending);
      } else {
        FirstChanges(env, d, input.command, input.fault, input.sending);
      }
    }
  }

  /**
   * One more input after any run, whatever is raised while an answer is sent: what it changes is allowed where it
   * stands, and an input that is no command changes neither mailbox nor log nor answer.
   */
  lemma ChangesAreAuthenticated(config: Config, mailbox: Option<Box>, known: set<SubId>, env: Env, inputs: seq<Input>,
                                input: Input)
    ensures var d := RunDevice(env, StartDevice(config, mailbox, known), inputs);
            var d' := Step(env, d, input);
            if input.Received? then ChangesAllowed(d, d', input.command) else SameStoreAndAnswer(d, d')
  {
    EveryRunIsSafe(config, mailbox, known, env, inputs);
    StepChanges(known, env, RunDevice(env, StartDevice(config, mailbox, known), inputs), input);
  }
}
