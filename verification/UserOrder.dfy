/**
 * In which order the User Device takes commands, said by what has happened so far: the trace of a run alone decides
 * what each command of the handshake leads to, and a command out of order ends the session.
 */
module UserOrder {
  import opened Basics
  import opened MailboxStore
  import opened MailboxExchange
  import opened UserMachine

  // ---------------------------------------------------------------- what a trace says

  predicate IsStage(e: Event) {
    !e.Certificate? && !e.Stored? && !e.ExchangeAnswered? && !e.ExchangeRefused?
  }

  /** The latest event that decides what may come next. */
  function Stage(trace: seq<Event>): Event
  {
    if trace == [] then Started
    else
      var last := trace[|trace| - 1];
      if IsStage(last) then last else Stage(trace[..|trace| - 1])
  }

  /** The latest certificate of the session. */
  function LatestCertificate(trace: seq<Event>): Option<CertOutcome>
  {
    if trace == [] then None
    else
      match trace[|trace| - 1]
      case Started => None
      case Certificate(outcome) => Some(outcome)
      case _ => LatestCertificate(trace[..|trace| - 1])
  }

  /** The reader that the latest AUTH0 of the session named. */
  function NamedReader(trace: seq<Event>): SubId
  {
    if trace == [] then []
    else
      match trace[|trace| - 1]
      case Started => []
      case Auth0Standard(sub) => sub
      case Auth0Fast(sub) => sub
      case _ => NamedReader(trace[..|trace| - 1])
  }

  predicate IsAuth0(e: Event) {
    e.Auth0Standard? || e.Auth0Fast?
  }

  /** The certificate does not stand in the way of AUTH1. */
  predicate Passes(certificate: Option<CertOutcome>) {
    certificate.None? || certificate == Some(Verified)
  }

  /** Behind a standard AUTH1 and before the step-up phase is entered. */
  predicate MaySelectStepUp(stage: Event) {
    stage.Auth1Verified? || stage == ExchangeEntered(false)
  }

  predicate MayExchangeAt(stage: Event) {
    || stage.Auth0Fast? || stage.Auth1Verified? || stage.ExchangeEntered? || stage.EnvelopeAnswered?
    || stage == Event.Selected(StepUp)
  }

  predicate MayEnvelopeAt(stage: Event) {
    MaySelectStepUp(stage) || stage.EnvelopeAnswered? || stage == Event.Selected(StepUp)
  }

  /** The step-up engine answers. */
  predicate InStepUp(stage: Event) {
    stage.EnvelopeAnswered? || stage == ExchangeEntered(true)
  }

  /** What an event comes behind. */
  predicate Orderly(ble: bool, before: seq<Event>, e: Event) {
    var stage := Stage(before);
    match e
    case Selected(aid) => aid.Expedited? || (aid.StepUp? && MaySelectStepUp(stage))
    case Auth0Standard(_) => ble || stage == Event.Selected(Expedited)
    case Auth0Fast(_) => ble || stage == Event.Selected(Expedited)
    case Certificate(_) => IsAuth0(stage)
    case Auth1Verified(sub) => IsAuth0(stage) && sub == stage.sub && Passes(LatestCertificate(before))
    case Stored(sub) => stage == Auth1Verified(sub)
    case ExchangeEntered(stepup) => MayExchangeAt(stage) && stepup == InStepUp(stage)
    case StatusReported => stage.ExchangeEntered?
    case ExchangeAnswered => stage.ExchangeEntered? || stage.StatusReported?
    case ExchangeRefused => stage.ExchangeEntered? || stage.StatusReported?
    case EnvelopeAnswered => MayEnvelopeAt(stage)
    case Started => true
    case ProtocolCompleted => true
  }

  predicate TraceOrderly(ble: bool, trace: seq<Event>)
  {
    trace == [] ||
    (TraceOrderly(ble, trace[..|trace| - 1]) && Orderly(ble, trace[..|trace| - 1], trace[|trace| - 1]))
  }

  // ---------------------------------------------------------------- the session follows the trace

  function StateAt(stage: Event): SessionState {
    match stage
    case Selected(aid) => if aid.StepUp? then SELECT_STEP_UP_DONE else SELECT_DONE
    case Auth0Standard(_) => AUTH0_STD_DONE
    case Auth0Fast(_) => AUTH0_FAST_DONE
    case Auth1Verified(_) => AUTH1_DONE
    case ExchangeEntered(stepup) => if stepup then STEPUP_EXCHANGE_DONE else EXCHANGE_DONE
    case StatusReported => TRANSACTION_COMPLETE
    case EnvelopeAnswered => ENVELOPE_DONE
    case ProtocolCompleted => BLE_READER_STATUS_AP_COMPLETED
    case _ => SESSION_START
  }

  predicate Follows(s: UserSession, trace: seq<Event>) {
    && s.state == StateAt(Stage(trace))
    && (s.certDecoded == Some(false) || s.certVerified == Some(false) <==> !Passes(LatestCertificate(trace)))
    && s.sub == NamedReader(trace)
  }

  /** A device whose loop goes on has a session that the trace describes. */
  predicate InOrder(config: Config, d: Device) {
    && d.config == config && TraceOrderly(config.IsBle(), d.trace)
    && (!d.phase.Stopped? && d.session.Some? ==> Follows(d.session.value, d.trace))
    && (d.phase.Initiating? ==> Stage(d.trace) == Started)
  }

  lemma Adds(ble: bool, trace: seq<Event>, e: Event)
    requires TraceOrderly(ble, trace) && Orderly(ble, trace, e)
    ensures var longer := trace + [e];
            && TraceOrderly(ble, longer) && Stage(longer) == (if IsStage(e) then e else Stage(trace))
            && LatestCertificate(longer) == (match e
                                             case Started => None
                                             case Certificate(outcome) => Some(outcome)
                                             case _ => LatestCertificate(trace))
            && NamedReader(longer) == (match e
                                       case Started => []
                                       case Auth0Standard(sub) => sub
                                       case Auth0Fast(sub) => sub
                                       case _ => NamedReader(trace))
  {
    var longer := trace + [e];
    assert longer[|longer| - 1] == e && longer[..|longer| - 1] == trace;
  }

  /** What a handler keeps: the trace is orderly, and without an error the session still follows it. */
  predicate Keeps(d: Device, r: (Device, Option<Error>)) {
    && r.0.config == d.config && r.0.phase == d.phase && TraceOrderly(d.config.IsBle(), r.0.trace)
    && (r.1.None? && r.0.session.Some? ==> Follows(r.0.session.value, r.0.trace))
  }

  /** The session follows the trace, and the trace is orderly. */
  predicate Stands(d: Device) {
    d.session.Some? && TraceOrderly(d.config.IsBle(), d.trace) && Follows(d.session.value, d.trace)
  }

  /** A state update that is recorded. */
  lemma MoveKeeps(d: Device, state: SessionState, e: Event)
    requires Stands(d) && Orderly(d.config.IsBle(), d.trace, e) && StateAt(e) == state
    requires IsStage(e) && !e.Started? && !IsAuth0(e)
    ensures var d1 := Record(WithState(d, state), e);
            Stands(d1) && d1.config == d.config && d1.phase == d.phase && Stage(d1.trace) == e
  {
    Adds(d.config.IsBle(), d.trace, e);
  }

  lemma SelectKeeps(d: Device, aid: Aid, sending: Option<Error>)
    requires Stands(d)
    ensures Keeps(d, HandleSelect(d, aid, sending))
  {
    if aid.Expedited? {
      MoveKeeps(d, SELECT_DONE, Event.Selected(aid));
    } else if aid.StepUp? && MaySelectStepUp(Stage(d.trace)) {
      MoveKeeps(d, SELECT_STEP_UP_DONE, Event.Selected(aid));
    }
  }

  lemma CheckAuth0Keeps(d: Device, a: Auth0Data)
    requires Stands(d)
    ensures var (d1, error) := CheckAuth0(d, a);
            && d1.config == d.config && d1.phase == d.phase && d1.trace == d.trace
            && (error.None? ==> d1 == d.(session := Some(d.session.value.(sub := a.sub)))
                                && (d.config.IsBle() || Stage(d.trace) == Event.Selected(Expedited)))
  {
  }

  lemma ChooseKeeps(d: Device, a: Auth0Data, sending: Option<Error>)
    requires d.session.Some? && d.session.value.sub == a.sub
    requires Stands(d.(session := Some(d.session.value.(sub := NamedReader(d.trace)))))
    requires d.config.IsBle() || Stage(d.trace) == Event.Selected(Expedited)
    ensures Keeps(d, ChooseTransaction(d, a, sending))
  {
    Adds(d.config.IsBle(), d.trace, Auth0Standard(a.sub));
    Adds(d.config.IsBle(), d.trace, Auth0Fast(a.sub));
  }

  lemma Auth0Keeps(d: Device, a: Auth0Data, sending: Option<Error>)
    requires Stands(d)
    ensures Keeps(d, HandleAuth0(d, a, sending))
  {
    CheckAuth0Keeps(d, a);
    var (d1, error) := CheckAuth0(d, a);
    if error.None? {
      ChooseKeeps(d1, a, sending);
    }
  }

  lemma CertificateKeeps(d: Device, outcome: CertOutcome)
    requires Stands(d) && IsAuth0(Stage(d.trace))
    ensures var d1 := TakeCertificate(d, outcome);
            && Stands(d1) && d1.config == d.config && d1.phase == d.phase
            && d1.trace == d.trace + [Certificate(outcome)]
            && Stage(d1.trace) == Stage(d.trace) && LatestCertificate(d1.trace) == Some(outcome)
  {
    Adds(d.config.IsBle(), d.trace, Certificate(outcome));
  }

  lemma LoadCertKeeps(d: Device, outcome: CertOutcome, found: bool, sending: Option<Error>)
    requires Stands(d)
    ensures Keeps(d, HandleLoadCert(d, outcome, found, sending))
  {
    if IsAuth0(Stage(d.trace)) {
      CertificateKeeps(d, outcome);
    }
  }

  lemma {:induction false} NamedAtStage(trace: seq<Event>)
    requires IsAuth0(Stage(trace))
    ensures NamedReader(trace) == Stage(trace).sub
  {
    if trace != [] && !IsStage(trace[|trace| - 1]) {
      NamedAtStage(trace[..|trace| - 1]);
    }
  }

  lemma CheckAuth1Keeps(d: Device, a: Auth1Data)
    requires Stands(d)
    ensures var (d1, error) := CheckAuth1(d, a);
            && d1.config == d.config && d1.phase == d.phase && TraceOrderly(d.config.IsBle(), d1.trace)
            && (error.None? ==> Stands(d1) && IsAuth0(Stage(d1.trace)) && Passes(LatestCertificate(d1.trace)))
  {
    if IsAuth0(Stage(d.trace)) && a.certificate.Some? {
      CertificateKeeps(d, a.certificate.value);
    }
  }

  lemma Auth1Keeps(env: Env, d: Device, a: Auth1Data, sending: Option<Error>)
    requires Stands(d)
    ensures Keeps(d, HandleAuth1(env, d, a, sending))
  {
    CheckAuth1Keeps(d, a);
    var (d1, error) := CheckAuth1(d, a);
    if error.None? {
      var e := Auth1Verified(d1.session.value.sub);
      NamedAtStage(d1.trace);
      Adds(d.config.IsBle(), d1.trace, e);
      KeysKeep(env, Record(d1, e), a, sending);
    }
  }

  /** Behind a verified signature, while the state is still that of AUTH0. */
  lemma KeysKeep(env: Env, d: Device, a: Auth1Data, sending: Option<Error>)
    requires d.session.Some? && TraceOrderly(d.config.IsBle(), d.trace)
    requires Stage(d.trace) == Auth1Verified(d.session.value.sub)
    requires Stands(d.(session := Some(d.session.value.(state := AUTH1_DONE))))
    ensures Keeps(d, KeysAfterAuth1(env, d, a, sending))
  {
    Adds(d.config.IsBle(), d.trace, Stored(d.session.value.sub));
  }

  // ---------------------------------------------------------------- exchange and envelope

  lemma AnswerKeeps(env: Env, d: Device, choice: Choice, payload: seq<byte>, sending: Option<Error>)
    requires d.session.Some?
    ensures var (d', error) := Answer(env, d, choice, payload, sending);
            && d' == d.(session := d'.session, answer := d'.answer) && d'.session.Some?
            && d'.session.value.state == d.session.value.state && d'.session.value.sub == d.session.value.sub
            && d'.session.value.certDecoded == d.session.value.certDecoded
            && d'.session.value.certVerified == d.session.value.certVerified
  {
  }

  lemma AnsweredKeeps(env: Env, d: Device, choice: Choice, payload: seq<byte>, sending: Option<Error>, e: Event)
    requires Stands(d) && (e.ExchangeAnswered? || e.ExchangeRefused?)
    requires Stage(d.trace).ExchangeEntered? || Stage(d.trace).StatusReported?
    ensures Keeps(d, Answered(Answer(env, d, choice, payload, sending), e))
  {
    AnswerKeeps(env, d, choice, payload, sending);
    Adds(d.config.IsBle(), d.trace, e);
  }

  /** Behind the state update of an EXCHANGE. */
  predicate Exchanging(d: Device) {
    Stands(d) && (Stage(d.trace).ExchangeEntered? || Stage(d.trace).StatusReported?)
  }

  lemma MailboxKeeps(env: Env, d: Device, choice: Choice, r: Requests, sending: Option<Error>)
    requires Exchanging(d)
    ensures Keeps(d, HandleMailbox(env, d, choice, r, sending))
  {
    if d.mailbox.None? {
      AnsweredKeeps(env, d, choice, EXCHANGE_SUCCESS, sending, ExchangeAnswered);
    } else {
      var payload := Framed(ReadAll(d.mailbox.value, r.readRequests)) + EXCHANGE_SUCCESS;
      var store := Perform(Store(d.mailbox.value, d.log), r).0;
      AnsweredKeeps(env, d.(mailbox := Some(store.box), log := store.session), choice, payload, sending,
                    ExchangeAnswered);
    }
  }

  lemma ServeKeeps(env: Env, d: Device, choice: Choice, content: Content, sending: Option<Error>)
    requires Exchanging(d)
    ensures Keeps(d, Serve(env, d, choice, content, sending))
  {
    match Check(d.mailbox, content.requests)
    case Refused(_) => RefusalKeeps(env, d, choice, sending);
    case Accepted => MailboxKeeps(env, d, choice, content.requests, sending);
  }

  lemma RefusalKeeps(env: Env, d: Device, choice: Choice, sending: Option<Error>)
    requires Exchanging(d)
    ensures Keeps(d, AnswerError(env, d, choice, sending))
  {
    AnsweredKeeps(env, d, choice, EXCHANGE_ERROR, sending, ExchangeRefused);
  }

  lemma PrepareKeeps(d: Device, content: Content)
    requires Stands(d) && Stage(d.trace).ExchangeEntered?
    ensures var d1 := Prepare(d, content).0; Exchanging(d1) && d1.config == d.config && d1.phase == d.phase
  {
    MoveKeeps(d, TRANSACTION_COMPLETE, StatusReported);
    assert TakeStatus(d, content).0 in {d, Record(WithState(d, TRANSACTION_COMPLETE), StatusReported)};
  }

  lemma ContentKeeps(env: Env, d: Device, choice: Choice, content: Content, sending: Option<Error>)
    requires Stands(d) && Stage(d.trace).ExchangeEntered?
    ensures Keeps(d, HandleContent(env, d, choice, content, sending))
  {
    PrepareKeeps(d, content);
    ServeKeeps(env, Prepare(d, content).0, choice, content, sending);
  }

  lemma EnteredKeeps(d: Device)
    requires Stands(d) && MayExchangeAt(Stage(d.trace))
    ensures var d1 := Entered(d);
            Stands(d1) && Stage(d1.trace) == ExchangeEntered(InStepUp(Stage(d.trace))) && d1.config == d.config
            && d1.phase == d.phase && d1.trace == d.trace + [ExchangeEntered(InStepUp(Stage(d.trace)))]
  {
    var stepup := InStepUp(Stage(d.trace));
    MoveKeeps(d, if stepup then STEPUP_EXCHANGE_DONE else EXCHANGE_DONE, ExchangeEntered(stepup));
  }

  lemma EnterKeeps(env: Env, d: Device, content: Option<Content>, sending: Option<Error>)
    requires Stands(d) && MayExchangeAt(Stage(d.trace))
    ensures Keeps(d, EnterExchange(env, d, content, sending))
  {
    EnteredKeeps(d);
    if content.Some? {
      ContentKeeps(env, Entered(d), AnswerChoice(d.session.value.state), content.value, sending);
    }
  }

  lemma ExchangeKeeps(env: Env, d: Device, content: Option<Content>, sending: Option<Error>)
    requires Stands(d)
    ensures Keeps(d, HandleExchange(env, d, content, sending))
  {
    if MayExchangeAt(Stage(d.trace)) {
      EnterKeeps(env, d, content, sending);
    }
  }

  lemma EnvelopeKeeps(env: Env, d: Device, document: seq<byte>, sending: Option<Error>)
    requires Stands(d)
    ensures Keeps(d, HandleEnvelope(env, d, document, sending))
  {
    if MayEnvelopeAt(Stage(d.trace)) {
      AnswerKeeps(env, d, UseStepUp, document, sending);
      Adds(d.config.IsBle(), d.trace, EnvelopeAnswered);
    }
  }

  // ---------------------------------------------------------------- every run

  lemma DispatchKeeps(env: Env, d: Device, p: Parsed, sending: Option<Error>)
    requires Stands(d) && !p.command.ControlFlow?
    ensures Keeps(d, Dispatch(env, d, p, sending))
  {
    match p.command
    case Select(aid, _) => SelectKeeps(d, aid, sending);
    case Auth0(a) => Auth0Keeps(d, a, sending);
    case LoadCert(outcome, found) => LoadCertKeeps(d, outcome, found, sending);
    case Auth1(a) => Auth1Keeps(env, d, a, sending);
    case Exchange(_) => ExchangeKeeps(env, d, p.content, sending);
    case Envelope(_, document) => EnvelopeKeeps(env, d, document, sending);
    case _ =>
  }

  lemma RestartOrder(d: Device)
    requires TraceOrderly(d.config.IsBle(), d.trace)
    ensures InOrder(d.config, Restart(d)) && Restart(d).trace == d.trace + [Started]
  {
    Adds(d.config.IsBle(), d.trace, Started);
  }

  lemma WaitEndsInOrder(d: Device, e: Error)
    requires InOrder(d.config, d)
    ensures InOrder(d.config, AfterWait(d, e))
  {
    RestartOrder(d);
    RestartOrder(FailureProcess(d));
  }

  lemma CommandEndsInOrder(d: Device, r: (Device, Option<Error>), command: Command)
    requires Keeps(d, r) && d.phase.Looping? && !command.ControlFlow?
    ensures InOrder(d.config, AfterCommand(r.0, command, r.1))
  {
    RestartOrder(r.0);
  }

  lemma ControlFlowEndsInOrder(d: Device, error: Option<Error>)
    requires d.session.Some? && d.phase.Looping? && TraceOrderly(d.config.IsBle(), d.trace)
    ensures InOrder(d.config, AfterCommand(WithState(d, SELECT_DONE), ControlFlow, error))
  {
    RestartOrder(WithState(d, SELECT_DONE));
    RestartOrder(WithState(d, SELECT_DONE).(session := None));
  }

  lemma WaitStands(env: Env, d: Device, command: Command, fault: Option<Error>)
    requires Stands(d)
    ensures var (d1, parsed) := WaitForCommand(env, d, command, fault);
            && d1.config == d.config && d1.phase == d.phase && d1.trace == d.trace
            && (d1.session.Some? ==> Stands(d1))
            && (parsed.Ok? ==> d1.session.Some? && parsed.value.command == command)
  {
  }

  lemma ParsedInOrder(env: Env, d: Device, command: Command, p: Parsed, sending: Option<Error>)
    requires Stands(d) && d.phase.Looping? && p.command == command
    ensures InOrder(d.config, LoopParsed(env, d, command, p, sending))
  {
    if command.ControlFlow? {
      ControlFlowEndsInOrder(d, sending);
    } else {
      DispatchKeeps(env, d, p, sending);
      CommandEndsInOrder(d, Dispatch(env, d, p, sending), command);
    }
  }

  lemma LoopInOrder(env: Env, d: Device, command: Command, fault: Option<Error>, sending: Option<Error>)
    requires Stands(d) && d.phase.Looping?
    ensures InOrder(d.config, LoopCommand(env, d, command, fault, sending))
  {
    WaitStands(env, d, command, fault);
    var (d1, parsed) := WaitForCommand(env, d, command, fault);
    if parsed.Err? {
      WaitEndsInOrder(d1, parsed.error);
    } else {
      ParsedInOrder(env, d1, command, parsed.value, sending);
    }
  }

  lemma FirstInOrder(env: Env, d: Device, command: Command, fault: Option<Error>, sending: Option<Error>)
    requires Stands(d) && Stage(d.trace) == Started
    ensures InOrder(d.config, FirstCommand(env, d, command, fault, sending))
  {
    WaitStands(env, d, command, fault);
    var (d1, parsed) := WaitForCommand(env, d, command, fault);
    if parsed.Ok? && command.Select? {
      SelectKeeps(d1, command.aid, sending);
    }
  }

  lemma BleInOrder(d: Device, apc: bool, completed: bool, raised: Option<Error>)
    requires Stands(d) && d.phase.Looping?
    ensures InOrder(d.config, BleMessage(d, apc, completed, raised))
  {
    var moved := Record(WithState(d, BLE_READER_STATUS_AP_COMPLETED), ProtocolCompleted);
    MoveKeeps(d, BLE_READER_STATUS_AP_COMPLETED, ProtocolCompleted);
    RestartOrder(moved);
    RestartOrder(d);
  }

  lemma StepInOrder(env: Env, d: Device, input: Input)
    requires InOrder(d.config, d)
    ensures InOrder(d.config, Step(env, d, input))
  {
    if !d.phase.Stopped? && d.session.Some? {
      match input
      case NotReceived(e) => WaitEndsInOrder(d, e);
      case Busy =>
      case Ble(apc, completed, raised) =>
        if d.phase.Looping? {
          BleInOrder(d, apc, completed, raised);
        }
      case Received(command, fault, sending) =>
        if d.phase.Looping? {
          LoopInOrder(env, d, command, fault, sending);
        } else {
          FirstInOrder(env, d, command, fault, sending);
        }
    }
  }

  lemma {:induction false} EveryRunInOrder(config: Config, mailbox: Option<Box>, known: set<SubId>, env: Env,
                                           inputs: seq<Input>)
    ensures InOrder(config, RunDevice(env, StartDevice(config, mailbox, known), inputs))
  {
    if inputs == [] {
      RestartOrder(Device(config, None, mailbox, Session([], false), known, None, Looping, []));
    } else {
      var before := inputs[..|inputs| - 1];
      EveryRunInOrder(config, mailbox, known, env, before);
      StepInOrder(env, RunDevice(env, StartDevice(config, mailbox, known), before), inputs[|inputs| - 1]);
    }
  }

  // ---------------------------------------------------------------- the order of events

  lemma {:induction false} TraceOrderlyAt(ble: bool, trace: seq<Event>, i: nat)
    requires TraceOrderly(ble, trace) && i < |trace|
    ensures Orderly(ble, trace[..i], trace[i])
  {
    var n := |trace| - 1;
    if i < n {
      TraceOrderlyAt(ble, trace[..n], i);
      assert trace[..n][..i] == trace[..i];
    }
  }

  /** The stage is the latest event of its kind; before the first one it is that of a new session. */
  lemma {:induction false} StageMeans(trace: seq<Event>)
    ensures (Stage(trace) == Started && forall k :: 0 <= k < |trace| ==> !IsStage(trace[k]))
            || exists j :: 0 <= j < |trace| && trace[j] == Stage(trace) && IsStage(trace[j])
                           && forall k :: j < k < |trace| ==> !IsStage(trace[k])
  {
    if trace != [] && !IsStage(trace[|trace| - 1]) {
      var before := trace[..|trace| - 1];
      StageMeans(before);
      if j :| 0 <= j < |before| && before[j] == Stage(before) && IsStage(before[j])
              && forall k :: j < k < |before| ==> !IsStage(before[k]) {
        assert trace[j] == before[j];
        assert forall k :: j < k < |before| ==> trace[k] == before[k];
      } else {
        assert forall k :: 0 <= k < |before| ==> trace[k] == before[k];
      }
    }
  }

  /** No later certificate, and no later session. */
  lemma {:induction false} LatestCertificateMeans(trace: seq<Event>, j: nat)
    requires j < |trace| && trace[j].Certificate?
    requires forall k :: j < k < |trace| ==> !trace[k].Certificate? && !trace[k].Started?
    ensures LatestCertificate(trace) == Some(trace[j].outcome)
  {
    var n := |trace| - 1;
    if j < n {
      assert trace[..n][j] == trace[j];
      LatestCertificateMeans(trace[..n], j);
    }
  }

  /**
   * The order of the handshake, by positions in the trace of any run. A verified AUTH1 comes behind an AUTH0 that named
   * the same reader, and on NFC an AUTH0 comes behind a SELECT of the expedited phase, in both cases with no other
   * stage in between, such as a new session or another AUTH0 or AUTH1; and the latest certificate before a verified
   * AUTH1 of its session did verify.
   */
  lemma HandshakeOrder(config: Config, mailbox: Option<Box>, known: set<SubId>, env: Env, inputs: seq<Input>, i: nat)
    requires i < |RunDevice(env, StartDevice(config, mailbox, known), inputs).trace|
    ensures var trace := RunDevice(env, StartDevice(config, mailbox, known), inputs).trace;
            && (trace[i].Auth1Verified? ==>
                  exists j :: 0 <= j < i && IsAuth0(trace[j]) && trace[j].sub == trace[i].sub
                              && forall k :: j < k < i ==> !IsStage(trace[k]))
            && (IsAuth0(trace[i]) && !config.IsBle() ==>
                  exists j :: 0 <= j < i && trace[j] == Event.Selected(Expedited)
                              && forall k :: j < k < i ==> !IsStage(trace[k]))
            && (trace[i].Auth1Verified? ==>
                  forall j :: 0 <= j < i && trace[j].Certificate?
                              && (forall k :: j < k < i ==> !trace[k].Certificate? && !trace[k].Started?) ==>
                    trace[j].outcome == Verified)
  {
    var d := RunDevice(env, StartDevice(config, mailbox, known), inputs);
    EveryRunInOrder(config, mailbox, known, env, inputs);
    OrderAt(config.IsBle(), d.trace, i);
  }

  lemma OrderAt(ble: bool, trace: seq<Event>, i: nat)
    requires TraceOrderly(ble, trace) && i < |trace|
    ensures trace[i].Auth1Verified? ==>
              exists j :: 0 <= j < i && IsAuth0(trace[j]) && trace[j].sub == trace[i].sub
                          && forall k :: j < k < i ==> !IsStage(trace[k])
    ensures IsAuth0(trace[i]) && !ble ==>
              exists j :: 0 <= j < i && trace[j] == Event.Selected(Expedited)
                          && forall k :: j < k < i ==> !IsStage(trace[k])
    ensures trace[i].Auth1Verified? ==>
              forall j :: 0 <= j < i && trace[j].Certificate?
                          && (forall k :: j < k < i ==> !trace[k].Certificate? && !trace[k].Started?) ==>
                trace[j].outcome == Verified
  {
    var before := trace[..i];
    TraceOrderlyAt(ble, trace, i);
    StageMeans(before);
    if j :| 0 <= j < |before| && before[j] == Stage(before) && forall k :: j < k < |before| ==> !IsStage(before[k]) {
      assert trace[j] == before[j] && forall k :: j < k < i ==> trace[k] == before[k];
    }
    if trace[i].Auth1Verified? {
      forall j | 0 <= j < i && trace[j].Certificate?
                 && (forall k :: j < k < i ==> !trace[k].Certificate? && !trace[k].Started?)
        ensures trace[j].outcome == Verified
      {
        assert before[j] == trace[j] && forall k :: j < k < i ==> before[k] == trace[k];
        LatestCertificateMeans(before, j);
      }
    }
  }
}
