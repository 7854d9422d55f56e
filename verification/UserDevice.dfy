/** `UserDevice` and `UserSession` as objects: every method does to its fields what the state machine says. */
module UserDeviceObject {
  import opened Basics
  import opened Encryption
  import opened MailboxStore
  import opened MailboxExchange
  import opened UserMachine

  /** `UserSession` */
  class SessionObject {
    var state: SessionState
    var encryptionExpedited: EncryptionEngine?
    var encryptionStepup: EncryptionEngine?
    var certDecoded: Option<bool>
    var certVerified: Option<bool>
    var ursk: bool
    var sub: SubId

    ghost predicate Valid()
      reads this
    {
      encryptionExpedited != null && encryptionStepup != null ==> encryptionExpedited != encryptionStepup
    }

    ghost function Engines(): set<object>
      reads this
    {
      (if encryptionExpedited != null then {encryptionExpedited} else {})
      + (if encryptionStepup != null then {encryptionStepup} else {})
    }

    ghost function View(): UserSession
      reads this, encryptionExpedited, encryptionStepup
    {
      UserSession(state,
                  if encryptionExpedited != null then Some(encryptionExpedited.View()) else None,
                  if encryptionStepup != null then Some(encryptionStepup.View()) else None,
                  certDecoded, certVerified, ursk, sub)
    }

    constructor ()
      ensures Valid() && View() == NewSession() && Engines() == {}
    {
      state, encryptionExpedited, encryptionStepup := SESSION_START, null, null;
      certDecoded, certVerified, ursk, sub := None, None, false, [];
    }

    ghost function Chosen(choice: Choice): EncryptionEngine?
      reads this
    {
      match choice
      case UseExpedited => encryptionExpedited
      case UseStepUp => encryptionStepup
      case UseNone => null
    }

    method SetCertAndVerify(outcome: CertOutcome)
      requires Valid()
      modifies this
      ensures Valid() && View() == WithCert(old(View()), outcome) && Engines() == old(Engines())
    {
      if outcome.Undecodable? {
        certDecoded := Some(false);
        return;
      }
      certDecoded := Some(true);
      certVerified := Some(outcome.Verified?);
    }
  }

  class UserDevice {
    const config: Config
    const mailbox: Mailbox?
    const mailboxSession: MailboxSession
    var session: SessionObject?
    var kpersistent: set<SubId>
    var answer: Option<Sealed>
    var phase: Phase
    ghost var trace: seq<Event>

    /** The objects that the device holds or held. */
    ghost var repr: set<object>

    ghost predicate Valid()
      reads this, session
    {
      && (session != null ==> session.Valid() && session in repr && session.Engines() <= repr)
      && mailboxSession in repr && (mailbox != null ==> mailbox in repr) && this !in repr
    }

    ghost function View(): Device
      reads this, session, mailbox, mailboxSession
      reads if session != null then session.Engines() else {}
    {
      Device(config, if session != null then Some(session.View()) else None,
             if mailbox != null then Some(mailbox.View()) else None,
             mailboxSession.View(), kpersistent, answer, phase, trace)
    }

    constructor (config: Config, mailbox: Mailbox?, kpersistent: set<SubId>)
      ensures Valid() && this.config == config && this.mailbox == mailbox && fresh(mailboxSession)
      ensures View() == Device(config, None, if mailbox != null then Some(mailbox.View()) else None, Session([], false),
                               kpersistent, None, Looping, [])
    {
      this.config, this.mailbox, this.kpersistent := config, mailbox, kpersistent;
      mailboxSession := new MailboxSession();
      session, answer, phase, trace := null, None, Looping, [];
      repr := {mailboxSession} + if mailbox != null then {mailbox} else {};
    }

    /** `failure_process`: the error status is sent, and the session ends. */
    method FailureProcess()
      requires Valid()
      modifies this`session
      ensures Valid() && session == null
      ensures View() == UserMachine.FailureProcess(old(View()))
    {
      session := null;
    }

    ghost method Note(e: Event)
      requires Valid()
      modifies this`trace
      ensures Valid() && View() == Record(old(View()), e)
    {
      trace := trace + [e];
    }

    /** `session.update_state` */
    method UpdateState(state: SessionState)
      requires Valid() && session != null
      modifies session`state
      ensures Valid() && View() == WithState(old(View()), state)
    {
      session.state := state;
    }

    // ---------------------------------------------------------------- handlers

    method HandleSelect(aid: Aid, sending: Option<Error>) returns (error: Option<Error>)
      requires Valid() && session != null
      modifies this, session
      ensures Valid() && fresh(repr - old(repr))
      ensures (View(), error) == UserMachine.HandleSelect(old(View()), aid, sending)
    {
      if aid.Expedited? {
        UpdateState(SELECT_DONE);
        Note(Selected(Expedited));
      } else if aid.StepUp? {
        if !(session.state == AUTH1_DONE || session.state == EXCHANGE_DONE) {
          return Some(AccessProtocolError);
        }
        UpdateState(SELECT_STEP_UP_DONE);
        Note(Selected(StepUp));
      } else {
        FailureProcess();
        return Some(InvalidAIDError);
      }
      return sending;
    }

    method HandleAuth0(a: Auth0Data, sending: Option<Error>) returns (error: Option<Error>)
      requires Valid() && session != null
      modifies this, session
      ensures Valid() && fresh(repr - old(repr))
      ensures (View(), error) == UserMachine.HandleAuth0(old(View()), a, sending)
    {
      error := CheckAuth0(a);
      if error.Some? {
        return;
      }
      error := ChooseTransaction(a, sending);
    }

    method CheckAuth0(a: Auth0Data) returns (error: Option<Error>)
      requires Valid() && session != null
      modifies this`session, session
      ensures Valid() && repr == old(repr) && (error.None? ==> session == old(session))
      ensures (View(), error) == UserMachine.CheckAuth0(old(View()), a)
    {
      if session.state != SELECT_DONE && !config.IsBle() {
        FailureProcess();
        return Some(SessionError);
      }
      if a.version !in config.versions {
        FailureProcess();
        return Some(VersionError);
      }
      if !a.keyValid {
        return Some(AccessProtocolError);
      }
      session.sub := a.sub;
      if !a.credentialFound {
        return Some(AccessProtocolError);
      }
      return None;
    }

    method CreateFastEngine(a: Auth0Data)
      requires Valid() && session != null
      modifies this`repr, session
      ensures Valid() && session == old(session) && fresh(repr - old(repr))
      ensures View() == WithFastEngine(old(View()), a)
    {
      session.encryptionExpedited := new EncryptionEngine(User, a.skReader, a.skDevice);
      repr := repr + {session.encryptionExpedited};
    }

    method ChooseTransaction(a: Auth0Data, sending: Option<Error>) returns (error: Option<Error>)
      requires Valid() && session != null
      modifies this, session
      ensures Valid() && fresh(repr - old(repr))
      ensures (View(), error) == UserMachine.ChooseTransaction(old(View()), a, sending)
    {
      if a.parameters == 0 {
        UpdateState(AUTH0_STD_DONE);
        Note(Auth0Standard(a.sub));
        return sending;
      }
      if a.parameters != 1 {
        return Some(IndexError);
      }
      if config.fast && a.sub in kpersistent {
        if !a.groupKeyFound {
          return Some(KeyLookupFailed);
        }
        CreateFastEngine(a);
        if config.IsBle() && !config.bleLink {
          return Some(AccessProtocolError);
        }
        UpdateState(AUTH0_FAST_DONE);
        Note(Auth0Fast(a.sub));
      } else {
        UpdateState(AUTH0_STD_DONE);
        Note(Auth0Standard(a.sub));
      }
      return sending;
    }

    method HandleLoadCert(outcome: CertOutcome, groupKeyFound: bool, sending: Option<Error>)
      returns (error: Option<Error>)
      requires Valid() && session != null
      modifies this, session
      ensures Valid() && fresh(repr - old(repr))
      ensures (View(), error) == UserMachine.HandleLoadCert(old(View()), outcome, groupKeyFound, sending)
    {
      if !(session.state == AUTH0_FAST_DONE || session.state == AUTH0_STD_DONE) {
        FailureProcess();
        return Some(SessionError);
      }
      if !groupKeyFound {
        return Some(KeyLookupFailed);
      }
      AddCertificate(outcome);
      if sending.Some? {
        return sending;
      }
      if config.test && !outcome.Verified? {
        return Some(AccessProtocolError);
      }
      return None;
    }

    method AddCertificate(outcome: CertOutcome)
      requires Valid() && session != null
      modifies this`trace, session
      ensures Valid() && session == old(session) && View() == TakeCertificate(old(View()), outcome)
    {
      session.SetCertAndVerify(outcome);
      Note(Certificate(outcome));
    }

    /** The part of `handle_auth1` up to the reader signature. */
    method CheckAuth1(a: Auth1Data) returns (error: Option<Error>)
      requires Valid() && session != null
      modifies this, session
      ensures Valid() && repr == old(repr) && (error.None? ==> session == old(session))
      ensures (View(), error) == UserMachine.CheckAuth1(old(View()), a)
    {
      if !(session.state == AUTH0_FAST_DONE || session.state == AUTH0_STD_DONE) {
        FailureProcess();
        return Some(SessionError);
      }
      if a.certificate.Some? {
        if !a.groupKeyFound {
          return Some(KeyLookupFailed);
        }
        AddCertificate(a.certificate.value);
      }
      error := CheckCertificate(a);
    }

    method CheckCertificate(a: Auth1Data) returns (error: Option<Error>)
      requires Valid() && session != null
      modifies this`session
      ensures Valid() && repr == old(repr) && (error.None? ==> session == old(session))
      ensures (View(), error) == UserMachine.CheckCertificate(old(View()), a)
    {
      if session.certDecoded == Some(false) || session.certVerified == Some(false) {
        FailureProcess();
        return Some(AccessProtocolError);
      }
      error := CheckReaderAuthenticationData(a);
    }

    method CheckReaderAuthenticationData(a: Auth1Data) returns (error: Option<Error>)
      requires Valid() && session != null
      modifies this`session
      ensures Valid() && repr == old(repr) && (error.None? ==> session == old(session))
      ensures (View(), error) == UserMachine.CheckReaderAuthenticationData(old(View()), a)
    {
      if !a.readerKeyFound {
        return Some(KeyLookupFailed);
      }
      if !a.signatureVerifies {
        FailureProcess();
        return Some(AccessProtocolError);
      }
      return None;
    }

    method HandleAuth1(env: Env, a: Auth1Data, sending: Option<Error>) returns (error: Option<Error>)
      requires Valid() && session != null
      modifies this, session
      ensures Valid() && fresh(repr - old(repr))
      ensures (View(), error) == UserMachine.HandleAuth1(env, old(View()), a, sending)
    {
      error := CheckAuth1(a);
      if error.Some? {
        return;
      }
      Auth1Composed(env, old(View()), View(), a, sending);
      Note(Auth1Verified(session.sub));
      error := KeysAfterAuth1(env, a, sending);
    }

    static lemma Auth1Composed(env: Env, d: Device, d1: Device, a: Auth1Data, sending: Option<Error>)
      requires d.session.Some? && UserMachine.CheckAuth1(d, a) == (d1, None)
      ensures UserMachine.HandleAuth1(env, d, a, sending)
           == UserMachine.KeysAfterAuth1(env, Record(d1, Auth1Verified(d1.session.value.sub)), a, sending)
    {
    }

    method CreateEngines(a: Auth1Data)
      requires Valid() && session != null
      modifies this`repr, session
      ensures Valid() && session == old(session) && fresh(repr - old(repr))
      ensures View() == WithEngines(old(View()), a)
      ensures session.encryptionExpedited != null && fresh(session.encryptionExpedited)
    {
      session.encryptionExpedited := new EncryptionEngine(User, a.skReader, a.skDevice);
      session.encryptionStepup := new EncryptionEngine(User, a.stepReader, a.stepDevice);
      repr := repr + {session.encryptionExpedited, session.encryptionStepup};
    }

    method KeysAfterAuth1(env: Env, a: Auth1Data, sending: Option<Error>) returns (error: Option<Error>)
      requires Valid() && session != null
      modifies this, session
      ensures Valid() && fresh(repr - old(repr))
      ensures (View(), error) == UserMachine.KeysAfterAuth1(env, old(View()), a, sending)
    {
      if !a.groupKeyFound {
        FailureProcess();
        return Some(KeyLookupFailed);
      }
      CreateEngines(a);
      if config.IsBle() && !config.bleLink {
        return Some(AccessProtocolError);
      }
      kpersistent := kpersistent + {session.sub};
      Note(Stored(session.sub));
      UpdateState(AUTH1_DONE);
      error := Respond(env, UseExpedited, session.encryptionExpedited, a.response, sending);
    }

    /** Encrypts a payload with one of the session's engines and sends it. */
    method Respond(env: Env, ghost choice: Choice, encryption: EncryptionEngine, payload: seq<byte>,
                   sending: Option<Error>)
      returns (error: Option<Error>)
      requires Valid() && session != null && encryption == session.Chosen(choice)
      modifies encryption, this`answer
      ensures Valid() && repr == old(repr)
      ensures (View(), error) == UserMachine.Answer(env, old(View()), choice, payload, sending)
    {
      var packet := encryption.Encrypt(env.aead, payload, []);
      if packet.Err? {
        return Some(packet.error);
      }
      answer := Some(packet.value);
      return sending;
    }

    method HandleEnvelope(env: Env, document: seq<byte>, sending: Option<Error>) returns (error: Option<Error>)
      requires Valid() && session != null
      modifies this, session, session.Engines()
      ensures Valid() && fresh(repr - old(repr))
      ensures (View(), error) == UserMachine.HandleEnvelope(env, old(View()), document, sending)
    {
      if !EnvelopeAllowed(session.state) {
        FailureProcess();
        return Some(SessionError);
      }
      if session.encryptionStepup == null {
        return Some(AccessProtocolError);
      }
      error := Respond(env, UseStepUp, session.encryptionStepup, document, sending);
      if error.Some? {
        return;
      }
      Note(EnvelopeAnswered);
      UpdateState(ENVELOPE_DONE);
    }

    // ---------------------------------------------------------------- EXCHANGE

    method HandleExchange(env: Env, content: Option<Content>, sending: Option<Error>) returns (error: Option<Error>)
      requires Valid() && session != null
      modifies this, repr
      ensures Valid() && fresh(repr - old(repr))
      ensures (View(), error) == UserMachine.HandleExchange(env, old(View()), content, sending)
    {
      if !ExchangeAllowed(session.state) {
        FailureProcess();
        return Some(SessionError);
      }
      var encryption := AnswerEngine();
      if encryption == null {
        return Some(AccessProtocolError);
      }
      error := BeginExchange(env, encryption, content, sending);
    }

    method BeginExchange(env: Env, encryption: EncryptionEngine, content: Option<Content>, sending: Option<Error>)
      returns (error: Option<Error>)
      requires Valid() && session != null && encryption == session.Chosen(AnswerChoice(session.state))
      modifies this, repr
      ensures Valid() && fresh(repr - old(repr))
      ensures (View(), error) == UserMachine.BeginExchange(env, old(View()), old(encryption.View()), content, sending)
    {
      var valid := encryption.CheckCountersValid();
      if !valid {
        FailureProcess();
        return None;
      }
      error := EnterExchange(env, encryption, content, sending);
    }

    method EnterExchange(env: Env, encryption: EncryptionEngine, content: Option<Content>, sending: Option<Error>)
      returns (error: Option<Error>)
      requires Valid() && session != null && encryption == session.Chosen(AnswerChoice(session.state))
      modifies this, repr
      ensures Valid() && fresh(repr - old(repr))
      ensures (View(), error) == UserMachine.EnterExchange(env, old(View()), content, sending)
    {
      ghost var choice := AnswerChoice(session.state);
      UpdateExchangeState();
      if content.None? {
        return Some(AttributeError);
      }
      error := HandleContent(env, choice, encryption, content.value, sending);
    }

    method AnswerEngine() returns (encryption: EncryptionEngine?)
      requires session != null
      ensures encryption == session.Chosen(AnswerChoice(session.state))
    {
      if session.state == ENVELOPE_DONE || session.state == STEPUP_EXCHANGE_DONE {
        return session.encryptionStepup;
      } else {
        return session.encryptionExpedited;
      }
    }

    method UpdateExchangeState()
      requires Valid() && session != null
      modifies session`state, this`trace
      ensures Valid()
      ensures View() == Entered(old(View()))
    {
      if session.state == ENVELOPE_DONE || session.state == STEPUP_EXCHANGE_DONE {
        UpdateState(STEPUP_EXCHANGE_DONE);
        Note(ExchangeEntered(true));
      } else {
        UpdateState(EXCHANGE_DONE);
        Note(ExchangeEntered(false));
      }
    }

    method HandleContent(env: Env, ghost choice: Choice, encryption: EncryptionEngine, content: Content,
                         sending: Option<Error>)
      returns (error: Option<Error>)
      requires Valid() && session != null && encryption == session.Chosen(choice)
      modifies this, repr
      ensures Valid() && fresh(repr - old(repr))
      ensures (View(), error) == UserMachine.HandleContent(env, old(View()), choice, content, sending)
    {
      error := Prepare(content);
      if error.Some? {
        return;
      }
      error := Serve(env, choice, encryption, content, sending);
    }

    method Prepare(content: Content) returns (error: Option<Error>)
      requires Valid() && session != null
      modifies session`state, session`ursk, this`trace
      ensures Valid()
      ensures (View(), error) == UserMachine.Prepare(old(View()), content)
    {
      error := TakeStatus(content);
      if error.Some? {
        return;
      }
      error := TakeUrsk(content);
      if error.Some? {
        return;
      }
      if content.requests.Count() > 0 && mailbox != null && session.state == ENVELOPE_DONE
        && !mailbox.stepUpPermission {
        return Some(AccessProtocolError);
      }
      return None;
    }

    method TakeStatus(content: Content) returns (error: Option<Error>)
      requires Valid() && session != null
      modifies session`state, this`trace
      ensures Valid()
      ensures (View(), error) == UserMachine.TakeStatus(old(View()), content)
    {
      if content.readerStatus.Some? {
        if config.IsBle() && content.readerStatus.value / 0x100 != 0 {
          return Some(AccessProtocolError);
        }
        UpdateState(TRANSACTION_COMPLETE);
        Note(StatusReported);
      }
      return None;
    }

    /** `session.set_ursk` */
    method TakeUrsk(content: Content) returns (error: Option<Error>)
      requires Valid() && session != null
      modifies session`ursk
      ensures Valid()
      ensures (View(), error) == UserMachine.TakeUrsk(old(View()), content)
    {
      if content.ursk {
        if session.ursk {
          return Some(AccessProtocolError);
        }
        session.ursk := true;
      }
      return None;
    }

    method Serve(env: Env, ghost choice: Choice, encryption: EncryptionEngine, content: Content, sending: Option<Error>)
      returns (error: Option<Error>)
      requires Valid() && session != null && encryption == session.Chosen(choice)
      modifies this, repr
      ensures Valid() && fresh(repr - old(repr))
      ensures (View(), error) == UserMachine.Serve(env, old(View()), choice, content, sending)
    {
      var verdict := Accepted;
      if mailbox != null {
        verdict := CheckRequests(mailbox, content.requests);
      } else if content.requests.Count() > 0 {
        verdict := Refused(true);
      }
      if verdict.Refused? {
        if verdict.answered {
          error := RespondError(env, choice, encryption, sending);
          return;
        }
        return Some(AccessProtocolError);
      }
      var notified := HandleNotifications(content.notifyTags);
      if !notified {
        return Some(AccessProtocolError);
      }
      error := ServeMailbox(env, choice, encryption, content.requests, sending);
    }

    /** `return_exchange_error_and_close_channel`, and the error that follows it. */
    method RespondError(env: Env, ghost choice: Choice, encryption: EncryptionEngine, sending: Option<Error>)
      returns (error: Option<Error>)
      requires Valid() && session != null && encryption == session.Chosen(choice)
      modifies encryption, this`answer, this`trace
      ensures Valid() && repr == old(repr)
      ensures (View(), error) == UserMachine.AnswerError(env, old(View()), choice, sending)
    {
      error := Respond(env, choice, encryption, EXCHANGE_ERROR, sending);
      if error.Some? {
        return;
      }
      Note(ExchangeRefused);
      return Some(AccessProtocolError);
    }

    static method HandleNotifications(tags: seq<nat>) returns (valid: bool)
      ensures valid <==> Notified(tags)
    {
      for i := 0 to |tags|
        invariant Notified(tags[..i])
      {
        var tag := tags[i];
        if tag == 0x82 {
        } else if tag == 0xB5 {
        } else if tag / 0x100 == 0x9F {
          if tag / 0x20 * 0x20 == 0x9F20 {
          } else if tag / 0x20 * 0x20 == 0x9F40 {
            if tag % 8 >= 5 {
              return false;
            }
          } else {
            return false;
          }
        } else {
          return false;
        }
      }
      assert tags[..|tags|] == tags;
      return true;
    }

    method ServeMailbox(env: Env, ghost choice: Choice, encryption: EncryptionEngine, r: Requests,
                        sending: Option<Error>)
      returns (error: Option<Error>)
      requires Valid() && session != null && encryption == session.Chosen(choice)
      requires Check(View().mailbox, r).Accepted?
      modifies this, repr
      ensures Valid() && fresh(repr - old(repr))
      ensures (View(), error) == HandleMailbox(env, old(View()), choice, r, sending)
    {
      var payload: seq<byte> := [];
      if mailbox != null {
        var parts, failed := ReadRequests(mailbox, r.readRequests);
        error := PerformRequests(mailbox, mailboxSession, r);
        if error.Some? {
          return;
        }
        payload := Frame(parts);
      }
      assert [] + EXCHANGE_SUCCESS == EXCHANGE_SUCCESS;
      error := Respond(env, choice, encryption, payload + EXCHANGE_SUCCESS, sending);
      if error.None? {
        Note(ExchangeAnswered);
      }
    }

    static method Frame(parts: seq<seq<byte>>) returns (payload: seq<byte>)
      ensures payload == Framed(parts)
    {
      payload := [];
      for i := 0 to |parts|
        invariant payload == Framed(parts[..i])
      {
        assert parts[..i + 1][..i] == parts[..i];
        payload := payload + (U16(|parts[i]| % 0x1_0000) + parts[i]);
      }
      assert parts[..|parts|] == parts;
    }

    // ---------------------------------------------------------------- waiting and dispatching

    /** The engine that the next command is decrypted with. */
    method DecryptionEngine(isExchange: bool) returns (encryption: EncryptionEngine?)
      requires session != null
      ensures encryption == session.Chosen(DecryptionChoice(session.state, isExchange))
    {
      if session.state == AUTH0_STD_DONE || session.state == AUTH0_FAST_DONE {
        return session.encryptionExpedited;
      } else if (session.state == EXCHANGE_DONE || session.state == AUTH1_DONE) && isExchange {
        return session.encryptionExpedited;
      } else if session.state == AUTH1_DONE || session.state == EXCHANGE_DONE || session.state == SELECT_STEP_UP_DONE
                || session.state == ENVELOPE_DONE || session.state == STEPUP_EXCHANGE_DONE {
        return session.encryptionStepup;
      } else {
        return null;
      }
    }

    method DecryptPacket(env: Env, isExchange: bool, packet: Sealed) returns (plain: Result<Option<seq<byte>>>)
      requires Valid() && session != null
      modifies repr
      ensures Valid() && unchanged(session)
      ensures var (s, r) := Decrypted(env, old(session.View()), DecryptionChoice(session.state, isExchange), packet);
              r == plain && View() == old(View()).(session := Some(s))
    {
      var encryption := DecryptionEngine(isExchange);
      if encryption == null {
        return Ok(None);
      }
      var r := encryption.Decrypt(env.aead, packet, []);
      return if r.Ok? then Ok(Some(r.value)) else Err(r.error);
    }

    method ParseReceived(env: Env, command: Command, fault: Option<Error>) returns (parsed: Result<Parsed>)
      requires Valid() && session != null
      modifies repr
      ensures Valid() && unchanged(session)
      ensures var (s, r) := ParseCommand(env, old(session.View()), command, fault);
              r == parsed && View() == old(View()).(session := Some(s))
    {
      if fault.Some? {
        return Err(fault.value);
      }
      match command
      case Unknown => return Err(InvalidINSError);
      case GetData => return Err(InvalidINSError);
      case Exchange(packet) =>
        var plain := DecryptPacket(env, true, packet);
        if plain.Err? {
          return Err(plain.error);
        }
        if plain.value.None? {
          return Ok(Parsed(command, None));
        }
        var content := env.parse(plain.value.value);
        return if content.Err? then Err(content.error) else Ok(Parsed(command, Some(content.value)));
      case Envelope(packet, _) =>
        var plain := DecryptPacket(env, false, packet);
        return if plain.Err? then Err(plain.error) else Ok(Parsed(command, None));
      case _ => return Ok(Parsed(command, None));
    }

    /** `wait_for_message`, for a command that arrived whole. */
    method WaitForCommand(env: Env, command: Command, fault: Option<Error>) returns (parsed: Result<Parsed>)
      requires Valid() && session != null
      modifies this`session, repr
      ensures Valid() && (parsed.Ok? ==> session != null)
      ensures (View(), parsed) == UserMachine.WaitForCommand(env, old(View()), command, fault)
    {
      if command.GetData? {
        return Err(InvalidINSError);
      }
      if command.Select? && (!command.parametersValid || command.aid.OtherAid?) {
        return Err(InvalidAIDError);
      }
      parsed := ParseReceived(env, command, fault);
      if parsed.Err? && EndsSession(parsed.error) {
        FailureProcess();
      }
    }

    method Dispatch(env: Env, p: Parsed, sending: Option<Error>) returns (error: Option<Error>)
      requires Valid() && session != null
      modifies this, repr
      ensures Valid() && fresh(repr - old(repr))
      ensures (View(), error) == UserMachine.Dispatch(env, old(View()), p, sending)
    {
      match p.command
      case Select(aid, _) => error := HandleSelect(aid, sending);
      case Auth0(a) => error := HandleAuth0(a, sending);
      case LoadCert(outcome, found) => error := HandleLoadCert(outcome, found, sending);
      case Auth1(a) => error := HandleAuth1(env, a, sending);
      case Exchange(_) => error := HandleExchange(env, p.content, sending);
      case Envelope(_, document) => error := HandleEnvelope(env, document, sending);
      case ControlFlow =>
        UpdateState(SELECT_DONE);
        return sending;
      case _ => return Some(NotImplementedError);
    }

    // ---------------------------------------------------------------- the loops

    /** `transaction_initiation` up to the first message. */
    method StartNewSession()
      requires Valid()
      modifies this
      ensures Valid() && fresh(repr - old(repr))
      ensures View() == Restart(old(View()))
    {
      session := new SessionObject();
      repr := repr + {session};
      phase := if config.IsBle() then Looping else Initiating;
      Note(Started);
    }

    method Leave(raised: Option<Error>)
      requires Valid()
      modifies this`phase
      ensures Valid() && View() == Stop(old(View()), raised)
    {
      phase := Stopped(raised);
    }

    /** `handle_timeout`, and the error that leaves the loop behind it. */
    method HandleTimeout()
      requires Valid()
      modifies this
      ensures Valid() && repr == old(repr) && View() == Expire(old(View()))
    {
      if !config.bleLink {
        Leave(Some(InvalidProtocolTypeError));
      } else if session == null {
        Leave(Some(SessionError));
      } else {
        session := null;
        Leave(Some(TimeoutError));
      }
    }

    method CheckSession()
      requires Valid()
      modifies this`phase
      ensures Valid() && View() == GoOn(old(View()))
    {
      if session == null {
        Leave(Some(SessionError));
      }
    }

    method StartAnew()
      requires Valid()
      modifies this
      ensures Valid() && fresh(repr - old(repr))
      ensures View() == BeginAnew(old(View()))
    {
      FailureProcess();
      if config.mode.MainLoop? {
        StartNewSession();
      } else {
        Leave(None);
      }
    }

    method WaitRaised(e: Error)
      requires Valid()
      modifies this
      ensures Valid() && fresh(repr - old(repr))
      ensures View() == AfterWait(old(View()), e)
    {
      if e.InvalidAIDError? || e.InvalidINSError? {
        CheckSession();
      } else if EndsSession(e) {
        StartAnew();
      } else if e.NoDeviceConnectedError? && config.mode.MainLoop? {
        StartNewSession();
      } else if e.TimeoutError? {
        HandleTimeout();
      } else {
        Leave(Some(e));
      }
    }

    /** A single transaction ends with a failure process. */
    method GiveUp()
      requires Valid()
      modifies this
      ensures Valid() && repr == old(repr) && View() == Stop(UserMachine.FailureProcess(old(View())), None)
    {
      FailureProcess();
      Leave(None);
    }

    method HandlerEnded(error: Option<Error>)
      requires Valid()
      modifies this
      ensures Valid() && fresh(repr - old(repr))
      ensures View() == AfterHandler(old(View()), error)
    {
      if error.None? {
        CheckSession();
      } else if config.mode.MainLoop? {
        if IsAccessProtocol(error.value) || error.value.NoDeviceConnectedError? {
          StartNewSession();
        } else {
          Leave(error);
        }
      } else if IsAccessProtocol(error.value) {
        GiveUp();
      } else {
        Leave(error);
      }
    }

    /** `transaction_termination` behind a CONTROL FLOW, and what the two loops do next. */
    method Terminated()
      requires Valid()
      modifies this
      ensures Valid() && fresh(repr - old(repr))
      ensures View() == Terminate(old(View()))
    {
      if config.mode.MainLoop? || config.terminateAtEnd {
        session := null;
      }
      if config.mode.MainLoop? {
        StartNewSession();
      } else {
        Leave(None);
      }
    }

    /** What the loops do behind a handler, by how it ended. */
    method CommandEnded(command: Command, error: Option<Error>)
      requires Valid()
      modifies this
      ensures Valid() && fresh(repr - old(repr))
      ensures View() == AfterCommand(old(View()), command, error)
    {
      if command.ControlFlow? && error.None? {
        Terminated();
      } else if error == Some(TimeoutError) && !command.Select? && !command.ControlFlow? {
        HandleTimeout();
      } else {
        HandlerEnded(error);
      }
    }

    method OnCommand(env: Env, command: Command, fault: Option<Error>, sending: Option<Error>)
      requires Valid() && session != null
      modifies this, repr
      ensures Valid() && fresh(repr - old(repr))
      ensures View() == LoopCommand(env, old(View()), command, fault, sending)
    {
      var parsed := WaitForCommand(env, command, fault);
      OnWaited(env, command, parsed, sending);
    }

    method OnWaited(env: Env, command: Command, parsed: Result<Parsed>, sending: Option<Error>)
      requires Valid() && (parsed.Ok? ==> session != null)
      modifies this, repr
      ensures Valid() && fresh(repr - old(repr))
      ensures View() == match parsed
                        case Err(e) => AfterWait(old(View()), e)
                        case Ok(p) => LoopParsed(env, old(View()), command, p, sending)
    {
      if parsed.Err? {
        WaitRaised(parsed.error);
      } else {
        OnParsed(env, command, parsed.value, sending);
      }
    }

    method OnParsed(env: Env, command: Command, p: Parsed, sending: Option<Error>)
      requires Valid() && session != null
      modifies this, repr
      ensures Valid() && fresh(repr - old(repr))
      ensures View() == LoopParsed(env, old(View()), command, p, sending)
    {
      if config.mode.SingleTransaction? && mailboxSession.started && !command.Exchange? {
        GiveUp();
      } else {
        OnTaken(env, command, p, sending);
      }
    }

    /** A command that is not refused for an open atomic session. */
    method OnTaken(env: Env, command: Command, p: Parsed, sending: Option<Error>)
      requires Valid() && session != null
      modifies this, repr
      ensures Valid() && fresh(repr - old(repr))
      ensures var (d, error) := UserMachine.Dispatch(env, old(View()), p, sending);
              View() == AfterCommand(d, command, error)
    {
      var error := Dispatch(env, p, sending);
      CommandEnded(command, error);
    }

    method OnFirstCommand(env: Env, command: Command, fault: Option<Error>, sending: Option<Error>)
      requires Valid() && session != null
      modifies this, repr
      ensures Valid() && fresh(repr - old(repr))
      ensures View() == FirstCommand(env, old(View()), command, fault, sending)
    {
      var parsed := WaitForCommand(env, command, fault);
      OnFirstWaited(command, parsed, sending);
    }

    method OnFirstWaited(command: Command, parsed: Result<Parsed>, sending: Option<Error>)
      requires Valid() && (parsed.Ok? ==> session != null)
      modifies this, session
      ensures Valid() && fresh(repr - old(repr))
      ensures View() == match parsed
                        case Err(e) => FirstRaised(old(View()), e)
                        case Ok(_) => FirstParsed(old(View()), command, sending)
    {
      if parsed.Err? {
        OnFirstRaised(parsed.error);
      } else {
        OnFirstParsed(command, sending);
      }
    }

    method OnFirstRaised(e: Error)
      requires Valid()
      modifies this
      ensures Valid() && repr == old(repr) && View() == FirstRaised(old(View()), e)
    {
      if e.InvalidAIDError? || e.InvalidINSError? {
        CheckSession();
      } else if e.TimeoutError? {
        HandleTimeout();
      } else {
        Leave(Some(e));
      }
    }

    method OnFirstParsed(command: Command, sending: Option<Error>)
      requires Valid() && session != null
      modifies this, session
      ensures Valid() && fresh(repr - old(repr))
      ensures View() == FirstParsed(old(View()), command, sending)
    {
      if !command.Select? {
        Leave(Some(AccessProtocolError));
        return;
      }
      var error := HandleSelect(command.aid, sending);
      if error.Some? {
        Leave(error);
      } else {
        phase := Looping;
      }
    }

    method OnBleMessage(accessProtocolCompleted: bool, completed: bool, raised: Option<Error>)
      requires Valid() && session != null
      modifies this, session
      ensures Valid() && fresh(repr - old(repr))
      ensures View() == BleMessage(old(View()), accessProtocolCompleted, completed, raised)
    {
      if accessProtocolCompleted {
        UpdateState(BLE_READER_STATUS_AP_COMPLETED);
        Note(ProtocolCompleted);
      }
      if raised.Some? {
        HandlerEnded(raised);
      } else if completed && config.mode.SingleTransaction? {
        if config.terminateAtEnd {
          session := null;
        }
        Leave(None);
      }
    }

    /** One round of whichever loop the device is in. */
    method Round(env: Env, input: Input)
      requires Valid()
      modifies this, repr
      ensures Valid() && fresh(repr - old(repr))
      ensures View() == Step(env, old(View()), input)
    {
      if phase.Stopped? {
        return;
      }
      if session == null {
        Leave(Some(SessionError));
        return;
      }
      match input
      case NotReceived(e) =>
        if phase.Looping? {
          WaitRaised(e);
        } else {
          OnFirstRaised(e);
        }
      case Busy => return;
      case Ble(apc, completed, raised) =>
        if phase.Looping? {
          OnBleMessage(apc, completed, raised);
        } else {
          Leave(Some(UnexpectedBLEMessageError));
        }
      case Received(command, fault, sending) =>
        if phase.Looping? {
          OnCommand(env, command, fault, sending);
        } else {
          OnFirstCommand(env, command, fault, sending);
        }
    }

    /** `main_loop` or `single_transaction`, by the configuration, for as long as inputs come. */
    method Serving(env: Env, inputs: seq<Input>)
      requires Valid()
      modifies this, repr
      ensures Valid() && fresh(repr - old(repr))
      ensures View() == RunDevice(env, Restart(old(View())), inputs)
    {
      StartNewSession();
      for i := 0 to |inputs|
        invariant Valid() && fresh(repr - old(repr))
        invariant View() == RunDevice(env, Restart(old(View())), inputs[..i])
      {
        assert inputs[..i + 1][..i] == inputs[..i];
        Round(env, inputs[i]);
      }
      assert inputs[..|inputs|] == inputs;
    }
  }
}
