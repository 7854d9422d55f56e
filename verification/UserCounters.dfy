/** The counters of the expedited engine over every run. */
module UserCounters {
  import opened Basics
  import opened Encryption
  import opened MailboxStore
  import opened MailboxExchange
  import opened UserMachine

  const COUNTER_MAX: nat := 0xFFFF

  /** The counters of the expedited engine, if there is one. */
  predicate Bound(d: Device, dec: nat) {
    d.session.Some? && d.session.value.expedited.Some? ==>
      d.session.value.expedited.value.enc <= COUNTER_MAX && d.session.value.expedited.value.dec <= dec
  }

  /** A device that goes on has room for one more decryption. */
  predicate CounterInvariant(d: Device) {
    Bound(d, if d.phase.Stopped? then COUNTER_MAX else COUNTER_MAX - 1)
  }

  /** The commands that `wait_for_message` decrypts with the expedited engine. */
  predicate TakesExpedited(state: SessionState, command: Command) {
    (command.Exchange? || command.Envelope?) && DecryptionChoice(state, command.Exchange?).UseExpedited?
  }

  lemma DecryptedBound(env: Env, d: Device, choice: Choice, packet: Sealed)
    requires d.session.Some? && Bound(d, COUNTER_MAX - 1)
    ensures var d' := d.(session := Some(Decrypted(env, d.session.value, choice, packet).0));
            && Bound(d', if choice.UseExpedited? then COUNTER_MAX else COUNTER_MAX - 1)
            && d'.session.value.state == d.session.value.state
            && d'.session.value.(expedited := None, stepup := None)
               == d.session.value.(expedited := None, stepup := None)
  {
  }

  lemma ParseBound(env: Env, d: Device, command: Command, fault: Option<Error>)
    requires d.session.Some? && Bound(d, COUNTER_MAX - 1)
    ensures var (s, parsed) := ParseCommand(env, d.session.value, command, fault);
            && Bound(d.(session := Some(s)), if TakesExpedited(s.state, command) then COUNTER_MAX else COUNTER_MAX - 1)
            && s.state == d.session.value.state
            && (parsed.Ok? ==> parsed.value.command == command)
  {
    if command.Exchange? || command.Envelope? {
      DecryptedBound(env, d, DecryptionChoice(d.session.value.state, command.Exchange?), command.packet);
    }
  }

  /**
   * Right behind the decryption the counters still fit, and if the loop then waits again there is room for one more.
   */
  lemma WaitBound(env: Env, d: Device, command: Command, fault: Option<Error>)
    requires d.session.Some? && Bound(d, COUNTER_MAX - 1)
    ensures var (d1, parsed) := WaitForCommand(env, d, command, fault);
            && Bound(d1, COUNTER_MAX)
            && (parsed.Ok? ==> parsed.value.command == command && d1.session.value.state == d.session.value.state)
            && (parsed.Ok? && !TakesExpedited(d.session.value.state, command) ==> Bound(d1, COUNTER_MAX - 1))
            && (parsed.Err? && (parsed.error.InvalidAIDError? || parsed.error.InvalidINSError?) ==>
                  Bound(d1, COUNTER_MAX - 1))
  {
    ParseBound(env, d, command, fault);
  }

  lemma AnswerBound(env: Env, d: Device, choice: Choice, payload: seq<byte>, sending: Option<Error>, dec: nat)
    requires d.session.Some? && Bound(d, dec)
    requires choice.UseExpedited? && d.session.value.expedited.Some? ==>
               d.session.value.expedited.value.enc < COUNTER_MAX
    ensures Bound(Answer(env, d, choice, payload, sending).0, dec)
  {
  }

  lemma Auth1Bound(env: Env, d: Device, a: Auth1Data, sending: Option<Error>)
    requires d.session.Some? && Bound(d, COUNTER_MAX - 1)
    ensures Bound(HandleAuth1(env, d, a, sending).0, COUNTER_MAX - 1)
  {
    var (d1, error) := CheckAuth1(d, a);
    assert Bound(d1, COUNTER_MAX - 1);
    if error.None? {
      KeysBound(env, Record(d1, Auth1Verified(d1.session.value.sub)), a, sending);
    }
  }

  lemma KeysBound(env: Env, d: Device, a: Auth1Data, sending: Option<Error>)
    requires d.session.Some?
    ensures Bound(KeysAfterAuth1(env, d, a, sending).0, COUNTER_MAX - 1)
  {
    var d1, sub := WithEngines(d, a), d.session.value.sub;
    var d2 := WithState(Record(d1.(kpersistent := d1.kpersistent + {sub}), Stored(sub)), AUTH1_DONE);
    assert Bound(d2, COUNTER_MAX - 1) && d2.session.value.expedited.value.enc == 1;
    AnswerBound(env, d2, UseExpedited, [], sending, COUNTER_MAX - 1);
  }

  lemma PrepareKeepsEngines(d: Device, content: Content)
    requires d.session.Some?
    ensures var s := Prepare(d, content).0.session.value;
            s.expedited == d.session.value.expedited && s.stepup == d.session.value.stepup
  {
  }

  /** The answers of an exchange use up one place of the engine whose counters were just checked. */
  lemma ContentBound(env: Env, d: Device, choice: Choice, content: Content, sending: Option<Error>, dec: nat)
    requires d.session.Some? && Bound(d, dec)
    requires choice.UseExpedited? && d.session.value.expedited.Some? ==>
               d.session.value.expedited.value.enc < COUNTER_MAX
    ensures Bound(HandleContent(env, d, choice, content, sending).0, dec)
  {
    PrepareKeepsEngines(d, content);
    ServeBound(env, Prepare(d, content).0, choice, content, sending, dec);
  }

  lemma ServeBound(env: Env, d: Device, choice: Choice, content: Content, sending: Option<Error>, dec: nat)
    requires d.session.Some? && Bound(d, dec)
    requires choice.UseExpedited? && d.session.value.expedited.Some? ==>
               d.session.value.expedited.value.enc < COUNTER_MAX
    ensures Bound(Serve(env, d, choice, content, sending).0, dec)
  {
    AnswerBound(env, d, choice, EXCHANGE_ERROR, sending, dec);
    MailboxBound(env, d, choice, content.requests, sending, dec);
  }

  lemma MailboxBound(env: Env, d: Device, choice: Choice, r: Requests, sending: Option<Error>, dec: nat)
    requires d.session.Some? && Bound(d, dec)
    requires choice.UseExpedited? && d.session.value.expedited.Some? ==>
               d.session.value.expedited.value.enc < COUNTER_MAX
    ensures Bound(HandleMailbox(env, d, choice, r, sending).0, dec)
  {
    if d.mailbox.None? {
      AnswerBound(env, d, choice, EXCHANGE_SUCCESS, sending, dec);
    } else {
      var payload := Framed(ReadAll(d.mailbox.value, r.readRequests)) + EXCHANGE_SUCCESS;
      var store := Perform(Store(d.mailbox.value, d.log), r).0;
      AnswerBound(env, d.(mailbox := Some(store.box), log := store.session), choice, payload, sending, dec);
    }
  }

  lemma ExchangeBound(env: Env, d: Device, content: Option<Content>, sending: Option<Error>)
    requires d.session.Some? && Bound(d, COUNTER_MAX)
    requires !DecryptionChoice(d.session.value.state, true).UseExpedited? ==> Bound(d, COUNTER_MAX - 1)
    ensures var (d', error) := HandleExchange(env, d, content, sending);
            Bound(d', COUNTER_MAX) && (error.None? ==> Bound(d', COUNTER_MAX - 1))
  {
    var s := d.session.value;
    var choice := AnswerChoice(s.state);
    if ExchangeAllowed(s.state) && content.Some? && EngineOf(s, choice).Some?
      && EngineOf(s, choice).value.CountersValid() {
      var d1 := Entered(d);
      ContentBound(env, d1, choice, content.value, sending, COUNTER_MAX - 1);
    }
  }

  lemma EnvelopeBound(env: Env, d: Device, document: seq<byte>, sending: Option<Error>)
    requires d.session.Some? && Bound(d, COUNTER_MAX)
    requires !DecryptionChoice(d.session.value.state, false).UseExpedited? ==> Bound(d, COUNTER_MAX - 1)
    ensures var (d', error) := HandleEnvelope(env, d, document, sending);
            Bound(d', COUNTER_MAX) && (error.None? ==> Bound(d', COUNTER_MAX - 1))
  {
    if EnvelopeAllowed(d.session.value.state) {
      AnswerBound(env, d, UseStepUp, document, sending, COUNTER_MAX - 1);
    }
  }

  lemma DispatchBound(env: Env, d: Device, p: Parsed, sending: Option<Error>)
    requires d.session.Some? && Bound(d, COUNTER_MAX)
    requires !TakesExpedited(d.session.value.state, p.command) ==> Bound(d, COUNTER_MAX - 1)
    ensures var (d', error) := Dispatch(env, d, p, sending);
            Bound(d', COUNTER_MAX) && (error.None? ==> Bound(d', COUNTER_MAX - 1))
  {
    match p.command
    case Exchange(_) => ExchangeBound(env, d, p.content, sending);
    case Envelope(_, document) => EnvelopeBound(env, d, document, sending);
    case Auth1(a) => Auth1Bound(env, d, a, sending);
    case _ =>
  }

  lemma AfterWaitBound(d: Device, e: Error)
    requires Bound(d, COUNTER_MAX) && (e.InvalidAIDError? || e.InvalidINSError? ==> Bound(d, COUNTER_MAX - 1))
    ensures CounterInvariant(AfterWait(d, e))
  {
  }

  lemma AfterHandlerBound(d: Device, error: Option<Error>)
    requires Bound(d, COUNTER_MAX) && (error.None? ==> Bound(d, COUNTER_MAX - 1))
    ensures CounterInvariant(AfterHandler(d, error))
  {
  }

  lemma ParsedBound(env: Env, d: Device, command: Command, p: Parsed, sending: Option<Error>)
    requires d.session.Some? && Bound(d, COUNTER_MAX)
    requires !TakesExpedited(d.session.value.state, p.command) ==> Bound(d, COUNTER_MAX - 1)
    ensures CounterInvariant(LoopParsed(env, d, command, p, sending))
  {
    DispatchBound(env, d, p, sending);
    var (d2, error) := Dispatch(env, d, p, sending);
    AfterHandlerBound(d2, error);
  }

  lemma LoopBound(env: Env, d: Device, command: Command, fault: Option<Error>, sending: Option<Error>)
    requires d.session.Some? && Bound(d, COUNTER_MAX - 1)
    ensures CounterInvariant(LoopCommand(env, d, command, fault, sending))
  {
    WaitBound(env, d, command, fault);
    var (d1, parsed) := WaitForCommand(env, d, command, fault);
    if parsed.Err? {
      AfterWaitBound(d1, parsed.error);
    } else {
      ParsedBound(env, d1, command, parsed.value, sending);
    }
  }

  lemma FirstBound(env: Env, d: Device, command: Command, fault: Option<Error>, sending: Option<Error>)
    requires d.session.Some? && Bound(d, COUNTER_MAX - 1)
    ensures CounterInvariant(FirstCommand(env, d, command, fault, sending))
  {
    WaitBound(env, d, command, fault);
  }

  lemma StepBound(env: Env, d: Device, input: Input)
    requires CounterInvariant(d)
    ensures CounterInvariant(Step(env, d, input))
  {
    if !d.phase.Stopped? && d.session.Some? && input.Received? {
      LoopBound(env, d, input.command, input.fault, input.sending);
      FirstBound(env, d, input.command, input.fault, input.sending);
    }
  }

  lemma {:induction false} EveryRunBounded(config: Config, mailbox: Option<Box>, known: set<SubId>, env: Env,
                                           inputs: seq<Input>)
    ensures CounterInvariant(RunDevice(env, StartDevice(config, mailbox, known), inputs))
  {
    if inputs != [] {
      var before := inputs[..|inputs| - 1];
      EveryRunBounded(config, mailbox, known, env, before);
      StepBound(env, RunDevice(env, StartDevice(config, mailbox, known), before), inputs[|inputs| - 1]);
    }
  }

  /**
   * Over every run both counters of the expedited engine stay at most 0xFFFF, also between the decryption of a command
   * and the check that follows it.
   */
  lemma CounterBound(config: Config, mailbox: Option<Box>, known: set<SubId>, env: Env, inputs: seq<Input>,
                     command: Command, fault: Option<Error>)
    ensures var d := RunDevice(env, StartDevice(config, mailbox, known), inputs);
            && Bound(d, COUNTER_MAX)
            && (d.session.Some? && !d.phase.Stopped? ==> Bound(WaitForCommand(env, d, command, fault).0, COUNTER_MAX))
  {
    EveryRunBounded(config, mailbox, known, env, inputs);
    var d := RunDevice(env, StartDevice(config, mailbox, known), inputs);
    if d.session.Some? && !d.phase.Stopped? {
      WaitBound(env, d, command, fault);
    }
  }
}
