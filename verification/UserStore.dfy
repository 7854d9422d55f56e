/** The mailbox and the atomic session over whole runs of the device, sessions and errors included. */
module UserStore {
  import opened Basics
  import opened MailboxStore
  import opened MailboxExchange
  import opened UserMachine

  function StoreOf(d: Device): Store
    requires d.mailbox.Some?
  {
    Store(d.mailbox.value, d.log)
  }

  /** The store is as it was, or one accepted exchange was performed. */
  predicate Moved(d: Device, d': Device, r: Option<Requests>) {
    && d.mailbox.Some? && d'.mailbox.Some?
    && (match r
        case None => StoreOf(d') == StoreOf(d)
        case Some(q) => q.Parsed() && Check(d.mailbox, q).Accepted? && StoreOf(d') == Perform(StoreOf(d), q).0)
  }

  lemma WaitMoves(env: Env, d: Device, command: Command, fault: Option<Error>)
    requires env.Valid() && d.session.Some? && d.mailbox.Some?
    ensures var (d', parsed) := WaitForCommand(env, d, command, fault);
            && d'.mailbox == d.mailbox && d'.log == d.log
            && (parsed.Ok? && parsed.value.content.Some? ==> parsed.value.content.value.requests.Parsed())
  {
  }

  lemma AnswerMoves(env: Env, d: Device, choice: Choice, payload: seq<byte>, sending: Option<Error>)
    requires d.session.Some?
    ensures var d' := Answer(env, d, choice, payload, sending).0; d'.mailbox == d.mailbox && d'.log == d.log
  {
  }

  /** Whatever sending raises, the requests have been performed. */
  lemma MailboxPerforms(env: Env, d: Device, choice: Choice, q: Requests, sending: Option<Error>)
    requires d.session.Some? && d.mailbox.Some?
    ensures var d' := HandleMailbox(env, d, choice, q, sending).0;
            d'.mailbox.Some? && StoreOf(d') == Perform(StoreOf(d), q).0
  {
    var payload := Framed(ReadAll(d.mailbox.value, q.readRequests)) + EXCHANGE_SUCCESS;
    var store := Perform(Store(d.mailbox.value, d.log), q).0;
    AnswerMoves(env, d.(mailbox := Some(store.box), log := store.session), choice, payload, sending);
  }

  lemma MailboxMoves(env: Env, d: Device, choice: Choice, q: Requests, sending: Option<Error>)
    requires d.session.Some? && d.mailbox.Some? && q.Parsed() && Check(d.mailbox, q).Accepted?
    ensures Moved(d, HandleMailbox(env, d, choice, q, sending).0, Some(q))
  {
    MailboxPerforms(env, d, choice, q, sending);
  }

  lemma ContentMoves(env: Env, d: Device, choice: Choice, content: Content, sending: Option<Error>)
    returns (r: Option<Requests>)
    requires d.session.Some? && d.mailbox.Some? && content.requests.Parsed()
    ensures Moved(d, HandleContent(env, d, choice, content, sending).0, r)
  {
    var (d1, error) := Prepare(d, content);
    assert d1.mailbox == d.mailbox && d1.log == d.log;
    AnswerMoves(env, d1, choice, EXCHANGE_ERROR, sending);
    if error.None? && Check(d1.mailbox, content.requests).Accepted? && Notified(content.notifyTags) {
      MailboxMoves(env, d1, choice, content.requests, sending);
      r := Some(content.requests);
    } else {
      r := None;
    }
  }

  lemma ExchangeMoves(env: Env, d: Device, content: Option<Content>, sending: Option<Error>)
    returns (r: Option<Requests>)
    requires d.session.Some? && d.mailbox.Some? && (content.Some? ==> content.value.requests.Parsed())
    ensures Moved(d, HandleExchange(env, d, content, sending).0, r)
  {
    r := None;
    var s := d.session.value;
    var choice := AnswerChoice(s.state);
    if ExchangeAllowed(s.state) && content.Some? && EngineOf(s, choice).Some?
      && EngineOf(s, choice).value.CountersValid() {
      var d1 := Entered(d);
      r := ContentMoves(env, d1, choice, content.value, sending);
      SameStore(d1, HandleContent(env, d1, choice, content.value, sending).0, d,
                HandleExchange(env, d, content, sending).0, r);
    }
  }

  lemma Auth1KeepsStore(env: Env, d: Device, a: Auth1Data, sending: Option<Error>)
    requires d.session.Some?
    ensures var d' := HandleAuth1(env, d, a, sending).0; d'.mailbox == d.mailbox && d'.log == d.log
  {
  }

  lemma DispatchMoves(env: Env, d: Device, p: Parsed, sending: Option<Error>) returns (r: Option<Requests>)
    requires d.session.Some? && d.mailbox.Some? && (p.content.Some? ==> p.content.value.requests.Parsed())
    ensures Moved(d, Dispatch(env, d, p, sending).0, r)
  {
    r := None;
    match p.command
    case Exchange(_) => r := ExchangeMoves(env, d, p.content, sending);
    case Envelope(_, document) => AnswerMoves(env, d, UseStepUp, document, sending);
    case Auth1(a) => Auth1KeepsStore(env, d, a, sending);
    case _ =>
  }

  /** Whatever ends a round, it leaves mailbox and log alone. */
  lemma EndsKeepStore(d: Device, e: Error, error: Option<Error>)
    ensures AfterWait(d, e).mailbox == d.mailbox && AfterWait(d, e).log == d.log
    ensures AfterHandler(d, error).mailbox == d.mailbox && AfterHandler(d, error).log == d.log
  {
  }

  lemma SameStore(d: Device, d': Device, e: Device, e': Device, r: Option<Requests>)
    requires Moved(d, d', r)
    requires e.mailbox == d.mailbox && e.log == d.log && e'.mailbox == d'.mailbox && e'.log == d'.log
    ensures Moved(e, e', r)
  {
  }

  /** Behind the dispatch, and instead of it, a loop leaves mailbox and log alone. */
  lemma ParsedKeepsStore(env: Env, d: Device, command: Command, p: Parsed, sending: Option<Error>)
    requires d.session.Some?
    ensures var d', d2 := LoopParsed(env, d, command, p, sending), Dispatch(env, d, p, sending).0;
            if d.config.mode.SingleTransaction? && d.log.started && !command.Exchange? then
              d'.mailbox == d.mailbox && d'.log == d.log
            else d'.mailbox == d2.mailbox && d'.log == d2.log
  {
    var (d2, error) := Dispatch(env, d, p, sending);
    EndsKeepStore(d2, AccessProtocolError, error);
  }

  lemma ParsedMoves(env: Env, d: Device, command: Command, p: Parsed, sending: Option<Error>)
    returns (r: Option<Requests>)
    requires d.session.Some? && d.mailbox.Some? && (p.content.Some? ==> p.content.value.requests.Parsed())
    ensures Moved(d, LoopParsed(env, d, command, p, sending), r)
  {
    r := None;
    ParsedKeepsStore(env, d, command, p, sending);
    if !(d.config.mode.SingleTransaction? && d.log.started && !command.Exchange?) {
      r := DispatchMoves(env, d, p, sending);
      SameStore(d, Dispatch(env, d, p, sending).0, d, LoopParsed(env, d, command, p, sending), r);
    }
  }

  lemma LoopMoves(env: Env, d: Device, command: Command, fault: Option<Error>, sending: Option<Error>)
    returns (r: Option<Requests>)
    requires env.Valid() && d.session.Some? && d.mailbox.Some?
    ensures Moved(d, LoopCommand(env, d, command, fault, sending), r)
  {
    WaitMoves(env, d, command, fault);
    var (d1, parsed) := WaitForCommand(env, d, command, fault);
    if parsed.Err? {
      r := None;
      EndsKeepStore(d1, parsed.error, None);
    } else {
      r := ParsedMoves(env, d1, command, parsed.value, sending);
      SameStore(d1, LoopParsed(env, d1, command, parsed.value, sending), d,
                LoopCommand(env, d, command, fault, sending), r);
    }
  }

  lemma StepMoves(env: Env, d: Device, input: Input) returns (r: Option<Requests>)
    requires env.Valid() && d.mailbox.Some?
    ensures Moved(d, Step(env, d, input), r)
  {
    r := None;
    if d.phase.Looping? && d.session.Some? && input.Received? {
      r := LoopMoves(env, d, input.command, input.fault, input.sending);
    } else if d.phase.Initiating? && d.session.Some? && input.Received? {
      WaitMoves(env, d, input.command, input.fault);
    }
  }

  /**
   * Over every run the mailbox and the log of the device are those of a run of accepted exchanges: ending a session,
   * restarting or failing neither changes a byte nor clears the log of an open atomic session.
   */
  lemma {:induction false} RunIsExchanges(config: Config, box: Box, known: set<SubId>, env: Env, inputs: seq<Input>)
    returns (exchanges: seq<Requests>)
    requires env.Valid()
    ensures var d := RunDevice(env, StartDevice(config, Some(box), known), inputs);
            && d.mailbox.Some? && Parses(exchanges) && |exchanges| <= |inputs|
            && StoreOf(d) == RunExchanges(Store(box, Session([], false)), exchanges)
  {
    if inputs == [] {
      exchanges := [];
    } else {
      var n := |inputs| - 1;
      var before := RunIsExchanges(config, box, known, env, inputs[..n]);
      var r := StepMoves(env, RunDevice(env, StartDevice(config, Some(box), known), inputs[..n]), inputs[n]);
      exchanges := if r.Some? then before + [r.value] else before;
      assert r.Some? ==> exchanges[..|before|] == before;
    }
  }

  /**
   * One more input after any run. While an atomic session is open no byte changes. Bytes change, or a session closes,
   * only by an accepted EXCHANGE that applies the pending log and its own requests, the last one covering a byte
   * winning.
   */
  lemma DeviceAtomicSessions(config: Config, box: Box, known: set<SubId>, env: Env, inputs: seq<Input>, input: Input)
    returns (r: Option<Requests>)
    requires env.Valid()
    ensures var d := RunDevice(env, StartDevice(config, Some(box), known), inputs);
            var d' := Step(env, d, input);
            && d.mailbox.Some? && d'.mailbox.Some? && |d'.mailbox.value.data| == |box.data| == |d.mailbox.value.data|
            && (d'.log.started ==> d'.mailbox == d.mailbox)
            && (d'.mailbox != d.mailbox || (d.log.started && !d'.log.started) ==>
                  && r.Some? && d'.log == Session([], false)
                  && Applicable(d.mailbox.value, d.log.commands + r.value.Log())
                  && LastWins(d.mailbox.value.data, d.log.commands + r.value.Log(), d'.mailbox.value.data))
  {
    var exchanges := RunIsExchanges(config, box, known, env, inputs);
    var d := RunDevice(env, StartDevice(config, Some(box), known), inputs);
    r := StepMoves(env, d, input);
    if r.Some? {
      AtomicSessions(box, exchanges, r.value);
      RunIsHistory(box, exchanges);
      HistoryApplicable(box, exchanges);
      ApplicableLaw(box, Applied(box, exchanges));
      CheckSameShape(box, d.mailbox.value, r.value);
    } else {
      AtomicSessions(box, exchanges, Requests(None, [], [], []));
    }
  }
}
