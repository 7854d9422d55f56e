/** How the two loops of the device go on behind anything but a command of the handshake, an EXCHANGE or an ENVELOPE. */
module UserLoops {
  import opened Basics
  import opened MailboxStore
  import opened UserMachine
  import opened UserEngines
  import opened UserOrder
  import opened UserHandshake

  // ---------------------------------------------------------------- nothing or nothing usable is received

  /** What an error of the wait leads to, none if the loop passes over it. */
  function WaitOutcome(config: Config, e: Error): Option<Outcome> {
    match e
    case InvalidAIDError => None
    case InvalidINSError => None
    case InvalidCommandError => Some(Refuses)
    case InvalidCLAError => Some(Refuses)
    case InvalidParameterError => Some(Refuses)
    case InvalidLcError => Some(Refuses)
    case InvalidLeError => Some(Refuses)
    case InvalidCommandDataError => Some(Refuses)
    case VerificationError => Some(Refuses)
    case NoDeviceConnectedError => Some(if config.mode.MainLoop? then Refuses else Raises(e))
    case TimeoutError => Some(Raises(if config.bleLink then TimeoutError else InvalidProtocolTypeError))
    case _ => Some(Raises(e))
  }

  /** The loop passes over something, or it leads to an outcome. */
  predicate LeadsOn(d: Device, d': Device, outcome: Option<Outcome>) {
    if outcome.None? then d' == d else Leads(d, d', outcome.value)
  }

  lemma WaitLeads(d: Device, d1: Device, e: Error)
    requires Live(d) && d1.mailbox == d.mailbox && d1.log == d.log && d1.config == d.config && d1.phase == d.phase
    requires d1 == d || (EndsSession(e) && !PassedOver(e))
    ensures LeadsOn(d, AfterWait(d1, e), WaitOutcome(d.config, e))
  {
  }

  /** No message came, or only a part of one. */
  lemma NotReceivedLeads(env: Env, d: Device, e: Error)
    requires Live(d)
    ensures LeadsOn(d, Step(env, d, NotReceived(e)), WaitOutcome(d.config, e))
  {
    WaitLeads(d, d, e);
  }

  /** GET DATA and a SELECT of another application, which are answered before they are parsed. */
  predicate AnsweredFirst(command: Command) {
    command.GetData? || (command.Select? && (!command.parametersValid || command.aid.OtherAid?))
  }

  /**
   * What a parser's error leads to. An error that the loop passes over has ended the session before, and so the loop is
   * left for want of one.
   */
  function FaultOutcome(config: Config, command: Command, fault: Error): Option<Outcome> {
    if AnsweredFirst(command) then None
    else if PassedOver(fault) then Some(Raises(SessionError))
    else WaitOutcome(config, fault)
  }

  lemma FaultLeads(env: Env, d: Device, command: Command, fault: Error, sending: Option<Error>)
    requires Live(d)
    ensures LeadsOn(d, Step(env, d, Received(command, Some(fault), sending)), FaultOutcome(d.config, command, fault))
  {
    var (d1, parsed) := WaitForCommand(env, d, command, Some(fault));
    if !AnsweredFirst(command) && !PassedOver(fault) {
      WaitLeads(d, d1, fault);
    }
  }

  /** The loop passes over these two commands, whatever state it is in. */
  lemma PassesOver(env: Env, d: Device, command: Command, fault: Option<Error>, sending: Option<Error>)
    requires Live(d) && AnsweredFirst(command)
    ensures Step(env, d, Received(command, fault, sending)) == d
  {
  }

  /**
   * An unknown instruction is meant to be passed over as well, but the session is over by then: any run of the main
   * loop that receives one is left with a SessionError, and takes no command any more.
   */
  lemma UnknownStopsLoop(env: Env, d: Device, sending: Option<Error>, more: seq<Input>)
    requires Live(d)
    ensures Step(env, d, Received(Unknown, None, sending)).phase == Stopped(Some(SessionError))
    ensures RunDevice(env, Step(env, d, Received(Unknown, None, sending)), more)
         == Step(env, d, Received(Unknown, None, sending))
  {
    StoppedStays(env, Step(env, d, Received(Unknown, None, sending)), more);
  }

  lemma {:induction false} StoppedStays(env: Env, d: Device, more: seq<Input>)
    requires d.phase.Stopped?
    ensures RunDevice(env, d, more) == d
  {
    if more != [] {
      StoppedStays(env, d, more[..|more| - 1]);
    }
  }

  // ---------------------------------------------------------------- control flow and BLE messages

  /** A CONTROL FLOW ends the session; the main loop begins anew, and a single transaction returns. */
  lemma ControlFlowLeads(env: Env, d: Device, sending: Option<Error>)
    requires Live(d) && !Blocked(d)
    ensures var d' := Step(env, d, Received(ControlFlow, None, sending));
            && d'.mailbox == d.mailbox && d'.log == d.log
            && match sending
               case None =>
                 if d.config.mode.MainLoop? then Ends(d, d')
                 else d'.phase == Stopped(None) && (d'.session.None? <==> d.config.terminateAtEnd)
               case Some(e) => Leads(d, d', if e.TimeoutError? then Raises(e) else Fate(d.config, e))
  {
    assert WaitForCommand(env, d, ControlFlow, None) == (d, Ok(Parsed(ControlFlow, None)));
    ControlFlowParsed(env, d, sending);
  }

  lemma ControlFlowParsed(env: Env, d: Device, sending: Option<Error>)
    requires Live(d) && !Blocked(d)
    ensures LoopParsed(env, d, ControlFlow, Parsed(ControlFlow, None), sending)
         == AfterCommand(WithState(d, SELECT_DONE), ControlFlow, sending)
  {
  }

  /** A BLE message: the session goes on, or ends with an error or at the end of a single transaction. */
  lemma BleLeads(env: Env, d: Device, apc: bool, completed: bool, raised: Option<Error>)
    requires Live(d)
    ensures var d' := Step(env, d, Ble(apc, completed, raised));
            && d'.mailbox == d.mailbox && d'.log == d.log
            && match raised
               case Some(e) => Leads(d, d', Fate(d.config, e))
               case None =>
                 if completed && d.config.mode.SingleTransaction? then
                   d'.phase == Stopped(None) && (d'.session.None? <==> d.config.terminateAtEnd)
                 else Leads(d, d', Serves(if apc then [ProtocolCompleted] else []))
  {
  }

  // ---------------------------------------------------------------- before the first command

  /**
   * On NFC a session begins with a SELECT of the expedited phase; whatever else happens before it leaves the loop,
   * except for what is answered first and for a wait that the loop passes over.
   */
  lemma FirstLeads(config: Config, mailbox: Option<Box>, known: set<SubId>, env: Env, inputs: seq<Input>, input: Input)
    requires var d := RunDevice(env, StartDevice(config, mailbox, known), inputs);
             d.phase.Initiating? && d.session.Some?
    ensures var d := RunDevice(env, StartDevice(config, mailbox, known), inputs);
            var d' := Step(env, d, input);
            match input
            case Busy => d' == d
            case Ble(_, _, _) => d'.phase == Stopped(Some(UnexpectedBLEMessageError))
            case NotReceived(e) =>
              if PassedOver(e) then d' == d
              else if e.TimeoutError? then
                d'.phase == Stopped(Some(if d.config.bleLink then TimeoutError else InvalidProtocolTypeError))
              else d'.phase == Stopped(Some(e))
            case Received(command, fault, sending) =>
              if AnsweredFirst(command) then d' == d
              else if command == Select(Expedited, true) && fault.None? && sending.None? then
                Live(d') && d'.trace == d.trace + [Event.Selected(Expedited)]
              else d'.phase.Stopped? && NothingElse(d, d')
  {
    var d := RunDevice(env, StartDevice(config, mailbox, known), inputs);
    EveryRunInOrder(config, mailbox, known, env, inputs);
    match input
    case Received(command, fault, sending) =>
      if !AnsweredFirst(command) {
        FirstReceived(env, d, command, fault, sending);
      }
    case _ =>
  }

  lemma FirstReceived(env: Env, d: Device, command: Command, fault: Option<Error>, sending: Option<Error>)
    requires d.phase.Initiating? && d.session.Some? && Stage(d.trace) == Started && Stands(d)
    requires !AnsweredFirst(command)
    ensures var d' := FirstCommand(env, d, command, fault, sending);
            if command == Select(Expedited, true) && fault.None? && sending.None? then
              Live(d') && d'.trace == d.trace + [Event.Selected(Expedited)]
            else d'.phase.Stopped? && NothingElse(d, d')
  {
  }
}
