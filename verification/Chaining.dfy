/**
 * The three chaining loops of `APDU` over a message channel: command chaining (section 5.1.1.1 of
 * ISO/IEC 7816-4:2005) and GET RESPONSE (section 7.6.1). Each loop is a method; the function beside it says,
 * for every sequence of incoming messages, what the loop sends, what it leaves unread and how it ends.
 */
module Chaining {
  import opened Basics
  import opened ApduCodec
  import opened Fragmentation

  const HEADER_AP: byte := 0x00
  const HEADER_NOTIFICATION: byte := 0x02
  const ID_AP_RQ: byte := 0x00
  const ID_AP_RS: byte := 0x01
  const ID_EVENT: byte := 0x00
  const ATTRIBUTE_BUSY: byte := 0x00

  /** What `get_message` returns; NFC leaves header and id out. */
  datatype Event = Event(payload: seq<byte>, header: Option<byte>, id: Option<byte>)

  /** The messages still to come, the messages sent, and whether the last send started a timer. */
  class Channel {
    const ble: bool
    var inbox: seq<Event>
    var outbox: seq<seq<byte>>
    var timer: bool

    constructor (ble: bool, inbox: seq<Event>)
      ensures this.ble == ble && this.inbox == inbox && outbox == [] && !timer
    {
      this.ble, this.inbox, outbox, timer := ble, inbox, [], false;
    }

    method Send(message: seq<byte>, timeout: bool)
      modifies this`outbox, this`timer
      ensures outbox == old(outbox) + [message] && timer == (ble && timeout)
    {
      outbox := outbox + [message];
      timer := ble && timeout;
    }

    method Get() returns (e: Event)
      requires inbox != []
      modifies this`inbox
      ensures e == old(inbox)[0] && inbox == old(inbox)[1..]
    {
      e := inbox[0];
      inbox := inbox[1..];
    }
  }

  // ---------------------------------------------------------------- waiting for one message

  datatype Heard = Again | Got(payload: seq<byte>) | Raised(error: Error)

  /** One round of the waiting loop: a busy event is passed over only when a timer is running. */
  function Hear(timer: bool, e: Event, id: byte): Heard
  {
    var event := e.header == Some(HEADER_NOTIFICATION) && e.id == Some(ID_EVENT);
    if event && e.payload == [] then Raised(IndexError)
    else if event && e.payload[0] == ATTRIBUTE_BUSY then
      if timer then Again else Raised(UnexpectedBLEMessageError)
    else if (e.header.Some? && e.header.value != HEADER_AP) || (e.id.Some? && e.id.value != id) then
      Raised(UnexpectedBLEMessageError)
    else Got(e.payload)
  }

  predicate IsBusy(e: Event) {
    e.header == Some(HEADER_NOTIFICATION) && e.id == Some(ID_EVENT) && e.payload != [] && e.payload[0] == ATTRIBUTE_BUSY
  }

  /** The whole waiting loop; `Again` means that the messages ran out. */
  function Await(timer: bool, inbox: seq<Event>, id: byte): (r: (Heard, seq<Event>))
    ensures !r.0.Again? ==> |r.1| < |inbox|
    ensures r.0.Again? ==> r.1 == []
  {
    if inbox == [] then (Again, [])
    else
      var heard := Hear(timer, inbox[0], id);
      if heard.Again? then Await(timer, inbox[1..], id) else (heard, inbox[1..])
  }

  method AwaitMessage(ch: Channel, timer: bool, id: byte) returns (heard: Heard)
    modifies ch`inbox
    ensures (heard, ch.inbox) == Await(timer, old(ch.inbox), id)
  {
    while ch.inbox != []
      invariant Await(timer, ch.inbox, id) == Await(timer, old(ch.inbox), id)
      decreases |ch.inbox|
    {
      var e := ch.Get();
      heard := Hear(timer, e, id);
      if !heard.Again? {
        return;
      }
    }
    heard := Again;
  }

  /** How a loop ended or where it waits, everything sent by then, and what it left unread. */
  datatype Run<S> = Run(state: S, outbox: seq<seq<byte>>, inbox: seq<Event>)

  function Post(outbox: seq<seq<byte>>, message: Option<seq<byte>>): seq<seq<byte>> {
    if message.Some? then outbox + [message.value] else outbox
  }

  // ---------------------------------------------------------------- the reader: handle_chaining_send_command

  datatype ReaderState =
    | AwaitCommand(index: nat)        // waiting for the answer to this command of the chain
    | AwaitFragment(total: seq<byte>) // waiting for the answer to a GET RESPONSE
    | ReaderDone(response: Response, responseChaining: bool, commandChaining: bool)
    | ReaderFailed(error: Error)

  /** `check_chaining_response` */
  function CheckChaining(r: Response): Result<Option<nat>>
  {
    if Sw1(r.status) == SW_MORE_DATA_SW1 then Ok(Some(Sw2(r.status)))
    else if r.status == SW_SUCCESS then Ok(None)
    else Err(InvalidStatusError(r.status))
  }

  function ExpectedSize(l: Limits, remaining: nat): nat {
    if l.extended then l.maxResponseApdu else remaining
  }

  predicate CanGetResponse(l: Limits) {
    forall remaining: nat :: remaining <= 0xFF ==> Answers(l, 0, Some(ExpectedSize(l, remaining)))
  }

  /** `create_get_response_command`: the class byte is that of the last command of the chain. */
  function GetResponse(l: Limits, remaining: nat, cla: nat): Result<seq<byte>>
    requires CanGetResponse(l) && remaining <= 0xFF
  {
    match Commands(l, cla, INS_GET_RESPONSE, 0, 0, [], Some(ExpectedSize(l, remaining)))
    case Err(e) => Err(e)
    case Ok(commands) => if commands == [] then Err(IndexError) else Ok(commands[0].wire)
  }

  /** Decide on a response whose data is already part of `total`. */
  function Advance(l: Limits, commands: seq<Command>, total: seq<byte>, r: Response, chained: bool)
    : (ReaderState, Option<seq<byte>>)
    requires CanGetResponse(l) && commands != []
  {
    match CheckChaining(r)
    case Err(e) => (ReaderFailed(e), None)
    case Ok(None) =>
      (ReaderDone(ParseResponse(total + [Sw1(r.status), Sw2(r.status)]).value, chained, |commands| > 1), None)
    case Ok(Some(remaining)) =>
      match GetResponse(l, remaining, commands[|commands| - 1].cla)
      case Err(e) => (ReaderFailed(e), None)
      case Ok(wire) => (AwaitFragment(total), Some(wire))
  }

  predicate ReaderWaits(s: ReaderState, commands: seq<Command>) {
    (s.AwaitCommand? && s.index < |commands|) || s.AwaitFragment?
  }

  function ReaderOn(l: Limits, commands: seq<Command>, s: ReaderState, payload: seq<byte>)
    : (ReaderState, Option<seq<byte>>)
    requires CanGetResponse(l) && ReaderWaits(s, commands) && commands != []
  {
    match ParseResponse(payload)
    case Err(e) => (ReaderFailed(e), None)
    case Ok(r) =>
      if s.AwaitFragment? then Advance(l, commands, s.total + r.Payload(), r, true)
      else if s.index + 1 < |commands| then (AwaitCommand(s.index + 1), Some(commands[s.index + 1].wire))
      else Advance(l, commands, r.Payload(), r, false)
  }

  function RunReader(l: Limits, commands: seq<Command>, timer: bool, s: ReaderState, inbox: seq<Event>,
                     outbox: seq<seq<byte>>): Run<ReaderState>
    requires CanGetResponse(l) && commands != []
    decreases |inbox|
  {
    if !ReaderWaits(s, commands) then Run(s, outbox, inbox)
    else
      var (heard, rest) := Await(timer, inbox, ID_AP_RS);
      match heard
      case Again => Run(s, outbox, rest)
      case Raised(e) => Run(ReaderFailed(e), outbox, rest)
      case Got(payload) =>
        var (s', out) := ReaderOn(l, commands, s, payload);
        RunReader(l, commands, timer, s', rest, Post(outbox, out))
  }

  /** Goes on from a decision of `Advance`. */
  function Continue(l: Limits, commands: seq<Command>, timer: bool, decision: (ReaderState, Option<seq<byte>>),
                    inbox: seq<Event>, outbox: seq<seq<byte>>): Run<ReaderState>
    requires CanGetResponse(l) && commands != []
  {
    RunReader(l, commands, timer, decision.0, inbox, Post(outbox, decision.1))
  }

  method HandleChainingSendCommand(apdu: Apdu, ch: Channel, commands: seq<Command>, timeout: bool)
    returns (s: ReaderState)
    requires CanGetResponse(apdu.View())
    modifies ch
    ensures commands == [] ==>
              s == ReaderFailed(UnboundLocalError) && ch.outbox == old(ch.outbox) && ch.inbox == old(ch.inbox)
    ensures commands != [] ==>
              Run(s, ch.outbox, ch.inbox) == RunReader(apdu.View(), commands, ch.ble && timeout, AwaitCommand(0),
                                                       old(ch.inbox), old(ch.outbox) + [commands[0].wire])
  {
    if commands == [] {
      return ReaderFailed(UnboundLocalError);
    }
    var last;
    s, last := SendChain(apdu.View(), ch, commands, timeout);
    if last.Some? {
      s := CollectResponse(apdu, ch, commands, last.value, timeout);
    }
  }

  /** Sends every command of the chain; the answer to the last one is returned, the others are only awaited. */
  method SendChain(ghost l: Limits, ch: Channel, commands: seq<Command>, timeout: bool)
    returns (s: ReaderState, last: Option<Response>)
    requires CanGetResponse(l) && commands != []
    modifies ch
    ensures var timer := ch.ble && timeout;
            var whole := RunReader(l, commands, timer, AwaitCommand(0), old(ch.inbox),
                                   old(ch.outbox) + [commands[0].wire]);
            whole
            == if last.None? then Run(s, ch.outbox, ch.inbox)
               else Continue(l, commands, timer, Advance(l, commands, last.value.Payload(), last.value, false),
                             ch.inbox, ch.outbox)
  {
    ghost var timer := ch.ble && timeout;
    ghost var whole := RunReader(l, commands, timer, AwaitCommand(0), ch.inbox, ch.outbox + [commands[0].wire]);
    var i := 0;
    while true
      invariant i < |commands|
      invariant whole == RunReader(l, commands, timer, AwaitCommand(i), ch.inbox, ch.outbox + [commands[i].wire])
      decreases |commands| - i
    {
      ch.Send(commands[i].wire, timeout);
      var heard := AwaitMessage(ch, ch.timer, ID_AP_RS);
      if heard.Again? {
        return AwaitCommand(i), None;
      } else if heard.Raised? {
        return ReaderFailed(heard.error), None;
      }
      var response := ParseResponse(heard.payload);
      if response.Err? {
        return ReaderFailed(response.error), None;
      }
      if i + 1 == |commands| {
        return AwaitCommand(i), Some(response.value);
      }
      i := i + 1;
    }
  }

  /** The GET RESPONSE loop. */
  method CollectResponse(apdu: Apdu, ch: Channel, commands: seq<Command>, first: Response, timeout: bool)
    returns (s: ReaderState)
    requires CanGetResponse(apdu.View()) && commands != []
    modifies ch
    ensures var l, timer := apdu.View(), ch.ble && timeout;
            Run(s, ch.outbox, ch.inbox)
              == Continue(l, commands, timer, Advance(l, commands, first.Payload(), first, false),
                                                    old(ch.inbox), old(ch.outbox))
  {
    ghost var l, timer := apdu.View(), ch.ble && timeout;
    ghost var whole := Continue(l, commands, timer, Advance(l, commands, first.Payload(), first, false), ch.inbox,
                                ch.outbox);
    var total, response, chained := first.Payload(), first, false;
    var remaining := CheckChaining(response);
    while remaining.Ok? && remaining.value.Some?
      invariant remaining == CheckChaining(response)
      invariant whole == Continue(l, commands, timer, Advance(l, commands, total, response, chained), ch.inbox,
                                  ch.outbox)
      decreases |ch.inbox|
    {
      chained := true;
      var getResponse := apdu.CreateCommand(commands[|commands| - 1].cla, INS_GET_RESPONSE, 0, 0, [],
                                            Some(ExpectedSize(apdu.View(), remaining.value.value)));
      if getResponse.Err? {
        return ReaderFailed(getResponse.error);
      }
      if getResponse.value == [] {
        return ReaderFailed(IndexError);
      }
      ch.Send(getResponse.value[0].wire, timeout);
      var heard := AwaitMessage(ch, ch.timer, ID_AP_RS);
      if heard.Again? {
        return AwaitFragment(total);
      } else if heard.Raised? {
        return ReaderFailed(heard.error);
      }
      var parsed := ParseResponse(heard.payload);
      if parsed.Err? {
        assert RunReader(l, commands, timer, ReaderFailed(parsed.error), ch.inbox, ch.outbox)
            == Run(ReaderFailed(parsed.error), ch.outbox, ch.inbox);
        return ReaderFailed(parsed.error);
      }
      response := parsed.value;
      total := total + response.Payload();
      remaining := CheckChaining(response);
    }
    if remaining.Err? {
      return ReaderFailed(remaining.error);
    }
    return ReaderDone(ParseResponse(total + [Sw1(response.status), Sw2(response.status)]).value, chained,
                      |commands| > 1);
  }

  // ---------------------------------------------------------------- the device: handle_chaining_receive_command

  datatype ReceiveState =
    | Collecting(total: seq<byte>)
    | Received(command: Command, chaining: bool)
    | ReceiveFailed(error: Error)

  /** The interim answer to a fragment: success and no data. */
  const ACKNOWLEDGE: seq<byte> := U16(SW_SUCCESS)

  function ReceiveFirst(bytes: seq<byte>): (ReceiveState, Option<seq<byte>>)
  {
    match Parse(bytes)
    case Err(e) => (ReceiveFailed(e), None)
    case Ok(c) => if c.Chained() then (Collecting(c.Payload()), Some(ACKNOWLEDGE)) else (Received(c, false), None)
  }

  function ReceiveOn(total: seq<byte>, payload: seq<byte>): (ReceiveState, Option<seq<byte>>)
  {
    match Parse(payload)
    case Err(e) => (ReceiveFailed(e), None)
    case Ok(c) =>
      if c.Chained() then (Collecting(total + c.Payload()), Some(ACKNOWLEDGE))
      else
        (match Encode(c.cla, c.ins, c.p1, c.p2, total + c.Payload(), Some(c.le))
         case Err(e) => ReceiveFailed(e)
         case Ok(whole) => Received(whole, true), None)
  }

  function RunReceive(timer: bool, s: ReceiveState, inbox: seq<Event>, outbox: seq<seq<byte>>): Run<ReceiveState>
    decreases |inbox|
  {
    if !s.Collecting? then Run(s, outbox, inbox)
    else
      var (heard, rest) := Await(timer, inbox, ID_AP_RQ);
      match heard
      case Again => Run(s, outbox, rest)
      case Raised(e) => Run(ReceiveFailed(e), outbox, rest)
      case Got(payload) =>
        var (s', out) := ReceiveOn(s.total, payload);
        RunReceive(timer, s', rest, Post(outbox, out))
  }

  method HandleChainingReceiveCommand(ch: Channel, bytes: seq<byte>, timeout: bool) returns (s: ReceiveState)
    modifies ch
    ensures var (s0, out) := ReceiveFirst(bytes);
            Run(s, ch.outbox, ch.inbox) == RunReceive(old(ch.timer), s0, old(ch.inbox), Post(old(ch.outbox), out))
  {
    var first := Parse(bytes);
    if first.Err? {
      return ReceiveFailed(first.error);
    }
    var command := first.value;
    if !command.Chained() {
      return Received(command, false);
    }
    var total := command.Payload();
    var requiresTimer := ch.timer;
    ghost var whole := RunReceive(requiresTimer, Collecting(total), ch.inbox, ch.outbox + [ACKNOWLEDGE]);
    while command.Chained()
      invariant 0 <= command.le
      invariant command.Chained() ==>
          whole == RunReceive(requiresTimer, Collecting(total), ch.inbox, ch.outbox + [ACKNOWLEDGE])
      invariant !command.Chained() ==>
          && ch.outbox == whole.outbox && whole.inbox == ch.inbox
          && whole.state == match Encode(command.cla, command.ins, command.p1, command.p2, total, Some(command.le))
                            case Err(e) => ReceiveFailed(e)
                            case Ok(c) => Received(c, true)
      decreases command.Chained(), |ch.inbox|
    {
      var acknowledge := EncodeResponse(None, SW_SUCCESS);
      assert acknowledge.value.wire == ACKNOWLEDGE;
      ch.Send(acknowledge.value.wire, requiresTimer && timeout);
      var heard := AwaitMessage(ch, requiresTimer, ID_AP_RQ);
      if heard.Again? {
        return Collecting(total);
      } else if heard.Raised? {
        return ReceiveFailed(heard.error);
      }
      var next := Parse(heard.payload);
      if next.Err? {
        return ReceiveFailed(next.error);
      }
      command := next.value;
      total := total + command.Payload();
    }
    var rebuilt := Encode(command.cla, command.ins, command.p1, command.p2, total, Some(command.le));
    if rebuilt.Err? {
      return ReceiveFailed(rebuilt.error);
    }
    return Received(rebuilt.value, true);
  }

  /** The last fragment completes the command exactly when the length of the whole payload fits three bytes. */
  lemma RebuiltIff(total: seq<byte>, payload: seq<byte>)
    requires Parse(payload).Ok? && !Parse(payload).value.Chained()
    ensures var (s, out) := ReceiveOn(total, payload);
            var all := total + Parse(payload).value.Payload();
            && out.None?
            && (if |all| < 0x100_0000 then s.Received? && s.command.Payload() == all
                else s == ReceiveFailed(OverflowError))
  {
    var c := Parse(payload).value;
    assert c.le < 0x1_0000;
    assert LeField(|total + c.Payload()|, Some(c.le)).Ok?;
  }

  // ---------------------------------------------------------------- the device: handle_chaining_send_response

  datatype SendState =
    | AwaitGet(index: nat)   // fragment `index` is sent, the next one has not been asked for
    | SendDone
    | SendFailed(error: Error)

  /**
   * `parse_command` followed by the test on INS. A command other than GET RESPONSE fails either in its own parser
   * or in that test; both end the loop, and the model names the error of the test.
   */
  function ParseGetResponse(payload: seq<byte>): Result<Command>
  {
    match Parse(payload)
    case Err(e) => Err(e)
    case Ok(c) =>
      if c.ins != INS_GET_RESPONSE then Err(InvalidINSError)
      else if c.cla != 0x00 && c.cla != 0x10 then Err(InvalidCLAError)
      else if c.p1 != 0 || c.p2 != 0 then Err(InvalidParameterError)
      else if c.data.Some? then Err(InvalidCommandDataError)
      else Ok(c)
  }

  /** After sending fragment i: a success status stops the loop, and so does the end of the list. */
  function Sent(responses: seq<Response>, i: nat): (SendState, Option<seq<byte>>)
  {
    if i >= |responses| then (SendDone, None)
    else
      (if |responses| == 1 || responses[i].status == SW_SUCCESS then SendDone else AwaitGet(i), Some(responses[i].wire))
  }

  function SendOn(responses: seq<Response>, i: nat, payload: seq<byte>): (SendState, Option<seq<byte>>)
  {
    match ParseGetResponse(payload)
    case Err(e) => (SendFailed(e), None)
    case Ok(_) => Sent(responses, i + 1)
  }

  function RunSend(responses: seq<Response>, timer: bool, s: SendState, inbox: seq<Event>,
                   outbox: seq<seq<byte>>): Run<SendState>
    decreases |inbox|
  {
    if !s.AwaitGet? then Run(s, outbox, inbox)
    else
      var (heard, rest) := Await(timer, inbox, ID_AP_RQ);
      match heard
      case Again => Run(s, outbox, rest)
      case Raised(e) => Run(SendFailed(e), outbox, rest)
      case Got(payload) =>
        var (s', out) := SendOn(responses, s.index, payload);
        RunSend(responses, timer, s', rest, Post(outbox, out))
  }

  method HandleChainingSendResponse(ch: Channel, responses: seq<Response>, timeout: bool) returns (s: SendState)
    modifies ch
    ensures var (s0, out) := Sent(responses, 0);
            Run(s, ch.outbox, ch.inbox) ==
            RunSend(responses, ch.ble && timeout, s0, old(ch.inbox), Post(old(ch.outbox), out))
  {
    if |responses| == 1 {
      ch.Send(responses[0].wire, timeout);
      return SendDone;
    }
    ghost var timer := ch.ble && timeout;
    ghost var (s0, out0) := Sent(responses, 0);
    ghost var whole := RunSend(responses, timer, s0, ch.inbox, Post(ch.outbox, out0));
    for i := 0 to |responses|
      invariant var (s', out) := Sent(responses, i);
                whole == RunSend(responses, timer, s', ch.inbox, Post(ch.outbox, out))
    {
      ch.Send(responses[i].wire, timeout);
      if responses[i].status == SW_SUCCESS {
        return SendDone;
      }
      var heard := AwaitMessage(ch, ch.timer, ID_AP_RQ);
      if heard.Again? {
        return AwaitGet(i);
      } else if heard.Raised? {
        return SendFailed(heard.error);
      }
      var command := ParseGetResponse(heard.payload);
      if command.Err? {
        return SendFailed(command.error);
      }
    }
    return SendDone;
  }

  // ---------------------------------------------------------------- busy events

  /** The messages without the busy events. */
  function Quiet(inbox: seq<Event>): (quiet: seq<Event>)
    ensures |quiet| <= |inbox|
  {
    if inbox == [] then []
    else if IsBusy(inbox[0]) then Quiet(inbox[1..])
    else [inbox[0]] + Quiet(inbox[1..])
  }

  lemma {:induction false} AwaitInQuiet(inbox: seq<Event>, id: byte)
    ensures var (heard, rest) := Await(true, inbox, id);
            Await(true, Quiet(inbox), id) == (heard, Quiet(rest))
  {
    if inbox != [] {
      var tail := inbox[1..];
      if IsBusy(inbox[0]) {
        AwaitInQuiet(tail, id);
      } else {
        assert Quiet(inbox)[1..] == Quiet(tail);
      }
    }
  }

  /** Busy events anywhere among the incoming messages change neither what the reader sends nor how it ends. */
  lemma {:induction false} ReaderIgnoresBusy(l: Limits, commands: seq<Command>, s: ReaderState, inbox: seq<Event>,
                                             outbox: seq<seq<byte>>)
    requires CanGetResponse(l) && commands != []
    ensures var run := RunReader(l, commands, true, s, inbox, outbox);
            RunReader(l, commands, true, s, Quiet(inbox), outbox) == Run(run.state, run.outbox, Quiet(run.inbox))
    decreases |inbox|
  {
    if ReaderWaits(s, commands) {
      AwaitInQuiet(inbox, ID_AP_RS);
      var (heard, rest) := Await(true, inbox, ID_AP_RS);
      if heard.Got? {
        var (s', out) := ReaderOn(l, commands, s, heard.payload);
        ReaderIgnoresBusy(l, commands, s', rest, Post(outbox, out));
      }
    }
  }

  lemma {:induction false} ReceiveIgnoresBusy(s: ReceiveState, inbox: seq<Event>, outbox: seq<seq<byte>>)
    ensures var run := RunReceive(true, s, inbox, outbox);
            RunReceive(true, s, Quiet(inbox), outbox) == Run(run.state, run.outbox, Quiet(run.inbox))
    decreases |inbox|
  {
    if s.Collecting? {
      AwaitInQuiet(inbox, ID_AP_RQ);
      var (heard, rest) := Await(true, inbox, ID_AP_RQ);
      if heard.Got? {
        var (s', out) := ReceiveOn(s.total, heard.payload);
        ReceiveIgnoresBusy(s', rest, Post(outbox, out));
      }
    }
  }

  lemma {:induction false} SendIgnoresBusy(responses: seq<Response>, s: SendState, inbox: seq<Event>,
                                           outbox: seq<seq<byte>>)
    ensures var run := RunSend(responses, true, s, inbox, outbox);
            RunSend(responses, true, s, Quiet(inbox), outbox) == Run(run.state, run.outbox, Quiet(run.inbox))
    decreases |inbox|
  {
    if s.AwaitGet? {
      AwaitInQuiet(inbox, ID_AP_RQ);
      var (heard, rest) := Await(true, inbox, ID_AP_RQ);
      if heard.Got? {
        var (s', out) := SendOn(responses, s.index, heard.payload);
        SendIgnoresBusy(responses, s', rest, Post(outbox, out));
      }
    }
  }

  /** Without a timer the first busy event ends each loop with an error, and nothing more is sent. */
  lemma BusyWithoutTimer(l: Limits, commands: seq<Command>, r: ReaderState, c: ReceiveState, responses: seq<Response>,
                         d: SendState, inbox: seq<Event>, outbox: seq<seq<byte>>)
    requires CanGetResponse(l) && commands != [] && inbox != [] && IsBusy(inbox[0])
    ensures ReaderWaits(r, commands) ==>
              RunReader(l, commands, false, r, inbox, outbox)
                == Run(ReaderFailed(UnexpectedBLEMessageError), outbox, inbox[1..])
    ensures c.Collecting? ==>
              RunReceive(false, c, inbox, outbox) == Run(ReceiveFailed(UnexpectedBLEMessageError), outbox, inbox[1..])
    ensures d.AwaitGet? ==>
              RunSend(responses, false, d, inbox, outbox)
                == Run(SendFailed(UnexpectedBLEMessageError), outbox, inbox[1..])
  {
    assert Await(false, inbox, ID_AP_RS) == (Raised(UnexpectedBLEMessageError), inbox[1..]);
    assert Await(false, inbox, ID_AP_RQ) == (Raised(UnexpectedBLEMessageError), inbox[1..]);
  }
}
