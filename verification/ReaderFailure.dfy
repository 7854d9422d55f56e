/**
 * The failure process of the reader, which sends a command whose own failure starts the failure process again. The
 * peer is arbitrary: it is a function from the number of messages sent so far to a reply.
 */
module ReaderFailure {
  import opened Basics
  import opened Fragmentation

  datatype Reply =
    | StatusWord(status: nat)    // a status that does not indicate success
    | BadFormat                  // a response that cannot be parsed
    | BadTag                     // a response that does not decrypt
    | Timeout
    | NotBuilt(error: Error)     // raised by `create_command`, before anything is sent
    | Broken(error: Error)       // anything else that is raised on the way
    | Answer(payload: seq<byte>) // the decrypted payload of a successful response

  type Peer = nat -> Reply

  datatype FailureState = READER_STATUS | STATUS_WORD | B1_B2_ERROR

  const S2_NONE: nat := 0x00
  const S2_PROTOCOL_VERSION_NOT_SUPPORTED: nat := 0x27
  const INVALID_DATA_FORMAT: nat := 0x0006
  const INVALID_DATA_CONTENT: nat := 0x0007

  /** What leaves: an EXCHANGE under either engine, perhaps with a reader status, a CONTROL FLOW, or an error event. */
  datatype Message =
    | ExchangeMessage(stepup: bool, status: Option<nat>)
    | ControlFlowMessage(s2: nat)
    | ErrorEvent

  /** Which engines a session has. */
  datatype Engines = Engines(expedited: bool, stepup: bool)

  /** `log` are the messages so far, `failures` counts those that a failure process sent, `deepest` is its nesting. */
  datatype Reader = Reader(transport: Transport, bleLink: bool, test: bool, session: Option<Engines>, started: bool,
                           log: seq<Message>, failures: nat, deepest: nat)
  {
    function Sent(): nat {
      |log|
    }

    /** A message leaves, from inside `depth` failure processes. */
    function Sending(depth: nat, m: Message): Reader {
      this.(log := log + [m], failures := failures + if depth > 0 then 1 else 0)
    }

    predicate IsNfc() {
      transport.Nfc? || transport.SocketNfc?
    }

    function Rank(): nat {
      if started then 0 else 1
    }
  }

  // ---------------------------------------------------------------- read data

  const EXCHANGE_OK: seq<byte> := [0x00, 0x02, 0x00, 0x00]

  /** `payload[-4:]` */
  function StatusCode(payload: seq<byte>): seq<byte> {
    if |payload| <= 4 then payload else payload[|payload| - 4..]
  }

  /** `payload[:-4]` */
  function DataPart(payload: seq<byte>): seq<byte> {
    if |payload| <= 4 then [] else payload[..|payload| - 4]
  }

  /** The part at position i, behind its two-byte length; at the end of the data it may be cut short. */
  function PartAt(data: seq<byte>, i: nat): seq<byte> {
    Slice(data, i + 2, i + 2 + BigEndian(Slice(data, i, i + 2)))
  }

  function NextAt(data: seq<byte>, i: nat): (next: nat)
    ensures next > i
  {
    i + 2 + BigEndian(Slice(data, i, i + 2))
  }

  /** The parts from position i on. */
  function Unframed(data: seq<byte>, i: nat): seq<seq<byte>>
    decreases |data| - i
  {
    if i >= |data| then [] else [PartAt(data, i)] + Unframed(data, NextAt(data, i))
  }

  /**
   * What `handle_exchange` returns for a successful status; `requested` counts the read requests, if there was a list.
   */
  function ReadData(requested: Option<nat>, data: seq<byte>): Result<seq<seq<byte>>>
  {
    if data == [] then
      if requested.Some? && requested.value != 0 then Err(AccessProtocolError) else Ok([])
    else if requested.None? then Err(TypeError) // the message of the error takes the length of the missing list
    else if |Unframed(data, 0)| != requested.value then Err(AccessProtocolError)
    else Ok(Unframed(data, 0))
  }

  lemma UnframedStep(parts: seq<seq<byte>>, data: seq<byte>, i: nat)
    requires i < |data|
    ensures parts + [PartAt(data, i)] + Unframed(data, NextAt(data, i)) == parts + Unframed(data, i)
  {
    var part, rest := PartAt(data, i), Unframed(data, NextAt(data, i));
    assert Unframed(data, i) == [part] + rest;
    Regroup(parts, part, rest);
  }

  lemma Regroup<T>(front: seq<T>, x: T, back: seq<T>)
    ensures front + [x] + back == front + ([x] + back)
  {
  }

  /** The loop that takes the read data apart. */
  method DecodeParts(data: seq<byte>) returns (parts: seq<seq<byte>>)
    ensures parts == Unframed(data, 0)
  {
    parts := [];
    var index: nat := 0;
    while index < |data|
      invariant parts + Unframed(data, index) == Unframed(data, 0)
      decreases |data| - index
    {
      UnframedStep(parts, data, index);
      var part;
      part, index := TakePart(data, index);
      parts := parts + [part];
    }
    assert parts + [] == parts;
  }

  method TakePart(data: seq<byte>, index: nat) returns (part: seq<byte>, next: nat)
    ensures part == PartAt(data, index) && next == NextAt(data, index)
  {
    var length := BigEndian(Slice(data, index, index + 2));
    part := Slice(data, index + 2, index + 2 + length);
    next := index + 2 + length;
  }

  method DecodeReadData(requested: Option<nat>, data: seq<byte>) returns (r: Result<seq<seq<byte>>>)
    ensures r == ReadData(requested, data)
  {
    if |data| == 0 {
      return if requested.Some? && requested.value != 0 then Err(AccessProtocolError) else Ok([]);
    }
    var parts := DecodeParts(data);
    if requested.None? {
      return Err(TypeError);
    }
    return if |parts| != requested.value then Err(AccessProtocolError) else Ok(parts);
  }

  // ---------------------------------------------------------------- the mutual recursion

  function Terminate(r: Reader): Reader {
    r.(session := None)
  }

  /** `handle_timeout`: only a BLE link can tell the peer, and then the session ends. */
  function TimedOut(r: Reader): (Reader, Error) {
    if !r.bleLink then (r, InvalidProtocolTypeError)
    else if r.session.None? then (r, SessionError)
    else (Terminate(r.Sending(0, ErrorEvent)), TimeoutError)
  }

  predicate OnlyControlFlow(r: Reader, state: FailureState) {
    r.session.None? || !r.session.value.expedited || !state.READER_STATUS?
  }

  /** `failure_process`; what it raises stops it before it ends the session. */
  function FailureProcess(peer: Peer, r: Reader, depth: nat, code: nat, state: FailureState): (Reader, Option<Error>)
    decreases r.Rank(), 1
  {
    var r0 := r.(deepest := if depth > r.deepest then depth else r.deepest);
    if r.started then (r0, None)
    else
      var r1 := r0.(started := true);
      if r.test then (Terminate(r1), None)
      else
        var (r2, error) := SendFailure(peer, r1, depth, code, state);
        if error.Some? then (r2, error) else (Terminate(r2), None)
  }

  /** The command and the event of a failure process. */
  function SendFailure(peer: Peer, r: Reader, depth: nat, code: nat, state: FailureState): (Reader, Option<Error>)
    requires r.started
    decreases r.Rank(), 4
  {
    if r.IsNfc() then
      if !OnlyControlFlow(r, state) then Raised(HandleExchange(peer, r, depth, false, None, Some(code)))
      else if code != S2_NONE && code != S2_PROTOCOL_VERSION_NOT_SUPPORTED then (r, Some(ValueError))
      else HandleControlFlow(peer, r, depth, code)
    else
      var (r1, error) := if OnlyControlFlow(r, state) then (r, None)
                         else Raised(HandleExchange(peer, r, depth, false, None, Some(code)));
      if error.Some? then (r1, error)
      else if r1.session.None? then (r1, Some(SessionError))
      else (r1.Sending(0, ErrorEvent), None)
  }

  function Raised(result: (Reader, Result<seq<seq<byte>>>)): (Reader, Option<Error>) {
    (result.0, if result.1.Err? then Some(result.1.error) else None)
  }

  /** What a reply makes a handler do before it raises its error. */
  datatype Failure = Failure(code: nat, state: FailureState, error: Error)

  function ExchangeFailure(reply: Reply): Option<Failure> {
    match reply
    case StatusWord(status) => Some(Failure(S2_NONE, STATUS_WORD, InvalidStatusError(status)))
    case BadFormat => Some(Failure(INVALID_DATA_FORMAT, READER_STATUS, InvalidResponseError))
    case BadTag => Some(Failure(INVALID_DATA_CONTENT, READER_STATUS, VerificationError))
    case Answer(payload) =>
      if StatusCode(payload) == EXCHANGE_OK then None else Some(Failure(S2_NONE, B1_B2_ERROR, AccessProtocolError))
    case _ => None
  }

  function ControlFlowFailure(reply: Reply): Option<Failure> {
    match reply
    case StatusWord(status) => Some(Failure(S2_NONE, STATUS_WORD, InvalidStatusError(status)))
    case BadFormat => Some(Failure(INVALID_DATA_FORMAT, READER_STATUS, InvalidResponseError))
    case BadTag => Some(Failure(INVALID_DATA_FORMAT, READER_STATUS, VerificationError))
    case Answer(payload) =>
      if payload == [] then None else Some(Failure(INVALID_DATA_FORMAT, READER_STATUS, InvalidResponseError))
    case _ => None
  }

  /** An error starts the failure process and is raised behind it, unless that raises something itself. */
  function Fail(peer: Peer, r: Reader, depth: nat, f: Failure): (Reader, Error)
    decreases r.Rank(), 2
  {
    var (r1, other) := FailureProcess(peer, r, depth + 1, f.code, f.state);
    (r1, if other.Some? then other.value else f.error)
  }

  function HandleControlFlow(peer: Peer, r: Reader, depth: nat, s2: nat): (Reader, Option<Error>)
    decreases r.Rank(), 3
  {
    if r.session.None? then (r, Some(SessionError))
    else if peer(r.Sent()).NotBuilt? then (r, Some(peer(r.Sent()).error))
    else
      var r1 := r.Sending(depth, ControlFlowMessage(s2));
      var reply := peer(r.Sent());
      var failure := ControlFlowFailure(reply);
      if failure.Some? then
        var (r2, e) := Fail(peer, r1, depth, failure.value);
        (r2, Some(e))
      else
        if reply.Timeout? then (r1, Some(TimeoutError))
        else if reply.Broken? then (r1, Some(reply.error))
        else (r1.(session := None), None)
  }

  function HandleExchange(peer: Peer, r: Reader, depth: nat, stepup: bool, requested: Option<nat>, status: Option<nat>)
    : (Reader, Result<seq<seq<byte>>>)
    decreases r.Rank(), 3
  {
    if r.session.None? then (r, Err(SessionError))
    else if !(if stepup then r.session.value.stepup else r.session.value.expedited) then (r, Err(AccessProtocolError))
    else if peer(r.Sent()).NotBuilt? then (r, Err(peer(r.Sent()).error))
    else
      var r1 := r.Sending(depth, ExchangeMessage(stepup, status));
      var reply := peer(r.Sent());
      var failure := ExchangeFailure(reply);
      if failure.Some? then
        var (r2, e) := Fail(peer, r1, depth, failure.value);
        (r2, Err(e))
      else
        if reply.Timeout? then
          var (r2, e) := TimedOut(r1);
          (r2, Err(e))
        else if reply.Broken? then (r1, Err(reply.error))
        else (r1, ReadData(requested, DataPart(reply.payload)))
  }

  // ---------------------------------------------------------------- depth, and the number of failure commands

  function Max(a: nat, b: nat): nat {
    if a > b then a else b
  }

  lemma FailWhenStarted(peer: Peer, r: Reader, depth: nat, f: Failure)
    requires r.started
    ensures Fail(peer, r, depth, f) == (r.(deepest := Max(r.deepest, depth + 1)), f.error)
  {
    assert FailureProcess(peer, r, depth + 1, f.code, f.state) == (r.(deepest := Max(r.deepest, depth + 1)), None);
  }

  /**
   * A command sent by a failure process: one more of them, and its own failure goes one level deeper and no further.
   */
  predicate OneMore(r: Reader, r': Reader, depth: nat) {
    && r'.started && r'.failures <= r.failures + 1 && r'.deepest <= Max(r.deepest, depth + 1)
  }

  lemma NestedExchange(peer: Peer, r: Reader, depth: nat, code: nat)
    requires r.started && depth > 0
    ensures OneMore(r, HandleExchange(peer, r, depth, false, None, Some(code)).0, depth)
  {
    var r1 := r.Sending(depth, ExchangeMessage(false, Some(code)));
    var failure := ExchangeFailure(peer(r.Sent()));
    if failure.Some? {
      FailWhenStarted(peer, r1, depth, failure.value);
    }
  }

  lemma NestedControlFlow(peer: Peer, r: Reader, depth: nat, s2: nat)
    requires r.started && depth > 0
    ensures OneMore(r, HandleControlFlow(peer, r, depth, s2).0, depth)
  {
    var r1 := r.Sending(depth, ControlFlowMessage(s2));
    var failure := ControlFlowFailure(peer(r.Sent()));
    if failure.Some? {
      FailWhenStarted(peer, r1, depth, failure.value);
    }
  }

  lemma SendFailureOnce(peer: Peer, r: Reader, depth: nat, code: nat, state: FailureState)
    requires r.started && depth > 0
    ensures OneMore(r, SendFailure(peer, r, depth, code, state).0, depth)
  {
    NestedExchange(peer, r, depth, code);
    NestedControlFlow(peer, r, depth, code);
  }

  /** One failure process: at most one failure command, at most one more level. */
  lemma FailureProcessOnce(peer: Peer, r: Reader, depth: nat, code: nat, state: FailureState)
    requires depth > 0
    ensures var r' := FailureProcess(peer, r, depth, code, state).0;
            && r'.started
            && r'.failures <= r.failures + r.Rank()
            && r'.deepest <= Max(r.deepest, depth + r.Rank())
  {
    if !r.started {
      var r1 := r.(deepest := Max(r.deepest, depth), started := true);
      SendFailureOnce(peer, r1, depth, code, state);
    }
  }

  /** Within a session: at most two levels, and a failure command only from the one process that started. */
  predicate Bounded(r: Reader) {
    r.deepest <= 2 && r.failures + r.Rank() <= 1
  }

  /** What the reader does in a session, one call after the other. */
  datatype Call =
    | CallExchange(stepup: bool, requested: Option<nat>, status: Option<nat>)
    | CallControlFlow(s2: nat)
    | CallFailure(code: nat, state: FailureState) // any other handler that fails

  function Do(peer: Peer, r: Reader, call: Call): Reader
  {
    match call
    case CallExchange(stepup, requested, status) => HandleExchange(peer, r, 0, stepup, requested, status).0
    case CallControlFlow(s2) => HandleControlFlow(peer, r, 0, s2).0
    case CallFailure(code, state) => FailureProcess(peer, r, 1, code, state).0
  }

  function DoAll(peer: Peer, r: Reader, calls: seq<Call>): Reader
  {
    if calls == [] then r else Do(peer, DoAll(peer, r, calls[..|calls| - 1]), calls[|calls| - 1])
  }

  lemma FailBounded(peer: Peer, r: Reader, f: Failure)
    requires Bounded(r)
    ensures Bounded(Fail(peer, r, 0, f).0)
  {
    FailureProcessOnce(peer, r, 1, f.code, f.state);
  }

  lemma ExchangeBounded(peer: Peer, r: Reader, stepup: bool, requested: Option<nat>, status: Option<nat>)
    requires Bounded(r)
    ensures Bounded(HandleExchange(peer, r, 0, stepup, requested, status).0)
  {
    var r1 := r.Sending(0, ExchangeMessage(stepup, status));
    var failure := ExchangeFailure(peer(r.Sent()));
    if failure.Some? {
      FailBounded(peer, r1, failure.value);
    }
  }

  lemma ControlFlowBounded(peer: Peer, r: Reader, s2: nat)
    requires Bounded(r)
    ensures Bounded(HandleControlFlow(peer, r, 0, s2).0)
  {
    var r1 := r.Sending(0, ControlFlowMessage(s2));
    var failure := ControlFlowFailure(peer(r.Sent()));
    if failure.Some? {
      FailBounded(peer, r1, failure.value);
    }
  }

  /**
   * For every peer and every list of calls in a session, failure processes nest at most two deep and send at most one
   * failure command.
   */
  lemma {:induction false} FailureTerminates(peer: Peer, r: Reader, calls: seq<Call>)
    requires !r.started && r.failures == 0 && r.deepest == 0
    ensures DoAll(peer, r, calls).deepest <= 2 && DoAll(peer, r, calls).failures <= 1
    ensures Bounded(DoAll(peer, r, calls))
  {
    if calls != [] {
      var before := calls[..|calls| - 1];
      FailureTerminates(peer, r, before);
      var r1 := DoAll(peer, r, before);
      match calls[|calls| - 1]
      case CallExchange(stepup, requested, status) => ExchangeBounded(peer, r1, stepup, requested, status);
      case CallControlFlow(s2) => ControlFlowBounded(peer, r1, s2);
      case CallFailure(code, state) => FailureProcessOnce(peer, r1, 1, code, state);
    }
  }

  // ---------------------------------------------------------------- the end of the session

  /** The peer's answer to the failure command says that it was understood. */
  predicate Acknowledged(peer: Peer, r: Reader, controlFlow: bool) {
    var reply := peer(r.Sent());
    reply.Answer? && reply.payload == if controlFlow then [] else EXCHANGE_OK
  }

  predicate S2Valid(code: nat) {
    code == S2_NONE || code == S2_PROTOCOL_VERSION_NOT_SUPPORTED
  }

  /**
   * On NFC the first failure process of a session ends it exactly when there was none to end, or the peer acknowledges
   * the command that it could build; anything else is raised past the end of the session.
   */
  lemma SessionEndsIff(peer: Peer, r: Reader, depth: nat, code: nat, state: FailureState)
    requires r.IsNfc() && !r.bleLink && !r.started && !r.test
    ensures var controlFlow := OnlyControlFlow(r, state);
            FailureProcess(peer, r, depth, code, state).0.session.None? <==>
              || r.session.None?
              || ((controlFlow ==> S2Valid(code)) && Acknowledged(peer, r, controlFlow))
  {
    var r1 := r.(deepest := Max(r.deepest, depth), started := true);
    if !OnlyControlFlow(r, state) {
      ExchangeEnds(peer, r1, depth, code);
    } else if S2Valid(code) {
      assert SendFailure(peer, r1, depth, code, state) == HandleControlFlow(peer, r1, depth, code);
      if r.session.Some? {
        ControlFlowEnds(peer, r1, depth, code);
      }
    } else {
      assert SendFailure(peer, r1, depth, code, state) == (r1, Some(ValueError));
    }
  }

  /** An EXCHANGE can be sent: there is a secure channel, and it is not the channel's peer that refused something. */
  predicate SecureReport(r: Reader, state: FailureState) {
    r.session.Some? && r.session.value.expedited && state != STATUS_WORD && state != B1_B2_ERROR
  }

  /** The messages of one command: none if it cannot be built. */
  function IfBuilt(reply: Reply, m: Message): seq<Message> {
    if reply.NotBuilt? then [] else [m]
  }

  predicate IsBle(r: Reader) {
    r.transport.BleUwb? || r.transport.SocketBle?
  }

  /**
   * On BLE the first failure process of a session ends it exactly when there was none to end, no EXCHANGE is sent, the
   * peer acknowledges the EXCHANGE, or that times out on a link; and these are the messages that have left by then.
   */
  lemma BleSessionEndsIff(peer: Peer, r: Reader, depth: nat, code: nat, state: FailureState)
    requires IsBle(r) && !r.started && !r.test
    ensures var (r', error) := FailureProcess(peer, r, depth, code, state);
            var reply := peer(|r.log|);
            if r.session.None? then r'.session.None? && r'.log == r.log && error == Some(SessionError)
            else if !SecureReport(r, state) then r'.session.None? && r'.log == r.log + [ErrorEvent] && error.None?
            else
              var acknowledged := reply == Answer([0x00, 0x02, 0x00, 0x00]);
              var expired := reply.Timeout? && r.bleLink;
              && (r'.session.None? <==> acknowledged || expired) && (r'.session.Some? ==> r'.session == r.session)
              && r'.log == r.log + IfBuilt(reply, ExchangeMessage(false, Some(code)))
                           + (if acknowledged || expired then [ErrorEvent] else [])
              && (error.None? <==> acknowledged)
  {
    var r1 := r.(deepest := Max(r.deepest, depth), started := true);
    if r.session.Some? && SecureReport(r, state) {
      ReportOutcome(peer, r1, depth, code);
    }
  }

  /** The reported EXCHANGE of a failure process, whatever answers it. */
  lemma ReportOutcome(peer: Peer, r: Reader, depth: nat, code: nat)
    requires r.started && r.session.Some? && r.session.value.expedited
    ensures var (r', result) := HandleExchange(peer, r, depth, false, None, Some(code));
            var reply := peer(|r.log|);
            var expired := reply.Timeout? && r.bleLink;
            && (result.Ok? <==> reply == Answer([0x00, 0x02, 0x00, 0x00]))
            && r'.session == (if expired then None else r.session)
            && r'.log == r.log + IfBuilt(reply, ExchangeMessage(false, Some(code)))
                         + (if expired then [ErrorEvent] else [])
            && r'.transport == r.transport
  {
    var reply := peer(|r.log|);
    var r1, failure := r.Sending(depth, ExchangeMessage(false, Some(code))), ExchangeFailure(reply);
    if failure.Some? {
      FailWhenStarted(peer, r1, depth, failure.value);
    } else if reply.Answer? {
      assert reply.payload == DataPart(reply.payload) + StatusCode(reply.payload);
      assert DataPart(reply.payload) == [] <==> reply.payload == EXCHANGE_OK;
    }
  }

  /** The same on NFC, where a CONTROL FLOW takes the place of an EXCHANGE that cannot be sent. */
  lemma NfcMessages(peer: Peer, r: Reader, depth: nat, code: nat, state: FailureState)
    requires r.IsNfc() && !r.bleLink && !r.started && !r.test && r.session.Some?
    ensures var (r', error) := FailureProcess(peer, r, depth, code, state);
            var reply := peer(|r.log|);
            if SecureReport(r, state) then
              var acknowledged := reply == Answer([0x00, 0x02, 0x00, 0x00]);
              && r'.session == (if acknowledged then None else r.session) && (error.None? <==> acknowledged)
              && r'.log == r.log + IfBuilt(reply, ExchangeMessage(false, Some(code)))
            else if code != 0x00 && code != 0x27 then
              r'.session == r.session && r'.log == r.log && error == Some(ValueError)
            else
              && r'.session == (if reply == Answer([]) then None else r.session)
              && (error.None? <==> reply == Answer([]))
              && r'.log == r.log + IfBuilt(reply, ControlFlowMessage(code))
  {
    var r1 := r.(deepest := Max(r.deepest, depth), started := true);
    if SecureReport(r, state) {
      ReportOutcome(peer, r1, depth, code);
    } else if S2Valid(code) {
      assert SendFailure(peer, r1, depth, code, state) == HandleControlFlow(peer, r1, depth, code);
      ControlFlowEnds(peer, r1, depth, code);
    } else {
      assert SendFailure(peer, r1, depth, code, state) == (r1, Some(ValueError));
    }
  }

  lemma ExchangeEnds(peer: Peer, r: Reader, depth: nat, code: nat)
    requires r.started && !r.bleLink && r.session.Some? && r.session.value.expedited
    ensures var (r', result) := HandleExchange(peer, r, depth, false, None, Some(code));
            && r'.session == r.session
            && (result.Ok? <==> Acknowledged(peer, r, false))
  {
    var reply := peer(r.Sent());
    var r1, failure := r.Sending(depth, ExchangeMessage(false, Some(code))), ExchangeFailure(reply);
    if failure.Some? {
      FailWhenStarted(peer, r1, depth, failure.value);
    } else if reply.Answer? {
      assert reply.payload == DataPart(reply.payload) + StatusCode(reply.payload);
      assert DataPart(reply.payload) == [] <==> reply.payload == EXCHANGE_OK;
    }
  }

  lemma ControlFlowEnds(peer: Peer, r: Reader, depth: nat, s2: nat)
    requires r.started && r.session.Some?
    ensures var (r', error) := HandleControlFlow(peer, r, depth, s2);
            && (if Acknowledged(peer, r, true) then error.None? && r'.session.None?
                else error.Some? && r'.session == r.session)
            && r'.log == r.log + IfBuilt(peer(|r.log|), ControlFlowMessage(s2))
  {
    var r1, failure := r.Sending(depth, ControlFlowMessage(s2)), ControlFlowFailure(peer(r.Sent()));
    if failure.Some? {
      FailWhenStarted(peer, r1, depth, failure.value);
    }
  }

  // ---------------------------------------------------------------- which reply starts what

  /** The last four bytes of a payload are the success code. */
  predicate Succeeds(payload: seq<byte>) {
    |payload| >= 4 && payload[|payload| - 4..] == [0x00, 0x02, 0x00, 0x00]
  }

  /** What a reply to an EXCHANGE makes the reader report, in which state, and the error that its caller gets. */
  predicate Starts(reply: Reply, code: nat, state: FailureState, e: Error) {
    || (reply.StatusWord? && code == 0x00 && state == STATUS_WORD && e == InvalidStatusError(reply.status))
    || (reply.BadFormat? && code == 0x06 && state == READER_STATUS && e == InvalidResponseError)
    || (reply.BadTag? && code == 0x07 && state == READER_STATUS && e == VerificationError)
    || (reply.Answer? && !Succeeds(reply.payload) && code == 0x00 && state == B1_B2_ERROR && e == AccessProtocolError)
  }

  lemma StartsIff(reply: Reply, code: nat, state: FailureState, e: Error)
    ensures Starts(reply, code, state, e) <==> ExchangeFailure(reply) == Some(Failure(code, state, e))
    ensures reply.Answer? && Succeeds(reply.payload) ==> DataPart(reply.payload) == reply.payload[..|reply.payload| - 4]
  {
  }

  /** The failure process runs, and then the error is raised unless that raises another. */
  predicate FailsAs(peer: Peer, r: Reader, code: nat, state: FailureState, e: Error, after: Reader, raised: Error) {
    var (r', other) := FailureProcess(peer, r, 1, code, state);
    after == r' && raised == if other.Some? then other.value else e
  }

  /**
   * An EXCHANGE from outside a failure process. A reply that is no success starts the failure process; with any other
   * reply nothing more than a timeout event is sent.
   */
  lemma ExchangeReplies(peer: Peer, r: Reader, stepup: bool, requested: Option<nat>, status: Option<nat>, code: nat,
                        state: FailureState, e: Error)
    requires r.session.Some? && (if stepup then r.session.value.stepup else r.session.value.expedited)
    ensures var (r', result) := HandleExchange(peer, r, 0, stepup, requested, status);
            var reply, r1 := peer(|r.log|), r.Sending(0, ExchangeMessage(stepup, status));
            && (Starts(reply, code, state, e) ==> result.Err? && FailsAs(peer, r1, code, state, e, r', result.error))
            && (reply.NotBuilt? ==> r' == r && result == Err(reply.error))
            && (reply.Broken? ==> r' == r1 && result == Err(reply.error))
            && (reply.Timeout? ==>
                  && result == Err(if r.bleLink then TimeoutError else InvalidProtocolTypeError)
                  && r' == if r.bleLink then Terminate(r1.Sending(0, ErrorEvent)) else r1)
            && (reply.Answer? && Succeeds(reply.payload) ==>
                  && r' == r1
                  && result == ReadData(requested, reply.payload[..|reply.payload| - 4]))
  {
    StartsIff(peer(|r.log|), code, state, e);
  }

  /** A second failure process of a session does nothing; one in test mode ends the session and sends nothing. */
  lemma QuietFailures(peer: Peer, r: Reader, depth: nat, code: nat, state: FailureState)
    requires r.started || r.test
    ensures var (r', error) := FailureProcess(peer, r, depth, code, state);
            && error.None? && r'.log == r.log && r'.started
            && r'.session == if r.started then r.session else None
  {
  }

  /** Without a session or the engine for it, nothing is sent. */
  lemma NothingSent(peer: Peer, r: Reader, depth: nat, stepup: bool, requested: Option<nat>, status: Option<nat>,
                    s2: nat)
    ensures r.session.None? ==>
              && HandleExchange(peer, r, depth, stepup, requested, status) == (r, Err(SessionError))
              && HandleControlFlow(peer, r, depth, s2) == (r, Some(SessionError))
    ensures r.session.Some? && !(if stepup then r.session.value.stepup else r.session.value.expedited) ==>
              HandleExchange(peer, r, depth, stepup, requested, status) == (r, Err(AccessProtocolError))
  {
  }

  /** What a reply to a CONTROL FLOW makes the reader report. */
  predicate StartsBehindControlFlow(reply: Reply, code: nat, state: FailureState, e: Error) {
    || (reply.StatusWord? && code == 0x00 && state == STATUS_WORD && e == InvalidStatusError(reply.status))
    || (reply.BadFormat? && code == 0x06 && state == READER_STATUS && e == InvalidResponseError)
    || (reply.BadTag? && code == 0x06 && state == READER_STATUS && e == VerificationError)
    || (reply.Answer? && reply.payload != [] && code == 0x06 && state == READER_STATUS && e == InvalidResponseError)
  }

  lemma ControlFlowReplies(peer: Peer, r: Reader, s2: nat, code: nat, state: FailureState, e: Error)
    requires r.session.Some?
    ensures var (r', error) := HandleControlFlow(peer, r, 0, s2);
            var reply, r1 := peer(|r.log|), r.Sending(0, ControlFlowMessage(s2));
            && (StartsBehindControlFlow(reply, code, state, e) ==>
                  error.Some? && FailsAs(peer, r1, code, state, e, r', error.value))
            && (reply.NotBuilt? ==> r' == r && error == Some(reply.error))
            && (reply.Broken? ==> r' == r1 && error == Some(reply.error))
            && (reply.Timeout? ==> r' == r1 && error == Some(TimeoutError))
            && (reply == Answer([]) ==> r' == Terminate(r1) && error.None?)
  {
  }
}
