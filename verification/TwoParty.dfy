/**
 * The reader's send loop and the device's receive and send loops as one closed system: two queues of messages,
 * delivered in any order, with busy events allowed in between. `At` says which state the system is in after
 * each delivery; every run is shown to follow it.
 */
module TwoParty {
  import opened Basics
  import opened ApduCodec
  import opened Fragmentation
  import opened Chaining

  datatype DeviceState =
    | Idle
    | Receive(total: seq<byte>)
    | Answer(index: nat)
    | Finished
    | DeviceFailed(error: Error)

  /**
   * One command with its payload, and the answer that the device's handler gives to it. The last three fields are
   * what the parties will make of them: the command that the handler is given, each GET RESPONSE, the final response.
   */
  datatype Setup = Setup(limits: Limits, cla: byte, ins: byte, p1: byte, p2: byte, data: seq<byte>, le: Option<nat>,
                         commands: seq<Command>, answer: seq<byte>, responses: seq<Response>, ble: bool, timer: bool,
                         whole: Command, questions: seq<seq<byte>>, final: Response)
  {
    function N(): nat { |commands| }

    function M(): nat { |responses| }

    /**
     * The fragments are those that `create_command` and `create_response` make; see `RealChains`. There are no
     * responses if `create_response` raises or returns an empty list.
     */
    predicate Valid() {
      && CanGetResponse(limits) && limits.maxResponseApdu <= 0xFFFF
      && !HasChainBit(cla)
      && IsRequestChain(commands, cla, ins, p1, p2, data, le)
      && (N() >= 2 ==> |data| < 0x100_0000)
      && (responses == [] || AnswerChain(responses, answer))
      && |questions| == if M() == 0 then 0 else M() - 1
    }

    predicate Derived() {
      && N() >= 1 && |questions| == (if M() == 0 then 0 else M() - 1)
      && whole == WholeOf(this)
      && ParseResponse(answer + U16(SW_SUCCESS)) == Ok(final)
      && (forall j :: 0 <= j < |questions| ==> QuestionAt(this, j))
    }

    /** A GET RESPONSE is only understood in class 0x00, so a chained answer needs that class. */
    predicate Completes() {
      M() == 1 || (M() > 1 && cla == 0x00)
    }

    /** The number of deliveries after which nothing is in flight any more. */
    function Total(): nat
      requires N() >= 1
    {
      if M() == 0 then 2 * N() - 1 else if Completes() then 2 * (N() + M() - 1) else 2 * N() + 1
    }
  }

  /** One fragment or several; only the last one has the success status. */
  predicate AnswerChain(responses: seq<Response>, answer: seq<byte>) {
    && |responses| >= 1
    && Concat(ResponsePayloads(responses)) == answer
    && (forall i :: 0 <= i < |responses| ==> AnswerAt(responses, i))
  }

  predicate AnswerAt(responses: seq<Response>, i: nat)
    requires i < |responses|
  {
    AnswerFragment(responses[i], i == |responses| - 1)
  }

  predicate AnswerFragment(r: Response, last: bool) {
    && r.status <= 0xFFFF
    && r.wire == r.Payload() + U16(r.status)
    && (if last then r.status == SW_SUCCESS else Sw1(r.status) == SW_MORE_DATA_SW1)
  }

  /**
   * Who has reached which state, what is in the two queues, and the messages other than busy events delivered so far.
   */
  datatype System = System(reader: ReaderState, device: DeviceState, seen: Option<Command>,
                           toDevice: seq<Event>, toReader: seq<Event>, delivered: nat)

  function Wrap(ble: bool, wire: seq<byte>, id: byte): Event {
    if ble then Event(wire, Some(HEADER_AP), Some(id)) else Event(wire, None, None)
  }

  const BUSY_EVENT: Event := Event([ATTRIBUTE_BUSY, 0], Some(HEADER_NOTIFICATION), Some(ID_EVENT))

  function Enqueue(u: Setup, queue: seq<Event>, message: Option<seq<byte>>, id: byte): seq<Event> {
    if message.Some? then queue + [Wrap(u.ble, message.value, id)] else queue
  }

  function Init(u: Setup): System
    requires u.N() >= 1
  {
    System(AwaitCommand(0), Idle, None, [Wrap(u.ble, u.commands[0].wire, ID_AP_RQ)], [], 0)
  }

  // ---------------------------------------------------------------- steps

  function FromReceive(u: Setup, s: (ReceiveState, Option<seq<byte>>))
    : (DeviceState, Option<Command>, Option<seq<byte>>)
  {
    match s.0
    case Collecting(total) => (Receive(total), None, s.1)
    case ReceiveFailed(e) => (DeviceFailed(e), None, s.1)
    case Received(c, _) =>
      var (s', out) := Sent(u.responses, 0);
      (if s'.AwaitGet? then Answer(s'.index) else Finished, Some(c), out)
  }

  /** The device on one command: receive it, and once it is whole send the first fragment of the answer. */
  function DeviceOn(u: Setup, d: DeviceState, payload: seq<byte>): (DeviceState, Option<Command>, Option<seq<byte>>)
    requires d.Idle? || d.Receive? || d.Answer?
  {
    match d
    case Idle => FromReceive(u, ReceiveFirst(payload))
    case Receive(total) => FromReceive(u, ReceiveOn(total, payload))
    case Answer(i) =>
      var (s', out) := SendOn(u.responses, i, payload);
      (match s'
       case AwaitGet(j) => Answer(j)
       case SendDone => Finished
       case SendFailed(e) => DeviceFailed(e), None, out)
  }

  predicate DeviceListens(d: DeviceState) {
    d.Idle? || d.Receive? || d.Answer?
  }

  function DeliverToDevice(u: Setup, s: System): System
    requires s.toDevice != [] && DeviceListens(s.device)
  {
    var rest := s.toDevice[1..];
    match Hear(u.timer, s.toDevice[0], ID_AP_RQ)
    case Again => s.(toDevice := rest)
    case Raised(e) => s.(toDevice := rest, device := DeviceFailed(e), delivered := s.delivered + 1)
    case Got(payload) =>
      var (d, seen, out) := DeviceOn(u, s.device, payload);
      s.(toDevice := rest, device := d, seen := if seen.Some? then seen else s.seen,
         toReader := Enqueue(u, s.toReader, out, ID_AP_RS), delivered := s.delivered + 1)
  }

  function DeliverToReader(u: Setup, s: System): System
    requires CanGetResponse(u.limits) && u.commands != []
    requires s.toReader != [] && ReaderWaits(s.reader, u.commands)
  {
    var rest := s.toReader[1..];
    match Hear(u.timer, s.toReader[0], ID_AP_RS)
    case Again => s.(toReader := rest)
    case Raised(e) => s.(toReader := rest, reader := ReaderFailed(e), delivered := s.delivered + 1)
    case Got(payload) =>
      var (r, out) := ReaderOn(u.limits, u.commands, s.reader, payload);
      s.(toReader := rest, reader := r, toDevice := Enqueue(u, s.toDevice, out, ID_AP_RQ), delivered := s.delivered + 1)
  }

  /** Any delivery that a waiting party allows, or a busy event from either party. */
  predicate Next(u: Setup, s: System, t: System)
    requires u.Valid()
  {
    || (s.toDevice != [] && DeviceListens(s.device) && t == DeliverToDevice(u, s))
    || (s.toReader != [] && ReaderWaits(s.reader, u.commands) && t == DeliverToReader(u, s))
    || (u.timer && t == s.(toDevice := s.toDevice + [BUSY_EVENT]))
    || (u.timer && t == s.(toReader := s.toReader + [BUSY_EVENT]))
  }

  // ---------------------------------------------------------------- the expected state after each delivery

  datatype Flight = Nothing | ToDevice(wire: seq<byte>) | ToReader(wire: seq<byte>)

  datatype Snapshot = Snapshot(reader: ReaderState, device: DeviceState, seen: Option<Command>, flight: Flight)

  function RequestParts(u: Setup, count: nat): seq<byte>
    requires count <= u.N()
  {
    Concat(Payloads(u.commands)[..count])
  }

  function AnswerParts(u: Setup, count: nat): seq<byte>
    requires count <= u.M()
  {
    Concat(ResponsePayloads(u.responses)[..count])
  }

  /** The device with j request fragments taken in. */
  function Gathered(u: Setup, j: nat): DeviceState
    requires j <= u.N()
  {
    if j == 0 then Idle else Receive(RequestParts(u, j))
  }

  /** The device with answer fragment j sent. */
  function Answered(u: Setup, j: nat): DeviceState {
    if j + 1 == u.M() then Finished else Answer(j)
  }

  /** The reader before answer fragment j. */
  function Collected(u: Setup, j: nat): ReaderState
    requires j <= u.M() && u.N() >= 1
  {
    if j == 0 then AwaitCommand(u.N() - 1) else AwaitFragment(AnswerParts(u, j))
  }

  /** The command that the handler of the device is given. */
  function WholeOf(u: Setup): Command
    requires u.N() >= 1
  {
    var le := NormalLe(u.le, |u.commands[u.N() - 1].Payload()|);
    if u.N() == 1 then
      Command(u.cla, u.ins, u.p1, u.p2, |u.data|, if u.data == [] then None else Some(u.data), le, u.commands[0].wire)
    else
      match Encode(u.cla, u.ins, u.p1, u.p2, u.data, Some(le))
      case Ok(c) => c
      case Err(_) => u.commands[0]
  }

  /** The GET RESPONSE that follows answer fragment j. */
  predicate QuestionAt(u: Setup, j: nat)
    requires j < |u.questions| && j < u.M()
  {
    CanGetResponse(u.limits) && GetResponse(u.limits, Sw2(u.responses[j].status), u.cla) == Ok(u.questions[j])
  }

  function FinalReader(u: Setup): ReaderState {
    ReaderDone(u.final, u.M() > 1, u.N() > 1)
  }

  /** A run goes through the fragments of the request, then through those of the answer. */
  datatype Phase =
    | Requesting(index: nat)     // request fragment in flight
    | Acknowledging(index: nat)  // its interim answer in flight
    | Answering(index: nat)      // answer fragment in flight
    | Asking(index: nat)         // the GET RESPONSE for the fragment after it in flight
    | Complete
    | Refused
    | Unanswered
  {
    predicate In(u: Setup) {
      match this
      case Requesting(j) => j < u.N()
      case Acknowledging(j) => j + 1 < u.N()
      case Answering(j) => j < u.M() && (j > 0 ==> u.Completes())
      case Asking(j) => j + 1 < u.M() && (j > 0 ==> u.Completes())
      case Complete => u.Completes()
      case Refused => !u.Completes() && u.M() > 1
      case Unanswered => u.M() == 0
    }

    /** The number of deliveries before it. */
    function Count(u: Setup): int {
      match this
      case Requesting(j) => 2 * j
      case Acknowledging(j) => 2 * j + 1
      case Answering(j) => 2 * u.N() - 1 + 2 * j
      case Asking(j) => 2 * u.N() + 2 * j
      case Complete => 2 * (u.N() + u.M() - 1)
      case Refused => 2 * u.N() + 1
      case Unanswered => 2 * u.N() - 1
    }

    predicate Ended() {
      Complete? || Refused? || Unanswered?
    }

    function After(u: Setup): Phase
    {
      match this
      case Requesting(j) => if j + 1 < u.N() then Acknowledging(j) else if u.M() == 0 then Unanswered else Answering(0)
      case Acknowledging(j) => Requesting(j + 1)
      case Answering(j) => if j + 1 < u.M() then Asking(j) else Complete
      case Asking(j) => if u.Completes() then Answering(j + 1) else Refused
      case _ => this
    }

    /** The parties in this phase, and the one message in flight. */
    function At(u: Setup): Snapshot
      requires u.Valid() && In(u)
    {
      match this
      case Requesting(j) => Snapshot(AwaitCommand(j), Gathered(u, j), None, ToDevice(u.commands[j].wire))
      case Acknowledging(j) => Snapshot(AwaitCommand(j), Gathered(u, j + 1), None, ToReader(ACKNOWLEDGE))
      case Answering(j) => FragmentSent(u, j)
      case Asking(j) => FragmentAsked(u, j)
      case Complete => Snapshot(FinalReader(u), Finished, Some(u.whole), Nothing)
      case Refused => Snapshot(Collected(u, 1), DeviceFailed(InvalidCLAError), Some(u.whole), Nothing)
      case Unanswered => Snapshot(AwaitCommand(u.N() - 1), Finished, Some(u.whole), Nothing)
    }
  }

  /** What one delivery makes of a snapshot. */
  predicate Leads(u: Setup, a: Snapshot, b: Snapshot)
    requires u.Valid()
  {
    match a.flight
    case Nothing => false
    case ToDevice(wire) =>
      && DeviceListens(a.device)
      && var (d, seen, out) := DeviceOn(u, a.device, wire);
         b == Snapshot(a.reader, d, if seen.Some? then seen else a.seen,
                       if out.Some? then ToReader(out.value) else Nothing)
    case ToReader(wire) =>
      && ReaderWaits(a.reader, u.commands)
      && var (r, out) := ReaderOn(u.limits, u.commands, a.reader, wire);
         b == Snapshot(r, a.device, a.seen, if out.Some? then ToDevice(out.value) else Nothing)
  }

  // ---------------------------------------------------------------- the request half

  lemma RequestParses(u: Setup, j: nat)
    requires u.Valid() && j < u.N()
    ensures var c := u.commands[j];
            var part := c.Payload();
            Parse(c.wire) == Ok(Command(if j == u.N() - 1 then u.cla else WithChainBit(u.cla), u.ins, u.p1, u.p2,
                                        |part|,
                                        if part == [] then None else Some(part), NormalLe(u.le, |part|), c.wire))
    ensures j == u.N() - 1 ==> u.commands[j].cla == u.cla
  {
    var part := u.commands[j].Payload();
    assert ChainCommand(u.commands, j, u.cla, u.ins, u.p1, u.p2, u.le);
    CommandRoundTrip(if j == u.N() - 1 then u.cla else WithChainBit(u.cla), u.ins, u.p1, u.p2, part, u.le);
  }

  lemma RequestPartsGrow(u: Setup, j: nat)
    requires j < u.N()
    ensures RequestParts(u, j + 1) == RequestParts(u, j) + u.commands[j].Payload()
    ensures RequestParts(u, 0) == []
  {
    ConcatPrefix(Payloads(u.commands), j);
  }

  lemma TakesFragment(u: Setup, d: DeviceState, before: seq<byte>, wire: seq<byte>, c: Command)
    requires Parse(wire) == Ok(c) && c.Chained()
    requires if d.Receive? then before == d.total else d.Idle? && before == []
    ensures DeviceOn(u, d, wire).0.Receive? && DeviceOn(u, d, wire).0.total == before + c.Payload()
    ensures DeviceOn(u, d, wire).1.None? && DeviceOn(u, d, wire).2 == Some(ACKNOWLEDGE)
  {
    assert [] + c.Payload() == c.Payload();
  }

  lemma FragmentReceived(u: Setup, j: nat)
    requires u.Valid() && j < u.N() - 1
    ensures DeviceOn(u, Gathered(u, j), u.commands[j].wire) == (Gathered(u, j + 1), None, Some(ACKNOWLEDGE))
  {
    var c := FragmentParses(u, j);
    RequestPartsGrow(u, j);
    TakesFragment(u, Gathered(u, j), RequestParts(u, j), u.commands[j].wire, c);
  }

  lemma FragmentParses(u: Setup, j: nat) returns (c: Command)
    requires u.Valid() && j < u.N() - 1
    ensures Parse(u.commands[j].wire) == Ok(c) && c.Chained() && c.Payload() == u.commands[j].Payload()
  {
    RequestParses(u, j);
    c := Parse(u.commands[j].wire).value;
  }

  lemma TakesLast(u: Setup, total: seq<byte>, wire: seq<byte>, c: Command, whole: Command)
    requires Parse(wire) == Ok(c) && !c.Chained()
    requires Encode(c.cla, c.ins, c.p1, c.p2, total + c.Payload(), Some(c.le)) == Ok(whole)
    ensures DeviceOn(u, Receive(total), wire) == FromReceive(u, (Received(whole, true), None))
  {
  }

  lemma RequestPartsWhole(u: Setup)
    requires u.Valid()
    ensures u.data == RequestParts(u, u.N() - 1) + u.commands[u.N() - 1].Payload()
  {
    RequestPartsGrow(u, u.N() - 1);
    assert Payloads(u.commands)[..u.N()] == Payloads(u.commands);
  }

  lemma SingleReceived(u: Setup)
    requires u.Valid() && u.Derived() && u.N() == 1
    ensures DeviceOn(u, Idle, u.commands[0].wire) == FromReceive(u, (Received(u.whole, false), None))
  {
    RequestParses(u, 0);
    RequestPartsWhole(u);
    RequestPartsGrow(u, 0);
    assert u.data == u.commands[0].Payload();
    assert Parse(u.commands[0].wire) == Ok(u.whole);
  }

  lemma ChainReceived(u: Setup)
    requires u.Valid() && u.Derived() && u.N() > 1
    ensures DeviceOn(u, Receive(RequestParts(u, u.N() - 1)), u.commands[u.N() - 1].wire)
         == FromReceive(u, (Received(u.whole, true), None))
  {
    var c := u.commands[u.N() - 1];
    RequestParses(u, u.N() - 1);
    RequestPartsWhole(u);
    TakesLast(u, RequestParts(u, u.N() - 1), c.wire, Parse(c.wire).value, u.whole);
  }

  lemma FirstFragmentSent(u: Setup)
    requires u.Valid() && u.M() >= 1
    ensures FromReceive(u, (Received(u.whole, u.N() > 1), None))
         == (Answered(u, 0), Some(u.whole), Some(u.responses[0].wire))
  {
    assert AnswerAt(u.responses, 0);
  }

  lemma AcknowledgeTaken(u: Setup, j: nat)
    requires u.Valid() && j < u.N() - 1
    ensures ReaderOn(u.limits, u.commands, AwaitCommand(j), ACKNOWLEDGE)
         == (AwaitCommand(j + 1), Some(u.commands[j + 1].wire))
  {
    ResponseBytesRoundTrip([], SW_SUCCESS);
    assert [] + U16(SW_SUCCESS) == ACKNOWLEDGE;
  }

  // ---------------------------------------------------------------- the answer half

  lemma GetResponseLaw(l: Limits, remaining: nat, cla: byte)
    requires CanGetResponse(l) && remaining <= 0xFF && l.maxResponseApdu <= 0xFFFF
    ensures GetResponse(l, remaining, cla).Ok?
    ensures var r := ParseGetResponse(GetResponse(l, remaining, cla).value);
            if cla == 0x00 || cla == 0x10 then r.Ok? else r == Err(InvalidCLAError)
  {
    var le := Some(ExpectedSize(l, remaining));
    assert Answers(l, 0, le);
    CommandRoundTrip(cla, INS_GET_RESPONSE, 0, 0, [], le);
    var size := ChunkSize(l, 0, le).value;
    assert Chunks([], size) == [[]];
    assert BuildAll(cla, INS_GET_RESPONSE, 0, 0, [[]][1..], le) == Ok([]);
  }

  /** A response fragment parses to its payload and its status, and goes to `Advance`. */
  lemma ReaderTakes(l: Limits, commands: seq<Command>, before: seq<byte>, r: Response, s: ReaderState)
    requires CanGetResponse(l) && commands != [] && r.status <= 0xFFFF && r.wire == r.Payload() + U16(r.status)
    requires if s.AwaitFragment? then before == s.total else s == AwaitCommand(|commands| - 1) && before == []
    ensures ParseResponse(r.wire).Ok? && ParseResponse(r.wire).value.status == r.status
    ensures ReaderOn(l, commands, s, r.wire)
         == Advance(l, commands, before + r.Payload(), ParseResponse(r.wire).value, s.AwaitFragment?)
  {
    ResponseBytesRoundTrip(r.Payload(), r.status);
    assert [] + r.Payload() == r.Payload();
  }

  lemma AnswerPartsGrow(u: Setup, j: nat)
    requires u.Valid() && j < u.M()
    ensures AnswerParts(u, j + 1) == AnswerParts(u, j) + u.responses[j].Payload()
    ensures AnswerParts(u, 0) == [] && AnswerParts(u, u.M()) == u.answer
  {
    ConcatPrefix(ResponsePayloads(u.responses), j);
    assert ResponsePayloads(u.responses)[..u.M()] == ResponsePayloads(u.responses);
  }

  lemma FragmentTaken(u: Setup, j: nat)
    requires u.Valid() && j < u.M()
    ensures ParseResponse(u.responses[j].wire).Ok?
    ensures ReaderOn(u.limits, u.commands, Collected(u, j), u.responses[j].wire)
         == Advance(u.limits, u.commands, AnswerParts(u, j + 1), ParseResponse(u.responses[j].wire).value, j > 0)
    ensures ParseResponse(u.responses[j].wire).value.status == u.responses[j].status
  {
    assert AnswerAt(u.responses, j);
    AnswerPartsGrow(u, j);
    ReaderTakes(u.limits, u.commands, AnswerParts(u, j), u.responses[j], Collected(u, j));
  }

  /** Success announced: the collected answer is parsed under that status. */
  lemma AdvanceEnds(l: Limits, commands: seq<Command>, total: seq<byte>, r: Response, chained: bool)
    requires CanGetResponse(l) && commands != [] && r.status == SW_SUCCESS
    ensures Advance(l, commands, total, r, chained)
         == (ReaderDone(ParseResponse(total + U16(SW_SUCCESS)).value, chained, |commands| > 1), None)
  {
    assert [Sw1(SW_SUCCESS), Sw2(SW_SUCCESS)] == U16(SW_SUCCESS);
  }

  lemma EndsInFinal(u: Setup, r: Response)
    requires CanGetResponse(u.limits) && u.commands != [] && r.status == SW_SUCCESS
    requires ParseResponse(u.answer + U16(SW_SUCCESS)) == Ok(u.final)
    ensures Advance(u.limits, u.commands, u.answer, r, u.M() > 1) == (FinalReader(u), None)
  {
    AdvanceEnds(u.limits, u.commands, u.answer, r, u.M() > 1);
  }

  /** The last fragment has the success status, and with it the answer is complete. */
  lemma LastOfAnswer(u: Setup)
    requires u.Valid() && u.M() >= 1
    ensures u.responses[u.M() - 1].status == SW_SUCCESS && AnswerParts(u, u.M()) == u.answer
  {
    assert AnswerAt(u.responses, u.M() - 1);
    AnswerPartsGrow(u, u.M() - 1);
  }

  lemma LastFragmentTaken(u: Setup)
    requires u.Valid() && u.Derived() && u.M() >= 1
    ensures ReaderOn(u.limits, u.commands, Collected(u, u.M() - 1), u.responses[u.M() - 1].wire)
            == (FinalReader(u), None)
  {
    LastOfAnswer(u);
    FragmentTaken(u, u.M() - 1);
    EndsInFinal(u, ParseResponse(u.responses[u.M() - 1].wire).value);
  }

  /** More data announced: the next GET RESPONSE is built and sent. */
  lemma AdvanceAsks(l: Limits, commands: seq<Command>, total: seq<byte>, r: Response, chained: bool, cla: nat,
                    question: seq<byte>)
    requires CanGetResponse(l) && commands != [] && commands[|commands| - 1].cla == cla
             && Sw1(r.status) == SW_MORE_DATA_SW1
    requires GetResponse(l, Sw2(r.status), cla) == Ok(question)
    ensures Advance(l, commands, total, r, chained) == (AwaitFragment(total), Some(question))
  {
  }

  lemma ReaderAsks(l: Limits, commands: seq<Command>, before: seq<byte>, r: Response, s: ReaderState, cla: nat,
                   question: seq<byte>)
    requires CanGetResponse(l) && commands != [] && r.status <= 0xFFFF && r.wire == r.Payload() + U16(r.status)
    requires if s.AwaitFragment? then before == s.total else s == AwaitCommand(|commands| - 1) && before == []
    requires commands[|commands| - 1].cla == cla && Sw1(r.status) == SW_MORE_DATA_SW1
    requires GetResponse(l, Sw2(r.status), cla) == Ok(question)
    ensures ReaderOn(l, commands, s, r.wire) == (AwaitFragment(before + r.Payload()), Some(question))
  {
    ReaderTakes(l, commands, before, r, s);
    AdvanceAsks(l, commands, before + r.Payload(), ParseResponse(r.wire).value, s.AwaitFragment?, cla, question);
  }

  lemma MiddleFragmentTaken(u: Setup, j: nat)
    requires u.Valid() && u.Derived() && j < u.M() - 1
    ensures ReaderOn(u.limits, u.commands, Collected(u, j), u.responses[j].wire)
            == (Collected(u, j + 1), Some(u.questions[j]))
  {
    MiddleFragment(u, j);
    AnswerPartsGrow(u, j);
    LastCla(u);
    CollectedAsks(u, j, u.cla, u.questions[j]);
  }

  lemma CollectedAsks(u: Setup, j: nat, cla: nat, question: seq<byte>)
    requires CanGetResponse(u.limits) && u.commands != [] && u.commands[|u.commands| - 1].cla == cla && j + 1 < u.M()
    requires var r := u.responses[j];
             && r.status <= 0xFFFF && r.wire == r.Payload() + U16(r.status) && Sw1(r.status) == SW_MORE_DATA_SW1
             && GetResponse(u.limits, Sw2(r.status), cla) == Ok(question)
             && AnswerParts(u, j + 1) == AnswerParts(u, j) + r.Payload() && AnswerParts(u, 0) == []
    ensures ReaderOn(u.limits, u.commands, Collected(u, j), u.responses[j].wire)
            == (Collected(u, j + 1), Some(question))
  {
    ReaderAsks(u.limits, u.commands, AnswerParts(u, j), u.responses[j], Collected(u, j), cla, question);
  }

  lemma MiddleFragment(u: Setup, j: nat)
    requires u.Valid() && u.Derived() && j < u.M() - 1
    ensures u.responses[j].status <= 0xFFFF
    ensures u.responses[j].wire == u.responses[j].Payload() + U16(u.responses[j].status)
    ensures Sw1(u.responses[j].status) == SW_MORE_DATA_SW1
    ensures GetResponse(u.limits, Sw2(u.responses[j].status), u.cla) == Ok(u.questions[j])
  {
    assert AnswerAt(u.responses, j) && QuestionAt(u, j);
  }

  lemma LastCla(u: Setup)
    requires u.Valid()
    ensures u.commands[u.N() - 1].cla == u.cla
  {
    RequestParses(u, u.N() - 1);
  }

  lemma QuestionParses(u: Setup, j: nat)
    requires u.Valid() && u.Derived() && j < u.M() - 1
    ensures var r := ParseGetResponse(u.questions[j]);
            if u.cla == 0x00 || u.cla == 0x10 then r.Ok? else r == Err(InvalidCLAError)
  {
    assert QuestionAt(u, j);
    GetResponseLaw(u.limits, Sw2(u.responses[j].status), u.cla);
  }

  lemma NextFragmentSent(u: Setup, j: nat)
    requires u.Valid() && j < u.M() - 1
    ensures Sent(u.responses, j + 1)
            == (if j + 2 == u.M() then SendDone else AwaitGet(j + 1), Some(u.responses[j + 1].wire))
  {
    assert AnswerAt(u.responses, j + 1);
  }

  lemma QuestionTaken(u: Setup, j: nat)
    requires u.Valid() && u.Derived() && j < u.M() - 1
    ensures DeviceOn(u, Answer(j), u.questions[j])
         == if u.Completes() then (Answered(u, j + 1), None, Some(u.responses[j + 1].wire))
            else (DeviceFailed(InvalidCLAError), None, None)
  {
    QuestionParses(u, j);
    NextFragmentSent(u, j);
    assert u.cla != 0x10;
    SendsOn(u, j, u.questions[j]);
  }

  lemma SendsOn(u: Setup, j: nat, question: seq<byte>)
    requires ParseGetResponse(question).Ok? || ParseGetResponse(question) == Err(InvalidCLAError)
    ensures DeviceOn(u, Answer(j), question)
         == if ParseGetResponse(question).Err? then (DeviceFailed(InvalidCLAError), None, None)
            else var (s, out) := Sent(u.responses, j + 1);
                 (if s.AwaitGet? then Answer(s.index) else if s.SendDone? then Finished
                  else DeviceFailed(s.error), None, out)
  {
  }

  lemma PhasesCount(u: Setup, p: Phase)
    requires u.N() >= 1 && p.In(u)
    ensures 0 <= p.Count(u) <= u.Total() && (p.Ended() <==> p.Count(u) == u.Total())
    ensures !p.Ended() ==> p.After(u).In(u) && p.After(u).Count(u) == p.Count(u) + 1
  {
  }

  predicate Advances(u: Setup, p: Phase)
    requires u.Valid() && p.In(u) && p.After(u).In(u)
  {
    Leads(u, p.At(u), p.After(u).At(u))
  }

  /** One delivery to the device, given what the device makes of it. */
  lemma ToDeviceLeads(u: Setup, a: Snapshot, b: Snapshot, d: DeviceState, seen: Option<Command>, out: Option<seq<byte>>)
    requires u.Valid() && a.flight.ToDevice? && DeviceListens(a.device)
    requires DeviceOn(u, a.device, a.flight.wire) == (d, seen, out)
    requires b == Snapshot(a.reader, d, if seen.Some? then seen else a.seen,
                           if out.Some? then ToReader(out.value) else Nothing)
    ensures Leads(u, a, b)
  {
  }

  lemma ToReaderLeads(u: Setup, a: Snapshot, b: Snapshot, r: ReaderState, out: Option<seq<byte>>)
    requires u.Valid() && a.flight.ToReader? && ReaderWaits(a.reader, u.commands)
    requires ReaderOn(u.limits, u.commands, a.reader, a.flight.wire) == (r, out)
    requires b == Snapshot(r, a.device, a.seen, if out.Some? then ToDevice(out.value) else Nothing)
    ensures Leads(u, a, b)
  {
  }

  lemma RequestingStep(u: Setup, p: Phase)
    requires u.Valid() && p.In(u) && p.Requesting? && p.index + 1 < u.N()
    ensures Advances(u, p)
  {
    FragmentReceived(u, p.index);
    assert p.After(u) == Acknowledging(p.index);
    ToDeviceLeads(u, p.At(u), p.After(u).At(u), Gathered(u, p.index + 1), None, Some(ACKNOWLEDGE));
  }

  lemma AcknowledgingStep(u: Setup, p: Phase)
    requires u.Valid() && p.In(u) && p.Acknowledging?
    ensures Advances(u, p)
  {
    AcknowledgeTaken(u, p.index);
    assert p.After(u) == Requesting(p.index + 1);
    ToReaderLeads(u, p.At(u), p.After(u).At(u), AwaitCommand(p.index + 1), Some(u.commands[p.index + 1].wire));
  }

  lemma WholeStep(u: Setup, p: Phase)
    requires u.Valid() && u.Derived() && p == Requesting(u.N() - 1)
    ensures Advances(u, p)
  {
    if u.N() == 1 {
      SingleReceived(u);
    } else {
      ChainReceived(u);
    }
    if u.M() == 0 {
      UnansweredLeads(u, p);
    } else {
      AnsweredLeads(u, p);
    }
  }

  /** The device with the whole command, and without or with something to send. */
  lemma UnansweredLeads(u: Setup, p: Phase)
    requires u.Valid() && p == Requesting(u.N() - 1) && u.M() == 0
    requires DeviceOn(u, Gathered(u, p.index), u.commands[p.index].wire)
             == FromReceive(u, (Received(u.whole, u.N() > 1), None))
    ensures Advances(u, p)
  {
    assert p.After(u) == Unanswered;
    ToDeviceLeads(u, p.At(u), p.After(u).At(u), Finished, Some(u.whole), None);
  }

  lemma AnsweredLeads(u: Setup, p: Phase)
    requires u.Valid() && p == Requesting(u.N() - 1) && u.M() >= 1
    requires DeviceOn(u, Gathered(u, p.index), u.commands[p.index].wire)
             == FromReceive(u, (Received(u.whole, u.N() > 1), None))
    ensures Advances(u, p)
  {
    FirstFragmentSent(u);
    assert p.After(u) == Answering(0);
    ToDeviceLeads(u, p.At(u), p.After(u).At(u), Answered(u, 0), Some(u.whole), Some(u.responses[0].wire));
  }

  /** Before and behind answer fragment j, and behind the question for the next. */
  function FragmentSent(u: Setup, j: nat): Snapshot
    requires u.Valid() && j < u.M()
  {
    Snapshot(Collected(u, j), Answered(u, j), Some(u.whole), ToReader(u.responses[j].wire))
  }

  function FragmentAsked(u: Setup, j: nat): Snapshot
    requires u.Valid() && j + 1 < u.M()
  {
    Snapshot(Collected(u, j + 1), Answer(j), Some(u.whole), ToDevice(u.questions[j]))
  }

  lemma MiddleLeads(u: Setup, j: nat)
    requires u.Valid() && u.Derived() && j + 1 < u.M()
    ensures Leads(u, FragmentSent(u, j), FragmentAsked(u, j))
  {
    MiddleFragmentTaken(u, j);
    ToReaderLeads(u, FragmentSent(u, j), FragmentAsked(u, j), Collected(u, j + 1), Some(u.questions[j]));
  }

  lemma AskingLeads(u: Setup, j: nat)
    requires u.Valid() && u.Derived() && j + 1 < u.M() && u.Completes()
    ensures Leads(u, FragmentAsked(u, j), FragmentSent(u, j + 1))
  {
    QuestionTaken(u, j);
    ToDeviceLeads(u, FragmentAsked(u, j), FragmentSent(u, j + 1), Answered(u, j + 1), None,
                  Some(u.responses[j + 1].wire));
  }

  lemma MiddleStep(u: Setup, p: Phase)
    requires u.Valid() && u.Derived() && p.In(u) && p.Answering? && p.index + 1 < u.M()
    ensures Advances(u, p)
  {
    MiddleLeads(u, p.index);
    assert p.At(u) == FragmentSent(u, p.index) && p.After(u).At(u) == FragmentAsked(u, p.index);
  }

  lemma LastStep(u: Setup, p: Phase)
    requires u.Valid() && u.Derived() && u.M() >= 1 && p.In(u) && p == Answering(u.M() - 1)
    ensures p.After(u).In(u) && Advances(u, p)
  {
    LastFragmentTaken(u);
    assert p.After(u) == Complete;
    ToReaderLeads(u, p.At(u), p.After(u).At(u), FinalReader(u), None);
  }

  lemma AskingStep(u: Setup, p: Phase)
    requires u.Valid() && u.Derived() && p.In(u) && p.Asking? && u.Completes()
    ensures Advances(u, p)
  {
    AskingLeads(u, p.index);
    assert p == Asking(p.index) && p.After(u) == Answering(p.index + 1);
  }

  lemma RefusingStep(u: Setup, p: Phase)
    requires u.Valid() && u.Derived() && p.In(u) && p.Asking? && !u.Completes()
    ensures Advances(u, p)
  {
    QuestionTaken(u, 0);
    assert p.After(u) == Refused;
    ToDeviceLeads(u, p.At(u), p.After(u).At(u), DeviceFailed(InvalidCLAError), None, None);
  }

  /** Before the end the receiver of the message in flight waits for it, and its delivery leads to the next phase. */
  lemma PhaseStep(u: Setup, p: Phase)
    requires u.Valid() && u.Derived() && p.In(u) && !p.Ended()
    ensures p.After(u).In(u) && Advances(u, p)
  {
    PhasesCount(u, p);
    if p.Requesting? && p.index + 1 < u.N() {
      RequestingStep(u, p);
    } else if p.Requesting? {
      WholeStep(u, p);
    } else if p.Acknowledging? {
      AcknowledgingStep(u, p);
    } else if p.Answering? && p.index + 1 < u.M() {
      MiddleStep(u, p);
    } else if p.Answering? {
      LastStep(u, p);
    } else if u.Completes() {
      AskingStep(u, p);
    } else {
      RefusingStep(u, p);
    }
  }

  // ---------------------------------------------------------------- every run

  lemma {:induction false} QuietSnoc(queue: seq<Event>, e: Event)
    ensures Quiet(queue + [e]) == Quiet(queue) + if IsBusy(e) then [] else [e]
  {
    if queue == [] {
      assert [] + [e] == [e];
    } else {
      assert (queue + [e])[1..] == queue[1..] + [e];
      QuietSnoc(queue[1..], e);
    }
  }

  /** A queue that holds one message, or none, and busy events if a timer allows them. */
  predicate Holds(u: Setup, queue: seq<Event>, message: Option<seq<byte>>, id: byte) {
    && Quiet(queue) == (if message.Some? then [Wrap(u.ble, message.value, id)] else [])
    && (u.timer || Quiet(queue) == queue)
  }

  lemma HeadOf(u: Setup, queue: seq<Event>, message: Option<seq<byte>>, id: byte)
    requires Holds(u, queue, message, id) && queue != []
    ensures Hear(u.timer, queue[0], id).Again? ==> Holds(u, queue[1..], message, id)
    ensures !Hear(u.timer, queue[0], id).Again? ==>
              message.Some? && Hear(u.timer, queue[0], id) == Got(message.value) && Holds(u, queue[1..], None, id)
  {
    var e := queue[0];
    if IsBusy(e) {
      assert |Quiet(queue)| <= |queue[1..]|;
    } else {
      assert Quiet(queue) == [e] + Quiet(queue[1..]);
      assert |Quiet(queue[1..])| == 0;
      assert e == Wrap(u.ble, message.value, id);
    }
  }

  lemma Enqueued(u: Setup, queue: seq<Event>, message: Option<seq<byte>>, id: byte)
    requires Holds(u, queue, None, id)
    ensures Holds(u, Enqueue(u, queue, message, id), message, id)
  {
    if message.Some? {
      QuietSnoc(queue, Wrap(u.ble, message.value, id));
    }
  }

  /** The parties are where the snapshot says, and its message is the only one in flight, busy events aside. */
  predicate Matches(u: Setup, s: System, a: Snapshot) {
    && s.reader == a.reader && s.device == a.device && s.seen == a.seen
    && Holds(u, s.toDevice, if a.flight.ToDevice? then Some(a.flight.wire) else None, ID_AP_RQ)
    && Holds(u, s.toReader, if a.flight.ToReader? then Some(a.flight.wire) else None, ID_AP_RS)
  }

  /** Delivers the head of the device's queue: a busy event changes nothing, the message leads on. */
  lemma DeviceDelivery(u: Setup, s: System, a: Snapshot, b: Snapshot)
    requires u.Valid() && Matches(u, s, a) && s.toDevice != [] && DeviceListens(s.device)
    requires a.flight.ToDevice? ==> Leads(u, a, b)
    ensures var t := DeliverToDevice(u, s);
            if t.delivered == s.delivered then Matches(u, t, a)
            else a.flight.ToDevice? && t.delivered == s.delivered + 1 && Matches(u, t, b)
  {
    HeadOf(u, s.toDevice, if a.flight.ToDevice? then Some(a.flight.wire) else None, ID_AP_RQ);
    if !Hear(u.timer, s.toDevice[0], ID_AP_RQ).Again? {
      var (_, _, out) := DeviceOn(u, s.device, a.flight.wire);
      Enqueued(u, s.toReader, out, ID_AP_RS);
    }
  }

  lemma ReaderDelivery(u: Setup, s: System, a: Snapshot, b: Snapshot)
    requires u.Valid() && Matches(u, s, a) && s.toReader != [] && ReaderWaits(s.reader, u.commands)
    requires a.flight.ToReader? ==> Leads(u, a, b)
    ensures var t := DeliverToReader(u, s);
            if t.delivered == s.delivered then Matches(u, t, a)
            else a.flight.ToReader? && t.delivered == s.delivered + 1 && Matches(u, t, b)
  {
    HeadOf(u, s.toReader, if a.flight.ToReader? then Some(a.flight.wire) else None, ID_AP_RS);
    if !Hear(u.timer, s.toReader[0], ID_AP_RS).Again? {
      var (_, out) := ReaderOn(u.limits, u.commands, s.reader, a.flight.wire);
      Enqueued(u, s.toDevice, out, ID_AP_RQ);
    }
  }

  predicate Follows(u: Setup, s: System, p: Phase)
    requires u.Valid()
  {
    p.In(u) && s.delivered == p.Count(u) && Matches(u, s, p.At(u))
  }

  /** A message other than a busy event waits for a party that listens. */
  predicate Enabled(u: Setup, s: System) {
    (DeviceListens(s.device) && Quiet(s.toDevice) != [])
      || (ReaderWaits(s.reader, u.commands) && Quiet(s.toReader) != [])
  }

  /** Deliveries that are still possible without further busy events. */
  function Measure(u: Setup, s: System): int
    requires u.Valid()
  {
    2 * (u.Total() - s.delivered) + |s.toDevice| + |s.toReader|
  }

  lemma NextMatches(u: Setup, s: System, t: System, a: Snapshot, b: Snapshot)
    requires u.Valid() && Matches(u, s, a) && Next(u, s, t) && (!a.flight.Nothing? ==> Leads(u, a, b))
    ensures if t.delivered == s.delivered then Matches(u, t, a)
            else !a.flight.Nothing? && t.delivered == s.delivered + 1 && Matches(u, t, b)
  {
    if s.toDevice != [] && DeviceListens(s.device) && t == DeliverToDevice(u, s) {
      DeviceDelivery(u, s, a, b);
    } else if s.toReader != [] && ReaderWaits(s.reader, u.commands) && t == DeliverToReader(u, s) {
      ReaderDelivery(u, s, a, b);
    } else {
      QuietSnoc(s.toDevice, BUSY_EVENT);
      QuietSnoc(s.toReader, BUSY_EVENT);
    }
  }

  lemma EndedIsQuiet(u: Setup, p: Phase)
    requires u.Valid() && p.In(u)
    ensures p.At(u).flight.Nothing? <==> p.Ended()
  {
  }

  lemma NextFollows(u: Setup, s: System, t: System, p: Phase) returns (q: Phase)
    requires u.Valid() && u.Derived() && Follows(u, s, p) && Next(u, s, t)
    ensures q == p || (!p.Ended() && q == p.After(u))
    ensures Follows(u, t, q)
  {
    EndedIsQuiet(u, p);
    if p.Ended() {
      NextMatches(u, s, t, p.At(u), p.At(u));
      q := p;
    } else {
      PhasesCount(u, p);
      PhaseStep(u, p);
      NextMatches(u, s, t, p.At(u), p.After(u).At(u));
      q := if t.delivered == s.delivered then p else p.After(u);
    }
  }

  /** A busy event has been put into one of the queues. */
  predicate Interrupts(s: System, t: System) {
    t.delivered == s.delivered && |t.toDevice| + |t.toReader| == |s.toDevice| + |s.toReader| + 1
  }

  /** Every other step uses up some of the measure. */
  lemma DeliveryUses(u: Setup, s: System, t: System)
    requires u.Valid() && Next(u, s, t)
    ensures if Interrupts(s, t) then Measure(u, t) == Measure(u, s) + 1 else Measure(u, t) < Measure(u, s)
  {
  }

  function Interruptions(run: seq<System>): nat
  {
    if |run| <= 1 then 0
    else
      var n := |run| - 1;
      Interruptions(run[..n]) + if Interrupts(run[n - 1], run[n]) then 1 else 0
  }

  predicate Behaviour(u: Setup, run: seq<System>)
    requires u.Valid()
  {
    run != [] && run[0] == Init(u) && forall i :: 0 <= i < |run| - 1 ==> Next(u, run[i], run[i + 1])
  }

  lemma {:induction false} RunFollows(u: Setup, run: seq<System>, i: nat) returns (p: Phase)
    requires u.Valid() && u.Derived() && Behaviour(u, run) && i < |run|
    ensures Follows(u, run[i], p)
  {
    if i == 0 {
      p := Requesting(0);
    } else {
      var before := RunFollows(u, run, i - 1);
      assert Next(u, run[i - 1], run[i - 1 + 1]);
      p := NextFollows(u, run[i - 1], run[i], before);
    }
  }

  lemma {:induction false} RunUses(u: Setup, run: seq<System>)
    requires u.Valid() && Behaviour(u, run)
    ensures |run| - 1 + Measure(u, run[|run| - 1]) <= Measure(u, run[0]) + 2 * Interruptions(run)
  {
    var n := |run| - 1;
    if n > 0 {
      PrefixBehaves(u, run);
      RunUses(u, run[..n]);
      StepUses(u, run, n - 1);
    }
  }

  lemma PrefixBehaves(u: Setup, run: seq<System>)
    requires u.Valid() && Behaviour(u, run) && |run| > 1
    ensures Behaviour(u, run[..|run| - 1])
  {
    var before := run[..|run| - 1];
    forall i | 0 <= i < |before| - 1 ensures Next(u, before[i], before[i + 1]) {
      assert Next(u, run[i], run[i + 1]);
    }
  }

  lemma StepUses(u: Setup, run: seq<System>, i: nat)
    requires u.Valid() && Behaviour(u, run) && i + 1 < |run|
    ensures var (m, m') := (Measure(u, run[i]), Measure(u, run[i + 1]));
            if Interrupts(run[i], run[i + 1]) then m' == m + 1 else m' < m
  {
    assert Next(u, run[i], run[i + 1]);
    DeliveryUses(u, run[i], run[i + 1]);
  }

  /** Nobody can go on for ever: a run has at most so many steps more than twice its busy events. */
  lemma EveryRunIsShort(u: Setup, run: seq<System>)
    requires u.Valid() && u.Derived() && Behaviour(u, run)
    ensures |run| - 1 <= 2 * u.Total() + 1 + 2 * Interruptions(run)
  {
    RunUses(u, run);
    DeliveredBound(u, run, |run| - 1);
    RunBound(|run| - 1, Measure(u, run[|run| - 1]), Measure(u, run[0]), u.Total(), Interruptions(run));
  }

  lemma RunBound(steps: int, last: int, first: int, total: int, interruptions: nat)
    requires steps + last <= first + 2 * interruptions && last >= 0 && first == 2 * total + 1
    ensures steps <= 2 * total + 1 + 2 * interruptions
  {
  }

  lemma DeliveredBound(u: Setup, run: seq<System>, i: nat)
    requires u.Valid() && u.Derived() && Behaviour(u, run) && i < |run|
    ensures run[i].delivered <= u.Total() && Measure(u, run[i]) >= 0
  {
    var p := RunFollows(u, run, i);
    PhasesCount(u, p);
  }

  lemma WholeIsSent(u: Setup)
    requires u.Valid() && u.Derived()
    ensures Understood(u, u.whole)
  {
    assert ChainCommand(u.commands, u.N() - 1, u.cla, u.ins, u.p1, u.p2, u.le);
    var le := NormalLe(u.le, |u.commands[u.N() - 1].Payload()|);
    assert le < 0x1_0000;
    assert u.N() > 1 ==> LcField(|u.data|, Some(le)).Ok? && LeField(|u.data|, Some(le)).Ok?;
  }

  lemma FinalReaderLaw(u: Setup)
    requires u.Derived() && u.M() >= 1
    ensures FinalReader(u).response.Payload() == u.answer && FinalReader(u).response.status == SW_SUCCESS
  {
    ResponseBytesRoundTrip(u.answer, SW_SUCCESS);
  }

  /** The handler is given the payload, under the header of the command and with its Le. */
  predicate Understood(u: Setup, c: Command)
    requires u.N() >= 1
  {
    && c.Payload() == u.data && c.cla == u.cla && c.ins == u.ins && c.p1 == u.p1 && c.p2 == u.p2
    && c.le == NormalLe(u.le, |u.commands[u.N() - 1].Payload()|)
  }

  /**
   * How a run ends. The device was given the payload either way; the answer arrives exactly when it can be asked for.
   */
  predicate Outcome(u: Setup, s: System)
    requires u.N() >= 1
  {
    && s.seen.Some? && Understood(u, s.seen.value)
    && if u.Completes() then
         && s.device == Finished
         && s.reader.ReaderDone? && s.reader.response.Payload() == u.answer && s.reader.response.status == SW_SUCCESS
         && s.reader.responseChaining == (u.M() > 1) && s.reader.commandChaining == (u.N() > 1)
       else if u.M() == 0 then
         s.device == Finished && s.reader == AwaitCommand(u.N() - 1)
       else
         s.device == DeviceFailed(InvalidCLAError) && s.reader == AwaitFragment(AnswerParts(u, 1))
  }

  lemma PhaseOutcome(u: Setup, s: System, p: Phase)
    requires u.Valid() && u.Derived() && Follows(u, s, p) && p.Ended()
    ensures Outcome(u, s)
  {
    WholeIsSent(u);
    if p.Complete? {
      CompleteOutcome(u, s, p);
    } else if p.Refused? {
      RefusedOutcome(u, s, p);
    } else {
      UnansweredOutcome(u, s, p);
    }
  }

  lemma CompleteOutcome(u: Setup, s: System, p: Phase)
    requires u.Valid() && u.Derived() && Understood(u, u.whole) && Follows(u, s, p) && p.Complete?
    ensures Outcome(u, s)
  {
    FinalReaderLaw(u);
    assert s.reader == FinalReader(u) && s.device == Finished && s.seen == Some(u.whole);
  }

  lemma RefusedOutcome(u: Setup, s: System, p: Phase)
    requires u.Valid() && Understood(u, u.whole) && Follows(u, s, p) && p.Refused?
    ensures Outcome(u, s)
  {
  }

  lemma UnansweredOutcome(u: Setup, s: System, p: Phase)
    requires u.Valid() && Understood(u, u.whole) && Follows(u, s, p) && p.Unanswered?
    ensures Outcome(u, s)
  {
  }

  lemma PhaseEnabled(u: Setup, s: System, p: Phase)
    requires u.Valid() && u.Derived() && Follows(u, s, p) && !p.Ended()
    ensures Enabled(u, s) && |Quiet(s.toDevice)| + |Quiet(s.toReader)| == 1
  {
    PhaseStep(u, p);
    EndedIsQuiet(u, p);
  }

  /**
   * In every reachable state exactly one message is in flight and its receiver listens, until 2(n + m - 1) messages
   * have been delivered (2n + 1 if the answer cannot be asked for, 2n - 1 if there is none); then nothing is, and the
   * outcome is as stated.
   */
  lemma TwoPartyChaining(u: Setup, run: seq<System>, i: nat)
    requires u.Valid() && u.Derived() && Behaviour(u, run) && i < |run|
    ensures run[i].delivered <= u.Total()
    ensures run[i].delivered < u.Total() ==>
              Enabled(u, run[i]) && |Quiet(run[i].toDevice)| + |Quiet(run[i].toReader)| == 1
    ensures run[i].delivered == u.Total() ==>
              Outcome(u, run[i]) && Quiet(run[i].toDevice) == [] && Quiet(run[i].toReader) == []
  {
    var p := RunFollows(u, run, i);
    PhasesCount(u, p);
    if p.Ended() {
      PhaseOutcome(u, run[i], p);
      EndedIsQuiet(u, p);
    } else {
      PhaseEnabled(u, run[i], p);
    }
  }

  /** One more step of a run that has not ended: the head of the queue that holds the message. */
  lemma Progress(u: Setup, run: seq<System>) returns (t: System)
    requires u.Valid() && u.Derived() && Behaviour(u, run) && run[|run| - 1].delivered < u.Total()
    ensures Behaviour(u, run + [t]) && Measure(u, t) < Measure(u, run[|run| - 1])
  {
    var s := run[|run| - 1];
    TwoPartyChaining(u, run, |run| - 1);
    t := if DeviceListens(s.device) && Quiet(s.toDevice) != [] then DeliverToDevice(u, s) else DeliverToReader(u, s);
    DeliveryUses(u, s, t);
    LongerBehaves(u, run, t);
  }

  lemma LongerBehaves(u: Setup, run: seq<System>, t: System)
    requires u.Valid() && Behaviour(u, run) && Next(u, run[|run| - 1], t)
    ensures Behaviour(u, run + [t])
  {
    forall i | 0 <= i < |run|
      ensures Next(u, (run + [t])[i], (run + [t])[i + 1])
    {
      if i < |run| - 1 {
        assert Next(u, run[i], run[i + 1]);
      }
    }
  }

  /** From every reachable state both ends finish, within a bounded number of deliveries. */
  lemma {:induction false} BothEndsFinish(u: Setup, run: seq<System>) returns (more: seq<System>)
    requires u.Valid() && u.Derived() && Behaviour(u, run)
    ensures Behaviour(u, run + more) && (run + more)[|run + more| - 1].delivered == u.Total()
    ensures |more| <= Measure(u, run[|run| - 1])
    decreases Measure(u, run[|run| - 1])
  {
    DeliveredBound(u, run, |run| - 1);
    if run[|run| - 1].delivered == u.Total() {
      more := [];
      assert run + more == run;
    } else {
      var t := Progress(u, run);
      DeliveredBound(u, run + [t], |run|);
      var rest := BothEndsFinish(u, run + [t]);
      more := [t] + rest;
      assert run + more == run + [t] + rest;
    }
  }

  // ---------------------------------------------------------------- the chains that the two factories make

  /** GET RESPONSE can be built in short mode, and in extended mode when header and Le fit the limit. */
  lemma CanGetResponseIff(l: Limits)
    requires l.Standard()
    ensures CanGetResponse(l) <==> (l.extended ==> l.maxCommandApdu >= 4 + if l.maxResponseApdu < 256 then 1 else 3)
  {
    assert l.extended ==> ExpectedSize(l, 0) == l.maxResponseApdu;
    if CanGetResponse(l) {
      assert Answers(l, 0, Some(ExpectedSize(l, 0)));
    }
  }

  lemma NonEmptyConcat(parts: seq<seq<byte>>)
    requires parts != [] && parts[0] != []
    ensures Concat(parts) != []
  {
    assert Concat(parts) == parts[0] + Concat(parts[1..]);
  }

  lemma ChainAnswers(responses: seq<Response>, answer: seq<byte>)
    requires IsResponseChain(responses, answer, SW_SUCCESS)
    ensures AnswerChain(responses, answer)
  {
    var parts := ResponsePayloads(responses);
    forall i | 0 <= i < |responses|
      ensures AnswerAt(responses, i)
    {
      assert IsResponseFragment(responses[i], parts[i], |Concat(parts[i + 1..])|, SW_SUCCESS);
      if i < |responses| - 1 {
        NonEmptyConcat(parts[i + 1..]);
      } else {
        assert parts[i + 1..] == [];
      }
    }
  }

  lemma ResponsesAnswer(l: Limits, responseLength: int, data: Option<seq<byte>>)
    requires (if l.extended then l.maxCommandApdu - 2 else responseLength) >= 1
    ensures var r := Responses(l, responseLength, data, SW_SUCCESS);
            r.Ok? && AnswerChain(r.value, if data.Some? then data.value else [])
  {
    var limit := if l.extended then l.maxCommandApdu - 2 else responseLength;
    if data.Some? && |data.value| > limit {
      ResponseChainLaw(data.value, SW_SUCCESS, limit);
      ChainAnswers(Responses(l, responseLength, data, SW_SUCCESS).value, data.value);
    } else {
      SinglePart(EncodeResponse(data, SW_SUCCESS).value);
    }
  }

  /** With positive chunk sizes the request of `create_command` and the answer of `create_response` make a setup. */
  lemma RealChains(u: Setup, deviceLimits: Limits, responseLength: int, data: Option<seq<byte>>)
    requires u.limits.Standard() && CanGetResponse(u.limits) && TwoByteLe(u.le) && !HasChainBit(u.cla)
    requires var size := ChunkSize(u.limits, |u.data|, u.le); size.Ok? && Terminates(size.value, |u.data|)
    requires |u.data| < 0x100_0000
    requires Commands(u.limits, u.cla, u.ins, u.p1, u.p2, u.data, u.le) == Ok(u.commands)
    requires (if deviceLimits.extended then deviceLimits.maxCommandApdu - 2 else responseLength) >= 1
    requires Responses(deviceLimits, responseLength, data, SW_SUCCESS) == Ok(u.responses)
    requires u.answer == if data.Some? then data.value else []
    requires |u.questions| + 1 == |u.responses|
    ensures u.Valid() && u.M() >= 1
  {
    RequestFragmentation(u.limits, u.cla, u.ins, u.p1, u.p2, u.data, u.le);
    ResponsesAnswer(deviceLimits, responseLength, data);
  }

  /** The derived fields of a setup always exist. */
  lemma CanDerive(u: Setup) returns (v: Setup)
    requires CanGetResponse(u.limits) && u.limits.maxResponseApdu <= 0xFFFF && u.N() >= 1
    ensures v == u.(whole := v.whole, questions := v.questions, final := v.final) && v.Derived()
  {
    ResponseBytesRoundTrip(u.answer, SW_SUCCESS);
    var questions := seq(if u.M() == 0 then 0 else u.M() - 1, j requires 0 <= j < u.M() => QuestionOf(u, j));
    v := u.(whole := WholeOf(u), questions := questions, final := ParseResponse(u.answer + U16(SW_SUCCESS)).value);
    forall j | 0 <= j < |questions| ensures QuestionAt(v, j) {
      GetResponseLaw(u.limits, Sw2(u.responses[j].status), u.cla);
    }
    assert WholeOf(v) == WholeOf(u);
  }

  function QuestionOf(u: Setup, j: nat): seq<byte>
    requires CanGetResponse(u.limits) && j < u.M()
  {
    var wire := GetResponse(u.limits, Sw2(u.responses[j].status), u.cla);
    if wire.Ok? then wire.value else []
  }
}
