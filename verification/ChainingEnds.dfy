/**
 * How each of the three chaining loops ends, for every list of incoming messages: what it has sent by then, which
 * message decides, and what that makes of it. Error statuses and malformed messages are included.
 */
module ChainingEnds {
  import opened Basics
  import opened ApduCodec
  import opened Fragmentation
  import opened Chaining

  // ---------------------------------------------------------------- what is heard

  /** The payloads that a loop with this timer is given, and what its waiting raises behind them. */
  datatype Transcript = Transcript(heard: seq<seq<byte>>, raised: Option<Error>)

  predicate BusyEvent(e: Event) {
    e.header == Some(0x02) && e.id == Some(0x00) && e.payload != [] && e.payload[0] == 0x00
  }

  /** An access protocol message of the kind that is waited for. */
  predicate Proper(e: Event, id: byte) {
    (e.header.None? || e.header == Some(0x00)) && (e.id.None? || e.id == Some(id))
  }

  function Transcribe(timer: bool, inbox: seq<Event>, id: byte): Transcript
  {
    if inbox == [] then Transcript([], None)
    else
      var e, rest := inbox[0], Transcribe(timer, inbox[1..], id);
      if timer && BusyEvent(e) then rest
      else if Proper(e, id) then Transcript([e.payload] + rest.heard, rest.raised)
      else Transcript([], Some(if e.header == Some(0x02) && e.id == Some(0x00) && e.payload == [] then IndexError
                               else UnexpectedBLEMessageError))
  }

  lemma {:induction false} AwaitTranscribes(timer: bool, inbox: seq<Event>, id: byte)
    ensures var (heard, rest) := Await(timer, inbox, id);
            Transcribe(timer, inbox, id) == match heard
                                            case Again => Transcript([], None)
                                            case Raised(e) => Transcript([], Some(e))
                                            case Got(p) => var t := Transcribe(timer, rest, id);
                                                           Transcript([p] + t.heard, t.raised)
  {
    if inbox != [] && Hear(timer, inbox[0], id).Again? {
      AwaitTranscribes(timer, inbox[1..], id);
    }
  }

  // ---------------------------------------------------------------- the reader

  /** The answer at position i lets the loop go on: to the next command, or since it announces more data. */
  predicate GoesOn(n: nat, heard: seq<seq<byte>>, i: nat)
    requires i < |heard|
  {
    |heard[i]| >= 2 && (i + 1 < n || heard[i][|heard[i]| - 2] == 0x61)
  }

  /** The first answer from position i on that does not, or the number of all. */
  function FirstStop(n: nat, heard: seq<seq<byte>>, i: nat): (k: nat)
    requires i <= |heard|
    ensures i <= k <= |heard| && forall j :: i <= j < k ==> GoesOn(n, heard, j)
    ensures forall j :: i <= j < k ==> |heard[j]| >= 2
    ensures k < |heard| ==> !GoesOn(n, heard, k)
    decreases |heard| - i
  {
    if i == |heard| || !GoesOn(n, heard, i) then i else FirstStop(n, heard, i + 1)
  }

  function Data(answer: seq<byte>): seq<byte>
    requires |answer| >= 2
  {
    answer[..|answer| - 2]
  }

  /** The bytes of the GET RESPONSE behind an answer: its Le is SW2, in extended mode the announced maximum. */
  function Question(l: Limits, cla: byte, answer: seq<byte>): seq<byte>
    requires |answer| >= 2 && l.maxResponseApdu <= 0xFFFF
  {
    [cla, 0xC0, 0x00, 0x00]
    + if !l.extended then [answer[|answer| - 1]]
      else if l.maxResponseApdu < 256 then [l.maxResponseApdu] else U24(l.maxResponseApdu)
  }

  predicate Lengths(heard: seq<seq<byte>>, i: nat) {
    i <= |heard| && forall j :: 0 <= j < i ==> |heard[j]| >= 2
  }

  /** The data of the first i answers; what answers a command before the last is not looked at. */
  function Collected(n: nat, heard: seq<seq<byte>>, i: nat): seq<byte>
    requires Lengths(heard, i)
  {
    if i < n || i == 0 then [] else Collected(n, heard, i - 1) + Data(heard[i - 1])
  }

  /** The messages sent once the first i answers have been heard. */
  function SentBy(l: Limits, commands: seq<Command>, heard: seq<seq<byte>>, i: nat): seq<seq<byte>>
    requires commands != [] && Lengths(heard, i) && l.maxResponseApdu <= 0xFFFF
  {
    if i == 0 then [commands[0].wire]
    else
      SentBy(l, commands, heard, i - 1)
      + [if i < |commands| then commands[i].wire else Question(l, commands[|commands| - 1].cla, heard[i - 1])]
  }

  function Waiting(n: nat, heard: seq<seq<byte>>, i: nat): ReaderState
    requires Lengths(heard, i)
  {
    if i < n then AwaitCommand(i) else AwaitFragment(Collected(n, heard, i))
  }

  /** What the deciding answer makes of the loop: success with all data, or the error status that it has. */
  function Decided(n: nat, heard: seq<seq<byte>>, k: nat): ReaderState
    requires n >= 1 && k < |heard| && Lengths(heard, k)
  {
    var answer := heard[k];
    if |answer| < 2 then ReaderFailed(CreateResponseError)
    else if answer[|answer| - 2..] == [0x90, 0x00] then
      var data := Collected(n, heard, k) + Data(answer);
      ReaderDone(Response(if data == [] then None else Some(data), 0x9000, data + [0x90, 0x00]), k >= n, n > 1)
    else ReaderFailed(InvalidStatusError(BigEndian(answer[|answer| - 2..])))
  }

  predicate Askable(l: Limits, commands: seq<Command>) {
    CanGetResponse(l) && l.maxResponseApdu <= 0xFFFF && commands != []
  }

  /** The end of the loop, seen from position i of what it hears. */
  predicate EndsFrom(l: Limits, commands: seq<Command>, t: Transcript, i: nat, outbox: seq<seq<byte>>,
                     run: Run<ReaderState>)
    requires Askable(l, commands) && Lengths(t.heard, i)
  {
    var n, k := |commands|, FirstStop(|commands|, t.heard, i);
    && run.outbox == outbox + SentBy(l, commands, t.heard, k)
    && run.state == if k < |t.heard| then Decided(n, t.heard, k)
                    else if t.raised.Some? then ReaderFailed(t.raised.value)
                    else Waiting(n, t.heard, k)
  }

  /** How the loop ends with what it hears, and what it has sent by then. */
  predicate ReaderEndsAs(l: Limits, commands: seq<Command>, t: Transcript, outbox: seq<seq<byte>>,
                         run: Run<ReaderState>)
    requires Askable(l, commands)
  {
    EndsFrom(l, commands, t, 0, outbox, run)
  }

  lemma QuestionIs(l: Limits, cla: byte, answer: seq<byte>)
    requires CanGetResponse(l) && l.maxResponseApdu <= 0xFFFF && |answer| >= 2
    ensures GetResponse(l, answer[|answer| - 1], cla) == Ok(Question(l, cla, answer))
  {
    var le := Some(ExpectedSize(l, answer[|answer| - 1]));
    var c := Encode(cla, INS_GET_RESPONSE, 0, 0, [], le).value;
    assert Answers(l, 0, le);
    assert Chunks([], ChunkSize(l, 0, le).value) == [[]];
    assert Encode(cla, INS_GET_RESPONSE, 0, 0, [], le).Ok? && [c] + [] == [c];
    var empty: seq<seq<byte>> := [[]];
    assert empty[1..] == [] && BuildAll(cla, INS_GET_RESPONSE, 0, 0, empty, le) == Ok([c]);
    assert c.wire == [cla, INS_GET_RESPONSE, 0, 0] + LeField(0, le).value;
  }

  lemma ParsesAnswer(answer: seq<byte>)
    requires |answer| >= 2
    ensures var r := ParseResponse(answer);
            && r.Ok? && r.value.Payload() == Data(answer) && r.value.status == BigEndian(answer[|answer| - 2..])
            && Sw1(r.value.status) == answer[|answer| - 2] && Sw2(r.value.status) == answer[|answer| - 1]
  {
  }

  /** One answer, heard while the loop waits for it. */
  lemma HearsOne(l: Limits, commands: seq<Command>, heard: seq<seq<byte>>, i: nat)
    requires Askable(l, commands) && i < |heard| && Lengths(heard, i)
    ensures var n := |commands|;
            ReaderOn(l, commands, Waiting(n, heard, i), heard[i])
            == if GoesOn(n, heard, i) then
                 (Waiting(n, heard, i + 1),
                  Some(if i + 1 < n then commands[i + 1].wire else Question(l, commands[n - 1].cla, heard[i])))
               else (Decided(n, heard, i), None)
  {
    var n := |commands|;
    if |heard[i]| >= 2 {
      ParsesAnswer(heard[i]);
      if i + 1 >= n {
        assert [] + Data(heard[i]) == Data(heard[i]);
        DecidesOn(l, commands, Collected(n, heard, i), heard[i], i >= n);
        assert Collected(n, heard, i + 1) == Collected(n, heard, i) + Data(heard[i]);
      }
    }
  }

  lemma DecidesOn(l: Limits, commands: seq<Command>, before: seq<byte>, answer: seq<byte>, chained: bool)
    requires Askable(l, commands) && |answer| >= 2
    ensures var data, r := before + Data(answer), ParseResponse(answer).value;
            Advance(l, commands, data, r, chained)
            == if answer[|answer| - 2] == 0x61 then
                 (AwaitFragment(data), Some(Question(l, commands[|commands| - 1].cla, answer)))
               else if answer[|answer| - 2..] == [0x90, 0x00] then
                 (ReaderDone(Response(if data == [] then None else Some(data), 0x9000, data + [0x90, 0x00]), chained,
                             |commands| > 1), None)
               else (ReaderFailed(InvalidStatusError(BigEndian(answer[|answer| - 2..]))), None)
  {
    var data := before + Data(answer);
    ParsesAnswer(answer);
    QuestionIs(l, commands[|commands| - 1].cla, answer);
    ResponseBytesRoundTrip(data, 0x9000);
    assert U16(0x9000) == [0x90, 0x00];
    assert answer[|answer| - 2..] == [answer[|answer| - 2], answer[|answer| - 1]];
  }

  /** One message of the loop. */
  lemma RunsOne(l: Limits, commands: seq<Command>, timer: bool, s: ReaderState, inbox: seq<Event>,
                outbox: seq<seq<byte>>, payload: seq<byte>, rest: seq<Event>)
    requires CanGetResponse(l) && commands != [] && ReaderWaits(s, commands)
    requires Await(timer, inbox, 0x01) == (Got(payload), rest)
    ensures var (s', out) := ReaderOn(l, commands, s, payload);
            RunReader(l, commands, timer, s, inbox, outbox)
            == RunReader(l, commands, timer, s', rest, Post(outbox, out))
  {
  }

  lemma RunsNoMore(l: Limits, commands: seq<Command>, timer: bool, s: ReaderState, inbox: seq<Event>,
                   outbox: seq<seq<byte>>)
    requires CanGetResponse(l) && commands != []
    ensures var run := RunReader(l, commands, timer, s, inbox, outbox);
            if !ReaderWaits(s, commands) then run == Run(s, outbox, inbox)
            else
              match Await(timer, inbox, 0x01).0
              case Again => run.state == s && run.outbox == outbox
              case Raised(e) => run.state == ReaderFailed(e) && run.outbox == outbox
              case Got(_) => true
  {
  }

  lemma NotWaiting(n: nat, heard: seq<seq<byte>>, i: nat, commands: seq<Command>)
    requires n == |commands| >= 1 && Lengths(heard, i)
    ensures ReaderWaits(Waiting(n, heard, i), commands)
    ensures i < |heard| ==> !ReaderWaits(Decided(n, heard, i), commands)
  {
  }

  lemma EndsLater(l: Limits, commands: seq<Command>, t: Transcript, i: nat, outbox: seq<seq<byte>>,
                  run: Run<ReaderState>)
    requires Askable(l, commands) && Lengths(t.heard, i) && i < |t.heard| && GoesOn(|commands|, t.heard, i)
    requires EndsFrom(l, commands, t, i + 1, outbox, run)
    ensures EndsFrom(l, commands, t, i, outbox, run)
  {
  }

  lemma EndsHere(l: Limits, commands: seq<Command>, t: Transcript, i: nat, outbox: seq<seq<byte>>,
                 run: Run<ReaderState>)
    requires Askable(l, commands) && Lengths(t.heard, i) && (i < |t.heard| ==> !GoesOn(|commands|, t.heard, i))
    requires run.outbox == outbox + SentBy(l, commands, t.heard, i)
    requires run.state == if i < |t.heard| then Decided(|commands|, t.heard, i)
                          else if t.raised.Some? then ReaderFailed(t.raised.value)
                          else Waiting(|commands|, t.heard, i)
    ensures EndsFrom(l, commands, t, i, outbox, run)
  {
  }

  /** The run, seen from the point at which i answers have been heard. */
  predicate Stands(l: Limits, commands: seq<Command>, timer: bool, inbox: seq<Event>, t: Transcript, i: nat,
                   outbox: seq<seq<byte>>, run: Run<ReaderState>)
    requires Askable(l, commands)
  {
    && Lengths(t.heard, i) && Transcribe(timer, inbox, 0x01) == Transcript(t.heard[i..], t.raised)
    && run == RunReader(l, commands, timer, Waiting(|commands|, t.heard, i), inbox,
                        outbox + SentBy(l, commands, t.heard, i))
  }

  lemma RunsToEnd(l: Limits, commands: seq<Command>, timer: bool, inbox: seq<Event>, t: Transcript, i: nat,
                  outbox: seq<seq<byte>>, run: Run<ReaderState>)
    requires Askable(l, commands) && Stands(l, commands, timer, inbox, t, i, outbox, run)
    requires i < |t.heard| ==> !GoesOn(|commands|, t.heard, i)
    ensures EndsFrom(l, commands, t, i, outbox, run)
  {
    var n, s := |commands|, Waiting(|commands|, t.heard, i);
    var sent := outbox + SentBy(l, commands, t.heard, i);
    var (h, rest) := Await(timer, inbox, 0x01);
    AwaitTranscribes(timer, inbox, 0x01);
    NotWaiting(n, t.heard, i, commands);
    RunsNoMore(l, commands, timer, s, inbox, sent);
    if h.Got? {
      assert t.heard[i..][0] == t.heard[i];
      HearsOne(l, commands, t.heard, i);
      RunsOne(l, commands, timer, s, inbox, sent, h.payload, rest);
      RunsNoMore(l, commands, timer, Decided(n, t.heard, i), rest, sent);
    }
    EndsHere(l, commands, t, i, outbox, run);
  }

  /** The next answer lets the loop go on: it waits for the one behind it. */
  lemma RunsToNext(l: Limits, commands: seq<Command>, timer: bool, inbox: seq<Event>, t: Transcript, i: nat,
                   outbox: seq<seq<byte>>, run: Run<ReaderState>) returns (rest: seq<Event>)
    requires Askable(l, commands) && Stands(l, commands, timer, inbox, t, i, outbox, run)
    requires i < |t.heard| && GoesOn(|commands|, t.heard, i)
    ensures |rest| < |inbox| && Stands(l, commands, timer, rest, t, i + 1, outbox, run)
  {
    var (h, next) := Await(timer, inbox, 0x01);
    rest := next;
    AwaitTranscribes(timer, inbox, 0x01);
    assert t.heard[i..][0] == t.heard[i] && t.heard[i..][1..] == t.heard[i + 1..];
    NotWaiting(|commands|, t.heard, i, commands);
    HearsOne(l, commands, t.heard, i);
    RunsOne(l, commands, timer, Waiting(|commands|, t.heard, i), inbox, outbox + SentBy(l, commands, t.heard, i),
            t.heard[i], rest);
    SentGrows(l, commands, t.heard, i, outbox);
  }

  lemma {:induction false} RunsOn(l: Limits, commands: seq<Command>, timer: bool, inbox: seq<Event>, t: Transcript,
                                  i: nat, outbox: seq<seq<byte>>, run: Run<ReaderState>)
    requires Askable(l, commands) && Stands(l, commands, timer, inbox, t, i, outbox, run)
    ensures EndsFrom(l, commands, t, i, outbox, run)
    decreases |inbox|
  {
    if i < |t.heard| && GoesOn(|commands|, t.heard, i) {
      var rest := RunsToNext(l, commands, timer, inbox, t, i, outbox, run);
      RunsOn(l, commands, timer, rest, t, i + 1, outbox, run);
      EndsLater(l, commands, t, i, outbox, run);
    } else {
      RunsToEnd(l, commands, timer, inbox, t, i, outbox, run);
    }
  }

  lemma SentGrows(l: Limits, commands: seq<Command>, heard: seq<seq<byte>>, i: nat, outbox: seq<seq<byte>>)
    requires Askable(l, commands) && Lengths(heard, i + 1)
    ensures var m := if i + 1 < |commands| then commands[i + 1].wire
                     else Question(l, commands[|commands| - 1].cla, heard[i]);
            outbox + SentBy(l, commands, heard, i) + [m] == outbox + SentBy(l, commands, heard, i + 1)
  {
  }

  /** For every list of incoming messages: how `handle_chaining_send_command` ends, and what it has sent by then. */
  lemma ReaderEnds(l: Limits, commands: seq<Command>, timer: bool, inbox: seq<Event>, outbox: seq<seq<byte>>)
    requires Askable(l, commands)
    ensures ReaderEndsAs(l, commands, Transcribe(timer, inbox, 0x01), outbox,
                         RunReader(l, commands, timer, AwaitCommand(0), inbox, outbox + [commands[0].wire]))
  {
    var t := Transcribe(timer, inbox, 0x01);
    assert t.heard[0..] == t.heard;
    RunsOn(l, commands, timer, inbox, t, 0, outbox,
           RunReader(l, commands, timer, AwaitCommand(0), inbox, outbox + [commands[0].wire]));
  }

  /** Answer k decides: all before it let the loop go on, it does not, and it has a status. */
  predicate DecidesAt(n: nat, heard: seq<seq<byte>>, k: nat) {
    k < |heard| && |heard[k]| >= 2 && !GoesOn(n, heard, k) && forall j :: 0 <= j < k ==> GoesOn(n, heard, j)
  }

  function StatusOf(answer: seq<byte>): nat
    requires |answer| >= 2
  {
    BigEndian(answer[|answer| - 2..])
  }

  lemma {:induction false} FirstStopIs(n: nat, heard: seq<seq<byte>>, i: nat, k: nat)
    requires DecidesAt(n, heard, k) && i <= k
    ensures FirstStop(n, heard, i) == k
    decreases k - i
  {
    if i < k {
      FirstStopIs(n, heard, i + 1, k);
    }
  }

  /**
   * The reader's loop ends with a response exactly if an answer with the success status decides, and that is the status
   * of the response; it raises an error status exactly if the deciding answer has it.
   */
  lemma StatusDecides(l: Limits, commands: seq<Command>, timer: bool, inbox: seq<Event>, outbox: seq<seq<byte>>,
                      status: nat)
    requires Askable(l, commands)
    ensures var n, heard := |commands|, Transcribe(timer, inbox, 0x01).heard;
            var s := RunReader(l, commands, timer, AwaitCommand(0), inbox, outbox + [commands[0].wire]).state;
            && (s.ReaderDone? <==> exists k: nat :: DecidesAt(n, heard, k) && StatusOf(heard[k]) == 0x9000)
            && (s.ReaderDone? ==> s.response.status == 0x9000)
            && (s == ReaderFailed(InvalidStatusError(status)) <==>
                  status != 0x9000 && exists k: nat :: DecidesAt(n, heard, k) && StatusOf(heard[k]) == status)
  {
    var n, t := |commands|, Transcribe(timer, inbox, 0x01);
    ReaderEnds(l, commands, timer, inbox, outbox);
    RaisedInWaiting(timer, inbox, 0x01);
    HasStatusIff(n, t.heard, 0x9000);
    HasStatusIff(n, t.heard, status);
    StatusOfDecided(n, t.heard);
  }

  predicate HasStatus(n: nat, heard: seq<seq<byte>>, status: nat) {
    var k := FirstStop(n, heard, 0);
    k < |heard| && |heard[k]| >= 2 && StatusOf(heard[k]) == status
  }

  lemma HasStatusIff(n: nat, heard: seq<seq<byte>>, status: nat)
    ensures HasStatus(n, heard, status) <==>
            exists k: nat :: DecidesAt(n, heard, k) && StatusOf(heard[k]) == status
  {
    var first := FirstStop(n, heard, 0);
    if HasStatus(n, heard, status) {
      assert DecidesAt(n, heard, first);
    }
    if k: nat :| DecidesAt(n, heard, k) && StatusOf(heard[k]) == status {
      FirstStopIs(n, heard, 0, k);
    }
  }

  lemma StatusOfDecided(n: nat, heard: seq<seq<byte>>)
    requires n >= 1
    ensures var k := FirstStop(n, heard, 0);
            k < |heard| ==>
              var s := Decided(n, heard, k);
              && (s.ReaderDone? <==> HasStatus(n, heard, 0x9000))
              && (s.ReaderDone? ==> s.response.status == 0x9000)
              && (forall status :: s == ReaderFailed(InvalidStatusError(status)) <==>
                                   status != 0x9000 && HasStatus(n, heard, status))
  {
    var k := FirstStop(n, heard, 0);
    if k < |heard| && |heard[k]| >= 2 {
      SuccessBytes(heard[k]);
    }
  }

  lemma SuccessBytes(answer: seq<byte>)
    requires |answer| >= 2
    ensures StatusOf(answer) == 0x9000 <==> answer[|answer| - 2..] == [0x90, 0x00]
  {
    assert U16(0x9000) == [0x90, 0x00];
  }

  lemma {:induction false} RaisedInWaiting(timer: bool, inbox: seq<Event>, id: byte)
    ensures var t := Transcribe(timer, inbox, id); t.raised.Some? ==> !t.raised.value.InvalidStatusError?
  {
    if inbox != [] {
      RaisedInWaiting(timer, inbox[1..], id);
    }
  }

  // ---------------------------------------------------------------- the device that receives

  /** The messages of a chained command: the first one, and those that are heard behind it. */
  predicate Chains(messages: seq<seq<byte>>, i: nat)
    requires i < |messages|
  {
    Parse(messages[i]).Ok? && messages[i][0] / 0x10 % 2 == 1
  }

  function FirstWhole(messages: seq<seq<byte>>, i: nat): (k: nat)
    requires i <= |messages|
    ensures i <= k <= |messages| && forall j :: i <= j < k ==> Chains(messages, j)
    ensures forall j :: i <= j < k ==> Parse(messages[j]).Ok?
    ensures k < |messages| ==> !Chains(messages, k)
    decreases |messages| - i
  {
    if i == |messages| || !Chains(messages, i) then i else FirstWhole(messages, i + 1)
  }

  predicate AllParse(messages: seq<seq<byte>>, i: nat) {
    i <= |messages| && forall j :: 0 <= j < i ==> Parse(messages[j]).Ok?
  }

  /** The payloads of the first i messages. */
  function Gathered(messages: seq<seq<byte>>, i: nat): seq<byte>
    requires AllParse(messages, i)
  {
    if i == 0 then [] else Gathered(messages, i - 1) + Parse(messages[i - 1]).value.Payload()
  }

  /** What the first message without the chaining bit makes of the loop: the command as it is, or rebuilt. */
  function Whole(messages: seq<seq<byte>>, k: nat): ReceiveState
    requires k < |messages| && AllParse(messages, k)
  {
    match Parse(messages[k])
    case Err(e) => ReceiveFailed(e)
    case Ok(c) =>
      if k == 0 then Received(c, false)
      else
        match Encode(c.cla, c.ins, c.p1, c.p2, Gathered(messages, k) + c.Payload(), Some(c.le))
        case Err(e) => ReceiveFailed(e)
        case Ok(whole) => Received(whole, true)
  }

  /** One success status without data for each of the first i messages. */
  function Acknowledged(i: nat): (s: seq<seq<byte>>)
    ensures |s| == i && forall j :: 0 <= j < i ==> s[j] == [0x90, 0x00]
  {
    if i == 0 then [] else Acknowledged(i - 1) + [[0x90, 0x00]]
  }

  /** The end of the loop, seen from message i. */
  predicate ReceiveEndsFrom(messages: seq<seq<byte>>, raised: Option<Error>, i: nat, outbox: seq<seq<byte>>,
                            run: Run<ReceiveState>)
    requires AllParse(messages, i)
  {
    var k := FirstWhole(messages, i);
    && run.outbox == outbox + Acknowledged(k)
    && run.state == if k < |messages| then Whole(messages, k)
                    else if raised.Some? then ReceiveFailed(raised.value)
                    else Collecting(Gathered(messages, k))
  }

  lemma ReceiveGot(timer: bool, total: seq<byte>, inbox: seq<Event>, outbox: seq<seq<byte>>, payload: seq<byte>,
                   rest: seq<Event>)
    requires Await(timer, inbox, 0x00) == (Got(payload), rest)
    ensures var (s', out) := ReceiveOn(total, payload);
            RunReceive(timer, Collecting(total), inbox, outbox) == RunReceive(timer, s', rest, Post(outbox, out))
  {
  }

  lemma ReceiveNoMore(timer: bool, s: ReceiveState, inbox: seq<Event>, outbox: seq<seq<byte>>)
    ensures var run := RunReceive(timer, s, inbox, outbox);
            if !s.Collecting? then run == Run(s, outbox, inbox)
            else
              match Await(timer, inbox, 0x00).0
              case Again => run.state == s && run.outbox == outbox
              case Raised(e) => run.state == ReceiveFailed(e) && run.outbox == outbox
              case Got(_) => true
  {
  }

  /** One message behind the first. */
  lemma ReceivesOne(messages: seq<seq<byte>>, i: nat)
    requires 1 <= i < |messages| && AllParse(messages, i)
    ensures ReceiveOn(Gathered(messages, i), messages[i])
         == if Chains(messages, i) then (Collecting(Gathered(messages, i + 1)), Some([0x90, 0x00]))
            else (Whole(messages, i), None)
  {
    assert U16(0x9000) == [0x90, 0x00];
  }

  lemma AcknowledgesOne(outbox: seq<seq<byte>>, i: nat)
    ensures outbox + Acknowledged(i) + [[0x90, 0x00]] == outbox + Acknowledged(i + 1)
  {
  }

  predicate ReceiveStands(timer: bool, inbox: seq<Event>, messages: seq<seq<byte>>, raised: Option<Error>, i: nat,
                          outbox: seq<seq<byte>>, run: Run<ReceiveState>) {
    && 1 <= i && AllParse(messages, i) && Transcribe(timer, inbox, 0x00) == Transcript(messages[i..], raised)
    && run == RunReceive(timer, Collecting(Gathered(messages, i)), inbox, outbox + Acknowledged(i))
  }

  lemma ReceivesToEnd(timer: bool, inbox: seq<Event>, messages: seq<seq<byte>>, raised: Option<Error>, i: nat,
                      outbox: seq<seq<byte>>, run: Run<ReceiveState>)
    requires ReceiveStands(timer, inbox, messages, raised, i, outbox, run)
    requires i < |messages| ==> !Chains(messages, i)
    ensures ReceiveEndsFrom(messages, raised, i, outbox, run)
  {
    var (h, rest) := Await(timer, inbox, 0x00);
    AwaitTranscribes(timer, inbox, 0x00);
    ReceiveNoMore(timer, Collecting(Gathered(messages, i)), inbox, outbox + Acknowledged(i));
    if h.Got? {
      assert messages[i..][0] == messages[i];
      ReceivesOne(messages, i);
      ReceiveGot(timer, Gathered(messages, i), inbox, outbox + Acknowledged(i), h.payload, rest);
      ReceiveNoMore(timer, Whole(messages, i), rest, outbox + Acknowledged(i));
    }
  }

  lemma ReceivesToNext(timer: bool, inbox: seq<Event>, messages: seq<seq<byte>>, raised: Option<Error>, i: nat,
                       outbox: seq<seq<byte>>, run: Run<ReceiveState>) returns (rest: seq<Event>)
    requires ReceiveStands(timer, inbox, messages, raised, i, outbox, run) && i < |messages| && Chains(messages, i)
    ensures |rest| < |inbox| && ReceiveStands(timer, rest, messages, raised, i + 1, outbox, run)
  {
    var (h, next) := Await(timer, inbox, 0x00);
    rest := next;
    AwaitTranscribes(timer, inbox, 0x00);
    assert messages[i..][0] == messages[i] && messages[i..][1..] == messages[i + 1..];
    ReceivesOne(messages, i);
    ReceiveGot(timer, Gathered(messages, i), inbox, outbox + Acknowledged(i), messages[i], rest);
    AcknowledgesOne(outbox, i);
  }

  lemma ReceiveEndsLater(messages: seq<seq<byte>>, raised: Option<Error>, i: nat, outbox: seq<seq<byte>>,
                         run: Run<ReceiveState>)
    requires AllParse(messages, i) && i < |messages| && Chains(messages, i)
    requires ReceiveEndsFrom(messages, raised, i + 1, outbox, run)
    ensures ReceiveEndsFrom(messages, raised, i, outbox, run)
  {
  }

  lemma {:induction false} ReceivesOn(timer: bool, inbox: seq<Event>, messages: seq<seq<byte>>, raised: Option<Error>,
                                      i: nat, outbox: seq<seq<byte>>, run: Run<ReceiveState>)
    requires ReceiveStands(timer, inbox, messages, raised, i, outbox, run)
    ensures ReceiveEndsFrom(messages, raised, i, outbox, run)
    decreases |inbox|
  {
    if i < |messages| && Chains(messages, i) {
      var rest := ReceivesToNext(timer, inbox, messages, raised, i, outbox, run);
      ReceivesOn(timer, rest, messages, raised, i + 1, outbox, run);
      ReceiveEndsLater(messages, raised, i, outbox, run);
    } else {
      ReceivesToEnd(timer, inbox, messages, raised, i, outbox, run);
    }
  }

  /** For every list of incoming messages: how `handle_chaining_receive_command` ends, and what it has sent by then. */
  lemma ReceiveEnds(timer: bool, bytes: seq<byte>, inbox: seq<Event>, outbox: seq<seq<byte>>)
    ensures var t := Transcribe(timer, inbox, 0x00);
            var (s, out) := ReceiveFirst(bytes);
            ReceiveEndsFrom([bytes] + t.heard, t.raised, 0, outbox, RunReceive(timer, s, inbox, Post(outbox, out)))
  {
    var t := Transcribe(timer, inbox, 0x00);
    var (s, out) := ReceiveFirst(bytes);
    var messages := [bytes] + t.heard;
    assert messages[0] == bytes && messages[1..] == t.heard && U16(0x9000) == [0x90, 0x00];
    if Chains(messages, 0) {
      assert [] + Parse(bytes).value.Payload() == Parse(bytes).value.Payload();
      assert Gathered(messages, 1) == Gathered(messages, 0) + Parse(messages[0]).value.Payload();
      AcknowledgesOne(outbox, 0);
      assert outbox + Acknowledged(0) == outbox;
      ReceivesOn(timer, inbox, messages, t.raised, 1, outbox, RunReceive(timer, s, inbox, Post(outbox, out)));
      ReceiveEndsLater(messages, t.raised, 0, outbox, RunReceive(timer, s, inbox, Post(outbox, out)));
    } else {
      ReceiveNoMore(timer, s, inbox, outbox);
      assert outbox + Acknowledged(0) == outbox;
    }
  }

  // ---------------------------------------------------------------- the device that answers

  /** What a message that is no GET RESPONSE is refused with. */
  function Objection(message: seq<byte>): Option<Error> {
    match Parse(message)
    case Err(e) => Some(e)
    case Ok(c) =>
      if message[1] != 0xC0 then Some(InvalidINSError)
      else if message[0] != 0x00 && message[0] != 0x10 then Some(InvalidCLAError)
      else if message[2] != 0x00 || message[3] != 0x00 then Some(InvalidParameterError)
      else if c.data.Some? then Some(InvalidCommandDataError)
      else None
  }

  /** No GET RESPONSE is waited for behind this fragment. */
  predicate Final(responses: seq<Response>, i: nat)
    requires i < |responses|
  {
    |responses| == 1 || responses[i].status == 0x9000
  }

  /** The next message is a GET RESPONSE, and there is another fragment. */
  predicate GoesOnSending(responses: seq<Response>, heard: seq<seq<byte>>, i: nat)
    requires i < |responses|
  {
    !Final(responses, i) && i < |heard| && Objection(heard[i]).None? && i + 1 < |responses|
  }

  /** The last fragment that is sent, given that fragment i is. */
  function LastSent(responses: seq<Response>, heard: seq<seq<byte>>, i: nat): (k: nat)
    requires i < |responses|
    ensures i <= k < |responses|
    decreases |responses| - i
  {
    if GoesOnSending(responses, heard, i) then LastSent(responses, heard, i + 1) else i
  }

  function Wires(responses: seq<Response>): (wires: seq<seq<byte>>)
    ensures |wires| == |responses| && forall i :: 0 <= i < |wires| ==> wires[i] == responses[i].wire
  {
    if responses == [] then [] else Wires(responses[..|responses| - 1]) + [responses[|responses| - 1].wire]
  }

  predicate SendEndsFrom(responses: seq<Response>, t: Transcript, i: nat, outbox: seq<seq<byte>>, run: Run<SendState>)
    requires i < |responses|
  {
    var k := LastSent(responses, t.heard, i);
    && run.outbox == outbox + Wires(responses[..k + 1])
    && run.state == if Final(responses, k) then SendDone
                    else if k < |t.heard| then
                      (match Objection(t.heard[k]) case Some(e) => SendFailed(e) case None => SendDone)
                    else if t.raised.Some? then SendFailed(t.raised.value)
                    else AwaitGet(k)
  }

  lemma SendGot(responses: seq<Response>, timer: bool, i: nat, inbox: seq<Event>, outbox: seq<seq<byte>>,
                payload: seq<byte>, rest: seq<Event>)
    requires Await(timer, inbox, 0x00) == (Got(payload), rest)
    ensures var (s', out) := SendOn(responses, i, payload);
            RunSend(responses, timer, AwaitGet(i), inbox, outbox)
            == RunSend(responses, timer, s', rest, Post(outbox, out))
  {
  }

  lemma SendNoMore(responses: seq<Response>, timer: bool, s: SendState, inbox: seq<Event>, outbox: seq<seq<byte>>)
    ensures var run := RunSend(responses, timer, s, inbox, outbox);
            if !s.AwaitGet? then run == Run(s, outbox, inbox)
            else
              match Await(timer, inbox, 0x00).0
              case Again => run.state == s && run.outbox == outbox
              case Raised(e) => run.state == SendFailed(e) && run.outbox == outbox
              case Got(_) => true
  {
  }

  lemma AnswersOne(responses: seq<Response>, i: nat, message: seq<byte>)
    requires i < |responses|
    ensures SendOn(responses, i, message)
         == match Objection(message)
            case Some(e) => (SendFailed(e), None)
            case None => Sent(responses, i + 1)
  {
  }

  lemma SendsOne(responses: seq<Response>, i: nat, outbox: seq<seq<byte>>)
    requires i + 1 < |responses|
    ensures outbox + Wires(responses[..i + 1]) + [responses[i + 1].wire] == outbox + Wires(responses[..i + 2])
  {
    assert responses[..i + 2][..i + 1] == responses[..i + 1];
  }

  /** Where the loop stands once fragment i has been sent. */
  function Behind(responses: seq<Response>, i: nat): SendState
    requires i < |responses|
  {
    if Final(responses, i) then SendDone else AwaitGet(i)
  }

  predicate SendStands(responses: seq<Response>, timer: bool, inbox: seq<Event>, t: Transcript, i: nat,
                       outbox: seq<seq<byte>>, run: Run<SendState>) {
    && i < |responses| && i <= |t.heard| && Transcribe(timer, inbox, 0x00) == Transcript(t.heard[i..], t.raised)
    && run == RunSend(responses, timer, Behind(responses, i), inbox, outbox + Wires(responses[..i + 1]))
  }

  lemma SendsToEnd(responses: seq<Response>, timer: bool, inbox: seq<Event>, t: Transcript, i: nat,
                   outbox: seq<seq<byte>>, run: Run<SendState>)
    requires SendStands(responses, timer, inbox, t, i, outbox, run) && !GoesOnSending(responses, t.heard, i)
    ensures SendEndsFrom(responses, t, i, outbox, run)
  {
    var (h, rest) := Await(timer, inbox, 0x00);
    var sent := outbox + Wires(responses[..i + 1]);
    AwaitTranscribes(timer, inbox, 0x00);
    SendNoMore(responses, timer, Behind(responses, i), inbox, sent);
    if !Final(responses, i) && h.Got? {
      assert t.heard[i..][0] == t.heard[i];
      SendGot(responses, timer, i, inbox, sent, h.payload, rest);
      AnswersOne(responses, i, h.payload);
      SendNoMore(responses, timer, SendOn(responses, i, h.payload).0, rest, sent);
    }
  }

  lemma SendsToNext(responses: seq<Response>, timer: bool, inbox: seq<Event>, t: Transcript, i: nat,
                    outbox: seq<seq<byte>>, run: Run<SendState>) returns (rest: seq<Event>)
    requires SendStands(responses, timer, inbox, t, i, outbox, run) && GoesOnSending(responses, t.heard, i)
    ensures SendStands(responses, timer, rest, t, i + 1, outbox, run)
  {
    var (h, next) := Await(timer, inbox, 0x00);
    rest := next;
    AwaitTranscribes(timer, inbox, 0x00);
    assert t.heard[i..][0] == t.heard[i] && t.heard[i..][1..] == t.heard[i + 1..];
    SendGot(responses, timer, i, inbox, outbox + Wires(responses[..i + 1]), t.heard[i], rest);
    AnswersOne(responses, i, t.heard[i]);
    SendsOne(responses, i, outbox);
  }

  lemma SendEndsLater(responses: seq<Response>, t: Transcript, i: nat, outbox: seq<seq<byte>>, run: Run<SendState>)
    requires i + 1 < |responses| && GoesOnSending(responses, t.heard, i)
    requires SendEndsFrom(responses, t, i + 1, outbox, run)
    ensures SendEndsFrom(responses, t, i, outbox, run)
  {
  }

  lemma {:induction false} SendsOn(responses: seq<Response>, timer: bool, inbox: seq<Event>, t: Transcript, i: nat,
                                   outbox: seq<seq<byte>>, run: Run<SendState>)
    requires SendStands(responses, timer, inbox, t, i, outbox, run)
    ensures SendEndsFrom(responses, t, i, outbox, run)
    decreases |responses| - i
  {
    if GoesOnSending(responses, t.heard, i) {
      var rest := SendsToNext(responses, timer, inbox, t, i, outbox, run);
      SendsOn(responses, timer, rest, t, i + 1, outbox, run);
      SendEndsLater(responses, t, i, outbox, run);
    } else {
      SendsToEnd(responses, timer, inbox, t, i, outbox, run);
    }
  }

  /** For every list of incoming messages: how `handle_chaining_send_response` ends, and what it has sent by then. */
  lemma SendEnds(responses: seq<Response>, timer: bool, inbox: seq<Event>, outbox: seq<seq<byte>>)
    ensures var t := Transcribe(timer, inbox, 0x00);
            var (s, out) := Sent(responses, 0);
            var run := RunSend(responses, timer, s, inbox, Post(outbox, out));
            if responses == [] then run == Run(SendDone, outbox, inbox)
            else SendEndsFrom(responses, t, 0, outbox, run)
  {
    if responses != [] {
      var t := Transcribe(timer, inbox, 0x00);
      assert t.heard[0..] == t.heard && Wires(responses[..1]) == [responses[0].wire];
      var (s, out) := Sent(responses, 0);
      SendsOn(responses, timer, inbox, t, 0, outbox, RunSend(responses, timer, s, inbox, Post(outbox, out)));
    }
  }
}
