/** One EXCHANGE at its two ends: what the device makes of the requests, and what the reader makes of the answer. */
module ExchangeEndToEnd {
  import opened Basics
  import opened Encryption
  import opened MailboxStore
  import opened MailboxExchange
  import opened UserMachine
  import opened UserEngines
  import opened ExchangeCodec
  import RF = ReaderFailure

  // ---------------------------------------------------------------- requests

  predicate ReadsWithin(wanted: seq<(nat, nat)>, size: nat) {
    forall i :: 0 <= i < |wanted| ==> wanted[i].0 + wanted[i].1 <= size
  }

  predicate WritesWithin(writes: seq<(nat, seq<byte>)>, size: nat) {
    forall i :: 0 <= i < |writes| ==> writes[i].0 + |writes[i].1| <= size
  }

  predicate SetsWithin(sets: seq<(nat, nat, nat)>, size: nat) {
    forall i :: 0 <= i < |sets| ==> sets[i].0 + sets[i].1 <= size
  }

  /** Every request lies inside the mailbox. */
  predicate InRange(w: Wanted, size: nat) {
    ReadsWithin(w.readRequests, size) && WritesWithin(w.writeRequests, size) && SetsWithin(w.setRequests, size)
  }

  lemma ReadValue(offset: nat, length: nat)
    requires offset < 0x1_0000 && length < 0x1_0000
    ensures var s := U16(offset) + U16(length);
            BigEndian(Slice(s, 0, 2)) == offset && BigEndian(Slice(s, 2, 4)) == length
  {
    var s := U16(offset) + U16(length);
    assert s[0..2] == U16(offset) && s[2..4] == U16(length);
    BigEndianU16(offset);
    BigEndianU16(length);
  }

  lemma SetValue(offset: nat, length: nat, value: byte)
    requires offset < 0x1_0000 && length < 0x1_0000
    ensures var op := SetOp(U16(offset) + U16(length) + [value]);
            op.Offset() == offset && op.Length() == length && op.bytes[4] == value && op.Valid()
  {
    var s := U16(offset) + U16(length) + [value];
    assert s[0..2] == U16(offset) && s[2..4] == U16(length);
    BigEndianU16(offset);
    BigEndianU16(length);
  }

  lemma WriteValue(offset: nat, data: seq<byte>)
    requires offset < 0x1_0000
    ensures var op := WriteOp(U16(offset) + data);
            op.Offset() == offset && op.Length() == |data| && op.bytes[2..] == data
  {
    var s := U16(offset) + data;
    assert s[0..2] == U16(offset);
    BigEndianU16(offset);
  }

  lemma ReadsInRange(box: Box, w: Wanted)
    requires w.Encodable()
    ensures ReadsFit(box, Values(ReadObjs(w.readRequests))) <==> ReadsWithin(w.readRequests, |box.data|)
  {
    var requests := Values(ReadObjs(w.readRequests));
    forall i | 0 <= i < |requests|
      ensures box.CheckBoundaries(BigEndian(Slice(requests[i], 0, 2)), BigEndian(Slice(requests[i], 2, 4)))
         <==> w.readRequests[i].0 + w.readRequests[i].1 <= |box.data|
    {
      ReadValue(w.readRequests[i].0, w.readRequests[i].1);
    }
  }

  lemma SetFits(w: Wanted, i: nat)
    requires w.Encodable() && i < |w.setRequests|
    ensures var op := SetOps(Values(SetObjs(w.setRequests)))[i];
            op.Offset() == w.setRequests[i].0 && op.Length() == w.setRequests[i].1
  {
    SetValue(w.setRequests[i].0, w.setRequests[i].1, w.setRequests[i].2);
  }

  /** The commands of a log have these offsets and lengths. */
  predicate HaveWindows(ops: seq<Op>, windows: seq<(nat, nat, nat)>) {
    |ops| == |windows|
    && forall i :: 0 <= i < |ops| ==> ops[i].Offset() == windows[i].0 && ops[i].Length() == windows[i].1
  }

  lemma SetsHaveWindows(w: Wanted)
    requires w.Encodable()
    ensures HaveWindows(SetOps(Values(SetObjs(w.setRequests))), w.setRequests)
  {
    var ops := SetOps(Values(SetObjs(w.setRequests)));
    forall i | 0 <= i < |ops|
      ensures ops[i].Offset() == w.setRequests[i].0 && ops[i].Length() == w.setRequests[i].1
    {
      SetFits(w, i);
    }
  }

  lemma WindowsFit(box: Box, ops: seq<Op>, windows: seq<(nat, nat, nat)>)
    requires HaveWindows(ops, windows)
    ensures LogFits(box, ops) <==> SetsWithin(windows, |box.data|)
  {
  }

  lemma SetsInRange(box: Box, w: Wanted)
    requires w.Encodable()
    ensures LogFits(box, SetOps(Values(SetObjs(w.setRequests)))) <==> SetsWithin(w.setRequests, |box.data|)
  {
    SetsHaveWindows(w);
    WindowsFit(box, SetOps(Values(SetObjs(w.setRequests))), w.setRequests);
  }

  lemma WritesInRange(box: Box, w: Wanted)
    requires w.Encodable()
    ensures LogFits(box, WriteOps(Values(WriteObjs(w.writeRequests)))) <==> WritesWithin(w.writeRequests, |box.data|)
  {
    var ops := WriteOps(Values(WriteObjs(w.writeRequests)));
    forall i | 0 <= i < |ops|
      ensures ops[i].Offset() == w.writeRequests[i].0 && ops[i].Length() == |w.writeRequests[i].1|
    {
      WriteValue(w.writeRequests[i].0, w.writeRequests[i].1);
    }
  }

  /** All requests in terms of their bytes, and in terms of offsets and lengths. */
  lemma FitsIffInRange(box: Box, w: Wanted, atomic: bool)
    requires w.Encodable()
    ensures var r := RequestsOf(w, atomic);
            ReadsFit(box, r.readRequests) && LogFits(box, r.Log()) <==> InRange(w, |box.data|)
  {
    ReadsInRange(box, w);
    SetsInRange(box, w);
    WritesInRange(box, w);
    LogFitsBoth(box, RequestsOf(w, atomic));
  }

  lemma RequestsAreParsed(w: Wanted)
    requires w.Encodable()
    ensures RequestsOf(w, false).Parsed()
  {
  }

  predicate Permitted(box: Box, w: Wanted) {
    && (w.readRequests != [] ==> box.readPermission)
    && (w.writeRequests != [] || w.setRequests != [] ==> box.writePermission)
  }

  /**
   * Which calls the device accepts: those without a request, and those whose requests are all permitted and in range.
   * A missing mailbox and a request out of range are answered with the error payload, a missing permission is not.
   */
  lemma AcceptedIff(mailbox: Option<Box>, w: Wanted, atomic: bool)
    requires w.Encodable()
    ensures Check(mailbox, RequestsOf(w, atomic))
         == if w.Empty() then Accepted
            else if mailbox.None? then Refused(true)
            else if !Permitted(mailbox.value, w) then Refused(false)
            else if InRange(w, |mailbox.value.data|) then Accepted
            else Refused(true)
  {
    if mailbox.Some? {
      FitsIffInRange(mailbox.value, w, atomic);
    }
  }

  /** Requests in range pass the checks of the device. */
  lemma InRangeIsAccepted(box: Box, w: Wanted)
    requires w.Encodable() && InRange(w, |box.data|) && Permitted(box, w)
    ensures Check(Some(box), RequestsOf(w, false)).Accepted?
  {
    AcceptedIff(Some(box), w, false);
  }

  /** The requested slices of the mailbox. */
  function Slices(data: seq<byte>, wanted: seq<(nat, nat)>): (parts: seq<seq<byte>>)
    requires forall i :: 0 <= i < |wanted| ==> wanted[i].0 + wanted[i].1 <= |data|
    ensures |parts| == |wanted|
    ensures forall i :: 0 <= i < |parts| ==> parts[i] == data[wanted[i].0..wanted[i].0 + wanted[i].1]
  {
    seq(|wanted|, i requires 0 <= i < |wanted| => data[wanted[i].0..wanted[i].0 + wanted[i].1])
  }

  lemma ReadIsSlice(box: Box, offset: nat, length: nat)
    requires offset < 0x1_0000 && length < 0x1_0000 && offset + length <= |box.data|
    ensures ReadOne(box, U16(offset) + U16(length)) == box.data[offset..offset + length]
  {
    ReadValue(offset, length);
  }

  lemma ReadsAreSlices(box: Box, w: Wanted)
    requires w.Encodable() && InRange(w, |box.data|)
    ensures ReadAll(box, RequestsOf(w, false).readRequests) == Slices(box.data, w.readRequests)
  {
    var requests, slices := Values(ReadObjs(w.readRequests)), Slices(box.data, w.readRequests);
    forall i | 0 <= i < |requests| ensures ReadOne(box, requests[i]) == slices[i] {
      ReadIsSliceAt(box, w, i);
    }
    ReadAllIs(box, requests, slices);
  }

  lemma ReadIsSliceAt(box: Box, w: Wanted, i: nat)
    requires w.Encodable() && InRange(w, |box.data|) && i < |w.readRequests|
    ensures ReadOne(box, Values(ReadObjs(w.readRequests))[i]) == Slices(box.data, w.readRequests)[i]
  {
    ReadIsSlice(box, w.readRequests[i].0, w.readRequests[i].1);
  }

  lemma ReadAllIs(box: Box, requests: seq<seq<byte>>, parts: seq<seq<byte>>)
    requires |requests| == |parts| && forall i :: 0 <= i < |requests| ==> ReadOne(box, requests[i]) == parts[i]
    ensures ReadAll(box, requests) == parts
  {
  }

  // ---------------------------------------------------------------- the answer payload

  predicate Short(parts: seq<seq<byte>>) {
    forall i :: 0 <= i < |parts| ==> |parts[i]| < 0x1_0000
  }

  /** Framing from the front, which is how it is taken apart. */
  function FramedFrom(parts: seq<seq<byte>>, k: nat): seq<byte>
    requires k <= |parts| && Short(parts)
    decreases |parts| - k
  {
    if k == |parts| then [] else Block(parts[k]) + FramedFrom(parts, k + 1)
  }

  function Block(part: seq<byte>): seq<byte>
    requires |part| < 0x1_0000
  {
    U16(|part|) + part
  }

  lemma FramedStep(parts: seq<seq<byte>>, k: nat)
    requires k < |parts| && Short(parts)
    ensures Framed(parts[..k + 1]) == Framed(parts[..k]) + Block(parts[k])
  {
    assert parts[..k + 1][..k] == parts[..k] && parts[..k + 1][k] == parts[k];
    assert |parts[k]| % 0x1_0000 == |parts[k]|;
  }

  lemma Associative(a: seq<byte>, b: seq<byte>, c: seq<byte>)
    ensures a + b + c == a + (b + c)
  {
  }

  lemma {:induction false} FramedSplits(parts: seq<seq<byte>>, k: nat)
    requires k <= |parts| && Short(parts)
    ensures Framed(parts) == Framed(parts[..k]) + FramedFrom(parts, k)
    decreases |parts| - k
  {
    if k == |parts| {
      assert parts[..k] == parts;
    } else {
      FramedSplits(parts, k + 1);
      FramedStep(parts, k);
      Associative(Framed(parts[..k]), Block(parts[k]), FramedFrom(parts, k + 1));
    }
  }

  lemma BlockParts(part: seq<byte>, rest: seq<byte>)
    requires |part| < 0x1_0000
    ensures var n, suffix := |part|, Block(part) + rest;
            && |suffix| >= 2 + n && suffix[0..2] == U16(n) && suffix[2..2 + n] == part && suffix[2 + n..] == rest
            && BigEndian(suffix[0..2]) == n
  {
    BigEndianU16(|part|);
  }

  lemma UnframesOne(data: seq<byte>, i: nat, part: seq<byte>, rest: seq<byte>)
    requires |part| < 0x1_0000 && i <= |data| && data[i..] == Block(part) + rest
    ensures i < |data| && RF.PartAt(data, i) == part
    ensures RF.NextAt(data, i) <= |data| && data[RF.NextAt(data, i)..] == rest
  {
    BlockParts(part, rest);
    InSuffix(data, i, 0, 2);
    InSuffix(data, i, 2, 2 + |part|);
  }

  lemma InSuffix(data: seq<byte>, i: nat, lo: nat, hi: nat)
    requires lo <= hi && i + hi <= |data|
    ensures data[i + lo..i + hi] == data[i..][lo..hi] && data[i + hi..] == data[i..][hi..]
  {
  }

  lemma {:induction false} UnframesFrom(data: seq<byte>, i: nat, parts: seq<seq<byte>>, k: nat)
    requires k <= |parts| && Short(parts) && i <= |data| && data[i..] == FramedFrom(parts, k)
    ensures RF.Unframed(data, i) == parts[k..]
    decreases |parts| - k
  {
    if k < |parts| {
      UnframesOne(data, i, parts[k], FramedFrom(parts, k + 1));
      UnframesFrom(data, RF.NextAt(data, i), parts, k + 1);
      UnframedCons(data, i, parts, k);
    }
  }

  lemma UnframedCons(data: seq<byte>, i: nat, parts: seq<seq<byte>>, k: nat)
    requires i < |data| && k < |parts| && RF.PartAt(data, i) == parts[k]
    requires RF.Unframed(data, RF.NextAt(data, i)) == parts[k + 1..]
    ensures RF.Unframed(data, i) == parts[k..]
  {
    assert parts[k..] == [parts[k]] + parts[k + 1..];
  }

  /** The reader recovers the parts of a successful answer. */
  lemma AnswerRoundTrip(parts: seq<seq<byte>>)
    requires Short(parts)
    ensures var payload := Framed(parts) + EXCHANGE_SUCCESS;
            && RF.StatusCode(payload) == RF.EXCHANGE_OK
            && RF.ReadData(Some(|parts|), RF.DataPart(payload)) == Ok(parts)
  {
    var framed := Framed(parts);
    assert RF.StatusCode(framed + EXCHANGE_SUCCESS) == EXCHANGE_SUCCESS
           && RF.DataPart(framed + EXCHANGE_SUCCESS) == framed;
    PartsDecide(parts, Some(|parts|));
  }

  lemma FramedIsFramedFrom(parts: seq<seq<byte>>)
    requires Short(parts)
    ensures Framed(parts) == FramedFrom(parts, 0)
  {
    FramedSplits(parts, 0);
    assert parts[..0] == [] && Framed([]) == [];
    assert [] + FramedFrom(parts, 0) == FramedFrom(parts, 0);
  }

  /** What the reader makes of any number of framed parts, with any number of requests or with no list of them. */
  lemma PartsDecide(parts: seq<seq<byte>>, requested: Option<nat>)
    requires Short(parts)
    ensures RF.ReadData(requested, Framed(parts))
         == if parts == [] then (if requested.Some? && requested.value > 0 then Err(AccessProtocolError) else Ok([]))
            else if requested.None? then Err(TypeError)
            else if requested.value == |parts| then Ok(parts)
            else Err(AccessProtocolError)
  {
    FramedIsFramedFrom(parts);
    assert Framed(parts)[0..] == Framed(parts) && parts[0..] == parts;
    UnframesFrom(Framed(parts), 0, parts, 0);
    if parts != [] {
      assert |Framed(parts)| >= 2;
    }
  }

  // ---------------------------------------------------------------- the device

  lemma WaitParses(env: Env, d: Device, command: Command, s: UserSession, plain: seq<byte>, content: Content)
    requires d.session.Some? && command.Exchange? && env.parse(plain) == Ok(content)
    requires Decrypted(env, d.session.value, DecryptionChoice(d.session.value.state, true), command.packet)
             == (s, Ok(Some(plain)))
    ensures WaitForCommand(env, d, command, None)
            == (d.(session := Some(s)), Ok(UserMachine.Parsed(command, Some(content))))
  {
  }

  /** Requests that are accepted and then performed without an error, and nothing else. */
  predicate Passes(box: Box, log: Session, content: Content) {
    && Plain(content) && Check(Some(box), content.requests).Accepted?
    && Perform(Store(box, log), content.requests).1.None?
  }

  /**
   * The whole round of the device, for a genuine command: what its handler leaves behind, and the loop behind it, which
   * depends on whether sending the answer raised something.
   */
  lemma DeviceServes(env: Env, d: Device, reader: Engine, plain: seq<byte>, packet: Sealed, content: Content,
                     sending: Option<Error>) returns (served: Device)
    requires env.aead.Correct() && MayExchange(d) && d.mailbox.Some? && env.parse(plain) == Ok(content)
    requires var e := EngineOf(d.session.value, AnswerChoice(d.session.value.state)).value;
             InStep(reader, e) && e.(dec := e.dec + 1).CountersValid()
    requires Ok(packet) == reader.Encrypt(env.aead, plain, []).1 && !d.log.started
    requires Passes(d.mailbox.value, d.log, content)
    ensures Served(env, d.(session := Some(AfterDecryption(d.session.value))), served,
                   AnswerChoice(d.session.value.state),
                   content.requests)
    ensures UserMachine.Step(env, d, Received(Exchange(packet), None, sending))
            == AfterCommand(served, Exchange(packet), sending)
  {
    var command, d1 := Exchange(packet), d.(session := Some(AfterDecryption(d.session.value)));
    EnginesAgree(d.session.value.state);
    GenuineParsed(env, d, reader, plain, command, content);
    ExchangeServes(env, d1, content, sending);
    served := HandleExchange(env, d1, Some(content), sending).0;
    StepIs(env, d, command, d1, content, served, sending, sending);
  }

  /** The session with the command decrypted. */
  function AfterDecryption(s: UserSession): (r: UserSession)
    requires EngineOf(s, AnswerChoice(s.state)).Some?
  {
    var e := EngineOf(s, AnswerChoice(s.state)).value;
    WithEngine(s, AnswerChoice(s.state), e.(dec := e.dec + 1))
  }

  lemma GenuineParsed(env: Env, d: Device, reader: Engine, plain: seq<byte>, command: Command, content: Content)
    requires env.aead.Correct() && d.session.Some? && command.Exchange? && env.parse(plain) == Ok(content)
    requires var s := d.session.value;
             && DecryptionChoice(s.state, true) == AnswerChoice(s.state) && EngineOf(s, AnswerChoice(s.state)).Some?
             && InStep(reader, EngineOf(s, AnswerChoice(s.state)).value)
    requires reader.enc < COUNTER_END && Ok(command.packet) == reader.Encrypt(env.aead, plain, []).1
    ensures WaitForCommand(env, d, command, None)
         == (d.(session := Some(AfterDecryption(d.session.value))), Ok(UserMachine.Parsed(command, Some(content))))
  {
    var s := d.session.value;
    DecryptsGenuine(env, s, AnswerChoice(s.state), reader, plain, command.packet);
    WaitParses(env, d, command, AfterDecryption(s), plain, content);
  }

  lemma DecryptsGenuine(env: Env, s: UserSession, choice: Choice, reader: Engine, plain: seq<byte>, packet: Sealed)
    requires env.aead.Correct() && EngineOf(s, choice).Some?
    requires InStep(reader, EngineOf(s, choice).value) && reader.enc < COUNTER_END
    requires Ok(packet) == reader.Encrypt(env.aead, plain, []).1
    ensures var e := EngineOf(s, choice).value;
            Decrypted(env, s, choice, packet) == (WithEngine(s, choice, e.(dec := e.dec + 1)), Ok(Some(plain)))
  {
    env.aead.OpensWhatWasSealed(reader.encryptionKey, reader.EncryptionIv(), [], plain);
  }

  lemma StepIs(env: Env, d: Device, command: Command, d1: Device, content: Content, d2: Device, sending: Option<Error>,
               error: Option<Error>)
    requires Live(d) && command.Exchange? && d1.session.Some?
    requires WaitForCommand(env, d, command, None) == (d1, Ok(UserMachine.Parsed(command, Some(content))))
    requires HandleExchange(env, d1, Some(content), sending) == (d2, error)
    ensures UserMachine.Step(env, d, Received(command, None, sending)) == AfterCommand(d2, command, error)
  {
    var p := UserMachine.Parsed(command, Some(content));
    assert LoopCommand(env, d, command, None, sending) == LoopParsed(env, d1, command, p, sending);
  }

  // ---------------------------------------------------------------- refused requests

  /** A refusal is answered unless a permission is missing. */
  predicate Answers(mailbox: Option<Box>, w: Wanted) {
    mailbox.None? || Permitted(mailbox.value, w)
  }

  /** What a refused exchange leaves: the store as it was, and the error payload sealed if it is answered at all. */
  predicate RefusedBy(env: Env, d: Device, w: Wanted, d': Device)
    requires d.session.Some? && EngineOf(d.session.value, AnswerChoice(d.session.value.state)).Some?
  {
    var e := EngineOf(d.session.value, AnswerChoice(d.session.value.state)).value;
    && d'.mailbox == d.mailbox && d'.log == d.log && d'.phase == d.phase && d'.config == d.config
    && (if Answers(d.mailbox, w) then
          d'.answer.Some? && Ok(d'.answer.value) == e.Encrypt(env.aead, [0x00, 0x02, 0xFF, 0xFF], []).1
        else d'.answer == d.answer)
  }

  lemma ExchangeRefuses(env: Env, d: Device, w: Wanted, atomic: bool, sending: Option<Error>)
    requires d.session.Some? && ExchangeAllowed(d.session.value.state) && w.Encodable() && !w.Empty()
    requires EngineOf(d.session.value, AnswerChoice(d.session.value.state)).Some?
    requires EngineOf(d.session.value, AnswerChoice(d.session.value.state)).value.CountersValid()
    requires d.mailbox.None? || !InRange(w, |d.mailbox.value.data|) || !Permitted(d.mailbox.value, w)
    ensures var content := Content(RequestsOf(w, atomic), None, false, []);
            var (d', error) := HandleExchange(env, d, Some(content), sending);
            RefusedBy(env, d, w, d') && error.Some?
  {
    var content := Content(RequestsOf(w, atomic), None, false, []);
    var choice, d1 := AnswerChoice(d.session.value.state), Entered(d);
    assert EngineOf(d1.session.value, choice) == EngineOf(d.session.value, choice);
    AcceptedIff(d.mailbox, w, atomic);
    assert Prepare(d1, content) == (d1, None);
    assert HandleExchange(env, d, Some(content), sending) == Serve(env, d1, choice, content, sending);
    AnswerSeals(env, d1, choice, EXCHANGE_ERROR, sending);
  }

  /**
   * A genuine EXCHANGE with any request out of range, not permitted, or without a mailbox: no byte and no log entry
   * changes, the session is over, and what is sealed for the reader is the error payload or nothing.
   */
  lemma DeviceRefuses(env: Env, d: Device, reader: Engine, w: Wanted, atomic: bool, plain: seq<byte>, packet: Sealed,
                      sending: Option<Error>)
    requires env.aead.Correct() && MayExchange(d) && w.Encodable() && !w.Empty()
    requires d.mailbox.None? || !InRange(w, |d.mailbox.value.data|) || !Permitted(d.mailbox.value, w)
    requires var e := EngineOf(d.session.value, AnswerChoice(d.session.value.state)).value;
             InStep(reader, e) && e.(dec := e.dec + 1).CountersValid()
    requires env.parse(plain) == Ok(Content(RequestsOf(w, atomic), None, false, []))
    requires Ok(packet) == reader.Encrypt(env.aead, plain, []).1
    ensures var d' := UserMachine.Step(env, d, Received(Exchange(packet), None, sending));
            var e := EngineOf(d.session.value, AnswerChoice(d.session.value.state)).value;
            && d'.mailbox == d.mailbox && d'.log == d.log && NoEngines(d')
            && (if Answers(d.mailbox, w) then
                  && d'.answer.Some?
                  && Ok(d'.answer.value)
                     == e.(dec := e.dec + 1).Encrypt(env.aead, [0x00, 0x02, 0xFF, 0xFF], []).1
                else d'.answer == d.answer)
  {
    var command, d1 := Exchange(packet), d.(session := Some(AfterDecryption(d.session.value)));
    var content := Content(RequestsOf(w, atomic), None, false, []);
    EnginesAgree(d.session.value.state);
    GenuineParsed(env, d, reader, plain, command, content);
    ExchangeRefuses(env, d1, w, atomic, sending);
    var (d2, error) := HandleExchange(env, d1, Some(content), sending);
    StepIs(env, d, command, d1, content, d2, sending, error);
    RefusedEnds(env, d1, w, d2, command, error);
  }

  lemma RefusedEnds(env: Env, d: Device, w: Wanted, d2: Device, command: Command, error: Option<Error>)
    requires d.session.Some? && EngineOf(d.session.value, AnswerChoice(d.session.value.state)).Some?
    requires d.phase.Looping? && RefusedBy(env, d, w, d2) && error.Some?
    ensures var d' := AfterCommand(d2, command, error);
            && d'.mailbox == d.mailbox && d'.log == d.log && NoEngines(d') && d'.answer == d2.answer
  {
    AfterCommandEngines(d2, command, error);
    AfterCommandStore(d2, command, error);
  }

  lemma AfterCommandStore(d: Device, command: Command, error: Option<Error>)
    ensures AfterCommand(d, command, error).mailbox == d.mailbox && AfterCommand(d, command, error).log == d.log
  {
  }

  // ---------------------------------------------------------------- what both sides are left with

  /** A non-atomic exchange on a store without an open session applies its own log. */
  lemma PerformsAll(box: Box, log: Session, r: Requests)
    requires r.Parsed() && Check(Some(box), r).Accepted? && log == Session([], false)
    requires r.atomic == Some(false) || (r.atomic.None? && r.Log() == [])
    ensures var (store, error) := Perform(Store(box, log), r);
            && error.None? && store.session == log
            && AllInRange(r.Log(), |box.data|) && LastWins(box.data, r.Log(), store.box.data)
  {
    AcceptedLogFits(box, r);
    ApplicableLaw(box, r.Log());
    assert [] + r.Log() == r.Log();
  }

  function ContentOf(w: Wanted): Content
    requires w.Encodable()
  {
    Content(if w.Empty() then Requests(None, [], [], []) else RequestsOf(w, false), None, false, [])
  }

  lemma ContentServes(box: Box, w: Wanted)
    requires w.Encodable() && InRange(w, |box.data|) && Permitted(box, w)
    ensures var r := ContentOf(w).requests;
            && r.Parsed() && Check(Some(box), r).Accepted? && r.Log() == RequestsOf(w, false).Log()
            && ReadAll(box, r.readRequests) == Slices(box.data, w.readRequests)
            && (r.atomic == Some(false) || (r.atomic.None? && r.Log() == []))
  {
    RequestsAreParsed(w);
    InRangeIsAccepted(box, w);
    ReadsAreSlices(box, w);
  }

  /** The mailbox is the old one with all sets and then all writes applied, the last one covering a byte winning. */
  predicate Written(box: Box, w: Wanted, after: Option<Box>)
    requires w.Encodable()
  {
    var log := RequestsOf(w, false).Log();
    after.Some? && AllInRange(log, |box.data|) && LastWins(box.data, log, after.value.data)
  }

  /** The plaintext of the answer to requests in range. */
  function Reply(data: seq<byte>, w: Wanted): seq<byte>
    requires InRange(w, |data|)
  {
    Framed(Slices(data, w.readRequests)) + EXCHANGE_SUCCESS
  }

  /** The requests were performed, and the answer was sealed by the engine `e`, which has decrypted the command. */
  predicate Performed(aead: Aead, d: Device, e: Engine, w: Wanted, served: Device)
    requires d.session.Some? && d.mailbox.Some? && w.Encodable() && InRange(w, |d.mailbox.value.data|)
  {
    && Written(d.mailbox.value, w, served.mailbox) && served.log == d.log && served.phase == d.phase
    && served.config == d.config && served.session.Some?
    && EngineOf(served.session.value, AnswerChoice(d.session.value.state)) == Some(e.(enc := e.enc + 1))
    && served.answer.Some? && Ok(served.answer.value) == e.Encrypt(aead, Reply(d.mailbox.value.data, w), []).1
  }

  /**
   * For requests in range on a permitted mailbox without an open atomic session, the device applies all sets and then
   * all writes and seals the requested slices of the mailbox as it was, whatever becomes of the answer.
   */
  lemma DevicePerforms(env: Env, d: Device, reader: Engine, w: Wanted, plain: seq<byte>, packet: Sealed,
                       sending: Option<Error>) returns (served: Device)
    requires env.aead.Correct() && MayExchange(d) && d.mailbox.Some? && d.log == Session([], false)
    requires w.Encodable() && InRange(w, |d.mailbox.value.data|) && Permitted(d.mailbox.value, w)
    requires var e := EngineOf(d.session.value, AnswerChoice(d.session.value.state)).value;
             InStep(reader, e) && e.(dec := e.dec + 1).CountersValid()
    requires env.parse(plain) == Ok(ContentOf(w)) && Ok(packet) == reader.Encrypt(env.aead, plain, []).1
    ensures var e := EngineOf(d.session.value, AnswerChoice(d.session.value.state)).value;
            Performed(env.aead, d, e.(dec := e.dec + 1), w, served)
    ensures UserMachine.Step(env, d, Received(Exchange(packet), None, sending))
            == AfterCommand(served, Exchange(packet), sending)
  {
    ContentPasses(d.mailbox.value, d.log, w);
    served := DeviceServes(env, d, reader, plain, packet, ContentOf(w), sending);
    ContentMeans(d.mailbox.value, d.log, w);
    ServedPerforms(env, d, w, ContentOf(w).requests, served);
  }

  /** What the requests are answered with, and what performing them makes of the mailbox. */
  predicate Means(box: Box, log: Session, w: Wanted, r: Requests)
    requires w.Encodable() && InRange(w, |box.data|)
  {
    var store := Perform(Store(box, log), r).0;
    AnswerPayload(box, r) == Reply(box.data, w) && Written(box, w, Some(store.box)) && store.session == log
  }

  lemma ContentMeans(box: Box, log: Session, w: Wanted)
    requires w.Encodable() && log == Session([], false) && InRange(w, |box.data|) && Permitted(box, w)
    ensures Means(box, log, w, ContentOf(w).requests)
  {
    AnswerIs(box, w);
    WrittenServed(box, log, w);
  }

  /** The requests are accepted, and performing them cannot fail. */
  lemma ContentPasses(box: Box, log: Session, w: Wanted)
    requires w.Encodable() && log == Session([], false) && InRange(w, |box.data|) && Permitted(box, w)
    ensures Passes(box, log, ContentOf(w))
  {
    ContentServes(box, w);
    PerformsAll(box, log, ContentOf(w).requests);
  }

  lemma ServedPerforms(env: Env, d: Device, w: Wanted, r: Requests, served: Device)
    requires d.session.Some? && d.mailbox.Some? && w.Encodable() && InRange(w, |d.mailbox.value.data|)
    requires EngineOf(d.session.value, AnswerChoice(d.session.value.state)).Some?
    requires Served(env, d.(session := Some(AfterDecryption(d.session.value))), served,
                    AnswerChoice(d.session.value.state), r)
    requires Means(d.mailbox.value, d.log, w, r)
    ensures var e := EngineOf(d.session.value, AnswerChoice(d.session.value.state)).value;
            Performed(env.aead, d, e.(dec := e.dec + 1), w, served)
  {
    var choice := AnswerChoice(d.session.value.state);
    ServedFacts(env, d, served, choice, EngineOf(d.session.value, choice).value, r);
  }

  lemma ServedFacts(env: Env, d: Device, d': Device, choice: Choice, e: Engine, r: Requests)
    requires d.session.Some? && d.mailbox.Some? && choice == AnswerChoice(d.session.value.state)
    requires EngineOf(d.session.value, choice) == Some(e)
    requires Served(env, d.(session := Some(AfterDecryption(d.session.value))), d', choice, r)
    ensures d'.session.Some? && EngineOf(d'.session.value, choice) == Some(e.(enc := e.enc + 1, dec := e.dec + 1))
    ensures d'.answer.Some?
    ensures Ok(d'.answer.value) == e.(dec := e.dec + 1).Encrypt(env.aead, AnswerPayload(d.mailbox.value, r), []).1
    ensures d'.mailbox == Some(Perform(Store(d.mailbox.value, d.log), r).0.box)
    ensures d'.log == Perform(Store(d.mailbox.value, d.log), r).0.session && d'.phase == d.phase
            && d'.config == d.config
  {
  }

  lemma ReadsServed(box: Box, w: Wanted)
    requires w.Encodable() && InRange(w, |box.data|)
    ensures ReadAll(box, ContentOf(w).requests.readRequests) == Slices(box.data, w.readRequests)
  {
    if !w.Empty() {
      ReadsAreSlices(box, w);
    }
  }

  lemma SlicesAreShort(data: seq<byte>, w: Wanted)
    requires w.Encodable() && InRange(w, |data|)
    ensures Short(Slices(data, w.readRequests))
  {
  }

  lemma AnswerIs(box: Box, w: Wanted)
    requires w.Encodable() && InRange(w, |box.data|)
    ensures AnswerPayload(box, ContentOf(w).requests) == Reply(box.data, w) && Short(Slices(box.data, w.readRequests))
  {
    ReadsServed(box, w);
    SlicesAreShort(box.data, w);
  }

  lemma WrittenServed(box: Box, log: Session, w: Wanted)
    requires w.Encodable() && InRange(w, |box.data|) && Permitted(box, w) && log == Session([], false)
    ensures var store := Perform(Store(box, log), ContentOf(w).requests).0;
            Written(box, w, Some(store.box)) && store.session == log
  {
    ContentServes(box, w);
    PerformsAll(box, log, ContentOf(w).requests);
  }
}
