/** Two runs that reach SELECT_STEP_UP_DONE, and what an EXCHANGE does there. */
module UserStepUp {
  import opened Basics
  import opened Encryption
  import opened Fragmentation
  import opened MailboxStore
  import opened MailboxExchange
  import opened UserMachine
  import opened UserEngines
  import opened ExchangeCodec

  /** A device in its main loop on NFC that has the fast path. */
  const CONFIG: Config := Config(Nfc, false, MainLoop, true, [0x0100], true, false)

  const READER: SubId := [0x2A]

  /** Four keys: expedited and step-up, each for what reader and device send. */
  datatype Keys = Keys(skReader: Key, skDevice: Key, stepReader: Key, stepDevice: Key)

  function Get(aid: Aid): Input {
    Received(Select(aid, true), None, None)
  }

  /** AUTH0 of a known reader, standard or fast. */
  function Auth0Of(parameters: nat, keys: Keys): Input {
    Received(Auth0(Auth0Data(0x0100, true, true, parameters, READER, true, keys.skReader, keys.skDevice)), None, None)
  }

  /** AUTH1 whose signature verifies. */
  function Auth1Of(keys: Keys): Input {
    Received(Auth1(Auth1Data(None, true, true, true, keys.skReader, keys.skDevice, keys.stepReader, keys.stepDevice,
                             [])),
             None, None)
  }

  /** An EXCHANGE without any request, sealed by an engine. */
  function EmptyExchange(aead: Aead, e: Engine): Input
    requires e.enc < COUNTER_END
  {
    Received(Exchange(e.Encrypt(aead, [], []).1.value), None, None)
  }

  lemma OneMore(env: Env, d: Device, inputs: seq<Input>, input: Input)
    ensures RunDevice(env, d, inputs + [input]) == Step(env, RunDevice(env, d, inputs), input)
  {
    assert (inputs + [input])[..|inputs|] == inputs;
  }

  /** An empty payload is an EXCHANGE without requests, which every device accepts. */
  lemma EmptyIsPlain(box: Box)
    ensures var r := Requests(None, [], [], []);
            && ParseExchange([]) == Ok(Content(r, None, false, []))
            && Check(Some(box), r).Accepted? && Perform(Store(box, Session([], false)), r).1.None?
  {
  }

  // ---------------------------------------------------------------- one step each

  /** The parts of the device that nothing in these runs changes. */
  predicate Same(d: Device, box: Box, known: set<SubId>) {
    d.config == CONFIG && d.mailbox == Some(box) && d.log == Session([], false) && (known <= d.kpersistent)
  }

  lemma SelectFirst(env: Env, box: Box, known: set<SubId>)
    ensures var d := Step(env, StartDevice(CONFIG, Some(box), known), Get(Expedited));
            && Live(d) && Same(d, box, known) && d.session.value == NewSession().(state := SELECT_DONE)
  {
  }

  lemma Auth0Step(env: Env, d: Device, box: Box, known: set<SubId>, parameters: nat, keys: Keys)
    requires Live(d) && Same(d, box, known) && d.session.value == NewSession().(state := SELECT_DONE)
    requires parameters == 0 || (parameters == 1 && READER in known)
    ensures var d' := Step(env, d, Auth0Of(parameters, keys));
            && Live(d') && Same(d', box, known)
            && d'.session.value.stepup.None?
            && d'.session.value.certDecoded.None? && d'.session.value.certVerified.None?
            && (if parameters == 0 then d'.session.value.state.AUTH0_STD_DONE?
                else && d'.session.value.state.AUTH0_FAST_DONE?
                     && d'.session.value.expedited == Some(NewEngine(User, keys.skReader, keys.skDevice)))
  {
  }

  lemma Auth1Step(env: Env, d: Device, box: Box, keys: Keys)
    requires Live(d) && Same(d, box, {}) && d.session.value.state.AUTH0_STD_DONE?
    requires d.session.value.certDecoded.None? && d.session.value.certVerified.None?
    ensures var d' := Step(env, d, Auth1Of(keys));
            && Live(d') && Same(d', box, {}) && d'.session.value.state.AUTH1_DONE?
            && d'.session.value.expedited == Some(NewEngine(User, keys.skReader, keys.skDevice).(enc := 2))
            && d'.session.value.stepup == Some(NewEngine(User, keys.stepReader, keys.stepDevice))
  {
  }

  lemma SelectStepUp(env: Env, d: Device)
    requires Live(d) && (d.session.value.state.AUTH1_DONE? || d.session.value.state.EXCHANGE_DONE?)
    requires !d.config.mode.SingleTransaction?
    ensures Step(env, d, Get(StepUp))
         == d.(session := Some(d.session.value.(state := SELECT_STEP_UP_DONE)),
               trace := d.trace + [Event.Selected(StepUp)])
  {
  }

  // ---------------------------------------------------------------- AUTH0, AUTH1, SELECT

  function StandardRun(keys: Keys): seq<Input> {
    [Get(Expedited)] + [Auth0Of(0, keys)] + [Auth1Of(keys)] + [Get(StepUp)]
  }

  /** Behind SELECT and AUTH0. */
  lemma Auth0Reached(env: Env, box: Box, known: set<SubId>, parameters: nat, keys: Keys) returns (d: Device)
    requires parameters == 0 || (parameters == 1 && READER in known)
    ensures d == RunDevice(env, StartDevice(CONFIG, Some(box), known), [Get(Expedited)] + [Auth0Of(parameters, keys)])
    ensures Live(d) && Same(d, box, known)
    ensures d.session.value.stepup.None? && d.session.value.certDecoded.None? && d.session.value.certVerified.None?
    ensures if parameters == 0 then d.session.value.state.AUTH0_STD_DONE?
            else && d.session.value.state.AUTH0_FAST_DONE?
                 && d.session.value.expedited == Some(NewEngine(User, keys.skReader, keys.skDevice))
  {
    var start := StartDevice(CONFIG, Some(box), known);
    OneMore(env, start, [], Get(Expedited));
    assert [] + [Get(Expedited)] == [Get(Expedited)];
    SelectFirst(env, box, known);
    OneMore(env, start, [Get(Expedited)], Auth0Of(parameters, keys));
    var before := RunDevice(env, start, [Get(Expedited)]);
    Auth0Step(env, before, box, known, parameters, keys);
    d := RunDevice(env, start, [Get(Expedited)] + [Auth0Of(parameters, keys)]);
  }

  /** The state with both engines, the expedited one having sealed the answer to AUTH1. */
  lemma StandardReaches(env: Env, box: Box, keys: Keys) returns (d: Device)
    ensures d == RunDevice(env, StartDevice(CONFIG, Some(box), {}), StandardRun(keys))
    ensures Live(d) && Same(d, box, {}) && d.session.value.state.SELECT_STEP_UP_DONE?
    ensures d.session.value.expedited == Some(NewEngine(User, keys.skReader, keys.skDevice).(enc := 2))
    ensures d.session.value.stepup == Some(NewEngine(User, keys.stepReader, keys.stepDevice))
  {
    var start, first := StartDevice(CONFIG, Some(box), {}), [Get(Expedited)] + [Auth0Of(0, keys)];
    var d0 := Auth0Reached(env, box, {}, 0, keys);
    OneMore(env, start, first, Auth1Of(keys));
    Auth1Step(env, d0, box, keys);
    var d1 := RunDevice(env, start, first + [Auth1Of(keys)]);
    OneMore(env, start, first + [Auth1Of(keys)], Get(StepUp));
    SelectStepUp(env, d1);
    d := RunDevice(env, start, StandardRun(keys));
  }

  /**
   * The run that breaks the step: an EXCHANGE behind it is served, the session goes on, and neither engine of the
   * reader is in step any more.
   */
  lemma StandardRunBreaksStep(aead: Aead, box: Box, keys: Keys)
    requires aead.Correct()
    ensures var env, reader := Env(aead, ParseExchange), NewEngine(Reader, keys.stepReader, keys.stepDevice);
            var d := RunDevice(env, StartDevice(CONFIG, Some(box), {}),
                               StandardRun(keys) + [EmptyExchange(aead, reader)]);
            && Live(d) && d.answer.Some? && d.session.value.expedited.Some? && d.session.value.stepup.Some?
            && !InStep(reader.(enc := 2, dec := 2), d.session.value.stepup.value)
            && !InStep(NewEngine(Reader, keys.skReader, keys.skDevice).(dec := 2), d.session.value.expedited.value)
  {
    var env, reader := Env(aead, ParseExchange), NewEngine(Reader, keys.stepReader, keys.stepDevice);
    var expedited := NewEngine(Reader, keys.skReader, keys.skDevice).(dec := 2);
    var d := StandardReaches(env, box, keys);
    EmptyIsPlain(box);
    ParsesRequests();
    OneMore(env, StartDevice(CONFIG, Some(box), {}), StandardRun(keys), EmptyExchange(aead, reader));
    SelectStepUpBreaksStep(env, d, expedited, reader, [],
                           reader.Encrypt(aead, [], []).1.value, Content(Requests(None, [], [], []), None, false, []));
  }

  lemma ParsesRequests()
    ensures forall p :: ParseExchange(p).Ok? ==> ParseExchange(p).value.requests.Parsed()
  {
    forall p | ParseExchange(p).Ok? ensures ParseExchange(p).value.requests.Parsed() {
      ParsedRequests(p);
    }
  }

  // ---------------------------------------------------------------- fast AUTH0, EXCHANGE, SELECT

  function FastRun(aead: Aead, keys: Keys): seq<Input> {
    [Get(Expedited)] + [Auth0Of(1, keys)]
    + [EmptyExchange(aead, NewEngine(Reader, keys.skReader, keys.skDevice))] + [Get(StepUp)]
  }

  /** The state without a step-up engine. */
  lemma FastReaches(aead: Aead, box: Box, keys: Keys) returns (d: Device)
    requires aead.Correct()
    ensures d == RunDevice(Env(aead, ParseExchange), StartDevice(CONFIG, Some(box), {READER}), FastRun(aead, keys))
    ensures Live(d) && d.session.value.state.SELECT_STEP_UP_DONE? && d.session.value.stepup.None?
    ensures d.session.value.expedited == Some(NewEngine(User, keys.skReader, keys.skDevice).(enc := 2, dec := 2))
  {
    var env, start := Env(aead, ParseExchange), StartDevice(CONFIG, Some(box), {READER});
    var exchange := EmptyExchange(aead, NewEngine(Reader, keys.skReader, keys.skDevice));
    var first := [Get(Expedited)] + [Auth0Of(1, keys)];
    var d0 := Auth0Reached(env, box, {READER}, 1, keys);
    OneMore(env, start, first, exchange);
    FastExchange(aead, d0, box, keys);
    var d1 := RunDevice(env, start, first + [exchange]);
    OneMore(env, start, first + [exchange], Get(StepUp));
    SelectStepUp(env, d1);
    d := RunDevice(env, start, FastRun(aead, keys));
  }

  lemma FastExchange(aead: Aead, d: Device, box: Box, keys: Keys)
    requires aead.Correct() && Live(d) && Same(d, box, {READER})
    requires d.session.value.state.AUTH0_FAST_DONE? && d.session.value.stepup.None?
    requires d.session.value.expedited == Some(NewEngine(User, keys.skReader, keys.skDevice))
    ensures var d' := Step(Env(aead, ParseExchange), d,
                           EmptyExchange(aead, NewEngine(Reader, keys.skReader, keys.skDevice)));
            && Live(d') && d'.config == CONFIG && d'.session.value.state.EXCHANGE_DONE? && d'.session.value.stepup.None?
            && d'.session.value.expedited == Some(NewEngine(User, keys.skReader, keys.skDevice).(enc := 2, dec := 2))
  {
    var env, reader := Env(aead, ParseExchange), NewEngine(Reader, keys.skReader, keys.skDevice);
    var packet, content := reader.Encrypt(aead, [], []).1.value, Content(Requests(None, [], [], []), None, false, []);
    EmptyIsPlain(box);
    ParsesRequests();
    GenuineWait(env, d, UseExpedited, reader, [], Exchange(packet));
    var user := d.session.value.expedited.value;
    var d1 := d.(session := Some(d.session.value.(expedited := Some(user.(dec := user.dec + 1)))));
    assert WaitForCommand(env, d, Exchange(packet), None) == (d1, Ok(Parsed(Exchange(packet), Some(content))));
    ExchangeServes(env, d1, content, None);
  }

  /** The run that ends the loop: no EXCHANGE behind it can be decrypted. */
  lemma FastRunEndsLoop(aead: Aead, box: Box, keys: Keys, packet: Sealed)
    requires aead.Correct()
    ensures RunDevice(Env(aead, ParseExchange), StartDevice(CONFIG, Some(box), {READER}),
                      FastRun(aead, keys) + [Received(Exchange(packet), None, None)]).phase
         == Stopped(Some(AttributeError))
  {
    var env, start := Env(aead, ParseExchange), StartDevice(CONFIG, Some(box), {READER});
    var d := FastReaches(aead, box, keys);
    OneMore(env, start, FastRun(aead, keys), Received(Exchange(packet), None, None));
    SelectStepUpWithoutAuth1(env, d, packet);
  }
}
