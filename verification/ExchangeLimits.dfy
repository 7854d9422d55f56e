/** Two calls that are in range and permitted and do not return their data, and what they leave. */
module ExchangeLimits {
  import opened Basics
  import opened Encryption
  import opened Fragmentation
  import opened MailboxStore
  import opened MailboxExchange
  import opened UserMachine
  import opened UserEngines
  import opened ExchangeCodec
  import opened ExchangeEndToEnd
  import opened ExchangeLengths
  import opened OverWire
  import opened ExchangeCall
  import opened UserStepUp
  import RF = ReaderFailure

  /** A device with the fast path that knows one reader, and a mailbox of 300 zeros. */
  function ConfigOf(transport: Transport): Config {
    Config(transport, transport.BleUwb?, MainLoop, true, [0x0100], true, false)
  }

  const BOX: Box := EmptyBox(300, true, true)

  /** The device that waits for an AUTH0: on NFC behind a SELECT, on BLE from the start. */
  function ReadyOf(transport: Transport): Device {
    var start := StartDevice(ConfigOf(transport), Some(BOX), {READER});
    if transport.BleUwb? then start
    else
      start.(session := Some(NewSession().(state := SELECT_DONE)), phase := Looping,
             trace := start.trace + [Event.Selected(Expedited)])
  }

  /** The device behind a fast AUTH0. */
  function DeviceOf(transport: Transport, skReader: Key, skDevice: Key): Device {
    var session := UserSession(AUTH0_FAST_DONE, Some(NewEngine(User, skReader, skDevice)), None, None, None, false,
                               READER);
    Device(ConfigOf(transport), Some(session), Some(BOX), Session([], false), {READER}, None, Looping,
           ReadyOf(transport).trace + [Auth0Fast(READER)])
  }

  /** The commands that lead there: over NFC a SELECT comes first. */
  function FastRun(transport: Transport, skReader: Key, skDevice: Key): seq<Input> {
    (if transport.BleUwb? then [] else [Get(Expedited)]) + [Auth0Of(1, Keys(skReader, skDevice, skReader, skDevice))]
  }

  /** A run from the start reaches the device of both calls. */
  lemma DeviceIsReached(env: Env, transport: Transport, skReader: Key, skDevice: Key)
    requires transport.Nfc? || transport.BleUwb?
    ensures RunDevice(env, StartDevice(ConfigOf(transport), Some(BOX), {READER}),
                      FastRun(transport, skReader, skDevice))
         == DeviceOf(transport, skReader, skDevice)
  {
    var start := StartDevice(ConfigOf(transport), Some(BOX), {READER});
    var keys := Keys(skReader, skDevice, skReader, skDevice);
    OneMore(env, start, [], if transport.BleUwb? then Auth0Of(1, keys) else Get(Expedited));
    if transport.Nfc? {
      OneMore(env, start, [Get(Expedited)], Auth0Of(1, keys));
      assert [] + [Get(Expedited)] == [Get(Expedited)];
      FirstSelect(env);
    }
    FastAuth0(env, transport, keys);
  }

  lemma FirstSelect(env: Env)
    ensures Step(env, StartDevice(ConfigOf(Nfc), Some(BOX), {READER}), Get(Expedited)) == ReadyOf(Nfc)
  {
  }

  lemma FastAuth0(env: Env, transport: Transport, keys: Keys)
    requires transport.Nfc? || transport.BleUwb?
    ensures Step(env, ReadyOf(transport), Auth0Of(1, keys)) == DeviceOf(transport, keys.skReader, keys.skDevice)
  {
  }

  /** Short mode on both sides, with the default lengths of the transport. */
  function WireOf(transport: Transport): Wire {
    var ble := transport.BleUwb?;
    var limits := Limits(transport, false, 0, 0, if ble then BLE_COMMAND_MAX else COMMAND_MAX);
    var length := if ble then BLE_RESPONSE_MAX else RESPONSE_MAX;
    Wire(ExchangeKind, limits, limits, length, length, ble, false)
  }

  function CallOf(aead: Aead, transport: Transport, skReader: Key, skDevice: Key, w: Wanted): Call
    requires w.Encodable() && CommandsLength(w) < 0x1_0000
  {
    Call(aead, w, PayloadOf(w), NewEngine(Reader, skReader, skDevice), DeviceOf(transport, skReader, skDevice),
         WireOf(transport))
  }

  lemma CallIsValid(aead: Aead, transport: Transport, skReader: Key, skDevice: Key, w: Wanted)
    requires aead.Correct() && w.Encodable() && CommandsLength(w) < 0x1_0000 && InRange(w, 300)
    ensures CallOf(aead, transport, skReader, skDevice, w).Valid()
  {
  }

  // ---------------------------------------------------------------- an answer that is too long

  /** Reads all of the mailbox and sets its first byte to 7. */
  const LONG_READ: Wanted := Wanted([(0, 300)], [], [(0, 1, 7)])

  lemma LongReadLengths()
    ensures LONG_READ.Encodable() && CommandsLength(LONG_READ) == 16 && AnswerLength(LONG_READ) == 322
  {
    assert [(0, 300)][..0] == [];
    assert SlicesLength([(0, 300)]) == SlicesLength([]) + 302;
  }

  /**
   * On NFC the command is built and served, and the byte is set; but the answer takes 322 bytes, its second half is
   * asked for in class 0x80, and so the caller gets an error and the session of the device is over.
   */
  lemma LongReadIsLost(aead: Aead, skReader: Key, skDevice: Key, after: Device, reply: RF.Reply, peer: RF.Peer,
                       r: RF.Reader)
    requires aead.Correct() && LONG_READ.Encodable() && CommandsLength(LONG_READ) < 0x1_0000
    requires Ends(CallOf(aead, Nfc, skReader, skDevice, LONG_READ), after, reply)
    requires HasEngine(r, UseExpedited) && peer(r.Sent()) == reply
    ensures CallOf(aead, Nfc, skReader, skDevice, LONG_READ).CanBeBuilt()
    ensures RF.HandleExchange(peer, r, 0, false, Some(1), None).1.Err?
    ensures NoEngines(after)
    ensures after.mailbox.Some? && |after.mailbox.value.data| == 300 && after.mailbox.value.data[0] == 7
  {
    var c := CallOf(aead, Nfc, skReader, skDevice, LONG_READ);
    LongReadCall(c, aead, skReader, skDevice);
    CallReturnsIff(c, after, reply, peer, r);
    assert ExchangeCall.Applied(c, after) && LeftBehind(c, after);
    FirstByteIsSet(c.device.mailbox.value, after.mailbox);
  }

  lemma LongReadCall(c: Call, aead: Aead, skReader: Key, skDevice: Key)
    requires aead.Correct() && LONG_READ.Encodable() && CommandsLength(LONG_READ) < 0x1_0000
    requires c == CallOf(aead, Nfc, skReader, skDevice, LONG_READ)
    ensures c.Valid() && c.CanBeBuilt() && !c.Deliverable() && c.Limit() >= 0
    ensures c.device.mailbox.Some? && |c.device.mailbox.value.data| == 300 && !c.Choice().UseStepUp?
  {
    LongReadLengths();
    CallIsValid(aead, Nfc, skReader, skDevice, LONG_READ);
    PacketLengthIs(LONG_READ);
    LongReadLimit(c.wire, PacketLength(LONG_READ));
  }

  /** Whatever the length of the command, its Le of 0 is read as 256, which does not narrow the answer. */
  lemma LongReadLimit(x: Wire, length: nat)
    requires x == WireOf(Nfc)
    ensures x.CanBeBuilt(length) && x.AnswerLimit(x.DeviceLe(length)) == 256
  {
    LastLengthBound(length, COMMAND_MAX);
  }

  lemma {:induction false} LastLengthBound(length: nat, size: nat)
    requires size >= 1
    ensures LastLength(length, size) <= size
    decreases length
  {
    if length > size {
      LastLengthBound(length - size, size);
    }
  }

  lemma FirstByteIsSet(box: Box, after: Option<Box>)
    requires LONG_READ.Encodable() && Written(box, LONG_READ, after) && |box.data| == 300
    ensures after.Some? && |after.value.data| == 300 && after.value.data[0] == 7
  {
    var log := RequestsOf(LONG_READ, false).Log();
    OneSet();
    SetValue(0, 1, 7);
    assert LastCover(log, 0) == 0;
  }

  lemma OneSet()
    requires LONG_READ.Encodable()
    ensures RequestsOf(LONG_READ, false).Log() == [SetOp(U16(0) + U16(1) + [7])]
  {
    var r := RequestsOf(LONG_READ, false);
    assert r.setRequests == [U16(0) + U16(1) + [7]] && r.writeRequests == [];
    assert SetOps(r.setRequests)[0] == SetOp(U16(0) + U16(1) + [7]);
  }

  // ---------------------------------------------------------------- a command that is too long

  /** Writes 250 bytes. */
  const LONG_WRITE: Wanted := Wanted([], [(0, Repeat(1, 250))], [])

  lemma LongWriteLengths()
    ensures LONG_WRITE.Encodable() && CommandsLength(LONG_WRITE) == 258 && PacketLength(LONG_WRITE) == 278
  {
    var writes := LONG_WRITE.writeRequests;
    assert writes[..0] == [];
    assert WritesLength(writes) == WritesLength([]) + ObjLength(252);
  }

  /** On BLE the command is sealed and then refused: nothing is sent, and the engines are out of step. */
  lemma LongWriteIsNotSent(aead: Aead, skReader: Key, skDevice: Key, after: Device, reply: RF.Reply, peer: RF.Peer,
                           r: RF.Reader)
    requires aead.Correct() && LONG_WRITE.Encodable() && CommandsLength(LONG_WRITE) < 0x1_0000
    requires Ends(CallOf(aead, BleUwb, skReader, skDevice, LONG_WRITE), after, reply)
    requires HasEngine(r, UseExpedited) && peer(r.Sent()) == reply
    ensures RF.HandleExchange(peer, r, 0, false, Some(0), None) == (r, Err(MessageTooLongError))
    ensures after == DeviceOf(BleUwb, skReader, skDevice)
    ensures !InStep(NewEngine(Reader, skReader, skDevice).(enc := 2), after.session.value.expedited.value)
  {
    LongWriteLengths();
  }
}
