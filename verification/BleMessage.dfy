/** The BLE frame, its attributes, and the four messages that set up a ranging session, encrypted by paired engines. */
module BleMessages {
  import opened Basics
  import opened Encryption

  const UWB_RANGING_SERVICE: byte := 0x01
  const VENDOR_SPECIFIC: nat := 0x10

  // ---------------------------------------------------------------- frames

  datatype Frame = Frame(header: byte, id: byte, payload: seq<byte>)

  /** `BleMessage.to_bytes` */
  function FrameBytes(f: Frame): Result<seq<byte>> {
    if |f.payload| >= 0x1_0000 then Err(OverflowError) else Ok([f.header, f.id] + U16(|f.payload|) + f.payload)
  }

  /** `BleMessage.from_bytes`: a payload that is cut short is taken as it is. */
  function ParseFrame(s: seq<byte>): Result<Frame> {
    if |s| < 2 then Err(IndexError) else Ok(Frame(s[0], s[1], Slice(s, 4, 4 + BigEndian(Slice(s, 2, 4)))))
  }

  /** Whatever follows a frame is left alone. */
  lemma FrameRoundTrip(f: Frame, extra: seq<byte>)
    requires |f.payload| < 0x1_0000
    ensures ParseFrame(FrameBytes(f).value + extra) == Ok(f)
  {
    var s := FrameBytes(f).value + extra;
    assert s[2..4] == U16(|f.payload|) && s[4..4 + |f.payload|] == f.payload;
    BigEndianU16(|f.payload|);
  }

  /** A frame that is cut short is read with what is left of its payload, but not without its first two bytes. */
  lemma CutFrameParses(f: Frame, k: nat)
    requires |f.payload| < 0x1_0000 && k < 4 + |f.payload|
    ensures var s := FrameBytes(f).value[..k];
            k >= 4 ==> ParseFrame(s) == Ok(f.(payload := f.payload[..k - 4]))
    ensures ParseFrame(FrameBytes(f).value[..k]).Ok? <==> k >= 2
    ensures 2 <= k < 4 ==> ParseFrame(FrameBytes(f).value[..k]) == Ok(f.(payload := []))
  {
    var bytes := FrameBytes(f).value;
    var s := bytes[..k];
    if k >= 4 {
      assert s[2..4] == bytes[2..4] == U16(|f.payload|) && s[4..] == bytes[4..][..k - 4] == f.payload[..k - 4];
      BigEndianU16(|f.payload|);
      assert Slice(s, 4, 4 + |f.payload|) == s[4..];
    }
  }

  // ---------------------------------------------------------------- attributes

  datatype Attribute = Attribute(id: nat, value: Option<seq<byte>>)
  {
    predicate Valid() {
      id < 0x100 && (value.Some? ==> |value.value| < 0x100)
    }

    /** `length` counts id and length byte too. */
    function Length(): nat {
      2 + if value.Some? then |value.value| else 0
    }

    function Bytes(): (s: seq<byte>)
      requires Valid()
      ensures |s| == Length()
    {
      [id] + if value.Some? then [|value.value|] + value.value else [0]
    }
  }

  /** `BleAttribute.from_bytes(payload[offset:])` */
  function ParseAttribute(s: seq<byte>, offset: nat): Result<Attribute> {
    if offset + 2 > |s| then Err(IndexError)
    else
      var length: nat := s[offset + 1];
      Ok(Attribute(s[offset], if length != 0 then Some(Slice(s, offset + 2, offset + 2 + length)) else None))
  }

  /** An attribute is read back as it was written exactly if it does not have an empty value, which reads as none. */
  lemma AttributeRoundTripIff(s: seq<byte>, offset: nat, a: Attribute)
    requires a.Valid() && At(s, offset, a.Bytes())
    ensures ParseAttribute(s, offset) == Ok(a) <==> a.value != Some([])
    ensures a.value == Some([]) ==> ParseAttribute(s, offset) == Ok(a.(value := None))
  {
    var bytes := s[offset..offset + |a.Bytes()|];
    assert s[offset] == bytes[0] && s[offset + 1] == bytes[1];
    if a.value.Some? && a.value.value != [] {
      assert s[offset + 2..offset + 2 + |a.value.value|] == bytes[2..] == a.value.value;
    }
  }

  // ---------------------------------------------------------------- the four setup messages

  datatype Setup =
    | M1(configurationId: nat, pulseShapes: nat, channels: nat, sessionId: nat, vendor: nat)
    | M2(configurationId: nat, pulseShape: nat, channels: nat, syncCodes: nat, ranMultiplier: nat, slots: nat,
         hopping: nat, vendor: nat)
    | M3(ranMultiplier: nat, chapsPerSlot: nat, responders: nat, slotsPerRound: nat, syncCodes: nat, hopping: nat,
         macMode: nat, vendor: nat)
    | M4(stsIndex: nat, uwbTime: seq<byte>, hopModeKey: nat, syncCode: nat)
  {
    /** Every number fits its field, and the time is not empty. */
    predicate InRange() {
      match this
      case M1(c, p, ch, s, v) => c < 0x1_0000 && p < 0x100_0000 && ch < 0x100 && s < COUNTER_END && v < 0x100_0000
      case M2(c, p, ch, sy, r, sl, h, v) =>
        && c < 0x1_0000 && p < 0x100 && ch < 0x100 && sy < COUNTER_END && r < 0x100 && sl < 0x100 && h < 0x100
        && v < 0x100_0000
      case M3(r, n, re, sl, sy, h, m, v) =>
        && r < 0x100 && n < 0x100 && re < 0x100 && sl < 0x100 && sy < COUNTER_END && h < 0x100 && m < 0x100
        && v < 0x100_0000
      case M4(st, t, h, sy) => st < COUNTER_END && 1 <= |t| < 0x100 && h < COUNTER_END && sy < 0x100
    }

    function Id(): byte {
      match this
      case M1(_, _, _, _, _) => 0
      case M2(_, _, _, _, _, _, _, _) => 1
      case M3(_, _, _, _, _, _, _, _) => 2
      case M4(_, _, _, _) => 3
    }

    /** The attributes in the order in which `create_ranging_session_setup_*` appends them. */
    function Attributes(): (r: seq<Attribute>)
      requires InRange()
      ensures forall i :: 0 <= i < |r| ==> r[i].Valid() && r[i].value.Some? && r[i].value.value != []
    {
      match this
      case M1(c, p, ch, s, v) =>
        [Attribute(0x00, Some(U16(c))), Attribute(0x01, Some(U24(p))), Attribute(0x03, Some([ch])),
         Attribute(0x02, Some(U32(s))), Attribute(VENDOR_SPECIFIC, Some(U24(v)))]
      case M2(c, p, ch, sy, r, sl, h, v) =>
        [Attribute(0x00, Some(U16(c))), Attribute(0x01, Some([p])), Attribute(0x03, Some([ch])),
         Attribute(0x06, Some(U32(sy))), Attribute(0x04, Some([r])), Attribute(0x05, Some([sl])),
         Attribute(0x08, Some([h])), Attribute(VENDOR_SPECIFIC, Some(U24(v)))]
      case M3(r, n, re, sl, sy, h, m, v) =>
        [Attribute(0x04, Some([r])), Attribute(0x09, Some([n])), Attribute(0x0A, Some([re])),
         Attribute(0x0B, Some([sl])), Attribute(0x06, Some(U32(sy))), Attribute(0x08, Some([h])),
         Attribute(0x0F, Some([m])), Attribute(VENDOR_SPECIFIC, Some(U24(v)))]
      case M4(st, t, h, sy) =>
        [Attribute(0x0C, Some(U32(st))), Attribute(0x0D, Some(t)), Attribute(0x0E, Some(U32(h))),
         Attribute(0x07, Some([sy]))]
    }
  }

  /** The ids that the parser of a message insists on, in order. */
  function ExpectedIds(id: byte): seq<nat> {
    if id == 0 then [0x00, 0x01, 0x03, 0x02]
    else if id == 1 then [0x00, 0x01, 0x03, 0x06, 0x04, 0x05, 0x08]
    else if id == 2 then [0x04, 0x09, 0x0A, 0x0B, 0x06, 0x08, 0x0F]
    else [0x0C, 0x0D, 0x0E, 0x07]
  }

  function AttributeBytes(attributes: seq<Attribute>): seq<byte>
    requires forall i :: 0 <= i < |attributes| ==> attributes[i].Valid()
  {
    if attributes == [] then [] else attributes[0].Bytes() + AttributeBytes(attributes[1..])
  }

  /** The builders extend the payload by one attribute after the other. */
  method BuildPayload(attributes: seq<Attribute>) returns (payload: seq<byte>)
    requires forall i :: 0 <= i < |attributes| ==> attributes[i].Valid()
    ensures payload == AttributeBytes(attributes)
  {
    payload := [];
    assert attributes[0..] == attributes;
    for i := 0 to |attributes|
      invariant payload + AttributeBytes(attributes[i..]) == AttributeBytes(attributes)
    {
      assert attributes[i..][0] == attributes[i] && attributes[i..][1..] == attributes[i + 1..];
      var bytes := attributes[i].Bytes();
      assert payload + (bytes + AttributeBytes(attributes[i + 1..]))
             == payload + bytes + AttributeBytes(attributes[i + 1..]);
      payload := payload + bytes;
    }
  }

  /** The mandatory attributes from an offset on, and then the vendor attribute, if bytes are left. */
  function ParseFrom(ids: seq<nat>, s: seq<byte>, offset: nat): Result<seq<Attribute>>
    decreases |ids|
  {
    if ids == [] then
      if offset >= |s| then Ok([])
      else
        match ParseAttribute(s, offset)
        case Err(e) => Err(e)
        case Ok(vendor) => Ok([vendor]) // a wrong id is only logged
    else
      match ParseAttribute(s, offset)
      case Err(e) => Err(e)
      case Ok(a) =>
        if a.id != ids[0] then Err(BLEMessageError)
        else Prepend([a], ParseFrom(ids[1..], s, offset + a.Length()))
  }

  /** `_parse_ranging_session_setup_m1` to `_m4`, with the running offset. */
  method ParseSetup(id: byte, s: seq<byte>) returns (r: Result<seq<Attribute>>)
    ensures r == ParseFrom(ExpectedIds(id), s, 0)
  {
    var ids := ExpectedIds(id);
    var attributes: seq<Attribute> := [];
    var offset: nat := 0;
    PrependNil(ParseFrom(ids, s, 0));
    assert ids[0..] == ids;
    for i := 0 to |ids|
      invariant ParseFrom(ids, s, 0) == Prepend(attributes, ParseFrom(ids[i..], s, offset))
    {
      assert ids[i..][0] == ids[i] && ids[i..][1..] == ids[i + 1..];
      var a := ParseAttribute(s, offset);
      if a.Err? {
        return Err(a.error);
      }
      if a.value.id != ids[i] {
        return Err(BLEMessageError);
      }
      PrependSnoc(attributes, a.value, ParseFrom(ids[i + 1..], s, offset + a.value.Length()));
      attributes := attributes + [a.value];
      offset := offset + a.value.Length();
    }
    if offset < |s| {
      var vendor := ParseAttribute(s, offset);
      if vendor.Err? {
        return Err(vendor.error);
      }
      attributes := attributes + [vendor.value];
    } else {
      assert attributes + [] == attributes;
    }
    return Ok(attributes);
  }

  predicate Readable(attributes: seq<Attribute>) {
    forall i :: 0 <= i < |attributes| ==> attributes[i].Valid() && attributes[i].value != Some([])
  }

  /** Attributes that carry the expected ids, and perhaps one more at the end. */
  predicate Carry(ids: seq<nat>, attributes: seq<Attribute>) {
    |ids| <= |attributes| <= |ids| + 1 && forall i :: 0 <= i < |ids| ==> attributes[i].id == ids[i]
  }

  /** Readable attributes that carry the expected ids are all recovered. */
  lemma {:induction false} ParsesAttributes(ids: seq<nat>, s: seq<byte>, offset: nat, attributes: seq<Attribute>)
    requires Readable(attributes) && Carry(ids, attributes)
    requires offset <= |s| && s[offset..] == AttributeBytes(attributes)
    ensures ParseFrom(ids, s, offset) == Ok(attributes)
    decreases |ids|
  {
    if attributes != [] {
      var a, rest := attributes[0], attributes[1..];
      HeadParses(s, offset, a, AttributeBytes(rest));
      if ids == [] {
        assert attributes == [a];
        OneMoreParses(s, offset, a);
      } else {
        RestCarries(ids, attributes);
        ParsesAttributes(ids[1..], s, offset + a.Length(), rest);
        ParseCons(ids, s, offset, a, rest);
        assert [a] + rest == attributes;
      }
    }
  }

  /** Behind the expected attributes. */
  lemma OneMoreParses(s: seq<byte>, offset: nat, a: Attribute)
    requires ParseAttribute(s, offset) == Ok(a) && offset < |s|
    ensures ParseFrom([], s, offset) == Ok([a])
  {
  }

  lemma RestCarries(ids: seq<nat>, attributes: seq<Attribute>)
    requires Readable(attributes) && Carry(ids, attributes) && ids != []
    ensures Readable(attributes[1..]) && Carry(ids[1..], attributes[1..])
  {
  }

  lemma ParseCons(ids: seq<nat>, s: seq<byte>, offset: nat, a: Attribute, rest: seq<Attribute>)
    requires ids != [] && ParseAttribute(s, offset) == Ok(a) && a.id == ids[0]
    requires ParseFrom(ids[1..], s, offset + a.Length()) == Ok(rest)
    ensures ParseFrom(ids, s, offset) == Ok([a] + rest)
  {
  }

  lemma HeadParses(s: seq<byte>, offset: nat, a: Attribute, rest: seq<byte>)
    requires a.Valid() && a.value != Some([]) && offset <= |s| && s[offset..] == a.Bytes() + rest
    ensures ParseAttribute(s, offset) == Ok(a) && offset + a.Length() <= |s| && s[offset + a.Length()..] == rest
  {
    var suffix := s[offset..];
    assert s[offset..offset + a.Length()] == suffix[..a.Length()] == a.Bytes();
    assert s[offset + a.Length()..] == suffix[a.Length()..];
    AttributeRoundTripIff(s, offset, a);
  }

  /** As far as there are attributes, they carry the expected ids. */
  predicate Match(ids: seq<nat>, attributes: seq<Attribute>) {
    forall i :: 0 <= i < |ids| && i < |attributes| ==> attributes[i].id == ids[i]
  }

  /** A wrong id is refused, a missing attribute raises IndexError, and what is behind one more is left alone. */
  function Decided(ids: seq<nat>, attributes: seq<Attribute>): Result<seq<Attribute>> {
    if !Match(ids, attributes) then Err(BLEMessageError)
    else if |attributes| < |ids| then Err(IndexError)
    else Ok(if |attributes| > |ids| then attributes[..|ids| + 1] else attributes)
  }

  lemma DecidedCons(ids: seq<nat>, attributes: seq<Attribute>)
    requires ids != [] && attributes != [] && attributes[0].id == ids[0]
    ensures Decided(ids, attributes) == Prepend([attributes[0]], Decided(ids[1..], attributes[1..]))
  {
    var a, rest := attributes[0], attributes[1..];
    MatchRest(ids, attributes);
    assert attributes == [a] + rest;
    assert |attributes| > |ids| ==> attributes[..|ids| + 1] == [a] + rest[..|ids|];
  }

  /** What parsing makes of any list of readable attributes. */
  lemma {:induction false} AttributesDecide(ids: seq<nat>, s: seq<byte>, offset: nat, attributes: seq<Attribute>)
    requires Readable(attributes) && offset <= |s| && s[offset..] == AttributeBytes(attributes)
    ensures ParseFrom(ids, s, offset) == Decided(ids, attributes)
    decreases |ids|
  {
    if attributes != [] {
      var a, rest := attributes[0], attributes[1..];
      HeadParses(s, offset, a, AttributeBytes(rest));
      if ids == [] {
        OneMoreParses(s, offset, a);
        assert attributes[..1] == [a];
      } else if a.id == ids[0] {
        AttributesDecide(ids[1..], s, offset + a.Length(), rest);
        ParseBehind(ids, s, offset, a);
        DecidedCons(ids, attributes);
      }
    }
  }

  lemma MatchRest(ids: seq<nat>, attributes: seq<Attribute>)
    requires ids != [] && attributes != [] && attributes[0].id == ids[0]
    ensures Match(ids, attributes) <==> Match(ids[1..], attributes[1..])
  {
    if Match(ids[1..], attributes[1..]) {
      forall i | 0 <= i < |ids| && i < |attributes| ensures attributes[i].id == ids[i] {
        if i > 0 {
          assert attributes[1..][i - 1].id == ids[1..][i - 1];
        }
      }
    }
  }

  lemma ParseBehind(ids: seq<nat>, s: seq<byte>, offset: nat, a: Attribute)
    requires ids != [] && ParseAttribute(s, offset) == Ok(a) && a.id == ids[0]
    ensures ParseFrom(ids, s, offset) == Prepend([a], ParseFrom(ids[1..], s, offset + a.Length()))
  {
  }

  /** The attributes of a message in range are recovered, and so are those of one without the vendor attribute. */
  lemma SetupParses(m: Setup)
    requires m.InRange()
    ensures ParseFrom(ExpectedIds(m.Id()), AttributeBytes(m.Attributes()), 0) == Ok(m.Attributes())
    ensures |ExpectedIds(m.Id())| <= |m.Attributes()|
    ensures var mandatory := m.Attributes()[..|ExpectedIds(m.Id())|];
            ParseFrom(ExpectedIds(m.Id()), AttributeBytes(mandatory), 0) == Ok(mandatory)
  {
    var ids, all := ExpectedIds(m.Id()), m.Attributes();
    SetupCarries(m);
    ParsesAll(ids, all);
    ParsesAll(ids, all[..|ids|]);
  }

  lemma SetupCarries(m: Setup)
    requires m.InRange()
    ensures Readable(m.Attributes()) && Carry(ExpectedIds(m.Id()), m.Attributes())
  {
  }

  lemma ParsesAll(ids: seq<nat>, attributes: seq<Attribute>)
    requires Readable(attributes) && Carry(ids, attributes)
    ensures ParseFrom(ids, AttributeBytes(attributes), 0) == Ok(attributes)
  {
    assert AttributeBytes(attributes)[0..] == AttributeBytes(attributes);
    ParsesAttributes(ids, AttributeBytes(attributes), 0, attributes);
  }

  lemma U16Injective(x: nat, y: nat)
    requires x < 0x1_0000 && y < 0x1_0000 && U16(x) == U16(y)
    ensures x == y
  {
    BigEndianU16(x);
    BigEndianU16(y);
  }

  lemma U24Injective(x: nat, y: nat)
    requires x < 0x100_0000 && y < 0x100_0000 && U24(x) == U24(y)
    ensures x == y
  {
    U24Value(x);
    U24Value(y);
  }

  lemma U24Value(n: nat)
    requires n < 0x100_0000
    ensures var s := U24(n);
            var hi: nat, mid: nat, lo: nat := s[0], s[1], s[2];
            n == hi * 0x1_0000 + mid * 0x100 + lo
  {
    var q := n / 0x100;
    assert n == q * 0x100 + n % 0x100;
    assert q == q / 0x100 * 0x100 + q % 0x100;
    assert q / 0x100 == n / 0x1_0000;
  }

  lemma OneByte(x: byte, y: byte)
    requires [x] == [y]
    ensures x == y
  {
    assert [x][0] == [y][0];
  }

  /** No two messages of one kind have the same attributes, so the fields are recovered with them. */
  lemma AttributesInjective(m: Setup, n: Setup)
    requires m.InRange() && n.InRange() && m.Id() == n.Id() && m.Attributes() == n.Attributes()
    ensures m == n
  {
    var a, b := m.Attributes(), n.Attributes();
    assert forall i :: 0 <= i < |a| ==> a[i] == b[i];
    match m
    case M1(_, _, _, _, _) =>
      assert a[0] == b[0] && a[1] == b[1] && a[2] == b[2] && a[3] == b[3] && a[4] == b[4];
      U16Injective(m.configurationId, n.configurationId);
      U24Injective(m.pulseShapes, n.pulseShapes);
      OneByte(m.channels, n.channels);
      U32Injective(m.sessionId, n.sessionId);
      U24Injective(m.vendor, n.vendor);
    case M2(_, _, _, _, _, _, _, _) => M2Injective(m, n);
    case M3(_, _, _, _, _, _, _, _) => M3Injective(m, n);
    case M4(_, _, _, _) =>
      assert a[0] == b[0] && a[1] == b[1] && a[2] == b[2] && a[3] == b[3];
      U32Injective(m.stsIndex, n.stsIndex);
      U32Injective(m.hopModeKey, n.hopModeKey);
      OneByte(m.syncCode, n.syncCode);
  }

  lemma M2Injective(m: Setup, n: Setup)
    requires m.M2? && n.M2? && m.InRange() && n.InRange() && m.Attributes() == n.Attributes()
    ensures m == n
  {
    var a, b := m.Attributes(), n.Attributes();
    assert a[0] == b[0] && a[1] == b[1] && a[2] == b[2] && a[3] == b[3] && a[4] == b[4] && a[5] == b[5] && a[6] == b[6]
           && a[7] == b[7];
    U16Injective(m.configurationId, n.configurationId);
    OneByte(m.pulseShape, n.pulseShape);
    OneByte(m.channels, n.channels);
    U32Injective(m.syncCodes, n.syncCodes);
    OneByte(m.ranMultiplier, n.ranMultiplier);
    OneByte(m.slots, n.slots);
    OneByte(m.hopping, n.hopping);
    U24Injective(m.vendor, n.vendor);
  }

  lemma M3Injective(m: Setup, n: Setup)
    requires m.M3? && n.M3? && m.InRange() && n.InRange() && m.Attributes() == n.Attributes()
    ensures m == n
  {
    var a, b := m.Attributes(), n.Attributes();
    assert a[0] == b[0] && a[1] == b[1] && a[2] == b[2] && a[3] == b[3] && a[4] == b[4] && a[5] == b[5] && a[6] == b[6]
           && a[7] == b[7];
    OneByte(m.ranMultiplier, n.ranMultiplier);
    OneByte(m.chapsPerSlot, n.chapsPerSlot);
    OneByte(m.responders, n.responders);
    OneByte(m.slotsPerRound, n.slotsPerRound);
    U32Injective(m.syncCodes, n.syncCodes);
    OneByte(m.hopping, n.hopping);
    OneByte(m.macMode, n.macMode);
    U24Injective(m.vendor, n.vendor);
  }

  // ---------------------------------------------------------------- encryption

  /** Header, id and the length of the plaintext, which is that of the ciphertext. */
  function AssociatedData(header: byte, id: byte, length: nat): seq<byte>
    requires length < 0x1_0000
  {
    [header, id] + U16(length)
  }

  /** Notifications, ranging, supplementary and third party messages are encrypted, those of the access protocol not. */
  predicate IsEncrypted(header: byte) {
    1 <= header <= 4
  }

  /** `_encrypt`; without an engine, or under another header, the payload stays as it is. */
  function EncryptFrame(aead: Aead, engine: Option<Engine>, f: Frame): (Option<Engine>, Result<Frame>)
  {
    if engine.None? || !IsEncrypted(f.header) then (engine, Ok(f))
    else if |f.payload| >= 0x1_0000 then (engine, Err(OverflowError))
    else
      var (e, c) := engine.value.Encrypt(aead, f.payload, AssociatedData(f.header, f.id, |f.payload|));
      (Some(e), match c case Err(error) => Err(error) case Ok(sealed) => Ok(f.(payload := sealed.Wire())))
  }

  /** `_decrypt` */
  function DecryptFrame(aead: Aead, engine: Option<Engine>, f: Frame): (Option<Engine>, Result<Frame>)
  {
    if engine.None? || !IsEncrypted(f.header) then (engine, Ok(f))
    else
      var c := FromWire(f.payload);
      if |c.text| >= 0x1_0000 then (engine, Err(OverflowError))
      else
        var (e, plain) := engine.value.Decrypt(aead, c, AssociatedData(f.header, f.id, |c.text|));
        (Some(e), match plain case Err(error) => Err(error) case Ok(p) => Ok(f.(payload := p)))
  }

  /** `create_ranging_session_setup_*` and `to_bytes` */
  function Send(aead: Aead, engine: Option<Engine>, m: Setup): (Option<Engine>, Result<seq<byte>>)
    requires m.InRange()
  {
    var (e, f) := EncryptFrame(aead, engine, Frame(UWB_RANGING_SERVICE, m.Id(), AttributeBytes(m.Attributes())));
    (e, match f case Err(error) => Err(error) case Ok(frame) => FrameBytes(frame))
  }

  /** `from_bytes` and `parse_payload` of a ranging setup message */
  function Receive(aead: Aead, engine: Option<Engine>, s: seq<byte>): (Option<Engine>, Result<(byte, seq<Attribute>)>)
  {
    match ParseFrame(s)
    case Err(e) => (engine, Err(e))
    case Ok(f) =>
      var (e, plain) := DecryptFrame(aead, engine, f);
      (e, match plain
          case Err(error) => Err(error)
          case Ok(frame) =>
            match ParseFrom(ExpectedIds(frame.id), frame.payload, 0)
            case Err(error) => Err(error)
            case Ok(attributes) => Ok((frame.id, attributes)))
  }

  /** The sender's next number is the one that the receiver expects. */
  predicate Facing(sender: Option<Engine>, receiver: Option<Engine>) {
    || (sender.None? && receiver.None?)
    || (sender.Some? && receiver.Some? && sender.value.role != receiver.value.role
        && sender.value.encryptionKey == receiver.value.decryptionKey
        && sender.value.enc == receiver.value.dec < COUNTER_END)
  }

  /**
   * The associated data agrees on both sides, so a frame opens to what it was sealed from; one that is not encrypted
   * arrives as it is, and uses up no number.
   */
  lemma SealedFrameOpens(aead: Aead, sender: Option<Engine>, receiver: Option<Engine>, f: Frame)
    requires aead.Correct() && Facing(sender, receiver) && |f.payload| < 0x1_0000
    ensures var (sender', sealed) := EncryptFrame(aead, sender, f);
            && sealed.Ok? && |sealed.value.payload| <= |f.payload| + TAG_LENGTH
            && DecryptFrame(aead, receiver, sealed.value).1 == Ok(f)
            && var receiver' := DecryptFrame(aead, receiver, sealed.value).0;
               if sender.Some? && 1 <= f.header <= 4 then
                 && sender' == Some(sender.value.(enc := sender.value.enc + 1))
                 && receiver' == Some(receiver.value.(dec := receiver.value.dec + 1))
               else sealed.value == f && sender' == sender && receiver' == receiver
  {
    if sender.Some? && IsEncrypted(f.header) {
      var ad := AssociatedData(f.header, f.id, |f.payload|);
      var c := aead.seal(sender.value.encryptionKey, sender.value.EncryptionIv(), ad, f.payload);
      aead.OpensWhatWasSealed(sender.value.encryptionKey, sender.value.EncryptionIv(), ad, f.payload);
      assert |c.text| == |f.payload| && |c.tag| == TAG_LENGTH;
      WireRoundTrip(c);
    }
  }

  /**
   * Built, framed, sent, unframed and parsed: every attribute of M1 to M4 arrives, and the engines face each other
   * again.
   */
  lemma SetupRoundTrip(aead: Aead, sender: Option<Engine>, receiver: Option<Engine>, m: Setup)
    requires aead.Correct() && Facing(sender, receiver) && m.InRange()
    ensures var (sender', bytes) := Send(aead, sender, m);
            && bytes.Ok?
            && var (receiver', received) := Receive(aead, receiver, bytes.value);
               && received == Ok((m.Id(), m.Attributes()))
               && (sender.Some? && sender.value.enc + 1 < COUNTER_END ==> Facing(sender', receiver'))
  {
    var f := Frame(UWB_RANGING_SERVICE, m.Id(), AttributeBytes(m.Attributes()));
    SetupIsShort(m);
    SealedFrameOpens(aead, sender, receiver, f);
    var sealed := EncryptFrame(aead, sender, f).1.value;
    FrameRoundTrip(sealed, []);
    assert FrameBytes(sealed).value + [] == FrameBytes(sealed).value;
    SetupParses(m);
  }

  lemma SetupIsShort(m: Setup)
    requires m.InRange()
    ensures |AttributeBytes(m.Attributes())| < 0x1000
  {
    BytesBound(m.Attributes());
  }

  lemma {:induction false} BytesBound(attributes: seq<Attribute>)
    requires forall i :: 0 <= i < |attributes| ==> attributes[i].Valid()
    ensures |AttributeBytes(attributes)| <= 257 * |attributes|
  {
    if attributes != [] {
      BytesBound(attributes[1..]);
    }
  }

  /**
   * What a receiver makes of any frame under an encrypted header: it opens to a text exactly if it is the seal of that
   * text under the receiver's number and under header, id and length of this very frame. Under any other header the
   * frame stays as it is.
   */
  lemma FrameOpensIff(aead: Aead, receiver: Engine, f: Frame, plain: seq<byte>)
    requires aead.Correct() && receiver.dec < COUNTER_END && TAG_LENGTH <= |f.payload| < 0x1_0000
    ensures var n := |f.payload| - TAG_LENGTH;
            1 <= f.header <= 4 ==>
              && (DecryptFrame(aead, Some(receiver), f).1 == Ok(f.(payload := plain)) <==>
                  FromWire(f.payload) == aead.seal(receiver.decryptionKey, receiver.DecryptionIv(),
                                                   [f.header, f.id, n / 0x100, n % 0x100], plain))
              && DecryptFrame(aead, Some(receiver), f).0 == Some(receiver.(dec := receiver.dec + 1))
    ensures !(1 <= f.header <= 4) ==> DecryptFrame(aead, Some(receiver), f) == (Some(receiver), Ok(f))
  {
    var n := |f.payload| - TAG_LENGTH;
    assert AssociatedData(f.header, f.id, n) == [f.header, f.id, n / 0x100, n % 0x100];
    DecryptIff(aead, receiver, FromWire(f.payload), AssociatedData(f.header, f.id, n), plain);
  }
}
