/** The command and response encodings of ISO/IEC 7816-4:2005, section 5.1, as apdu.py writes and reads them. */
module ApduCodec {
  import opened Basics

  const INS_GET_RESPONSE: byte := 0xC0
  const INS_ENVELOPE: byte := 0xC3
  const INS_EXCHANGE: byte := 0xC9

  const SW_SUCCESS: nat := 0x9000
  const SW_MORE_DATA: nat := 0x6100
  const SW_MORE_DATA_SW1: nat := 0x61

  /** A `Command` object. `lc` and `le` are -1 where the constructor leaves them unset; `wire` is `as_bytes`. */
  datatype Command = Command(cla: byte, ins: byte, p1: byte, p2: byte,
                             lc: int, data: Option<seq<byte>>, le: int, wire: seq<byte>)
  {
    predicate Chained() {
      HasChainBit(cla)
    }

    /** The bytes of the data field, none when there is no field. */
    function Payload(): seq<byte> {
      if data.Some? then data.value else []
    }
  }

  /** `cla & 0x10 == 0x10` */
  predicate HasChainBit(cla: nat) {
    cla / 0x10 % 2 == 1
  }

  /** `cla | 0x10` */
  function WithChainBit(cla: nat): (r: nat)
    ensures HasChainBit(r)
    ensures r == cla || r == cla + 0x10
    ensures cla < 0x100 ==> r < 0x100
  {
    if HasChainBit(cla) then cla else cla + 0x10
  }

  /** The two in terms of the masks; a class keeps all its other bits. */
  lemma ChainBitIsMask(cla: bv8)
    ensures HasChainBit(cla as nat) <==> cla & 0x10 == 0x10
    ensures WithChainBit(cla as nat) == (cla | 0x10) as nat
  {
  }

  // ---------------------------------------------------------------- encoding

  function LcField(dataLen: nat, le: Option<nat>): Result<seq<byte>>
  {
    if dataLen == 0 then Ok([])
    else if dataLen < 256 && (le.None? || le.value < 256) then Ok([dataLen])
    else if dataLen < 0x100_0000 then Ok(U24(dataLen))
    else Err(OverflowError)
  }

  function LeField(dataLen: nat, le: Option<nat>): Result<seq<byte>>
  {
    if le.None? then Ok([])
    else if le.value < 256 && dataLen < 256 then Ok([le.value])
    else if dataLen == 0 then if le.value < 0x100_0000 then Ok(U24(le.value)) else Err(OverflowError)
    else if le.value < 0x1_0000 then Ok(U16(le.value)) else Err(OverflowError)
  }

  /** `Command.create_from_parameters` */
  function Encode(cla: nat, ins: nat, p1: nat, p2: nat, data: seq<byte>, le: Option<nat>): Result<Command>
  {
    if cla > 0xFF || ins > 0xFF || p1 > 0xFF || p2 > 0xFF then Err(CreateCommandError)
    else
      match (LcField(|data|, le), LeField(|data|, le))
      case (Ok(lcField), Ok(leField)) =>
        Ok(Command(cla, ins, p1, p2,
                   if data == [] then -1 else |data|,
                   if data == [] then None else Some(data),
                   if le.Some? then le.value else -1,
                   [cla, ins, p1, p2] + (lcField + data + leField)))
      case _ => Err(OverflowError)
  }

  // ---------------------------------------------------------------- parsing

  datatype Fields = Fields(lc: nat, data: Option<seq<byte>>, le: nat)

  /** `Command._parse_data`: every index below is in range for every byte string. */
  function ParseFields(command: seq<byte>): Result<Fields>
  {
    if |command| < 4 then Err(InvalidCommandError)
    else if |command| == 4 then Ok(Fields(0, None, 0))
    else if |command| == 5 then Ok(Fields(0, None, if command[4] == 0 then 256 else command[4]))
    else if |command| == 7 && command[4] == 0 then Ok(Fields(0, None, BigEndian(command[5..7])))
    else if command[4] == 0 then
      var lc := BigEndian(Slice(command, 5, 7));
      if |command| == 7 + lc + 2 then
        Ok(Fields(lc, Some(command[7..7 + lc]), BigEndian(command[7 + lc..7 + lc + 2])))
      else if |command| == 7 + lc then
        Ok(Fields(lc, Some(command[7..7 + lc]), 0))
      else Err(InvalidLcError)
    else
      var lc: nat := command[4];
      if |command| == 5 + lc + 1 then
        var le := command[5 + lc];
        Ok(Fields(lc, Some(command[5..5 + lc]), if le == 0 then 256 else le))
      else if |command| == 5 + lc then
        Ok(Fields(lc, Some(command[5..5 + lc]), 0))
      else Err(InvalidLcError)
  }

  /** `Command.create_from_bytestring` */
  function Parse(bytes: seq<byte>): Result<Command>
  {
    match ParseFields(bytes)
    case Err(e) => Err(e)
    case Ok(f) => Ok(Command(bytes[0], bytes[1], bytes[2], bytes[3], f.lc, f.data, f.le, bytes))
  }

  // ---------------------------------------------------------------- the accepted language

  /** The seven shapes of the command body: cases 1 to 4, short and extended. */
  datatype Body =
    | Case1
    | Case2Short(le: byte)
    | Case2Extended(le2: nat)
    | Case3Short(data: seq<byte>)
    | Case3Extended(data: seq<byte>)
    | Case4Short(data: seq<byte>, le: byte)
    | Case4Extended(data: seq<byte>, le2: nat)
  {
    predicate Valid() {
      match this
      case Case1 => true
      case Case2Short(_) => true
      case Case2Extended(le2) => le2 <= 0xFFFF
      case Case3Short(data) => 1 <= |data| <= 0xFF
      case Case3Extended(data) => 1 <= |data| <= 0xFFFF
      case Case4Short(data, _) => 1 <= |data| <= 0xFF
      case Case4Extended(data, le2) => |data| <= 0xFFFF && le2 <= 0xFFFF
    }

    function LcBytes(): seq<byte>
      requires Valid()
    {
      if Case3Short? || Case4Short? then [|data|]
      else if Case3Extended? || Case4Extended? then [0] + U16(|data|)
      else []
    }

    function Payload(): seq<byte> {
      if Case1? || Case2Short? || Case2Extended? then [] else data
    }

    function LeBytes(): seq<byte>
      requires Valid()
    {
      match this
      case Case1 => []
      case Case2Short(le) => [le]
      case Case2Extended(le2) => [0] + U16(le2)
      case Case3Short(_) => []
      case Case3Extended(_) => []
      case Case4Short(_, le) => [le]
      case Case4Extended(_, le2) => U16(le2)
    }

    function Bytes(): seq<byte>
      requires Valid()
    {
      LcBytes() + Payload() + LeBytes()
    }

    function Meaning(): Fields {
      match this
      case Case1 => Fields(0, None, 0)
      case Case2Short(le) => Fields(0, None, if le == 0 then 256 else le)
      case Case2Extended(le2) => Fields(0, None, le2)
      case Case3Short(data) => Fields(|data|, Some(data), 0)
      case Case3Extended(data) => Fields(|data|, Some(data), 0)
      case Case4Short(data, le) => Fields(|data|, Some(data), if le == 0 then 256 else le)
      case Case4Extended(data, le2) => Fields(|data|, Some(data), le2)
    }
  }

  /** Every body of the grammar is accepted with its meaning. */
  lemma GrammarIsAccepted(header: seq<byte>, body: Body)
    requires |header| == 4 && body.Valid()
    ensures ParseFields(header + body.Bytes()) == Ok(body.Meaning())
  {
    match body
    case Case1 =>
    case Case2Short(_) =>
    case Case2Extended(le2) =>
      assert (header + body.Bytes())[5..7] == U16(le2);
    case Case3Short(data) => ShortIsAccepted(header, data, []);
    case Case4Short(data, le) => ShortIsAccepted(header, data, [le]);
    case Case3Extended(data) => ExtendedIsAccepted(header, data, []);
    case Case4Extended(data, le2) => ExtendedIsAccepted(header, data, U16(le2));
  }

  lemma ShortIsAccepted(header: seq<byte>, data: seq<byte>, le: seq<byte>)
    requires |header| == 4 && 1 <= |data| <= 0xFF && |le| <= 1
    ensures ParseFields(header + ([|data|] + data + le))
         == Ok(Fields(|data|, Some(data), if le == [] then 0 else if le[0] == 0 then 256 else le[0]))
  {
    Parts(header, [|data|], data, le);
  }

  lemma ExtendedIsAccepted(header: seq<byte>, data: seq<byte>, le: seq<byte>)
    requires |header| == 4 && |data| <= 0xFFFF && (|le| == 0 || |le| == 2) && (data == [] ==> le != [])
    ensures ParseFields(header + ([0] + U16(|data|) + data + le)) == Ok(Fields(|data|, Some(data), BigEndian(le)))
  {
    var command := header + ([0] + U16(|data|) + data + le);
    Parts(header, [0] + U16(|data|), data, le);
    assert Slice(command, 5, 7) == command[5..7] == U16(|data|);
  }

  lemma Parts(header: seq<byte>, lc: seq<byte>, data: seq<byte>, le: seq<byte>)
    requires |header| == 4
    ensures var c := header + (lc + data + le);
            var at := 4 + |lc|;
            && c[4..at] == lc && c[at..at + |data|] == data && c[at + |data|..] == le
            && c[at + |data|..at + |data| + |le|] == le
            && (forall i :: 0 <= i < |lc| ==> c[4 + i] == lc[i])
  {
  }

  /** Whatever is accepted is a header followed by a body of the grammar. */
  lemma AcceptedIsGrammar(command: seq<byte>) returns (body: Body)
    requires ParseFields(command).Ok?
    ensures |command| >= 4 && body.Valid() && command == command[..4] + body.Bytes()
    ensures ParseFields(command) == Ok(body.Meaning())
  {
    var n := |command|;
    if n == 4 {
      body := Case1;
    } else if n == 5 {
      body := Case2Short(command[4]);
    } else if n == 7 && command[4] == 0 {
      body := Case2Extended(BigEndian(command[5..7]));
    } else if command[4] == 0 {
      body := AcceptedExtended(command);
    } else {
      body := AcceptedShort(command);
    }
  }

  lemma AcceptedShort(command: seq<byte>) returns (body: Body)
    requires |command| > 5 && command[4] != 0 && ParseFields(command).Ok?
    ensures body.Valid() && command == command[..4] + body.Bytes()
    ensures ParseFields(command) == Ok(body.Meaning())
  {
    var lc: nat := command[4];
    if |command| == 5 + lc + 1 {
      body := Case4Short(command[5..5 + lc], command[5 + lc]);
    } else {
      body := Case3Short(command[5..5 + lc]);
    }
  }

  lemma AcceptedExtended(command: seq<byte>) returns (body: Body)
    requires |command| > 5 && |command| != 7 && command[4] == 0 && ParseFields(command).Ok?
    ensures body.Valid() && command == command[..4] + body.Bytes()
    ensures ParseFields(command) == Ok(body.Meaning())
  {
    assert |command| >= 7;
    var lc := BigEndian(command[5..7]);
    var rest := command[7 + lc..];
    assert command == command[..4] + ([0] + command[5..7] + command[7..7 + lc] + rest);
    if rest == [] {
      body := Case3Extended(command[7..7 + lc]);
    } else {
      assert rest == command[7 + lc..7 + lc + 2];
      body := Case4Extended(command[7..7 + lc], BigEndian(rest));
    }
  }

  // ---------------------------------------------------------------- round trip

  /** The Le that a parser reads back: a short zero stands for 256, an absent or extended one for itself. */
  function NormalLe(le: Option<nat>, dataLen: nat): nat
  {
    if le.None? then 0
    else if le.value == 0 && dataLen < 256 then 256
    else le.value
  }

  predicate Representable(data: seq<byte>, le: Option<nat>) {
    |data| <= 0xFFFF && (le.Some? ==> le.value <= 0xFFFF)
  }

  /** The shape that the encoder chooses. */
  function BodyOf(data: seq<byte>, le: Option<nat>): (body: Body)
    requires Representable(data, le)
    ensures body.Valid()
  {
    if data == [] then
      match le
      case None => Case1
      case Some(v) => if v < 256 then Case2Short(v) else Case2Extended(v)
    else
      match le
      case None => if |data| < 256 then Case3Short(data) else Case3Extended(data)
      case Some(v) => if |data| < 256 && v < 256 then Case4Short(data, v) else Case4Extended(data, v)
  }

  lemma EncodeWritesBody(cla: byte, ins: byte, p1: byte, p2: byte, data: seq<byte>, le: Option<nat>)
    requires Representable(data, le)
    ensures var c := Encode(cla, ins, p1, p2, data, le);
            c.Ok? && c.value.wire == [cla, ins, p1, p2] + BodyOf(data, le).Bytes()
  {
    var body := BodyOf(data, le);
    assert LcField(|data|, le).Ok? && LcField(|data|, le).value == body.LcBytes();
    assert LeField(|data|, le).Ok? && LeField(|data|, le).value == body.LeBytes();
    assert body.Payload() == data;
  }

  lemma CommandRoundTrip(cla: byte, ins: byte, p1: byte, p2: byte, data: seq<byte>, le: Option<nat>)
    requires Representable(data, le)
    ensures Encode(cla, ins, p1, p2, data, le).Ok?
    ensures var wire := Encode(cla, ins, p1, p2, data, le).value.wire;
            Parse(wire) == Ok(Command(cla, ins, p1, p2, |data|, if data == [] then None else Some(data),
                                      NormalLe(le, |data|), wire))
  {
    EncodeWritesBody(cla, ins, p1, p2, data, le);
    GrammarIsAccepted([cla, ins, p1, p2], BodyOf(data, le));
  }

  /** Past 65535 bytes of data the encoder still answers, and no parser accepts what it wrote. */
  lemma OversizedDataIsRejected(cla: byte, ins: byte, p1: byte, p2: byte, data: seq<byte>, le: Option<nat>)
    requires 0xFFFF < |data| < 0x100_0000
    requires le.Some? ==> le.value <= 0xFFFF
    ensures Encode(cla, ins, p1, p2, data, le).Ok?
    ensures Parse(Encode(cla, ins, p1, p2, data, le).value.wire) == Err(InvalidLcError)
  {
    var wire := Encode(cla, ins, p1, p2, data, le).value.wire;
    assert wire[4] == |data| / 0x1_0000 != 0;
  }

  /** The encoder keeps apart even the commands that the parser's Le normalisation merges. */
  lemma EncodeInjective(cla: byte, ins: byte, p1: byte, p2: byte, data: seq<byte>, le: Option<nat>,
                        cla': byte, ins': byte, p1': byte, p2': byte, data': seq<byte>, le': Option<nat>)
    requires Representable(data, le) && Representable(data', le')
    requires Encode(cla, ins, p1, p2, data, le).Ok? && Encode(cla', ins', p1', p2', data', le').Ok?
    requires Encode(cla, ins, p1, p2, data, le).value.wire == Encode(cla', ins', p1', p2', data', le').value.wire
    ensures cla == cla' && ins == ins' && p1 == p1' && p2 == p2' && data == data' && le == le'
  {
    CommandRoundTrip(cla, ins, p1, p2, data, le);
    CommandRoundTrip(cla', ins', p1', p2', data', le');
    var wire := Encode(cla, ins, p1, p2, data, le).value.wire;
    assert |wire| == 4 + |LcField(|data|, le).value| + |data| + |LeField(|data|, le).value|;
    assert |wire| == 4 + |LcField(|data|, le').value| + |data| + |LeField(|data|, le').value|;
  }

  // ---------------------------------------------------------------- responses

  /** A `Response` object; `wire` is `as_bytes`. */
  datatype Response = Response(data: Option<seq<byte>>, status: nat, wire: seq<byte>)
  {
    function Payload(): seq<byte> {
      if data.Some? then data.value else []
    }
  }

  function Sw1(status: nat): nat {
    status / 0x100 % 0x100
  }

  function Sw2(status: nat): nat {
    status % 0x100
  }

  /** `Response.create_from_parameters` */
  function EncodeResponse(data: Option<seq<byte>>, status: nat): Result<Response>
  {
    if status > 0xFFFF then Err(CreateResponseError)
    else
      var payload := if data.Some? then data.value else [];
      Ok(Response(data, status, payload + U16(status)))
  }

  /** `Response.create_from_bytestring` */
  function ParseResponse(bytes: seq<byte>): Result<Response>
  {
    if |bytes| < 2 then Err(CreateResponseError)
    else
      var n := |bytes|;
      Ok(Response(if n > 2 then Some(bytes[..n - 2]) else None, BigEndian(bytes[n - 2..]), bytes))
  }

  lemma ResponseBytesRoundTrip(payload: seq<byte>, status: nat)
    requires status <= 0xFFFF
    ensures var wire := payload + U16(status);
            ParseResponse(wire) == Ok(Response(if payload == [] then None else Some(payload), status, wire))
  {
    var wire := payload + U16(status);
    assert wire[..|wire| - 2] == payload && wire[|wire| - 2..] == U16(status);
    BigEndianU16(status);
  }

  /** An empty data field is read back as no data field; everything else survives. */
  lemma ResponseRoundTrip(data: Option<seq<byte>>, status: nat)
    requires status <= 0xFFFF
    ensures EncodeResponse(data, status).Ok?
    ensures var r := EncodeResponse(data, status).value;
            ParseResponse(r.wire) == Ok(Response(if r.Payload() == [] then None else data, status, r.wire))
  {
    ResponseBytesRoundTrip(EncodeResponse(data, status).value.Payload(), status);
  }
}
