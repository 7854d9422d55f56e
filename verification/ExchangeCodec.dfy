/** The payload of an EXCHANGE as bytes: how the reader builds it, and how the device parses it. */
module ExchangeCodec {
  import opened Basics
  import opened MailboxExchange
  import opened Tlv
  import opened UserMachine

  const TAG_ATOMIC: nat := 0x8C
  const TAG_READ: nat := 0x87
  const TAG_WRITE: nat := 0x8A
  const TAG_SET: nat := 0x95
  const TAG_MAILBOX: nat := 0xBA
  const TAG_NOTIFY: nat := 0xAE
  const TAG_READER_STATUS: nat := 0x97
  const TAG_URSK: nat := 0x98
  const TAG_READER_ERROR: nat := 0x82
  const TAG_READER_DESCRIPTOR: nat := 0xB5
  const TAG_READER_VENDOR_ID: nat := 0x04
  const TAG_READER_PRODUCT_ID: nat := 0x80
  const TAG_READER_FIRMWARE_VERSION: nat := 0x81

  const READER_STATUS_VALUES: set<nat> := {
    0x0001, 0x0002, 0x0003, 0x0004, 0x0006, 0x0007, 0x0020, 0x0021, 0x0022, 0x0023, 0x0025, 0x0026,
    0x0100, 0x0101, 0x0102, 0x0180, 0x0181, 0x0182
  }

  // ---------------------------------------------------------------- objects

  type Pair = (nat, seq<byte>)

  /** Stands for the library parser: complete objects with tags of one or two bytes and lengths of one to three. */
  function ParseObjs(s: seq<byte>, i: nat): Option<seq<Pair>>
    decreases |s| - i
  {
    if i >= |s| then Some([])
    else
      match ReadTag(s, i)
      case None => None
      case Some((tag, at)) =>
        var (length, next) := ReadLength(s, at);
        if at >= |s| || next + length > |s| then None
        else
          match ParseObjs(s, next + length)
          case None => None
          case Some(rest) => Some([(tag, s[next..next + length])] + rest)
  }

  function Pairs(objs: seq<Obj>): (r: seq<Pair>)
    ensures |r| == |objs|
  {
    if objs == [] then [] else [(objs[0].tag, objs[0].value)] + Pairs(objs[1..])
  }

  lemma ParseStep(s: seq<byte>, i: nat, tag: nat, at: nat, value: seq<byte>, next: nat, end: nat, rest: seq<Pair>)
    requires i < |s| && ReadTag(s, i) == Some((tag, at)) && at < |s| && ReadLength(s, at) == (|value|, next)
    requires end == next + |value| <= |s| && s[next..end] == value && ParseObjs(s, end) == Some(rest)
    ensures ParseObjs(s, i) == Some([(tag, value)] + rest)
  {
  }

  lemma {:induction false} ParsesObjects(s: seq<byte>, i: nat, objs: seq<Obj>)
    requires AllValid(objs) && i <= |s| && s[i..] == ObjBytes(objs)
    ensures ParseObjs(s, i) == Some(Pairs(objs))
    decreases |objs|
  {
    if objs != [] {
      var o := objs[0];
      HeadBytes(s, i, objs);
      var end := i + |o.Bytes()|;
      ParsesObjects(s, end, objs[1..]);
      ParsesOne(s, i, end, o, Pairs(objs[1..]));
    }
  }

  lemma ParsesOne(s: seq<byte>, i: nat, end: nat, o: Obj, rest: seq<Pair>)
    requires o.Valid() && At(s, i, o.Bytes()) && end == i + |o.Bytes()| && ParseObjs(s, end) == Some(rest)
    ensures ParseObjs(s, i) == Some([(o.tag, o.value)] + rest)
  {
    var at, next := ObjectAt(s, i, o);
    ParseStep(s, i, o.tag, at, o.value, next, end, rest);
  }

  lemma ObjectAt(s: seq<byte>, i: nat, o: Obj) returns (at: nat, next: nat)
    requires o.Valid() && At(s, i, o.Bytes())
    ensures i < |s| && ReadTag(s, i) == Some((o.tag, at)) && at < |s| && ReadLength(s, at) == (|o.value|, next)
    ensures next + |o.value| == i + |o.Bytes()| <= |s| && s[next..next + |o.value|] == o.value
  {
    at, next := ReadsObject(s, i, o);
    ReadsValue(s, i, o);
  }

  /** `get_all_bytes_of_tag` */
  function ValuesOf(pairs: seq<Pair>, tag: nat): seq<seq<byte>>
  {
    if pairs == [] then [] else (if pairs[0].0 == tag then [pairs[0].1] else []) + ValuesOf(pairs[1..], tag)
  }

  function First(pairs: seq<Pair>, tag: nat): Option<seq<byte>> {
    var values := ValuesOf(pairs, tag);
    if values == [] then None else Some(values[0])
  }

  predicate AllOfLength(values: seq<seq<byte>>, length: nat) {
    forall i :: 0 <= i < |values| ==> |values[i]| == length
  }

  predicate AllZeroBytes(s: seq<byte>) {
    forall i :: 0 <= i < |s| ==> s[i] == 0
  }

  // ---------------------------------------------------------------- the device

  function ParseMailbox(bytes: seq<byte>): Result<Requests>
  {
    var refused := Verify(bytes, 0, EXCHANGE_CMD_BA, ExpectedTags(EXCHANGE_CMD_BA), []);
    if refused.Some? then Err(refused.value)
    else
      match ParseObjs(bytes, 0)
      case None => Err(TlvError)
      case Some(pairs) =>
        match First(pairs, TAG_ATOMIC)
        case None => Err(InvalidCommandDataError)
        case Some(atomic) =>
          var readRequests, setRequests := ValuesOf(pairs, TAG_READ), ValuesOf(pairs, TAG_SET);
          if |atomic| != 1 || !AllOfLength(readRequests, 4) || !AllOfLength(setRequests, 5) then
            Err(InvalidCommandDataError)
          else Ok(Requests(Some(!AllZeroBytes(atomic)), readRequests, ValuesOf(pairs, TAG_WRITE), setRequests))
  }

  function ParseStatus(status: Option<seq<byte>>): Result<Option<nat>>
  {
    match status
    case None => Ok(None)
    case Some(s) =>
      if |s| != 2 || BigEndian(s) !in READER_STATUS_VALUES then Err(InvalidCommandDataError) else Ok(Some(BigEndian(s)))
  }

  function Tags(pairs: seq<Pair>): seq<nat>
  {
    if pairs == [] then [] else [pairs[0].0] + Tags(pairs[1..])
  }

  /** The error, if any, that a reader descriptor in a notification raises. */
  function DescriptorRefused(descriptor: Option<seq<byte>>): Option<Error>
  {
    match descriptor
    case None => None
    case Some(bytes) =>
      var refused := Verify(bytes, 0, EXCHANGE_CMD_B5, ExpectedTags(EXCHANGE_CMD_B5), []);
      if refused.Some? then refused
      else
        match ParseObjs(bytes, 0)
        case None => Some(TlvError)
        case Some(pairs) =>
          var vendor := First(pairs, TAG_READER_VENDOR_ID);
          if vendor.None? || |vendor.value| != 3 then Some(InvalidCommandDataError)
          else if First(pairs, TAG_READER_PRODUCT_ID).None? then Some(InvalidCommandDataError)
          else if First(pairs, TAG_READER_FIRMWARE_VERSION).None? then Some(InvalidCommandDataError)
          else None
  }

  function ParseNotify(notify: Option<seq<byte>>): Result<seq<nat>>
  {
    match notify
    case None => Ok([])
    case Some(bytes) =>
      if |bytes| > 250 then Err(InvalidCommandDataError)
      else
        var refused := Verify(bytes, 0, EXCHANGE_CMD_AE, ExpectedTags(EXCHANGE_CMD_AE), []);
        if refused.Some? then Err(refused.value)
        else
          match ParseObjs(bytes, 0)
          case None => Err(TlvError)
          case Some(pairs) =>
            var error := First(pairs, TAG_READER_ERROR);
            if error.Some? && |error.value| != 2 then Err(InvalidCommandDataError)
            else
              var raised := DescriptorRefused(First(pairs, TAG_READER_DESCRIPTOR));
              if raised.Some? then Err(raised.value) else Ok(Tags(pairs))
  }

  /** What `parse_as_exchange` makes of a decrypted payload. */
  function ParseExchange(plain: seq<byte>): Result<Content>
  {
    var refused := Verify(plain, 0, EXCHANGE_CMD, ExpectedTags(EXCHANGE_CMD), []);
    if refused.Some? then Err(refused.value)
    else
      match ParseObjs(plain, 0)
      case None => Err(TlvError)
      case Some(pairs) =>
        var mailbox := First(pairs, TAG_MAILBOX);
        match (if mailbox.None? then Ok(Requests(None, [], [], [])) else ParseMailbox(mailbox.value),
               ParseStatus(First(pairs, TAG_READER_STATUS)), ParseNotify(First(pairs, TAG_NOTIFY)))
        case (Err(e), _, _) => Err(e)
        case (_, Err(e), _) => Err(e)
        case (_, _, Err(e)) => Err(e)
        case (Ok(requests), Ok(status), Ok(tags)) =>
          var ursk := First(pairs, TAG_URSK);
          if ursk.Some? && ursk.value != [] then Err(InvalidCommandDataError)
          else Ok(Content(requests, status, ursk.Some?, tags))
  }

  /** Whatever is parsed has requests of the right lengths. */
  lemma ParsedRequests(plain: seq<byte>)
    requires ParseExchange(plain).Ok?
    ensures ParseExchange(plain).value.requests.Parsed()
  {
  }

  /** Errors of the parsers: the TLV error, IndexError, or that of the command data. */
  predicate OfParser(e: Error) {
    e.TlvError? || e.IndexError? || e.InvalidCommandDataError?
  }

  lemma NextErrors(s: seq<byte>, i: nat, idx: TlvIndex, checked: seq<nat>, tags: seq<nat>)
    requires i < |s| && |checked| == |ExpectedLength(idx)|
    ensures var step := NextObject(s, i, idx, checked, tags); step.Raise? ==> OfParser(step.error)
  {
  }

  lemma {:induction false} VerifyErrors(s: seq<byte>, i: nat, idx: TlvIndex, checked: seq<nat>, tags: seq<nat>)
    requires |checked| == |ExpectedLength(idx)|
    ensures var e := Verify(s, i, idx, checked, tags); e.Some? ==> OfParser(e.value)
    decreases |s| - i
  {
    if i < |s| {
      var step := NextObject(s, i, idx, checked, tags);
      NextErrors(s, i, idx, checked, tags);
      VerifyRound(s, i, idx, checked, tags, step);
      if step.Go? {
        VerifyErrors(s, step.next, idx, step.checked, step.tags);
      }
    }
  }

  lemma MailboxErrors(bytes: seq<byte>)
    ensures ParseMailbox(bytes).Err? ==> OfParser(ParseMailbox(bytes).error)
  {
    VerifyErrors(bytes, 0, EXCHANGE_CMD_BA, ExpectedTags(EXCHANGE_CMD_BA), []);
  }

  lemma DescriptorErrors(bytes: seq<byte>)
    ensures DescriptorRefused(Some(bytes)).Some? ==> OfParser(DescriptorRefused(Some(bytes)).value)
  {
    VerifyErrors(bytes, 0, EXCHANGE_CMD_B5, ExpectedTags(EXCHANGE_CMD_B5), []);
  }

  lemma NotifyErrors(bytes: seq<byte>)
    ensures ParseNotify(Some(bytes)).Err? ==> OfParser(ParseNotify(Some(bytes)).error)
  {
    VerifyErrors(bytes, 0, EXCHANGE_CMD_AE, ExpectedTags(EXCHANGE_CMD_AE), []);
    var pairs := ParseObjs(bytes, 0);
    if pairs.Some? {
      var descriptor := First(pairs.value, TAG_READER_DESCRIPTOR);
      DescriptorErrors(if descriptor.Some? then descriptor.value else []);
    }
  }

  /** What parsing raises is not what a loop passes over. */
  lemma ParseErrors(plain: seq<byte>)
    ensures ParseExchange(plain).Err? ==> OfParser(ParseExchange(plain).error)
  {
    VerifyErrors(plain, 0, EXCHANGE_CMD, ExpectedTags(EXCHANGE_CMD), []);
    var pairs := ParseObjs(plain, 0);
    if pairs.Some? {
      var mailbox, notify := First(pairs.value, TAG_MAILBOX), First(pairs.value, TAG_NOTIFY);
      MailboxErrors(if mailbox.Some? then mailbox.value else []);
      NotifyErrors(if notify.Some? then notify.value else []);
    }
  }

  // ---------------------------------------------------------------- the reader

  /** The requests that a caller hands to `Reader.handle_exchange`. */
  datatype Wanted = Wanted(readRequests: seq<(nat, nat)>, writeRequests: seq<(nat, seq<byte>)>,
                           setRequests: seq<(nat, nat, nat)>)
  {
    /** Every number fits its field. */
    predicate Encodable() {
      && (forall i :: 0 <= i < |readRequests| ==> readRequests[i].0 < 0x1_0000 && readRequests[i].1 < 0x1_0000)
      && (forall i :: 0 <= i < |writeRequests| ==> writeRequests[i].0 < 0x1_0000 && |writeRequests[i].1| < 0x1_0000 - 2)
      && (forall i :: 0 <= i < |setRequests| ==>
            setRequests[i].0 < 0x1_0000 && setRequests[i].1 < 0x1_0000 && setRequests[i].2 < 0x100)
    }

    predicate Empty() {
      readRequests == [] && writeRequests == [] && setRequests == []
    }
  }

  /** The shortest form of the length, as the library builds it. */
  function Canonical(tag: nat, value: seq<byte>): (o: Obj)
    requires |value| < 0x1_0000
    ensures (0x20 <= tag < 0x100 && tag % 0x20 != 0x1F) ==> o.Valid()
    ensures o.tag == tag && o.value == value
  {
    Obj(tag, if |value| < 0x80 then Short else if |value| < 0x100 then Long1 else Long2, value)
  }

  function ReadObjs(w: seq<(nat, nat)>): (objs: seq<Obj>)
    requires forall i :: 0 <= i < |w| ==> w[i].0 < 0x1_0000 && w[i].1 < 0x1_0000
    ensures |objs| == |w| && AllValid(objs)
    ensures forall i :: 0 <= i < |objs| ==> objs[i] == Canonical(TAG_READ, U16(w[i].0) + U16(w[i].1))
  {
    if w == [] then []
    else
      var n := |w| - 1;
      ReadObjs(w[..n]) + [Canonical(TAG_READ, U16(w[n].0) + U16(w[n].1))]
  }

  function WriteObjs(w: seq<(nat, seq<byte>)>): (objs: seq<Obj>)
    requires forall i :: 0 <= i < |w| ==> w[i].0 < 0x1_0000 && |w[i].1| < 0x1_0000 - 2
    ensures |objs| == |w| && AllValid(objs)
    ensures forall i :: 0 <= i < |objs| ==> objs[i] == Canonical(TAG_WRITE, U16(w[i].0) + w[i].1)
  {
    if w == [] then []
    else
      var n := |w| - 1;
      WriteObjs(w[..n]) + [Canonical(TAG_WRITE, U16(w[n].0) + w[n].1)]
  }

  function SetObjs(w: seq<(nat, nat, nat)>): (objs: seq<Obj>)
    requires forall i :: 0 <= i < |w| ==> w[i].0 < 0x1_0000 && w[i].1 < 0x1_0000 && w[i].2 < 0x100
    ensures |objs| == |w| && AllValid(objs)
    ensures forall i :: 0 <= i < |objs| ==> objs[i] == Canonical(TAG_SET, U16(w[i].0) + U16(w[i].1) + [w[i].2])
  {
    if w == [] then []
    else
      var n := |w| - 1;
      SetObjs(w[..n]) + [Canonical(TAG_SET, U16(w[n].0) + U16(w[n].1) + [w[n].2])]
  }

  /** Every number that the reader writes in one or two bytes fits. */
  predicate NumbersFit(w: Wanted) {
    && (forall i :: 0 <= i < |w.readRequests| ==> w.readRequests[i].0 < 0x1_0000 && w.readRequests[i].1 < 0x1_0000)
    && (forall i :: 0 <= i < |w.writeRequests| ==> w.writeRequests[i].0 < 0x1_0000)
    && (forall i :: 0 <= i < |w.setRequests| ==>
          w.setRequests[i].0 < 0x1_0000 && w.setRequests[i].1 < 0x1_0000 && w.setRequests[i].2 < 0x100)
  }

  function ReadPairs(w: seq<(nat, nat)>): seq<Pair>
    requires forall i :: 0 <= i < |w| ==> w[i].0 < 0x1_0000 && w[i].1 < 0x1_0000
  {
    seq(|w|, i requires 0 <= i < |w| => (TAG_READ, U16(w[i].0) + U16(w[i].1)))
  }

  function WritePairs(w: seq<(nat, seq<byte>)>): seq<Pair>
    requires forall i :: 0 <= i < |w| ==> w[i].0 < 0x1_0000
  {
    seq(|w|, i requires 0 <= i < |w| => (TAG_WRITE, U16(w[i].0) + w[i].1))
  }

  function SetPairs(w: seq<(nat, nat, nat)>): seq<Pair>
    requires forall i :: 0 <= i < |w| ==> w[i].0 < 0x1_0000 && w[i].1 < 0x1_0000 && w[i].2 < 0x100
  {
    seq(|w|, i requires 0 <= i < |w| => (TAG_SET, U16(w[i].0) + U16(w[i].1) + [w[i].2]))
  }

  /** The list that `handle_exchange` builds: the reads, the writes and then the sets, or the overflow of a number. */
  method BuildRequests(w: Wanted) returns (r: Result<seq<Pair>>)
    ensures r.Ok? <==> NumbersFit(w)
    ensures r.Ok? ==> r.value == ReadPairs(w.readRequests) + WritePairs(w.writeRequests) + SetPairs(w.setRequests)
    ensures r.Err? ==> r.error == OverflowError
  {
    var readPairs := BuildReads(w.readRequests);
    if readPairs.Err? {
      return readPairs;
    }
    var writePairs := BuildWrites(w.writeRequests);
    if writePairs.Err? {
      return writePairs;
    }
    var setPairs := BuildSets(w.setRequests);
    if setPairs.Err? {
      return setPairs;
    }
    return Ok(readPairs.value + writePairs.value + setPairs.value);
  }

  method BuildReads(w: seq<(nat, nat)>) returns (r: Result<seq<Pair>>)
    ensures r.Ok? <==> forall i :: 0 <= i < |w| ==> w[i].0 < 0x1_0000 && w[i].1 < 0x1_0000
    ensures r.Ok? ==> r.value == ReadPairs(w)
    ensures r.Err? ==> r.error == OverflowError
  {
    var pairs: seq<Pair> := [];
    for i := 0 to |w|
      invariant forall j :: 0 <= j < i ==> w[j].0 < 0x1_0000 && w[j].1 < 0x1_0000
      invariant |pairs| == i && forall j :: 0 <= j < i ==> pairs[j] == (TAG_READ, U16(w[j].0) + U16(w[j].1))
    {
      if w[i].0 >= 0x1_0000 || w[i].1 >= 0x1_0000 {
        return Err(OverflowError);
      }
      pairs := pairs + [(TAG_READ, U16(w[i].0) + U16(w[i].1))];
    }
    return Ok(pairs);
  }

  method BuildWrites(w: seq<(nat, seq<byte>)>) returns (r: Result<seq<Pair>>)
    ensures r.Ok? <==> forall i :: 0 <= i < |w| ==> w[i].0 < 0x1_0000
    ensures r.Ok? ==> r.value == WritePairs(w)
    ensures r.Err? ==> r.error == OverflowError
  {
    var pairs: seq<Pair> := [];
    for i := 0 to |w|
      invariant forall j :: 0 <= j < i ==> w[j].0 < 0x1_0000
      invariant |pairs| == i && forall j :: 0 <= j < i ==> pairs[j] == (TAG_WRITE, U16(w[j].0) + w[j].1)
    {
      if w[i].0 >= 0x1_0000 {
        return Err(OverflowError);
      }
      pairs := pairs + [(TAG_WRITE, U16(w[i].0) + w[i].1)];
    }
    return Ok(pairs);
  }

  method BuildSets(w: seq<(nat, nat, nat)>) returns (r: Result<seq<Pair>>)
    ensures r.Ok? <==> forall i :: 0 <= i < |w| ==> w[i].0 < 0x1_0000 && w[i].1 < 0x1_0000 && w[i].2 < 0x100
    ensures r.Ok? ==> r.value == SetPairs(w)
    ensures r.Err? ==> r.error == OverflowError
  {
    var pairs: seq<Pair> := [];
    for i := 0 to |w|
      invariant forall j :: 0 <= j < i ==> w[j].0 < 0x1_0000 && w[j].1 < 0x1_0000 && w[j].2 < 0x100
      invariant |pairs| == i && forall j :: 0 <= j < i ==> pairs[j] == (TAG_SET, U16(w[j].0) + U16(w[j].1) + [w[j].2])
    {
      var (offset, length, value) := w[i];
      if offset >= 0x1_0000 || length >= 0x1_0000 || value >= 0x100 {
        return Err(OverflowError);
      }
      pairs := pairs + [(TAG_SET, U16(offset) + U16(length) + [value])];
    }
    return Ok(pairs);
  }

  /** The objects of that list, where the library writes the lengths that are modelled. */
  lemma RequestObjs(w: Wanted)
    requires w.Encodable()
    ensures Pairs(ReadObjs(w.readRequests) + WriteObjs(w.writeRequests) + SetObjs(w.setRequests))
         == ReadPairs(w.readRequests) + WritePairs(w.writeRequests) + SetPairs(w.setRequests)
  {
    var a, b, c := ReadObjs(w.readRequests), WriteObjs(w.writeRequests), SetObjs(w.setRequests);
    PairsConcat(a + b, c);
    PairsConcat(a, b);
    PairsAre(a, ReadPairs(w.readRequests));
    PairsAre(b, WritePairs(w.writeRequests));
    PairsAre(c, SetPairs(w.setRequests));
  }

  lemma {:induction false} PairsAre(objs: seq<Obj>, pairs: seq<Pair>)
    requires |objs| == |pairs| && forall i :: 0 <= i < |objs| ==> (objs[i].tag, objs[i].value) == pairs[i]
    ensures Pairs(objs) == pairs
  {
    if objs != [] {
      PairsAre(objs[1..], pairs[1..]);
      assert pairs == [pairs[0]] + pairs[1..];
    }
  }

  /** The mailbox commands: the atomic flag, then reads, writes and sets. */
  function MailboxObjs(w: Wanted, atomic: bool): (objs: seq<Obj>)
    requires w.Encodable()
    ensures AllValid(objs)
  {
    [Canonical(TAG_ATOMIC, [if atomic then 1 else 0])]
    + (ReadObjs(w.readRequests) + WriteObjs(w.writeRequests) + SetObjs(w.setRequests))
  }

  /** `handle_exchange` sends a mailbox object only if there is a request. */
  function PayloadObjs(w: Wanted, atomic: bool): (objs: seq<Obj>)
    requires w.Encodable() && |ObjBytes(MailboxObjs(w, atomic))| < 0x1_0000
    ensures AllValid(objs)
  {
    if w.Empty() then [] else [Canonical(TAG_MAILBOX, ObjBytes(MailboxObjs(w, atomic)))]
  }

  function Payload(w: Wanted, atomic: bool): seq<byte>
    requires w.Encodable() && |ObjBytes(MailboxObjs(w, atomic))| < 0x1_0000
  {
    ObjBytes(PayloadObjs(w, atomic))
  }

  // ---------------------------------------------------------------- the device understands the reader

  function Values(objs: seq<Obj>): (r: seq<seq<byte>>)
    ensures |r| == |objs| && forall i :: 0 <= i < |r| ==> r[i] == objs[i].value
  {
    if objs == [] then [] else [objs[0].value] + Values(objs[1..])
  }

  predicate AllTagged(objs: seq<Obj>, tag: nat) {
    forall i :: 0 <= i < |objs| ==> objs[i].tag == tag
  }

  lemma {:induction false} PairsConcat(a: seq<Obj>, b: seq<Obj>)
    ensures Pairs(a + b) == Pairs(a) + Pairs(b)
  {
    if a == [] {
      assert [] + b == b;
    } else {
      assert (a + b)[1..] == a[1..] + b;
      PairsConcat(a[1..], b);
    }
  }

  lemma {:induction false} ValuesOfConcat(a: seq<Pair>, b: seq<Pair>, tag: nat)
    ensures ValuesOf(a + b, tag) == ValuesOf(a, tag) + ValuesOf(b, tag)
  {
    if a == [] {
      assert [] + b == b;
    } else {
      assert (a + b)[1..] == a[1..] + b;
      ValuesOfConcat(a[1..], b, tag);
      var head := if a[0].0 == tag then [a[0].1] else [];
      assert head + (ValuesOf(a[1..], tag) + ValuesOf(b, tag)) == head + ValuesOf(a[1..], tag) + ValuesOf(b, tag);
    }
  }

  lemma {:induction false} ValuesOfTagged(objs: seq<Obj>, t: nat, tag: nat)
    requires AllTagged(objs, t)
    ensures ValuesOf(Pairs(objs), tag) == if t == tag then Values(objs) else []
  {
    if objs != [] {
      ValuesOfTagged(objs[1..], t, tag);
    }
  }

  /** The values with a tag, in four groups of objects of one tag each. */
  lemma ValuesOfGroups(a: seq<Obj>, b: seq<Obj>, c: seq<Obj>, d: seq<Obj>, ta: nat, tb: nat, tc: nat, td: nat, tag: nat)
    requires AllTagged(a, ta) && AllTagged(b, tb) && AllTagged(c, tc) && AllTagged(d, td)
    ensures ValuesOf(Pairs(a + (b + c + d)), tag)
         == (if ta == tag then Values(a) else []) + ((if tb == tag then Values(b) else [])
            + (if tc == tag then Values(c) else []) + (if td == tag then Values(d) else []))
  {
    PairsConcat(a, b + c + d);
    PairsConcat(b + c, d);
    PairsConcat(b, c);
    ValuesOfConcat(Pairs(a), Pairs(b + c + d), tag);
    ValuesOfConcat(Pairs(b + c), Pairs(d), tag);
    ValuesOfConcat(Pairs(b), Pairs(c), tag);
    ValuesOfTagged(a, ta, tag);
    ValuesOfTagged(b, tb, tag);
    ValuesOfTagged(c, tc, tag);
    ValuesOfTagged(d, td, tag);
  }

  /** The requests as the device gets them. */
  function RequestsOf(w: Wanted, atomic: bool): Requests
    requires w.Encodable()
  {
    Requests(Some(atomic), Values(ReadObjs(w.readRequests)), Values(WriteObjs(w.writeRequests)),
             Values(SetObjs(w.setRequests)))
  }

  lemma MailboxIndex()
    ensures IndexOf(ExpectedTags(EXCHANGE_CMD_BA), TAG_ATOMIC) == 0
            && IndexOf(ExpectedTags(EXCHANGE_CMD_BA), TAG_READ) == 1
    ensures IndexOf(ExpectedTags(EXCHANGE_CMD_BA), TAG_WRITE) == 2
            && IndexOf(ExpectedTags(EXCHANGE_CMD_BA), TAG_SET) == 3
  {
    var tags := ExpectedTags(EXCHANGE_CMD_BA);
    assert tags[0] == TAG_ATOMIC && tags[1] == TAG_READ && tags[2] == TAG_WRITE && tags[3] == TAG_SET;
    IndexIs(tags, TAG_ATOMIC, 0);
    IndexIs(tags, TAG_READ, 1);
    IndexIs(tags, TAG_WRITE, 2);
    IndexIs(tags, TAG_SET, 3);
  }

  /** An object that the checker of mailbox commands accepts. */
  predicate MailboxObj(o: Obj) {
    && (o.tag == TAG_ATOMIC || o.tag == TAG_READ || o.tag == TAG_WRITE || o.tag == TAG_SET)
    && (o.tag == TAG_ATOMIC ==> |o.value| == 1) && (o.tag == TAG_READ ==> |o.value| == 4)
    && (o.tag == TAG_SET ==> |o.value| == 5)
  }

  lemma MailboxObjFits(o: Obj)
    requires MailboxObj(o)
    ensures o.tag in ExpectedTags(EXCHANGE_CMD_BA) && FitsTable(EXCHANGE_CMD_BA, ExpectedTags(EXCHANGE_CMD_BA), o)
  {
    MailboxIndex();
  }

  lemma MailboxVerifies(objs: seq<Obj>)
    requires AllValid(objs) && forall o :: o in objs ==> MailboxObj(o)
    ensures Verify(ObjBytes(objs), 0, EXCHANGE_CMD_BA, ExpectedTags(EXCHANGE_CMD_BA), []).None?
  {
    TableIs(EXCHANGE_CMD_BA, objs);
    OnlyNotificationsHaveWildcard(EXCHANGE_CMD_BA);
    forall o | o in objs
      ensures o.tag in ExpectedTags(EXCHANGE_CMD_BA) && FitsTable(EXCHANGE_CMD_BA, ExpectedTags(EXCHANGE_CMD_BA), o)
    {
      MailboxObjFits(o);
    }
    MetFromStart(EXCHANGE_CMD_BA, objs);
    VerifyMeetsSpecification(EXCHANGE_CMD_BA, objs);
  }

  lemma MailboxObjsAre(w: Wanted, atomic: bool)
    requires w.Encodable()
    ensures forall o :: o in MailboxObjs(w, atomic) ==> MailboxObj(o)
  {
  }

  lemma MailboxRoundTrip(w: Wanted, atomic: bool)
    requires w.Encodable()
    ensures ParseMailbox(ObjBytes(MailboxObjs(w, atomic))) == Ok(RequestsOf(w, atomic))
  {
    var objs := MailboxObjs(w, atomic);
    MailboxObjsAre(w, atomic);
    MailboxVerifies(objs);
    ParsesAll(objs);
    MailboxParses(w, atomic, ObjBytes(objs), Pairs(objs));
  }

  lemma ParsesAll(objs: seq<Obj>)
    requires AllValid(objs)
    ensures ParseObjs(ObjBytes(objs), 0) == Some(Pairs(objs))
  {
    assert ObjBytes(objs)[0..] == ObjBytes(objs);
    ParsesObjects(ObjBytes(objs), 0, objs);
  }

  lemma MailboxParses(w: Wanted, atomic: bool, bytes: seq<byte>, pairs: seq<Pair>)
    requires w.Encodable() && pairs == Pairs(MailboxObjs(w, atomic))
    requires Verify(bytes, 0, EXCHANGE_CMD_BA, ExpectedTags(EXCHANGE_CMD_BA), []).None?
             && ParseObjs(bytes, 0) == Some(pairs)
    ensures ParseMailbox(bytes) == Ok(RequestsOf(w, atomic))
  {
    var flag: seq<byte> := [if atomic then 1 else 0];
    MailboxValues(w, atomic);
    FlagRoundTrip(atomic);
    ParseMailboxIs(bytes, pairs, flag, Values(ReadObjs(w.readRequests)), Values(WriteObjs(w.writeRequests)),
                   Values(SetObjs(w.setRequests)));
  }

  lemma ParseMailboxIs(bytes: seq<byte>, pairs: seq<Pair>, flag: seq<byte>, readRequests: seq<seq<byte>>,
                       writeRequests: seq<seq<byte>>, setRequests: seq<seq<byte>>)
    requires Verify(bytes, 0, EXCHANGE_CMD_BA, ExpectedTags(EXCHANGE_CMD_BA), []).None?
             && ParseObjs(bytes, 0) == Some(pairs)
    requires ValuesOf(pairs, TAG_ATOMIC) == [flag] && |flag| == 1
    requires ValuesOf(pairs, TAG_READ) == readRequests && AllOfLength(readRequests, 4)
    requires ValuesOf(pairs, TAG_WRITE) == writeRequests
    requires ValuesOf(pairs, TAG_SET) == setRequests && AllOfLength(setRequests, 5)
    ensures ParseMailbox(bytes) == Ok(Requests(Some(!AllZeroBytes(flag)), readRequests, writeRequests, setRequests))
  {
  }

  lemma FlagRoundTrip(atomic: bool)
    ensures var flag: seq<byte> := [if atomic then 1 else 0]; !AllZeroBytes(flag) == atomic
  {
    var flag: seq<byte> := [if atomic then 1 else 0];
    assert flag[0] == if atomic then 1 else 0;
  }

  lemma MailboxValues(w: Wanted, atomic: bool)
    requires w.Encodable()
    ensures var pairs := Pairs(MailboxObjs(w, atomic));
            && ValuesOf(pairs, TAG_ATOMIC) == [[if atomic then 1 else 0]]
            && ValuesOf(pairs, TAG_READ) == Values(ReadObjs(w.readRequests))
            && ValuesOf(pairs, TAG_WRITE) == Values(WriteObjs(w.writeRequests))
            && ValuesOf(pairs, TAG_SET) == Values(SetObjs(w.setRequests))
  {
    var flag := [Canonical(TAG_ATOMIC, [if atomic then 1 else 0])];
    var a, b, c := ReadObjs(w.readRequests), WriteObjs(w.writeRequests), SetObjs(w.setRequests);
    assert Values(flag) == [flag[0].value];
    ValuesOfGroups(flag, a, b, c, TAG_ATOMIC, TAG_READ, TAG_WRITE, TAG_SET, TAG_ATOMIC);
    ValuesOfGroups(flag, a, b, c, TAG_ATOMIC, TAG_READ, TAG_WRITE, TAG_SET, TAG_READ);
    ValuesOfGroups(flag, a, b, c, TAG_ATOMIC, TAG_READ, TAG_WRITE, TAG_SET, TAG_WRITE);
    ValuesOfGroups(flag, a, b, c, TAG_ATOMIC, TAG_READ, TAG_WRITE, TAG_SET, TAG_SET);
  }

  lemma SingleMailboxVerifies(o: Obj)
    requires o.Valid() && o.tag == TAG_MAILBOX
    ensures Verify(ObjBytes([o]), 0, EXCHANGE_CMD, ExpectedTags(EXCHANGE_CMD), []).None?
  {
    var tags := ExpectedTags(EXCHANGE_CMD);
    assert tags[0] == TAG_MAILBOX;
    IndexIs(tags, TAG_MAILBOX, 0);
    TableIs(EXCHANGE_CMD, [o]);
    OnlyNotificationsHaveWildcard(EXCHANGE_CMD);
    MetFromStart(EXCHANGE_CMD, [o]);
    assert Expected(tags, [o]) == [TAG_MAILBOX];
    VerifyMeetsSpecification(EXCHANGE_CMD, [o]);
  }

  /** What the device parses is what the caller of the reader wanted. */
  lemma ExchangeRoundTrip(w: Wanted, atomic: bool)
    requires w.Encodable() && |ObjBytes(MailboxObjs(w, atomic))| < 0x1_0000
    ensures ParseExchange(Payload(w, atomic))
         == Ok(Content(if w.Empty() then Requests(None, [], [], []) else RequestsOf(w, atomic), None, false, []))
  {
    if w.Empty() {
      EmptyParses();
    } else {
      var o := PayloadObjs(w, atomic)[0];
      ParsesAll([o]);
      SingleMailboxVerifies(o);
      MailboxRoundTrip(w, atomic);
      SingleObj(o);
      ParseExchangeIs(Payload(w, atomic), o.value, RequestsOf(w, atomic));
    }
  }

  lemma EmptyParses()
    ensures ParseExchange([]) == Ok(Content(Requests(None, [], [], []), None, false, []))
  {
  }

  lemma SingleObj(o: Obj)
    ensures Pairs([o]) == [(o.tag, o.value)]
  {
    assert [o][1..] == [];
  }

  lemma ParseExchangeIs(plain: seq<byte>, mailbox: seq<byte>, requests: Requests)
    requires Verify(plain, 0, EXCHANGE_CMD, ExpectedTags(EXCHANGE_CMD), []).None?
    requires ParseObjs(plain, 0) == Some([(TAG_MAILBOX, mailbox)]) && ParseMailbox(mailbox) == Ok(requests)
    ensures ParseExchange(plain) == Ok(Content(requests, None, false, []))
  {
    var pairs := [(TAG_MAILBOX, mailbox)];
    SinglePair(TAG_MAILBOX, mailbox, TAG_MAILBOX);
    SinglePair(TAG_MAILBOX, mailbox, TAG_READER_STATUS);
    SinglePair(TAG_MAILBOX, mailbox, TAG_NOTIFY);
    SinglePair(TAG_MAILBOX, mailbox, TAG_URSK);
  }

  lemma SinglePair(t: nat, value: seq<byte>, tag: nat)
    ensures ValuesOf([(t, value)], tag) == if t == tag then [value] else []
    ensures First([(t, value)], tag) == if t == tag then Some(value) else None
  {
    assert [(t, value)][1..] == [];
  }
}
