/**
 * `TLV.verifySequence` against BER-TLV (section 5.2.2 of ISO/IEC 7816-4:2005): the index loop, the recursion that it
 * computes, and what that recursion says about a concatenation of well-formed objects.
 */
module Tlv {
  import opened Basics

  datatype TlvIndex =
    | SELECT_RSP | SELECT_RSP_6F | SELECT_RSP_A5 | SELECT_RSP_7F66 | SELECT_RSP_B7
    | CONTROLFLOW_CMD
    | AUTH0_CMD | AUTH0_RSP | AUTH0_RSP_9D | AUTH0_RSP_B2
    | AUTH1_CMD | AUTH1_RSP | AUTH1_RSP_9D | AUTH1_RSP_B2 | AUTH1_RSP_RD_AUTH | AUTH1_RSP_UD_AUTH
    | EXCHANGE_CMD | EXCHANGE_CMD_BA | EXCHANGE_CMD_AE | EXCHANGE_CMD_B5

  function ExpectedTags(idx: TlvIndex): (tags: seq<nat>)
    ensures |tags| == |ExpectedLength(idx)|
  {
    match idx
    case SELECT_RSP => [0x6F, 0xB7]
    case SELECT_RSP_6F => [0x84, 0xA5]
    case SELECT_RSP_A5 => [0x80, 0x5C, 0x7F66, 0xB3]
    case SELECT_RSP_7F66 => [0x02]
    case SELECT_RSP_B7 => [0x04, 0x80, 0x81]
    case CONTROLFLOW_CMD => [0x41, 0x42, 0x63]
    case AUTH0_CMD => [0x41, 0x42, 0x5C, 0x87, 0x4C, 0x4D, 0xB1]
    case AUTH0_RSP => [0x86, 0x9D, 0xB2]
    case AUTH0_RSP_9D => [0x5E, 0x91, 0x92]
    case AUTH0_RSP_B2 => [0x30]
    case AUTH1_CMD => [0x41, 0x9E, 0x90]
    case AUTH1_RSP => [0x4E, 0x5A, 0x9E, 0x4B, 0x5E, 0x91, 0x92]
    case AUTH1_RSP_9D => [0x5E, 0x91, 0x92]
    case AUTH1_RSP_B2 => [0x30]
    case AUTH1_RSP_RD_AUTH => [0x4D, 0x86, 0x87, 0x4C, 0x93]
    case AUTH1_RSP_UD_AUTH => [0x4D, 0x86, 0x87, 0x4C, 0x93]
    case EXCHANGE_CMD => [0xBA, 0xAE, 0x97, 0x98, 0x81]
    case EXCHANGE_CMD_BA => [0x8C, 0x87, 0x8A, 0x95]
    case EXCHANGE_CMD_AE => [0x82, 0xB5, ANY_9F]
    case EXCHANGE_CMD_B5 => [0x04, 0x80, 0x81]
  }

  const ANY_9F: nat := 0x9F00
  const ANY_LENGTH: int := -1

  function ExpectedLength(idx: TlvIndex): seq<int> {
    match idx
    case SELECT_RSP => [-1, -1]
    case SELECT_RSP_6F => [9, -1]
    case SELECT_RSP_A5 => [2, -1, 8, -1]
    case SELECT_RSP_7F66 => [2]
    case SELECT_RSP_B7 => [3, -1, -1]
    case CONTROLFLOW_CMD => [1, 1, -1]
    case AUTH0_CMD => [1, 1, 2, 65, 16, 32, -1]
    case AUTH0_RSP => [65, 64, -1]
    case AUTH0_RSP_9D => [2, 20, 20]
    case AUTH0_RSP_B2 => [-1]
    case AUTH1_CMD => [1, 64, -1]
    case AUTH1_RSP => [8, 65, 64, -1, 2, 20, 20]
    case AUTH1_RSP_9D => [2, 20, 20]
    case AUTH1_RSP_B2 => [-1]
    case AUTH1_RSP_RD_AUTH => [32, 32, 32, 16, 4]
    case AUTH1_RSP_UD_AUTH => [32, 32, 32, 16, 4]
    case EXCHANGE_CMD => [-1, -1, 2, 0, -1]
    case EXCHANGE_CMD_BA => [1, 4, -1, 5]
    case EXCHANGE_CMD_AE => [2, -1, -1]
    case EXCHANGE_CMD_B5 => [3, -1, -1]
  }

  // ---------------------------------------------------------------- the recursion

  /** `list.index(x)` */
  function IndexOf(list: seq<nat>, x: nat): (i: nat)
    requires x in list
    ensures i < |list| && list[i] == x && x !in list[..i]
  {
    if list[0] == x then 0 else 1 + IndexOf(list[1..], x)
  }

  /** The tags 0x9F20 to 0x9F5F, the only ones that may stand for `ANY_9F`. */
  predicate IsSubTag(tag: nat) {
    0x9F20 <= tag < 0x9F60
  }

  /** The two in terms of the masks: a two-byte tag is announced by five set bits, a sub tag named by three. */
  lemma TagMasks(tag: bv16, first: bv8)
    ensures IsSubTag(tag as nat) <==> tag & 0xFFE0 == 0x9F20 || tag & 0xFFE0 == 0x9F40
    ensures first as nat % 0x20 == 0x1F <==> first & 0x1F == 0x1F
  {
  }

  function Resolve(checked: seq<nat>, tag: nat): (r: seq<nat>)
    ensures |r| == |checked|
  {
    if IsSubTag(tag) && ANY_9F in checked then checked[IndexOf(checked, ANY_9F) := tag] else checked
  }

  /** The first place of x at position k or later. */
  function Find(list: seq<nat>, k: nat, x: nat): (r: Option<nat>)
    ensures r.Some? ==> k <= r.value < |list| && list[r.value] == x && forall i :: k <= i < r.value ==> list[i] != x
    ensures r.None? ==> forall i :: k <= i < |list| ==> list[i] != x
    decreases |list| - k
  {
    if k >= |list| then None else if list[k] == x then Some(k) else Find(list, k + 1, x)
  }

  /** `all(t in it for t in tags)` with the iterator at k: each search goes on where the last one stopped. */
  predicate InOrder(tags: seq<nat>, list: seq<nat>, k: nat)
    decreases |tags|
  {
    tags == [] ||
    var found := Find(list, k, tags[0]);
    found.Some? && InOrder(tags[1..], list, found.value + 1)
  }

  /** The tag at i and the position behind it; none for a two-byte tag of which only one byte is left. */
  function ReadTag(s: seq<byte>, i: nat): (r: Option<(nat, nat)>)
    requires i < |s|
    ensures r.Some? ==> i < r.value.1 <= |s|
  {
    var first: nat := s[i];
    if first % 0x20 != 0x1F then Some((first, i + 1))
    else if i < |s| - 1 then Some((first * 256 + s[i + 1], i + 2))
    else None
  }

  /** The length at i and the position behind it. A missing length reads as zero and still moves the position. */
  function ReadLength(s: seq<byte>, i: nat): (r: (nat, nat))
    ensures r.1 > i
  {
    if i >= |s| then (0, i + 1)
    else
      var first: nat := s[i];
      if first == 0x81 && i + 1 < |s| then (s[i + 1], i + 2)
      else if first == 0x82 && i + 2 < |s| then
        var hi: nat := s[i + 1];
        (hi * 256 + s[i + 2], i + 3)
      else (first, i + 1)
  }

  predicate LengthFits(expected: int, actual: nat) {
    expected == actual || expected == ANY_LENGTH
  }

  datatype Step = Raise(error: Error) | Go(next: nat, checked: seq<nat>, tags: seq<nat>)

  /** One object at i, with the two lists as they are at this point. */
  function NextObject(s: seq<byte>, i: nat, idx: TlvIndex, checked: seq<nat>, tags: seq<nat>): (r: Step)
    requires i < |s| && |checked| == |ExpectedLength(idx)|
    ensures r.Go? ==> i < r.next && |r.checked| == |checked|
  {
    match ReadTag(s, i)
    case None => Raise(TlvError)
    case Some((tag, at)) =>
      var checked' := Resolve(checked, tag);
      if tag !in checked' then
        if at >= |s| then Raise(IndexError)
        else
          var skip: nat := s[at];
          Go(at + skip + 1, checked', tags)
      else ExpectedObject(s, at, tag, ExpectedLength(idx)[IndexOf(checked', tag)], idx, checked', tags)
  }

  /** An object of the table, from its length on. It is listed only if its value is complete. */
  function ExpectedObject(s: seq<byte>, at: nat, tag: nat, expected: int, idx: TlvIndex, checked: seq<nat>,
                          tags: seq<nat>): (r: Step)
    ensures r.Go? ==> at < r.next && |r.checked| == |checked|
  {
    var (length, next) := ReadLength(s, at);
    if !LengthFits(expected, length) then Raise(TlvError)
    else
      var end := next + length;
      var tags' := if end <= |s| then tags + [tag] else tags;
      if Disordered(idx, end >= |s|, tags', checked) then Raise(TlvError) else Go(end, checked, tags')
  }

  /** What the loop raises from position i on, if anything. */
  function Verify(s: seq<byte>, i: nat, idx: TlvIndex, checked: seq<nat>, tags: seq<nat>): Option<Error>
    requires |checked| == |ExpectedLength(idx)|
    decreases |s| - i
  {
    if i >= |s| then None
    else
      match NextObject(s, i, idx, checked, tags)
      case Raise(e) => Some(e)
      case Go(next, checked', tags') => Verify(s, next, idx, checked', tags')
  }

  /**
   * Mailbox commands come in any order; elsewhere the order is checked behind an expected object that ends the bytes.
   */
  predicate Disordered(idx: TlvIndex, atEnd: bool, tags: seq<nat>, checked: seq<nat>) {
    if idx.EXCHANGE_CMD_BA? then exists t :: t in tags && t !in checked
    else atEnd && !InOrder(tags, checked, 0)
  }

  // ---------------------------------------------------------------- the loop

  /** The loop of `verifySequence`; None means that it returns. */
  method VerifySequence(buf: seq<byte>, idx: TlvIndex) returns (raised: Option<Error>)
    ensures raised == Verify(buf, 0, idx, ExpectedTags(idx), [])
  {
    var i: nat := 0;
    var checkedTags: seq<nat> := ExpectedTags(idx);
    var tags: seq<nat> := [];
    while i < |buf|
      invariant |checkedTags| == |ExpectedLength(idx)|
      invariant Verify(buf, i, idx, checkedTags, tags) == Verify(buf, 0, idx, ExpectedTags(idx), [])
    {
      raised, i, checkedTags, tags := CheckObject(buf, i, idx, checkedTags, tags);
      if raised.Some? {
        return;
      }
    }
    return None;
  }

  /** The body of the loop, which moves the index and changes both lists. */
  method CheckObject(buf: seq<byte>, at: nat, idx: TlvIndex, checked: seq<nat>, found: seq<nat>)
    returns (raised: Option<Error>, i: nat, checkedTags: seq<nat>, tags: seq<nat>)
    requires at < |buf| && |checked| == |ExpectedLength(idx)|
    ensures NextObject(buf, at, idx, checked, found)
         == if raised.Some? then Raise(raised.value) else Go(i, checkedTags, tags)
  {
    raised, i, checkedTags, tags := None, at, checked, found;
    var read := TagAt(buf, i);
    if read.None? {
      raised := Some(TlvError);
      return;
    }
    var tag := read.value.0;
    i := read.value.1;
    if IsSubTag(tag) && ANY_9F in checkedTags {
      checkedTags := checkedTags[IndexOf(checkedTags, ANY_9F) := tag];
    }
    assert checkedTags == Resolve(checked, tag);
    if tag !in checkedTags {
      if i >= |buf| {
        raised := Some(IndexError);
        return;
      }
      var skip: nat := buf[i];
      i := i + skip + 1;
      return;
    }
    var expected := ExpectedLength(idx)[IndexOf(checkedTags, tag)];
    raised, i, tags := CheckExpected(buf, i, tag, expected, idx, checkedTags, tags);
  }

  method CheckExpected(buf: seq<byte>, at: nat, tag: nat, expected: int, idx: TlvIndex, checkedTags: seq<nat>,
                       found: seq<nat>)
    returns (raised: Option<Error>, i: nat, tags: seq<nat>)
    ensures ExpectedObject(buf, at, tag, expected, idx, checkedTags, found)
         == if raised.Some? then Raise(raised.value) else Go(i, checkedTags, tags)
  {
    raised, tags := None, found;
    var length;
    length, i := LengthAt(buf, at);
    if expected != length && expected != ANY_LENGTH {
      raised := Some(TlvError);
      return;
    }
    i := i + length;
    if i <= |buf| {
      tags := tags + [tag];
    }
    if idx.EXCHANGE_CMD_BA? {
      if exists t :: t in tags && t !in checkedTags {
        raised := Some(TlvError);
      }
    } else if i >= |buf| {
      if !InOrder(tags, checkedTags, 0) {
        raised := Some(TlvError);
      }
    }
  }

  method TagAt(buf: seq<byte>, at: nat) returns (r: Option<(nat, nat)>)
    requires at < |buf|
    ensures r == ReadTag(buf, at)
  {
    var tag: nat, i := buf[at], at;
    if tag % 0x20 == 0x1F {
      if i < |buf| - 1 {
        tag := tag * 256 + buf[i + 1];
        i := i + 2;
      } else {
        return None;
      }
    } else {
      i := i + 1;
    }
    return Some((tag, i));
  }

  method LengthAt(buf: seq<byte>, at: nat) returns (length: nat, i: nat)
    ensures (length, i) == ReadLength(buf, at)
  {
    length, i := 0, at;
    if i < |buf| {
      if buf[i] / 0x80 == 0 {
        length := buf[i];
      } else if buf[i] == 0x81 && i + 1 < |buf| {
        length := buf[i + 1];
        i := i + 1;
      } else if buf[i] == 0x82 && i + 2 < |buf| {
        var hi: nat := buf[i + 1];
        length := hi * 256 + buf[i + 2];
        i := i + 2;
      } else {
        length := buf[i];
      }
    }
    i := i + 1;
  }

  // ---------------------------------------------------------------- well-formed objects

  datatype LengthForm = Short | Long1 | Long2

  datatype Obj = Obj(tag: nat, form: LengthForm, value: seq<byte>)
  {
    predicate Valid() {
      && (if tag < 0x100 then tag % 0x20 != 0x1F else tag < 0x1_0000 && tag / 0x100 % 0x20 == 0x1F)
      && |value| < match form case Short => 0x80 case Long1 => 0x100 case Long2 => 0x1_0000
    }

    function TagBytes(): seq<byte>
      requires Valid()
    {
      if tag < 0x100 then [tag] else U16(tag)
    }

    function LengthBytes(): seq<byte>
      requires Valid()
    {
      match form
      case Short => [|value|]
      case Long1 => [0x81, |value|]
      case Long2 => [0x82] + U16(|value|)
    }

    function Bytes(): (s: seq<byte>)
      requires Valid()
      ensures |s| >= 2
    {
      TagBytes() + LengthBytes() + value
    }
  }

  predicate AllValid(objs: seq<Obj>) {
    forall o :: o in objs ==> o.Valid()
  }

  function ObjBytes(objs: seq<Obj>): seq<byte>
    requires AllValid(objs)
  {
    if objs == [] then [] else objs[0].Bytes() + ObjBytes(objs[1..])
  }

  /** The table once the wildcard has taken the first sub tag that it meets. */
  function Table(checked: seq<nat>, objs: seq<Obj>): (r: seq<nat>)
    ensures |r| == |checked|
    decreases |objs|
  {
    if objs == [] then checked else Table(Resolve(checked, objs[0].tag), objs[1..])
  }

  predicate FitsTable(idx: TlvIndex, table: seq<nat>, o: Obj)
    requires |table| == |ExpectedLength(idx)|
  {
    o.tag in table ==>
      var length := ExpectedLength(idx)[IndexOf(table, o.tag)];
      length == |o.value| || length == -1
  }

  /** Every object that the table expects when it is met has its length. */
  predicate Fits(idx: TlvIndex, checked: seq<nat>, objs: seq<Obj>)
    requires |checked| == |ExpectedLength(idx)|
    decreases |objs|
  {
    objs == [] ||
    var now := Resolve(checked, objs[0].tag);
    FitsTable(idx, now, objs[0]) && Fits(idx, now, objs[1..])
  }

  /** The tags that the table expects when they are met. */
  function Met(checked: seq<nat>, objs: seq<Obj>): seq<nat>
    decreases |objs|
  {
    if objs == [] then []
    else
      var tag, now := objs[0].tag, Resolve(checked, objs[0].tag);
      (if tag in now then [tag] else []) + Met(now, objs[1..])
  }

  /** The last object is one of them. */
  predicate EndsMet(checked: seq<nat>, objs: seq<Obj>)
    requires objs != []
    decreases |objs|
  {
    var tag, now := objs[0].tag, Resolve(checked, objs[0].tag);
    if |objs| == 1 then tag in now else EndsMet(now, objs[1..])
  }

  /** Objects as the checker can follow them: any other one has a one-byte length. */
  predicate Followed(checked: seq<nat>, objs: seq<Obj>)
    decreases |objs|
  {
    AllValid(objs) &&
    (objs == [] ||
     var tag, now := objs[0].tag, Resolve(checked, objs[0].tag);
     (tag in now || objs[0].form.Short?) && Followed(now, objs[1..]))
  }

  /** The order is looked at only if the last object is an expected one. */
  predicate Ordered(idx: TlvIndex, checked: seq<nat>, tags: seq<nat>, objs: seq<Obj>) {
    || idx.EXCHANGE_CMD_BA? || objs == [] || !EndsMet(checked, objs)
    || InOrder(tags + Met(checked, objs), Table(checked, objs), 0)
  }

  predicate Accepts(idx: TlvIndex, checked: seq<nat>, tags: seq<nat>, objs: seq<Obj>)
    requires |checked| == |ExpectedLength(idx)|
  {
    Fits(idx, checked, objs) && Ordered(idx, checked, tags, objs)
  }

  lemma ReadsTag(s: seq<byte>, i: nat, o: Obj)
    requires o.Valid() && At(s, i, o.Bytes())
    ensures ReadTag(s, i) == Some((o.tag, i + |o.TagBytes()|))
  {
    var window := s[i..i + |o.Bytes()|];
    assert s[i] == window[0] && s[i + 1] == window[1];
  }

  lemma Middle(s: seq<byte>, i: nat, a: seq<byte>, b: seq<byte>, c: seq<byte>)
    requires At(s, i, a + b + c)
    ensures At(s, i + |a|, b)
  {
    var window := s[i..i + |a + b + c|];
    forall k | 0 <= k < |b|
      ensures s[i + |a|..i + |a| + |b|][k] == b[k]
    {
      assert window[|a| + k] == b[k];
    }
  }

  lemma ReadsLength(s: seq<byte>, i: nat, o: Obj)
    requires o.Valid() && At(s, i, o.Bytes())
    ensures var at := i + |o.TagBytes()|;
            at < |s| && ReadLength(s, at) == (|o.value|, at + |o.LengthBytes()|)
              && (o.form.Short? ==> s[at] == |o.value|)
  {
    Middle(s, i, o.TagBytes(), o.LengthBytes(), o.value);
    ReadsLengthAt(s, i + |o.TagBytes()|, o);
  }

  lemma ReadsLengthAt(s: seq<byte>, at: nat, o: Obj)
    requires o.Valid() && At(s, at, o.LengthBytes())
    ensures at < |s| && ReadLength(s, at) == (|o.value|, at + |o.LengthBytes()|)
    ensures o.form.Short? ==> s[at] == |o.value|
  {
    var length, window := o.LengthBytes(), s[at..at + |o.LengthBytes()|];
    assert window[0] == s[at] && (|length| > 1 ==> window[1] == s[at + 1])
           && (|length| > 2 ==> window[2] == s[at + 2]);
  }

  lemma {:induction false} IndexIs(list: seq<nat>, x: nat, i: nat)
    requires i < |list| && list[i] == x && x !in list[..i]
    ensures IndexOf(list, x) == i
  {
    if i > 0 {
      assert list[..i][0] == list[0];
      assert list[1..][..i - 1] == list[..i][1..];
      IndexIs(list[1..], x, i - 1);
    }
  }

  // ---------------------------------------------------------------- what it says about objects

  /** What an object does, given its tag and its length. */
  function Outcome(tag: nat, length: nat, end: nat, last: bool, idx: TlvIndex, now: seq<nat>, tags: seq<nat>): Step
    requires |now| == |ExpectedLength(idx)|
  {
    if tag !in now then Go(end, now, tags)
    else if !LengthFits(ExpectedLength(idx)[IndexOf(now, tag)], length) then Raise(TlvError)
    else if Disordered(idx, last, tags + [tag], now) then Raise(TlvError)
    else Go(end, now, tags + [tag])
  }

  lemma Decides(s: seq<byte>, i: nat, tag: nat, at: nat, length: nat, next: nat, idx: TlvIndex, checked: seq<nat>,
                tags: seq<nat>)
    requires |checked| == |ExpectedLength(idx)| && i < |s|
    requires ReadTag(s, i) == Some((tag, at)) && at < |s| && ReadLength(s, at) == (length, next) && next + length <= |s|
    requires tag in Resolve(checked, tag) || (s[at] == length && next == at + 1)
    ensures NextObject(s, i, idx, checked, tags)
         == Outcome(tag, length, next + length, next + length >= |s|, idx, Resolve(checked, tag), tags)
  {
    if tag in Resolve(checked, tag) {
      DecidesExpected(s, i, tag, at, length, next, idx, checked, tags);
    } else {
      SkipsOne(s, i, idx, checked, tags, tag, at);
    }
  }

  lemma DecidesExpected(s: seq<byte>, i: nat, tag: nat, at: nat, length: nat, next: nat, idx: TlvIndex,
                        checked: seq<nat>, tags: seq<nat>)
    requires |checked| == |ExpectedLength(idx)| && i < |s| && tag in Resolve(checked, tag)
    requires ReadTag(s, i) == Some((tag, at)) && at < |s| && ReadLength(s, at) == (length, next) && next + length <= |s|
    ensures NextObject(s, i, idx, checked, tags)
         == Outcome(tag, length, next + length, next + length >= |s|, idx, Resolve(checked, tag), tags)
  {
    var now := Resolve(checked, tag);
    var expected := ExpectedLength(idx)[IndexOf(now, tag)];
    assert NextObject(s, i, idx, checked, tags) == ExpectedObject(s, at, tag, expected, idx, now, tags);
  }

  lemma OneObject(s: seq<byte>, i: nat, o: Obj, idx: TlvIndex, checked: seq<nat>, tags: seq<nat>)
    requires |checked| == |ExpectedLength(idx)| && o.Valid() && At(s, i, o.Bytes())
    requires o.tag in Resolve(checked, o.tag) || o.form.Short?
    ensures var end := i + |o.Bytes()|;
            NextObject(s, i, idx, checked, tags)
            == Outcome(o.tag, |o.value|, end, end >= |s|, idx, Resolve(checked, o.tag), tags)
  {
    var at, next := ReadsObject(s, i, o);
    Decides(s, i, o.tag, at, |o.value|, next, idx, checked, tags);
  }

  lemma ReadsObject(s: seq<byte>, i: nat, o: Obj) returns (at: nat, next: nat)
    requires o.Valid() && At(s, i, o.Bytes())
    ensures i < |s| && ReadTag(s, i) == Some((o.tag, at)) && at < |s| && ReadLength(s, at) == (|o.value|, next)
    ensures next + |o.value| == i + |o.Bytes()| <= |s| && (o.form.Short? ==> s[at] == |o.value| && next == at + 1)
  {
    ReadsTag(s, i, o);
    ReadsLength(s, i, o);
    at := i + |o.TagBytes()|;
    next := at + |o.LengthBytes()|;
  }

  lemma ReadsValue(s: seq<byte>, i: nat, o: Obj)
    requires o.Valid() && At(s, i, o.Bytes())
    ensures s[i + |o.Bytes()| - |o.value|..i + |o.Bytes()|] == o.value
  {
    var head := o.TagBytes() + o.LengthBytes();
    assert head + o.value + [] == o.Bytes();
    Middle(s, i, head, o.value, []);
  }

  lemma ExpectedCons(tag: nat, tags: seq<nat>, rest: seq<nat>)
    ensures tags + ([tag] + rest) == tags + [tag] + rest
    ensures rest == [] ==> tags + ([tag] + rest) == tags + [tag]
  {
  }

  predicate AllIn(tags: seq<nat>, list: seq<nat>) {
    forall t :: t in tags ==> t in list
  }

  /** What an object does, and what it leaves to decide about those behind it. */
  predicate Leaves(idx: TlvIndex, checked: seq<nat>, end: nat, tags: seq<nat>, objs: seq<Obj>, step: Step)
    requires |checked| == |ExpectedLength(idx)| && objs != []
  {
    match step
    case Raise(e) => e == TlvError && !Accepts(idx, checked, tags, objs)
    case Go(end', now, found) =>
      && end' == end && now == Resolve(checked, objs[0].tag)
      && (idx.EXCHANGE_CMD_BA? ==> AllIn(found, now))
      && (Accepts(idx, checked, tags, objs) <==> Accepts(idx, now, found, objs[1..]))
  }

  /** The order of the rest is that of the whole; behind the last object it has been decided. */
  lemma OrderStep(idx: TlvIndex, checked: seq<nat>, tags: seq<nat>, objs: seq<Obj>)
    requires objs != []
    ensures var tag, now, rest := objs[0].tag, Resolve(checked, objs[0].tag), objs[1..];
            var found := if tag in now then tags + [tag] else tags;
            Ordered(idx, checked, tags, objs) <==>
            if rest == [] then idx.EXCHANGE_CMD_BA? || tag !in now || InOrder(found, now, 0)
            else Ordered(idx, now, found, rest)
  {
    MetCons(checked, tags, objs);
  }

  lemma AcceptsCons(idx: TlvIndex, checked: seq<nat>, tags: seq<nat>, objs: seq<Obj>)
    requires |checked| == |ExpectedLength(idx)| && objs != []
    ensures var tag, now, rest := objs[0].tag, Resolve(checked, objs[0].tag), objs[1..];
            var found := if tag in now then tags + [tag] else tags;
            Accepts(idx, checked, tags, objs) <==>
            && FitsTable(idx, now, objs[0]) && Accepts(idx, now, found, rest)
            && (rest == [] && tag in now && !idx.EXCHANGE_CMD_BA? ==> InOrder(found, now, 0))
  {
    OrderStep(idx, checked, tags, objs);
  }

  /** In mailbox commands no tag stands for others, so no tag that was found is missing in the table. */
  lemma NeverMissing(idx: TlvIndex, checked: seq<nat>, tags: seq<nat>, tag: nat)
    requires idx.EXCHANGE_CMD_BA? ==> ANY_9F !in checked && AllIn(tags, checked)
    ensures var now := Resolve(checked, tag);
            idx.EXCHANGE_CMD_BA? ==> now == checked && AllIn(tags, now) && (tag in now ==> AllIn(tags + [tag], now))
  {
  }

  lemma AcceptsStep(idx: TlvIndex, checked: seq<nat>, end: nat, tags: seq<nat>, objs: seq<Obj>)
    requires |checked| == |ExpectedLength(idx)| && objs != []
    requires idx.EXCHANGE_CMD_BA? ==> ANY_9F !in checked && AllIn(tags, checked)
    ensures Leaves(idx, checked, end, tags, objs,
                   Outcome(objs[0].tag, |objs[0].value|, end, |objs| == 1, idx, Resolve(checked, objs[0].tag), tags))
  {
    AcceptsCons(idx, checked, tags, objs);
    NeverMissing(idx, checked, tags, objs[0].tag);
  }

  lemma MetCons(checked: seq<nat>, tags: seq<nat>, objs: seq<Obj>)
    requires objs != []
    ensures var tag, now, rest := objs[0].tag, Resolve(checked, objs[0].tag), objs[1..];
            && Table(checked, objs) == Table(now, rest) && (rest == [] ==> Table(now, rest) == now)
            && tags + Met(checked, objs) == (if tag in now then tags + [tag] else tags) + Met(now, rest)
            && (rest == [] ==> Met(now, rest) == [] && (tags + [tag]) + Met(now, rest) == tags + [tag])
            && (EndsMet(checked, objs) <==> if rest == [] then tag in now else EndsMet(now, rest))
  {
    var tag, now, rest := objs[0].tag, Resolve(checked, objs[0].tag), objs[1..];
    ExpectedCons(tag, tags, Met(now, rest));
    assert [] + Met(now, rest) == Met(now, rest);
  }

  /** A point of the loop at which well-formed objects are left. */
  predicate Ready(s: seq<byte>, i: nat, idx: TlvIndex, checked: seq<nat>, tags: seq<nat>, objs: seq<Obj>) {
    && |checked| == |ExpectedLength(idx)| && Followed(checked, objs)
    && i <= |s| && s[i..] == ObjBytes(objs)
    && (idx.EXCHANGE_CMD_BA? ==> ANY_9F !in checked && AllIn(tags, checked))
  }

  lemma ReadyStep(s: seq<byte>, i: nat, idx: TlvIndex, checked: seq<nat>, tags: seq<nat>, objs: seq<Obj>)
    requires Ready(s, i, idx, checked, tags, objs) && objs != []
    ensures i < |s|
    ensures Leaves(idx, checked, i + |objs[0].Bytes()|, tags, objs, NextObject(s, i, idx, checked, tags))
  {
    HeadBytes(s, i, objs);
    OneObject(s, i, objs[0], idx, checked, tags);
    AcceptsStep(idx, checked, i + |objs[0].Bytes()|, tags, objs);
  }

  lemma StaysReady(s: seq<byte>, i: nat, idx: TlvIndex, checked: seq<nat>, tags: seq<nat>, objs: seq<Obj>, step: Step)
    requires Ready(s, i, idx, checked, tags, objs) && objs != [] && step.Go?
    requires Leaves(idx, checked, i + |objs[0].Bytes()|, tags, objs, step)
    ensures Ready(s, step.next, idx, step.checked, step.tags, objs[1..])
  {
    HeadBytes(s, i, objs);
  }

  /**
   * On a concatenation of well-formed objects the loop returns exactly when the lengths fit and, should the last
   * object be an expected one, the expected tags occur in table order. Otherwise it raises the TLV error.
   */
  lemma {:induction false} VerifyObjects(s: seq<byte>, i: nat, idx: TlvIndex, checked: seq<nat>, tags: seq<nat>,
                                         objs: seq<Obj>)
    requires Ready(s, i, idx, checked, tags, objs)
    ensures Verify(s, i, idx, checked, tags) == if Accepts(idx, checked, tags, objs) then None else Some(TlvError)
    decreases |objs|
  {
    if objs != [] {
      ReadyStep(s, i, idx, checked, tags, objs);
      var step := NextObject(s, i, idx, checked, tags);
      if step.Go? {
        StaysReady(s, i, idx, checked, tags, objs, step);
        VerifyObjects(s, step.next, idx, step.checked, step.tags, objs[1..]);
      }
    }
  }

  lemma HeadBytes(s: seq<byte>, i: nat, objs: seq<Obj>)
    requires objs != [] && AllValid(objs) && i <= |s| && s[i..] == ObjBytes(objs)
    ensures var end := i + |objs[0].Bytes()|;
            At(s, i, objs[0].Bytes()) && s[end..] == ObjBytes(objs[1..]) && (end >= |s| <==> |objs| == 1)
  {
    assert ObjBytes(objs) == objs[0].Bytes() + ObjBytes(objs[1..]);
    SplitsAt(s, i, objs[0].Bytes(), ObjBytes(objs[1..]));
    if |objs| > 1 {
      assert ObjBytes(objs[1..]) == objs[1].Bytes() + ObjBytes(objs[1..][1..]);
    }
  }

  lemma SplitsAt(s: seq<byte>, i: nat, head: seq<byte>, tail: seq<byte>)
    requires i <= |s| && s[i..] == head + tail
    ensures At(s, i, head) && s[i + |head|..] == tail && |s| == i + |head| + |tail|
  {
    assert s[i..i + |head|] == s[i..][..|head|] == head;
    assert s[i + |head|..] == s[i..][|head|..] == tail;
  }

  // ---------------------------------------------------------------- the specification

  predicate Distinct(list: seq<nat>) {
    forall i, j :: 0 <= i < j < |list| ==> list[i] != list[j]
  }

  /** The tags stand in the list at k or later, each further on than the one before. */
  predicate Rising(tags: seq<nat>, list: seq<nat>, k: nat)
  {
    tags == [] || (Position(list, tags[0]) >= k && Rising(tags[1..], list, Position(list, tags[0]) + 1))
  }

  predicate RisesAt(tags: seq<nat>, list: seq<nat>, k: nat, i: nat)
    requires i < |tags|
  {
    Position(list, tags[i]) >= if i == 0 then k else Position(list, tags[i - 1]) + 1
  }

  /** Every tag is in the list, in list order, and none occurs twice. */
  predicate Increasing(tags: seq<nat>, list: seq<nat>) {
    forall i :: 0 <= i < |tags| ==> RisesAt(tags, list, 0, i)
  }

  /** `IndexOf`, and -1 for a tag outside the list. */
  function Position(list: seq<nat>, x: nat): int {
    if x in list then IndexOf(list, x) else -1
  }

  lemma FindIsPosition(list: seq<nat>, k: nat, x: nat)
    requires Distinct(list)
    ensures Find(list, k, x) == if Position(list, x) >= k then Some(Position(list, x)) else None
  {
    var found := Find(list, k, x);
    if x in list {
      var i := IndexOf(list, x);
      assert found.Some? ==> found.value == i;
    }
  }

  lemma {:induction false} RisingMeans(tags: seq<nat>, list: seq<nat>, k: nat)
    ensures Rising(tags, list, k) <==> forall i :: 0 <= i < |tags| ==> RisesAt(tags, list, k, i)
  {
    if tags != [] {
      var rest, next := tags[1..], Position(list, tags[0]) + 1;
      RisingMeans(rest, list, next);
      if Rising(tags, list, k) {
        forall i | 0 <= i < |tags| ensures RisesAt(tags, list, k, i) {
          assert i > 0 ==> RisesAt(rest, list, next, i - 1);
        }
      }
      if forall i :: 0 <= i < |tags| ==> RisesAt(tags, list, k, i) {
        assert RisesAt(tags, list, k, 0);
        forall i | 0 <= i < |rest| ensures RisesAt(rest, list, next, i) {
          assert RisesAt(tags, list, k, i + 1);
        }
      }
    }
  }

  /** The iterator test says that the tags occur in list order, each at most once. */
  lemma {:induction false} InOrderIff(tags: seq<nat>, list: seq<nat>, k: nat)
    requires Distinct(list)
    ensures InOrder(tags, list, k) <==> Rising(tags, list, k)
    decreases |tags|
  {
    if tags != [] {
      FindIsPosition(list, k, tags[0]);
      if Position(list, tags[0]) >= k {
        InOrderIff(tags[1..], list, Position(list, tags[0]) + 1);
      }
    }
  }

  function FirstSubTag(objs: seq<Obj>): nat {
    if objs == [] then ANY_9F else if IsSubTag(objs[0].tag) then objs[0].tag else FirstSubTag(objs[1..])
  }

  lemma OnlyNotificationsHaveWildcard(idx: TlvIndex)
    ensures ANY_9F in ExpectedTags(idx) <==> idx.EXCHANGE_CMD_AE?
  {
    if idx.EXCHANGE_CMD_AE? {
      assert ExpectedTags(idx)[2] == ANY_9F;
    }
  }

  lemma {:induction false} NotificationTable(objs: seq<Obj>)
    ensures Table([0x82, 0xB5, ANY_9F], objs) == [0x82, 0xB5, FirstSubTag(objs)]
    decreases |objs|
  {
    if objs != [] {
      if IsSubTag(objs[0].tag) {
        assert [0x82, 0xB5, ANY_9F][2] == ANY_9F;
        IndexIs([0x82, 0xB5, ANY_9F], ANY_9F, 2);
        assert [0x82, 0xB5, ANY_9F][2 := objs[0].tag] == [0x82, 0xB5, objs[0].tag];
        TableWithoutWildcard([0x82, 0xB5, objs[0].tag], objs[1..]);
      } else {
        NotificationTable(objs[1..]);
      }
    }
  }

  /** Only the notification table changes, and only in its wildcard. */
  lemma TableIs(idx: TlvIndex, objs: seq<Obj>)
    ensures Table(ExpectedTags(idx), objs)
         == if idx.EXCHANGE_CMD_AE? then [0x82, 0xB5, FirstSubTag(objs)] else ExpectedTags(idx)
  {
    OnlyNotificationsHaveWildcard(idx);
    if idx.EXCHANGE_CMD_AE? {
      NotificationTable(objs);
    } else {
      TableWithoutWildcard(ExpectedTags(idx), objs);
    }
  }

  lemma {:induction false} TableWithoutWildcard(checked: seq<nat>, objs: seq<Obj>)
    requires ANY_9F !in checked
    ensures Table(checked, objs) == checked
    decreases |objs|
  {
    if objs != [] {
      TableWithoutWildcard(checked, objs[1..]);
    }
  }

  lemma {:induction false} FirstSubTagIs(objs: seq<Obj>)
    ensures FirstSubTag(objs) == ANY_9F || IsSubTag(FirstSubTag(objs))
  {
    if objs != [] {
      FirstSubTagIs(objs[1..]);
    }
  }

  lemma ExpectedTagsAreDistinct(idx: TlvIndex)
    ensures Distinct(ExpectedTags(idx))
  {
  }

  lemma TablesAreDistinct(idx: TlvIndex, objs: seq<Obj>)
    ensures Distinct(Table(ExpectedTags(idx), objs)) && OneWildcard(ExpectedTags(idx))
  {
    ExpectedTagsAreDistinct(idx);
    TableIs(idx, objs);
    FirstSubTagIs(objs);
  }

  /**
   * The specification of the checker: on objects that are none or end in an expected one, it returns exactly when
   * every expected object has its length and, mailbox commands aside, their tags are in table order without repeats.
   */
  lemma VerifyMeetsSpecification(idx: TlvIndex, objs: seq<Obj>)
    requires Followed(ExpectedTags(idx), objs) && (objs != [] ==> EndsMet(ExpectedTags(idx), objs))
    ensures var table := ExpectedTags(idx);
            Verify(ObjBytes(objs), 0, idx, table, [])
            == if Fits(idx, table, objs) && (idx.EXCHANGE_CMD_BA? || Increasing(Met(table, objs), Table(table, objs)))
               then None else Some(TlvError)
  {
    var tags, table := Met(ExpectedTags(idx), objs), Table(ExpectedTags(idx), objs);
    VerifyFromStart(idx, objs);
    TablesAreDistinct(idx, objs);
    assert [] + tags == tags;
    InOrderIff(tags, table, 0);
    RisingMeans(tags, table, 0);
  }

  lemma VerifyFromStart(idx: TlvIndex, objs: seq<Obj>)
    requires Followed(ExpectedTags(idx), objs)
    ensures Verify(ObjBytes(objs), 0, idx, ExpectedTags(idx), [])
         == if Accepts(idx, ExpectedTags(idx), [], objs) then None else Some(TlvError)
  {
    OnlyNotificationsHaveWildcard(idx);
    assert ObjBytes(objs)[0..] == ObjBytes(objs);
    VerifyObjects(ObjBytes(objs), 0, idx, ExpectedTags(idx), [], objs);
  }

  /** Behind an unexpected last object the order of the expected ones is not looked at. */
  lemma UnexpectedTailHidesOrder(idx: TlvIndex, objs: seq<Obj>)
    requires Followed(ExpectedTags(idx), objs) && objs != [] && !EndsMet(ExpectedTags(idx), objs)
    ensures Verify(ObjBytes(objs), 0, idx, ExpectedTags(idx), [])
         == if Fits(idx, ExpectedTags(idx), objs) then None else Some(TlvError)
  {
    VerifyFromStart(idx, objs);
  }

  // ---------------------------------------------------------------- in terms of the final table

  /** The tags of the objects that a table expects. */
  function Expected(table: seq<nat>, objs: seq<Obj>): seq<nat>
  {
    if objs == [] then []
    else (if objs[0].tag in table then [objs[0].tag] else []) + Expected(table, objs[1..])
  }

  predicate LengthsFit(idx: TlvIndex, table: seq<nat>, objs: seq<Obj>)
    requires |table| == |ExpectedLength(idx)|
  {
    forall o :: o in objs ==> FitsTable(idx, table, o)
  }

  predicate ShortOutside(table: seq<nat>, objs: seq<Obj>) {
    forall o :: o in objs ==> o.tag in table || o.form.Short?
  }

  /** A tag that is not replaced and does not replace is looked up alike before and after. */
  lemma ResolveKeeps(checked: seq<nat>, tag: nat, x: nat)
    requires x != ANY_9F && (x == tag ==> !IsSubTag(x) || ANY_9F !in checked)
    ensures x in Resolve(checked, tag) <==> x in checked
    ensures x in checked ==> IndexOf(Resolve(checked, tag), x) == IndexOf(checked, x)
  {
    var r := Resolve(checked, tag);
    if x in checked {
      var i := IndexOf(checked, x);
      assert r[i] == x;
      forall k | 0 <= k < i ensures r[k] != x {
        assert checked[k] == checked[..i][k];
      }
      IndexIs(r, x, i);
    } else {
      forall k | 0 <= k < |r| ensures r[k] != x {
        assert checked[k] in checked;
      }
    }
  }

  lemma {:induction false} TableKeeps(checked: seq<nat>, objs: seq<Obj>, x: nat)
    requires x != ANY_9F && (IsSubTag(x) ==> ANY_9F !in checked)
    ensures x in Table(checked, objs) <==> x in checked
    ensures x in checked ==> IndexOf(Table(checked, objs), x) == IndexOf(checked, x)
    decreases |objs|
  {
    if objs != [] {
      var tag := objs[0].tag;
      ResolveKeeps(checked, tag, x);
      assert ANY_9F !in checked ==> Resolve(checked, tag) == checked;
      TableKeeps(Resolve(checked, tag), objs[1..], x);
    }
  }

  predicate OneWildcard(checked: seq<nat>) {
    forall i, j :: 0 <= i < j < |checked| && checked[i] == ANY_9F ==> checked[j] != ANY_9F
  }

  lemma ResolveUsesUp(checked: seq<nat>, tag: nat)
    requires OneWildcard(checked)
    ensures OneWildcard(Resolve(checked, tag))
    ensures IsSubTag(tag) ==> ANY_9F !in Resolve(checked, tag)
  {
    if IsSubTag(tag) && ANY_9F in checked {
      var i := IndexOf(checked, ANY_9F);
      forall k | 0 <= k < |checked| ensures Resolve(checked, tag)[k] != ANY_9F {
        assert k < i ==> checked[k] == checked[..i][k];
      }
    }
  }

  /** The first object of a list is looked up in the final table as it is looked up when it is met. */
  lemma HeadLookup(checked: seq<nat>, objs: seq<Obj>)
    requires OneWildcard(checked) && objs != [] && (ANY_9F in checked ==> objs[0].tag != ANY_9F)
    ensures var now, tag, table := Resolve(checked, objs[0].tag), objs[0].tag, Table(checked, objs);
            && (tag in now <==> tag in table)
            && (tag in now ==> IndexOf(now, tag) == IndexOf(table, tag))
  {
    if ANY_9F in checked {
      ResolveUsesUp(checked, objs[0].tag);
      TableKeeps(Resolve(checked, objs[0].tag), objs[1..], objs[0].tag);
    } else {
      TableWithoutWildcard(checked, objs);
    }
  }

  lemma ResolveAddsNoWildcard(checked: seq<nat>, tag: nat)
    ensures ANY_9F in Resolve(checked, tag) ==> ANY_9F in checked
  {
  }

  lemma ConsMeans(idx: TlvIndex, table: seq<nat>, objs: seq<Obj>)
    requires |table| == |ExpectedLength(idx)| && objs != []
    ensures LengthsFit(idx, table, objs) <==> FitsTable(idx, table, objs[0]) && LengthsFit(idx, table, objs[1..])
    ensures ShortOutside(table, objs) <==>
              (objs[0].tag in table || objs[0].form.Short?) && ShortOutside(table, objs[1..])
    ensures AllValid(objs) <==> objs[0].Valid() && AllValid(objs[1..])
  {
    assert objs == [objs[0]] + objs[1..];
  }

  /** Unless an object has the tag of the wildcard itself, what is expected does not depend on when it is met. */
  predicate NoWildcard(checked: seq<nat>, objs: seq<Obj>) {
    ANY_9F in checked ==> forall o :: o in objs ==> o.tag != ANY_9F
  }

  lemma RestHasNoWildcard(checked: seq<nat>, objs: seq<Obj>)
    requires OneWildcard(checked) && NoWildcard(checked, objs) && objs != []
    ensures var now := Resolve(checked, objs[0].tag);
            OneWildcard(now) && NoWildcard(now, objs[1..]) && Table(now, objs[1..]) == Table(checked, objs)
  {
    ResolveUsesUp(checked, objs[0].tag);
    ResolveAddsNoWildcard(checked, objs[0].tag);
  }

  lemma {:induction false} MetMeans(checked: seq<nat>, objs: seq<Obj>)
    requires OneWildcard(checked) && NoWildcard(checked, objs)
    ensures Met(checked, objs) == Expected(Table(checked, objs), objs)
    ensures objs != [] ==> (EndsMet(checked, objs) <==> objs[|objs| - 1].tag in Table(checked, objs))
    decreases |objs|
  {
    if objs != [] {
      HeadLookup(checked, objs);
      RestHasNoWildcard(checked, objs);
      MetMeans(Resolve(checked, objs[0].tag), objs[1..]);
    }
  }

  lemma {:induction false} FitsMeans(idx: TlvIndex, checked: seq<nat>, objs: seq<Obj>)
    requires |checked| == |ExpectedLength(idx)| && OneWildcard(checked) && NoWildcard(checked, objs)
    ensures Fits(idx, checked, objs) <==> LengthsFit(idx, Table(checked, objs), objs)
    decreases |objs|
  {
    if objs != [] {
      HeadLookup(checked, objs);
      RestHasNoWildcard(checked, objs);
      FitsMeans(idx, Resolve(checked, objs[0].tag), objs[1..]);
      ConsMeans(idx, Table(checked, objs), objs);
    }
  }

  lemma {:induction false} FollowedMeans(idx: TlvIndex, checked: seq<nat>, objs: seq<Obj>)
    requires |checked| == |ExpectedLength(idx)| && OneWildcard(checked) && NoWildcard(checked, objs)
    ensures Followed(checked, objs) <==> AllValid(objs) && ShortOutside(Table(checked, objs), objs)
    decreases |objs|
  {
    if objs != [] {
      HeadLookup(checked, objs);
      RestHasNoWildcard(checked, objs);
      FollowedMeans(idx, Resolve(checked, objs[0].tag), objs[1..]);
      ConsMeans(idx, Table(checked, objs), objs);
    }
  }

  lemma MetFromStart(idx: TlvIndex, objs: seq<Obj>)
    requires NoWildcard(ExpectedTags(idx), objs)
    ensures var checked, table := ExpectedTags(idx), Table(ExpectedTags(idx), objs);
            && Met(checked, objs) == Expected(table, objs)
            && (Fits(idx, checked, objs) <==> LengthsFit(idx, table, objs))
            && (objs != [] ==> (EndsMet(checked, objs) <==> objs[|objs| - 1].tag in table))
            && (Followed(checked, objs) <==> AllValid(objs) && ShortOutside(table, objs))
  {
    TablesAreDistinct(idx, objs);
    MetMeans(ExpectedTags(idx), objs);
    FitsMeans(idx, ExpectedTags(idx), objs);
    FollowedMeans(idx, ExpectedTags(idx), objs);
  }

  // ---------------------------------------------------------------- an unexpected object

  /** What an object says of its length in the first byte behind the tag. */
  function FirstByte(o: Obj): nat {
    match o.form
    case Short => |o.value|
    case Long1 => 0x81
    case Long2 => 0x82
  }

  lemma FirstLengthByte(s: seq<byte>, i: nat, o: Obj) returns (at: nat)
    requires o.Valid() && At(s, i, o.Bytes())
    ensures i < |s| && ReadTag(s, i) == Some((o.tag, at)) && at == i + |o.TagBytes()| < |s| && s[at] == FirstByte(o)
  {
    at := i + |o.TagBytes()|;
    ReadsTag(s, i, o);
    Middle(s, i, o.TagBytes(), o.LengthBytes(), o.value);
    FirstOf(s, at, o.LengthBytes());
  }

  lemma FirstOf(s: seq<byte>, i: nat, part: seq<byte>)
    requires At(s, i, part) && part != []
    ensures s[i] == part[0]
  {
    assert s[i..i + |part|][0] == s[i];
  }

  /**
   * Wherever it is met, an unexpected object moves the loop on by its tag, one byte, and as many as that byte says:
   * over the object if it has the short form, and by 129 or 130 bytes if it has not.
   */
  lemma UnexpectedSkips(s: seq<byte>, i: nat, idx: TlvIndex, checked: seq<nat>, tags: seq<nat>, o: Obj)
    requires |checked| == |ExpectedLength(idx)| && o.Valid() && At(s, i, o.Bytes())
    requires o.tag !in Resolve(checked, o.tag)
    ensures Verify(s, i, idx, checked, tags)
         == Verify(s, i + |o.TagBytes()| + 1 + FirstByte(o), idx, Resolve(checked, o.tag), tags)
  {
    var at := FirstLengthByte(s, i, o);
    StepsOver(s, i, idx, checked, tags, o.tag, at, i + |o.TagBytes()| + 1 + FirstByte(o));
  }

  lemma StepsOver(s: seq<byte>, i: nat, idx: TlvIndex, checked: seq<nat>, tags: seq<nat>, tag: nat, at: nat, next: nat)
    requires |checked| == |ExpectedLength(idx)| && i < |s| && ReadTag(s, i) == Some((tag, at)) && at < |s|
    requires tag !in Resolve(checked, tag) && next == at + 1 + s[at]
    ensures Verify(s, i, idx, checked, tags) == Verify(s, next, idx, Resolve(checked, tag), tags)
  {
    SkipsOne(s, i, idx, checked, tags, tag, at);
  }

  lemma SkipsOne(s: seq<byte>, i: nat, idx: TlvIndex, checked: seq<nat>, tags: seq<nat>, tag: nat, at: nat)
    requires |checked| == |ExpectedLength(idx)| && i < |s| && ReadTag(s, i) == Some((tag, at)) && at < |s|
    requires tag !in Resolve(checked, tag)
    ensures NextObject(s, i, idx, checked, tags) == Go(at + s[at] + 1, Resolve(checked, tag), tags)
  {
  }

  /** An expected object whose value is cut short ends the loop; it is checked for its length, and not listed. */
  lemma CutObjectEnds(s: seq<byte>, i: nat, idx: TlvIndex, checked: seq<nat>, tags: seq<nat>, tag: nat, at: nat,
                      length: nat, next: nat)
    requires |checked| == |ExpectedLength(idx)| && i < |s| && ReadTag(s, i) == Some((tag, at))
    requires ReadLength(s, at) == (length, next) && next + length > |s| && tag in Resolve(checked, tag)
    ensures var now := Resolve(checked, tag);
            var expected := ExpectedLength(idx)[IndexOf(now, tag)];
            Verify(s, i, idx, checked, tags)
            == if expected != -1 && expected != length then Some(TlvError)
               else if (if idx.EXCHANGE_CMD_BA? then AllIn(tags, now) else InOrder(tags, now, 0)) then None
               else Some(TlvError)
  {
    var now := Resolve(checked, tag);
    assert NextObject(s, i, idx, checked, tags)
        == ExpectedObject(s, at, tag, ExpectedLength(idx)[IndexOf(now, tag)], idx, now, tags);
    VerifyRound(s, i, idx, checked, tags, NextObject(s, i, idx, checked, tags));
  }

  /** The bytes from i to `end`, with more behind them, are the objects. */
  predicate Stands(s: seq<byte>, i: nat, end: nat, front: seq<Obj>) {
    AllValid(front) && i <= end < |s| && s[i..end] == ObjBytes(front)
  }

  lemma HeadStands(s: seq<byte>, i: nat, end: nat, front: seq<Obj>)
    requires front != [] && Stands(s, i, end, front)
    ensures At(s, i, front[0].Bytes()) && Stands(s, i + |front[0].Bytes()|, end, front[1..])
  {
    var window, head := s[i..end], front[0].Bytes();
    assert window[..|head|] == head && window[|head|..] == ObjBytes(front[1..]);
    assert s[i..i + |head|] == window[..|head|] && s[i + |head|..end] == window[|head|..];
  }

  /** A round from i takes an object that fits, and goes on at `next` with these two lists; else it raises. */
  predicate Takes(s: seq<byte>, i: nat, next: nat, idx: TlvIndex, checked: seq<nat>, tags: seq<nat>, now: seq<nat>,
                  found: seq<nat>, fits: bool)
    requires |checked| == |now| == |ExpectedLength(idx)|
  {
    i < |s| && NextObject(s, i, idx, checked, tags) == if fits then Go(next, now, found) else Raise(TlvError)
  }

  /** A point of the loop at an object that it can follow, with more behind it at `next`. */
  predicate HeadReady(s: seq<byte>, i: nat, next: nat, idx: TlvIndex, checked: seq<nat>, tags: seq<nat>, o: Obj) {
    && |checked| == |ExpectedLength(idx)| && o.Valid() && At(s, i, o.Bytes()) && next == i + |o.Bytes()| < |s|
    && (o.tag in Resolve(checked, o.tag) || o.form.Short?)
    && (idx.EXCHANGE_CMD_BA? ==> ANY_9F !in checked && AllIn(tags, checked))
  }

  function Found(tags: seq<nat>, tag: nat, now: seq<nat>): seq<nat> {
    if tag in now then tags + [tag] else tags
  }

  lemma OneInFront(s: seq<byte>, i: nat, next: nat, idx: TlvIndex, checked: seq<nat>, tags: seq<nat>, o: Obj)
    requires HeadReady(s, i, next, idx, checked, tags, o)
    ensures var now := Resolve(checked, o.tag);
            Takes(s, i, next, idx, checked, tags, now, Found(tags, o.tag, now), FitsTable(idx, now, o))
  {
    OneObject(s, i, o, idx, checked, tags);
    NeverMissing(idx, checked, tags, o.tag);
  }

  /** One round of the loop. */
  lemma VerifyRound(s: seq<byte>, i: nat, idx: TlvIndex, checked: seq<nat>, tags: seq<nat>, step: Step)
    requires |checked| == |ExpectedLength(idx)| && i < |s| && NextObject(s, i, idx, checked, tags) == step
    ensures Verify(s, i, idx, checked, tags)
         == match step
            case Raise(e) => Some(e)
            case Go(next, checked', tags') => Verify(s, next, idx, checked', tags')
  {
  }

  /** What is raised from a position on, with the two lists as they are there. */
  type Loop = (nat, seq<nat>, seq<nat>) -> Option<Error>

  function LoopOf(s: seq<byte>, idx: TlvIndex): Loop {
    (i: nat, checked: seq<nat>, tags: seq<nat>) =>
      if |checked| == |ExpectedLength(idx)| then Verify(s, i, idx, checked, tags) else None
  }

  /** From each of the positions to the next one, a round of the loop takes one of the objects. */
  predicate Rounds(loop: Loop, at: seq<nat>, idx: TlvIndex, checked: seq<nat>, tags: seq<nat>, front: seq<Obj>)
    requires |checked| == |ExpectedLength(idx)| && |at| == |front| + 1
    decreases |front|
  {
    front == [] ||
    var tag, now := front[0].tag, Resolve(checked, front[0].tag);
    var found := Found(tags, tag, now);
    && loop(at[0], checked, tags) == (if FitsTable(idx, now, front[0]) then loop(at[1], now, found) else Some(TlvError))
    && Rounds(loop, at[1..], idx, now, found, front[1..])
  }

  /** The objects are checked, and then the loop goes on behind them. */
  function Behind(loop: Loop, end: nat, idx: TlvIndex, checked: seq<nat>, tags: seq<nat>, front: seq<Obj>)
    : Option<Error>
    requires |checked| == |ExpectedLength(idx)|
  {
    if Fits(idx, checked, front) then loop(end, Table(checked, front), tags + Met(checked, front)) else Some(TlvError)
  }

  lemma BehindCons(loop: Loop, end: nat, idx: TlvIndex, checked: seq<nat>, tags: seq<nat>, front: seq<Obj>)
    requires |checked| == |ExpectedLength(idx)| && front != []
    ensures var tag, now := front[0].tag, Resolve(checked, front[0].tag);
            var found := Found(tags, tag, now);
            Behind(loop, end, idx, checked, tags, front)
            == if FitsTable(idx, now, front[0]) then Behind(loop, end, idx, now, found, front[1..]) else Some(TlvError)
  {
    MetCons(checked, tags, front);
  }

  lemma {:induction false} RoundsDecide(loop: Loop, at: seq<nat>, idx: TlvIndex, checked: seq<nat>, tags: seq<nat>,
                                        front: seq<Obj>)
    requires |checked| == |ExpectedLength(idx)| && |at| == |front| + 1
    requires Rounds(loop, at, idx, checked, tags, front)
    ensures loop(at[0], checked, tags) == Behind(loop, at[|front|], idx, checked, tags, front)
    decreases |front|
  {
    if front == [] {
      assert tags + [] == tags;
    } else {
      var tag, now := front[0].tag, Resolve(checked, front[0].tag);
      BehindCons(loop, at[|front|], idx, checked, tags, front);
      RoundsDecide(loop, at[1..], idx, now, Found(tags, tag, now), front[1..]);
    }
  }

  /** A point of the loop with objects in front of others. */
  predicate InFront(s: seq<byte>, i: nat, end: nat, idx: TlvIndex, checked: seq<nat>, tags: seq<nat>, front: seq<Obj>)
  {
    && |checked| == |ExpectedLength(idx)| && Followed(checked, front) && Stands(s, i, end, front)
    && (idx.EXCHANGE_CMD_BA? ==> ANY_9F !in checked && AllIn(tags, checked))
  }

  lemma StaysInFront(s: seq<byte>, i: nat, end: nat, idx: TlvIndex, checked: seq<nat>, tags: seq<nat>,
                     front: seq<Obj>) returns (next: nat)
    requires front != [] && InFront(s, i, end, idx, checked, tags, front)
    ensures var tag, now := front[0].tag, Resolve(checked, front[0].tag);
            && HeadReady(s, i, next, idx, checked, tags, front[0])
            && InFront(s, next, end, idx, now, Found(tags, tag, now), front[1..])
  {
    HeadStands(s, i, end, front);
    NeverMissing(idx, checked, tags, front[0].tag);
    next := i + |front[0].Bytes()|;
  }

  lemma FrontRound(s: seq<byte>, i: nat, next: nat, idx: TlvIndex, checked: seq<nat>, tags: seq<nat>, now: seq<nat>,
                   found: seq<nat>, fits: bool)
    requires |checked| == |now| == |ExpectedLength(idx)| && Takes(s, i, next, idx, checked, tags, now, found, fits)
    ensures LoopOf(s, idx)(i, checked, tags) == if fits then LoopOf(s, idx)(next, now, found) else Some(TlvError)
  {
    VerifyRound(s, i, idx, checked, tags, if fits then Go(next, now, found) else Raise(TlvError));
  }

  /** From each of the positions to the next one, a round takes one of the objects. */
  predicate Path(s: seq<byte>, at: seq<nat>, idx: TlvIndex, checked: seq<nat>, tags: seq<nat>, front: seq<Obj>)
    requires |checked| == |ExpectedLength(idx)| && |at| == |front| + 1
    decreases |front|
  {
    front == [] ||
    var tag, now := front[0].tag, Resolve(checked, front[0].tag);
    var found := Found(tags, tag, now);
    && Takes(s, at[0], at[1], idx, checked, tags, now, found, FitsTable(idx, now, front[0]))
    && Path(s, at[1..], idx, now, found, front[1..])
  }

  lemma {:induction false} FrontPath(s: seq<byte>, i: nat, end: nat, idx: TlvIndex, checked: seq<nat>, tags: seq<nat>,
                                     front: seq<Obj>) returns (at: seq<nat>)
    requires InFront(s, i, end, idx, checked, tags, front)
    ensures |at| == |front| + 1 && at[0] == i && at[|front|] == end
    ensures Path(s, at, idx, checked, tags, front)
    decreases |front|
  {
    if front == [] {
      at := [i];
    } else {
      var o, now := front[0], Resolve(checked, front[0].tag);
      var next := StaysInFront(s, i, end, idx, checked, tags, front);
      var rest := FrontPath(s, next, end, idx, now, Found(tags, o.tag, now), front[1..]);
      at := [i] + rest;
      OneInFront(s, i, next, idx, checked, tags, o);
      PathCons(s, i, rest, idx, checked, tags, front);
    }
  }

  lemma PathCons(s: seq<byte>, i: nat, rest: seq<nat>, idx: TlvIndex, checked: seq<nat>, tags: seq<nat>,
                 front: seq<Obj>)
    requires |checked| == |ExpectedLength(idx)| && |rest| == |front| > 0
    requires var tag, now := front[0].tag, Resolve(checked, front[0].tag);
             && Takes(s, i, rest[0], idx, checked, tags, now, Found(tags, tag, now), FitsTable(idx, now, front[0]))
             && Path(s, rest, idx, now, Found(tags, tag, now), front[1..])
    ensures Path(s, [i] + rest, idx, checked, tags, front)
  {
    assert ([i] + rest)[1..] == rest;
  }

  lemma {:induction false} PathRounds(s: seq<byte>, at: seq<nat>, idx: TlvIndex, checked: seq<nat>, tags: seq<nat>,
                                      front: seq<Obj>)
    requires |checked| == |ExpectedLength(idx)| && |at| == |front| + 1 && Path(s, at, idx, checked, tags, front)
    ensures Rounds(LoopOf(s, idx), at, idx, checked, tags, front)
    decreases |front|
  {
    if front != [] {
      var tag, now := front[0].tag, Resolve(checked, front[0].tag);
      var found := Found(tags, tag, now);
      FrontRound(s, at[0], at[1], idx, checked, tags, now, found, FitsTable(idx, now, front[0]));
      PathRounds(s, at[1..], idx, now, found, front[1..]);
    }
  }

  lemma {:induction false} FirstUnfollowed(checked: seq<nat>, objs: seq<Obj>) returns (k: nat)
    requires AllValid(objs) && !Followed(checked, objs)
    ensures k < |objs| && Followed(checked, objs[..k]) && !objs[k].form.Short?
    ensures objs[k].tag !in Resolve(Table(checked, objs[..k]), objs[k].tag)
    decreases |objs|
  {
    var now := Resolve(checked, objs[0].tag);
    if objs[0].tag !in now && !objs[0].form.Short? {
      k := 0;
    } else {
      var rest := FirstUnfollowed(now, objs[1..]);
      k := rest + 1;
      assert objs[..k][1..] == objs[1..][..rest] && objs[..k][0] == objs[0];
    }
  }

  lemma {:induction false} ObjBytesConcat(a: seq<Obj>, b: seq<Obj>)
    requires AllValid(a) && AllValid(b)
    ensures AllValid(a + b) && ObjBytes(a + b) == ObjBytes(a) + ObjBytes(b)
  {
    if a == [] {
      assert [] + b == b;
    } else {
      assert (a + b)[1..] == a[1..] + b;
      ObjBytesConcat(a[1..], b);
      assert ObjBytes(a + b) == a[0].Bytes() + (ObjBytes(a[1..]) + ObjBytes(b));
    }
  }

  /** The objects in front are checked, and then the loop goes on wherever the next one's first length byte leads. */
  predicate SkipsFrom(s: seq<byte>, end: nat, idx: TlvIndex, checked: seq<nat>, front: seq<Obj>, o: Obj)
    requires |checked| == |ExpectedLength(idx)| && o.Valid()
  {
    Verify(s, 0, idx, checked, [])
    == if !Fits(idx, checked, front) then Some(TlvError)
       else Verify(s, end + |o.TagBytes()| + 1 + FirstByte(o), idx, Resolve(Table(checked, front), o.tag),
                   Met(checked, front))
  }

  /** The remaining lists of objects, in which some unexpected object has a longer length form. */
  lemma UnfollowedSkips(idx: TlvIndex, objs: seq<Obj>) returns (k: nat)
    requires AllValid(objs) && !Followed(ExpectedTags(idx), objs)
    ensures k < |objs| && Followed(ExpectedTags(idx), objs[..k]) && !objs[k].form.Short?
    ensures objs[k].tag !in Resolve(Table(ExpectedTags(idx), objs[..k]), objs[k].tag)
    ensures SkipsFrom(ObjBytes(objs), |ObjBytes(objs[..k])|, idx, ExpectedTags(idx), objs[..k], objs[k])
  {
    k := FirstUnfollowed(ExpectedTags(idx), objs);
    FrontStands(objs, k);
    OnlyNotificationsHaveWildcard(idx);
    SkipsBehind(ObjBytes(objs), |ObjBytes(objs[..k])|, idx, ExpectedTags(idx), objs[..k], objs[k]);
  }

  lemma SkipsBehind(s: seq<byte>, end: nat, idx: TlvIndex, checked: seq<nat>, front: seq<Obj>, o: Obj)
    requires |checked| == |ExpectedLength(idx)| && Followed(checked, front) && Stands(s, 0, end, front)
    requires idx.EXCHANGE_CMD_BA? ==> ANY_9F !in checked
    requires o.Valid() && At(s, end, o.Bytes()) && o.tag !in Resolve(Table(checked, front), o.tag)
    ensures SkipsFrom(s, end, idx, checked, front, o)
  {
    var at := FrontPath(s, 0, end, idx, checked, [], front);
    PathRounds(s, at, idx, checked, [], front);
    RoundsDecide(LoopOf(s, idx), at, idx, checked, [], front);
    UnexpectedSkips(s, end, idx, Table(checked, front), Met(checked, front), o);
    assert [] + Met(checked, front) == Met(checked, front);
  }

  lemma FrontStands(objs: seq<Obj>, k: nat)
    requires AllValid(objs) && k < |objs|
    ensures var s, end := ObjBytes(objs), |ObjBytes(objs[..k])|;
            Stands(s, 0, end, objs[..k]) && At(s, end, objs[k].Bytes())
  {
    var front, back := objs[..k], objs[k..];
    assert objs == front + back;
    ObjBytesConcat(front, back);
    var s, end := ObjBytes(objs), |ObjBytes(front)|;
    assert s[0..end] == ObjBytes(front) && s[end..] == ObjBytes(back);
    assert back[0] == objs[k] && ObjBytes(back) == objs[k].Bytes() + ObjBytes(back[1..]);
    SplitsAt(s, end, objs[k].Bytes(), ObjBytes(back[1..]));
  }
}
