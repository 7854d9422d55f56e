/**
 * `EncryptionEngine`: two counters and two keys at each end. AES-GCM itself is a parameter of which only the
 * correctness of an authenticated cipher is known; its nonces follow section 8.2.1 of NIST SP 800-38D.
 */
module Encryption {
  import opened Basics

  type Key = seq<byte>

  const TAG_LENGTH: nat := 16
  const COUNTER_END: nat := 0x1_0000_0000

  /** `n.to_bytes(4, "big")` */
  function U32(n: nat): (s: seq<byte>)
    requires n < COUNTER_END
    ensures |s| == 4
  {
    U16(n / 0x1_0000) + U16(n % 0x1_0000)
  }

  lemma U32Injective(m: nat, n: nat)
    requires m < COUNTER_END && n < COUNTER_END && U32(m) == U32(n)
    ensures m == n
  {
    assert U32(m)[..2] == U16(m / 0x1_0000) && U32(m)[2..] == U16(m % 0x1_0000);
    assert U32(n)[..2] == U16(n / 0x1_0000) && U32(n)[2..] == U16(n % 0x1_0000);
    BigEndianU16(m / 0x1_0000);
    BigEndianU16(n / 0x1_0000);
    BigEndianU16(m % 0x1_0000);
    BigEndianU16(n % 0x1_0000);
  }

  datatype Sealed = Sealed(text: seq<byte>, tag: seq<byte>)
  {
    function Wire(): seq<byte> {
      text + tag
    }
  }

  /** `data[:-16]` and `data[-16:]` */
  function FromWire(data: seq<byte>): Sealed {
    if |data| < TAG_LENGTH then Sealed([], data) else Sealed(data[..|data| - TAG_LENGTH], data[|data| - TAG_LENGTH..])
  }

  lemma WireRoundTrip(c: Sealed)
    requires |c.tag| == TAG_LENGTH
    ensures FromWire(c.Wire()) == c
  {
    assert c.Wire()[..|c.text|] == c.text && c.Wire()[|c.text|..] == c.tag;
  }

  /** An authenticated cipher: what it opens under a key, nonce and associated data is exactly what it sealed there. */
  datatype Aead = Aead(seal: (Key, seq<byte>, seq<byte>, seq<byte>) -> Sealed,
                       open: (Key, seq<byte>, seq<byte>, Sealed) -> Option<seq<byte>>)
  {
    ghost predicate Correct() {
      && (forall k, iv, ad, p :: |seal(k, iv, ad, p).text| == |p| && |seal(k, iv, ad, p).tag| == TAG_LENGTH)
      && (forall k, iv, ad, p, c {:trigger open(k, iv, ad, c), seal(k, iv, ad, p)} ::
            open(k, iv, ad, c) == Some(p) <==> c == seal(k, iv, ad, p))
    }

    lemma OpensWhatWasSealed(k: Key, iv: seq<byte>, ad: seq<byte>, p: seq<byte>)
      requires Correct()
      ensures open(k, iv, ad, seal(k, iv, ad, p)) == Some(p)
    {
    }
  }

  datatype Role = Reader | User

  /** The fields of an engine. */
  datatype Engine = Engine(role: Role, encryptionKey: Key, decryptionKey: Key, enc: nat, dec: nat)
  {
    /** The first eight bytes of a nonce name the sender. */
    function EncryptionIv(): seq<byte>
      requires enc < COUNTER_END
    {
      Iv(role, enc)
    }

    function DecryptionIv(): seq<byte>
      requires dec < COUNTER_END
    {
      Iv(if role.Reader? then User else Reader, dec)
    }

    /** `check_counters_valid` */
    predicate CountersValid() {
      enc < 0xFFFF && dec < 0xFFFF
    }

    function Encrypt(aead: Aead, data: seq<byte>, ad: seq<byte>): (Engine, Result<Sealed>)
    {
      if enc >= COUNTER_END then (this, Err(OverflowError))
      else (this.(enc := enc + 1), Ok(aead.seal(encryptionKey, EncryptionIv(), ad, data)))
    }

    /** The counter moves on whether the verification succeeds or not. */
    function Decrypt(aead: Aead, c: Sealed, ad: seq<byte>): (Engine, Result<seq<byte>>)
    {
      if dec >= COUNTER_END then (this, Err(OverflowError))
      else
        (this.(dec := dec + 1),
         match aead.open(decryptionKey, DecryptionIv(), ad, c)
         case Some(p) => Ok(p)
         case None => Err(VerificationError))
    }
  }

  function Iv(sender: Role, counter: nat): (iv: seq<byte>)
    requires counter < COUNTER_END
    ensures |iv| == 12
  {
    [0, 0, 0, 0, 0, 0, 0, if sender.Reader? then 0 else 1] + U32(counter)
  }

  lemma IvInjective(r: Role, m: nat, r': Role, n: nat)
    requires m < COUNTER_END && n < COUNTER_END && Iv(r, m) == Iv(r', n)
    ensures r == r' && m == n
  {
    assert Iv(r, m)[7] == Iv(r', n)[7];
    assert Iv(r, m)[8..] == U32(m) && Iv(r', n)[8..] == U32(n);
    U32Injective(m, n);
  }

  function NewEngine(role: Role, skReader: Key, skDevice: Key): Engine {
    if role.Reader? then Engine(role, skReader, skDevice, 1, 1) else Engine(role, skDevice, skReader, 1, 1)
  }

  /** Which key and nonce a message is sealed under, by the direction it goes: the reader's have the prefix of zeros. */
  lemma SealedByDirection(aead: Aead, skReader: Key, skDevice: Key, n: nat, data: seq<byte>, ad: seq<byte>)
    requires 1 <= n < COUNTER_END
    ensures NewEngine(Reader, skReader, skDevice).(enc := n).Encrypt(aead, data, ad).1
         == Ok(aead.seal(skReader, [0, 0, 0, 0, 0, 0, 0, 0] + U32(n), ad, data))
    ensures NewEngine(User, skReader, skDevice).(enc := n).Encrypt(aead, data, ad).1
         == Ok(aead.seal(skDevice, [0, 0, 0, 0, 0, 0, 0, 1] + U32(n), ad, data))
    ensures NewEngine(Reader, skReader, skDevice).enc == NewEngine(User, skReader, skDevice).enc == 1
  {
  }

  class EncryptionEngine {
    const role: Role
    const encryptionKey: Key
    const decryptionKey: Key
    var encryptionCounter: nat
    var decryptionCounter: nat

    function View(): Engine
      reads this
    {
      Engine(role, encryptionKey, decryptionKey, encryptionCounter, decryptionCounter)
    }

    constructor (role: Role, skReader: Key, skDevice: Key)
      ensures View() == NewEngine(role, skReader, skDevice)
    {
      this.role := role;
      encryptionCounter, decryptionCounter := 1, 1;
      encryptionKey := if role.Reader? then skReader else skDevice;
      decryptionKey := if role.Reader? then skDevice else skReader;
    }

    method CheckCountersValid() returns (valid: bool)
      ensures valid == View().CountersValid()
    {
      if encryptionCounter >= 0xFFFF {
        return false;
      }
      if decryptionCounter >= 0xFFFF {
        return false;
      }
      return true;
    }

    method Encrypt(aead: Aead, data: seq<byte>, ad: seq<byte>) returns (r: Result<Sealed>)
      modifies this`encryptionCounter
      ensures (View(), r) == old(View()).Encrypt(aead, data, ad)
    {
      if encryptionCounter >= COUNTER_END {
        return Err(OverflowError);
      }
      var iv := Iv(role, encryptionCounter);
      r := Ok(aead.seal(encryptionKey, iv, ad, data));
      encryptionCounter := encryptionCounter + 1;
    }

    method Decrypt(aead: Aead, c: Sealed, ad: seq<byte>) returns (r: Result<seq<byte>>)
      modifies this`decryptionCounter
      ensures (View(), r) == old(View()).Decrypt(aead, c, ad)
    {
      if decryptionCounter >= COUNTER_END {
        return Err(OverflowError);
      }
      var iv := Iv(if role.Reader? then User else Reader, decryptionCounter);
      var plain := aead.open(decryptionKey, iv, ad, c);
      if plain.None? {
        decryptionCounter := decryptionCounter + 1;
        return Err(VerificationError);
      }
      decryptionCounter := decryptionCounter + 1;
      return Ok(plain.value);
    }
  }

  // ---------------------------------------------------------------- two engines and two lanes

  /** A message as its sender sent it; `intact` falls when somebody replaces it on the way. */
  datatype Message = Message(plain: seq<byte>, ad: seq<byte>, iv: seq<byte>, intact: bool)

  /** One direction: everything sent, the packets in flight, and what the receiver made of those delivered. */
  datatype Lane = Lane(sent: seq<Message>, flight: seq<Sealed>, got: seq<Result<seq<byte>>>)

  datatype Channel = Channel(reader: Engine, user: Engine, fromReader: Lane, fromUser: Lane)

  datatype Action =
    | Send(from: Role, plain: seq<byte>, ad: seq<byte>)
    | Deliver(from: Role)
    | Replace(from: Role, index: nat, packet: Sealed)

  /** A send fails, and nothing leaves, once the counter no longer fits four bytes. */
  function SendOn(aead: Aead, sender: Engine, lane: Lane, plain: seq<byte>, ad: seq<byte>): (Engine, Lane)
  {
    var (sender', packet) := sender.Encrypt(aead, plain, ad);
    match packet
    case Err(_) => (sender', lane)
    case Ok(c) => (sender', Lane(lane.sent + [Message(plain, ad, sender.EncryptionIv(), true)], lane.flight + [c],
                                 lane.got))
  }

  function DeliverOn(aead: Aead, receiver: Engine, lane: Lane): (Engine, Lane)
  {
    if lane.flight == [] || |lane.got| >= |lane.sent| then (receiver, lane)
    else
      var (receiver', result) := receiver.Decrypt(aead, lane.flight[0], lane.sent[|lane.got|].ad);
      (receiver', Lane(lane.sent, lane.flight[1..], lane.got + [result]))
  }

  function ReplaceOn(lane: Lane, index: nat, packet: Sealed): Lane
  {
    var i := |lane.got| + index;
    if index >= |lane.flight| || i >= |lane.sent| then lane
    else Lane(lane.sent[i := lane.sent[i].(intact := false)], lane.flight[index := packet], lane.got)
  }

  function Act(aead: Aead, ch: Channel, action: Action): Channel
  {
    match action
    case Send(Reader, plain, ad) =>
      var (e, lane) := SendOn(aead, ch.reader, ch.fromReader, plain, ad);
      ch.(reader := e, fromReader := lane)
    case Send(User, plain, ad) =>
      var (e, lane) := SendOn(aead, ch.user, ch.fromUser, plain, ad);
      ch.(user := e, fromUser := lane)
    case Deliver(Reader) =>
      var (e, lane) := DeliverOn(aead, ch.user, ch.fromReader);
      ch.(user := e, fromReader := lane)
    case Deliver(User) =>
      var (e, lane) := DeliverOn(aead, ch.reader, ch.fromUser);
      ch.(reader := e, fromUser := lane)
    case Replace(Reader, index, packet) => ch.(fromReader := ReplaceOn(ch.fromReader, index, packet))
    case Replace(User, index, packet) => ch.(fromUser := ReplaceOn(ch.fromUser, index, packet))
  }

  function RunChannel(aead: Aead, ch: Channel, actions: seq<Action>): Channel
  {
    if actions == [] then ch else Act(aead, RunChannel(aead, ch, actions[..|actions| - 1]), actions[|actions| - 1])
  }

  function StartChannel(skReader: Key, skDevice: Key): Channel {
    Channel(NewEngine(Reader, skReader, skDevice), NewEngine(User, skReader, skDevice), Lane([], [], []),
            Lane([], [], []))
  }

  // ---------------------------------------------------------------- what every run keeps

  /** The i-th message was sealed under the i-th nonce of its sender. */
  predicate Numbered(sender: Role, m: Message, i: nat) {
    i + 1 < COUNTER_END && m.iv == Iv(sender, i + 1)
  }

  predicate InFlight(aead: Aead, key: Key, m: Message, c: Sealed) {
    m.intact ==> c == aead.seal(key, m.iv, m.ad, m.plain)
  }

  /** An intact message is delivered as it was sent; any other packet only if it is a seal for this very place. */
  predicate Delivered(aead: Aead, key: Key, m: Message, r: Result<seq<byte>>) {
    if m.intact then r == Ok(m.plain) else r.Ok? || r == Err(VerificationError)
  }

  /** A lane whose sender is at counter `enc` and whose receiver is at `dec`. */
  predicate LaneInvariant(aead: Aead, sender: Role, key: Key, enc: nat, dec: nat, lane: Lane) {
    && enc == dec + |lane.flight| && enc == |lane.sent| + 1 && dec == |lane.got| + 1
    && enc <= COUNTER_END
    && (forall i :: 0 <= i < |lane.sent| ==> Numbered(sender, lane.sent[i], i))
    && (forall k :: 0 <= k < |lane.flight| ==> InFlight(aead, key, lane.sent[|lane.got| + k], lane.flight[k]))
    && (forall i :: 0 <= i < |lane.got| ==> Delivered(aead, key, lane.sent[i], lane.got[i]))
  }

  lemma SendKeeps(aead: Aead, sender: Engine, dec: nat, lane: Lane, plain: seq<byte>, ad: seq<byte>)
    requires LaneInvariant(aead, sender.role, sender.encryptionKey, sender.enc, dec, lane)
    ensures var (sender', lane') := SendOn(aead, sender, lane, plain, ad);
            && sender' == sender.(enc := sender'.enc)
            && LaneInvariant(aead, sender.role, sender.encryptionKey, sender'.enc, dec, lane')
  {
  }

  lemma DeliverKeeps(aead: Aead, sender: Role, enc: nat, receiver: Engine, lane: Lane)
    requires aead.Correct() && sender != receiver.role
    requires LaneInvariant(aead, sender, receiver.decryptionKey, enc, receiver.dec, lane)
    ensures var (receiver', lane') := DeliverOn(aead, receiver, lane);
            && receiver' == receiver.(dec := receiver'.dec)
            && LaneInvariant(aead, sender, receiver.decryptionKey, enc, receiver'.dec, lane')
  {
    if lane.flight != [] && |lane.got| < |lane.sent| {
      var key, m, c := receiver.decryptionKey, lane.sent[|lane.got|], lane.flight[0];
      assert InFlight(aead, key, lane.sent[|lane.got| + 0], c);
      assert Numbered(sender, m, |lane.got|);
      aead.OpensWhatWasSealed(key, m.iv, m.ad, m.plain);
      var (_, lane') := DeliverOn(aead, receiver, lane);
      assert Delivered(aead, key, m, lane'.got[|lane.got|]);
      forall k | 0 <= k < |lane'.flight|
        ensures InFlight(aead, key, lane'.sent[|lane'.got| + k], lane'.flight[k])
      {
        assert lane'.flight[k] == lane.flight[k + 1];
        assert InFlight(aead, key, lane.sent[|lane.got| + (k + 1)], lane.flight[k + 1]);
      }
    }
  }

  lemma ReplaceKeeps(aead: Aead, sender: Role, key: Key, enc: nat, dec: nat, lane: Lane, index: nat, packet: Sealed)
    requires LaneInvariant(aead, sender, key, enc, dec, lane)
    ensures LaneInvariant(aead, sender, key, enc, dec, ReplaceOn(lane, index, packet))
  {
    var lane' := ReplaceOn(lane, index, packet);
    forall i | 0 <= i < |lane'.sent| ensures Numbered(sender, lane'.sent[i], i) {
      assert Numbered(sender, lane.sent[i], i);
    }
    forall k | 0 <= k < |lane'.flight|
      ensures InFlight(aead, key, lane'.sent[|lane'.got| + k], lane'.flight[k])
    {
      ReplaceKeepsFlight(aead, key, lane, index, packet, k);
    }
    forall i | 0 <= i < |lane'.got| ensures Delivered(aead, key, lane'.sent[i], lane'.got[i]) {
      assert Delivered(aead, key, lane.sent[i], lane.got[i]);
    }
  }

  lemma ReplaceKeepsFlight(aead: Aead, key: Key, lane: Lane, index: nat, packet: Sealed, k: nat)
    requires k < |lane.flight| && |lane.got| + k < |lane.sent|
    requires InFlight(aead, key, lane.sent[|lane.got| + k], lane.flight[k])
    ensures var lane' := ReplaceOn(lane, index, packet);
            InFlight(aead, key, lane'.sent[|lane.got| + k], lane'.flight[k])
  {
  }

  /** Opposite roles and crossed keys. */
  predicate Paired(reader: Engine, user: Engine) {
    && reader.role == Reader && user.role == User
    && reader.encryptionKey == user.decryptionKey && user.encryptionKey == reader.decryptionKey
  }

  predicate ChannelInvariant(aead: Aead, ch: Channel) {
    && Paired(ch.reader, ch.user)
    && LaneInvariant(aead, Reader, ch.reader.encryptionKey, ch.reader.enc, ch.user.dec, ch.fromReader)
    && LaneInvariant(aead, User, ch.user.encryptionKey, ch.user.enc, ch.reader.dec, ch.fromUser)
  }

  lemma ActKeeps(aead: Aead, ch: Channel, action: Action)
    requires aead.Correct() && ChannelInvariant(aead, ch)
    ensures ChannelInvariant(aead, Act(aead, ch, action))
  {
    match action
    case Send(Reader, plain, ad) => SendKeeps(aead, ch.reader, ch.user.dec, ch.fromReader, plain, ad);
    case Send(User, plain, ad) => SendKeeps(aead, ch.user, ch.reader.dec, ch.fromUser, plain, ad);
    case Deliver(Reader) => DeliverKeeps(aead, Reader, ch.reader.enc, ch.user, ch.fromReader);
    case Deliver(User) => DeliverKeeps(aead, User, ch.user.enc, ch.reader, ch.fromUser);
    case Replace(Reader, index, packet) =>
      ReplaceKeeps(aead, Reader, ch.reader.encryptionKey, ch.reader.enc, ch.user.dec, ch.fromReader, index, packet);
    case Replace(User, index, packet) =>
      ReplaceKeeps(aead, User, ch.user.encryptionKey, ch.user.enc, ch.reader.dec, ch.fromUser, index, packet);
  }

  /** Sends and deliveries of both sides, in any order, keep the two engines paired in both directions. */
  lemma {:induction false} EveryRunIsPaired(aead: Aead, skReader: Key, skDevice: Key, actions: seq<Action>)
    requires aead.Correct()
    ensures ChannelInvariant(aead, RunChannel(aead, StartChannel(skReader, skDevice), actions))
  {
    if actions != [] {
      var before := actions[..|actions| - 1];
      EveryRunIsPaired(aead, skReader, skDevice, before);
      ActKeeps(aead, RunChannel(aead, StartChannel(skReader, skDevice), before), actions[|actions| - 1]);
    }
  }

  /** The plaintexts of a lane, and those of the results that are plaintexts. */
  function Plains(sent: seq<Message>): seq<Result<seq<byte>>> {
    seq(|sent|, i requires 0 <= i < |sent| => Ok(sent[i].plain))
  }

  predicate Untouched(lane: Lane) {
    forall i :: 0 <= i < |lane.sent| ==> lane.sent[i].intact
  }

  lemma {:induction false} NobodyReplaced(aead: Aead, ch: Channel, actions: seq<Action>)
    requires Untouched(ch.fromReader) && Untouched(ch.fromUser)
    requires forall a :: a in actions ==> !a.Replace?
    ensures Untouched(RunChannel(aead, ch, actions).fromReader) && Untouched(RunChannel(aead, ch, actions).fromUser)
  {
    if actions != [] {
      NobodyReplaced(aead, ch, actions[..|actions| - 1]);
      assert actions[|actions| - 1] in actions;
    }
  }

  /** A first-in-first-out channel: what has been delivered is a prefix of what has been sent, in both directions. */
  lemma PairedEnginesAreFifo(aead: Aead, skReader: Key, skDevice: Key, actions: seq<Action>)
    requires aead.Correct() && forall a :: a in actions ==> !a.Replace?
    ensures var ch := RunChannel(aead, StartChannel(skReader, skDevice), actions);
            && ch.reader.enc == ch.user.dec + |ch.fromReader.flight| && ch.fromReader.got <= Plains(ch.fromReader.sent)
            && ch.user.enc == ch.reader.dec + |ch.fromUser.flight| && ch.fromUser.got <= Plains(ch.fromUser.sent)
  {
    EveryRunIsPaired(aead, skReader, skDevice, actions);
    NobodyReplaced(aead, StartChannel(skReader, skDevice), actions);
    var ch := RunChannel(aead, StartChannel(skReader, skDevice), actions);
    PrefixOfSent(aead, Reader, ch.reader.encryptionKey, ch.reader.enc, ch.user.dec, ch.fromReader);
    PrefixOfSent(aead, User, ch.user.encryptionKey, ch.user.enc, ch.reader.dec, ch.fromUser);
  }

  lemma PrefixOfSent(aead: Aead, sender: Role, key: Key, enc: nat, dec: nat, lane: Lane)
    requires LaneInvariant(aead, sender, key, enc, dec, lane) && Untouched(lane)
    ensures lane.got <= Plains(lane.sent)
  {
    forall i | 0 <= i < |lane.got| ensures lane.got[i] == Plains(lane.sent)[i] {
      assert Delivered(aead, key, lane.sent[i], lane.got[i]);
    }
  }

  lemma NumberedDiffer(r: Role, m: Message, i: nat, r': Role, m': Message, j: nat)
    requires Numbered(r, m, i) && Numbered(r', m', j) && (r != r' || i != j)
    ensures m.iv != m'.iv
  {
    if m.iv == m'.iv {
      IvInjective(r, i + 1, r', j + 1);
    }
  }

  /** No nonce is used twice, neither by one side nor by both. */
  lemma NoncesNeverRepeat(aead: Aead, skReader: Key, skDevice: Key, actions: seq<Action>)
    requires aead.Correct()
    ensures var ch := RunChannel(aead, StartChannel(skReader, skDevice), actions);
            var r, d := ch.fromReader.sent, ch.fromUser.sent;
            && (forall i, j :: 0 <= i < j < |r| ==> r[i].iv != r[j].iv)
            && (forall i, j :: 0 <= i < j < |d| ==> d[i].iv != d[j].iv)
            && (forall i, j :: 0 <= i < |r| && 0 <= j < |d| ==> r[i].iv != d[j].iv)
  {
    EveryRunIsPaired(aead, skReader, skDevice, actions);
    var ch := RunChannel(aead, StartChannel(skReader, skDevice), actions);
    var r, d := ch.fromReader.sent, ch.fromUser.sent;
    forall i, j | 0 <= i < j < |r| ensures r[i].iv != r[j].iv {
      NumberedDiffer(Reader, r[i], i, Reader, r[j], j);
    }
    forall i, j | 0 <= i < j < |d| ensures d[i].iv != d[j].iv {
      NumberedDiffer(User, d[i], i, User, d[j], j);
    }
    forall i, j | 0 <= i < |r| && 0 <= j < |d| ensures r[i].iv != d[j].iv {
      NumberedDiffer(Reader, r[i], i, User, d[j], j);
    }
  }

  /** The results so far, each matched with the message sent in its place. */
  predicate IntactArrive(lane: Lane) {
    |lane.got| <= |lane.sent| &&
    forall i :: 0 <= i < |lane.got| && lane.sent[i].intact ==> lane.got[i] == Ok(lane.sent[i].plain)
  }

  /** Whatever was put in the place of other messages, an intact one is delivered as it was sent. */
  lemma CorruptionStaysLocal(aead: Aead, skReader: Key, skDevice: Key, actions: seq<Action>)
    requires aead.Correct()
    ensures var ch := RunChannel(aead, StartChannel(skReader, skDevice), actions);
            IntactArrive(ch.fromReader) && IntactArrive(ch.fromUser)
  {
    EveryRunIsPaired(aead, skReader, skDevice, actions);
    var ch := RunChannel(aead, StartChannel(skReader, skDevice), actions);
    forall i | 0 <= i < |ch.fromReader.got| && ch.fromReader.sent[i].intact
      ensures ch.fromReader.got[i] == Ok(ch.fromReader.sent[i].plain)
    {
      assert Delivered(aead, ch.reader.encryptionKey, ch.fromReader.sent[i], ch.fromReader.got[i]);
    }
    forall i | 0 <= i < |ch.fromUser.got| && ch.fromUser.sent[i].intact
      ensures ch.fromUser.got[i] == Ok(ch.fromUser.sent[i].plain)
    {
      assert Delivered(aead, ch.user.encryptionKey, ch.fromUser.sent[i], ch.fromUser.got[i]);
    }
  }

  /**
   * A packet is accepted exactly if it is what the peer's engine would seal at this place; the counter moves on anyway.
   */
  lemma DecryptIff(aead: Aead, receiver: Engine, c: Sealed, ad: seq<byte>, plain: seq<byte>)
    requires aead.Correct() && receiver.dec < COUNTER_END
    ensures receiver.Decrypt(aead, c, ad).1 == Ok(plain)
       <==> c == aead.seal(receiver.decryptionKey, receiver.DecryptionIv(), ad, plain)
    ensures receiver.Decrypt(aead, c, ad).0 == receiver.(dec := receiver.dec + 1)
  {
    aead.OpensWhatWasSealed(receiver.decryptionKey, receiver.DecryptionIv(), ad, plain);
    var plaintext := aead.open(receiver.decryptionKey, receiver.DecryptionIv(), ad, c);
    if plaintext.Some? {
      assert c == aead.seal(receiver.decryptionKey, receiver.DecryptionIv(), ad, plaintext.value);
    }
  }

  /** Such ciphers exist: the one that appends a constant tag is correct, if not secret. */
  lemma SomeAeadIsCorrect() returns (aead: Aead)
    ensures aead.Correct()
  {
    var tag: seq<byte> := seq(TAG_LENGTH, _ => 0);
    aead := Aead((_: Key, _: seq<byte>, _: seq<byte>, p: seq<byte>) => Sealed(p, tag),
                 (_: Key, _: seq<byte>, _: seq<byte>, c: Sealed) => if c.tag == tag then Some(c.text) else None);
  }
}
