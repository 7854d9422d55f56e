/** Which EXCHANGE payloads the device accepts, said by the objects in them, and what it takes from each. */
module ExchangeAccepts {
  import opened Basics
  import opened MailboxExchange
  import opened Tlv
  import opened ExchangeCodec

  /** The value of the first object with a tag. */
  predicate HasFirst(pairs: seq<Pair>, tag: nat, value: seq<byte>) {
    exists i :: 0 <= i < |pairs| && pairs[i] == (tag, value) && forall j :: 0 <= j < i ==> pairs[j].0 != tag
  }

  predicate HasNone(pairs: seq<Pair>, tag: nat) {
    forall i :: 0 <= i < |pairs| ==> pairs[i].0 != tag
  }

  lemma {:induction false} FirstMeans(pairs: seq<Pair>, tag: nat)
    ensures match First(pairs, tag)
            case None => HasNone(pairs, tag)
            case Some(value) => HasFirst(pairs, tag, value)
  {
    if pairs != [] && pairs[0].0 != tag {
      var rest := pairs[1..];
      FirstMeans(rest, tag);
      assert [] + ValuesOf(rest, tag) == ValuesOf(rest, tag);
      if First(rest, tag).Some? {
        var i :| 0 <= i < |rest| && rest[i] == (tag, First(rest, tag).value)
                 && forall j :: 0 <= j < i ==> rest[j].0 != tag;
        assert pairs[i + 1] == rest[i] && forall j :: 1 <= j < i + 1 ==> pairs[j] == rest[j - 1];
      }
    }
  }

  /** All objects with a tag have values of this length. */
  predicate AllHave(pairs: seq<Pair>, tag: nat, length: nat) {
    forall i :: 0 <= i < |pairs| && pairs[i].0 == tag ==> |pairs[i].1| == length
  }

  lemma {:induction false} AllHaveIff(pairs: seq<Pair>, tag: nat, length: nat)
    ensures AllOfLength(ValuesOf(pairs, tag), length) <==> AllHave(pairs, tag, length)
  {
    if pairs != [] {
      var rest, values := pairs[1..], ValuesOf(pairs[1..], tag);
      AllHaveIff(rest, tag, length);
      AllHaveCons(pairs, tag, length);
      if pairs[0].0 == tag {
        AllOfCons(pairs[0].1, values, length);
      } else {
        assert [] + values == values;
      }
    }
  }

  lemma AllHaveCons(pairs: seq<Pair>, tag: nat, length: nat)
    requires pairs != []
    ensures AllHave(pairs, tag, length) <==>
            (pairs[0].0 == tag ==> |pairs[0].1| == length) && AllHave(pairs[1..], tag, length)
  {
    if AllHave(pairs[1..], tag, length) && (pairs[0].0 == tag ==> |pairs[0].1| == length) {
      forall i | 0 <= i < |pairs| && pairs[i].0 == tag ensures |pairs[i].1| == length {
        if i > 0 {
          assert pairs[1..][i - 1] == pairs[i];
        }
      }
    }
  }

  lemma AllOfCons(first: seq<byte>, values: seq<seq<byte>>, length: nat)
    ensures AllOfLength([first] + values, length) <==> |first| == length && AllOfLength(values, length)
  {
    if AllOfLength([first] + values, length) {
      assert ([first] + values)[0] == first;
      forall i | 0 <= i < |values| ensures |values[i]| == length {
        assert ([first] + values)[i + 1] == values[i];
      }
    }
  }

  // ---------------------------------------------------------------- the mailbox commands

  /** One byte for the atomic flag, four for each read and five for each set. */
  predicate MailboxObjects(pairs: seq<Pair>) {
    && (exists flag: byte :: HasFirst(pairs, 0x8C, [flag]))
    && AllHave(pairs, 0x87, 4) && AllHave(pairs, 0x95, 5)
  }

  /** Of checked mailbox commands exactly these are accepted; a flag that is not zero makes them atomic. */
  lemma MailboxAcceptedIff(bytes: seq<byte>, pairs: seq<Pair>)
    requires Verify(bytes, 0, EXCHANGE_CMD_BA, ExpectedTags(EXCHANGE_CMD_BA), []).None?
    requires ParseObjs(bytes, 0) == Some(pairs)
    ensures ParseMailbox(bytes).Ok? <==> MailboxObjects(pairs)
    ensures ParseMailbox(bytes).Ok? ==>
              var r := ParseMailbox(bytes).value;
              && r.readRequests == ValuesOf(pairs, 0x87) && r.writeRequests == ValuesOf(pairs, 0x8A)
              && r.setRequests == ValuesOf(pairs, 0x95)
              && (r.atomic == Some(true) || (r.atomic == Some(false) && HasFirst(pairs, 0x8C, [0])))
              && (r.atomic == Some(true) ==> !HasFirst(pairs, 0x8C, [0]))
  {
    AllHaveIff(pairs, 0x87, 4);
    AllHaveIff(pairs, 0x95, 5);
    FlagDecides(pairs);
  }

  lemma OneFirst(pairs: seq<Pair>, tag: nat, value: seq<byte>, other: seq<byte>)
    requires HasFirst(pairs, tag, value) && HasFirst(pairs, tag, other)
    ensures value == other
  {
  }

  lemma FlagDecides(pairs: seq<Pair>)
    ensures var flag := First(pairs, 0x8C);
            && (flag.Some? && |flag.value| == 1 <==> exists b: byte :: HasFirst(pairs, 0x8C, [b]))
            && (flag.Some? && |flag.value| == 1 ==> (AllZeroBytes(flag.value) <==> HasFirst(pairs, 0x8C, [0])))
  {
    var flag := First(pairs, 0x8C);
    FirstMeans(pairs, 0x8C);
    if flag.Some? && |flag.value| == 1 {
      assert flag.value == [flag.value[0]];
    }
    if b: byte :| HasFirst(pairs, 0x8C, [b]) {
      if flag.Some? {
        OneFirst(pairs, 0x8C, flag.value, [b]);
      }
    }
    if HasFirst(pairs, 0x8C, [0]) && flag.Some? {
      OneFirst(pairs, 0x8C, flag.value, [0]);
    }
  }

  // ---------------------------------------------------------------- the whole payload

  /** The reader status values that are known. */
  predicate KnownStatus(n: nat) {
    || (1 <= n <= 7 && n != 5) || (0x20 <= n <= 0x26 && n != 0x24)
    || n == 0x100 || n == 0x101 || n == 0x102 || n == 0x180 || n == 0x181 || n == 0x182
  }

  ghost predicate StatusObject(pairs: seq<Pair>) {
    HasNone(pairs, 0x97) || exists hi: byte, lo: byte {:trigger HasFirst(pairs, 0x97, [hi, lo])} ::
      HasFirst(pairs, 0x97, [hi, lo]) && KnownStatus(hi as nat * 0x100 + lo as nat)
  }

  ghost predicate NotifyObject(pairs: seq<Pair>) {
    HasNone(pairs, 0xAE) || exists value :: HasFirst(pairs, 0xAE, value) && NotifyAccepted(value)
  }

  /** At most 250 bytes; an error of the reader has two, and a descriptor of the reader is accepted too. */
  ghost predicate NotifyAccepted(value: seq<byte>) {
    var parsed := ParseObjs(value, 0);
    && |value| <= 250 && Verify(value, 0, EXCHANGE_CMD_AE, ExpectedTags(EXCHANGE_CMD_AE), []).None?
    && parsed.Some? && ErrorObject(parsed.value) && DescriptorObject(parsed.value)
  }

  ghost predicate ErrorObject(pairs: seq<Pair>) {
    HasNone(pairs, 0x82) || exists hi: byte, lo: byte :: HasFirst(pairs, 0x82, [hi, lo])
  }

  ghost predicate DescriptorObject(pairs: seq<Pair>) {
    HasNone(pairs, 0xB5) || exists value :: HasFirst(pairs, 0xB5, value) && DescriptorAccepted(value)
  }

  /** All three fields are there, and the vendor has three bytes. */
  ghost predicate DescriptorAccepted(value: seq<byte>) {
    var parsed := ParseObjs(value, 0);
    && Verify(value, 0, EXCHANGE_CMD_B5, ExpectedTags(EXCHANGE_CMD_B5), []).None? && parsed.Some?
    && (exists a: byte, b: byte, c: byte :: HasFirst(parsed.value, 0x04, [a, b, c]))
    && !HasNone(parsed.value, 0x80) && !HasNone(parsed.value, 0x81)
  }

  ghost predicate MailboxObject(pairs: seq<Pair>) {
    HasNone(pairs, 0xBA) || exists value :: HasFirst(pairs, 0xBA, value) && ParseMailbox(value).Ok?
  }

  predicate UrskObject(pairs: seq<Pair>) {
    HasNone(pairs, 0x98) || HasFirst(pairs, 0x98, [])
  }

  lemma StatusDecides(pairs: seq<Pair>)
    ensures ParseStatus(First(pairs, 0x97)).Ok? <==> StatusObject(pairs)
    ensures ParseStatus(First(pairs, 0x97)).Ok? ==>
              match ParseStatus(First(pairs, 0x97)).value
              case None => HasNone(pairs, 0x97)
              case Some(n) => n < 0x1_0000 && HasFirst(pairs, 0x97, U16(n)) && KnownStatus(n)
  {
    var status := First(pairs, 0x97);
    FirstMeans(pairs, 0x97);
    if status.Some? && |status.value| == 2 {
      var hi, lo := status.value[0], status.value[1];
      assert status.value == [hi, lo] && BigEndian(status.value) == hi as nat * 0x100 + lo as nat;
      assert U16(BigEndian(status.value)) == status.value;
    }
    if hi: byte, lo: byte :| HasFirst(pairs, 0x97, [hi, lo]) && KnownStatus(hi as nat * 0x100 + lo as nat) {
      if status.Some? {
        OneFirst(pairs, 0x97, status.value, [hi, lo]);
      }
    }
  }

  lemma VendorDecides(pairs: seq<Pair>)
    ensures var vendor := First(pairs, 0x04);
            vendor.Some? && |vendor.value| == 3 <==>
              exists a: byte, b: byte, c: byte :: HasFirst(pairs, 0x04, [a, b, c])
  {
    var vendor := First(pairs, 0x04);
    FirstMeans(pairs, 0x04);
    if vendor.Some? && |vendor.value| == 3 {
      assert vendor.value == [vendor.value[0], vendor.value[1], vendor.value[2]];
    }
    if a: byte, b: byte, c: byte :| HasFirst(pairs, 0x04, [a, b, c]) {
      if vendor.Some? {
        OneFirst(pairs, 0x04, vendor.value, [a, b, c]);
      }
    }
  }

  lemma DescriptorDecides(value: seq<byte>)
    ensures DescriptorRefused(Some(value)).None? <==> DescriptorAccepted(value)
  {
    var parsed := ParseObjs(value, 0);
    if parsed.Some? {
      VendorDecides(parsed.value);
      FirstMeans(parsed.value, 0x80);
      FirstMeans(parsed.value, 0x81);
    }
  }

  lemma DescriptorObjectDecides(pairs: seq<Pair>)
    ensures DescriptorRefused(First(pairs, 0xB5)).None? <==> DescriptorObject(pairs)
  {
    var descriptor := First(pairs, 0xB5);
    FirstMeans(pairs, 0xB5);
    if descriptor.Some? {
      DescriptorDecides(descriptor.value);
    }
    if value :| HasFirst(pairs, 0xB5, value) && DescriptorAccepted(value) {
      if descriptor.Some? {
        OneFirst(pairs, 0xB5, descriptor.value, value);
      }
    }
  }

  lemma ErrorDecides(pairs: seq<Pair>)
    ensures var error := First(pairs, 0x82); (error.Some? ==> |error.value| == 2) <==> ErrorObject(pairs)
  {
    var error := First(pairs, 0x82);
    FirstMeans(pairs, 0x82);
    if error.Some? && |error.value| == 2 {
      assert error.value == [error.value[0], error.value[1]];
    }
    if hi: byte, lo: byte :| HasFirst(pairs, 0x82, [hi, lo]) {
      if error.Some? {
        OneFirst(pairs, 0x82, error.value, [hi, lo]);
      }
    }
  }

  lemma NotificationDecides(value: seq<byte>)
    ensures ParseNotify(Some(value)).Ok? <==> NotifyAccepted(value)
  {
    var parsed := ParseObjs(value, 0);
    if parsed.Some? {
      ErrorDecides(parsed.value);
      DescriptorObjectDecides(parsed.value);
    }
  }

  lemma NotifyDecides(pairs: seq<Pair>)
    ensures ParseNotify(First(pairs, 0xAE)).Ok? <==> NotifyObject(pairs)
  {
    var notify := First(pairs, 0xAE);
    FirstMeans(pairs, 0xAE);
    if notify.Some? {
      NotificationDecides(notify.value);
    }
    if value :| HasFirst(pairs, 0xAE, value) && NotifyAccepted(value) {
      if notify.Some? {
        OneFirst(pairs, 0xAE, notify.value, value);
      }
    }
  }

  lemma UrskDecides(pairs: seq<Pair>)
    ensures var ursk := First(pairs, 0x98);
            (ursk.None? || ursk.value == [] <==> UrskObject(pairs)) && (ursk.None? <==> HasNone(pairs, 0x98))
  {
    var ursk := First(pairs, 0x98);
    FirstMeans(pairs, 0x98);
    if HasFirst(pairs, 0x98, []) && ursk.Some? {
      OneFirst(pairs, 0x98, ursk.value, []);
    }
  }

  lemma MailboxDecides(pairs: seq<Pair>)
    ensures var mailbox := First(pairs, 0xBA);
            && (mailbox.None? || ParseMailbox(mailbox.value).Ok? <==> MailboxObject(pairs))
            && (mailbox.None? <==> HasNone(pairs, 0xBA)) && (mailbox.Some? ==> HasFirst(pairs, 0xBA, mailbox.value))
  {
    var mailbox := First(pairs, 0xBA);
    FirstMeans(pairs, 0xBA);
    if value :| HasFirst(pairs, 0xBA, value) && ParseMailbox(value).Ok? {
      if mailbox.Some? {
        OneFirst(pairs, 0xBA, mailbox.value, value);
      }
    }
  }

  /** What the checker refuses is refused; of the rest exactly those payloads are accepted whose objects are. */
  lemma ExchangeAcceptedIff(plain: seq<byte>)
    ensures var refused, pairs := Verify(plain, 0, EXCHANGE_CMD, ExpectedTags(EXCHANGE_CMD), []), ParseObjs(plain, 0);
            && (refused.Some? ==> ParseExchange(plain) == Err(refused.value))
            && (ParseExchange(plain).Ok? <==>
                  && refused.None? && pairs.Some?
                  && MailboxObject(pairs.value) && StatusObject(pairs.value) && NotifyObject(pairs.value)
                  && UrskObject(pairs.value))
            && (ParseExchange(plain).Ok? ==>
                  var content := ParseExchange(plain).value;
                  && (content.ursk <==> !HasNone(pairs.value, 0x98))
                  && (content.readerStatus.None? <==> HasNone(pairs.value, 0x97))
                  && (content.readerStatus.Some? ==>
                        && content.readerStatus.value < 0x1_0000
                        && HasFirst(pairs.value, 0x97, U16(content.readerStatus.value)))
                  && (HasNone(pairs.value, 0xBA) ==> content.requests == Requests(None, [], [], [])))
  {
    var pairs := ParseObjs(plain, 0);
    if pairs.Some? {
      MailboxDecides(pairs.value);
      StatusDecides(pairs.value);
      NotifyDecides(pairs.value);
      UrskDecides(pairs.value);
    }
  }

  /** What the checker refuses of the mailbox commands is refused with its error. */
  lemma MailboxRefused(bytes: seq<byte>)
    requires Verify(bytes, 0, EXCHANGE_CMD_BA, ExpectedTags(EXCHANGE_CMD_BA), []).Some?
    ensures ParseMailbox(bytes) == Err(Verify(bytes, 0, EXCHANGE_CMD_BA, ExpectedTags(EXCHANGE_CMD_BA), []).value)
  {
  }
}
