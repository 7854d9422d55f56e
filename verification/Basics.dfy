/** Bytes, big-endian integers and the error values shared by every layer. */
module Basics {

  type byte = b: int | 0 <= b < 0x100

  datatype Option<+T> = None | Some(value: T)

  /** A Python call: a value, or the exception that it raised. */
  datatype Result<+T> = Ok(value: T) | Err(error: Error)

  datatype Error =
    | CreateCommandError
    | CreateResponseError
    | MessageTooLongError
    | InvalidCommandError
    | InvalidLcError
    | InvalidCLAError
    | InvalidINSError
    | InvalidParameterError
    | InvalidCommandDataError
    | InvalidStatusError(status: nat)
    | InvalidResponseError
    | InvalidProtocolTypeError
    | UnexpectedBLEMessageError
    | BLEMessageError
    | TlvError
    | VerificationError
    | AccessProtocolError
    | SessionError
    | VersionError
    | InvalidAIDError
    | InvalidLeError
    | MailboxPermissionError
    | NotImplementedError
    | KeyLookupFailed
    | TimeoutError
    | NoDeviceConnectedError
      // Python's own exceptions, which no handler of the repository catches
    | IndexError
    | KeyError
    | ValueError
    | TypeError
    | AttributeError
    | OverflowError
    | UnboundLocalError

  /** Subclasses of `InvalidCommandError`. */
  predicate IsInvalidCommand(e: Error) {
    || e.InvalidCommandError? || e.InvalidCLAError? || e.InvalidINSError? || e.InvalidParameterError?
    || e.InvalidLcError? || e.InvalidLeError? || e.InvalidCommandDataError? || e.InvalidAIDError?
  }

  /** Subclasses of `AccessProtocolError`. */
  predicate IsAccessProtocol(e: Error) {
    || IsInvalidCommand(e)
    || e.AccessProtocolError? || e.SessionError? || e.VersionError? || e.VerificationError? || e.TlvError?
    || e.CreateCommandError? || e.CreateResponseError? || e.MessageTooLongError? || e.InvalidStatusError?
       || e.InvalidResponseError?
    || e.UnexpectedBLEMessageError? || e.MailboxPermissionError?
  }

  /** `n.to_bytes(2, "big")` */
  function U16(n: nat): (s: seq<byte>)
    requires n < 0x1_0000
    ensures |s| == 2
  {
    [n / 0x100, n % 0x100]
  }

  /** `n.to_bytes(3, "big")` */
  function U24(n: nat): (s: seq<byte>)
    requires n < 0x100_0000
    ensures |s| == 3
  {
    [n / 0x1_0000, n / 0x100 % 0x100, n % 0x100]
  }

  /** `int.from_bytes(s, "big")` of at most two bytes, the only lengths that are read as integers. */
  function BigEndian(s: seq<byte>): (n: nat)
    requires |s| <= 2
    ensures n < 0x1_0000
    ensures |s| == 2 ==> U16(n) == s
  {
    if |s| == 0 then 0
    else if |s| == 1 then s[0]
    else
      var hi: nat := s[0];
      hi * 0x100 + s[1]
  }

  lemma BigEndianU16(n: nat)
    requires n < 0x1_0000
    ensures BigEndian(U16(n)) == n
  {
  }

  /** Python's `s[lo:hi]` for non-negative bounds, which are clamped to the length. */
  function Slice<T>(s: seq<T>, lo: nat, hi: nat): (r: seq<T>)
    ensures lo <= hi <= |s| ==> r == s[lo..hi]
    ensures |r| <= |s|
    ensures lo <= hi ==> |r| <= hi - lo
  {
    var h := if hi < |s| then hi else |s|;
    if lo < h then s[lo..h] else []
  }

  /** The bytes at position i begin with `part`. */
  predicate At(s: seq<byte>, i: nat, part: seq<byte>) {
    i + |part| <= |s| && s[i..i + |part|] == part
  }

  function Concat<T>(parts: seq<seq<T>>): seq<T>
  {
    if parts == [] then [] else parts[0] + Concat(parts[1..])
  }

  lemma ConcatSnoc<T>(parts: seq<seq<T>>, last: seq<T>)
    ensures Concat(parts + [last]) == Concat(parts) + last
  {
    if parts == [] {
      assert parts + [last] == [last];
    } else {
      assert (parts + [last])[1..] == parts[1..] + [last];
    }
  }

  lemma ConcatPrefix<T>(parts: seq<seq<T>>, i: nat)
    requires i < |parts|
    ensures Concat(parts[..i + 1]) == Concat(parts[..i]) + parts[i]
  {
    assert parts[..i + 1] == parts[..i] + [parts[i]];
    ConcatSnoc(parts[..i], parts[i]);
  }

  /** A list built so far, in front of what the rest of a loop will return. */
  function Prepend<T>(done: seq<T>, rest: Result<seq<T>>): Result<seq<T>> {
    if rest.Ok? then Ok(done + rest.value) else rest
  }

  lemma PrependNil<T>(rest: Result<seq<T>>)
    ensures Prepend([], rest) == rest
    ensures rest.Ok? ==> Prepend(rest.value, Ok([])) == rest
  {
    if rest.Ok? {
      assert [] + rest.value == rest.value == rest.value + [];
    }
  }

  lemma PrependSnoc<T>(done: seq<T>, x: T, rest: Result<seq<T>>)
    ensures Prepend(done + [x], rest) == Prepend(done, Prepend([x], rest))
  {
    if rest.Ok? {
      assert done + [x] + rest.value == done + ([x] + rest.value);
    }
  }
}
