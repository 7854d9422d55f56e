/**
 * The part of `Reader` that sends EXCHANGE and CONTROL FLOW, as an object: methods that call each other in a circle.
 */
module ReaderObject {
  import opened Basics
  import opened Fragmentation
  import opened ReaderFailure

  /** The fields of `Reader` that the failure process reads and writes. */
  class ReaderDevice {
    const transport: Transport
    const bleLink: bool
    const test: bool
    var session: Option<Engines>
    var failureProcessStarted: bool
    var log: seq<Message>
    ghost var failures: nat
    ghost var deepest: nat

    ghost function View(): Reader
      reads this
    {
      Reader(transport, bleLink, test, session, failureProcessStarted, log, failures, deepest)
    }

    constructor (transport: Transport, bleLink: bool, test: bool)
      ensures View() == Reader(transport, bleLink, test, None, false, [], 0, 0)
    {
      this.transport, this.bleLink, this.test := transport, bleLink, test;
      session, failureProcessStarted, log, failures, deepest := None, false, [], 0, 0;
    }

    /** Builds and sends a message and waits for the reply to it. */
    method Send(peer: Peer, ghost depth: nat, m: Message) returns (reply: Reply)
      modifies this`log, this`failures
      ensures reply == peer(old(View()).Sent())
      ensures View() == if reply.NotBuilt? then old(View()) else old(View()).Sending(depth, m)
    {
      reply := peer(|log|);
      if reply.NotBuilt? {
        return;
      }
      log := log + [m];
      failures := failures + if depth > 0 then 1 else 0;
    }

    method TransactionTermination()
      modifies this`session
      ensures View() == Terminate(old(View()))
    {
      session := None;
    }

    method HandleTimeout() returns (error: Error)
      modifies this
      ensures (View(), error) == TimedOut(old(View()))
    {
      if !bleLink {
        return InvalidProtocolTypeError;
      }
      if session.None? {
        return SessionError;
      }
      log := log + [ErrorEvent];
      TransactionTermination();
      return TimeoutError;
    }

    method StartFailureProcess(ghost depth: nat) returns (already: bool)
      modifies this
      ensures already == old(failureProcessStarted)
      ensures View() == old(View()).(started := true, deepest := Max(old(deepest), depth))
    {
      deepest := Max(deepest, depth);
      already := failureProcessStarted;
      failureProcessStarted := true;
    }

    method FailureProcess(peer: Peer, ghost depth: nat, code: nat, state: FailureState) returns (error: Option<Error>)
      modifies this
      ensures (View(), error) == ReaderFailure.FailureProcess(peer, old(View()), depth, code, state)
      decreases View().Rank(), 1
    {
      ghost var r := View();
      var already := StartFailureProcess(depth);
      if already {
        return None;
      }
      if !test {
        error := SendFailure(peer, depth, code, state);
        if error.Some? {
          return;
        }
      }
      TransactionTermination();
      return None;
    }

    method SendFailure(peer: Peer, ghost depth: nat, code: nat, state: FailureState) returns (error: Option<Error>)
      requires failureProcessStarted
      modifies this
      ensures (View(), error) == ReaderFailure.SendFailure(peer, old(View()), depth, code, state)
      decreases View().Rank(), 4
    {
      var controlFlow := session.None? || !session.value.expedited || state.STATUS_WORD? || state.B1_B2_ERROR?;
      if transport.Nfc? || transport.SocketNfc? {
        if controlFlow {
          if code != S2_NONE && code != S2_PROTOCOL_VERSION_NOT_SUPPORTED {
            return Some(ValueError);
          }
          error := HandleControlFlow(peer, depth, code);
        } else {
          var result := HandleExchange(peer, depth, false, None, Some(code));
          return if result.Err? then Some(result.error) else None;
        }
      } else {
        if !controlFlow {
          var result := HandleExchange(peer, depth, false, None, Some(code));
          if result.Err? {
            return Some(result.error);
          }
        }
        if session.None? {
          return Some(SessionError);
        }
        log := log + [ErrorEvent];
        return None;
      }
    }

    /** The failure process, and then the error that started it. */
    method Fail(peer: Peer, ghost depth: nat, f: Failure) returns (error: Error)
      modifies this
      ensures (View(), error) == ReaderFailure.Fail(peer, old(View()), depth, f)
      decreases View().Rank(), 2
    {
      var other := FailureProcess(peer, depth + 1, f.code, f.state);
      return if other.Some? then other.value else f.error;
    }

    method HandleControlFlow(peer: Peer, ghost depth: nat, s2: nat) returns (error: Option<Error>)
      modifies this
      ensures (View(), error) == ReaderFailure.HandleControlFlow(peer, old(View()), depth, s2)
      decreases View().Rank(), 3
    {
      if session.None? {
        return Some(SessionError);
      }
      var reply := Send(peer, depth, ControlFlowMessage(s2));
      if reply.NotBuilt? {
        return Some(reply.error);
      }
      var failure := ControlFlowFailure(reply);
      if failure.Some? {
        var e := Fail(peer, depth, failure.value);
        return Some(e);
      }
      if reply.Timeout? {
        return Some(TimeoutError);
      }
      if reply.Broken? {
        return Some(reply.error);
      }
      session := None;
      return None;
    }

    method HandleExchange(peer: Peer, ghost depth: nat, stepup: bool, requested: Option<nat>, status: Option<nat>)
      returns (result: Result<seq<seq<byte>>>)
      modifies this
      ensures (View(), result) == ReaderFailure.HandleExchange(peer, old(View()), depth, stepup, requested, status)
      decreases View().Rank(), 3
    {
      if session.None? {
        return Err(SessionError);
      }
      if !(if stepup then session.value.stepup else session.value.expedited) {
        return Err(AccessProtocolError);
      }
      var reply := Send(peer, depth, ExchangeMessage(stepup, status));
      if reply.NotBuilt? {
        return Err(reply.error);
      }
      var failure := ExchangeFailure(reply);
      if failure.Some? {
        var e := Fail(peer, depth, failure.value);
        return Err(e);
      }
      if reply.Timeout? {
        var e := HandleTimeout();
        return Err(e);
      }
      if reply.Broken? {
        return Err(reply.error);
      }
      result := DecodeReadData(requested, DataPart(reply.payload));
    }
  }
}
