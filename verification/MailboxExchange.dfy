/** What `handle_exchange` does with the mailbox requests of an EXCHANGE: checks, reads, and the atomic session. */
module MailboxExchange {
  import opened Basics
  import opened MailboxStore

  /** The parsed mailbox commands; `atomic` is missing when the EXCHANGE has none. */
  datatype Requests = Requests(atomic: Option<bool>, readRequests: seq<seq<byte>>, writeRequests: seq<seq<byte>>,
                               setRequests: seq<seq<byte>>)
  {
    /** As the parser leaves them. */
    predicate Parsed() {
      && (forall i :: 0 <= i < |readRequests| ==> |readRequests[i]| == 4)
      && (forall i :: 0 <= i < |setRequests| ==> |setRequests[i]| == 5)
      && (atomic.None? ==> readRequests == [] && writeRequests == [] && setRequests == [])
    }

    function Count(): nat {
      |readRequests| + |writeRequests| + |setRequests|
    }

    /** The commands that go to the log: sets before writes. */
    function Log(): seq<Op> {
      SetOps(setRequests) + WriteOps(writeRequests)
    }
  }

  function SetOps(setRequests: seq<seq<byte>>): (ops: seq<Op>)
    ensures |ops| == |setRequests| && forall i :: 0 <= i < |ops| ==> ops[i] == SetOp(setRequests[i])
  {
    if setRequests == [] then [] else SetOps(setRequests[..|setRequests| - 1]) + [SetOp(setRequests[|setRequests| - 1])]
  }

  function WriteOps(writeRequests: seq<seq<byte>>): (ops: seq<Op>)
    ensures |ops| == |writeRequests| && forall i :: 0 <= i < |ops| ==> ops[i] == WriteOp(writeRequests[i])
  {
    if writeRequests == [] then []
    else WriteOps(writeRequests[..|writeRequests| - 1]) + [WriteOp(writeRequests[|writeRequests| - 1])]
  }

  // ---------------------------------------------------------------- checks

  /** A refused exchange ends in an access protocol error; some are answered with an error payload before that. */
  datatype Verdict = Accepted | Refused(answered: bool)

  predicate ReadsFit(box: Box, readRequests: seq<seq<byte>>) {
    forall i :: 0 <= i < |readRequests| ==>
      box.CheckBoundaries(BigEndian(Slice(readRequests[i], 0, 2)), BigEndian(Slice(readRequests[i], 2, 4)))
  }

  predicate LogFits(box: Box, ops: seq<Op>) {
    forall i :: 0 <= i < |ops| ==> box.CheckBoundaries(ops[i].Offset(), ops[i].Length())
  }

  function Check(mailbox: Option<Box>, r: Requests): Verdict
  {
    if r.Count() == 0 then Accepted
    else if mailbox.None? then Refused(true)
    else
      var box := mailbox.value;
      if r.readRequests != [] && !box.readPermission then Refused(false)
      else if |r.writeRequests| + |r.setRequests| > 0 && !box.writePermission then Refused(false)
      else if ReadsFit(box, r.readRequests) && LogFits(box, r.Log()) then Accepted
      else Refused(true)
  }

  /** The reads come first, so they see the bytes as they were before the command. */
  function ReadAll(box: Box, readRequests: seq<seq<byte>>): (parts: seq<seq<byte>>)
    ensures |parts| == |readRequests|
    ensures forall i :: 0 <= i < |readRequests| ==> parts[i] == ReadOne(box, readRequests[i])
  {
    if readRequests == [] then []
    else ReadAll(box, readRequests[..|readRequests| - 1]) + [ReadOne(box, readRequests[|readRequests| - 1])]
  }

  function ReadOne(box: Box, read: seq<byte>): seq<byte> {
    var offset := BigEndian(Slice(read, 0, 2));
    Slice(box.data, offset, BigEndian(Slice(read, 2, 4)) + offset)
  }

  /** What is accepted is read as it was asked for: each part is the window of the request, and as long as that. */
  lemma AcceptedParts(box: Box, r: Requests, i: nat)
    requires Check(Some(box), r).Accepted? && i < |r.readRequests|
    ensures var offset, length := BigEndian(Slice(r.readRequests[i], 0, 2)), BigEndian(Slice(r.readRequests[i], 2, 4));
            && offset + length <= |box.data| && |ReadAll(box, r.readRequests)[i]| == length
            && ReadAll(box, r.readRequests)[i] == box.data[offset..offset + length]
  {
  }

  datatype Store = Store(box: Box, session: Session)

  /** The write and set requests: queued while a session is open, executed when it closes or when there is none. */
  function Perform(store: Store, r: Requests): (Store, Option<Error>)
  {
    if r.atomic.None? then (store, None)
    else
      var started := store.session.started || r.atomic.value;
      var log := (if started then store.session.commands else []) + r.Log();
      if r.atomic.value then (Store(store.box, Session(log, true)), None)
      else
        var (box, error) := ApplyAll(store.box, log);
        if started && error.Some? then (Store(box, Session(log, true)), error)
        else (Store(box, if started then Session([], false) else store.session), error)
  }

  method CheckRequests(mailbox: Mailbox, r: Requests) returns (verdict: Verdict)
    ensures verdict == Check(Some(mailbox.View()), r)
  {
    ghost var box := mailbox.View();
    if |r.readRequests| + |r.writeRequests| + |r.setRequests| == 0 {
      return Accepted;
    }
    if |r.readRequests| > 0 && !mailbox.readPermission {
      return Refused(false);
    }
    if |r.writeRequests| + |r.setRequests| > 0 && !mailbox.writePermission {
      return Refused(false);
    }
    var readsFit := ReadsInside(box, |mailbox.data|, r.readRequests);
    if !readsFit {
      return Refused(true);
    }
    LogFitsBoth(box, r);
    var writesFit := OpsFit(box, |mailbox.data|, WriteOps(r.writeRequests));
    if !writesFit {
      return Refused(true);
    }
    var setsFit := OpsFit(box, |mailbox.data|, SetOps(r.setRequests));
    if !setsFit {
      return Refused(true);
    }
    return Accepted;
  }

  lemma LogFitsBoth(box: Box, r: Requests)
    ensures LogFits(box, r.Log()) <==> LogFits(box, SetOps(r.setRequests)) && LogFits(box, WriteOps(r.writeRequests))
  {
    var sets, writes := SetOps(r.setRequests), WriteOps(r.writeRequests);
    LogFitsConcat(box, sets, writes);
  }

  lemma LogFitsConcat(box: Box, first: seq<Op>, second: seq<Op>)
    ensures LogFits(box, first + second) <==> LogFits(box, first) && LogFits(box, second)
  {
    if LogFits(box, first + second) {
      forall i | 0 <= i < |first| ensures box.CheckBoundaries(first[i].Offset(), first[i].Length()) {
        assert (first + second)[i] == first[i];
      }
      forall i | 0 <= i < |second| ensures box.CheckBoundaries(second[i].Offset(), second[i].Length()) {
        assert (first + second)[|first| + i] == second[i];
      }
    }
  }

  method ReadsInside(ghost box: Box, size: nat, readRequests: seq<seq<byte>>) returns (fit: bool)
    requires size == |box.data|
    ensures fit <==> ReadsFit(box, readRequests)
  {
    for i := 0 to |readRequests|
      invariant ReadsFit(box, readRequests[..i])
    {
      if size < BigEndian(Slice(readRequests[i], 0, 2)) + BigEndian(Slice(readRequests[i], 2, 4)) {
        return false;
      }
    }
    assert readRequests[..|readRequests|] == readRequests;
    return true;
  }

  method OpsFit(ghost box: Box, size: nat, ops: seq<Op>) returns (fit: bool)
    requires size == |box.data|
    ensures fit <==> LogFits(box, ops)
  {
    for i := 0 to |ops|
      invariant forall j :: 0 <= j < i ==> box.CheckBoundaries(ops[j].Offset(), ops[j].Length())
    {
      if size < ops[i].Offset() + ops[i].Length() {
        return false;
      }
    }
    return true;
  }

  method ReadRequests(mailbox: Mailbox, readRequests: seq<seq<byte>>)
    returns (parts: seq<seq<byte>>, error: Option<Error>)
    ensures error.None? <==> readRequests == [] || mailbox.readPermission
    ensures error.None? ==> parts == ReadAll(mailbox.View(), readRequests)
  {
    parts, error := [], None;
    for i := 0 to |readRequests|
      invariant parts == ReadAll(mailbox.View(), readRequests[..i]) && (i > 0 ==> mailbox.readPermission)
    {
      assert readRequests[..i + 1][..i] == readRequests[..i];
      var part := ReadRequest(mailbox, readRequests[i]);
      if part.Err? {
        return parts, Some(part.error);
      }
      parts := parts + [part.value];
    }
    assert readRequests[..|readRequests|] == readRequests;
  }

  method ReadRequest(mailbox: Mailbox, read: seq<byte>) returns (part: Result<seq<byte>>)
    ensures part.Ok? <==> mailbox.readPermission
    ensures part.Ok? ==> part.value == ReadOne(mailbox.View(), read)
  {
    var offset := BigEndian(Slice(read, 0, 2));
    part := mailbox.Read(offset, BigEndian(Slice(read, 2, 4)));
  }

  method QueueSets(session: MailboxSession, setRequests: seq<seq<byte>>)
    modifies session
    ensures session.View() == old(session.View()).(commands := old(session.commands) + SetOps(setRequests))
  {
    assert session.commands + SetOps(setRequests[..0]) == session.commands;
    for i := 0 to |setRequests|
      invariant session.commands == old(session.commands) + SetOps(setRequests[..i])
      invariant session.started == old(session.started)
    {
      assert setRequests[..i + 1][..i] == setRequests[..i];
      session.AddSet(setRequests[i]);
    }
    assert setRequests[..|setRequests|] == setRequests;
  }

  method QueueWrites(session: MailboxSession, writeRequests: seq<seq<byte>>)
    modifies session
    ensures session.View() == old(session.View()).(commands := old(session.commands) + WriteOps(writeRequests))
  {
    assert session.commands + WriteOps(writeRequests[..0]) == session.commands;
    for i := 0 to |writeRequests|
      invariant session.commands == old(session.commands) + WriteOps(writeRequests[..i])
      invariant session.started == old(session.started)
    {
      assert writeRequests[..i + 1][..i] == writeRequests[..i];
      session.AddWrite(writeRequests[i]);
    }
    assert writeRequests[..|writeRequests|] == writeRequests;
  }

  method Queue(session: MailboxSession, r: Requests)
    modifies session
    ensures session.View() == old(session.View()).(commands := old(session.commands) + r.Log())
  {
    QueueSets(session, r.setRequests);
    QueueWrites(session, r.writeRequests);
    assert session.commands == old(session.commands) + r.Log();
  }

  method PerformRequests(mailbox: Mailbox, session: MailboxSession, r: Requests) returns (error: Option<Error>)
    modifies mailbox, session
    ensures (Store(mailbox.View(), session.View()), error) == Perform(old(Store(mailbox.View(), session.View())), r)
  {
    if r.atomic.None? {
      return None;
    }
    if r.atomic.value {
      session.Start();
    }
    if session.started {
      Queue(session, r);
      if !r.atomic.value {
        error := session.ExecuteCommands(mailbox);
        if error.Some? {
          return;
        }
        session.Stop();
      }
    } else {
      var temporary := new MailboxSession();
      Queue(temporary, r);
      assert [] + r.Log() == r.Log();
      error := temporary.ExecuteCommands(mailbox);
      return;
    }
    return None;
  }

  // ---------------------------------------------------------------- every run of exchanges

  /** One exchange at the store: a refused one changes nothing. */
  function Exchange(store: Store, r: Requests): (Store, Option<Error>) {
    if Check(Some(store.box), r).Accepted? then Perform(store, r) else (store, None)
  }

  function RunExchanges(store: Store, run: seq<Requests>): Store
  {
    if run == [] then store else Exchange(RunExchanges(store, run[..|run| - 1]), run[|run| - 1]).0
  }

  /** Whether the exchange is accepted depends only on what no exchange changes: size and permissions. */
  predicate Counts(box: Box, r: Requests) {
    Check(Some(box), r).Accepted? && r.atomic.Some?
  }

  /** Is a session open after the run? */
  predicate Open(box: Box, run: seq<Requests>)
  {
    run != [] &&
    var before, r := run[..|run| - 1], run[|run| - 1];
    if Counts(box, r) then r.atomic.value else Open(box, before)
  }

  /** What waits in the log after the run. */
  function Pending(box: Box, run: seq<Requests>): seq<Op>
  {
    if run == [] then []
    else
      var before, r := run[..|run| - 1], run[|run| - 1];
      if !Counts(box, r) then Pending(box, before)
      else if r.atomic.value then Pending(box, before) + r.Log()
      else []
  }

  /** What has been applied to the mailbox by the run, in the order of application. */
  function Applied(box: Box, run: seq<Requests>): seq<Op>
  {
    if run == [] then []
    else
      var before, r := run[..|run| - 1], run[|run| - 1];
      if Counts(box, r) && !r.atomic.value then Applied(box, before) + (Pending(box, before) + r.Log())
      else Applied(box, before)
  }

  /** All set and write requests of the accepted exchanges, in the order in which they came. */
  function Requested(box: Box, run: seq<Requests>): seq<Op>
  {
    if run == [] then []
    else
      var before, r := run[..|run| - 1], run[|run| - 1];
      Requested(box, before) + if Counts(box, r) then r.Log() else []
  }

  /** Nothing is lost, doubled or reordered: what is applied, then what is pending, is what was asked for. */
  lemma {:induction false} NothingIsLost(box: Box, run: seq<Requests>)
    ensures Applied(box, run) + Pending(box, run) == Requested(box, run)
  {
    if run != [] {
      var before, r := run[..|run| - 1], run[|run| - 1];
      NothingIsLost(box, before);
      if Counts(box, r) {
        assert Applied(box, before) + (Pending(box, before) + r.Log()) == Requested(box, before) + r.Log();
      }
    }
  }

  predicate SameShape(box: Box, other: Box) {
    |box.data| == |other.data| && box.readPermission == other.readPermission
      && box.writePermission == other.writePermission
  }

  lemma CheckSameShape(box: Box, other: Box, r: Requests)
    requires SameShape(box, other)
    ensures Check(Some(box), r) == Check(Some(other), r)
  {
  }

  lemma AcceptedLogFits(box: Box, r: Requests)
    requires r.Parsed() && Check(Some(box), r).Accepted?
    ensures AllInRange(r.Log(), |box.data|) && (r.Log() != [] ==> box.writePermission)
  {
  }

  lemma {:induction false} ApplyAllConcat(box: Box, first: seq<Op>, second: seq<Op>)
    requires ApplyAll(box, first).1.None?
    ensures ApplyAll(box, first + second) == ApplyAll(ApplyAll(box, first).0, second)
    decreases |first|
  {
    if first == [] {
      assert [] + second == second;
    } else {
      assert (first + second)[1..] == first[1..] + second;
      ApplyAllConcat(Apply(box, first[0]).value, first[1..], second);
    }
  }

  /** A log that can be applied to a mailbox without failing. */
  predicate Applicable(box: Box, ops: seq<Op>) {
    AllInRange(ops, |box.data|) && (ops != [] ==> box.writePermission)
  }

  lemma ApplicableConcat(box: Box, first: seq<Op>, second: seq<Op>)
    requires Applicable(box, first) && Applicable(box, second)
    ensures Applicable(box, first + second)
  {
  }

  lemma ApplicableLaw(box: Box, ops: seq<Op>)
    requires Applicable(box, ops)
    ensures var (after, error) := ApplyAll(box, ops);
            && error.None? && SameShape(box, after)
            && forall k :: 0 <= k < |box.data| ==>
                 after.data[k] == var i := LastCover(ops, k); if i < 0 then box.data[k] else ops[i].ByteAt(k)
  {
    if ops != [] {
      CommitLaw(box, ops);
    }
  }

  predicate Parses(run: seq<Requests>) {
    forall i :: 0 <= i < |run| ==> run[i].Parsed()
  }

  lemma {:induction false} HistoryApplicable(box: Box, run: seq<Requests>)
    requires Parses(run)
    ensures Applicable(box, Applied(box, run)) && Applicable(box, Pending(box, run))
  {
    if run != [] {
      var before, r := run[..|run| - 1], run[|run| - 1];
      HistoryApplicable(box, before);
      if Counts(box, r) {
        AcceptedLogFits(box, r);
        ApplicableConcat(box, Pending(box, before), r.Log());
        ApplicableConcat(box, Applied(box, before), Pending(box, before) + r.Log());
      }
    }
  }

  /** The store after a run is the history of the run: data, log and flag, without an error on the way. */
  lemma {:induction false} RunIsHistory(box: Box, run: seq<Requests>)
    requires Parses(run)
    ensures RunExchanges(Store(box, Session([], false)), run)
         == Store(ApplyAll(box, Applied(box, run)).0, Session(Pending(box, run), Open(box, run)))
    ensures !Open(box, run) ==> Pending(box, run) == []
  {
    if run != [] {
      var before, r := run[..|run| - 1], run[|run| - 1];
      RunIsHistory(box, before);
      RunStep(box, before, r);
    }
  }

  lemma RunStep(box: Box, before: seq<Requests>, r: Requests)
    requires Parses(before) && r.Parsed() && (!Open(box, before) ==> Pending(box, before) == [])
    ensures var now := ApplyAll(box, Applied(box, before)).0;
            var (store, error) := Exchange(Store(now, Session(Pending(box, before), Open(box, before))), r);
            error.None? &&
            store == if !Counts(box, r) then Store(now, Session(Pending(box, before), Open(box, before)))
                     else if r.atomic.value then Store(now, Session(Pending(box, before) + r.Log(), true))
                     else Store(ApplyAll(box, Applied(box, before) + (Pending(box, before) + r.Log())).0,
                                Session([], false))
  {
    var now, pending := ApplyAll(box, Applied(box, before)).0, Pending(box, before);
    HistoryApplicable(box, before);
    ApplicableLaw(box, Applied(box, before));
    CheckSameShape(box, now, r);
    if Counts(box, r) && !r.atomic.value {
      AcceptedLogFits(box, r);
      ClosingApplies(box, now, Applied(box, before), pending, r.Log());
      assert [] + r.Log() == r.Log();
    }
  }

  lemma ClosingApplies(box: Box, now: Box, applied: seq<Op>, pending: seq<Op>, log: seq<Op>)
    requires Applicable(box, applied) && Applicable(box, pending) && Applicable(box, log)
    requires ApplyAll(box, applied) == (now, None) && SameShape(box, now)
    ensures ApplyAll(now, pending + log) == (ApplyAll(box, applied + (pending + log)).0, None)
  {
    ApplicableConcat(box, pending, log);
    ApplicableLaw(now, pending + log);
    ApplyAllConcat(box, applied, pending + log);
  }

  /** Byte k of `after` is what the last of the commands covering it says, or as it was. */
  predicate LastWins(before: seq<byte>, ops: seq<Op>, after: seq<byte>)
    requires AllInRange(ops, |before|)
  {
    && |after| == |before|
    && forall k :: 0 <= k < |before| ==>
         after[k] == var i := LastCover(ops, k); if i < 0 then before[k] else ops[i].ByteAt(k)
  }

  /**
   * One more exchange after any run. A refused one changes nothing. While a session is or stays open the bytes do not
   * change. The exchange that closes it, or one without a session, applies the whole log and cannot fail half way.
   */
  lemma AtomicSessions(box: Box, run: seq<Requests>, r: Requests)
    requires Parses(run) && r.Parsed()
    ensures var closed := Store(box, Session([], false));
            var before, (after, error) := RunExchanges(closed, run), Exchange(RunExchanges(closed, run), r);
            && error.None?
            && |after.box.data| == |before.box.data| == |box.data|
            && after.session.started == Open(box, run + [r]) && before.session.started == Open(box, run)
            && (!Counts(box, r) ==> after == before)
            && (Open(box, run + [r]) ==> after.box == before.box)
            && (Counts(box, r) && !r.atomic.value ==>
                  && Applicable(box, Pending(box, run) + r.Log())
                  && LastWins(before.box.data, Pending(box, run) + r.Log(), after.box.data)
                  && after.session == Session([], false))
  {
    RunIsHistory(box, run);
    HistoryApplicable(box, run);
    ApplicableLaw(box, Applied(box, run));
    RunStep(box, run, r);
    assert (run + [r])[..|run|] == run;
    var now := ApplyAll(box, Applied(box, run)).0;
    if Counts(box, r) && !r.atomic.value {
      AcceptedLogFits(box, r);
      var log := Pending(box, run) + r.Log();
      ApplicableConcat(box, Pending(box, run), r.Log());
      ApplicableLaw(now, log);
      ApplyAllConcat(box, Applied(box, run), log);
    }
  }
}
