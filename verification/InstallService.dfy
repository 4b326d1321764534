/**
 The service loop of the one-shot install helper
 (native_runtime/cpp/native_install_service_runtime.cc).
 */
module InstallService {
  import opened SortedMap
  import opened WireMessages
  import opened InstallRequest
  import opened InstallSession

  datatype Phase = InitialPhase | PreparedPhase | CommitPhase | ExecutingPhase | FinishedPhase

  /** The n-th and the next call: the reservation is written and a command is read before
      the reservation expires. */
  ghost predicate Opened(t: seq<Event>, n: nat, r: Reservation)
  {
    && |t| >= n + 2 && EncodeReservation(r).Some?
    && t[n] == WriteFrame(EncodeReservation(r).value, true)
    && t[n + 1].ReadFrameUntil? && t[n + 1].deadline == r.expiresAtUnixMilliseconds && t[n + 1].frame.Some?
  }

  lemma StillOpened(before: seq<Event>, t: seq<Event>, n: nat, r: Reservation)
    requires Extends(t, before) && Opened(before, n, r)
    ensures Opened(t, n, r)
  {
    hide EncodeReservation;
  }

  /** The last five calls: the bound and unexpired commit is marked, the very same
      reservation is written as the acknowledgement, the caller's exit is observed, and
      only then the swap is executed. */
  ghost predicate Concluded(t: seq<Event>, n: nat, command: string, r: Reservation)
  {
    && |t| == n + 5 && EncodeReservation(r).Some?
    && AcceptedBy(t, n, command, r)
    && t[n + 2] == WriteFrame(EncodeReservation(r).value, true)
    && t[n + 3] == WaitForExit(r.expiresAtUnixMilliseconds, true)
    && t[n + 4].Execute?
  }

  /** Or else the last two calls: the bound cancellation is carried out and answered. */
  ghost predicate Answered(t: seq<Event>, n: nat, command: string, r: Reservation)
  {
    && |t| == n + 2 && Bound(command, "cancelReservation", r)
    && t[n] == CancelPrepared(true)
    && var answer := EncodeRecoveryResult(RecoveryResult(1, r.transactionId, "rolledBack", "oldTarget", r.journalSha256));
       answer.Some? && t[n + 1] == WriteFrame(answer.value, true)
  }

  ghost predicate Committed(t: seq<Event>, n: nat, r: Reservation)
  {
    Opened(t, n, r) && Concluded(t, n + 2, t[n + 1].frame.value, r)
  }

  ghost predicate CancelledOnRequest(t: seq<Event>, n: nat, r: Reservation)
  {
    Opened(t, n, r) && Answered(t, n + 2, t[n + 1].frame.value, r)
  }

  /** Why the dialogue fails, as its calls from the n-th on show it: a call threw, the command
      is bound to neither operation, a commit comes too late, or the cancellation failed. */
  ghost predicate DialogueRefused(t: seq<Event>, n: nat, r: Reservation)
  {
    || SomeThrew(t, n)
    || (|t| > n + 1 && t[n + 1].ReadFrameUntil? && t[n + 1].frame.Some? && CommandRefused(t, n + 2, t[n + 1].frame.value, r))
  }

  ghost predicate CommandRefused(t: seq<Event>, n: nat, command: string, r: Reservation)
  {
    if Bound(command, "commitAfterExit", r) then CommitRefused(t, n, r)
    else if Bound(command, "cancelReservation", r) then CancelRefused(t, n)
    else true
  }

  ghost predicate CommitRefused(t: seq<Event>, n: nat, r: Reservation)
  {
    |t| > n && t[n].Clock? && t[n].now.Some? && t[n].now.value > r.expiresAtUnixMilliseconds
  }

  ghost predicate CancelRefused(t: seq<Event>, n: nat)
  {
    |t| > n && t[n] == CancelPrepared(false)
  }

  /** Why a whole run throws. */
  ghost predicate RunRefused(t: seq<Event>, n: nat, text: string, lifetime: int, r: Reservation)
  {
    || PrepareRefused(t, n + 1, text, lifetime)
    || (|t| > n && Threw(t[n]))
    || DialogueRefused(t, n + 8, r)
  }

  lemma StillThrew(before: seq<Event>, t: seq<Event>, m: nat, n: nat)
    requires Extends(t, before) && SomeThrew(before, n) && m <= n
    ensures SomeThrew(t, m)
  {
    hide Threw;
    var k :| n <= k < |before| && Threw(before[k]);
    assert Threw(t[k]);
  }

  lemma StillDialogueRefused(before: seq<Event>, t: seq<Event>, n: nat, r: Reservation)
    requires Extends(t, before) && DialogueRefused(before, n, r)
    ensures DialogueRefused(t, n, r)
  {
    hide Bound, Threw;
    if SomeThrew(before, n) { StillThrew(before, t, n, n); }
  }

  /** A whole run that reaches the execution. */
  ghost predicate CommitRun(t: seq<Event>, n: nat, text: string, lifetime: int, r: Reservation)
  {
    && |t| == n + 15
    && ParseRequest(text).Some?
    && t[n] == CreateMonitor(ParseRequest(text).value.caller, Some(true))
    && PreparedBy(t, n + 1, text, lifetime, r)
    && Committed(t, n + 8, r)
  }

  ghost predicate CancelRun(t: seq<Event>, n: nat, text: string, lifetime: int, r: Reservation)
  {
    && |t| == n + 12
    && ParseRequest(text).Some?
    && t[n] == CreateMonitor(ParseRequest(text).value.caller, Some(true))
    && PreparedBy(t, n + 1, text, lifetime, r)
    && CancelledOnRequest(t, n + 8, r)
  }

  /** A run that was finished has no such reason. */
  lemma FinishedIsNotRefused(t: seq<Event>, n: nat, text: string, lifetime: int, r: Reservation)
    requires (CommitRun(t, n, text, lifetime, r) && t[n + 14] == Execute(true)) || CancelRun(t, n, text, lifetime, r)
    ensures !RunRefused(t, n, text, lifetime, r)
  {
    hide ParseRequest, PreparedBy, PrepareMisled, Committed, CancelledOnRequest;
    PreparedIsNotMisled(t, n + 1, text, lifetime, r);
    DialogueDidNotThrow(t, n + 8, r);
  }

  lemma DialogueDidNotThrow(t: seq<Event>, n: nat, r: Reservation)
    requires (|t| == n + 7 && Committed(t, n, r) && t[n + 6] == Execute(true)) || (|t| == n + 4 && CancelledOnRequest(t, n, r))
    ensures forall k :: n <= k < |t| ==> !Threw(t[k])
    ensures !DialogueRefused(t, n, r)
  {
    hide ParseCommand, EncodeReservation, EncodeRecoveryResult;
  }

  class Service {
    const session: Session
    const world: World

    constructor (session: Session)
      ensures this.session == session && world == session.world
    {
      this.session := session;
      world := session.world;
    }

    method Run() returns (finished: bool)
      requires world == session.world && session.Valid() && session.state == Initial
      modifies session, world
      ensures session.Valid() && Settled(world.trace) && Extends(world.trace, old(world.trace))
      ensures NoExecution(world.trace, |old(world.trace)|) ||
              (var n := |old(world.trace)|;
               && world.trace[n].ReadFrame? && world.trace[n].first.Some?
               && CommitRun(world.trace, n + 1, world.trace[n].first.value, session.lifetime, session.reservation))
      ensures var n := |old(world.trace)|;
              && |world.trace| > n && world.trace[n].ReadFrame?
              && (finished <==> world.trace[n].first.Some?
                                && !RunRefused(world.trace, n + 1, world.trace[n].first.value, session.lifetime, session.reservation))
              && (finished ==>
                    var text := world.trace[n].first.value;
                    || (CommitRun(world.trace, n + 1, text, session.lifetime, session.reservation)
                        && world.trace[n + 15] == Execute(true))
                    || CancelRun(world.trace, n + 1, text, session.lifetime, session.reservation))
    {
      hide ParseRequest, EncodeReservation, OnceEach, ExecutesMarked, Marked, Durables, Endings, LastEnding, CancelRun,
           PreparedBy, Committed, RunRefused;
      var first := world.Answer<string>();
      world.Record(ReadFrame(first));
      if first == None { return false; }
      finished := RunWithInitialRequest(first.value);
    }

    /**
     However the calls fail, a durable prepare is settled when the loop is left, without
     the help of the destructor; the transaction is executed only at the end of a whole
     commit dialogue; and a normal return means that the execution succeeded or that the
     cancellation was carried out and answered.
     */
    method RunWithInitialRequest(text: string) returns (finished: bool)
      requires world == session.world && session.Valid() && session.state == Initial
      modifies session, world
      ensures session.Valid() && Settled(world.trace) && Extends(world.trace, old(world.trace))
      ensures NoExecution(world.trace, |old(world.trace)|) ||
              CommitRun(world.trace, |old(world.trace)|, text, session.lifetime, session.reservation)
      ensures finished ==>
                var n := |old(world.trace)|;
                || (CommitRun(world.trace, n, text, session.lifetime, session.reservation) && world.trace[n + 14] == Execute(true))
                || CancelRun(world.trace, n, text, session.lifetime, session.reservation)
      ensures finished <==>
                !RunRefused(world.trace, |old(world.trace)|, text, session.lifetime, session.reservation)
    {
      hide ParseRequest, EncodeReservation, EncodeRecoveryResult, ParseCommand, OnceEach, ExecutesMarked, Marked,
           Durables, Endings, LastEnding, PreparedBy, PrepareMisled, Committed, CancelledOnRequest, DialogueRefused;
      ghost var n := |old(world.trace)|;
      var parsed := ParseRequest(text);
      if parsed == None {
        NoRequestMisleads(world.trace, n + 1, text, session.lifetime);
        return false;
      }
      var created := world.Answer<bool>();
      world.Record(CreateMonitor(parsed.value.caller, created));
      if created != Some(true) { return false; }
      var reservation := session.Prepare(text);
      if reservation == None { return false; }
      ghost var prepared := world.trace;
      var phase;
      finished, phase := Converse(reservation.value);
      ghost var dialogue := world.trace;
      if !finished {
        if phase == PreparedPhase {
          var _ := session.CancelBeforeCommitOnCallerExit();
        } else if phase == CommitPhase {
          var _ := session.CancelCommitAwaitingCallerExit();
        }
      }
      StillPreparedBy(prepared, world.trace, n + 1, text, session.lifetime, session.reservation);
      if finished {
        FinishedIsNotRefused(world.trace, n, text, session.lifetime, session.reservation);
      } else {
        StillDialogueRefused(dialogue, world.trace, n + 8, session.reservation);
      }
    }

    /** The try block; `phase` is its value at the moment the block is left. */
    method Converse(reservation: Reservation) returns (finished: bool, phase: Phase)
      requires world == session.world && session.Valid() && session.state == Prepared
      requires session.reservation == reservation
      modifies session, world
      ensures session.Valid() && session.reservation == reservation && Extends(world.trace, old(world.trace))
      ensures match phase
              case PreparedPhase => session.state in {Prepared, Cancelled, RecoveryRequired}
              case CommitPhase => session.state == CommitAccepted
              case _ => session.state in {Cancelled, Completed, RecoveryRequired}
      ensures NoExecution(world.trace, |old(world.trace)|) ||
              (|world.trace| == |old(world.trace)| + 7 && Committed(world.trace, |old(world.trace)|, reservation) && phase in {ExecutingPhase, FinishedPhase})
      ensures finished ==>
                var n := |old(world.trace)|;
                && phase == FinishedPhase
                && ((|world.trace| == n + 7 && Committed(world.trace, n, reservation) && world.trace[n + 6] == Execute(true))
                    || (|world.trace| == n + 4 && CancelledOnRequest(world.trace, n, reservation)))
      ensures !finished ==> DialogueRefused(world.trace, |old(world.trace)|, reservation)
    {
      hide EncodeReservation, EncodeRecoveryResult, ParseCommand, OnceEach, ExecutesMarked, Marked,
           Durables, Endings, LastEnding, Opened, Concluded, Answered, Threw;
      finished, phase := false, PreparedPhase;
      var received := Open(reservation);
      ghost var dialogue := world.trace;
      ghost var n := |old(world.trace)|;
      if received == None || ParseCommand(received.value) == None { return; }
      var operation := ParseCommand(received.value).value.operation;
      if operation == "commitAfterExit" {
        finished, phase := Commit(reservation, received.value);
      } else if operation == "cancelReservation" {
        finished, phase := CancelOnRequest(reservation, received.value);
      }
      StillOpened(dialogue, world.trace, n, reservation);
      if SomeThrew(world.trace, n + 2) { StillThrew(world.trace, world.trace, n, n + 2); }
    }

    method Open(reservation: Reservation) returns (received: Option<string>)
      requires world == session.world && session.Valid() && session.state == Prepared && session.reservation == reservation
      modifies world
      ensures session.Valid() && Extends(world.trace, old(world.trace))
      ensures NoExecution(world.trace, |old(world.trace)|)
      ensures received.Some? ==>
                var n := |old(world.trace)|;
                && |world.trace| == n + 2 && Opened(world.trace, n, reservation)
                && world.trace[n + 1] == ReadFrameUntil(reservation.expiresAtUnixMilliseconds, received)
      ensures received.None? ==> SomeThrew(world.trace, |old(world.trace)|)
    {
      hide EncodeReservation, Untouched, Marked, Done;
      var frame := EncodeReservation(reservation);
      if frame == None { return None; }
      var written := world.Succeeds();
      world.Note(WriteFrame(frame.value, written));
      assert !written ==> Threw(world.trace[|world.trace| - 1]);
      if !written { return None; }
      received := world.Answer<string>();
      world.Note(ReadFrameUntil(reservation.expiresAtUnixMilliseconds, received));
      assert received.None? ==> Threw(world.trace[|world.trace| - 1]);
    }

    method Commit(reservation: Reservation, command: string) returns (finished: bool, phase: Phase)
      requires world == session.world && session.Valid() && session.state == Prepared
      requires session.reservation == reservation
      modifies session, world
      ensures session.Valid() && session.reservation == reservation && Extends(world.trace, old(world.trace))
      ensures match phase
              case PreparedPhase => session.state in {Prepared, Cancelled, RecoveryRequired}
              case CommitPhase => session.state == CommitAccepted
              case _ => session.state in {Cancelled, Completed, RecoveryRequired}
      ensures phase !in {ExecutingPhase, FinishedPhase} ==> NoExecution(world.trace, |old(world.trace)|)
      ensures phase in {ExecutingPhase, FinishedPhase} ==>
                var n := |old(world.trace)|;
                && |world.trace| == n + 5 && Concluded(world.trace, n, command, reservation)
                && world.trace[n + 4] == Execute(finished)
      ensures finished ==> phase == FinishedPhase
      ensures !finished && Bound(command, "commitAfterExit", reservation) ==>
                SomeThrew(world.trace, |old(world.trace)|) || CommitRefused(world.trace, |old(world.trace)|, reservation)
    {
      hide EncodeReservation, ParseCommand, Untouched, Marked, Done, AcceptedBy;
      finished, phase := false, PreparedPhase;
      var acknowledged := session.AcceptCommit(command);
      if acknowledged == None {
        assert Bound(command, "commitAfterExit", reservation) && !CommitRefused(world.trace, |old(world.trace)|, reservation) ==>
            Threw(world.trace[|world.trace| - 1]);
        return;
      }
      phase := CommitPhase;
      ghost var accepted := world.trace;
      var frame := EncodeReservation(acknowledged.value);
      if frame == None { return; }
      var written := world.Succeeds();
      world.Note(WriteFrame(frame.value, written));
      assert !written ==> Threw(world.trace[|world.trace| - 1]);
      if !written { return; }
      var exited := world.Succeeds();
      world.Note(WaitForExit(reservation.expiresAtUnixMilliseconds, exited));
      assert !exited ==> Threw(world.trace[|world.trace| - 1]);
      if !exited { return; }
      phase := ExecutingPhase;
      StillAcceptedBy(accepted, world.trace, |old(world.trace)|, command, reservation);
      ghost var exiting := world.trace;
      var status := session.ExecuteAfterCallerExit();
      StillAcceptedBy(exiting, world.trace, |old(world.trace)|, command, reservation);
      assert status == None ==> Threw(world.trace[|world.trace| - 1]);
      if status == None { return; }
      finished, phase := true, FinishedPhase;
    }

    method CancelOnRequest(reservation: Reservation, command: string) returns (finished: bool, phase: Phase)
      requires world == session.world && session.Valid() && session.state == Prepared
      requires session.reservation == reservation
      modifies session, world
      ensures session.Valid() && session.reservation == reservation && Extends(world.trace, old(world.trace))
      ensures phase in {PreparedPhase, FinishedPhase} && NoExecution(world.trace, |old(world.trace)|)
      ensures phase == PreparedPhase ==> session.state in {Prepared, RecoveryRequired}
      ensures phase == FinishedPhase ==> session.state == Cancelled
      ensures finished ==>
                var n := |old(world.trace)|;
                && phase == FinishedPhase && |world.trace| == n + 2
                && Answered(world.trace, n, command, reservation)
      ensures !finished && Bound(command, "cancelReservation", reservation) ==>
                SomeThrew(world.trace, |old(world.trace)|) || CancelRefused(world.trace, |old(world.trace)|)
    {
      hide EncodeReservation, EncodeRecoveryResult, ParseCommand, OnceEach, ExecutesMarked, Marked, Durables, Endings, LastEnding, Bound;
      finished, phase := false, PreparedPhase;
      var result := session.Cancel(command);
      if result == None { return; }
      phase := FinishedPhase;
      ReservedCanRollBack(reservation);
      var frame := EncodeRecoveryResult(result.value);
      if frame == None { return; }
      var written := world.Succeeds();
      world.Record(WriteFrame(frame.value, written));
      assert !written ==> Threw(world.trace[|world.trace| - 1]);
      finished := written;
    }
  }
}
