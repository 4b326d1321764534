/**
 The one-shot install session (native_runtime/cpp/native_install_session.cc), and the world
 around it and around the service loop of InstallService.

 Every call that leaves the two classes goes to a World, which may answer anything
 and may throw at any call, and which records what was called and what came back.
 None and false stand for a throw.
 */
module InstallSession {
  import opened Primitives
  import opened SortedMap
  import opened WireMessages
  import opened InstallRequest

  //
  // What the two classes do to the rest of the system
  //

  datatype Event =
    | CreateMonitor(caller: Caller, created: Option<bool>)       // Some(false): a null pointer
    | Authorize(request: Request, granted: Option<bool>)         // Some(false): a null pointer
    | TransactionId(id: Option<string>)
    | PrepareDurable(journal: Option<string>)
    | Sha256(text: string, digest: Option<string>)
    | Clock(now: Option<int64>)
    | ReadyToken(token: Option<string>)
    | EndpointIdentity(identity: Option<string>)
    | MarkCommitAccepted(marked: bool)
    | Execute(executed: bool)
    | CancelPrepared(cancelled: bool)
    | ReadFrame(first: Option<string>)
    | ReadFrameUntil(deadline: int64, frame: Option<string>)
    | WriteFrame(text: string, written: bool)
    | WaitForExit(deadline: int64, exited: bool)

  /** The durable prepare returned. */
  predicate IsDurable(e: Event) { e.PrepareDurable? && e.journal.Some? }

  /** One of the two calls that settle a prepared transaction was made. */
  predicate IsEnding(e: Event) { e.Execute? || e.CancelPrepared? }

  predicate Quiet(e: Event) { !IsDurable(e) && !IsEnding(e) }

  function Durables(t: seq<Event>): nat
  {
    if t == [] then 0 else Durables(t[..|t| - 1]) + if IsDurable(t[|t| - 1]) then 1 else 0
  }

  function Endings(t: seq<Event>): nat
  {
    if t == [] then 0 else Endings(t[..|t| - 1]) + if IsEnding(t[|t| - 1]) then 1 else 0
  }

  /** At every moment: at most one durable prepare, and at most one settling call for it. */
  ghost predicate OnceEach(t: seq<Event>)
  {
    forall n :: 0 <= n <= |t| ==> Endings(t[..n]) <= Durables(t[..n]) <= 1
  }

  /** ... and no durable prepare without its settling call. */
  ghost predicate Settled(t: seq<Event>)
  {
    OnceEach(t) && Endings(t) == Durables(t)
  }

  /** How the prepared transaction ended. */
  function LastEnding(t: seq<Event>): Option<Event>
  {
    if t == [] then None
    else if IsEnding(t[|t| - 1]) then Some(t[|t| - 1])
    else LastEnding(t[..|t| - 1])
  }

  /** No execution without the transaction marked as committed before it. */
  ghost predicate ExecutesMarked(t: seq<Event>)
  {
    forall k :: 0 <= k < |t| && t[k].Execute? ==> exists m :: 0 <= m < k && t[m] == MarkCommitAccepted(true)
  }

  ghost predicate Marked(t: seq<Event>)
  {
    exists m :: 0 <= m < |t| && t[m] == MarkCommitAccepted(true)
  }

  ghost predicate Extends(t: seq<Event>, before: seq<Event>)
  {
    |before| <= |t| && forall k :: 0 <= k < |before| ==> t[k] == before[k]
  }

  /** No execution among the calls from the n-th on. */
  ghost predicate NoExecution(t: seq<Event>, n: nat)
  {
    forall k :: n <= k < |t| ==> !t[k].Execute?
  }

  lemma Append(t: seq<Event>, e: Event)
    ensures Durables(t + [e]) == Durables(t) + if IsDurable(e) then 1 else 0
    ensures Endings(t + [e]) == Endings(t) + if IsEnding(e) then 1 else 0
    ensures LastEnding(t + [e]) == if IsEnding(e) then Some(e) else LastEnding(t)
    ensures OnceEach(t) && Endings(t + [e]) <= Durables(t + [e]) <= 1 ==> OnceEach(t + [e])
    ensures ExecutesMarked(t) && (e.Execute? ==> Marked(t)) ==> ExecutesMarked(t + [e])
    ensures Marked(t) || e == MarkCommitAccepted(true) ==> Marked(t + [e])
  {
    assert (t + [e])[..|t|] == t;
    if OnceEach(t) && Endings(t + [e]) <= Durables(t + [e]) <= 1 {
      forall n | 0 <= n <= |t| + 1
        ensures Endings((t + [e])[..n]) <= Durables((t + [e])[..n]) <= 1
      {
        assert (t + [e])[..n] == if n <= |t| then t[..n] else t + [e];
      }
    }
    if Marked(t) {
      var m :| 0 <= m < |t| && t[m] == MarkCommitAccepted(true);
      assert (t + [e])[m] == MarkCommitAccepted(true);
    } else if e == MarkCommitAccepted(true) {
      assert (t + [e])[|t|] == e;
    }
    if ExecutesMarked(t) && (e.Execute? ==> Marked(t)) {
      AppendMarked(t, e);
    }
  }

  lemma AppendMarked(t: seq<Event>, e: Event)
    requires ExecutesMarked(t) && (e.Execute? ==> Marked(t))
    ensures ExecutesMarked(t + [e])
  {
    forall k | 0 <= k < |t| + 1 && (t + [e])[k].Execute?
      ensures exists m :: 0 <= m < k && (t + [e])[m] == MarkCommitAccepted(true)
    {
      if k < |t| {
        assert t[k].Execute?;
        var m :| 0 <= m < k && t[m] == MarkCommitAccepted(true);
        assert (t + [e])[m] == MarkCommitAccepted(true);
      } else {
        var m :| 0 <= m < |t| && t[m] == MarkCommitAccepted(true);
        assert (t + [e])[m] == MarkCommitAccepted(true);
      }
    }
  }

  lemma {:induction false} CountsGrow(t: seq<Event>, m: nat, n: nat)
    requires m <= n <= |t|
    ensures Endings(t[..m]) <= Endings(t[..n]) && Durables(t[..m]) <= Durables(t[..n])
    decreases n
  {
    if m < n {
      CountsGrow(t, m, n - 1);
      assert t[..n][..n - 1] == t[..n - 1];
    }
  }

  lemma CountsAt(t: seq<Event>, k: nat)
    requires k < |t|
    ensures Endings(t[..k + 1]) == Endings(t[..k]) + if IsEnding(t[k]) then 1 else 0
    ensures Durables(t[..k + 1]) == Durables(t[..k]) + if IsDurable(t[k]) then 1 else 0
  {
    assert t[..k + 1][..k] == t[..k];
  }

  lemma {:induction false} SomeEnding(t: seq<Event>, n: nat)
    requires n <= |t| && Endings(t[..n]) > 0
    ensures exists k :: 0 <= k < n && IsEnding(t[k])
    decreases n
  {
    CountsAt(t, n - 1);
    if !IsEnding(t[n - 1]) { SomeEnding(t, n - 1); }
  }

  /** What Settled means call by call: after a durable prepare there is exactly one
      settling call, and there is none before it. */
  lemma SettledExactlyOnce(t: seq<Event>, d: nat)
    requires Settled(t) && d < |t| && IsDurable(t[d])
    ensures exists k :: d < k < |t| && IsEnding(t[k]) && forall j :: 0 <= j < |t| && IsEnding(t[j]) ==> j == k
  {
    hide Endings, Durables;
    assert t[..|t|] == t;
    CountsAt(t, d);
    CountsGrow(t, d + 1, |t|);
    SomeEnding(t, |t|);
    var k :| 0 <= k < |t| && IsEnding(t[k]);
    forall j | 0 <= j < |t| && IsEnding(t[j])
      ensures d < j && j == k
    {
      EndingPlace(t, d, j);
      EndingPlace(t, d, k);
      CountsGrow(t, j + 1, |t|);
      CountsGrow(t, k + 1, |t|);
      if j < k { CountsGrow(t, j + 1, k); CountsAt(t, j); CountsAt(t, k); }
      if k < j { CountsGrow(t, k + 1, j); CountsAt(t, j); CountsAt(t, k); }
    }
  }

  lemma EndingPlace(t: seq<Event>, d: nat, k: nat)
    requires OnceEach(t) && d < |t| && IsDurable(t[d]) && k < |t| && IsEnding(t[k])
    ensures d < k
  {
    hide Endings, Durables;
    CountsAt(t, d);
    CountsAt(t, k);
    assert Durables(t[..d + 1]) <= 1 && Endings(t[..k + 1]) <= Durables(t[..k + 1]);
    if k < d {
      CountsGrow(t, k + 1, d);
    }
  }

  /** Everything outside: the authorizer, the transaction, the clock, the channel and the monitor. */
  class World {
    var trace: seq<Event>

    constructor ()
      ensures trace == []
    {
      trace := [];
    }

    method Record(e: Event)
      modifies this
      ensures trace == old(trace) + [e]
      ensures Durables(trace) == Durables(old(trace)) + if IsDurable(e) then 1 else 0
      ensures Endings(trace) == Endings(old(trace)) + if IsEnding(e) then 1 else 0
      ensures LastEnding(trace) == if IsEnding(e) then Some(e) else LastEnding(old(trace))
      ensures OnceEach(old(trace)) && Endings(trace) <= Durables(trace) <= 1 ==> OnceEach(trace)
      ensures ExecutesMarked(old(trace)) && (e.Execute? ==> Marked(old(trace))) ==> ExecutesMarked(trace)
      ensures Marked(old(trace)) || e == MarkCommitAccepted(true) ==> Marked(trace)
    {
      Append(trace, e);
      trace := trace + [e];
    }

    /** A call that neither prepares durably nor settles. */
    method Note(e: Event)
      requires Quiet(e)
      modifies this
      ensures trace == old(trace) + [e]
      ensures forall durables: nat :: durables <= 1 && Untouched(old(trace), durables) ==> Untouched(trace, durables)
      ensures Marked(old(trace)) ==> Marked(trace)
    {
      hide OnceEach, ExecutesMarked, Marked, Durables, Endings, LastEnding;
      Record(e);
    }

    /** Any answer at all, or a throw. */
    method Answer<T(0)>() returns (r: Option<T>)
    {
      r := *;
    }

    method Succeeds() returns (ok: bool)
    {
      ok := *;
    }
  }

  //
  // The session
  //

  datatype State =
    | Initial | Preparing | Prepared | CommitAccepted | Executing | Cancelling
    | Cancelled | Completed | RecoveryRequired

  /** RequireBinding, of a command that parses. */
  predicate Bound(text: string, operation: string, r: Reservation)
  {
    && ParseCommand(text).Some?
    && var c := ParseCommand(text).value;
       && c.operation == operation
       && c.protocolVersion == r.protocolVersion
       && c.transactionId == r.transactionId
       && c.readyToken == r.readyToken
       && c.journalSha256 == r.journalSha256
       && c.helperEndpointIdentitySha256 == r.helperEndpointIdentitySha256
  }

  function BoundCommand(operation: string, r: Reservation): Command
  {
    Command(operation, r.protocolVersion, r.transactionId, r.readyToken, r.journalSha256, r.helperEndpointIdentitySha256)
  }

  /** For each of the two operations exactly one text is bound to a reservation that was sent:
      the canonical text of the command with the fields of the reservation. */
  lemma OneTextIsBound(text: string, operation: string, r: Reservation)
    ensures Bound(text, operation, r) <==> EncodeCommand(BoundCommand(operation, r)) == Some(text)
    ensures EncodeReservation(r).Some? && operation in {"commitAfterExit", "cancelReservation"} ==>
              EncodeCommand(BoundCommand(operation, r)).Some?
  {
    hide ParseCommand, EncodeCommand, EncodeReservation;
    var c := BoundCommand(operation, r);
    if EncodeCommand(c).Some? { ParseCommandInvertsEncode(c); }
    if ParseCommand(text).Some? { EncodeCommandInvertsParse(text); }
    if EncodeReservation(r).Some? { ReservedCanBeBound(r, c); }
  }

  /** The transaction was durably prepared or not, and nothing has settled it. */
  ghost predicate Untouched(t: seq<Event>, durables: nat)
  {
    && OnceEach(t) && ExecutesMarked(t)
    && Durables(t) == durables && Endings(t) == 0 && LastEnding(t) == None
  }

  /** Nothing is left to settle, and if something was settled it was by one of these calls. */
  ghost predicate Done(t: seq<Event>, endings: set<Option<Event>>)
  {
    Settled(t) && ExecutesMarked(t) && Durables(t) <= 1 && LastEnding(t) in endings
  }

  /** The calls, from the n-th on, of a Prepare that returns: the reservation names the journal that was made
      durable, by its digest, and expires one lifetime after the clock was read. */
  ghost predicate PreparedBy(t: seq<Event>, n: nat, text: string, lifetime: int, r: Reservation)
  {
    && |t| >= n + 7
    && ParseRequest(text).Some?
    && var request := ParseRequest(text).value;
       && t[n] == Authorize(request, Some(true))
       && t[n + 1] == TransactionId(Some(r.transactionId)) && r.transactionId == request.transactionId
       && t[n + 2].PrepareDurable? && t[n + 2].journal.Some?
       && t[n + 3] == Sha256(t[n + 2].journal.value, Some(r.journalSha256))
       && t[n + 4].Clock? && t[n + 4].now.Some? && 0 <= t[n + 4].now.value
       && r.expiresAtUnixMilliseconds == t[n + 4].now.value + lifetime
       && t[n + 5] == ReadyToken(Some(r.readyToken))
       && t[n + 6] == EndpointIdentity(Some(r.helperEndpointIdentitySha256))
       && EncodeReservation(r).Some?
  }

  /** The call threw, or answered that there is nothing.  A cancellation is judged where it is made. */
  predicate Threw(e: Event)
  {
    match e
    case CreateMonitor(_, created) => created != Some(true)
    case Authorize(_, granted) => granted != Some(true)
    case TransactionId(id) => id.None?
    case PrepareDurable(journal) => journal.None?
    case Sha256(_, digest) => digest.None?
    case Clock(now) => now.None?
    case ReadyToken(token) => token.None?
    case EndpointIdentity(identity) => identity.None?
    case MarkCommitAccepted(marked) => !marked
    case Execute(executed) => !executed
    case CancelPrepared(_) => false
    case ReadFrame(first) => first.None?
    case ReadFrameUntil(_, frame) => frame.None?
    case WriteFrame(_, written) => !written
    case WaitForExit(_, exited) => !exited
  }

  ghost predicate SomeThrew(t: seq<Event>, n: nat)
  {
    exists k :: n <= k < |t| && Threw(t[k])
  }

  /** Why Prepare throws, as its calls from the n-th on show it: the request is refused, a call
      threw, the transaction is another one, the clock is out of range, or the answers make no
      reservation that can be sent. */
  ghost predicate PrepareRefused(t: seq<Event>, n: nat, text: string, lifetime: int)
  {
    SomeThrew(t, n) || PrepareMisled(t, n, text, lifetime)
  }

  ghost predicate PrepareMisled(t: seq<Event>, n: nat, text: string, lifetime: int)
  {
    || ParseRequest(text).None?
    || var id := ParseRequest(text).value.transactionId;
       || (|t| > n + 1 && t[n + 1].TransactionId? && t[n + 1].id != Some(id))
       || (|t| > n + 4 && t[n + 4].Clock? && t[n + 4].now.Some? && !(0 <= t[n + 4].now.value <= INT64_MAX - lifetime))
       || (|t| > n + 6 && Unsendable(t, n + 3, id, lifetime))
  }

  /** The four answers from the n-th on make no reservation that can be sent. */
  ghost predicate Unsendable(t: seq<Event>, n: nat, id: string, lifetime: int)
    requires |t| > n + 3
  {
    && t[n].Sha256? && t[n].digest.Some? && t[n + 1].Clock? && t[n + 1].now.Some?
    && t[n + 2].ReadyToken? && t[n + 2].token.Some? && t[n + 3].EndpointIdentity? && t[n + 3].identity.Some?
    && INT64_MIN <= t[n + 1].now.value + lifetime <= INT64_MAX
    && EncodeReservation(Reservation(1, id, t[n + 2].token.value, t[n].digest.value, t[n + 3].identity.value,
                                     t[n + 1].now.value + lifetime)).None?
  }

  /** The calls, from the n-th on, of an AcceptCommit that returns. */
  ghost predicate AcceptedBy(t: seq<Event>, n: nat, text: string, r: Reservation)
  {
    && |t| >= n + 2 && Bound(text, "commitAfterExit", r)
    && t[n].Clock? && t[n].now.Some? && t[n].now.value <= r.expiresAtUnixMilliseconds
    && t[n + 1] == MarkCommitAccepted(true)
  }

  /** A bound commit in full: the clock decides between marking and cancelling, and only a
      marked commit is accepted. */
  ghost predicate AcceptsExactly(t: seq<Event>, n: nat, r: Reservation, accepted: bool)
  {
    && |t| > n && t[n].Clock?
    && if t[n].now.None? then |t| == n + 1 && !accepted
       else
         && |t| == n + 2
         && if t[n].now.value > r.expiresAtUnixMilliseconds then t[n + 1].CancelPrepared? && !accepted
            else t[n + 1] == MarkCommitAccepted(accepted)
  }

  lemma StillPreparedBy(before: seq<Event>, t: seq<Event>, n: nat, text: string, lifetime: int, r: Reservation)
    requires Extends(t, before) && PreparedBy(before, n, text, lifetime, r)
    ensures PreparedBy(t, n, text, lifetime, r)
  {
    hide ParseRequest, EncodeReservation;
  }

  lemma StillRefused(before: seq<Event>, t: seq<Event>, n: nat, text: string, lifetime: int)
    requires Extends(t, before) && PrepareRefused(before, n, text, lifetime)
    ensures PrepareRefused(t, n, text, lifetime)
  {
    hide ParseRequest, EncodeReservation, Threw;
    if SomeThrew(before, n) {
      var k :| n <= k < |before| && Threw(before[k]);
      assert Threw(t[k]);
    }
  }

  lemma NoRequestMisleads(t: seq<Event>, n: nat, text: string, lifetime: int)
    requires ParseRequest(text).None?
    ensures PrepareMisled(t, n, text, lifetime)
  {
    hide ParseRequest, EncodeReservation;
  }

  lemma PreparedIsNotMisled(t: seq<Event>, n: nat, text: string, lifetime: int, r: Reservation)
    requires PreparedBy(t, n, text, lifetime, r)
    ensures !PrepareMisled(t, n, text, lifetime) && forall k :: n <= k < n + 7 ==> !Threw(t[k])
  {
    hide ParseRequest, EncodeReservation, EncodeRecoveryResult;
    ReservedCanRollBack(r);
  }

  lemma StillAcceptedBy(before: seq<Event>, t: seq<Event>, n: nat, text: string, r: Reservation)
    requires Extends(t, before) && AcceptedBy(before, n, text, r)
    ensures AcceptedBy(t, n, text, r)
  {
    hide Bound;
  }

  class Session {
    const world: World
    const lifetime: int64
    var state: State
    var hasTransaction: bool
    var reservation: Reservation

    /** What each state means for the calls made so far. */
    ghost predicate Valid()
      reads this, world
    {
      && lifetime > 0
      && match state
         case Initial => !hasTransaction && Untouched(world.trace, 0)
         case Prepared => hasTransaction && Untouched(world.trace, 1) && EncodeReservation(reservation).Some?
         case CommitAccepted =>
           hasTransaction && Untouched(world.trace, 1) && Marked(world.trace) && EncodeReservation(reservation).Some?
         case Cancelled => Done(world.trace, {None, Some(CancelPrepared(true))})
         case Completed => Done(world.trace, {Some(Execute(true))})
         case RecoveryRequired => Done(world.trace, {None, Some(Execute(false)), Some(CancelPrepared(false))})
         case _ => false
    }

    constructor (world: World, lifetime: int64)
      requires lifetime > 0 && Untouched(world.trace, 0)
      ensures Valid() && state == Initial && this.world == world && this.lifetime == lifetime
    {
      this.world := world;
      this.lifetime := lifetime;
      state := Initial;
      hasTransaction := false;
      reservation := Reservation(0, "", "", "", "", 0);
    }

    method Prepare(text: string) returns (r: Option<Reservation>)
      requires Valid()
      modifies this, world
      ensures Valid() && Extends(world.trace, old(world.trace))
      ensures NoExecution(world.trace, |old(world.trace)|)
      ensures old(state) != Initial ==> r == None && world.trace == old(world.trace) && state == old(state)
      ensures old(state) == Initial && r == None ==>
                state == if !hasTransaction || LastEnding(world.trace) == Some(CancelPrepared(true)) then Cancelled else RecoveryRequired
      ensures r.Some? ==> state == Prepared && r == Some(reservation)
      ensures r.Some? ==>
                |world.trace| == |old(world.trace)| + 7 && PreparedBy(world.trace, |old(world.trace)|, text, lifetime, reservation)
      ensures old(state) == Initial ==> (r == None <==> PrepareRefused(world.trace, |old(world.trace)|, text, lifetime))
    {
      hide ParseRequest, EncodeReservation, OnceEach, ExecutesMarked, Marked, Durables, Endings, LastEnding, PrepareMisled, PreparedBy, Threw;
      if state != Initial { return None; }
      state := Preparing;
      var durable := false;
      r, durable := PrepareBody(text);
      ghost var calls := world.trace;
      if r == None {
        if durable && hasTransaction {
          var cancelled := world.Succeeds();
          world.Record(CancelPrepared(cancelled));
          state := if cancelled then Cancelled else RecoveryRequired;
        } else {
          state := if hasTransaction then RecoveryRequired else Cancelled;
        }
        StillRefused(calls, world.trace, |old(world.trace)|, text, lifetime);
      } else {
        PreparedIsNotMisled(calls, |old(world.trace)|, text, lifetime, reservation);
      }
    }

    /** The try block of Prepare; `durable` is its flag at the moment it is left. */
    method PrepareBody(text: string) returns (r: Option<Reservation>, durable: bool)
      requires state == Preparing && !hasTransaction && lifetime > 0
      requires Untouched(world.trace, 0)
      modifies this, world
      ensures Extends(world.trace, old(world.trace)) && Untouched(world.trace, if durable then 1 else 0)
      ensures NoExecution(world.trace, |old(world.trace)|)
      ensures durable ==> hasTransaction
      ensures r.Some? ==> state == Prepared && r == Some(reservation) && durable && EncodeReservation(reservation).Some?
      ensures r.Some? ==>
                |world.trace| == |old(world.trace)| + 7 && PreparedBy(world.trace, |old(world.trace)|, text, lifetime, reservation)
      ensures r == None ==> PrepareRefused(world.trace, |old(world.trace)|, text, lifetime)
    {
      hide ParseRequest, EncodeReservation, OnceEach, ExecutesMarked, Marked, Durables, Endings, LastEnding;
      durable := false;
      var parsed := ParseRequest(text);
      if parsed == None { return None, durable; }
      var request := parsed.value;
      var authorized := Authorized(request);
      if !authorized { return None, durable; }
      var journal := world.Answer<string>();
      world.Record(PrepareDurable(journal));
      assert journal == None ==> Threw(world.trace[|world.trace| - 1]);
      if journal == None { return None, durable; }
      durable := true;
      r := Reserve(request.transactionId, journal.value);
    }

    /** The first part of the try block: an authorized transaction with the id of the request. */
    method Authorized(request: Request) returns (ok: bool)
      requires !hasTransaction && Untouched(world.trace, 0)
      modifies this, world
      ensures Extends(world.trace, old(world.trace)) && Untouched(world.trace, 0) && state == old(state)
      ensures NoExecution(world.trace, |old(world.trace)|)
      ensures ok ==> hasTransaction
      ensures ok ==>
                world.trace == old(world.trace) + [Authorize(request, Some(true)), TransactionId(Some(request.transactionId))]
      ensures !ok ==>
                var n := |old(world.trace)|;
                || (|world.trace| == n + 1 && Threw(world.trace[n]))
                || (|world.trace| == n + 2 && world.trace[n + 1].TransactionId? && world.trace[n + 1].id != Some(request.transactionId))
    {
      hide Untouched, Marked;
      var granted := world.Answer<bool>();
      world.Note(Authorize(request, granted));
      if granted == None { return false; }
      hasTransaction := granted.value;
      if !hasTransaction { return false; }
      var id := world.Answer<string>();
      world.Note(TransactionId(id));
      return id == Some(request.transactionId);
    }

    /** The rest of the try block, after the durable prepare. */
    method Reserve(id: string, journal: string) returns (r: Option<Reservation>)
      requires lifetime > 0 && Untouched(world.trace, 1)
      modifies this, world
      ensures Extends(world.trace, old(world.trace)) && Untouched(world.trace, 1)
      ensures NoExecution(world.trace, |old(world.trace)|)
      ensures hasTransaction == old(hasTransaction)
      ensures r.Some? ==> state == Prepared && r == Some(reservation) && EncodeReservation(reservation).Some?
      ensures r.Some? ==> var n := |old(world.trace)|;
                && |world.trace| == n + 4
                && world.trace[n] == Sha256(journal, Some(reservation.journalSha256))
                && world.trace[n + 1].Clock? && world.trace[n + 1].now.Some?
                && 0 <= world.trace[n + 1].now.value
                && reservation.expiresAtUnixMilliseconds == world.trace[n + 1].now.value + lifetime
                && world.trace[n + 2] == ReadyToken(Some(reservation.readyToken))
                && world.trace[n + 3] == EndpointIdentity(Some(reservation.helperEndpointIdentitySha256))
                && reservation.transactionId == id
      ensures r == None ==> var n := |old(world.trace)|;
                || SomeThrew(world.trace, n)
                || (|world.trace| == n + 2 && world.trace[n + 1].Clock? && world.trace[n + 1].now.Some?
                    && !(0 <= world.trace[n + 1].now.value <= INT64_MAX - lifetime))
                || (|world.trace| == n + 4 && Unsendable(world.trace, n, id, lifetime))
    {
      hide EncodeReservation, Untouched, Marked;
      var digest := world.Answer<string>();
      world.Note(Sha256(journal, digest));
      assert digest == None ==> Threw(world.trace[|world.trace| - 1]);
      if digest == None { return None; }
      var now := world.Answer<int64>();
      world.Note(Clock(now));
      assert now == None ==> Threw(world.trace[|world.trace| - 1]);
      if now == None || now.value < 0 || now.value > INT64_MAX - lifetime { return None; }
      var token := world.Answer<string>();
      world.Note(ReadyToken(token));
      assert token == None ==> Threw(world.trace[|world.trace| - 1]);
      if token == None { return None; }
      var identity := world.Answer<string>();
      world.Note(EndpointIdentity(identity));
      assert identity == None ==> Threw(world.trace[|world.trace| - 1]);
      if identity == None { return None; }
      reservation := Reservation(1, id, token.value, digest.value, identity.value, now.value + lifetime);
      if EncodeReservation(reservation) == None { return None; }
      state := Prepared;
      return Some(reservation);
    }

    method AcceptCommit(text: string) returns (r: Option<Reservation>)
      requires Valid()
      modifies this, world
      ensures Valid() && Extends(world.trace, old(world.trace))
      ensures reservation == old(reservation)
      ensures old(state) != Prepared ==> r == None && world.trace == old(world.trace) && state == old(state)
      ensures old(state) == Prepared && r == None ==> state in {Prepared, Cancelled, RecoveryRequired}
      ensures NoExecution(world.trace, |old(world.trace)|)
      ensures r.Some? ==> state == CommitAccepted && r == Some(reservation)
      ensures old(state) == Prepared && !Bound(text, "commitAfterExit", old(reservation)) ==> world.trace == old(world.trace)
      ensures old(state) == Prepared && Bound(text, "commitAfterExit", old(reservation)) ==>
                AcceptsExactly(world.trace, |old(world.trace)|, old(reservation), r.Some?)
      ensures r.Some? ==> |world.trace| == |old(world.trace)| + 2 && AcceptedBy(world.trace, |old(world.trace)|, text, reservation)
    {
      hide ParseCommand, EncodeReservation, OnceEach, ExecutesMarked, Marked, Durables, Endings, LastEnding;
      if state != Prepared || !Bound(text, "commitAfterExit", reservation) { return None; }
      var now := world.Answer<int64>();
      world.Record(Clock(now));
      if now == None { return None; }
      if now.value > reservation.expiresAtUnixMilliseconds {
        var _ := CancelPreparedState(Prepared);
        return None;
      }
      var marked := world.Succeeds();
      world.Record(MarkCommitAccepted(marked));
      if !marked { return None; }
      state := CommitAccepted;
      return Some(reservation);
    }

    method ExecuteAfterCallerExit() returns (r: Option<TransactionStatus>)
      requires Valid()
      modifies this, world
      ensures Valid() && Extends(world.trace, old(world.trace))
      ensures old(state) != CommitAccepted ==> r == None && world.trace == old(world.trace) && state == old(state)
      ensures old(state) == CommitAccepted ==> world.trace == old(world.trace) + [Execute(r.Some?)]
      ensures old(state) == CommitAccepted ==> state == if r.Some? then Completed else RecoveryRequired
      ensures r.Some? ==> r.value == TransactionStatus(1, reservation.transactionId, "completed", "completed", reservation.journalSha256)
      ensures reservation == old(reservation)
    {
      hide EncodeReservation, OnceEach, ExecutesMarked, Marked, Durables, Endings, LastEnding;
      if state != CommitAccepted { return None; }
      state := Executing;
      var executed := world.Succeeds();
      world.Record(Execute(executed));
      if !executed {
        state := RecoveryRequired;
        return None;
      }
      state := Completed;
      return Some(TransactionStatus(1, reservation.transactionId, "completed", "completed", reservation.journalSha256));
    }

    method Cancel(text: string) returns (r: Option<RecoveryResult>)
      requires Valid()
      modifies this, world
      ensures Valid() && Extends(world.trace, old(world.trace))
      ensures reservation == old(reservation)
      ensures r.Some? ==> r.value == RecoveryResult(1, reservation.transactionId, "rolledBack", "oldTarget", reservation.journalSha256)
      ensures
        if old(state) == Prepared && Bound(text, "cancelReservation", old(reservation))
        then world.trace == old(world.trace) + [CancelPrepared(r.Some?)] && state == (if r.Some? then Cancelled else RecoveryRequired)
        else r == None && world.trace == old(world.trace) && state == old(state)
    {
      hide ParseCommand, EncodeReservation, OnceEach, ExecutesMarked, Marked, Durables, Endings, LastEnding;
      if state != Prepared || !Bound(text, "cancelReservation", reservation) { return None; }
      r := CancelPreparedState(Prepared);
    }

    method CancelBeforeCommitOnCallerExit() returns (r: Option<RecoveryResult>)
      requires Valid()
      modifies this, world
      ensures Valid() && reservation == old(reservation)
      ensures old(state) != Prepared ==> r == None && world.trace == old(world.trace) && state == old(state)
      ensures old(state) == Prepared ==>
                && world.trace == old(world.trace) + [CancelPrepared(r.Some?)]
                && state == if r.Some? then Cancelled else RecoveryRequired
    {
      r := CancelPreparedState(Prepared);
    }

    method CancelCommitAwaitingCallerExit() returns (r: Option<RecoveryResult>)
      requires Valid()
      modifies this, world
      ensures Valid() && reservation == old(reservation)
      ensures old(state) != CommitAccepted ==> r == None && world.trace == old(world.trace) && state == old(state)
      ensures old(state) == CommitAccepted ==>
                && world.trace == old(world.trace) + [CancelPrepared(r.Some?)]
                && state == if r.Some? then Cancelled else RecoveryRequired
    {
      r := CancelPreparedState(CommitAccepted);
    }

    method CancelPreparedState(expected: State) returns (r: Option<RecoveryResult>)
      requires Valid() && expected in {Prepared, CommitAccepted}
      modifies this, world
      ensures Valid() && reservation == old(reservation)
      ensures old(state) != expected ==> r == None && world.trace == old(world.trace) && state == old(state)
      ensures old(state) == expected ==>
                && world.trace == old(world.trace) + [CancelPrepared(r.Some?)]
                && state == if r.Some? then Cancelled else RecoveryRequired
      ensures r.Some? ==> r.value == RecoveryResult(1, reservation.transactionId, "rolledBack", "oldTarget", reservation.journalSha256)
    {
      hide EncodeReservation, OnceEach, ExecutesMarked, Marked, Durables, Endings, LastEnding;
      if state != expected { return None; }
      state := Cancelling;
      var cancelled := world.Succeeds();
      world.Record(CancelPrepared(cancelled));
      if !cancelled {
        state := RecoveryRequired;
        return None;
      }
      state := Cancelled;
      return Some(RecoveryResult(1, reservation.transactionId, "rolledBack", "oldTarget", reservation.journalSha256));
    }

    /** The destructor: whatever happened before, the transaction is settled now. */
    method Dispose()
      requires Valid()
      modifies world
      ensures Settled(world.trace) && ExecutesMarked(world.trace) && Extends(world.trace, old(world.trace))
      ensures state !in {Prepared, CommitAccepted} ==> world.trace == old(world.trace)
    {
      hide EncodeReservation, OnceEach, ExecutesMarked, Marked, Durables, Endings, LastEnding;
      if hasTransaction && (state == Prepared || state == CommitAccepted) {
        var cancelled := world.Succeeds();
        world.Record(CancelPrepared(cancelled));
      }
    }
  }

  datatype Call =
    | DoPrepare(text: string)
    | DoAcceptCommit(text: string)
    | DoExecute
    | DoCancel(text: string)
    | DoCancelBeforeCommit
    | DoCancelCommitAwaiting

  /**
   Any calls in any order on one session, each failing or not as the world likes, and
   then the destructor: a durable prepare is settled exactly once, by a cancellation or
   by the execution of a transaction that was marked as committed.
   */
  method AnyUse(world: World, lifetime: int64, calls: seq<Call>)
    requires lifetime > 0 && Untouched(world.trace, 0)
    modifies world
    ensures Extends(world.trace, old(world.trace)) && Settled(world.trace) && ExecutesMarked(world.trace)
  {
    hide ParseRequest, ParseCommand, EncodeReservation;
    var s := new Session(world, lifetime);
    for i := 0 to |calls|
      invariant s.Valid() && s.world == world && Extends(world.trace, old(world.trace))
    {
      match calls[i] {
        case DoPrepare(text) => var _ := s.Prepare(text);
        case DoAcceptCommit(text) => var _ := s.AcceptCommit(text);
        case DoExecute => var _ := s.ExecuteAfterCallerExit();
        case DoCancel(text) => var _ := s.Cancel(text);
        case DoCancelBeforeCommit => var _ := s.CancelBeforeCommitOnCallerExit();
        case DoCancelCommitAwaiting => var _ := s.CancelCommitAwaitingCallerExit();
      }
    }
    s.Dispose();
  }
}
