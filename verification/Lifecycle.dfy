/**
 The client lifecycle (native_runtime/cpp/client_lifecycle.cc).  Every method holds
 the mutex throughout, so a concurrent run is a sequence of calls.
 */
module Lifecycle {
  import opened Primitives

  type Counter = n: nat | n <= UINT64_MAX

  /** IncrementNonzero: the counter wraps around and skips zero. */
  function Increment(n: Counter): (r: Counter)
    ensures r != 0
  {
    if n == UINT64_MAX then 1 else n + 1
  }

  datatype Status = Allowed | InstallInProgress | InvalidGeneration | NoStagedUpdate

  datatype CheckLease = CheckLease(status: Status, generation: Counter)

  datatype StageLease = StageLease(status: Status, generation: Counter, attempt: Counter, check: string)

  /** What a publication stores and an install takes away. */
  datatype Stage = Stage(
    path: string, filesystemPath: string, provenance: string, generation: Counter, attempt: Counter)

  const NO_STAGE := Stage("", "", "", 0, 0)

  datatype InstallHandoff = InstallHandoff(status: Status, token: Counter, stage: Stage)

  /** The fields of ClientLifecycleState. */
  datatype State = State(
    check: string,
    stage: Stage,
    selection: Counter,
    checked: Counter,
    attempt: Counter,
    inProgress: bool,
    nextToken: Counter,
    activeToken: Counter,
    confirmed: bool)

  const INITIAL := State("", NO_STAGE, 0, 0, 0, false, 0, 0, false)

  /** LifecycleSnapshot, as far as BeginInstall compares it. */
  datatype Snapshot = Snapshot(stage: Stage, selection: Counter, checked: Counter, attempt: Counter)

  datatype Call =
    | BeginCheck
    | PublishCheck(checkLease: CheckLease, check: string)
    | BeginStage
    | PublishStage(lease: StageLease, path: string, filesystemPath: string, provenance: string)
    | BeginInstall
    | BeginInstallExpecting(expected: Snapshot)
    | RollbackInstall(handoff: InstallHandoff)
    | ConfirmInstall(handoff: InstallHandoff)
    | CompleteInstall(handoff: InstallHandoff)

  predicate AcceptsCheck(s: State, lease: CheckLease)
  {
    lease.status == Allowed && !s.inProgress && lease.generation == s.selection
  }

  predicate AcceptsStage(s: State, lease: StageLease)
  {
    && lease.status == Allowed && !s.inProgress
    && lease.generation == s.selection && lease.generation == s.checked && lease.attempt == s.attempt
  }

  predicate GrantsInstall(s: State)
  {
    && !s.inProgress && s.stage.path != "" && s.stage.generation != 0
    && s.stage.generation == s.selection && s.stage.generation == s.checked && s.stage.attempt == s.attempt
  }

  function SnapshotOf(s: State): Snapshot
  {
    Snapshot(s.stage, s.selection, s.checked, s.attempt)
  }

  predicate HoldsToken(s: State, h: InstallHandoff)
  {
    s.inProgress && h.token != 0 && h.token == s.activeToken
  }

  predicate Restores(s: State, h: InstallHandoff)
  {
    && HoldsToken(s, h) && !s.confirmed
    && h.stage.generation == s.selection && h.stage.generation == s.checked && h.stage.attempt == s.attempt
  }

  function Granted(s: State): State
  {
    var token := Increment(s.nextToken);
    s.(inProgress := true, nextToken := token, activeToken := token, confirmed := false, stage := NO_STAGE)
  }

  /** The state after a call. */
  function Step(s: State, call: Call): State
  {
    match call
    case BeginCheck =>
      s.(selection := Increment(s.selection), check := "", checked := 0,
         attempt := Increment(s.attempt), stage := NO_STAGE)
    case PublishCheck(lease, check) =>
      if AcceptsCheck(s, lease) then s.(check := check, checked := lease.generation) else s
    case BeginStage => s.(attempt := Increment(s.attempt), stage := NO_STAGE)
    case PublishStage(lease, path, filesystemPath, provenance) =>
      if AcceptsStage(s, lease) then
        s.(stage := Stage(path, filesystemPath, provenance, lease.generation, lease.attempt))
      else s
    case BeginInstall => if GrantsInstall(s) then Granted(s) else s
    case BeginInstallExpecting(expected) =>
      if expected == SnapshotOf(s) && GrantsInstall(s) then Granted(s) else s
    case RollbackInstall(h) =>
      if !HoldsToken(s, h) || s.confirmed then s
      else s.(inProgress := false, activeToken := 0, stage := if Restores(s, h) then h.stage else s.stage)
    case ConfirmInstall(h) => if HoldsToken(s, h) && !s.confirmed then s.(confirmed := true) else s
    case CompleteInstall(h) =>
      if HoldsToken(s, h) then s.(inProgress := false, activeToken := 0, confirmed := true) else s
  }

  function Run(s: State, calls: seq<Call>): State
    decreases |calls|
  {
    if calls == [] then s else Run(Step(s, calls[0]), calls[1..])
  }

  //
  // The state machine as a class
  //

  class ClientLifecycleState {
    var check: string
    var stage: Stage
    var selection: Counter
    var checked: Counter
    var attempt: Counter
    var inProgress: bool
    var nextToken: Counter
    var activeToken: Counter
    var confirmed: bool

    ghost function Now(): State
      reads this
    {
      State(check, stage, selection, checked, attempt, inProgress, nextToken, activeToken, confirmed)
    }

    constructor ()
      ensures Now() == INITIAL
    {
      check, stage, selection, checked, attempt := "", NO_STAGE, 0, 0, 0;
      inProgress, nextToken, activeToken, confirmed := false, 0, 0, false;
    }

    method BeginCheck() returns (lease: CheckLease)
      modifies this
      ensures Now() == Step(old(Now()), Call.BeginCheck)
      ensures lease == if inProgress then CheckLease(InstallInProgress, selection) else CheckLeaseOf(Now())
    {
      selection := Increment(selection);
      check := "";
      checked := 0;
      attempt := Increment(attempt);
      stage := NO_STAGE;
      lease := CheckLease(if inProgress then InstallInProgress else Allowed, selection);
    }

    method PublishCheck(lease: CheckLease, result: string) returns (published: bool)
      modifies this
      ensures Now() == Step(old(Now()), Call.PublishCheck(lease, result))
      ensures published == AcceptsCheck(old(Now()), lease)
    {
      if lease.status != Allowed || inProgress || lease.generation != selection { return false; }
      check := result;
      checked := lease.generation;
      published := true;
    }

    method BeginStage() returns (lease: StageLease)
      modifies this
      ensures Now() == Step(old(Now()), Call.BeginStage)
      ensures lease.status == Allowed <==> !inProgress && selection != 0 && checked == selection
      ensures lease.status == Allowed ==> lease == StageLeaseOf(Now()) && AcceptsStage(Now(), lease)
    {
      attempt := Increment(attempt);
      stage := NO_STAGE;
      if inProgress { return StageLease(InstallInProgress, 0, 0, ""); }
      if selection == 0 || checked == 0 || checked != selection { return StageLease(InvalidGeneration, 0, 0, ""); }
      lease := StageLease(Allowed, selection, attempt, check);
    }

    /** PublishStage, and PublishFilesystemStage when `filesystemPath` is given. */
    method PublishStage(lease: StageLease, path: string, filesystemPath: string, provenance: string)
      returns (published: bool)
      modifies this
      ensures Now() == Step(old(Now()), Call.PublishStage(lease, path, filesystemPath, provenance))
      ensures published == AcceptsStage(old(Now()), lease)
    {
      if lease.status != Allowed || inProgress || lease.generation != selection ||
         lease.generation != checked || lease.attempt != attempt {
        return false;
      }
      stage := Stage(path, filesystemPath, provenance, lease.generation, lease.attempt);
      published := true;
    }

    method BeginInstall() returns (h: InstallHandoff)
      modifies this
      ensures Now() == Step(old(Now()), Call.BeginInstall)
      ensures h == HandoffOf(old(Now()))
    {
      if inProgress { return InstallHandoff(InstallInProgress, 0, NO_STAGE); }
      if stage.path == "" || stage.generation == 0 || stage.generation != selection ||
         stage.generation != checked || stage.attempt != attempt {
        return InstallHandoff(NoStagedUpdate, 0, NO_STAGE);
      }
      nextToken := Increment(nextToken);
      inProgress := true;
      activeToken := nextToken;
      confirmed := false;
      h := InstallHandoff(Allowed, activeToken, stage);
      stage := NO_STAGE;
    }

    method BeginInstallExpecting(expected: Snapshot) returns (h: InstallHandoff)
      modifies this
      ensures Now() == Step(old(Now()), Call.BeginInstallExpecting(expected))
      ensures h == if expected == SnapshotOf(old(Now())) then HandoffOf(old(Now()))
                   else InstallHandoff(NoStagedUpdate, 0, NO_STAGE)
    {
      if expected.stage != stage || expected.selection != selection || expected.checked != checked ||
         expected.attempt != attempt {
        return InstallHandoff(NoStagedUpdate, 0, NO_STAGE);
      }
      h := BeginInstall();
    }

    method RollbackInstall(h: InstallHandoff) returns (restored: bool)
      modifies this
      ensures Now() == Step(old(Now()), Call.RollbackInstall(h))
      ensures restored == Restores(old(Now()), h)
    {
      if !inProgress || confirmed || h.token == 0 || h.token != activeToken { return false; }
      restored := h.stage.generation == selection && h.stage.generation == checked && h.stage.attempt == attempt;
      inProgress := false;
      activeToken := 0;
      if restored { stage := h.stage; }
    }

    method ConfirmInstall(h: InstallHandoff) returns (ok: bool)
      modifies this
      ensures Now() == Step(old(Now()), Call.ConfirmInstall(h))
      ensures ok == (HoldsToken(old(Now()), h) && !old(confirmed))
    {
      if !inProgress || confirmed || h.token == 0 || h.token != activeToken { return false; }
      confirmed := true;
      ok := true;
    }

    method CompleteInstall(h: InstallHandoff) returns (ok: bool)
      modifies this
      ensures Now() == Step(old(Now()), Call.CompleteInstall(h))
      ensures ok == HoldsToken(old(Now()), h)
    {
      if !inProgress || h.token == 0 || h.token != activeToken { return false; }
      inProgress := false;
      activeToken := 0;
      confirmed := true;
      ok := true;
    }
  }

  /** The handoff that BeginInstall returns in a state. */
  function HandoffOf(s: State): InstallHandoff
  {
    if s.inProgress then InstallHandoff(InstallInProgress, 0, NO_STAGE)
    else if GrantsInstall(s) then InstallHandoff(Allowed, Increment(s.nextToken), s.stage)
    else InstallHandoff(NoStagedUpdate, 0, NO_STAGE)
  }

  /** SchedulingRollbackGuard */
  class SchedulingRollbackGuard {
    const state: ClientLifecycleState
    const handoff: InstallHandoff
    var active: bool

    constructor (state: ClientLifecycleState, handoff: InstallHandoff)
      ensures this.state == state && this.handoff == handoff && active
    {
      this.state := state;
      this.handoff := handoff;
      active := true;
    }

    method Confirm() returns (ok: bool)
      modifies this, state
      ensures ok == (old(active) && HoldsToken(old(state.Now()), handoff) && !old(state.confirmed))
      ensures active == (old(active) && !ok)
      ensures state.Now() == if old(active) then Step(old(state.Now()), ConfirmInstall(handoff)) else old(state.Now())
    {
      if !active { return false; }
      ok := state.ConfirmInstall(handoff);
      if ok { active := false; }
    }

    /** The destructor. */
    method Dispose()
      modifies state
      ensures state.Now() == if active then Step(old(state.Now()), RollbackInstall(handoff)) else old(state.Now())
    {
      if active { var _ := state.RollbackInstall(handoff); }
    }
  }

  //
  // What every run keeps
  //

  /** A held stage belongs to the latest check and the latest stage attempt, an
      install is in progress exactly while a token is active, and then no stage is held. */
  predicate Consistent(s: State)
  {
    && (s.stage != NO_STAGE ==>
          s.stage.generation == s.selection == s.checked && s.stage.attempt == s.attempt)
    && (s.inProgress <==> s.activeToken != 0)
    && (s.inProgress ==> s.stage == NO_STAGE && s.activeToken == s.nextToken)
  }

  lemma {:induction false} RunsAreConsistent(s: State, calls: seq<Call>)
    requires Consistent(s)
    ensures Consistent(Run(s, calls))
    decreases |calls|
  {
    if calls != [] {
      RunsAreConsistent(Step(s, calls[0]), calls[1..]);
    }
  }

  /** A call that presents a token to be rolled back, confirmed or completed. */
  predicate Presents(call: Call, token: Counter)
  {
    (call.RollbackInstall? || call.ConfirmInstall? || call.CompleteInstall?) && call.handoff.token == token
  }

  predicate Ends(call: Call, token: Counter)
  {
    (call.RollbackInstall? || call.CompleteInstall?) && call.handoff.token == token
  }

  /** No second install is granted before the active token is rolled back or completed. */
  lemma {:induction false} InstallIsExclusive(s: State, calls: seq<Call>)
    requires Consistent(s) && s.inProgress
    requires forall i :: 0 <= i < |calls| ==> !Ends(calls[i], s.activeToken)
    ensures var t := Run(s, calls);
            t.inProgress && t.activeToken == s.activeToken && t.nextToken == s.nextToken
    ensures HandoffOf(Run(s, calls)).status == InstallInProgress
    decreases |calls|
  {
    if calls != [] {
      assert !Ends(calls[0], s.activeToken);
      InstallIsExclusive(Step(s, calls[0]), calls[1..]);
    }
  }

  //
  // Counters do not repeat within a period
  //

  /** The counter after `k` increments. */
  function Advance(n: Counter, k: nat): Counter
  {
    if k == 0 then n else Increment(Advance(n, k - 1))
  }

  lemma {:induction false} AdvanceClosedForm(n: Counter, k: nat)
    requires n != 0 && k <= UINT64_MAX
    ensures Advance(n, k) == if n + k <= UINT64_MAX then n + k else n + k - UINT64_MAX
  {
    if k > 0 { AdvanceClosedForm(n, k - 1); }
  }

  lemma CountersDoNotRepeat(n: Counter, k: nat)
    requires n != 0 && 0 < k < UINT64_MAX
    ensures Advance(n, k) != n
  {
    AdvanceClosedForm(n, k);
  }

  predicate Invalidates(call: Call) { call.BeginCheck? || call.BeginStage? }

  function Invalidations(calls: seq<Call>): (k: nat)
    ensures k <= |calls|
    ensures k == 0 <==> forall i :: 0 <= i < |calls| ==> !Invalidates(calls[i])
  {
    if calls == [] then 0
    else
      assert forall i :: 0 < i < |calls| ==> calls[i] == calls[1..][i - 1];
      (if Invalidates(calls[0]) then 1 else 0) + Invalidations(calls[1..])
  }

  lemma {:induction false} AdvanceTwice(n: Counter, a: nat, b: nat)
    ensures Advance(Advance(n, a), b) == Advance(n, a + b)
  {
    if b > 0 { AdvanceTwice(n, a, b - 1); }
  }

  lemma {:induction false} AttemptsCount(s: State, calls: seq<Call>)
    ensures Run(s, calls).attempt == Advance(s.attempt, Invalidations(calls))
    decreases |calls|
  {
    if calls != [] {
      var k := if Invalidates(calls[0]) then 1 else 0;
      AttemptsCount(Step(s, calls[0]), calls[1..]);
      assert Step(s, calls[0]).attempt == Advance(s.attempt, k);
      AdvanceTwice(s.attempt, k, Invalidations(calls[1..]));
    }
  }

  //
  // Stale leases
  //

  function Checks(calls: seq<Call>): (k: nat)
    ensures k <= |calls|
    ensures k == 0 <==> forall i :: 0 <= i < |calls| ==> !calls[i].BeginCheck?
  {
    if calls == [] then 0
    else
      var rest := Checks(calls[1..]);
      assert forall i :: 0 < i < |calls| ==> calls[i] == calls[1..][i - 1];
      if calls[0].BeginCheck? then rest + 1 else rest
  }

  lemma {:induction false} SelectionsCount(s: State, calls: seq<Call>)
    ensures Run(s, calls).selection == Advance(s.selection, Checks(calls))
    decreases |calls|
  {
    if calls != [] {
      var k := if calls[0].BeginCheck? then 1 else 0;
      SelectionsCount(Step(s, calls[0]), calls[1..]);
      assert Step(s, calls[0]).selection == Advance(s.selection, k);
      AdvanceTwice(s.selection, k, Checks(calls[1..]));
    }
  }

  /** The lease that BeginCheck has just handed out. */
  function CheckLeaseOf(t: State): CheckLease { CheckLease(Allowed, t.selection) }

  /** The lease that BeginStage has just handed out. */
  function StageLeaseOf(t: State): StageLease { StageLease(Allowed, t.selection, t.attempt, t.check) }

  /** The result of a check is published exactly if no install is in progress and no other
      check was begun since: a stale lease is never accepted. */
  lemma CheckLeaseExactly(s: State, calls: seq<Call>)
    requires |calls| < UINT64_MAX
    ensures var t := Step(s, BeginCheck);
            AcceptsCheck(Run(t, calls), CheckLeaseOf(t)) <==>
            !Run(t, calls).inProgress && forall i :: 0 <= i < |calls| ==> !calls[i].BeginCheck?
  {
    hide Run, Advance;
    var t := Step(s, BeginCheck);
    SelectionsCount(t, calls);
    if Checks(calls) > 0 {
      CountersDoNotRepeat(t.selection, Checks(calls));
    } else {
      AdvanceNothing(t.selection);
    }
  }

  lemma AdvanceNothing(n: Counter)
    ensures Advance(n, 0) == n
  {
  }

  lemma {:induction false} StillChecked(s: State, calls: seq<Call>)
    requires s.checked == s.selection && Checks(calls) == 0
    ensures Run(s, calls).checked == Run(s, calls).selection == s.selection
    decreases |calls|
  {
    if calls != [] { StillChecked(Step(s, calls[0]), calls[1..]); }
  }

  /** A stage is published exactly if no install is in progress and neither a check nor
      another stage attempt was begun since. */
  lemma StageLeaseExactly(s: State, calls: seq<Call>)
    requires s.checked == s.selection != 0 && |calls| < UINT64_MAX
    ensures var t := Step(s, BeginStage);
            AcceptsStage(Run(t, calls), StageLeaseOf(t)) <==>
            !Run(t, calls).inProgress && forall i :: 0 <= i < |calls| ==> !Invalidates(calls[i])
  {
    hide Run, Advance;
    var t := Step(s, BeginStage);
    AttemptsCount(t, calls);
    if Invalidations(calls) > 0 {
      CountersDoNotRepeat(t.attempt, Invalidations(calls));
    } else {
      AdvanceNothing(t.attempt);
      StillChecked(t, calls);
    }
  }

  /** A lease that was not allowed publishes nothing, whatever happens later. */
  lemma DeniedLeasesPublishNothing(s: State, calls: seq<Call>, call: Call)
    requires (call.PublishCheck? && call.checkLease.status != Allowed) || (call.PublishStage? && call.lease.status != Allowed)
    ensures Step(Run(s, calls), call) == Run(s, calls)
  {
    hide Run;
  }

  /** In every run an install is granted exactly if none is in progress and a stage with a path
      is held, and then that stage is handed out and held no longer. */
  lemma GrantedExactly(s: State)
    requires Consistent(s)
    ensures HandoffOf(s).status == Allowed <==> !s.inProgress && s.stage.path != "" && s.stage.generation != 0
    ensures HandoffOf(s).status == Allowed ==>
              HandoffOf(s).stage == s.stage && Step(s, BeginInstall).stage == NO_STAGE && Step(s, BeginInstall).inProgress
    ensures HandoffOf(s).status != Allowed ==> HandoffOf(s).token == 0 && Step(s, BeginInstall) == s
    ensures HandoffOf(s).status == InstallInProgress <==> s.inProgress
  {
  }

  //
  // Rolling back
  //

  /** While an install runs, nothing but a new check or stage attempt touches what a rollback compares. */
  lemma {:induction false} UndisturbedRun(s: State, calls: seq<Call>)
    requires Consistent(s) && s.inProgress && Invalidations(calls) == 0
    requires forall i :: 0 <= i < |calls| ==> !Presents(calls[i], s.activeToken)
    ensures Run(s, calls) == s
    decreases |calls|
  {
    if calls != [] {
      assert !Presents(calls[0], s.activeToken) && !Invalidates(calls[0]);
      UndisturbedRun(Step(s, calls[0]), calls[1..]);
    }
  }

  lemma {:induction false} StillUnconfirmed(s: State, calls: seq<Call>)
    requires Consistent(s) && s.inProgress
    requires forall i :: 0 <= i < |calls| ==> !Presents(calls[i], s.activeToken)
    ensures var t := Run(s, calls);
            Consistent(t) && t.inProgress && t.activeToken == s.activeToken && t.confirmed == s.confirmed
    decreases |calls|
  {
    if calls != [] {
      assert !Presents(calls[0], s.activeToken);
      StillUnconfirmed(Step(s, calls[0]), calls[1..]);
    }
  }

  /** Between a granted install and the rollback of its token, the very stage that was
      handed out comes back if and only if no check and no stage attempt was begun. */
  lemma RollbackRestoresExactly(s: State, calls: seq<Call>)
    requires Consistent(s) && GrantsInstall(s)
    requires |calls| < UINT64_MAX
    requires forall i :: 0 <= i < |calls| ==> !Presents(calls[i], HandoffOf(s).token)
    ensures var h := HandoffOf(s);
            var after := Step(Run(Granted(s), calls), RollbackInstall(h));
            && (after.stage == s.stage <==> forall i :: 0 <= i < |calls| ==> !Invalidates(calls[i]))
            && (after.stage == s.stage || after.stage == NO_STAGE)
            && !after.inProgress
  {
    hide Run, Advance;
    var g, h := Granted(s), HandoffOf(s);
    StillUnconfirmed(g, calls);
    AttemptsCount(g, calls);
    if Invalidations(calls) == 0 {
      UndisturbedRun(g, calls);
    } else if s.attempt != 0 {
      CountersDoNotRepeat(s.attempt, Invalidations(calls));
    } else {
      AdvanceFromZero(Invalidations(calls));
    }
  }

  lemma AdvanceFromZero(k: nat)
    requires k > 0
    ensures Advance(0, k) != 0
  {
  }

  //
  // Spent tokens
  //

  function Grants(s: State, calls: seq<Call>): nat
    decreases |calls|
  {
    if calls == [] then 0
    else
      var t := Step(s, calls[0]);
      (if t.nextToken != s.nextToken then 1 else 0) + Grants(t, calls[1..])
  }

  lemma {:induction false} GrantsCount(s: State, calls: seq<Call>)
    ensures Grants(s, calls) <= |calls|
    ensures Run(s, calls).nextToken == Advance(s.nextToken, Grants(s, calls))
    decreases |calls|
  {
    if calls != [] {
      var t := Step(s, calls[0]);
      var k := if t.nextToken != s.nextToken then 1 else 0;
      GrantsCount(t, calls[1..]);
      assert t.nextToken == Advance(s.nextToken, k);
      AdvanceTwice(s.nextToken, k, Grants(t, calls[1..]));
    }
  }

  /** Once the install of the latest token is over, that token never acts again. */
  lemma SpentTokensChangeNothing(s: State, calls: seq<Call>, call: Call)
    requires Consistent(s) && !s.inProgress && s.nextToken != 0
    requires |calls| < UINT64_MAX && Presents(call, s.nextToken)
    ensures Step(Run(s, calls), call) == Run(s, calls)
  {
    hide Run, Advance;
    RunsAreConsistent(s, calls);
    GrantsCount(s, calls);
    if Grants(s, calls) > 0 {
      CountersDoNotRepeat(s.nextToken, Grants(s, calls));
    } else {
      NoGrantNoInstall(s, calls);
    }
  }

  lemma {:induction false} NoGrantNoInstall(s: State, calls: seq<Call>)
    requires Consistent(s) && !s.inProgress && Grants(s, calls) == 0
    ensures !Run(s, calls).inProgress
    decreases |calls|
  {
    if calls != [] {
      GrantAdvances(s.nextToken);
      NoGrantNoInstall(Step(s, calls[0]), calls[1..]);
    }
  }

  lemma GrantAdvances(n: Counter)
    ensures Increment(n) != n
  {
  }

  //
  // Confirmed installs
  //

  /** Once the scheduling of an install is confirmed, its token can never be rolled back,
      whatever is called in between. */
  lemma {:induction false} ConfirmedNeverRollsBack(s: State, h: InstallHandoff, calls: seq<Call>, k: InstallHandoff)
    requires Consistent(s) && HoldsToken(s, h) && |calls| < UINT64_MAX && k.token == h.token
    ensures var t := Run(Step(s, ConfirmInstall(h)), calls);
            !Restores(t, k) && Step(t, RollbackInstall(k)) == t
  {
    hide Run;
    var c := Step(s, ConfirmInstall(h));
    ConfirmedStays(c, calls, k);
  }

  lemma {:induction false} ConfirmedStays(c: State, calls: seq<Call>, k: InstallHandoff)
    requires Consistent(c) && c.inProgress && c.confirmed && k.token == c.activeToken && |calls| < UINT64_MAX
    ensures var t := Run(c, calls);
            !Restores(t, k) && Step(t, RollbackInstall(k)) == t
    decreases |calls|
  {
    if calls != [] {
      var next := Step(c, calls[0]);
      if next.inProgress {
        ConfirmedStays(next, calls[1..], k);
      } else {
        SpentTokensChangeNothing(next, calls[1..], RollbackInstall(k));
      }
    }
  }

  //
  // What is handed on
  //

  /** A stage that was published is what an install hands out, as long as neither a check nor a
      stage attempt is begun and nothing else is published or granted. */
  lemma {:induction false} PublishedIsHandedOut(s: State, lease: StageLease, path: string, fs: string, provenance: string, calls: seq<Call>)
    requires AcceptsStage(s, lease) && lease.generation != 0 && path != ""
    requires forall i :: 0 <= i < |calls| ==> Passive(calls[i])
    ensures var t := Run(Step(s, PublishStage(lease, path, fs, provenance)), calls);
            HandoffOf(t) == InstallHandoff(Allowed, Increment(s.nextToken), Stage(path, fs, provenance, lease.generation, lease.attempt))
  {
    PassiveRun(Step(s, PublishStage(lease, path, fs, provenance)), calls);
  }

  /** The calls that leave a state without an install alone. */
  predicate Passive(call: Call)
  {
    call.RollbackInstall? || call.ConfirmInstall? || call.CompleteInstall?
  }

  lemma {:induction false} PassiveRun(s: State, calls: seq<Call>)
    requires !s.inProgress && forall i :: 0 <= i < |calls| ==> Passive(calls[i])
    ensures Run(s, calls) == s
    decreases |calls|
  {
    if calls != [] {
      assert Passive(calls[0]);
      PassiveRun(s, calls[1..]);
    }
  }

  /** A published check is what later stage attempts are given, as long as no other check is
      begun or published. */
  lemma {:induction false} CheckIsHandedOn(s: State, lease: CheckLease, check: string, calls: seq<Call>)
    requires AcceptsCheck(s, lease) && lease.generation != 0
    requires forall i :: 0 <= i < |calls| ==> !calls[i].BeginCheck? && !calls[i].PublishCheck?
    ensures var t := Run(Step(s, PublishCheck(lease, check)), calls);
            t.check == check && t.checked == t.selection == lease.generation
  {
    CheckStays(Step(s, PublishCheck(lease, check)), calls);
  }

  lemma {:induction false} CheckStays(s: State, calls: seq<Call>)
    requires forall i :: 0 <= i < |calls| ==> !calls[i].BeginCheck? && !calls[i].PublishCheck?
    ensures var t := Run(s, calls); t.check == s.check && t.checked == s.checked && t.selection == s.selection
    decreases |calls|
  {
    if calls != [] {
      assert !calls[0].BeginCheck? && !calls[0].PublishCheck?;
      CheckStays(Step(s, calls[0]), calls[1..]);
    }
  }
}
