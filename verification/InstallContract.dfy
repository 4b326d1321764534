/**
 The reference recovery decision of native_runtime/cpp/install_helper_contract.cc.
 */
module InstallContract {

  datatype JournalMachine = Swap | Manager

  datatype JournalState =
    | Prepared
    | BackupCreated
    | TargetActivated
    | ManagerStarted
    | VerificationPending
    | Completed
    | RolledBack
    | ManualActionRequired

  datatype IdentityObservation = Missing | VerifiedOld | VerifiedNew | Unknown

  datatype ManagerObservation = NotApplicable | ManagerOld | ManagerNew | ManagerPending | ManagerUnknown

  datatype RecoveryOutcome = VerifiedOldTarget | VerifiedNewTarget | ManualAction

  datatype RecoveryAction = NoAction | DiscardPrepared | RestoreBackup | AcceptActivated | AcceptManagerState

  datatype JournalV1 = JournalV1(
    schemaVersion: int,
    machine: JournalMachine,
    state: JournalState,
    ownerGeneration: int,
    envelopeValid: bool)

  datatype ObservedState = ObservedState(
    journalDurable: bool,
    directoryFlushSucceeded: bool,
    ownerLive: bool,
    observedOwnerGeneration: int,
    siblingNamesMatch: bool,
    observationsUnambiguous: bool,
    target: IdentityObservation,
    prepared: IdentityObservation,
    backup: IdentityObservation,
    manager: ManagerObservation)

  datatype RecoveryDecision = RecoveryDecision(
    outcome: RecoveryOutcome,
    action: RecoveryAction,
    cleanupAuthorized: bool,
    reason: string)

  function Manual(reason: string): RecoveryDecision
  {
    RecoveryDecision(ManualAction, NoAction, false, reason)
  }

  function KeepOld(action: RecoveryAction, reason: string): RecoveryDecision
  {
    RecoveryDecision(VerifiedOldTarget, action, true, reason)
  }

  function KeepNew(action: RecoveryAction, reason: string): RecoveryDecision
  {
    RecoveryDecision(VerifiedNewTarget, action, true, reason)
  }

  function DecideSwapRecovery(journal: JournalV1, o: ObservedState): RecoveryDecision
  {
    match journal.state
    case Prepared =>
      if o.target == VerifiedOld && o.backup == Missing && (o.prepared == VerifiedNew || o.prepared == Missing) then
        KeepOld(if o.prepared == VerifiedNew then DiscardPrepared else NoAction, "preparedTargetAuthoritative")
      else Manual("preparedStateUnverified")
    case BackupCreated =>
      if o.target == Missing && o.backup == VerifiedOld then
        KeepOld(RestoreBackup, "backupReadyToRestore")
      else if o.target == VerifiedOld && (o.backup == Missing || o.backup == VerifiedOld) then
        KeepOld(NoAction, "backupAlreadyRestored")
      else Manual("backupStateUnverified")
    case TargetActivated =>
      if o.target == VerifiedNew && (o.backup == VerifiedOld || o.backup == Missing) then
        KeepNew(AcceptActivated, "activatedTargetVerified")
      else if (o.target == Missing || o.target == Unknown) && o.backup == VerifiedOld then
        KeepOld(RestoreBackup, "activatedTargetRejected")
      else if o.target == VerifiedOld then
        KeepOld(NoAction, "activatedTargetAlreadyRolledBack")
      else Manual("activatedStateUnverified")
    case Completed =>
      if o.target == VerifiedNew then KeepNew(NoAction, "completedTargetVerified")
      else Manual("completedTargetUnverified")
    case RolledBack =>
      if o.target == VerifiedOld then KeepOld(NoAction, "rollbackVerified")
      else Manual("rollbackUnverified")
    case ManualActionRequired => Manual("journalRequiresManualAction")
    case ManagerStarted => Manual("strategyStateMismatch")
    case VerificationPending => Manual("strategyStateMismatch")
  }

  function DecideManagerRecovery(journal: JournalV1, o: ObservedState): RecoveryDecision
  {
    match journal.state
    case Prepared =>
      if o.manager == ManagerOld then KeepOld(NoAction, "managerOldStateVerified")
      else Manual("managerPreparedStateUnverified")
    case Completed =>
      if o.manager == ManagerNew then KeepNew(NoAction, "completedManagerStateVerified")
      else Manual("completedManagerStateUnverified")
    case ManualActionRequired => Manual("journalRequiresManualAction")
    case BackupCreated => Manual("strategyStateMismatch")
    case TargetActivated => Manual("strategyStateMismatch")
    case RolledBack => Manual("strategyStateMismatch")
    case _ =>
      if o.manager == ManagerNew then KeepNew(AcceptManagerState, "managerNewStateVerified")
      else if o.manager == ManagerOld then KeepOld(AcceptManagerState, "managerOldStateVerified")
      else if o.manager == ManagerPending then Manual("managerVerificationPending")
      else Manual("managerStateUnknown")
  }

  function DecideRecovery(journal: JournalV1, o: ObservedState): RecoveryDecision
  {
    if !journal.envelopeValid then Manual("journalCorrupt")
    else if journal.schemaVersion != 1 then Manual("unsupportedJournalVersion")
    else if !o.journalDurable then Manual("journalNotDurable")
    else if !o.directoryFlushSucceeded then Manual("journalDirectoryFlushFailed")
    else if o.ownerLive then Manual("transactionBusy")
    else if o.observedOwnerGeneration != journal.ownerGeneration then Manual("ownerGenerationMismatch")
    else if !o.siblingNamesMatch then Manual("siblingNameMismatch")
    else if !o.observationsUnambiguous then Manual("ambiguousObservedState")
    else if journal.machine == Swap then DecideSwapRecovery(journal, o)
    else DecideManagerRecovery(journal, o)
  }

  predicate TransitionAllowed(from: JournalState, to: JournalState)
  {
    match from
    case Prepared => to in {BackupCreated, ManagerStarted, RolledBack, ManualActionRequired}
    case BackupCreated => to in {TargetActivated, RolledBack, ManualActionRequired}
    case TargetActivated => to in {Completed, RolledBack, ManualActionRequired}
    case ManagerStarted => to in {VerificationPending, ManualActionRequired}
    case VerificationPending => to in {Completed, ManualActionRequired}
    case _ => false
  }

  /** The conditions under which a decision may be made at all. */
  predicate Trustworthy(journal: JournalV1, o: ObservedState)
  {
    && journal.envelopeValid && journal.schemaVersion == 1 && o.journalDurable && o.directoryFlushSucceeded
    && !o.ownerLive && o.observedOwnerGeneration == journal.ownerGeneration
    && o.siblingNamesMatch && o.observationsUnambiguous
  }

  /** What has to hold before a decision is made, in the order in which it is asked, and what is
      reported if it does not. */
  function Conditions(journal: JournalV1, o: ObservedState): seq<(bool, string)>
  {
    [(journal.envelopeValid, "journalCorrupt"), (journal.schemaVersion == 1, "unsupportedJournalVersion"),
     (o.journalDurable, "journalNotDurable"), (o.directoryFlushSucceeded, "journalDirectoryFlushFailed"),
     (!o.ownerLive, "transactionBusy"), (o.observedOwnerGeneration == journal.ownerGeneration, "ownerGenerationMismatch"),
     (o.siblingNamesMatch, "siblingNameMismatch"), (o.observationsUnambiguous, "ambiguousObservedState")]
  }

  /** The first condition that does not hold is reported, and evidence is trustworthy if all hold. */
  lemma FirstFailureIsReported(journal: JournalV1, o: ObservedState, k: nat)
    requires k < |Conditions(journal, o)|
    requires !Conditions(journal, o)[k].0 && forall i :: 0 <= i < k ==> Conditions(journal, o)[i].0
    ensures DecideRecovery(journal, o) == Manual(Conditions(journal, o)[k].1)
    ensures !Trustworthy(journal, o)
  {
    hide DecideSwapRecovery, DecideManagerRecovery;
    var c := Conditions(journal, o);
    assert forall i :: 0 <= i < k ==> c[i].0;
    assert k > 0 ==> c[0].0;
    assert k > 1 ==> c[1].0;
    assert k > 2 ==> c[2].0;
    assert k > 3 ==> c[3].0;
    assert k > 4 ==> c[4].0;
    assert k > 5 ==> c[5].0;
    assert k > 6 ==> c[6].0;
  }

  /** What is observed after the action. */
  function TargetAfter(journal: JournalV1, o: ObservedState, action: RecoveryAction): IdentityObservation
  {
    match journal.machine
    case Manager =>
      if o.manager == ManagerOld then VerifiedOld else if o.manager == ManagerNew then VerifiedNew else Unknown
    case Swap => if action == RestoreBackup then o.backup else o.target
  }

  /** The outcome is what will be observed at the target, the action belongs to the kind of
      transaction, and nothing is cleaned up on the way to manual action. */
  predicate Backed(journal: JournalV1, o: ObservedState, d: RecoveryDecision)
  {
    && (d.outcome == VerifiedOldTarget ==> TargetAfter(journal, o, d.action) == VerifiedOld)
    && (d.outcome == VerifiedNewTarget ==> TargetAfter(journal, o, d.action) == VerifiedNew)
    && (d.cleanupAuthorized <==> d.outcome != ManualAction)
    && (d.outcome == ManualAction ==> d.action == NoAction)
    && (d.action in {DiscardPrepared, RestoreBackup, AcceptActivated} ==> journal.machine == Swap)
    && (d.action == AcceptManagerState ==> journal.machine == Manager)
  }

  lemma SwapBacked(journal: JournalV1, o: ObservedState)
    requires journal.machine == Swap
    ensures Backed(journal, o, DecideSwapRecovery(journal, o))
  {
  }

  lemma ManagerBacked(journal: JournalV1, o: ObservedState)
    requires journal.machine == Manager
    ensures Backed(journal, o, DecideManagerRecovery(journal, o))
  {
  }

  /** No decision is made without trustworthy evidence, and every decision is backed. */
  lemma DecisionsAreBacked(journal: JournalV1, o: ObservedState)
    ensures Backed(journal, o, DecideRecovery(journal, o))
    ensures DecideRecovery(journal, o).outcome != ManualAction ==> Trustworthy(journal, o)
  {
    hide DecideSwapRecovery, DecideManagerRecovery;
    if journal.machine == Swap {
      SwapBacked(journal, o);
    } else {
      ManagerBacked(journal, o);
    }
  }

  /** A manager transaction is decided exactly by what the manager says, once its journal
      belongs to a manager; a prepared one is never new, a completed one never old. */
  lemma ManagerDecidedExactly(journal: JournalV1, o: ObservedState)
    requires journal.machine == Manager && Trustworthy(journal, o)
    ensures var outcome := DecideRecovery(journal, o).outcome;
            && (outcome == VerifiedOldTarget <==>
                o.manager == ManagerOld && journal.state in {Prepared, ManagerStarted, VerificationPending})
            && (outcome == VerifiedNewTarget <==>
                o.manager == ManagerNew && journal.state in {Completed, ManagerStarted, VerificationPending})
            && (DecideRecovery(journal, o).action == AcceptManagerState <==>
                o.manager in {ManagerOld, ManagerNew} && journal.state in {ManagerStarted, VerificationPending})
            && (DecideRecovery(journal, o).reason == "managerVerificationPending" <==>
                o.manager == ManagerPending && journal.state in {ManagerStarted, VerificationPending})
  {
  }

  /** The swap keeps the old tree exactly if it is at the target, or can be put back there,
      and the journal allows it to be. */
  predicate OldIsSafe(state: JournalState, o: ObservedState)
  {
    match state
    case Prepared => o.target == VerifiedOld && o.backup == Missing && o.prepared in {VerifiedNew, Missing}
    case BackupCreated =>
      o.backup in {VerifiedOld, Missing} && (o.target == VerifiedOld || (o.target == Missing && o.backup != Missing))
    case TargetActivated => o.target == VerifiedOld || (o.target != VerifiedNew && o.backup == VerifiedOld)
    case RolledBack => o.target == VerifiedOld
    case _ => false
  }

  /** And the new tree exactly if it is at the target, activated, and nothing unknown is beside it
      until completion. */
  predicate NewIsSafe(state: JournalState, o: ObservedState)
  {
    o.target == VerifiedNew && (state == Completed || (state == TargetActivated && o.backup in {VerifiedOld, Missing}))
  }

  /** A swap is decided exactly by the journal and by what is under the three names; the action
      is the one that is left to do. */
  lemma SwapDecidedExactly(journal: JournalV1, o: ObservedState)
    requires journal.machine == Swap && Trustworthy(journal, o)
    ensures var d := DecideRecovery(journal, o);
            && (d.outcome == VerifiedOldTarget <==> OldIsSafe(journal.state, o))
            && (d.outcome == VerifiedNewTarget <==> NewIsSafe(journal.state, o))
            && (d.action == RestoreBackup <==> OldIsSafe(journal.state, o) && o.target != VerifiedOld)
            && (d.action == DiscardPrepared <==> OldIsSafe(journal.state, o) && journal.state == Prepared && o.prepared == VerifiedNew)
            && (d.action == AcceptActivated <==> NewIsSafe(journal.state, o) && journal.state == TargetActivated)
            && d.action != AcceptManagerState
  {
  }

  function Progress(s: JournalState): nat
  {
    match s
    case Prepared => 0
    case BackupCreated => 1
    case TargetActivated => 2
    case ManagerStarted => 1
    case VerificationPending => 2
    case _ => 3
  }

  predicate IsFinal(s: JournalState) { s in {Completed, RolledBack, ManualActionRequired} }

  predicate InSwap(s: JournalState) { s in {Prepared, BackupCreated, TargetActivated, Completed} }

  predicate InManager(s: JournalState) { s in {Prepared, ManagerStarted, VerificationPending, Completed} }

  /** From a state that is not final one can give up to manual action, roll back as long as
      no manager has been started, or go exactly one step further on the same track. */
  lemma TransitionsExactly(from: JournalState, to: JournalState)
    ensures TransitionAllowed(from, to) <==>
            !IsFinal(from) &&
            (|| to == ManualActionRequired
             || (to == RolledBack && InSwap(from))
             || (Progress(to) == Progress(from) + 1 && ((InSwap(from) && InSwap(to)) || (InManager(from) && InManager(to)))))
  {
  }
}
