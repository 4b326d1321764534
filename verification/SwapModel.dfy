/**
 The directory that the Linux file transaction works on, the images that a crash
 can leave of it, and what the reference recovery decision says about them
 (linux_file_transaction.cc, linux_transaction_journal.cc, install_helper_contract.cc).
 */
module SwapModel {
  import opened SortedMap
  import Contract = InstallContract

  /** LinuxFileIdentity: everything operator== compares, and the change time. */
  datatype Identity = Identity(inode: nat, changed: nat)

  /** A tree under one name: its root, what the payload verifier computes for it,
      and whether all its files are still there. */
  datatype Node = Node(id: Identity, payload: nat, whole: bool)

  datatype State = Prepared | BackupCreated | TargetActivated | Completed

  /** The parts of LinuxTransactionJournal that change or are compared. */
  datatype Journal = Journal(state: State, target: Identity, stage: Identity)

  /** The entries of the parent directory that belong to one transaction. */
  datatype Dir = Dir(
    stage: Option<Node>,
    prepared: Option<Node>,
    target: Option<Node>,
    backup: Option<Node>,
    journal: Option<Journal>,
    next: bool,
    lock: bool)

  /** The tree being replaced, and the payload that replaces it. */
  datatype Plan = Plan(oldRoot: nat, payload: nat)

  predicate OldAt(p: Plan, n: Option<Node>)
  {
    n.Some? && n.value.id.inode == p.oldRoot && n.value.whole
  }

  /** The payload verifier reads the whole tree and finds the expected payload. */
  predicate Verified(p: Plan, n: Option<Node>)
  {
    n.Some? && n.value.payload == p.payload && n.value.whole
  }

  predicate NewAt(p: Plan, n: Option<Node>)
  {
    Verified(p, n) && n.value.id.inode != p.oldRoot
  }

  /** HasExactLinuxIdentity */
  predicate Exact(n: Option<Node>, id: Identity)
  {
    n.Some? && n.value.id == id
  }

  predicate NotOld(p: Plan, n: Option<Node>)
  {
    n.Some? ==> n.value.id.inode != p.oldRoot
  }

  /** The old tree is complete under the target or the backup name. */
  predicate OldIntact(p: Plan, d: Dir)
  {
    OldAt(p, d.target) || OldAt(p, d.backup)
  }

  /** An invariant of every image that a crash of the swap or of its recovery leaves. */
  predicate Image(p: Plan, d: Dir)
  {
    && NotOld(p, d.stage) && NotOld(p, d.prepared)
    && match d.journal
       case None => d.backup.None? && (OldAt(p, d.target) || NewAt(p, d.target))
       case Some(j) =>
         match j.state
         case Prepared =>
           && j.target.inode == p.oldRoot
           && if d.backup.None? then OldAt(p, d.target)
              else OldAt(p, d.backup) && (d.target.None? || NewAt(p, d.target))
         case BackupCreated =>
           && OldAt(p, d.backup) && d.backup.value.id == j.target
           && (d.target.None? || NewAt(p, d.target))
         case TargetActivated =>
           NewAt(p, d.target) && j.target.inode == p.oldRoot && Exact(d.backup, j.target)
         case Completed =>
           && NewAt(p, d.target) && j.target.inode == p.oldRoot
           && (d.backup.Some? ==> d.backup.value.id.inode == p.oldRoot)
  }

  /** A record that says targetActivated although the old tree is gone: recovery has taken
      back a completed record over a backup that was being removed. */
  predicate Rewound(p: Plan, d: Dir)
  {
    Records(d, TargetActivated) && !OldIntact(p, d)
  }

  predicate Records(d: Dir, s: State)
  {
    d.journal.Some? && d.journal.value.state == s
  }

  predicate ReadyTree(p: Plan, n: Option<Node>, id: Identity)
  {
    Exact(n, id) && Verified(p, n)
  }

  /** The new tree, perhaps with another change time than the journal says. */
  predicate MovedTree(p: Plan, n: Option<Node>, id: Identity)
  {
    Verified(p, n) && n.value.id.inode == id.inode
  }

  /** What moreover holds of every image that is left when nothing fails before the crash and
      nobody interferes: each tree is under the one name where its renames have put it. */
  predicate Orderly(p: Plan, d: Dir)
  {
    match d.journal
    case None => d.prepared.None?
    case Some(j) =>
      if d.stage.Some? then
        j.state == Prepared && ReadyTree(p, d.stage, j.stage) && d.prepared.None? && d.backup.None? && Exact(d.target, j.target)
      else if d.prepared.Some? then
        && MovedTree(p, d.prepared, j.stage)
        && (j.state == Prepared || j.state == BackupCreated)
        && if d.backup.None? then Exact(d.target, j.target) else d.target.None?
      else
        MovedTree(p, d.target, j.stage) && (j.state != Completed ==> d.backup.Some?)
  }

  lemma ControlNamesDoNotMatter(p: Plan, d: Dir, next: bool, lock: bool)
    ensures Image(p, d.(next := next, lock := lock)) <==> Image(p, d)
    ensures OldIntact(p, d.(next := next, lock := lock)) <==> OldIntact(p, d)
    ensures Orderly(p, d.(next := next, lock := lock)) <==> Orderly(p, d)
    ensures Rewound(p, d.(next := next, lock := lock)) <==> Rewound(p, d)
  {
  }

  function TouchRoot(d: Dir, changed: nat): Dir
  {
    if d.target.None? then d
    else d.(target := Some(d.target.value.(id := d.target.value.id.(changed := changed))))
  }

  lemma TargetTimeDoesNotMatter(p: Plan, d: Dir, changed: nat)
    ensures Image(p, TouchRoot(d, changed)) <==> Image(p, d)
    ensures OldIntact(p, TouchRoot(d, changed)) <==> OldIntact(p, d)
    ensures Rewound(p, TouchRoot(d, changed)) <==> Rewound(p, d)
    ensures d.prepared.None? && d.stage.None? ==> (Orderly(p, TouchRoot(d, changed)) <==> Orderly(p, d))
  {
  }

  /** What an image means to the user: the target name is never empty unless the
      backup holds the complete old tree, and no journal state runs ahead of the
      rename that it records. */
  ghost predicate CrashSafe(p: Plan, d: Dir)
  {
    && (d.target.None? ==> OldAt(p, d.backup))
    && (d.target.Some? ==> OldAt(p, d.target) || NewAt(p, d.target))
    && (d.journal.Some? && d.journal.value.state == BackupCreated ==> OldAt(p, d.backup))
    && (d.journal.Some? && d.journal.value.state in {TargetActivated, Completed} ==> NewAt(p, d.target))
    && (!OldIntact(p, d) ==> d.journal.None? || d.journal.value.state == Completed)
  }

  lemma ImagesAreCrashSafe(p: Plan, d: Dir)
    requires Image(p, d)
    ensures CrashSafe(p, d) <==> !Rewound(p, d)
  {
  }

  //
  // The reference decision on crash images
  //

  function ContractState(s: State): Contract.JournalState
  {
    match s
    case Prepared => Contract.Prepared
    case BackupCreated => Contract.BackupCreated
    case TargetActivated => Contract.TargetActivated
    case Completed => Contract.Completed
  }

  /** What an honest observer reports about a name. */
  function Observe(p: Plan, n: Option<Node>): Contract.IdentityObservation
  {
    if n.None? then Contract.Missing
    else if OldAt(p, n) then Contract.VerifiedOld
    else if NewAt(p, n) then Contract.VerifiedNew
    else Contract.Unknown
  }

  /** DecideRecovery as an honest observer of the image would ask it, the owner being dead. */
  function Decide(p: Plan, d: Dir): Contract.RecoveryDecision
    requires d.journal.Some?
  {
    Contract.DecideRecovery(
      Contract.JournalV1(1, Contract.Swap, ContractState(d.journal.value.state), 0, true),
      Contract.ObservedState(true, true, false, 0, true, !d.next,
                             Observe(p, d.target), Observe(p, d.prepared), Observe(p, d.backup),
                             Contract.NotApplicable))
  }

  /** The directory after an action; the journal is left as it is. */
  function Act(d: Dir, action: Contract.RecoveryAction): Dir
  {
    match action
    case DiscardPrepared => d.(prepared := None)
    case RestoreBackup => d.(target := d.backup, backup := None)
    case AcceptActivated => d.(backup := None)
    case _ => d
  }

  /** The moments between a rename and the journal record of it.  The swap itself
      leaves two of them, and with a prepared journal it leaves the target missing. */
  predicate RenamedNotJournaled(p: Plan, d: Dir)
  {
    d.journal.Some? &&
    match d.journal.value.state
    case Prepared => d.backup.Some?
    case BackupCreated => NewAt(p, d.target)
    case _ => false
  }

  /** Someone put a tree of their own under the prepared name before the backup was made. */
  predicate PreparedDisturbed(p: Plan, d: Dir)
  {
    d.journal.Some? && d.journal.value.state == Prepared && d.prepared.Some? && !NewAt(p, d.prepared)
  }

  /** The decision is manual exactly in the two windows, when a half-written journal
      is lying about, when the prepared tree is not the verified one, or when recovery
      has rewound a completed record. */
  lemma ManualExactlyInTheWindows(p: Plan, d: Dir)
    requires Image(p, d) && d.journal.Some?
    ensures Decide(p, d).outcome == Contract.ManualAction
       <==> RenamedNotJournaled(p, d) || PreparedDisturbed(p, d) || Rewound(p, d) || d.next
  {
  }

  ghost predicate Delivers(p: Plan, d: Dir, outcome: Contract.RecoveryOutcome)
  {
    match outcome
    case VerifiedOldTarget => OldAt(p, d.target)
    case VerifiedNewTarget => NewAt(p, d.target)
    case ManualAction => true
  }

  /** The action makes the announced outcome true, and deciding again on the same
      journal announces it again with nothing left to change. */
  lemma ActionDelivers(p: Plan, d: Dir)
    requires Image(p, d) && d.journal.Some?
    ensures var first := Decide(p, d);
            var after := Act(d, first.action);
            && Delivers(p, after, first.outcome)
            && Decide(p, after).outcome == first.outcome
            && Act(after, Decide(p, after).action) == after
  {
  }

  /** The directory in the middle of an action that removes a tree. */
  function Midway(d: Dir, action: Contract.RecoveryAction): Option<Dir>
  {
    match action
    case DiscardPrepared => if d.prepared.Some? then Some(d.(prepared := Some(d.prepared.value.(whole := false)))) else None
    case AcceptActivated => if d.backup.Some? then Some(d.(backup := Some(d.backup.value.(whole := false)))) else None
    case _ => None
  }

  /** A crash in the middle of a removal does not touch the target, but the next decision
      no longer recognises the half-removed tree and asks for manual action. */
  lemma InterruptedRemovalIsManual(p: Plan, d: Dir)
    requires Image(p, d) && d.journal.Some? && Midway(d, Decide(p, d).action).Some?
    ensures var m := Midway(d, Decide(p, d).action).value;
            Delivers(p, m, Decide(p, d).outcome) && Decide(p, m).outcome == Contract.ManualAction
  {
  }

  /** How far one round of deciding and acting came before it crashed. */
  datatype Round = Finished | NotBegun | CutInside

  /** The directory after one round.  A rename cannot be cut inside. */
  function AfterRound(p: Plan, d: Dir, round: Round): (r: Dir)
    requires d.journal.Some?
    ensures r.journal == d.journal
  {
    var action := Decide(p, d).action;
    match round
    case Finished => Act(d, action)
    case NotBegun => d
    case CutInside => if Midway(d, action).Some? then Midway(d, action).value else d
  }

  function Rounds(p: Plan, d: Dir, rounds: seq<Round>): (r: Dir)
    requires d.journal.Some?
    ensures r.journal == d.journal
    decreases |rounds|
  {
    if rounds == [] then d else Rounds(p, AfterRound(p, d, rounds[0]), rounds[1..])
  }

  /** The first round that was begun was cut inside. */
  predicate CutFirst(rounds: seq<Round>)
  {
    rounds != [] && (rounds[0] == CutInside || (rounds[0] == NotBegun && CutFirst(rounds[1..])))
  }

  /** Nothing that a further round could do changes the directory. */
  ghost predicate AtRest(p: Plan, d: Dir)
    requires d.journal.Some?
  {
    Act(d, Decide(p, d).action) == d && Midway(d, Decide(p, d).action).None?
  }

  lemma {:induction false} RestStays(p: Plan, d: Dir, rounds: seq<Round>)
    requires d.journal.Some? && AtRest(p, d)
    ensures Rounds(p, d, rounds) == d
    decreases |rounds|
  {
    hide Decide, Act, Midway;
    if rounds != [] { RestStays(p, d, rounds[1..]); }
  }

  lemma FinishedRests(p: Plan, d: Dir)
    requires Image(p, d) && d.journal.Some?
    ensures AtRest(p, Act(d, Decide(p, d).action))
  {
  }

  lemma ManualRests(p: Plan, d: Dir)
    requires d.journal.Some? && Decide(p, d).outcome == Contract.ManualAction
    ensures AtRest(p, d)
  {
  }

  /**
   Crashing and deciding again, any number of times: the outcome stays what it was first
   announced to be exactly unless the first round that was begun was cut inside a removal;
   and once a round was finished, or cut inside a removal, the target is what was announced.
   */
  lemma {:induction false} RepeatedRecovery(p: Plan, d: Dir, rounds: seq<Round>)
    requires Image(p, d) && d.journal.Some?
    ensures var first, after := Decide(p, d), Rounds(p, d, rounds);
            && (Decide(p, after).outcome == first.outcome <==> !(CutFirst(rounds) && Midway(d, first.action).Some?))
            && (Finished in rounds || (CutFirst(rounds) && Midway(d, first.action).Some?) ==>
                  Delivers(p, after, first.outcome))
    decreases |rounds|
  {
    hide Image, Decide, Act, Delivers, Midway, AtRest;
    if rounds != [] {
      var next, rest := AfterRound(p, d, rounds[0]), rounds[1..];
      assert rounds == [rounds[0]] + rest;
      if rounds[0] == Finished {
        ActionDelivers(p, d);
        FinishedRests(p, d);
        RestStays(p, next, rest);
      } else if rounds[0] == CutInside && Midway(d, Decide(p, d).action).Some? {
        InterruptedRemovalIsManual(p, d);
        RemovalIsNotManual(p, d);
        ManualRests(p, next);
        RestStays(p, next, rest);
      } else {
        RepeatedRecovery(p, d, rest);
      }
    }
  }

  lemma RemovalIsNotManual(p: Plan, d: Dir)
    requires d.journal.Some? && Midway(d, Decide(p, d).action).Some?
    ensures Decide(p, d).outcome != Contract.ManualAction
  {
  }
}
