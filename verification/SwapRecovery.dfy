/**
 Recovery of an interrupted swap (linux_recovery_service.cc).  Unlike the reference
 decision of InstallContract it moves forward: it finishes the swap.
 */
module SwapRecovery {
  import opened SortedMap
  import opened SwapModel
  import opened SwapRun
  import opened SwapTransaction
  import Contract = InstallContract

  datatype Outcome = NothingToRecover | LiveOwner | Recovered | ManualActionRequired

  predicate CompatibleObservation(d: Dir)
    requires d.journal.Some?
  {
    match d.journal.value.state
    case Prepared =>
      || (d.target.Some? && d.stage.Some? && d.prepared.None? && d.backup.None?)
      || (d.target.Some? && d.stage.None? && d.prepared.Some? && d.backup.None?)
      || (d.target.None? && d.stage.None? && d.prepared.Some? && d.backup.Some?)
    case BackupCreated =>
      || (d.target.None? && d.stage.None? && d.prepared.Some? && d.backup.Some?)
      || (d.target.Some? && d.stage.None? && d.prepared.None? && d.backup.Some?)
    case TargetActivated =>
      d.target.Some? && d.stage.None? && d.prepared.None? && d.backup.Some?
    case Completed =>
      d.target.Some? && d.stage.None? && d.prepared.None?
  }

  /** The checks of lines 195 to 212 on the names that exist. */
  predicate Plausible(d: Dir)
    requires d.journal.Some?
  {
    var j := d.journal.value;
    && CompatibleObservation(d)
    && (d.target.Some? ==> d.target.value.id.inode in {j.target.inode, j.stage.inode})
    && (d.backup.Some? ==> Exact(d.backup, j.target))
  }

  /** The target holds the tree that the journal calls the new one. */
  predicate Activated(p: Plan, d: Dir)
  {
    d.journal.Some? && d.target.Some? && d.target.value.id.inode == d.journal.value.stage.inode && Verified(p, d.target)
  }

  /** The images that recovery without further faults completes: every name holds
      the tree whose identity the journal records. */
  predicate Recoverable(p: Plan, d: Dir)
  {
    !d.next && d.lock && d.journal.Some? && Plausible(d) &&
    var j := d.journal.value;
    if d.stage.Some? then Exact(d.target, j.target) && ReadyTree(p, d.stage, j.stage)
    else if d.prepared.Some? then
      ReadyTree(p, d.prepared, j.stage) && (d.backup.None? ==> Exact(d.target, j.target))
    else Activated(p, d)
  }

  /** The images from which recovery ends with nothing under the target name. */
  predicate Stranded(p: Plan, d: Dir)
  {
    if d.target.None? then !Recoverable(p, d)
    else
      && !d.next && d.lock && d.journal.Some? && Plausible(d)
      && d.stage.None? && d.prepared.Some?
      && Exact(d.target, d.journal.value.target)
      && !ReadyTree(p, d.prepared, d.journal.value.stage)
  }

  /** The images of which recovery makes nothing, however often it is tried. */
  predicate Stuck(p: Plan, d: Dir)
  {
    || d.next
    || if d.journal.None? then d.lock && (d.prepared.Some? || d.backup.Some?)
       else
         var j := d.journal.value;
         || !d.lock || !Plausible(d)
         || if d.stage.Some? then !ReadyTree(p, d.stage, j.stage)
            else if d.prepared.None? then !Activated(p, d)
            else if d.backup.None? then !Exact(d.target, j.target)
            else !ReadyTree(p, d.prepared, j.stage)
  }

  /** Recovery was cut off while it, or the swap, was removing the backup, and what it had
      removed so far did not show in the identity of the root. */
  predicate HalfRemoved(d: Dir)
  {
    Records(d, Completed) && Exact(d.backup, d.journal.value.target) && !d.backup.value.whole
  }

  /** Nothing but the change time of the target's root differs. */
  predicate Alike(d: Dir, e: Dir)
  {
    e == d || (e.target.Some? && e == TouchRoot(d, e.target.value.id.changed))
  }

  predicate Fixed(p: Plan, d: Dir, e: Dir)
  {
    Stuck(p, d) ==> Stuck(p, e) && Alike(d, e)
  }

  /** The images whose recovery writes a journal state that the transition table of
      the contract forbids: it omits backupCreated, or goes back from completed. */
  predicate SkipsOrRewinds(d: Dir)
  {
    d.backup.Some? && (Records(d, Prepared) || Records(d, Completed))
  }

  //
  // Which images are recoverable
  //

  /** A rename has changed a change time that the journal had no time to record, or the
      backup's has changed while it was being removed, or an earlier recovery activated the
      new tree without having recorded the backup. */
  predicate Drifted(d: Dir)
    requires d.journal.Some?
  {
    var j := d.journal.value;
    || (d.prepared.Some? && d.prepared.value.id != j.stage)
    || (d.backup.Some? && d.backup.value.id != j.target)
    || (j.state == Prepared && d.backup.Some? && d.target.Some?)
  }

  /** Of the images that a crash leaves of OrderlyUse, and of a recovery of them, exactly these
      are recoverable: the journal was not being replaced, the lock was not yet given back,
      and no identity has drifted from the record. */
  lemma RecoverableExactly(p: Plan, d: Dir)
    requires Image(p, d) && Orderly(p, d) && d.journal.Some?
    ensures Recoverable(p, d) <==> d.lock && !d.next && !Drifted(d)
  {
  }

  /** And exactly these end with nothing under the target name: the target has already gone and
      the image is not recoverable, or it has not and the prepared tree has drifted. */
  lemma StrandedExactly(p: Plan, d: Dir)
    requires Image(p, d) && Orderly(p, d) && d.journal.Some?
    ensures Stranded(p, d) <==>
              if d.target.None? then !d.lock || d.next || Drifted(d)
              else d.lock && !d.next && d.prepared.Some? && d.prepared.value.id != d.journal.value.stage
  {
  }

  /** Every crash between the first rename of Execute and the rewriting of its
      journal is of that kind, on a file system where a rename changes the change
      time: the user's application was in place and recovery takes it away. */
  lemma StageRenameWindowIsStranded(p: Plan, d: Dir, moved: Node)
    requires Image(p, d) && Unmoved(p, d) && d.journal.Some? && d.lock && !d.next
    requires Exact(d.target, d.journal.value.target) && d.prepared.None?
    requires ReadyTree(p, d.stage, d.journal.value.stage)
    requires SameTree(moved, d.stage.value) && moved.id.changed != d.stage.value.id.changed
    ensures var window := Apply(StageToPrepared(moved), d);
            Image(p, window) && OldAt(p, window.target) && Stranded(p, window)
  {
  }

  /** When the identities in the journal are up to date, nothing is stranded. */
  lemma RecoverableIsNotStranded(p: Plan, d: Dir)
    requires Image(p, d) && Recoverable(p, d)
    ensures !Stranded(p, d) && !Stuck(p, d)
  {
  }

  //
  // The completed record that is taken back
  //

  /** A swap cut off while it removes files deep inside the backup leaves an image that recovery
      accepts as if the backup were whole.  The record that it then writes first says that the
      old tree is still there; a crash over it leaves an image that is not safe and on which
      the reference decision gives up. */
  lemma HalfRemovedIsRewound(p: Plan, d: Dir)
    requires Image(p, d) && Records(d, Completed) && Recoverable(p, d) && OldAt(p, d.backup)
    ensures var j := d.journal.value;
            var cut := Apply(GutBackup(d.backup.value.id.changed), d);
            var again := Apply(ReplaceJournal(j.(state := TargetActivated)), cut);
            && Image(p, cut) && CrashSafe(p, cut) && HalfRemoved(cut) && Recoverable(p, cut)
            && Decide(p, cut).outcome == Contract.VerifiedNewTarget
            && Image(p, again) && Rewound(p, again) && !CrashSafe(p, again) && Recoverable(p, again)
            && Decide(p, again).outcome == Contract.ManualAction
  {
  }

  /** Such an image: the old tree has inode 1, the new one inode 2. */
  lemma HalfRemovedExample() returns (p: Plan, d: Dir)
    ensures Image(p, d) && Orderly(p, d) && Recoverable(p, d) && HalfRemoved(d) && !Rewound(p, d)
  {
    p := Plan(1, 7);
    d := Dir(None, None, Some(Node(Identity(2, 5), 7, true)), Some(Node(Identity(1, 4), 0, false)),
             Some(Journal(Completed, Identity(1, 4), Identity(2, 3))), false, true);
  }

  //
  // Recovery
  //

  /** Where everything so far is durable, one operation is judged by the image it makes. */
  lemma SingleStep(p: Plan, orderly: bool, m: Moment, op: Op)
    requires m.possible == {m.now}
    ensures Admits(p, orderly, m.completed, Apply(op, m.now)) ==> Harmless(p, orderly, m, op)
    ensures !Rewound(p, Apply(op, m.now)) ==> Quiet(p, m, op)
  {
    hide Admits, Rewound, Apply;
  }

  /** A rename and the sync that makes it durable. */
  method Move(directory: Directory, op: Op) returns (ok: bool)
    requires directory.Sound() && Harmless(directory.plan, directory.orderly, directory.at, op)
    requires Guarded(directory.now, op) && Quiet(directory.plan, directory.at, op)
    requires !op.ReplaceJournal? && !op.Tampering? && !Records(Apply(op, directory.now), Completed)
    modifies directory
    ensures directory.Sound() && old(directory.history) <= directory.history && directory.Proceeded()
    ensures directory.now == Apply(op, old(directory.now)) && directory.at.tamperings == old(directory.at).tamperings
    ensures ok ==> directory.Synced()
    ensures directory.reliable ==> ok
  {
    hide SafeMoment, Recorded, Harmless, After, Tame, Quiet, Apply, Guarded;
    ChangedSafe(directory.plan, directory.orderly, directory.at, op);
    directory.Change(op);
    ok := directory.Sync();
  }

  /** What every part of recovery starts from: everything is durable and nobody has touched
      the target or the backup. */
  ghost predicate Begun(directory: Directory)
    reads directory
  {
    directory.Sound() && directory.Synced() && !directory.at.Tampered() && !directory.now.next
  }

  /** What every part of recovery keeps. */
  twostate predicate Kept(directory: Directory)
    reads directory
  {
    directory.Sound() && old(directory.history) <= directory.history && !directory.at.Tampered()
  }

  /** A refused part has done nothing. */
  twostate predicate Untouched(directory: Directory)
    reads directory
  {
    directory.now == old(directory.now) && directory.at == old(directory.at) && directory.history == old(directory.history)
  }

  lemma StageStep(p: Plan, orderly: bool, m: Moment, moved: Node)
    requires SafeMoment(p, orderly, m) && m.possible == {m.now} && !m.Tampered()
    requires m.now.journal.Some? && m.now.stage.Some? && Plausible(m.now) && SameTree(moved, m.now.stage.value)
    ensures Harmless(p, orderly, m, StageToPrepared(moved)) && Quiet(p, m, StageToPrepared(moved))
    ensures Unmoved(p, m.now) && m.now.journal.value.target.inode == p.oldRoot && m.now.prepared.None?
  {
    hide Orderly, OldIntact, Tame;
    StageMoveIsHarmless(p, orderly, m, moved);
  }

  /** Lines 213 to 228: the stage was never moved. */
  method TakeStage(directory: Directory, j: Journal) returns (ok: bool, record: Journal)
    requires Begun(directory) && directory.now.journal == Some(j) && directory.now.stage.Some? && Plausible(directory.now)
    modifies directory
    ensures Kept(directory) && directory.Proceeded()
    ensures ok ==> Begun(directory) && record == j.(stage := record.stage)
    ensures ok ==> ReadyTree(directory.plan, directory.now.prepared, record.stage)
    ensures ok ==> directory.now ==
                   old(directory.now).(stage := None, prepared := directory.now.prepared, journal := Some(record))
    ensures !ok ==> directory.now.target == old(directory.now).target
    ensures directory.reliable ==> ok == ReadyTree(directory.plan, old(directory.now).stage, j.stage)
    ensures !ReadyTree(directory.plan, old(directory.now).stage, j.stage) ==>
              !ok && Untouched(directory)
  {
    hide SafeMoment, Recorded, Harmless, Quiet, AllUnmoved;
    record := j;
    var now := directory.now;
    if !ReadyTree(directory.plan, now.stage, j.stage) { return false, j; }
    var fails := directory.Fails();
    if fails { return false, j; }
    var moved := directory.Renamed(now.stage.value);
    StageStep(directory.plan, directory.orderly, directory.at, moved);
    ok := Move(directory, StageToPrepared(moved));
    if !ok { return; }
    record := j.(stage := moved.id);
    StageRecordIsHarmless(directory.plan, directory.orderly, directory.at, now, record);
    ok := directory.Persist(record);
  }

  lemma TargetStep(p: Plan, orderly: bool, m: Moment, moved: Node)
    requires SafeMoment(p, orderly, m) && m.possible == {m.now} && !m.Tampered()
    requires Records(m.now, Prepared) && m.now.backup.None? && m.now.prepared.Some?
    requires m.now.target.Some? && SameTree(moved, m.now.target.value)
    ensures Harmless(p, orderly, m, TargetToBackup(moved)) && Quiet(p, m, TargetToBackup(moved)) && OldAt(p, Some(moved))
  {
    hide Orderly, OldIntact, Tame;
    TargetMoveIsHarmless(p, orderly, m, moved);
  }

  /** Lines 230 to 244: the target was never moved. */
  method TakeTarget(directory: Directory, j: Journal) returns (ok: bool, record: Journal)
    requires Begun(directory) && directory.now.journal == Some(j) && j.state == Prepared
    requires directory.now.backup.None? && directory.now.prepared.Some?
    modifies directory
    ensures Kept(directory) && directory.Proceeded()
    ensures ok ==> Begun(directory) && record == Journal(BackupCreated, record.target, j.stage)
    ensures ok ==> directory.now ==
                   old(directory.now).(target := None, backup := directory.now.backup, journal := Some(record))
    ensures ok ==> Exact(directory.now.backup, record.target)
    ensures directory.reliable ==> ok == Exact(old(directory.now).target, j.target)
    ensures !Exact(old(directory.now).target, j.target) ==>
              !ok && Untouched(directory)
  {
    hide SafeMoment, Recorded, Harmless, Quiet;
    record := j;
    var now := directory.now;
    if !Exact(now.target, j.target) { return false, j; }
    var fails := directory.Fails();
    if fails { return false, j; }
    var moved := directory.Renamed(now.target.value);
    TargetStep(directory.plan, directory.orderly, directory.at, moved);
    ok := Move(directory, TargetToBackup(moved));
    if !ok { return; }
    record := Journal(BackupCreated, moved.id, j.stage);
    BackupRecordIsHarmless(directory.plan, directory.orderly, directory.at, record);
    ok := directory.Persist(record);
  }

  /** Lines 246 to 261: the prepared tree was never activated. */
  method TakePrepared(directory: Directory, j: Journal) returns (ok: bool, record: Journal)
    requires Begun(directory) && directory.now.journal == Some(j)
    requires j.state in {Prepared, BackupCreated} && Exact(directory.now.backup, j.target)
    requires directory.now.target.None? && directory.now.prepared.Some?
    modifies directory
    ensures Kept(directory) && directory.at.completed == old(directory.at).completed
    ensures directory.at.rewound == old(directory.at).rewound
    ensures ok ==> directory.lawful == (old(directory.lawful) && j.state == BackupCreated)
    ensures ok ==> Begun(directory) && record == Journal(TargetActivated, j.target, record.stage)
    ensures ok ==> directory.now ==
                   old(directory.now).(prepared := None, target := directory.now.target, journal := Some(record))
    ensures ok ==> ReadyTree(directory.plan, directory.now.target, record.stage)
    ensures directory.reliable ==> ok == ReadyTree(directory.plan, old(directory.now).prepared, j.stage)
    ensures !ReadyTree(directory.plan, old(directory.now).prepared, j.stage) ==>
              !ok && Untouched(directory)
  {
    hide SafeMoment, Recorded, Harmless, Quiet;
    record := j;
    var now := directory.now;
    if !ReadyTree(directory.plan, now.prepared, j.stage) { return false, j; }
    var fails := directory.Fails();
    if fails { return false, j; }
    var moved := directory.Renamed(now.prepared.value);
    PreparedMoveIsHarmless(directory.plan, directory.orderly, directory.at, moved);
    ok := Move(directory, PreparedToTarget(moved));
    if !ok { return; }
    record := Journal(TargetActivated, j.target, moved.id);
    ActivationRecordIsHarmless(directory.plan, directory.orderly, directory.at, record);
    ok := directory.Persist(record);
  }

  /** Lines 280 to 287: activation and completion are recorded before the backup goes, whatever
      the journal said and whatever is left of the backup. */
  method DropBackup(directory: Directory, j: Journal) returns (ok: bool)
    requires directory.Sound() && !directory.at.Tampered() && !directory.now.next
    requires directory.now.journal == Some(j) && Exact(directory.now.backup, j.target)
    requires Harmless(directory.plan, directory.orderly, directory.at, ReplaceJournal(j.(state := TargetActivated)))
    requires OldIntact(directory.plan, directory.now) ==>
               Quiet(directory.plan, directory.at, ReplaceJournal(j.(state := TargetActivated)))
    modifies directory
    ensures Kept(directory)
    ensures directory.now == old(directory.now).(
      backup := directory.now.backup, journal := directory.now.journal, next := directory.now.next)
    ensures ok ==> directory.Synced() && directory.at.completed
    ensures ok ==> directory.now == old(directory.now).(backup := None, journal := Some(j.(state := Completed)))
    ensures ok ==> directory.lawful == (old(directory.lawful) && j.state in {BackupCreated, TargetActivated})
    ensures directory.at.rewound ==> old(directory.at).rewound || !OldIntact(directory.plan, old(directory.now))
    ensures directory.reliable ==>
              ok && (directory.at.rewound <==> old(directory.at).rewound || !OldIntact(directory.plan, old(directory.now)))
  {
    hide SafeMoment, Recorded, Harmless, Quiet, AllUnmoved, OldIntact;
    ok := directory.Persist(j.(state := TargetActivated));
    if !ok { return; }
    RewoundStays(directory.plan, directory.orderly, directory.at, j.(state := Completed));
    ok := directory.Persist(j.(state := Completed));
    if !ok { return; }
    ok := directory.RemoveBackup(j.target);
  }

  lemma RewoundStays(p: Plan, orderly: bool, m: Moment, j: Journal)
    requires SafeMoment(p, orderly, m) && m.possible == {m.now} && !m.Tampered() && j.state == Completed
    requires m.now.journal == Some(j.(state := TargetActivated))
    ensures Harmless(p, orderly, m, ReplaceJournal(j)) && Quiet(p, m, ReplaceJournal(j))
  {
    hide Image, Orderly, OldIntact, Tame;
    CompletionIsRecorded(p, m.now, j);
    PlainIsQuiet(p, m, ReplaceJournal(j));
  }

  /** What Conclude asks of the images: nothing is left to be moved. */
  predicate Placed(d: Dir, j: Journal)
  {
    && d.journal == Some(j) && d.stage.None? && d.prepared.None? && d.target.Some?
    && (d.backup.Some? ==> Exact(d.backup, j.target)) && (d.backup.None? ==> j.state == Completed)
  }

  lemma PlacedStep(p: Plan, orderly: bool, m: Moment, j: Journal)
    requires SafeMoment(p, orderly, m) && m.possible == {m.now} && !m.Tampered() && Placed(m.now, j)
    requires NewAt(p, m.now.target) && m.now.target.value.id.inode == j.stage.inode && m.now.backup.Some?
    ensures Harmless(p, orderly, m, ReplaceJournal(j.(state := TargetActivated)))
  {
    hide Orderly;
    ActivationIsRecorded(p, m.now, j.(state := TargetActivated));
  }

  lemma PlacedIsNew(p: Plan, orderly: bool, m: Moment, j: Journal)
    requires SafeMoment(p, orderly, m) && !m.Tampered() && Placed(m.now, j) && (j.state == Prepared ==> NewAt(p, m.now.target))
    ensures NewAt(p, m.now.target)
    ensures m.now.backup.Some? && !m.rewound ==> (HalfRemoved(m.now) <==> !OldIntact(p, m.now))
  {
  }

  lemma QuietAfterTouch(p: Plan, m: Moment, changed: nat, j: Journal)
    requires m.possible == {m.now} && OldIntact(p, m.now)
    ensures Quiet(p, Changed(p, m, TouchTarget(changed)), ReplaceJournal(j))
    ensures OldIntact(p, TouchRoot(m.now, changed))
  {
  }

  /** Lines 263 to 294: check the activated target, record completion and clean up. */
  method Conclude(directory: Directory, j: Journal) returns (ok: bool)
    requires Begun(directory) && Placed(directory.now, j) && (j.state == Prepared ==> NewAt(directory.plan, directory.now.target))
    modifies directory
    ensures Kept(directory) && directory.now.target.Some?
    ensures ok ==> directory.lawful == (old(directory.lawful) && !old(SkipsOrRewinds(directory.now)))
    ensures ok ==> Swapped(directory.plan, directory.now) && directory.Synced()
    ensures ok ==> directory.now.stage.None? && directory.now.prepared.None? && !directory.now.next
    ensures directory.reliable ==> ok == Activated(directory.plan, old(directory.now))
    ensures directory.at.rewound ==>
              old(directory.at).rewound || (HalfRemoved(old(directory.now)) && Activated(directory.plan, old(directory.now)))
    ensures directory.reliable ==> (directory.at.rewound <==>
              old(directory.at).rewound || (HalfRemoved(old(directory.now)) && Activated(directory.plan, old(directory.now))))
    ensures !Activated(directory.plan, old(directory.now)) ==> !ok && Idle(directory) && !Activated(directory.plan, directory.now)
  {
    hide SafeMoment, Recorded, Harmless, Quiet, After, Tame, OldIntact, Rewound;
    var fails := directory.Fails();
    if fails { return false; }
    PlacedIsNew(directory.plan, directory.orderly, directory.at, j);
    if directory.now.backup.Some? {
      ok := ConcludeBackup(directory, j);
      if !ok { return; }
    } else {
      if directory.now.target.value.id.inode != j.stage.inode || !Verified(directory.plan, directory.now.target) { return false; }
    }
    CompletedCleans(directory.plan, directory.orderly, directory.at);
    ok := directory.Remove();
  }

  /** Lines 263 to 287, where there is a backup. */
  method ConcludeBackup(directory: Directory, j: Journal) returns (ok: bool)
    requires Begun(directory) && Placed(directory.now, j) && NewAt(directory.plan, directory.now.target)
    requires directory.now.backup.Some?
    modifies directory
    ensures Kept(directory) && directory.now.target.Some?
    ensures ok ==> directory.Synced() && NewAt(directory.plan, directory.now.target)
    ensures ok ==> directory.now == old(directory.now).(
                     target := directory.now.target, backup := None, journal := Some(j.(state := Completed)))
    ensures ok ==> directory.lawful == (old(directory.lawful) && j.state in {BackupCreated, TargetActivated})
    ensures directory.reliable ==> ok == Activated(directory.plan, old(directory.now))
    ensures directory.at.rewound ==>
              || old(directory.at).rewound
              || (!OldIntact(directory.plan, old(directory.now)) && Activated(directory.plan, old(directory.now)))
    ensures directory.reliable ==> (directory.at.rewound <==>
              || old(directory.at).rewound
              || (!OldIntact(directory.plan, old(directory.now)) && Activated(directory.plan, old(directory.now))))
    ensures !Activated(directory.plan, old(directory.now)) ==> !ok && Idle(directory) && !Activated(directory.plan, directory.now)
  {
    hide SafeMoment, Recorded, Harmless, Quiet, Tame, OldIntact;
    ghost var m := directory.at;
    if Activated(directory.plan, directory.now) { PlacedStep(directory.plan, directory.orderly, m, j); }
    directory.FinaliseRoot();
    var now := directory.now;
    TargetTimeDoesNotMatter(directory.plan, m.now, now.target.value.id.changed);
    if now.target.value.id.inode != j.stage.inode || !Verified(directory.plan, now.target) { return false; }
    if OldIntact(directory.plan, m.now) {
      QuietAfterTouch(directory.plan, m, now.target.value.id.changed, j.(state := TargetActivated));
    }
    ok := DropBackup(directory, j);
  }

  /** Recovery has at most given the target's root its final mode. */
  twostate predicate Idle(directory: Directory)
    reads directory
  {
    && Alike(old(directory.now), directory.now)
    && directory.history in {old(directory.history), old(directory.history) + [directory.at]}
    && forall d :: d in directory.at.possible ==> Fixed(directory.plan, old(directory.now), d)
  }

  lemma UnrecordedHasNoBackup(p: Plan, orderly: bool, m: Moment)
    requires SafeMoment(p, orderly, m) && !m.Tampered() && m.now.journal.None?
    ensures m.now.backup.None?
  {
  }

  /** No journal: only a lock that its dead owner left behind is taken away. */
  method ReleaseOrphanLock(directory: Directory, ownerAlive: bool) returns (r: Outcome)
    requires Begun(directory) && directory.now.journal.None?
    modifies directory
    ensures Kept(directory) && directory.Proceeded()
    ensures directory.now == old(directory.now).(lock := directory.now.lock)
    ensures r == NothingToRecover ==> !directory.now.lock
    ensures r == LiveOwner <==> old(directory.now).lock && ownerAlive
    ensures ownerAlive ==> directory.now == old(directory.now)
    ensures r != Recovered
    ensures directory.reliable && !ownerAlive ==>
              (r == NothingToRecover <==> (old(directory.now).lock ==> directory.now.prepared.None?))
    ensures Stuck(directory.plan, old(directory.now)) ==> Idle(directory) && r in {LiveOwner, ManualActionRequired}
  {
    hide SafeMoment, Recorded;
    UnrecordedHasNoBackup(directory.plan, directory.orderly, directory.at);
    if !directory.now.lock { return NothingToRecover; }
    if ownerAlive { return LiveOwner; }
    if directory.now.prepared.Some? || directory.now.backup.Some? { return ManualActionRequired; }
    var fails := directory.Fails();
    if fails { return ManualActionRequired; }
    directory.ReleaseLock();
    var ok := directory.Sync();
    return if ok then NothingToRecover else ManualActionRequired;
  }

  /** Lines 213 to 294: whatever has not been moved is moved, and the swap concluded. */
  method Resume(directory: Directory) returns (ok: bool)
    requires Begun(directory) && directory.now.lock && directory.now.journal.Some? && Plausible(directory.now)
    modifies directory
    ensures Kept(directory)
    ensures ok ==> Swapped(directory.plan, directory.now) && !Stuck(directory.plan, directory.now)
    ensures ok ==> directory.now.stage.None? && directory.now.prepared.None?
    ensures ok ==> directory.lawful == (old(directory.lawful) && !old(SkipsOrRewinds(directory.now)))
    ensures directory.reliable ==>
      && (ok <==> Recoverable(directory.plan, old(directory.now)))
      && (directory.now.target.None? <==> Stranded(directory.plan, old(directory.now)))
      && (!ok ==> Stuck(directory.plan, directory.now))
    ensures directory.at.rewound ==> old(directory.at).rewound || RewindsAt(directory.plan, old(directory.now))
    ensures directory.reliable ==>
      (directory.at.rewound <==> old(directory.at).rewound || RewindsAt(directory.plan, old(directory.now)))
    ensures Stuck(directory.plan, old(directory.now)) ==> !ok && Idle(directory)
  {
    hide SafeMoment, Recorded, NewAt, Verified;
    var j := directory.now.journal.value;
    ok := true;
    if directory.now.stage.Some? {
      ok, j := TakeStage(directory, j);
      if !ok { return; }
    }
    if directory.now.backup.None? && directory.now.prepared.Some? {
      ok, j := TakeTarget(directory, j);
      if !ok { return; }
    }
    if directory.now.prepared.Some? && directory.now.target.None? {
      ok, j := TakePrepared(directory, j);
      if !ok { return; }
    }
    ok := Conclude(directory, j);
  }

  /** The images from which recovery takes back a completed record over a backup that is no
      longer whole. */
  predicate RewindsAt(p: Plan, d: Dir)
  {
    HalfRemoved(d) && Recoverable(p, d)
  }

  /** The target is neither of the two trees that the journal names. */
  predicate ForeignTarget(d: Dir)
  {
    && d.journal.Some? && d.target.Some?
    && d.target.value.id.inode != d.journal.value.target.inode && d.target.value.id.inode != d.journal.value.stage.inode
  }

  lemma ForeignIsImplausible(d: Dir)
    requires d.journal.Some?
    ensures ForeignTarget(d) ==> !Plausible(d)
  {
  }

  lemma SwappedHasPayload(p: Plan, d: Dir)
    requires Swapped(p, d)
    ensures d.target.Some? && d.target.value.payload == p.payload
  {
  }

  /** LinuxRecoveryService::Recover, from any image that a crash of the swap or of an
      earlier recovery left.  Without faults it succeeds exactly on the recoverable images and
      is stuck exactly when it asks for manual action; it leaves a stuck image as it is; and it
      could leave a rewound record only if there was one, or exactly from such a half-removed backup. */
  method Recover(directory: Directory, ownerAlive: bool) returns (r: Outcome)
    requires directory.Sound() && directory.Synced() && !directory.at.Tampered()
    modifies directory
    ensures Kept(directory)
    ensures r == Recovered ==>
      && Swapped(directory.plan, directory.now)
      && directory.now.stage.None? && directory.now.prepared.None?
      && directory.now.target.Some? && directory.now.target.value.payload == directory.plan.payload
    ensures ForeignTarget(old(directory.now)) ==> r != Recovered && directory.now == old(directory.now)
    ensures r == LiveOwner ==> ownerAlive
    ensures ownerAlive ==> r != Recovered && directory.now == old(directory.now)
    ensures directory.reliable && !ownerAlive && old(directory.now).journal.Some? ==>
      && (r == Recovered <==> Recoverable(directory.plan, old(directory.now)))
      && (directory.now.target.None? <==> Stranded(directory.plan, old(directory.now)))
    ensures r == Recovered ==> directory.lawful == (old(directory.lawful) && !old(SkipsOrRewinds(directory.now)))
    ensures directory.at.rewound ==> old(directory.at).rewound || RewindsAt(directory.plan, old(directory.now))
    ensures directory.reliable && !ownerAlive ==>
      && (directory.at.rewound <==> old(directory.at).rewound || RewindsAt(directory.plan, old(directory.now)))
      && (r == ManualActionRequired <==> Stuck(directory.plan, directory.now))
    ensures Stuck(directory.plan, old(directory.now)) ==> Idle(directory) && r in {LiveOwner, ManualActionRequired}
  {
    hide SafeMoment, Recorded, NewAt, Verified, Plausible, OldIntact, HalfRemoved;
    var start := directory.now;
    if start.next { return ManualActionRequired; }
    if start.journal.None? {
      r := ReleaseOrphanLock(directory, ownerAlive);
      return;
    }
    if !start.lock { return ManualActionRequired; }
    if ownerAlive { return LiveOwner; }
    ForeignIsImplausible(start);
    if !Plausible(start) { return ManualActionRequired; }
    var ok := Resume(directory);
    if ok { SwappedHasPayload(directory.plan, directory.now); }
    r := if ok then Recovered else ManualActionRequired;
  }

  //
  // Whole recoveries
  //

  /** The image could be left by a crash of the run. */
  ghost predicate LeftBy(h: seq<Moment>, d: Dir)
  {
    exists i :: 0 <= i < |h| && d in h[i].possible
  }

  /** A crash of the run could leave nothing but safe images. */
  ghost predicate AllCrashSafe(p: Plan, h: seq<Moment>)
  {
    forall d :: LeftBy(h, d) ==> CrashSafe(p, d)
  }

  lemma LeftImages(p: Plan, orderly: bool, h: seq<Moment>, d: Dir)
    requires h != [] && SafeRun(p, orderly, h) && !h[|h| - 1].Tampered() && LeftBy(h, d)
    ensures Image(p, d) && (orderly ==> Orderly(p, d)) && (!h[|h| - 1].rewound ==> CrashSafe(p, d))
  {
    hide SafeRun, Image, Orderly, CrashSafe, Rewound, OldIntact, CompletedBy;
    var i :| 0 <= i < |h| && d in h[i].possible;
    FlagsHold(p, orderly, h, i);
    EveryCrashIsSafe(p, orderly, h, i, d);
  }

  lemma FlagsHold(p: Plan, orderly: bool, h: seq<Moment>, i: nat)
    requires SafeRun(p, orderly, h) && i < |h|
    ensures (h[i].Tampered() ==> h[|h| - 1].Tampered()) && (h[i].rewound ==> h[|h| - 1].rewound)
  {
    hide SafeMoment;
    FlagsStay(p, h, i, |h| - 1);
  }

  lemma EndIsLeft(p: Plan, orderly: bool, h: seq<Moment>)
    requires h != [] && SafeRun(p, orderly, h)
    ensures LeftBy(h, h[|h| - 1].now)
  {
    hide IsRun, Admits, Tame;
    assert SafeMoment(p, orderly, h[|h| - 1]);
  }

  lemma SafeExactly(p: Plan, orderly: bool, h: seq<Moment>)
    requires h != [] && SafeRun(p, orderly, h) && !h[|h| - 1].Tampered()
    requires h[0].rewound <==> Rewound(p, h[0].now)
    ensures AllCrashSafe(p, h) <==> !h[|h| - 1].rewound
  {
    hide SafeMoment, IsRun, Image, Orderly, CrashSafe, Rewound, OldIntact;
    if !h[|h| - 1].rewound {
      forall d | LeftBy(h, d)
        ensures CrashSafe(p, d)
      {
        LeftImages(p, orderly, h, d);
      }
    } else {
      var d := RewoundIsLeft(p, orderly, h);
      LeftImages(p, orderly, h, d);
      ImagesAreCrashSafe(p, d);
    }
  }

  lemma RewoundIsLeft(p: Plan, orderly: bool, h: seq<Moment>) returns (d: Dir)
    requires h != [] && SafeRun(p, orderly, h) && h[|h| - 1].rewound
    requires h[0].rewound <==> Rewound(p, h[0].now)
    ensures LeftBy(h, d) && Rewound(p, d)
  {
    hide Rewound, IsRun, Admits, Tame;
    assert SafeMoment(p, orderly, h[0]);
    if h[0].rewound {
      d := h[0].now;
    } else {
      RewoundWasPossible(p, h, |h| - 1);
      var j, e :| 0 <= j <= |h| - 1 && e in h[j].possible && Rewound(p, e);
      d := e;
    }
  }

  ghost predicate RunFrom(p: Plan, start: Dir, run: seq<Moment>)
  {
    IsRun(p, run) && run != [] && run[0].possible == {start}
  }

  /** Recovery from any image: every crash of it leaves an image again; unless the start was
      rewound or rewinds, every crash of it is safe, and where nothing fails that is exact. */
  method RecoverFrom(plan: Plan, reliable: bool, orderly: bool, start: Dir) returns (r: Outcome, end: Dir, ghost run: seq<Moment>)
    requires Image(plan, start) && (orderly ==> reliable && Orderly(plan, start))
    ensures RunFrom(plan, start, run) && run[|run| - 1].now == end
    ensures forall d :: LeftBy(run, d) ==> Image(plan, d) && (orderly ==> Orderly(plan, d)) && Fixed(plan, start, d)
    ensures LeftBy(run, start) && LeftBy(run, end)
    ensures !Rewound(plan, start) && !RewindsAt(plan, start) ==> AllCrashSafe(plan, run)
    ensures reliable ==> (AllCrashSafe(plan, run) <==> !Rewound(plan, start) && !RewindsAt(plan, start))
    ensures reliable ==> (r == ManualActionRequired <==> Stuck(plan, end)) && r != LiveOwner
    ensures r == Recovered ==> Swapped(plan, end)
    ensures reliable && start.journal.Some? ==> (r == Recovered <==> Recoverable(plan, start))
  {
    hide Recorded, SafeMoment, Image, Orderly, CrashSafe, Rewound, RewindsAt, Stuck, Swapped, OldIntact, NextMoment;
    var directory := new Directory(plan, reliable, orderly, start);
    ghost var first := directory.at;
    r := Recover(directory, false);
    end := directory.now;
    run := directory.history;
    RecordIsSafe(plan, orderly, run, directory.at, directory.lawful);
    assert run[0] == first;
    SafeExactly(plan, orderly, run);
    forall d | LeftBy(run, d)
      ensures Image(plan, d) && (orderly ==> Orderly(plan, d)) && Fixed(plan, start, d)
    {
      LeftImages(plan, orderly, run, d);
    }
    EndIsLeft(plan, orderly, run);
    assert start in run[0].possible;
  }

  /** Where the k-th recovery started: at first, or from what the crash before it left. */
  function Begin(start: Dir, crashes: seq<Dir>, k: nat): Dir
    requires k <= |crashes|
  {
    if k == 0 then start else crashes[k - 1]
  }

  /** Each recovery but the last was cut off by a crash that left the given image. */
  ghost predicate Cut(crashes: seq<Dir>, runs: seq<seq<Moment>>)
  {
    |runs| == |crashes| + 1 && forall k :: 0 <= k < |crashes| ==> LeftBy(runs[k], crashes[k])
  }

  lemma FixedJoins(p: Plan, a: Dir, b: Dir, c: Dir)
    requires Fixed(p, a, b) && Fixed(p, b, c)
    ensures Fixed(p, a, c)
  {
    hide Stuck;
  }

  /** Any number of recoveries, each cut off by a crash at any moment, or failing on the way
      unless `orderly` promises otherwise, and then one that is left alone.  Every crash leaves an
      image again, and an orderly one where nothing fails; the last recovery ends with the new
      tree in place, or with nothing to recover, or else stuck; and once an image is stuck,
      every later one differs from it by no more than a change time. */
  method RecoverThroughCrashes(plan: Plan, orderly: bool, start: Dir, crashes: seq<Dir>)
    returns (r: Outcome, end: Dir, ghost runs: seq<seq<Moment>>)
    requires Image(plan, start) && (orderly ==> Orderly(plan, start))
    ensures forall k :: 0 <= k < |runs| ==> k <= |crashes| && RunFrom(plan, Begin(start, crashes, k), runs[k])
    ensures !Cut(crashes, runs) ==> exists k :: 0 <= k < |runs| && k < |crashes| && !LeftBy(runs[k], crashes[k])
    ensures Cut(crashes, runs) ==>
      && (forall k :: 0 <= k < |crashes| ==>
            Image(plan, crashes[k]) && (orderly ==> Orderly(plan, crashes[k])) && Fixed(plan, start, crashes[k]))
      && Image(plan, end) && Fixed(plan, start, end) && LeftBy(runs[|crashes|], end)
      && (r == ManualActionRequired <==> Stuck(plan, end)) && r != LiveOwner
      && (r == Recovered ==> Swapped(plan, end))
      && (Begin(start, crashes, |crashes|).journal.Some? ==>
            (r == Recovered <==> Recoverable(plan, Begin(start, crashes, |crashes|))))
  {
    hide Image, Orderly, Stuck, Swapped, LeftBy, Recoverable;
    runs := [];
    var from := start;
    for k := 0 to |crashes|
      invariant |runs| == k && from == Begin(start, crashes, k)
      invariant Image(plan, from) && (orderly ==> Orderly(plan, from)) && Fixed(plan, start, from)
      invariant forall i :: 0 <= i < k ==> RunFrom(plan, Begin(start, crashes, i), runs[i])
      invariant forall i :: 0 <= i < k ==>
        Image(plan, crashes[i]) && (orderly ==> Orderly(plan, crashes[i])) && Fixed(plan, start, crashes[i])
    {
      ghost var run;
      r, end, run := RecoverFrom(plan, orderly, orderly, from);
      runs := runs + [run];
      if !(Image(plan, crashes[k]) && (orderly ==> Orderly(plan, crashes[k])) && Fixed(plan, from, crashes[k])) { return; }
      FixedJoins(plan, start, from, crashes[k]);
      from := crashes[k];
    }
    ghost var run;
    r, end, run := RecoverFrom(plan, true, orderly, from);
    runs := runs + [run];
    FixedJoins(plan, start, from, end);
  }
}
