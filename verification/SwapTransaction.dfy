/**
 The crash-safe directory swap (linux_file_transaction.cc, linux_transaction_journal.cc):
 the directory as an object whose operations extend a run, and the transaction that
 works on it.
 */
module SwapTransaction {
  import opened SortedMap
  import opened SwapModel
  import opened SwapRun

  class Directory {
    const plan: Plan
    /** Nothing fails and nobody else touches the directory. */
    const reliable: bool
    /** Moreover the run began with every tree under its one name. */
    const orderly: bool
    var now: Dir
    ghost var at: Moment
    ghost var history: seq<Moment>
    /** Every journal write so far obeyed the transition table of the contract. */
    ghost var lawful: bool

    /** The run so far was safe at every moment. */
    ghost predicate Sound()
      reads this
    {
      && at.now == now && (orderly ==> reliable) && (reliable ==> !at.Tampered())
      && SafeMoment(plan, orderly, at) && Recorded(plan, orderly, history, at, lawful)
    }

    ghost predicate Synced()
      reads this
    {
      at.possible == {now}
    }

    /** A directory as a crash left it. */
    constructor (plan: Plan, reliable: bool, orderly: bool, start: Dir)
      requires Image(plan, start) && (orderly ==> reliable && Orderly(plan, start))
      ensures this.plan == plan && this.reliable == reliable && this.orderly == orderly && now == start
      ensures Sound() && Synced() && lawful && history == [at]
      ensures at == Moment(start, {start}, !OldIntact(plan, start), 0, Rewound(plan, start))
    {
      this.plan := plan;
      this.reliable := reliable;
      this.orderly := orderly;
      now := start;
      at := Moment(start, {start}, !OldIntact(plan, start), 0, Rewound(plan, start));
      history := [Moment(start, {start}, !OldIntact(plan, start), 0, Rewound(plan, start))];
      lawful := true;
    }

    /** One directory operation. */
    method Change(op: Op)
      requires Sound() && Harmless(plan, orderly, at, op) && Guarded(now, op) && (reliable ==> !op.Tampering?)
      modifies this
      ensures Sound() && old(history) <= history && history == old(history) + [at]
      ensures now == Apply(op, old(now)) && at == Changed(plan, old(at), op)
      ensures lawful <==> old(lawful) && LawfulOp(old(now), op)
    {
      hide Apply, Guarded, Harmless, SafeMoment, Recorded, LawfulOp, After, Tame;
      RecordChange(plan, orderly, history, at, lawful, op);
      lawful := lawful && LawfulOp(now, op);
      now := Apply(op, now);
      at := Changed(plan, at, op);
      history := history + [at];
    }

    /** Whether a system call or a fault point throws. */
    method Fails() returns (fails: bool)
      ensures reliable ==> !fails
    {
      fails := *;
      fails := fails && !reliable;
    }

    /** SyncLinuxDirectory */
    method Sync() returns (ok: bool)
      requires Sound()
      modifies this`at, this`history
      ensures Sound() && old(history) <= history && (reliable ==> ok)
      ensures at == if ok then Flushed(old(at)) else old(at)
    {
      hide SafeMoment, Recorded;
      var fails := Fails();
      ok := !fails;
      if ok {
        RecordSync(plan, orderly, history, at, lawful);
        at := Flushed(at);
        history := history + [at];
      }
    }

    /** Nothing but the four names of trees, and by others. */
    twostate predicate Disturbed()
      reads this
    {
      && now.journal == old(now).journal && now.next == old(now).next && now.lock == old(now).lock
      && (!at.Tampered() ==> OnlyStageMoved(old(now), now))
      && (old(at).Tampered() ==> at.Tampered()) && at.completed == old(at).completed && at.rewound == old(at).rewound
      && lawful == old(lawful)
      && (reliable ==> now == old(now) && at == old(at))
    }

    /** A fault point: it may throw, and meanwhile others may have replaced or removed what is
        under any of the four names. */
    method Hit() returns (ok: bool)
      requires Sound()
      modifies this
      ensures Sound() && old(history) <= history && Disturbed() && (reliable ==> ok)
      ensures old(Settled(at)) ==> Settled(at)
      ensures old(AllUnmoved(plan, at)) ==> AllUnmoved(plan, at)
    {
      var fails := Fails();
      ok := !fails;
      if !reliable {
        Meddle();
        Tamper();
      }
    }

    method Meddle()
      requires Sound() && !reliable
      modifies this
      ensures Sound() && old(history) <= history && Disturbed()
      ensures old(Settled(at)) ==> Settled(at)
      ensures old(AllUnmoved(plan, at)) ==> AllUnmoved(plan, at)
    {
      hide SafeMoment, Recorded, Harmless, After, Tame, Quiet, Settled, AllUnmoved;
      var stage: Option<Node>, prepared: Option<Node> := *, *;
      if NotOld(plan, stage) && NotOld(plan, prepared) {
        InterferenceIsHarmless(plan, at, stage, prepared);
        ChangedSafe(plan, orderly, at, Interference(stage, prepared));
        Change(Interference(stage, prepared));
      }
    }

    method Tamper()
      requires Sound() && !reliable
      modifies this
      ensures Sound() && old(history) <= history && Disturbed()
      ensures old(Settled(at)) ==> Settled(at)
      ensures old(AllUnmoved(plan, at)) ==> AllUnmoved(plan, at)
    {
      hide Recorded, After, Tame;
      var tampers: bool := *;
      if tampers {
        var target: Option<Node>, backup: Option<Node> := *, *;
        Change(Tampering(target, backup));
      }
    }

    method CreateNextFile()
      requires Sound()
      modifies this
      ensures Sound() && old(history) <= history && lawful == old(lawful)
      ensures now == old(now).(next := true) && at == Changed(plan, old(at), CreateNext)
      ensures at.rewound == old(at).rewound && at.completed == old(at).completed && at.tamperings == old(at).tamperings
    {
      hide SafeMoment, Recorded, Harmless, After, Tame, Quiet;
      ControlIsHarmless(plan, orderly, at, CreateNext);
      ChangedSafe(plan, orderly, at, CreateNext);
      Change(CreateNext);
    }

    /** DurableLinuxTransactionJournalStore::Persist: write the next file, rename
        it over the journal and sync. */
    method Persist(j: Journal) returns (ok: bool)
      requires Sound() && Harmless(plan, orderly, at, ReplaceJournal(j))
      modifies this
      ensures Sound() && old(history) <= history && at.tamperings == old(at).tamperings
      ensures now == old(now).(journal := now.journal, next := now.next)
      ensures now.journal in {old(now).journal, Some(j)}
      ensures lawful <==> old(lawful) && (now.journal == old(now).journal || Lawful(old(now), j))
      ensures reliable && !old(now).next ==> ok
      ensures old(now).next ==> !ok && now == old(now) && at == old(at)
      ensures ok ==> Synced() && now == old(now).(journal := Some(j), next := false)
      ensures old(at).completed ==> at.completed
      ensures at.completed ==> old(at).completed || j.state == Completed
      ensures ok && j.state == Completed ==> at.completed
      ensures old(Quiet(plan, at, ReplaceJournal(j))) ==> at.rewound == old(at).rewound
      ensures ok && j.state == TargetActivated && !at.Tampered() && !OldIntact(plan, old(now)) ==> at.rewound
      ensures j.state == Prepared && old(AllUnmoved(plan, at)) ==> AllUnmoved(plan, at)
    {
      hide SafeMoment, Recorded, Harmless, Changed, Tame, Quiet, AllUnmoved;
      if now.next { return false; }
      var fails := Fails();
      if fails { return false; }
      ghost var m := at;
      ReplaceAfterNext(plan, orderly, at, j);
      CreateNextFile();
      if j.state == Prepared && AllUnmoved(plan, m) { UnmovedStays(plan, m, CreateNext); }
      fails := Fails();
      if fails { return false; }
      ok := Publish(j);
    }

    /** The rename of the next file over the journal, and the sync. */
    method Publish(j: Journal) returns (ok: bool)
      requires Sound() && Harmless(plan, orderly, at, ReplaceJournal(j))
      modifies this
      ensures Sound() && old(history) <= history && at.tamperings == old(at).tamperings
      ensures now == old(now).(journal := Some(j), next := false)
      ensures lawful <==> old(lawful) && Lawful(old(now), j)
      ensures (reliable ==> ok) && (ok ==> Synced())
      ensures old(at).completed ==> at.completed
      ensures at.completed ==> old(at).completed || j.state == Completed
      ensures ok && j.state == Completed ==> at.completed
      ensures old(Quiet(plan, at, ReplaceJournal(j))) ==> at.rewound == old(at).rewound
      ensures j.state == TargetActivated && !at.Tampered() && !OldIntact(plan, old(now)) ==> at.rewound
      ensures j.state == Prepared && old(AllUnmoved(plan, at)) ==> AllUnmoved(plan, at)
    {
      hide SafeMoment, Recorded, Harmless, Tame, Quiet, AllUnmoved, OldIntact;
      Replace(j);
      if AllUnmoved(plan, at) { UnmovedFlushed(plan, orderly, at); }
      ok := Sync();
      if ok {
        var fails := Fails();
        ok := !fails;
      }
    }

    /** The rename of the next file over the journal. */
    method Replace(j: Journal)
      requires Sound() && Harmless(plan, orderly, at, ReplaceJournal(j))
      modifies this
      ensures Sound() && old(history) <= history && at.tamperings == old(at).tamperings && at.completed == old(at).completed
      ensures now == old(now).(journal := Some(j), next := false)
      ensures lawful <==> old(lawful) && Lawful(old(now), j)
      ensures old(Quiet(plan, at, ReplaceJournal(j))) ==> at.rewound == old(at).rewound
      ensures j.state == TargetActivated && !at.Tampered() && !OldIntact(plan, old(now)) ==> at.rewound
      ensures j.state == Prepared && old(AllUnmoved(plan, at)) ==> AllUnmoved(plan, at)
    {
      hide Recorded, Harmless, AllUnmoved, OldIntact;
      ghost var m := at;
      ChangedSafe(plan, orderly, at, ReplaceJournal(j));
      if j.state == Prepared && AllUnmoved(plan, at) { UnmovedStays(plan, at, ReplaceJournal(j)); }
      if j.state == TargetActivated && !at.Tampered() && !OldIntact(plan, now) { RewoundAppears(plan, at, j); }
      Change(ReplaceJournal(j));
    }

    /** FinalizeActivatedPayloadRoot: the root of the target gets its final mode. */
    method FinaliseRoot()
      requires Sound() && now.target.Some?
      requires orderly ==> forall d :: d in at.possible ==> d.stage.None? && d.prepared.None?
      modifies this
      ensures Sound() && old(history) <= history && history == old(history) + [at] && lawful == old(lawful)
      ensures now.target.Some? && now == TouchRoot(old(now), now.target.value.id.changed)
      ensures at == Changed(plan, old(at), TouchTarget(now.target.value.id.changed))
      ensures at.tamperings == old(at).tamperings && at.completed == old(at).completed && at.rewound == old(at).rewound
      ensures forall j :: old(Harmless(plan, orderly, at, ReplaceJournal(j))) ==> Harmless(plan, orderly, at, ReplaceJournal(j))
    {
      hide SafeMoment, Recorded, Harmless, After, Tame, Quiet;
      var changed: nat := *;
      TouchIsHarmless(plan, orderly, at, changed);
      ChangedSafe(plan, orderly, at, TouchTarget(changed));
      forall j | Harmless(plan, orderly, at, ReplaceJournal(j))
        ensures Harmless(plan, orderly, Changed(plan, at, TouchTarget(changed)), ReplaceJournal(j))
      {
        ReplaceAfterTouch(plan, orderly, at, changed, j);
      }
      Change(TouchTarget(changed));
    }

    /** The rest of what a step leaves alone. */
    twostate predicate Proceeded()
      reads this
    {
      && (old(at).Tampered() ==> at.Tampered()) && at.completed == old(at).completed && at.rewound == old(at).rewound
      && lawful == old(lawful)
    }

    /** A rename within the directory, the fault point after it, and the sync that makes it durable. */
    method Rename(op: Op) returns (ok: bool)
      requires Sound() && Harmless(plan, orderly, at, op) && Guarded(now, op) && Quiet(plan, at, op)
      requires !op.ReplaceJournal? && !op.Tampering? && !Records(Apply(op, now), Completed)
      modifies this
      ensures Sound() && old(history) <= history && Proceeded()
      ensures now.journal == Apply(op, old(now)).journal && now.next == Apply(op, old(now)).next && now.lock == Apply(op, old(now)).lock
      ensures !at.Tampered() ==> OnlyStageMoved(Apply(op, old(now)), now)
      ensures ok ==> Synced()
      ensures reliable ==> ok && now == Apply(op, old(now))
    {
      hide SafeMoment, Recorded, Harmless, After, Tame, Quiet, Apply, Guarded, AllUnmoved, Settled;
      ChangedSafe(plan, orderly, at, op);
      Change(op);
      ok := Hit();
      if ok { ok := Sync(); }
    }

    /** A journal write and the fault point after it. */
    method Record(j: Journal) returns (ok: bool)
      requires Sound() && Harmless(plan, orderly, at, ReplaceJournal(j)) && Quiet(plan, at, ReplaceJournal(j))
      requires Lawful(now, j) && j.state != Completed
      modifies this
      ensures Sound() && old(history) <= history && Proceeded()
      ensures ok ==> now.journal == Some(j) && !now.next && Settled(at)
      ensures ok && !at.Tampered() ==> OnlyStageMoved(old(now).(journal := Some(j), next := false), now)
      ensures ok && reliable ==> Synced()
      ensures reliable && !old(now).next ==> ok && now == old(now).(journal := Some(j))
    {
      hide SafeMoment, Recorded, Harmless, Tame, Quiet, AllUnmoved;
      ok := Persist(j);
      if ok { ok := Hit(); }
    }

    method ReleaseLock()
      requires Sound()
      modifies this
      ensures Sound() && old(history) <= history && Proceeded() && at.tamperings == old(at).tamperings
      ensures now == old(now).(lock := false)
      ensures old(AllUnmoved(plan, at)) ==> AllUnmoved(plan, at)
    {
      hide SafeMoment, Recorded, Harmless, After, Tame, Quiet, AllUnmoved;
      ControlIsHarmless(plan, orderly, at, UnlinkLock);
      ChangedSafe(plan, orderly, at, UnlinkLock);
      Change(UnlinkLock);
    }

    /** DurableLinuxTransactionJournalStore::Remove: the journal, then the lock. */
    method Remove() returns (ok: bool)
      requires Sound() && Harmless(plan, orderly, at, UnlinkJournal)
      modifies this
      ensures Sound() && old(history) <= history && Proceeded() && at.tamperings == old(at).tamperings
      ensures now == old(now).(journal := now.journal, lock := now.lock) && now.journal in {old(now).journal, None}
      ensures old(AllUnmoved(plan, at)) ==> AllUnmoved(plan, at)
      ensures reliable ==> ok
      ensures ok ==> Synced() && now == old(now).(journal := None, lock := false)
    {
      hide SafeMoment, Recorded, Harmless, After, Tame, Quiet, AllUnmoved;
      var fails := Fails();
      if fails { return false; }
      PlainIsQuiet(plan, at, UnlinkJournal);
      ChangedSafe(plan, orderly, at, UnlinkJournal);
      if AllUnmoved(plan, at) { UnmovedStays(plan, at, UnlinkJournal); }
      Change(UnlinkJournal);
      fails := Fails();
      if fails { return false; }
      ReleaseLock();
      if AllUnmoved(plan, at) { UnmovedFlushed(plan, orderly, at); }
      ok := Sync();
    }

    /** A renamed tree keeps its identity, except perhaps its change time. */
    method Renamed(n: Node) returns (moved: Node)
      ensures SameTree(moved, n)
    {
      var changed: nat := *;
      moved := n.(id := n.id.(changed := changed));
    }

    /** RemoveLinuxTreeExact on the backup: its files go first, one after the other and those
        in subdirectories before the others, which may or may not change the change time of
        its root; the name goes last. */
    method RemoveBackup(expected: Identity) returns (ok: bool)
      requires Sound() && Synced() && at.completed && Records(now, Completed) && now.journal.value.target == expected
      modifies this
      ensures Sound() && old(history) <= history && Proceeded() && at.tamperings == old(at).tamperings
      ensures now == old(now).(backup := now.backup)
      ensures reliable && Exact(old(now).backup, expected) ==> ok
      ensures ok ==> Synced() && now.backup.None?
    {
      hide SafeMoment, Recorded, Harmless, Changed, Tame, Quiet;
      if now.backup.None? || now.backup.value.id.inode != expected.inode { return false; }
      var files: int := *;
      for i := 0 to if files < 0 then 0 else files
        invariant Sound() && old(history) <= history && Proceeded() && at.tamperings == old(at).tamperings
        invariant at.completed && now == old(now).(backup := now.backup) && MayRemove(now)
        invariant forall d :: d in at.possible ==> Records(d, Completed)
      {
        var fails := Fails();
        if fails { return false; }
        var changed: nat := *;
        RemoveStep(GutBackup(changed));
      }
      var fails := Fails();
      if fails { return false; }
      RemoveStep(UnlinkBackup);
      ok := Sync();
    }

    method RemoveStep(op: Op)
      requires Sound() && at.completed && MayRemove(now) && (op.GutBackup? || op == UnlinkBackup)
      requires forall d :: d in at.possible ==> Records(d, Completed)
      modifies this
      ensures Sound() && old(history) <= history && Proceeded() && at.tamperings == old(at).tamperings
      ensures now == Apply(op, old(now))
      ensures forall d :: d in at.possible ==> Records(d, Completed)
    {
      hide SafeMoment, Recorded, Harmless, After, Tame, Quiet, Apply;
      RemovalIsHarmless(plan, orderly, at, op);
      ChangedSafe(plan, orderly, at, op);
      Change(op);
    }
  }

  /** LinuxFileTransaction.  A method that returns false has thrown. */
  class LinuxFileTransaction {
    const directory: Directory
    /** The identities that the mount guard read when the transaction was opened. */
    const targetIdentity: Identity
    const stageIdentity: Identity
    var journal: Option<Journal>
    var journalPersisted: bool
    var executionStarted: bool

    ghost predicate Valid()
      reads this, directory
    {
      && directory.Sound()
      && targetIdentity.inode == directory.plan.oldRoot
      && (journal.Some? ==> journalPersisted && journal.value.state == Prepared && journal.value.target == targetIdentity)
      && (executionStarted ==> journalPersisted)
      && (!executionStarted ==> AllUnmoved(directory.plan, directory.at) && NotBeyondPrepared(directory.now))
      && (!executionStarted && directory.orderly ==> directory.Synced() && directory.now.journal == journal)
    }

    /** Every method continues the run, keeps to the contract's transitions and rewinds nothing. */
    twostate predicate Continued()
      reads this, directory
    {
      && Valid() && old(directory.history) <= directory.history && directory.lawful == old(directory.lawful)
      && directory.at.rewound == old(directory.at).rewound
    }

    constructor (directory: Directory)
      requires directory.Sound() && directory.Synced() && !directory.at.Tampered()
      requires directory.now.stage.Some? && directory.now.journal.None? && Unmoved(directory.plan, directory.now)
      ensures Valid() && this.directory == directory
      ensures journal.None? && !journalPersisted && !executionStarted
      ensures Exact(directory.now.target, targetIdentity) && Exact(directory.now.stage, stageIdentity)
    {
      this.directory := directory;
      targetIdentity := directory.now.target.value.id;
      stageIdentity := directory.now.stage.value.id;
      journal := None;
      journalPersisted := false;
      executionStarted := false;
    }

    /** The destructor: a transaction that never wrote a journal gives its lock back. */
    method Dispose()
      requires Valid()
      modifies directory
      ensures Continued()
      ensures directory.now == old(directory.now).(lock := directory.now.lock)
      ensures journalPersisted ==> directory.now == old(directory.now)
      ensures directory.reliable && !journalPersisted ==> !directory.now.lock && directory.at.possible == {directory.now}
    {
      hide SafeMoment, Recorded, AllUnmoved;
      if !journalPersisted {
        var fails := directory.Fails();
        if !fails {
          directory.ReleaseLock();
          if AllUnmoved(directory.plan, directory.at) { UnmovedFlushed(directory.plan, directory.orderly, directory.at); }
          var _ := directory.Sync();
        }
      }
    }

    method PrepareDurableJournal() returns (ok: bool)
      requires Valid()
      modifies this`journal, this`journalPersisted, directory
      ensures Continued()
      ensures ok ==> journal.Some?
      ensures executionStarted ==> !ok && directory.now == old(directory.now)
      ensures ok && old(journal).None? ==>
        && journal == Some(Journal(Prepared, targetIdentity, stageIdentity))
        && directory.Synced() && directory.now == old(directory.now).(journal := journal, next := false)
        && Exact(directory.now.target, targetIdentity) && Exact(directory.now.stage, stageIdentity)
        && Verified(directory.plan, directory.now.stage)
      ensures old(journal).Some? ==>
        directory.now == old(directory.now) && journal == old(journal)
      ensures directory.reliable && Startable(old(directory.now)) && !executionStarted ==> ok
    {
      hide SafeMoment, Recorded, AllUnmoved, Harmless, Quiet;
      if executionStarted { return false; }
      if journal.Some? { return true; }
      var now := directory.now;
      if !Exact(now.target, targetIdentity) || !Exact(now.stage, stageIdentity) { return false; }
      if !Verified(directory.plan, now.stage) { return false; }
      journalPersisted := true;
      var record := Journal(Prepared, targetIdentity, stageIdentity);
      PreparedIsHarmless(directory.plan, directory.orderly, directory.at, record);
      ok := directory.Persist(record);
      if ok { journal := Some(record); }
    }

    /** What PrepareDurableJournal asks of the directory. */
    ghost predicate Startable(d: Dir)
    {
      && !d.next && Exact(d.target, targetIdentity) && Exact(d.stage, stageIdentity)
      && Verified(directory.plan, d.stage)
    }

    method CancelPrepared() returns (ok: bool)
      requires Valid()
      modifies this, directory
      ensures Continued() && executionStarted == old(executionStarted)
      ensures ok ==>
        && journal.None? && !journalPersisted
        && directory.Synced() && directory.now == old(directory.now).(journal := None, lock := false)
        && old(journal).Some? && Exact(directory.now.target, old(journal).value.target)
        && Exact(directory.now.stage, old(journal).value.stage)
      ensures ok && !directory.at.Tampered() ==> OldAt(directory.plan, directory.now.target)
      ensures old(journal).None? || executionStarted ==> !ok && directory.now == old(directory.now)
      ensures directory.reliable && old(journal).Some? && !executionStarted
           && Exact(old(directory.now).target, old(journal).value.target)
           && Exact(old(directory.now).stage, old(journal).value.stage)
          ==> ok
      ensures old(journal).Some? && !(Exact(old(directory.now).target, old(journal).value.target)
                                      && Exact(old(directory.now).stage, old(journal).value.stage))
          ==> !ok && directory.now == old(directory.now)
    {
      hide Admits, Tame, Recorded, Harmless, Quiet;
      if journal.None? || executionStarted { return false; }
      var now := directory.now;
      if !Exact(now.target, journal.value.target) || !Exact(now.stage, journal.value.stage) { return false; }
      UnmovedCancels(directory.plan, directory.orderly, directory.at);
      ok := directory.Remove();
      if ok {
        journal := None;
        journalPersisted := false;
      }
    }

    /** Whatever fails and whoever interferes, the run continues safely at every moment; a
        return means that the verified payload is in place and nothing is left behind. */
    method Execute() returns (ok: bool)
      requires Valid()
      modifies this, directory
      ensures Continued()
      ensures ok ==> Verified(directory.plan, directory.now.target) && CleanedUp(directory.now) && directory.Synced()
      ensures ok && !directory.at.Tampered() ==> NewAt(directory.plan, directory.now.target)
      ensures ok ==> directory.now.target.Some? && directory.now.target.value.payload == directory.plan.payload
      ensures old(executionStarted) ==> !ok && directory.now == old(directory.now)
      ensures directory.reliable && old(Ready()) ==> ok
    {
      hide SafeMoment, Recorded, Settled;
      if journal.None? {
        var prepared := PrepareDurableJournal();
        if !prepared { return false; }
      }
      if executionStarted { return false; }
      executionStarted := true;
      var j := journal.value;
      ok, j := MoveStage(directory, j);
      if !ok { return; }
      ok, j := MoveTarget(directory, j);
      if !ok { return; }
      ok, j := Activate(directory, j);
      if !ok { return; }
      ok := Finish(directory, j);
    }

    /** Nothing in the directory stands in the way of a run without faults. */
    ghost predicate Ready()
      reads this, directory
    {
      var d := directory.now;
      && !executionStarted && Startable(d) && d.prepared.None?
      && (journal.Some? ==> journal.value == Journal(Prepared, targetIdentity, stageIdentity))
    }
  }

  predicate NotBeyondPrepared(d: Dir) { d.journal.Some? ==> d.journal.value.state == Prepared }

  predicate CleanedUp(d: Dir) { d.backup.None? && d.journal.None? && !d.lock }

  predicate Swapped(p: Plan, d: Dir) { NewAt(p, d.target) && CleanedUp(d) }

  /** The tree that the next step of a run without faults will find. */
  predicate Staged(p: Plan, d: Dir, j: Journal)
  {
    !d.next && d.stage.None? && Exact(d.prepared, j.stage) && Verified(p, d.prepared)
  }

  lemma PreparedIsHarmless(p: Plan, orderly: bool, m: Moment, j: Journal)
    requires SafeMoment(p, orderly, m) && AllUnmoved(p, m) && j.state == Prepared && j.target.inode == p.oldRoot
    requires orderly ==> m.possible == {m.now} && m.now.journal.None? && ReadyTree(p, m.now.stage, j.stage) && Exact(m.now.target, j.target)
    ensures Harmless(p, orderly, m, ReplaceJournal(j)) && Quiet(p, m, ReplaceJournal(j))
  {
    hide Image, OldIntact, Orderly, Tame;
    PlainIsQuiet(p, m, ReplaceJournal(j));
    if !m.Tampered() {
      forall d | d in m.possible
        ensures Admits(p, orderly, m.completed, Apply(ReplaceJournal(j), d))
      {
        PreparedIsRecorded(p, d, j);
      }
    }
  }

  lemma UnmovedCancels(p: Plan, orderly: bool, m: Moment)
    requires SafeMoment(p, orderly, m) && AllUnmoved(p, m)
    requires orderly ==> m.possible == {m.now} && m.now.stage.Some?
    ensures Harmless(p, orderly, m, UnlinkJournal)
  {
    hide Image, OldIntact, Tame;
    if !m.Tampered() {
      forall d | d in m.possible
        ensures Admits(p, orderly, m.completed, Apply(UnlinkJournal, d))
      {
        JournalIsRemoved(p, d);
      }
    }
  }

  /** Lines 209 to 220 of Execute: stage to prepared. */
  method MoveStage(directory: Directory, j: Journal) returns (ok: bool, record: Journal)
    requires directory.Sound() && j.state == Prepared && j.target.inode == directory.plan.oldRoot
    requires AllUnmoved(directory.plan, directory.at) && NotBeyondPrepared(directory.now)
    requires directory.orderly ==> directory.Synced() && directory.now.journal == Some(j)
    modifies directory
    ensures directory.Sound() && old(directory.history) <= directory.history && directory.Proceeded()
    ensures ok ==> directory.now.journal == Some(record) && Settled(directory.at)
    ensures ok && !directory.at.Tampered() ==> Unmoved(directory.plan, directory.now)
    ensures ok && directory.orderly ==> directory.Synced()
    ensures record == j.(stage := record.stage)
    ensures directory.reliable && Exact(old(directory.now).stage, j.stage)
         && Verified(directory.plan, old(directory.now).stage)
         && old(directory.now).prepared.None? && !old(directory.now).next
        ==> (ok && Staged(directory.plan, directory.now, record)
             && directory.now.target == old(directory.now).target)
    ensures directory.reliable && !Exact(old(directory.now).stage, j.stage) ==> !ok && directory.now == old(directory.now)
  {
    hide Recorded, SafeMoment, Settled, AllUnmoved;
    record := j;
    ok := directory.Hit();
    if !ok { return; }
    if !Exact(directory.now.stage, j.stage) || directory.now.prepared.Some? { return false, j; }
    ok, record := RenameStage(directory, j);
  }

  method RenameStage(directory: Directory, j: Journal) returns (ok: bool, record: Journal)
    requires directory.Sound() && j.state == Prepared && j.target.inode == directory.plan.oldRoot
    requires directory.now.stage.Some? && directory.now.prepared.None?
    requires AllUnmoved(directory.plan, directory.at) && NotBeyondPrepared(directory.now)
    requires directory.orderly ==> directory.Synced() && directory.now.journal == Some(j)
    modifies directory
    ensures directory.Sound() && old(directory.history) <= directory.history && directory.Proceeded()
    ensures ok ==> directory.now.journal == Some(record) && Settled(directory.at)
    ensures ok && !directory.at.Tampered() ==> Unmoved(directory.plan, directory.now)
    ensures ok && directory.orderly ==> directory.Synced()
    ensures record == j.(stage := record.stage)
    ensures directory.reliable && Verified(directory.plan, old(directory.now).stage) && !old(directory.now).next
        ==> (ok && Staged(directory.plan, directory.now, record)
             && directory.now.target == old(directory.now).target)
  {
    hide Recorded, SafeMoment, Settled, Harmless, Quiet, AllUnmoved;
    record := j;
    var fails := directory.Fails();
    if fails { return false, j; }
    var moved := directory.Renamed(directory.now.stage.value);
    StageMoveIsHarmless(directory.plan, directory.orderly, directory.at, moved);
    ghost var before := directory.now;
    ok := directory.Rename(StageToPrepared(moved));
    if !ok { return; }
    if directory.now.prepared.None? { return false, j; }
    record := j.(stage := directory.now.prepared.value.id);
    StageRecordIsHarmless(directory.plan, directory.orderly, directory.at, before, record);
    ok := directory.Record(record);
  }

  lemma StageMoveIsHarmless(p: Plan, orderly: bool, m: Moment, moved: Node)
    requires SafeMoment(p, orderly, m) && AllUnmoved(p, m) && m.now.stage.Some? && SameTree(moved, m.now.stage.value)
    requires orderly ==> m.possible == {m.now} && m.now.journal.Some?
    ensures Harmless(p, orderly, m, StageToPrepared(moved)) && Quiet(p, m, StageToPrepared(moved))
    ensures !m.Tampered() ==> Unmoved(p, m.now)
  {
    hide Image, OldIntact, Orderly, Tame;
    PlainIsQuiet(p, m, StageToPrepared(moved));
    if !m.Tampered() {
      ImageNames(p, m.now);
      forall d | d in m.possible
        ensures Admits(p, orderly, m.completed, Apply(StageToPrepared(moved), d))
      {
        StageMoves(p, d, moved);
      }
    }
  }

  lemma StageRecordIsHarmless(p: Plan, orderly: bool, m: Moment, before: Dir, j: Journal)
    requires SafeMoment(p, orderly, m) && m.possible == {m.now} && j.state == Prepared && j.target.inode == p.oldRoot
    requires !m.Tampered() ==> Unmoved(p, m.now)
    requires orderly ==>
      m.now.journal.Some? && m.now.stage.None? && Exact(m.now.prepared, j.stage) && m.now.journal.value.target == j.target
    ensures Harmless(p, orderly, m, ReplaceJournal(j)) && Quiet(p, m, ReplaceJournal(j))
  {
    hide Image, OldIntact, Orderly, Tame;
    PlainIsQuiet(p, m, ReplaceJournal(j));
    if !m.Tampered() { PreparedIsRecorded(p, m.now, j); }
  }

  /** Lines 222 to 238: target to backup. */
  method MoveTarget(directory: Directory, j: Journal) returns (ok: bool, record: Journal)
    requires directory.Sound() && directory.now.journal == Some(j) && j.state == Prepared && Settled(directory.at)
    requires !directory.at.Tampered() ==> Unmoved(directory.plan, directory.now)
    requires directory.orderly ==> directory.Synced()
    modifies directory
    ensures directory.Sound() && old(directory.history) <= directory.history && directory.Proceeded()
    ensures ok ==> directory.now.journal == Some(record) && Settled(directory.at)
    ensures ok && !directory.at.Tampered() ==> directory.now.target.None?
    ensures ok && directory.orderly ==> directory.Synced()
    ensures ok ==> record == Journal(BackupCreated, record.target, j.stage)
    ensures directory.reliable && Exact(old(directory.now).target, j.target)
         && Staged(directory.plan, old(directory.now), j)
        ==> ok && Staged(directory.plan, directory.now, record)
    ensures directory.reliable && !(Exact(old(directory.now).target, j.target) && Exact(old(directory.now).prepared, j.stage)
                                    && Verified(directory.plan, old(directory.now).prepared))
        ==> !ok && directory.now == old(directory.now)
  {
    hide Recorded, SafeMoment, Settled, AllUnmoved;
    record := j;
    ok := directory.Hit();
    if !ok { return; }
    var now := directory.now;
    if !Exact(now.target, j.target) || !Exact(now.prepared, j.stage) ||
       !Verified(directory.plan, now.prepared) || now.backup.Some? {
      return false, j;
    }
    ok, record := RenameTarget(directory, j);
  }

  method RenameTarget(directory: Directory, j: Journal) returns (ok: bool, record: Journal)
    requires directory.Sound() && directory.now.journal == Some(j) && j.state == Prepared && Settled(directory.at)
    requires Exact(directory.now.target, j.target) && directory.now.backup.None? && directory.now.prepared.Some?
    requires !directory.at.Tampered() ==> Unmoved(directory.plan, directory.now)
    requires directory.orderly ==> directory.Synced()
    modifies directory
    ensures directory.Sound() && old(directory.history) <= directory.history && directory.Proceeded()
    ensures ok ==> directory.now.journal == Some(record) && Settled(directory.at)
    ensures ok && !directory.at.Tampered() ==> directory.now.target.None?
    ensures ok && directory.orderly ==> directory.Synced()
    ensures ok ==> record == Journal(BackupCreated, record.target, j.stage)
    ensures directory.reliable && Staged(directory.plan, old(directory.now), j)
        ==> ok && Staged(directory.plan, directory.now, record)
  {
    hide Recorded, SafeMoment, Settled, Harmless, Quiet;
    record := j;
    var fails := directory.Fails();
    if fails { return false, j; }
    var moved := directory.Renamed(directory.now.target.value);
    TargetMoveIsHarmless(directory.plan, directory.orderly, directory.at, moved);
    ok := directory.Rename(TargetToBackup(moved));
    if !ok { return; }
    if directory.now.backup.None? { return false, j; }
    record := Journal(BackupCreated, directory.now.backup.value.id, j.stage);
    BackupRecordIsHarmless(directory.plan, directory.orderly, directory.at, record);
    ok := directory.Record(record);
  }

  lemma TargetMoveIsHarmless(p: Plan, orderly: bool, m: Moment, moved: Node)
    requires SafeMoment(p, orderly, m) && Settled(m) && Records(m.now, Prepared) && m.now.target.Some? && m.now.prepared.Some?
    requires SameTree(moved, m.now.target.value) && (!m.Tampered() ==> Unmoved(p, m.now))
    requires orderly ==> m.possible == {m.now}
    ensures Harmless(p, orderly, m, TargetToBackup(moved)) && Quiet(p, m, TargetToBackup(moved))
    ensures !m.Tampered() ==> OldAt(p, Some(moved))
  {
    hide Image, OldIntact, Orderly, Tame;
    if !m.Tampered() {
      forall d | d in m.possible
        ensures Admits(p, orderly, m.completed, Apply(TargetToBackup(moved), d))
        ensures !Records(Apply(TargetToBackup(moved), d), TargetActivated)
      {
        TargetMoves(p, d, moved);
      }
      OtherStateIsQuiet(p, m, TargetToBackup(moved));
    } else {
      TamperedIsHarmless(p, orderly, m, TargetToBackup(moved));
    }
  }

  lemma BackupRecordIsHarmless(p: Plan, orderly: bool, m: Moment, j: Journal)
    requires SafeMoment(p, orderly, m) && m.possible == {m.now} && m.now.backup.Some? && Records(m.now, Prepared)
    requires j.state == BackupCreated && j.target == m.now.backup.value.id && j.stage == m.now.journal.value.stage
    requires !m.Tampered() ==> m.now.target.None? && OldAt(p, m.now.backup)
    ensures Harmless(p, orderly, m, ReplaceJournal(j)) && Quiet(p, m, ReplaceJournal(j)) && Lawful(m.now, j)
  {
    hide Image, OldIntact, Orderly, Tame;
    PlainIsQuiet(p, m, ReplaceJournal(j));
    if !m.Tampered() { BackupIsRecorded(p, m.now, j); }
  }

  /** Lines 240 to 256: prepared to target. */
  method Activate(directory: Directory, j: Journal) returns (ok: bool, record: Journal)
    requires directory.Sound() && directory.now.journal == Some(j) && j.state == BackupCreated && Settled(directory.at)
    requires !directory.at.Tampered() ==> directory.now.target.None?
    requires directory.orderly ==> directory.Synced()
    modifies directory
    ensures directory.Sound() && old(directory.history) <= directory.history && directory.Proceeded()
    ensures ok ==> directory.now.journal == Some(record) && Settled(directory.at)
    ensures ok && directory.orderly ==> directory.Synced()
    ensures ok ==> record == Journal(TargetActivated, j.target, record.stage)
    ensures directory.reliable && Staged(directory.plan, old(directory.now), j)
        ==> ok && !directory.now.next && directory.now.target.Some? && directory.now.target.value.id.inode == record.stage.inode
    ensures directory.reliable && !(Exact(old(directory.now).backup, j.target) && Exact(old(directory.now).prepared, j.stage)
                                    && Verified(directory.plan, old(directory.now).prepared))
        ==> !ok && directory.now == old(directory.now)
  {
    hide Recorded, Settled, AllUnmoved, Image, OldIntact, Orderly;
    record := j;
    if !directory.at.Tampered() { ImageNames(directory.plan, directory.now); }
    ok := directory.Hit();
    if !ok { return; }
    var now := directory.now;
    if !Exact(now.backup, j.target) || !Exact(now.prepared, j.stage) || !Verified(directory.plan, now.prepared) ||
       now.target.Some? {
      return false, j;
    }
    ok, record := RenamePrepared(directory, j);
  }

  method RenamePrepared(directory: Directory, j: Journal) returns (ok: bool, record: Journal)
    requires directory.Sound() && directory.now.journal == Some(j) && j.state == BackupCreated && Settled(directory.at)
    requires Exact(directory.now.backup, j.target) && ReadyTree(directory.plan, directory.now.prepared, j.stage)
    requires directory.now.target.None? && (directory.orderly ==> directory.Synced())
    modifies directory
    ensures directory.Sound() && old(directory.history) <= directory.history && directory.Proceeded()
    ensures ok ==> directory.now.journal == Some(record) && Settled(directory.at)
    ensures ok && directory.orderly ==> directory.Synced()
    ensures ok ==> record == Journal(TargetActivated, j.target, record.stage)
    ensures directory.reliable && !old(directory.now).next
        ==> ok && !directory.now.next && directory.now.target.Some? && directory.now.target.value.id.inode == record.stage.inode
  {
    hide Recorded, SafeMoment, Settled, Harmless, Quiet;
    record := j;
    var fails := directory.Fails();
    if fails { return false, j; }
    var moved := directory.Renamed(directory.now.prepared.value);
    PreparedMoveIsHarmless(directory.plan, directory.orderly, directory.at, moved);
    ok := directory.Rename(PreparedToTarget(moved));
    if !ok { return; }
    if directory.now.target.None? { return false, j; }
    record := Journal(TargetActivated, j.target, directory.now.target.value.id);
    ActivationRecordIsHarmless(directory.plan, directory.orderly, directory.at, record);
    ok := directory.Record(record);
  }

  lemma PreparedMoveIsHarmless(p: Plan, orderly: bool, m: Moment, moved: Node)
    requires SafeMoment(p, orderly, m) && Settled(m) && m.now.target.None?
    requires Records(m.now, BackupCreated) || Records(m.now, Prepared)
    requires Verified(p, m.now.prepared) && SameTree(moved, m.now.prepared.value)
    requires orderly ==> m.possible == {m.now}
    ensures Harmless(p, orderly, m, PreparedToTarget(moved)) && Quiet(p, m, PreparedToTarget(moved))
    ensures !m.Tampered() ==> NewAt(p, Some(moved)) && OldAt(p, m.now.backup)
    ensures orderly && !m.Tampered() ==> m.now.stage.None?
  {
    hide Image, OldIntact, Tame;
    if !m.Tampered() {
      ImageNames(p, m.now);
      forall d | d in m.possible
        ensures Admits(p, orderly, m.completed, Apply(PreparedToTarget(moved), d))
        ensures !Records(Apply(PreparedToTarget(moved), d), TargetActivated)
      {
        PreparedMoves(p, d, moved);
      }
      OtherStateIsQuiet(p, m, PreparedToTarget(moved));
    } else {
      TamperedIsHarmless(p, orderly, m, PreparedToTarget(moved));
    }
  }

  lemma ActivationRecordIsHarmless(p: Plan, orderly: bool, m: Moment, j: Journal)
    requires SafeMoment(p, orderly, m) && m.possible == {m.now} && m.now.journal.Some?
    requires j.state == TargetActivated && j.target == m.now.journal.value.target
    requires !m.Tampered() ==> NewAt(p, m.now.target) && OldAt(p, m.now.backup) && Exact(m.now.backup, j.target)
    requires orderly ==> m.now.stage.None? && m.now.prepared.None?
    requires m.now.target.Some? && j.stage == m.now.target.value.id
    ensures Harmless(p, orderly, m, ReplaceJournal(j)) && Quiet(p, m, ReplaceJournal(j))
    ensures Records(m.now, BackupCreated) ==> Lawful(m.now, j)
  {
    hide Image, Orderly;
    if !m.Tampered() {
      ActivationIsRecorded(p, m.now, j);
    } else {
      TamperedIsHarmless(p, orderly, m, ReplaceJournal(j));
    }
  }

  /** Lines 258 to 271: finalise the root, record completion, drop the backup and the journal. */
  method Finish(directory: Directory, j: Journal) returns (ok: bool)
    requires directory.Sound() && directory.now.journal == Some(j) && j.state == TargetActivated && Settled(directory.at)
    requires directory.orderly ==> directory.Synced()
    modifies directory
    ensures directory.Sound() && old(directory.history) <= directory.history
    ensures directory.lawful == old(directory.lawful) && directory.at.rewound == old(directory.at).rewound
    ensures ok ==> Verified(directory.plan, directory.now.target) && CleanedUp(directory.now) && directory.Synced()
    ensures ok && !directory.at.Tampered() ==> NewAt(directory.plan, directory.now.target)
    ensures directory.reliable && !old(directory.now).next && old(directory.now).target.Some?
         && old(directory.now).target.value.id.inode == j.stage.inode
        ==> ok
  {
    hide Recorded, SafeMoment, Harmless, Quiet, Image, Orderly, OldIntact;
    if directory.now.target.None? { return false; }
    var fails := directory.Fails();
    if fails { return false; }
    CompletionIsHarmless(directory.plan, directory.orderly, directory.at, j);
    directory.FinaliseRoot();
    if directory.now.target.value.id.inode != j.stage.inode || !Verified(directory.plan, directory.now.target) {
      return false;
    }
    PlainIsQuiet(directory.plan, directory.at, ReplaceJournal(j.(state := Completed)));
    ok := directory.Persist(j.(state := Completed));
    if !ok { return; }
    ok := CleanUp(directory, j.target);
  }

  lemma CompletionIsHarmless(p: Plan, orderly: bool, m: Moment, j: Journal)
    requires SafeMoment(p, orderly, m) && Settled(m) && m.now.journal == Some(j) && j.state == TargetActivated
    requires orderly ==> m.possible == {m.now} && !m.Tampered()
    ensures Harmless(p, orderly, m, ReplaceJournal(j.(state := Completed)))
    ensures !m.Tampered() ==> NewAt(p, m.now.target) && Exact(m.now.backup, j.target)
    ensures orderly ==> forall d :: d in m.possible ==> d.stage.None? && d.prepared.None?
  {
    hide Tame;
    if !m.Tampered() {
      forall d | d in m.possible
        ensures Admits(p, orderly, m.completed, Apply(ReplaceJournal(j.(state := Completed)), d))
      {
        CompletionIsRecorded(p, d, j.(state := Completed));
      }
    }
  }

  /** The backup goes, then the journal and the lock. */
  method CleanUp(directory: Directory, target: Identity) returns (ok: bool)
    requires directory.Sound() && directory.Synced() && directory.at.completed && Records(directory.now, Completed)
    requires directory.now.journal.value.target == target
    modifies directory
    ensures directory.Sound() && old(directory.history) <= directory.history && directory.Proceeded()
    ensures directory.at.tamperings == old(directory.at).tamperings
    ensures directory.now == old(directory.now).(
      backup := directory.now.backup, journal := directory.now.journal, lock := directory.now.lock)
    ensures ok ==> CleanedUp(directory.now) && directory.Synced()
    ensures directory.reliable && Exact(old(directory.now).backup, target) ==> ok
  {
    hide Recorded, SafeMoment, Harmless, Quiet, Image, Orderly, OldIntact;
    ok := directory.RemoveBackup(target);
    if !ok { return; }
    CompletedCleans(directory.plan, directory.orderly, directory.at);
    ok := directory.Remove();
  }

  lemma CompletedCleans(p: Plan, orderly: bool, m: Moment)
    requires SafeMoment(p, orderly, m) && m.possible == {m.now} && Records(m.now, Completed) && m.now.backup.None?
    ensures Harmless(p, orderly, m, UnlinkJournal)
  {
    hide Tame;
    if !m.Tampered() { JournalIsRemoved(p, m.now); }
  }

  datatype Use = DoPrepare | DoCancel | DoExecute

  /**
   Any calls in any order on one transaction, whatever fails and whoever interferes, and
   then the destructor.  The whole is one run; all its journal writes obey the transition
   table of the contract; it rewinds nothing; and until somebody touches the target or the
   backup, a crash at any moment on the way is safe, and leaves the old tree intact unless a
   completed record had become durable by then.
   */
  method AnyUse(plan: Plan, start: Dir, uses: seq<Use>) returns (directory: Directory)
    requires Image(plan, start) && Unmoved(plan, start) && start.stage.Some? && start.journal.None?
    ensures fresh(directory) && directory.history != [] && IsRun(plan, directory.history) && LawfulRun(directory.history)
    ensures directory.history[0] == Moment(start, {start}, false, 0, false)
    ensures forall i, d :: 0 <= i < |directory.history| && !directory.history[i].Tampered() && d in directory.history[i].possible ==>
              CrashSafe(plan, d) && (OldIntact(plan, d) || CompletedBy(directory.history, i))
  {
    hide Recorded, Image, OldIntact, CrashSafe, CompletedBy, SafeMoment, LawfulRun, Rewound;
    directory := AnyRun(plan, start, false, uses);
    ghost var h := directory.history;
    forall i, d | 0 <= i < |h| && !h[i].Tampered() && d in h[i].possible
      ensures CrashSafe(plan, d) && (OldIntact(plan, d) || CompletedBy(h, i))
    {
      FlagsStay(plan, h, i, |h| - 1);
      EveryCrashIsSafe(plan, false, h, i, d);
    }
  }

  /** The same calls, where `orderly` promises that nothing fails and nobody interferes. */
  method AnyRun(plan: Plan, start: Dir, orderly: bool, uses: seq<Use>) returns (directory: Directory)
    requires Image(plan, start) && Unmoved(plan, start) && start.stage.Some? && start.journal.None?
    requires orderly ==> start.prepared.None?
    ensures fresh(directory) && directory.history != [] && SafeRun(plan, orderly, directory.history) && LawfulRun(directory.history)
    ensures directory.history[0] == Moment(start, {start}, false, 0, false)
    ensures !directory.history[|directory.history| - 1].rewound
    ensures orderly ==> !directory.history[|directory.history| - 1].Tampered()
  {
    hide Recorded, Image, OldIntact, SafeMoment, LawfulRun, IsRun;
    StartIsIntact(plan, start);
    directory := new Directory(plan, orderly, orderly, start);
    var t := new LinuxFileTransaction(directory);
    ghost var begin := directory.history;
    for i := 0 to |uses|
      invariant t.Valid() && t.directory == directory && begin <= directory.history
      invariant directory.lawful && !directory.at.rewound
    {
      match uses[i] {
        case DoPrepare => var _ := t.PrepareDurableJournal();
        case DoCancel => var _ := t.CancelPrepared();
        case DoExecute => var _ := t.Execute();
      }
    }
    t.Dispose();
    RecordIsSafe(plan, orderly, directory.history, directory.at, directory.lawful);
    assert directory.history[0] == begin[0];
  }

  lemma StartIsIntact(p: Plan, d: Dir)
    requires Unmoved(p, d)
    ensures OldIntact(p, d) && !Rewound(p, d) && (d.journal.None? && d.prepared.None? ==> Orderly(p, d))
  {
  }

  /** Where nothing fails and nobody interferes, a crash at any moment leaves every tree under
      its one name, so that RecoverableExactly and StrandedExactly decide what recovery makes of it. */
  method OrderlyUse(plan: Plan, start: Dir, uses: seq<Use>) returns (directory: Directory)
    requires Image(plan, start) && Unmoved(plan, start) && start.stage.Some? && start.journal.None? && start.prepared.None?
    ensures fresh(directory)
    ensures forall i, d :: 0 <= i < |directory.history| && d in directory.history[i].possible ==> Image(plan, d) && Orderly(plan, d)
  {
    hide Recorded, Image, OldIntact, CrashSafe, CompletedBy, SafeMoment, LawfulRun, Rewound, Orderly;
    directory := AnyRun(plan, start, true, uses);
    ghost var h := directory.history;
    forall i, d | 0 <= i < |h| && d in h[i].possible
      ensures Image(plan, d) && Orderly(plan, d)
    {
      FlagsStay(plan, h, i, |h| - 1);
      EveryCrashIsSafe(plan, true, h, i, d);
    }
  }
}
