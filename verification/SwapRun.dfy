/**
 Runs over a directory that may forget what was not synced
 (linux_file_transaction.cc, linux_transaction_journal.cc).

 Each directory operation issued since the last sync may or may not survive a crash,
 independently of the others.  A run is the sequence of all its moments, each one
 directory operation or one sync after the one before it.
 */
module SwapRun {
  import opened SortedMap
  import opened SwapModel
  import Contract = InstallContract

  /** The operations on the parent directory.  Interference and Tampering are those of others. */
  datatype Op =
    | StageToPrepared(moved: Node)
    | TargetToBackup(moved: Node)
    | PreparedToTarget(moved: Node)
    | TouchTarget(changed: nat)
    | CreateNext
    | ReplaceJournal(journal: Journal)
    | UnlinkJournal
    | UnlinkLock
    | GutBackup(changed: nat)
    | UnlinkBackup
    | Interference(stage: Option<Node>, prepared: Option<Node>)
    | Tampering(target: Option<Node>, backup: Option<Node>)

  function Apply(op: Op, d: Dir): Dir
  {
    match op
    case StageToPrepared(moved) => d.(stage := None, prepared := Some(moved))
    case TargetToBackup(moved) => d.(target := None, backup := Some(moved))
    case PreparedToTarget(moved) => d.(prepared := None, target := Some(moved))
    case TouchTarget(changed) => TouchRoot(d, changed)
    case CreateNext => d.(next := true)
    case ReplaceJournal(j) => d.(journal := Some(j), next := false)
    case UnlinkJournal => d.(journal := None)
    case UnlinkLock => d.(lock := false)
    case GutBackup(changed) =>
      if d.backup.None? then d
      else
        var root := d.backup.value;
        d.(backup := Some(root.(whole := false, id := root.id.(changed := changed))))
    case UnlinkBackup => d.(backup := None)
    case Interference(stage, prepared) => d.(stage := stage, prepared := prepared)
    case Tampering(target, backup) => d.(target := target, backup := backup)
  }

  /** The same tree after a rename, which may change its change time. */
  predicate SameTree(moved: Node, n: Node) { moved == n.(id := n.id.(changed := moved.id.changed)) }

  /** A tree is moved only from where it is to where nothing is; the target is moved only if it
      is exactly what the journal calls the old tree; the new tree is activated only if it and
      the backup are exactly what the journal says; and a backup is removed only if its root is
      the old one and completion is recorded. */
  predicate Guarded(d: Dir, op: Op)
  {
    match op
    case StageToPrepared(moved) => d.stage.Some? && d.prepared.None? && SameTree(moved, d.stage.value)
    case TargetToBackup(moved) =>
      d.journal.Some? && Exact(d.target, d.journal.value.target) && d.backup.None? && SameTree(moved, d.target.value)
    case PreparedToTarget(moved) =>
      && d.journal.Some? && Exact(d.prepared, d.journal.value.stage) && Exact(d.backup, d.journal.value.target)
      && d.target.None? && SameTree(moved, d.prepared.value)
    case GutBackup(_) => MayRemove(d)
    case UnlinkBackup => MayRemove(d)
    case _ => true
  }

  predicate MayRemove(d: Dir)
  {
    Records(d, Completed) && d.backup.Some? && d.backup.value.id.inode == d.journal.value.target.inode
  }

  //
  // Moments
  //

  /** What the process sees, what a crash can leave, whether a completed record has become
      durable, how often somebody has touched the target or the backup, and whether a crash
      could have left a rewound record. */
  datatype Moment = Moment(now: Dir, possible: set<Dir>, completed: bool, tamperings: nat, rewound: bool)
  {
    predicate Tampered() { tamperings > 0 }
  }

  ghost predicate Tame(p: Plan, possible: set<Dir>)
  {
    forall d :: d in possible ==> !Rewound(p, d)
  }

  /** A directory operation may or may not survive, whichever earlier ones did. */
  ghost function After(op: Op, possible: set<Dir>): set<Dir>
  {
    possible + set d | d in possible :: Apply(op, d)
  }

  ghost function Changed(p: Plan, m: Moment, op: Op): Moment
  {
    var possible, tamperings := After(op, m.possible), if op.Tampering? then m.tamperings + 1 else m.tamperings;
    Moment(Apply(op, m.now), possible, m.completed, tamperings, m.rewound || (tamperings == 0 && !Tame(p, possible)))
  }

  /** A sync makes everything durable, and with it perhaps a completed record. */
  ghost function Flushed(m: Moment): Moment
  {
    m.(possible := {m.now}, completed := m.completed || Records(m.now, Completed))
  }

  /** What holds of an image that a crash may leave. */
  ghost predicate Admits(p: Plan, orderly: bool, completed: bool, d: Dir)
  {
    Image(p, d) && (!completed ==> OldIntact(p, d)) && (orderly ==> Orderly(p, d))
  }

  /** Unless somebody has touched the target or the backup, every crash at this moment is safe. */
  ghost predicate SafeMoment(p: Plan, orderly: bool, m: Moment)
  {
    && m.now in m.possible
    && (!m.Tampered() ==> forall d :: d in m.possible ==> Admits(p, orderly, m.completed, d))
    && (!m.Tampered() && !m.rewound ==> Tame(p, m.possible))
  }

  /** Whatever earlier operations were lost, losing or keeping this one is safe. */
  ghost predicate Harmless(p: Plan, orderly: bool, m: Moment, op: Op)
  {
    !m.Tampered() && !op.Tampering? ==> forall d :: d in m.possible ==> Admits(p, orderly, m.completed, Apply(op, d))
  }

  /** The operation makes no record a rewound one. */
  ghost predicate Quiet(p: Plan, m: Moment, op: Op)
  {
    !m.Tampered() && Tame(p, m.possible) ==> Tame(p, After(op, m.possible))
  }

  lemma ChangedSafe(p: Plan, orderly: bool, m: Moment, op: Op)
    requires SafeMoment(p, orderly, m) && Harmless(p, orderly, m, op)
    ensures SafeMoment(p, orderly, Changed(p, m, op))
    ensures Quiet(p, m, op) || op.Tampering? ==> Changed(p, m, op).rewound == m.rewound
  {
    hide Admits, Apply, Tame;
  }

  lemma FlushedSafe(p: Plan, orderly: bool, m: Moment)
    requires SafeMoment(p, orderly, m)
    ensures SafeMoment(p, orderly, Flushed(m))
  {
    hide Image, OldIntact, Orderly, Rewound;
  }

  /** The operations that cannot make a record a rewound one. */
  predicate Plain(op: Op)
  {
    match op
    case TargetToBackup(_) => false
    case PreparedToTarget(_) => false
    case GutBackup(_) => false
    case UnlinkBackup => false
    case Tampering(_, _) => false
    case ReplaceJournal(j) => j.state != TargetActivated
    case _ => true
  }

  lemma PlainOp(p: Plan, d: Dir, op: Op)
    requires !Rewound(p, d) && Plain(op)
    ensures !Rewound(p, Apply(op, d))
  {
  }

  lemma PlainIsQuiet(p: Plan, m: Moment, op: Op)
    requires Plain(op)
    ensures Quiet(p, m, op)
  {
    hide Rewound, Apply, Plain;
    if Tame(p, m.possible) {
      forall d | d in m.possible
        ensures !Rewound(p, Apply(op, d))
      {
        PlainOp(p, d, op);
      }
    }
  }

  /** So is an operation after which no crash leaves a targetActivated record. */
  lemma OtherStateIsQuiet(p: Plan, m: Moment, op: Op)
    requires forall d :: d in m.possible ==> !Records(Apply(op, d), TargetActivated)
    ensures Quiet(p, m, op)
  {
    hide Apply;
  }

  /** Writing targetActivated is quiet exactly if the old tree is everywhere intact. */
  lemma ActivationIsQuiet(p: Plan, m: Moment, j: Journal)
    requires j.state == TargetActivated && !m.Tampered() && Tame(p, m.possible)
    ensures Quiet(p, m, ReplaceJournal(j)) <==> forall d :: d in m.possible ==> OldIntact(p, d)
  {
    forall d | d in m.possible
      ensures Apply(ReplaceJournal(j), d) in After(ReplaceJournal(j), m.possible)
      ensures Rewound(p, Apply(ReplaceJournal(j), d)) <==> !OldIntact(p, d)
    {
    }
  }

  //
  // Runs
  //

  ghost predicate NextMoment(p: Plan, a: Moment, b: Moment)
  {
    b == Flushed(a) || exists op :: b == Changed(p, a, op) && Guarded(a.now, op)
  }

  ghost predicate IsRun(p: Plan, h: seq<Moment>)
  {
    forall i :: 0 <= i < |h| - 1 ==> NextMoment(p, h[i], h[i + 1])
  }

  ghost predicate SafeRun(p: Plan, orderly: bool, h: seq<Moment>)
  {
    IsRun(p, h) && forall i :: 0 <= i < |h| ==> SafeMoment(p, orderly, h[i])
  }

  /** A journal write that repeats the state or takes a transition of the contract. */
  predicate Lawful(d: Dir, j: Journal)
  {
    d.journal.Some? && d.journal.value.state != j.state ==>
      Contract.TransitionAllowed(ContractState(d.journal.value.state), ContractState(j.state))
  }

  predicate LawfulOp(d: Dir, op: Op) { op.ReplaceJournal? ==> Lawful(d, op.journal) }

  predicate LawfulStep(before: Dir, after: Dir) { after.journal.Some? ==> Lawful(before, after.journal.value) }

  lemma LawfulOpStep(d: Dir, op: Op)
    ensures LawfulStep(d, Apply(op, d)) <==> LawfulOp(d, op)
  {
  }

  /** All journal writes of the run obey the transition table of the contract. */
  ghost predicate LawfulRun(h: seq<Moment>)
  {
    forall i :: 0 <= i < |h| - 1 ==> LawfulStep(h[i].now, h[i + 1].now)
  }

  /** A safe run that has come to the moment m, and whether it was lawful. */
  ghost predicate Recorded(p: Plan, orderly: bool, h: seq<Moment>, m: Moment, lawful: bool)
  {
    h != [] && h[|h| - 1] == m && SafeRun(p, orderly, h) && (lawful <==> LawfulRun(h))
  }

  lemma RunGrows(p: Plan, orderly: bool, h: seq<Moment>, m: Moment)
    requires h != [] && SafeRun(p, orderly, h) && NextMoment(p, h[|h| - 1], m) && SafeMoment(p, orderly, m)
    ensures SafeRun(p, orderly, h + [m]) && h <= h + [m]
    ensures LawfulRun(h + [m]) <==> LawfulRun(h) && LawfulStep(h[|h| - 1].now, m.now)
  {
    hide NextMoment, SafeMoment, LawfulStep;
    var g := h + [m];
    forall i | 0 <= i < |g| - 1
      ensures NextMoment(p, g[i], g[i + 1])
    {
      if i < |h| - 1 { assert NextMoment(p, h[i], h[i + 1]); }
    }
    if LawfulRun(g) {
      forall i | 0 <= i < |h| - 1
        ensures LawfulStep(h[i].now, h[i + 1].now)
      {
        assert LawfulStep(g[i].now, g[i + 1].now);
      }
      assert LawfulStep(g[|h| - 1].now, g[|h| - 1 + 1].now);
    }
  }

  lemma RecordChange(p: Plan, orderly: bool, h: seq<Moment>, m: Moment, lawful: bool, op: Op)
    requires SafeMoment(p, orderly, m) && Recorded(p, orderly, h, m, lawful)
    requires Harmless(p, orderly, m, op) && Guarded(m.now, op)
    ensures var n := Changed(p, m, op);
            SafeMoment(p, orderly, n) && h <= h + [n] && Recorded(p, orderly, h + [n], n, lawful && LawfulOp(m.now, op))
  {
    hide SafeRun, LawfulRun, LawfulStep, LawfulOp, Apply, SafeMoment, Harmless, Guarded;
    ChangedSafe(p, orderly, m, op);
    LawfulOpStep(m.now, op);
    RunGrows(p, orderly, h, Changed(p, m, op));
  }

  lemma RecordSync(p: Plan, orderly: bool, h: seq<Moment>, m: Moment, lawful: bool)
    requires SafeMoment(p, orderly, m) && Recorded(p, orderly, h, m, lawful)
    ensures var n := Flushed(m);
            SafeMoment(p, orderly, n) && h <= h + [n] && Recorded(p, orderly, h + [n], n, lawful)
  {
    hide SafeRun, LawfulRun, SafeMoment;
    FlushedSafe(p, orderly, m);
    RunGrows(p, orderly, h, Flushed(m));
  }

  lemma RecordIsSafe(p: Plan, orderly: bool, h: seq<Moment>, m: Moment, lawful: bool)
    requires Recorded(p, orderly, h, m, lawful)
    ensures h != [] && h[|h| - 1] == m && SafeRun(p, orderly, h) && (lawful <==> LawfulRun(h))
  {
    hide SafeRun, LawfulRun;
  }

  //
  // What runs promise
  //

  /** Somebody touched the target or the backup, completion became durable, a record was
      rewound: once that has happened it stays. */
  lemma {:induction false} FlagsStay(p: Plan, h: seq<Moment>, i: nat, j: nat)
    requires IsRun(p, h) && i <= j < |h|
    ensures (h[i].Tampered() ==> h[j].Tampered()) && (h[i].completed ==> h[j].completed) && (h[i].rewound ==> h[j].rewound)
    decreases j
  {
    if i < j {
      FlagsStay(p, h, i, j - 1);
      assert NextMoment(p, h[j - 1], h[j - 1 + 1]);
    }
  }

  /** By the i-th moment a completed record had become durable. */
  ghost predicate CompletedBy(h: seq<Moment>, i: nat)
    requires i < |h|
  {
    exists j :: 0 <= j <= i && h[j].possible == {h[j].now} && Records(h[j].now, Completed)
  }

  lemma {:induction false} CompletedWasDurable(p: Plan, h: seq<Moment>, i: nat)
    requires IsRun(p, h) && i < |h| && !h[0].completed && h[i].completed
    ensures CompletedBy(h, i)
  {
    if h[i - 1].completed {
      CompletedWasDurable(p, h, i - 1);
    } else {
      assert NextMoment(p, h[i - 1], h[i - 1 + 1]);
      assert h[i].possible == {h[i].now};
    }
  }

  /** A crash by the i-th moment could have left a rewound record. */
  ghost predicate RewoundBy(p: Plan, h: seq<Moment>, i: nat)
    requires i < |h|
  {
    exists j, d :: 0 <= j <= i && d in h[j].possible && Rewound(p, d)
  }

  lemma {:induction false} RewoundWasPossible(p: Plan, h: seq<Moment>, i: nat)
    requires IsRun(p, h) && i < |h| && !h[0].rewound && h[i].rewound
    ensures RewoundBy(p, h, i)
  {
    hide Rewound;
    if h[i - 1].rewound {
      RewoundWasPossible(p, h, i - 1);
    } else {
      assert NextMoment(p, h[i - 1], h[i - 1 + 1]);
    }
  }

  /** In every run, and as long as nobody has touched the target or the backup, a crash at any
      moment, whichever unsynced operations it loses, leaves the old tree intact unless a
      completed record had become durable by then; the target is missing only while the
      backup holds the old tree; and no journal state runs ahead of the rename that it
      records, unless it was rewound. */
  lemma EveryCrashIsSafe(p: Plan, orderly: bool, h: seq<Moment>, i: nat, d: Dir)
    requires SafeRun(p, orderly, h) && i < |h| && !h[i].Tampered() && d in h[i].possible
    ensures Image(p, d) && (CrashSafe(p, d) <==> !Rewound(p, d))
    ensures OldIntact(p, d) || h[0].completed || CompletedBy(h, i)
    ensures !h[i].rewound ==> CrashSafe(p, d)
    ensures orderly ==> Orderly(p, d)
  {
    hide Image, OldIntact, CrashSafe, NextMoment, CompletedBy, Rewound, Orderly;
    assert SafeMoment(p, orderly, h[i]);
    ImagesAreCrashSafe(p, d);
    if h[i].completed && !h[0].completed { CompletedWasDurable(p, h, i); }
  }

  /** Whatever others do, a step of the run itself moves the target away only if the journal
      calls it the old tree, to where nothing is; it puts a tree there only if the journal
      names it and the backup; otherwise it changes no more of the target than the change time
      of its root; and it touches a backup only if completion is recorded and its root is
      the old one. */
  lemma ForeignTreesStay(p: Plan, h: seq<Moment>, i: nat)
    requires IsRun(p, h) && i + 1 < |h| && h[i + 1].tamperings == h[i].tamperings
    ensures var a, b := h[i].now, h[i + 1].now;
            && (a.target.Some? && b.target.None? ==>
                  && a.journal.Some? && Exact(a.target, a.journal.value.target)
                  && a.backup.None? && b.backup.Some? && SameTree(b.backup.value, a.target.value))
            && (a.target.None? && b.target.Some? ==>
                  && a.journal.Some? && Exact(a.prepared, a.journal.value.stage) && Exact(a.backup, a.journal.value.target)
                  && SameTree(b.target.value, a.prepared.value) && b.backup == a.backup)
            && (a.target.Some? && b.target.Some? ==> SameTree(b.target.value, a.target.value))
            && (a.backup.Some? && b.backup != a.backup ==>
                  && a.journal.Some? && a.journal.value.state == Completed
                  && a.backup.value.id.inode == a.journal.value.target.inode)
  {
    assert NextMoment(p, h[i], h[i + 1]);
  }

  //
  // What single operations do to an image
  //

  /** The swap has not touched the target: the old tree is there and there is no backup. */
  predicate Unmoved(p: Plan, d: Dir)
  {
    OldAt(p, d.target) && d.backup.None? && (d.journal.Some? ==> d.journal.value.state == Prepared)
  }

  ghost predicate AllUnmoved(p: Plan, m: Moment)
  {
    !m.Tampered() ==> forall d :: d in m.possible ==> Unmoved(p, d)
  }

  /** The directory differs at most in the stage and prepared names. */
  predicate OnlyStageMoved(before: Dir, after: Dir)
  {
    after == before.(stage := after.stage, prepared := after.prepared)
  }

  /** Nothing is pending except what others did to the stage and prepared names. */
  ghost predicate Settled(m: Moment)
  {
    !m.Tampered() ==> forall d :: d in m.possible ==> OnlyStageMoved(m.now, d)
  }

  lemma UnmovedIsIntact(p: Plan, d: Dir)
    requires Unmoved(p, d)
    ensures OldIntact(p, d)
  {
  }

  /** CreateNext and UnlinkLock touch no tree and no record. */
  lemma ControlIsHarmless(p: Plan, orderly: bool, m: Moment, op: Op)
    requires SafeMoment(p, orderly, m) && (op == CreateNext || op == UnlinkLock)
    ensures Harmless(p, orderly, m, op) && Quiet(p, m, op)
    ensures AllUnmoved(p, m) ==> AllUnmoved(p, Changed(p, m, op))
  {
    hide Image, OldIntact, Orderly, Rewound;
    PlainIsQuiet(p, m, op);
    forall d | d in m.possible
      ensures Admits(p, orderly, m.completed, d) ==> Admits(p, orderly, m.completed, Apply(op, d))
      ensures Unmoved(p, d) ==> Unmoved(p, Apply(op, d))
    {
      ControlNamesDoNotMatter(p, d, Apply(op, d).next, Apply(op, d).lock);
    }
  }

  /** The next file makes no difference to what the record will be. */
  lemma ReplaceAfterNext(p: Plan, orderly: bool, m: Moment, j: Journal)
    requires Harmless(p, orderly, m, ReplaceJournal(j))
    ensures Harmless(p, orderly, Changed(p, m, CreateNext), ReplaceJournal(j))
    ensures Quiet(p, m, ReplaceJournal(j)) ==> Quiet(p, Changed(p, m, CreateNext), ReplaceJournal(j))
  {
    hide Admits, Rewound;
    forall d | d in m.possible
      ensures Apply(ReplaceJournal(j), Apply(CreateNext, d)) == Apply(ReplaceJournal(j), d)
      ensures !Rewound(p, d) ==> !Rewound(p, Apply(CreateNext, d))
    {
      ControlNamesDoNotMatter(p, d, true, d.lock);
    }
    assert m.possible <= Changed(p, m, CreateNext).possible;
  }

  /** The root of the target may be touched once nothing is left to be moved. */
  lemma TouchIsHarmless(p: Plan, orderly: bool, m: Moment, changed: nat)
    requires SafeMoment(p, orderly, m)
    requires orderly ==> forall d :: d in m.possible ==> d.stage.None? && d.prepared.None?
    ensures Harmless(p, orderly, m, TouchTarget(changed)) && Quiet(p, m, TouchTarget(changed))
  {
    hide Image, OldIntact, Orderly, Rewound;
    PlainIsQuiet(p, m, TouchTarget(changed));
    forall d | d in m.possible && Admits(p, orderly, m.completed, d)
      ensures Admits(p, orderly, m.completed, Apply(TouchTarget(changed), d))
    {
      TargetTimeDoesNotMatter(p, d, changed);
    }
  }

  lemma ReplaceAfterTouch(p: Plan, orderly: bool, m: Moment, changed: nat, j: Journal)
    requires Harmless(p, orderly, m, ReplaceJournal(j))
    requires orderly ==> forall d :: d in m.possible ==> d.stage.None? && d.prepared.None?
    ensures Harmless(p, orderly, Changed(p, m, TouchTarget(changed)), ReplaceJournal(j))
  {
    hide Image, OldIntact, Orderly;
    forall d | d in m.possible && Admits(p, orderly, m.completed, Apply(ReplaceJournal(j), d))
      ensures Admits(p, orderly, m.completed, Apply(ReplaceJournal(j), Apply(TouchTarget(changed), d)))
    {
      assert Apply(ReplaceJournal(j), Apply(TouchTarget(changed), d)) == TouchRoot(Apply(ReplaceJournal(j), d), changed);
      TargetTimeDoesNotMatter(p, Apply(ReplaceJournal(j), d), changed);
    }
  }

  /** Once every record is a completed one the backup may go. */
  lemma RemovalIsHarmless(p: Plan, orderly: bool, m: Moment, op: Op)
    requires SafeMoment(p, orderly, m) && m.completed && (op.GutBackup? || op == UnlinkBackup)
    requires forall d :: d in m.possible ==> Records(d, Completed)
    ensures Harmless(p, orderly, m, op) && Quiet(p, m, op)
    ensures forall d :: d in Changed(p, m, op).possible ==> Records(d, Completed)
  {
    hide Image, Orderly, OldIntact;
    forall d | d in m.possible
      ensures Records(Apply(op, d), Completed)
      ensures Admits(p, orderly, m.completed, d) ==> Admits(p, orderly, m.completed, Apply(op, d))
    {
      if Image(p, d) { BackupIsRemoved(p, d, op); }
    }
    OtherStateIsQuiet(p, m, op);
  }

  lemma UnmovedFlushed(p: Plan, orderly: bool, m: Moment)
    requires AllUnmoved(p, m) && SafeMoment(p, orderly, m)
    ensures AllUnmoved(p, Flushed(m))
  {
  }

  lemma RewoundAppears(p: Plan, m: Moment, j: Journal)
    requires j.state == TargetActivated && !m.Tampered() && m.now in m.possible && !OldIntact(p, m.now)
    ensures Changed(p, m, ReplaceJournal(j)).rewound
  {
    var d := Apply(ReplaceJournal(j), m.now);
    assert d in After(ReplaceJournal(j), m.possible) && Rewound(p, d);
  }

  /** Writing a prepared record over unmoved trees. */
  lemma UnmovedStays(p: Plan, m: Moment, op: Op)
    requires AllUnmoved(p, m)
    requires op == UnlinkJournal || op == UnlinkLock || op == CreateNext || (op.ReplaceJournal? && op.journal.state == Prepared)
    ensures AllUnmoved(p, Changed(p, m, op))
  {
  }

  lemma OtherNames(p: Plan, d: Dir, stage: Option<Node>, prepared: Option<Node>)
    requires Image(p, d) && NotOld(p, stage) && NotOld(p, prepared)
    ensures var e := d.(stage := stage, prepared := prepared);
            Image(p, e) && (OldIntact(p, e) <==> OldIntact(p, d))
  {
  }

  /** Interference with the stage and prepared names is harmless where order is not promised. */
  lemma InterferenceIsHarmless(p: Plan, m: Moment, stage: Option<Node>, prepared: Option<Node>)
    requires SafeMoment(p, false, m) && NotOld(p, stage) && NotOld(p, prepared)
    ensures var op := Interference(stage, prepared);
            && Harmless(p, false, m, op) && Quiet(p, m, op)
            && (AllUnmoved(p, m) ==> AllUnmoved(p, Changed(p, m, op)))
            && (Settled(m) ==> Settled(Changed(p, m, op)))
  {
    hide Rewound, Image, OldIntact;
    var op := Interference(stage, prepared);
    PlainIsQuiet(p, m, op);
    forall d | d in m.possible && Admits(p, false, m.completed, d)
      ensures Admits(p, false, m.completed, Apply(op, d))
    {
      OtherNames(p, d, stage, prepared);
    }
  }

  /** Nothing is promised any more once the target or the backup was touched. */
  lemma TamperedIsHarmless(p: Plan, orderly: bool, m: Moment, op: Op)
    requires m.Tampered()
    ensures Harmless(p, orderly, m, op) && Quiet(p, m, op)
  {
  }

  /** What an image says about the names that are still to be moved. */
  lemma ImageNames(p: Plan, d: Dir)
    requires Image(p, d)
    ensures NotOld(p, d.stage) && NotOld(p, d.prepared)
    ensures Records(d, BackupCreated) ==> OldAt(p, d.backup) && d.backup.value.id == d.journal.value.target
    ensures Records(d, Prepared) && d.target.None? ==> OldAt(p, d.backup)
  {
  }

  lemma StageMoves(p: Plan, d: Dir, moved: Node)
    requires Image(p, d) && Unmoved(p, d) && moved.id.inode != p.oldRoot
    ensures var e := Apply(StageToPrepared(moved), d);
            && Image(p, e) && OldIntact(p, e) && Unmoved(p, e)
            && (Orderly(p, d) && d.journal.Some? && d.stage.Some? && SameTree(moved, d.stage.value) ==> Orderly(p, e))
  {
  }

  lemma PreparedIsRecorded(p: Plan, d: Dir, j: Journal)
    requires Image(p, d) && Unmoved(p, d) && j.state == Prepared && j.target.inode == p.oldRoot
    ensures var e := Apply(ReplaceJournal(j), d);
            && Image(p, e) && OldIntact(p, e) && Unmoved(p, e)
            && (Orderly(p, d) && d.journal.None? && ReadyTree(p, d.stage, j.stage) && Exact(d.target, j.target) ==> Orderly(p, e))
            && (Orderly(p, d) && d.journal.Some? && d.stage.None? && Exact(d.prepared, j.stage) && d.journal.value.target == j.target
                ==> Orderly(p, e))
  {
  }

  lemma TargetMoves(p: Plan, d: Dir, moved: Node)
    requires Image(p, d) && Unmoved(p, d) && Records(d, Prepared) && OldAt(p, Some(moved))
    ensures var e := Apply(TargetToBackup(moved), d);
            && Image(p, e) && OldIntact(p, e) && Records(e, Prepared)
            && (Orderly(p, d) && d.prepared.Some? ==> Orderly(p, e))
  {
  }

  lemma BackupIsRecorded(p: Plan, d: Dir, j: Journal)
    requires Image(p, d) && d.target.None? && OldAt(p, d.backup)
    requires j.state == BackupCreated && j.target == d.backup.value.id
    ensures var e := Apply(ReplaceJournal(j), d);
            && Image(p, e) && OldIntact(p, e)
            && (Orderly(p, d) && d.journal.Some? && d.journal.value.stage == j.stage ==> Orderly(p, e))
  {
  }

  lemma PreparedMoves(p: Plan, d: Dir, moved: Node)
    requires Image(p, d) && (Records(d, BackupCreated) || Records(d, Prepared)) && d.target.None? && NewAt(p, Some(moved))
    ensures var e := Apply(PreparedToTarget(moved), d);
            && Image(p, e) && OldIntact(p, e) && e.journal == d.journal
            && (Orderly(p, d) && d.prepared.Some? && SameTree(moved, d.prepared.value) ==> Orderly(p, e))
  {
  }

  lemma ActivationIsRecorded(p: Plan, d: Dir, j: Journal)
    requires Image(p, d) && d.journal.Some? && Exact(d.backup, j.target) && NewAt(p, d.target)
    requires j.state == TargetActivated && j.target == d.journal.value.target
    ensures var e := Apply(ReplaceJournal(j), d);
            && Image(p, e) && (OldIntact(p, e) <==> OldIntact(p, d))
            && (Orderly(p, d) && d.stage.None? && d.prepared.None? && j.stage.inode == d.target.value.id.inode ==> Orderly(p, e))
  {
  }

  lemma CompletionIsRecorded(p: Plan, d: Dir, j: Journal)
    requires Image(p, d) && Records(d, TargetActivated)
    requires j.state == Completed && j.target == d.journal.value.target
    ensures var e := Apply(ReplaceJournal(j), d);
            && Image(p, e) && (OldIntact(p, e) <==> OldIntact(p, d)) && e.backup == d.backup
            && (Orderly(p, d) && j.stage.inode == d.journal.value.stage.inode ==> Orderly(p, e))
  {
  }

  lemma BackupIsRemoved(p: Plan, d: Dir, op: Op)
    requires Image(p, d) && Records(d, Completed) && (op.GutBackup? || op == UnlinkBackup)
    ensures var e := Apply(op, d);
            Image(p, e) && Records(e, Completed) && (Orderly(p, d) ==> Orderly(p, e))
  {
  }

  lemma JournalIsRemoved(p: Plan, d: Dir)
    requires Image(p, d) && d.backup.None? && d.target.Some?
    ensures var e := Apply(UnlinkJournal, d);
            && Image(p, e) && (OldIntact(p, e) <==> OldIntact(p, d))
            && (Orderly(p, d) && d.prepared.None? ==> Orderly(p, e)) && (Unmoved(p, d) ==> Unmoved(p, e))
  {
  }
}
