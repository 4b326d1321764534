/**
 The provider journal as a store, and the durable refresh that is driven by it
 (linux/native/src/helper/linux_provider_journal.cc,
 linux/native/src/helper/external_managed_refresh.cc).  None and false stand for a throw.
 */
module ManagedRefresh {
  import opened SortedMap
  import opened StageMarker
  import opened ProviderRecord

  /** A write over what the journal holds passes the checks of Persist. */
  predicate Permitted(existing: Option<Record>, r: Record)
  {
    ValidRecord(r) && (existing.Some? ==> Allowed(existing.value, r))
  }

  /** The records of one transaction in the order in which they became visible. */
  type History = seq<Record>

  /** A file under its name: the contents that became visible one after the other, and the latest of
      them that is known to survive a power loss. */
  datatype File = File(versions: seq<string>, durable: Option<nat>)

  ghost predicate ValidFile(f: File, id: string, h: History, sha256: string -> string)
  {
    && h != [] && |f.versions| == |h| && Chain(h) && (f.durable.Some? ==> f.durable.value < |h|)
    && forall k :: 0 <= k < |h| ==> h[k].transactionId == id && Decode(f.versions[k], sha256) == Some(h[k])
  }

  ghost predicate ValidFiles(files: map<string, File>, history: map<string, History>, sha256: string -> string)
  {
    files.Keys == history.Keys && forall id <- files :: ValidFile(files[id], id, history[id], sha256)
  }

  ghost function Last(h: History): Option<Record> { if h == [] then None else Some(h[|h| - 1]) }

  ghost function DurableOf(f: File, h: History): Option<Record>
  {
    if f.durable.Some? && f.durable.value < |h| then Some(h[f.durable.value]) else None
  }

  ghost function DurableIn(files: map<string, File>, history: map<string, History>): map<string, Record>
  {
    map id | id in files && id in history && DurableOf(files[id], history[id]).Some? :: DurableOf(files[id], history[id]).value
  }

  ghost function HeldIn(history: map<string, History>, id: string): Option<Record>
  {
    if id in history then Last(history[id]) else None
  }

  ghost predicate SurvivesIn(files: map<string, File>, history: map<string, History>, id: string, r: Option<Record>)
  {
    if r.None? then id !in files || files[id].durable.None?
    else
      && id in files && id in history
      && exists k :: 0 <= k < |history[id]| && (files[id].durable.Some? ==> files[id].durable.value <= k) && history[id][k] == r.value
  }

  /** What a power loss leaves of a file when it takes the given number of versions, or as many
      of them as it can. */
  function Cut(f: File, lost: nat): (r: Option<File>)
    ensures r.Some? ==> var n := |r.value.versions|;
              && 0 < n <= |f.versions| && r.value == File(f.versions[..n], Some(n - 1))
              && (f.durable.Some? && f.durable.value < |f.versions| ==> f.durable.value < n)
    ensures f.durable.Some? && f.durable.value < |f.versions| ==> r.Some?
  {
    var rest := if lost <= |f.versions| then |f.versions| - lost else 0;
    var n := if f.durable.Some? && rest <= f.durable.value < |f.versions| then f.durable.value + 1 else rest;
    if n == 0 then None else Some(File(f.versions[..n], Some(n - 1)))
  }

  /** One set of records has everything that another has, or what follows it. */
  ghost predicate Progressed(a: map<string, Record>, b: map<string, Record>)
  {
    forall id <- a :: id in b && Follows(a[id], b[id])
  }

  lemma ProgressedOn(a: map<string, Record>, b: map<string, Record>, c: map<string, Record>)
    requires Progressed(a, b) && Progressed(b, c)
    ensures Progressed(a, c)
  {
    hide Follows;
    forall id | id in a
      ensures id in c && Follows(a[id], c[id])
    {
      FollowsOn(a[id], b[id], c[id]);
    }
  }

  lemma ProgressedItself(a: map<string, Record>)
    ensures Progressed(a, a)
  {
    hide Follows;
    forall id | id in a
      ensures Follows(a[id], a[id])
    {
      FollowsItself(a[id]);
    }
  }

  class Journal {
    const sha256: string -> string
    /** No call on the file system fails. */
    const reliable: bool
    var files: map<string, File>
    ghost var history: map<string, History>

    constructor (sha256: string -> string, reliable: bool)
      ensures Valid() && files == map[] && this.sha256 == sha256 && this.reliable == reliable
    {
      this.sha256 := sha256;
      this.reliable := reliable;
      files := map[];
      history := map[];
    }

    /** Each file is the encoding of the last record of a history of allowed transitions. */
    ghost predicate Valid()
      reads this
    {
      ValidFiles(files, history, sha256)
    }

    /** What a power loss at this moment can leave of a transaction: the record that is known
        to be durable, or any that became visible after it. */
    ghost predicate Survives(id: string, r: Option<Record>)
      reads this
    {
      SurvivesIn(files, history, id, r)
    }

    /** A power loss leaves what is held. */
    ghost predicate Durable(id: string)
      reads this
    {
      id in files && files[id].durable == Some(|files[id].versions| - 1)
    }

    ghost predicate AllDurable()
      reads this
    {
      forall id :: id in files ==> Durable(id)
    }

    /** The records that are known to survive a power loss. */
    ghost function DurableRecords(): map<string, Record>
      reads this
    {
      DurableIn(files, history)
    }

    /** The record that the journal holds. */
    ghost function Held(id: string): Option<Record>
      reads this
    {
      HeldIn(history, id)
    }

    /** Every other transaction is as it was. */
    twostate predicate OthersKept(id: string)
      reads this
    {
      forall other :: other != id ==> Held(other) == old(Held(other))
    }

    /** Load.  Opening or reading the file can fail at any time. */
    method Load(id: string) returns (r: Option<Option<Record>>)
      requires Valid()
      ensures !ValidNonce(id) ==> r == None
      ensures r.Some? ==> r.value == Held(id)
      ensures r.Some? && r.value.Some? ==> r.value.value.transactionId == id
      ensures reliable && ValidNonce(id) ==> r == Some(Held(id))
    {
      hide Decode, ValidNonce, Chain;
      assert id in files ==> ValidFile(files[id], id, history[id], sha256);
      if !ValidNonce(id) { return None; }
      var fails: bool := *;
      if fails && !reliable { return None; }
      if id !in files { return Some(None); }
      var record := Decode(files[id].versions[|files[id].versions| - 1], sha256);
      if record == None || record.value.transactionId != id { return None; }
      return Some(record);
    }

    /** Persist.  It can fail before the new file is published, and also after it. */
    method Persist(record: Record) returns (ok: bool)
      requires Valid()
      modifies this
      ensures Valid() && OthersKept(record.transactionId) && Progressed(old(DurableRecords()), DurableRecords())
      ensures ok ==> Held(record.transactionId) == Some(record) && AllDurable() && record.transactionId in files
      ensures !ok ==> DurableRecords() == old(DurableRecords())
      ensures !ok ==> Held(record.transactionId) in {old(Held(record.transactionId)), Some(record)}
      ensures old(Held(record.transactionId)).Some? ==>
                && Held(record.transactionId).Some?
                && Follows(old(Held(record.transactionId)).value, Held(record.transactionId).value)
      ensures !Permitted(old(Held(record.transactionId)), record) ==>
                !ok && files == old(files) && history == old(history)
      ensures reliable && Permitted(old(Held(record.transactionId)), record) ==> ok
    {
      hide Encode, ValidRecord, ValidFiles, Allowed, Follows, Last, DurableRecords, Progressed;
      var id := record.transactionId;
      ProgressedItself(DurableRecords());
      if Held(id).Some? { FollowsItself(Held(id).value); }
      if !ValidRecord(record) { return false; }
      RecordHasNonce(record);
      var existing := Load(id);
      if existing == None { return false; }
      if existing.value.Some? && !Allowed(existing.value.value, record) { return false; }
      var bytes := Encode(record, sha256);
      if bytes == None { return false; }
      var created: bool := *;
      if !created && !reliable { return false; }
      if existing.value.Some? { AllowedFollows(existing.value.value, record); }
      Publish(record, bytes.value);
      ok := Sync();
    }

    /** The rename that makes the new file visible. */
    method Publish(record: Record, bytes: string)
      requires Valid() && Encode(record, sha256) == Some(bytes)
      requires Held(record.transactionId).Some? ==> Allowed(Held(record.transactionId).value, record)
      modifies this
      ensures Valid() && OthersKept(record.transactionId) && Held(record.transactionId) == Some(record)
      ensures record.transactionId in files && DurableRecords() == old(DurableRecords())
    {
      hide Decode, Encode, ValidFile, Allowed;
      var id := record.transactionId;
      var file := if id in files then files[id] else File([], None);
      ghost var h := if id in history then history[id] else [];
      assert id in files ==> ValidFile(files[id], id, h, sha256);
      HistoryNotEmpty(file, id, h, sha256);
      FileGrows(file, h, record, bytes, sha256);
      files := files[id := file.(versions := file.versions + [bytes])];
      history := history[id := h + [record]];
    }

    /** The sync of the directory after it. */
    method Sync() returns (ok: bool)
      requires Valid()
      modifies this`files
      ensures Valid() && files.Keys == old(files.Keys) && Progressed(old(DurableRecords()), DurableRecords())
      ensures if ok then AllDurable() else DurableRecords() == old(DurableRecords())
      ensures (forall id :: Held(id) == old(Held(id))) && (reliable ==> ok)
    {
      hide Decode, ValidFile, Follows, DurableOf;
      ok := *;
      ok := ok || reliable;
      ProgressedItself(DurableRecords());
      if ok {
        forall id | id in files
          ensures ValidFile(Flush(files[id]), id, history[id], sha256)
          ensures Flush(files[id]).durable == Some(|Flush(files[id]).versions| - 1)
          ensures NotBehind(DurableOf(files[id], history[id]), DurableOf(Flush(files[id]), history[id]))
        {
          FileFlushed(files[id], id, history[id], sha256);
        }
        files := map id | id in files :: Flush(files[id]);
      }
    }

    /** The machine loses its power and starts again: each file is what the disk has of it. */
    method LosePower()
      requires Valid()
      modifies this
      ensures Valid() && AllDurable() && Progressed(old(DurableRecords()), DurableRecords())
      ensures forall id :: var left := Held(id); old(Survives(id, left))
    {
      hide ValidFiles, Progressed, DurableIn, HeldIn, SurvivesIn;
      var lost: map<string, nat> := *;
      LossIsValid(files, history, lost, sha256);
      forall id
        ensures SurvivesIn(files, history, id, HeldIn(CutHistory(files, history, lost), id))
      {
        LossSurvives(files, history, lost, id, sha256);
      }
      ghost var left := CutHistory(files, history, lost);
      files := CutFiles(files, lost);
      history := left;
    }
  }

  function CutFiles(files: map<string, File>, lost: map<string, nat>): map<string, File>
  {
    map id | id in files && Cut(files[id], Count(lost, id)).Some? :: Cut(files[id], Count(lost, id)).value
  }

  ghost function CutHistory(files: map<string, File>, history: map<string, History>, lost: map<string, nat>): map<string, History>
  {
    map id | id in CutFiles(files, lost) && id in history && |CutFiles(files, lost)[id].versions| <= |history[id]|
      :: history[id][..|CutFiles(files, lost)[id].versions|]
  }

  lemma LossIsValid(files: map<string, File>, history: map<string, History>, lost: map<string, nat>, sha256: string -> string)
    requires ValidFiles(files, history, sha256)
    ensures ValidFiles(CutFiles(files, lost), CutHistory(files, history, lost), sha256)
    ensures Progressed(DurableIn(files, history), DurableIn(CutFiles(files, lost), CutHistory(files, history, lost)))
    ensures forall id <- CutFiles(files, lost) ::
              CutFiles(files, lost)[id].durable == Some(|CutFiles(files, lost)[id].versions| - 1)
  {
    hide Decode, ValidFile, Follows, DurableOf, Cut;
    forall id | id in files
      ensures CutWell(files[id], Cut(files[id], Count(lost, id)), id, history[id], sha256)
    {
      FileCut(files[id], Count(lost, id), id, history[id], sha256);
    }
    forall id | id in DurableIn(files, history)
      ensures Cut(files[id], Count(lost, id)).Some?
    {
      DurableIsSome(files[id], history[id]);
    }
  }

  lemma DurableIsSome(f: File, h: History)
    requires DurableOf(f, h).Some?
    ensures f.durable.Some?
  {
  }

  lemma LossSurvives(files: map<string, File>, history: map<string, History>, lost: map<string, nat>, id: string, sha256: string -> string)
    requires ValidFiles(files, history, sha256)
    ensures SurvivesIn(files, history, id, HeldIn(CutHistory(files, history, lost), id))
  {
    hide Decode, ValidFile, Follows, DurableOf, Cut;
    if id in files {
      var left := Cut(files[id], Count(lost, id));
      FileCut(files[id], Count(lost, id), id, history[id], sha256);
      if left.Some? { assert history[id][..|left.value.versions|][|left.value.versions| - 1] == history[id][|left.value.versions| - 1]; }
    }
  }

  function Count(m: map<string, nat>, id: string): nat { if id in m then m[id] else 0 }

  function Flush(f: File): File
  {
    if f.versions == [] then f else f.(durable := Some(|f.versions| - 1))
  }

  ghost predicate NotBehind(a: Option<Record>, b: Option<Record>)
  {
    a.Some? ==> b.Some? && Follows(a.value, b.value)
  }

  lemma HistoryNotEmpty(f: File, id: string, h: History, sha256: string -> string)
    ensures ValidFile(f, id, h, sha256) ==> h != []
  {
    hide Decode;
  }

  lemma FileFlushed(f: File, id: string, h: History, sha256: string -> string)
    requires ValidFile(f, id, h, sha256)
    ensures ValidFile(Flush(f), id, h, sha256) && Flush(f).durable == Some(|f.versions| - 1) && Flush(f).versions == f.versions
    ensures NotBehind(DurableOf(f, h), DurableOf(Flush(f), h))
  {
    hide Decode, Follows, Allowed;
    if f.durable.Some? { ChainFollows(h, f.durable.value, |h| - 1); }
  }

  /** What is left of a file is a version no older than the durable one. */
  ghost predicate CutWell(f: File, left: Option<File>, id: string, h: History, sha256: string -> string)
  {
    if left.None? then f.durable.None?
    else
      var n := |left.value.versions|;
      && 0 < n <= |h| && left.value.durable == Some(n - 1) && (f.durable.Some? ==> f.durable.value <= n - 1)
      && ValidFile(left.value, id, h[..n], sha256)
      && NotBehind(DurableOf(f, h), DurableOf(left.value, h[..n]))
  }

  lemma FileCut(f: File, lost: nat, id: string, h: History, sha256: string -> string)
    requires ValidFile(f, id, h, sha256)
    ensures CutWell(f, Cut(f, lost), id, h, sha256)
  {
    hide Decode, Follows, Allowed;
    var left := Cut(f, lost);
    if left.Some? {
      var n := |left.value.versions|;
      assert forall k :: 0 <= k < n ==> left.value.versions[k] == f.versions[k];
      if f.durable.Some? { ChainFollows(h, f.durable.value, n - 1); }
    }
  }

  /** Whatever a power loss leaves follows the record that was durable and is followed by the
      one that was held; and if the held record was durable then it is what is left. */
  lemma SurvivorsFollow(journal: Journal, id: string, r: Record)
    requires journal.Valid() && journal.Survives(id, Some(r))
    ensures journal.Held(id).Some? && Follows(r, journal.Held(id).value)
    ensures id in journal.DurableRecords() ==> Follows(journal.DurableRecords()[id], r)
    ensures journal.Durable(id) ==> journal.Held(id) == Some(r)
  {
    hide Decode, Follows, Chain;
    var h, f := journal.history[id], journal.files[id];
    assert ValidFile(f, id, h, journal.sha256);
    var k :| 0 <= k < |h| && (f.durable.Some? ==> f.durable.value <= k) && h[k] == r;
    ChainFollows(h, k, |h| - 1);
    if f.durable.Some? { ChainFollows(h, f.durable.value, k); }
  }

  /** What is held follows what is durable. */
  lemma HeldFollowsDurable(journal: Journal, id: string)
    requires journal.Valid() && id in journal.DurableRecords()
    ensures journal.Held(id).Some? && Follows(journal.DurableRecords()[id], journal.Held(id).value)
  {
    hide Decode, Follows, Chain;
    assert ValidFile(journal.files[id], id, journal.history[id], journal.sha256);
    ChainFollows(journal.history[id], journal.files[id].durable.value, |journal.history[id]| - 1);
  }

  lemma ChainGrows(h: History, record: Record)
    requires Chain(h) && (h != [] ==> Allowed(h[|h| - 1], record))
    ensures Chain(h + [record])
  {
    hide Allowed;
    var more := h + [record];
    forall i | 0 <= i < |more| - 1
      ensures Allowed(more[i], more[i + 1])
    {
      if i < |h| - 1 { assert Allowed(h[i], h[i + 1]); }
    }
  }

  lemma FileGrows(f: File, h: History, record: Record, bytes: string, sha256: string -> string)
    requires if h == [] then f == File([], None) else ValidFile(f, record.transactionId, h, sha256)
    requires (h != [] ==> Allowed(h[|h| - 1], record)) && Encode(record, sha256) == Some(bytes)
    ensures var more := f.(versions := f.versions + [bytes]);
            && ValidFile(more, record.transactionId, h + [record], sha256) && Last(h + [record]) == Some(record)
            && DurableOf(more, h + [record]) == DurableOf(f, h)
  {
    hide Decode, Encode, Allowed;
    DecodeInvertsEncode(record, sha256);
    ChainGrows(h, record);
  }

  /** Whatever the journal holds is a valid record of the transaction. */
  lemma HeldIsValid(journal: Journal, id: string)
    requires journal.Valid() && journal.Held(id).Some?
    ensures ValidRecord(journal.Held(id).value) && journal.Held(id).value.transactionId == id
  {
    hide Chain, ValidRecord;
    assert ValidFile(journal.files[id], id, journal.history[id], journal.sha256);
    var k := |journal.history[id]| - 1;
    assert Decode(journal.files[id].versions[k], journal.sha256) == Some(journal.history[id][k]);
    DecodedIsValid(journal.files[id].versions[k], journal.sha256);
  }

  lemma DecodedIsValid(bytes: string, sha256: string -> string)
    requires Decode(bytes, sha256).Some?
    ensures ValidRecord(Decode(bytes, sha256).value)
  {
    hide ValidRecord;
  }

  /** What the provider was asked to do. */
  datatype Effect = Started(held: Option<Record>, identity: Option<string>) | Queried(transaction: Transaction, answer: Option<Observation>)

  datatype Observation = Observation(state: State, identity: string)

  class Runner {
    ghost var effects: seq<Effect>

    /** StartFixed.  The provider is started only while the journal holds a prepared record
        that no power loss can take away. */
    method StartFixed(journal: Journal, id: string) returns (identity: Option<string>)
      requires journal.Held(id).Some? && journal.Held(id).value.transaction.state == Prepared && journal.Durable(id)
      modifies this
      ensures effects == old(effects) + [Started(journal.Held(id), identity)]
    {
      identity := *;
      effects := effects + [Started(journal.Held(id), identity)];
    }

    method QueryInstalledState(transaction: Transaction) returns (r: Option<Observation>)
      modifies this
      ensures effects == old(effects) + [Queried(transaction, r)]
    {
      r := *;
      effects := effects + [Queried(transaction, r)];
    }
  }

  /** The request, as far as the journal sees it; `command` is the digest of the command
      that is built from it. */
  datatype Refresh = Refresh(
    provider: string, packageId: string, scope: string, authority: string, expected: string, command: string)

  function PreparedRecord(id: string, q: Refresh): Record
  {
    Record(1, id, Transaction(q.provider, q.packageId, "pending-" + q.command, Prepared, "", q.scope, q.authority),
           q.expected, q.command)
  }

  function WithState(r: Record, identity: string, state: State): Record
  {
    r.(transaction := r.transaction.(identity := identity, state := state))
  }

  /**
   StartDurableLinuxExternalManagedRefresh.  A normal return means that the journal holds
   exactly what is returned.  The provider is started at most once, and only after the
   prepared record has been written; what a failure leaves behind is one of four records.
   */
  method StartDurable(id: string, q: Refresh, runner: Runner, journal: Journal) returns (r: Option<Transaction>)
    requires journal.Valid()
    modifies runner, journal
    ensures journal.Valid() && journal.OthersKept(id) && Progressed(old(journal.DurableRecords()), journal.DurableRecords())
    ensures old(journal.Held(id)).Some? ==>
              journal.Held(id).Some? && Follows(old(journal.Held(id)).value, journal.Held(id).value)
    ensures r.Some? ==>
              && journal.Held(id).Some? && r.value == journal.Held(id).value.transaction
              && r.value.state == ManagerStarted && journal.Durable(id)
              && runner.effects == old(runner.effects) + [Started(Some(PreparedRecord(id, q)), Some(r.value.identity))]
    ensures journal.reliable ==>
              if Permitted(old(journal.Held(id)), PreparedRecord(id, q)) then
                exists identity ::
                  && runner.effects == old(runner.effects) + [Started(Some(PreparedRecord(id, q)), identity)]
                  && (r.Some? <==> Starts(PreparedRecord(id, q), identity))
                  && (identity.None? ==>
                        journal.Held(id) == Some(WithState(PreparedRecord(id, q), "pending-" + q.command, VerificationPending)))
              else r.None? && runner.effects == old(runner.effects) && journal.Held(id) == old(journal.Held(id))
    ensures r.None? ==>
              || (runner.effects == old(runner.effects) && journal.Held(id) in {old(journal.Held(id)), Some(PreparedRecord(id, q))})
              || exists identity ::
                   && runner.effects == old(runner.effects) + [Started(Some(PreparedRecord(id, q)), identity)]
                   && LeftBehind(PreparedRecord(id, q), identity, journal.Held(id))
  {
    hide ValidFiles, ValidRecord, Permitted, Follows, Last, Progressed, DurableIn;
    ghost var before := journal.Held(id);
    var record := PreparedRecord(id, q);
    ghost var first := journal.DurableRecords();
    var persisted := journal.Persist(record);
    if !persisted { return None; }
    ghost var second := journal.DurableRecords();
    var identity := runner.StartFixed(journal, id);
    PermittedIsValid(before, record);
    NotingIsPermitted(record);
    if identity.Some? {
      record := WithState(record, identity.value, Prepared);
      if identity.value != "" {
        record := WithState(record, identity.value, ManagerStarted);
        persisted := journal.Persist(record);
        ProgressedOn(first, second, journal.DurableRecords());
        if before.Some? { FollowsOn(before.value, PreparedRecord(id, q), journal.Held(id).value); }
        if persisted { return Some(record.transaction); }
      }
    }
    record := WithState(record, record.transaction.identity, VerificationPending);
    FallbackDecided(PreparedRecord(id, q), identity, record);
    EmptyIdentityRefused(Some(PreparedRecord(id, q)), record);
    ghost var middle, third := journal.Held(id), journal.DurableRecords();
    var _ := journal.Persist(record);
    ProgressedOn(first, third, journal.DurableRecords());
    if before.Some? { FollowsOn(before.value, middle.value, journal.Held(id).value); }
    return None;
  }

  /** The provider has answered with an identity that can be recorded. */
  predicate Starts(prepared: Record, identity: Option<string>)
  {
    && identity.Some? && identity.value != ""
    && Permitted(Some(prepared), WithState(prepared, identity.value, ManagerStarted))
  }

  lemma NotingIsPermitted(r: Record)
    requires ValidRecord(r) && r.transaction.state == Prepared
    ensures Permitted(Some(r), WithState(r, r.transaction.identity, VerificationPending))
  {
    hide ValidNonce;
  }

  lemma PermittedIsValid(existing: Option<Record>, r: Record)
    requires Permitted(existing, r)
    ensures ValidRecord(r)
  {
    hide ValidRecord;
  }

  /** What the catch block can leave in the journal.  Only if StartFixed itself threw, or if
      the started record had become visible after all, can it note the pending verification. */
  ghost predicate LeftBehind(prepared: Record, identity: Option<string>, held: Option<Record>)
  {
    if identity.None? then
      held in {Some(prepared), Some(WithState(prepared, prepared.transaction.identity, VerificationPending))}
    else if identity.value == "" then held == Some(prepared)
    else
      held in {Some(prepared), Some(WithState(prepared, identity.value, ManagerStarted)),
               Some(WithState(prepared, identity.value, VerificationPending))}
  }

  /** The record of the catch block is refused over the prepared record as soon as an
      identity has been captured, even an empty one. */
  lemma FallbackDecided(prepared: Record, identity: Option<string>, fallback: Record)
    requires prepared.transaction.state == Prepared && prepared.transaction.identity == Pending(prepared)
    requires fallback == WithState(prepared, if identity.Some? then identity.value else prepared.transaction.identity, VerificationPending)
    ensures Allowed(prepared, fallback) <==> identity.None? || identity.value == Pending(prepared)
  {
  }

  lemma EmptyIdentityRefused(existing: Option<Record>, r: Record)
    ensures r.transaction.identity == "" ==> !Permitted(existing, r)
  {
    hide Allowed, ValidNonce;
  }

  /**
   A second start with the same request goes through, and starts the provider again,
   exactly while the journal holds the same prepared record or none.
   */
  lemma RestartExactly(existing: Option<Record>, id: string, q: Refresh)
    requires ValidRecord(PreparedRecord(id, q))
    ensures Permitted(existing, PreparedRecord(id, q)) <==> existing in {None, Some(PreparedRecord(id, q))}
  {
    hide ValidRecord;
  }

  /** The transaction with what the provider says about it; an empty identity says nothing. */
  function Observed(t: Transaction, o: Observation): Transaction
  {
    t.(state := o.state, identity := if o.identity == "" then t.identity else o.identity)
  }

  /** RecoverLinuxExternalManagedRefresh */
  method RecoverTransaction(transaction: Transaction, runner: Runner) returns (r: Option<Transaction>)
    modifies runner
    ensures transaction.identity == "" ==>
              r == Some(transaction.(state := ManualActionRequired)) && runner.effects == old(runner.effects)
    ensures transaction.identity != "" ==>
              exists answer ::
                && runner.effects == old(runner.effects) + [Queried(transaction, answer)]
                && r == if answer.None? then None else Some(Observed(transaction, answer.value))
    ensures r.Some? ==> r.value.(state := transaction.state, identity := transaction.identity) == transaction
  {
    if transaction.identity == "" {
      return Some(transaction.(state := ManualActionRequired));
    }
    var observation := runner.QueryInstalledState(transaction);
    if observation == None { return None; }
    r := Some(transaction.(state := observation.value.state));
    if observation.value.identity != "" {
      r := Some(r.value.(identity := observation.value.identity));
    }
  }

  /**
   RecoverDurableLinuxExternalManagedRefresh.  A normal return is the transaction that the
   journal holds, which follows the one it held before; recovery never starts the provider
   and does not even query it once the transaction is over.  What it writes is durable when
   it returns; a terminal record that it finds may still be lost.
   */
  method RecoverDurable(id: string, runner: Runner, journal: Journal) returns (r: Option<Transaction>)
    requires journal.Valid()
    modifies runner, journal
    ensures journal.Valid() && journal.OthersKept(id) && Progressed(old(journal.DurableRecords()), journal.DurableRecords())
    ensures r.Some? ==> journal.Held(id).Some? && r.value == journal.Held(id).value.transaction && r.value.state != Prepared
    ensures old(journal.Held(id)).Some? ==>
              journal.Held(id).Some? && Follows(old(journal.Held(id)).value, journal.Held(id).value)
    ensures old(journal.Held(id)).None? ==> r == None && journal.Held(id) == None
    ensures r.Some? && !IsTerminal(old(journal.Held(id)).value.transaction.state) ==> journal.Durable(id)
    ensures OnlyQueries(old(runner.effects), runner.effects)
    ensures old(journal.Held(id)).Some? && IsTerminal(old(journal.Held(id)).value.transaction.state) ==>
              runner.effects == old(runner.effects) && journal.files == old(journal.files)
    ensures journal.reliable && old(journal.Held(id)).Some? ==> var held := old(journal.Held(id)).value;
              if held.transaction.provider !in {"flatpak", "snap"} then r == None && journal.files == old(journal.files)
              else if IsTerminal(held.transaction.state) then r == Some(held.transaction)
              else exists answer ::
                && runner.effects == old(runner.effects) + [Queried(Noted(held).transaction, answer)]
                && (r.Some? <==> answer.Some? && Permitted(Some(Noted(held)), Informed(Noted(held), answer.value)))
                && (r.Some? ==> r.value == Informed(Noted(held), answer.value).transaction)
  {
    hide ValidFiles, ValidRecord, Permitted, Follows, ValidNonce, Last, Progressed, DurableIn;
    ghost var before, first := journal.Held(id), journal.DurableRecords();
    ProgressedItself(first);
    if before.Some? { FollowsItself(before.value); }
    var loaded := journal.Load(id);
    if before.Some? {
      HeldIsValid(journal, id);
      RecordHasNonce(before.value);
    }
    if loaded == None || loaded.value == None { return None; }
    var record := loaded.value.value;
    if record.transaction.state == Prepared { NotingIsPermitted(record); }
    if record.transaction.provider != "flatpak" && record.transaction.provider != "snap" { return None; }
    if IsTerminal(record.transaction.state) { return Some(record.transaction); }
    if record.transaction.state == Prepared {
      record := WithState(record, record.transaction.identity, VerificationPending);
      var noted := journal.Persist(record);
      if !noted { return None; }
    }
    ghost var second := journal.DurableRecords();
    r := RecoverHeld(record, runner, journal);
    ProgressedOn(first, second, journal.DurableRecords());
    FollowsOn(before.value, record, journal.Held(id).value);
  }

  /** A prepared record is first noted as pending. */
  function Noted(r: Record): Record
  {
    if r.transaction.state == Prepared then WithState(r, r.transaction.identity, VerificationPending) else r
  }

  /** The record after the provider's answer. */
  function Informed(r: Record, o: Observation): Record { r.(transaction := Observed(r.transaction, o)) }

  /** Nothing was done, or one query was made. */
  ghost predicate OnlyQueries(before: seq<Effect>, after: seq<Effect>)
  {
    after == before || (|after| == |before| + 1 && after[..|before|] == before && after[|before|].Queried?)
  }

  /** The last part: ask the provider and write down what it says. */
  method RecoverHeld(held: Record, runner: Runner, journal: Journal) returns (r: Option<Transaction>)
    requires journal.Valid() && journal.Held(held.transactionId) == Some(held) && held.transaction.state != Prepared
    modifies runner, journal
    ensures journal.Valid() && journal.OthersKept(held.transactionId)
    ensures Progressed(old(journal.DurableRecords()), journal.DurableRecords())
    ensures journal.Held(held.transactionId).Some? && Follows(held, journal.Held(held.transactionId).value)
    ensures r.Some? ==> r.value == journal.Held(held.transactionId).value.transaction && r.value.state != Prepared
    ensures r.Some? ==> journal.Durable(held.transactionId)
    ensures OnlyQueries(old(runner.effects), runner.effects)
    ensures journal.reliable ==> exists answer ::
              && runner.effects == old(runner.effects) + [Queried(held.transaction, answer)]
              && (r.Some? <==> answer.Some? && Permitted(Some(held), Informed(held, answer.value)))
              && (r.Some? ==> r.value == Informed(held, answer.value).transaction)
  {
    hide ValidFiles, ValidRecord, Permitted, Follows, ValidNonce, Last, Progressed, DurableIn;
    FollowsItself(held);
    HeldIsValid(journal, held.transactionId);
    IdentityIsNotEmpty(held);
    ProgressedItself(journal.DurableRecords());
    var recovered := RecoverTransaction(held.transaction, runner);
    ghost var answer :| runner.effects == old(runner.effects) + [Queried(held.transaction, answer)]
                        && recovered == if answer.None? then None else Some(Observed(held.transaction, answer.value));
    if recovered == None { return None; }
    var record := held.(transaction := recovered.value);
    var persisted := journal.Persist(record);
    if !persisted { return None; }
    NeverPreparedAgain(held, record);
    return Some(record.transaction);
  }

  lemma RecordHasNonce(r: Record)
    requires ValidRecord(r)
    ensures ValidNonce(r.transactionId)
    ensures forall sha256: string -> string :: Encode(r, sha256).Some?
  {
    hide ValidNonce, Payload;
  }

  lemma IdentityIsNotEmpty(r: Record)
    requires ValidRecord(r)
    ensures r.transaction.identity != ""
  {
    hide ValidNonce;
  }

  lemma NeverPreparedAgain(a: Record, b: Record)
    requires Follows(a, b) && a.transaction.state != Prepared
    ensures b.transaction.state != Prepared
  {
  }

  datatype Operation =
    | DoStart(id: string, request: Refresh)
    | DoRecover(id: string)
    | DoPersist(record: Record)
    | PowerLoss

  ghost predicate StartsArePrepared(effects: seq<Effect>)
  {
    forall i :: 0 <= i < |effects| && effects[i].Started? ==>
      effects[i].held.Some? && effects[i].held.value.transaction.state == Prepared
  }

  method AnyStep(journal: Journal, runner: Runner, operation: Operation)
    requires journal.Valid() && StartsArePrepared(runner.effects)
    modifies journal, runner
    ensures journal.Valid() && old(runner.effects) <= runner.effects && StartsArePrepared(runner.effects)
    ensures Progressed(old(journal.DurableRecords()), journal.DurableRecords())
    ensures forall id :: operation != PowerLoss && old(journal.Held(id)).Some? ==>
              journal.Held(id).Some? && Follows(old(journal.Held(id)).value, journal.Held(id).value)
  {
    hide ValidFiles, ValidRecord, Permitted, Follows, ValidNonce, LeftBehind, Last, Progressed, DurableIn;
    forall id | journal.Held(id).Some?
      ensures Follows(journal.Held(id).value, journal.Held(id).value)
    {
      FollowsItself(journal.Held(id).value);
    }
    match operation {
      case DoStart(id, request) => var _ := StartDurable(id, request, runner, journal);
      case DoRecover(id) => var _ := RecoverDurable(id, runner, journal);
      case DoPersist(record) => var _ := journal.Persist(record);
      case PowerLoss => journal.LosePower();
    }
  }

  /** Starts, recoveries and bare writes in any order, failing anywhere, and power losses
      between them: what is durable in the end, and what the journal holds, follows what was
      durable in the beginning; without a power loss it follows even what was held; and every
      start of the provider happened while the journal held a prepared record. */
  method AnyUse(journal: Journal, runner: Runner, operations: seq<Operation>)
    requires journal.Valid() && StartsArePrepared(runner.effects)
    modifies journal, runner
    ensures journal.Valid() && old(runner.effects) <= runner.effects && StartsArePrepared(runner.effects)
    ensures Progressed(old(journal.DurableRecords()), journal.DurableRecords())
    ensures forall id <- old(journal.DurableRecords()) ::
              journal.Held(id).Some? && Follows(old(journal.DurableRecords())[id], journal.Held(id).value)
    ensures forall id :: PowerLoss !in operations && old(journal.Held(id)).Some? ==>
              journal.Held(id).Some? && Follows(old(journal.Held(id)).value, journal.Held(id).value)
  {
    hide ValidFiles, ValidRecord, Permitted, Follows, ValidNonce, LeftBehind, Last, DurableIn, HeldIn;
    ghost var first := journal.DurableRecords();
    ProgressedItself(first);
    forall id | journal.Held(id).Some?
      ensures Follows(journal.Held(id).value, journal.Held(id).value)
    {
      FollowsItself(journal.Held(id).value);
    }
    for i := 0 to |operations|
      invariant journal.Valid() && old(runner.effects) <= runner.effects && StartsArePrepared(runner.effects)
      invariant Progressed(first, journal.DurableRecords())
      invariant forall id :: PowerLoss !in operations && old(journal.Held(id)).Some? ==>
                  journal.Held(id).Some? && Follows(old(journal.Held(id)).value, journal.Held(id).value)
    {
      label before:
      AnyStep(journal, runner, operations[i]);
      ProgressedOn(first, old@before(journal.DurableRecords()), journal.DurableRecords());
      forall id | PowerLoss !in operations && old(journal.Held(id)).Some?
        ensures journal.Held(id).Some? && Follows(old(journal.Held(id)).value, journal.Held(id).value)
      {
        FollowsOn(old(journal.Held(id)).value, old@before(journal.Held(id)).value, journal.Held(id).value);
      }
    }
    forall id | id in first
      ensures journal.Held(id).Some? && Follows(first[id], journal.Held(id).value)
    {
      HeldFollowsDurable(journal, id);
      FollowsOn(first[id], journal.DurableRecords()[id], journal.Held(id).value);
    }
  }
}
