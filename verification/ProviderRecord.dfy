/**
 Records of the provider journal: validation, encoding and the transitions that a write
 may make (linux/native/src/helper/linux_provider_journal.cc).  None stands for a throw.
 */
module ProviderRecord {
  import opened Primitives
  import opened SortedMap
  import opened Json
  import opened JsonParser
  import opened JsonRoundTrip
  import opened CanonicalObject
  import opened WireMessages
  import opened StageMarker

  datatype State = Prepared | ManagerStarted | VerificationPending | Completed | ManualActionRequired

  datatype Transaction = Transaction(
    provider: string, packageId: string, identity: string, state: State, architecture: string, scope: string,
    authority: string)

  datatype Record = Record(
    schemaVersion: int64, transactionId: string, transaction: Transaction, expected: string, commandSha256: string)

  //
  // Validation
  //

  /** The regular expression ^[A-Za-z0-9][A-Za-z0-9...]{0,limit - 1}$ with extra characters. */
  predicate IsToken(t: string, extra: set<char>, limit: nat)
  {
    && 0 < |t| <= limit && IsAlphaNumeric(t[0])
    && forall i :: 0 < i < |t| ==> IsAlphaNumeric(t[i]) || t[i] in extra
  }

  predicate IsIdentity(t: string) { IsToken(t, {'.', '_', ':', '+', '-'}, 256) }

  predicate ValidRecord(r: Record)
  {
    && r.schemaVersion == 1 && ValidNonce(r.transactionId)
    && r.transaction.provider in {"apt", "dnf", "flatpak", "snap"}
    && 0 < |r.transaction.packageId| <= 256
    && IsIdentity(r.transaction.identity)
    && 0 < |r.expected| <= 128
    && (r.transaction.architecture == "" || IsToken(r.transaction.architecture, {'.', '_', '-'}, 32))
    && (r.transaction.scope == "" || IsToken(r.transaction.scope, {'.', '_', '/', '-'}, 128))
    && (r.transaction.authority == "" || IsToken(r.transaction.authority, {'.', '_', '-'}, 128))
    && IsSha256(r.commandSha256)
  }

  //
  // Encoding
  //

  function StateName(s: State): string
  {
    match s
    case Prepared => "prepared"
    case ManagerStarted => "managerStarted"
    case VerificationPending => "verificationPending"
    case Completed => "completed"
    case ManualActionRequired => "manualActionRequired"
  }

  function ParseState(t: string): Option<State>
  {
    if t == "prepared" then Some(Prepared)
    else if t == "managerStarted" then Some(ManagerStarted)
    else if t == "verificationPending" then Some(VerificationPending)
    else if t == "completed" then Some(Completed)
    else if t == "manualActionRequired" then Some(ManualActionRequired)
    else None
  }

  lemma StateNames(s: State)
    ensures ParseState(StateName(s)) == Some(s)
  {
    assert "prepared"[0] == 'p' && "managerStarted"[2] == 'n' && "verificationPending"[0] == 'v'
           && "completed"[0] == 'c' && "manualActionRequired"[4] == 'a' && "managerStarted"[4] == 'g';
    assert |"manualActionRequired"| == 20 && |"managerStarted"| == 14;
  }

  lemma NamedStates(t: string)
    requires ParseState(t).Some?
    ensures StateName(ParseState(t).value) == t
  {
  }

  const PAYLOAD_KEYS := [
    "commandSha256", "expectedArchitecture", "expectedVersionOrRevision", "packageId", "provider", "providerAuthority",
    "providerScope", "providerState", "providerTransactionIdentity", "schemaVersion", "transactionId"]

  const WRAPPER_KEYS := ["payload", "recordSha256"]

  function PayloadValues(r: Record): (values: seq<JsonValue>)
    ensures |values| == |PAYLOAD_KEYS|
  {
    [String(r.commandSha256), String(r.transaction.architecture), String(r.expected), String(r.transaction.packageId),
     String(r.transaction.provider), String(r.transaction.authority), String(r.transaction.scope),
     String(StateName(r.transaction.state)), String(r.transaction.identity), Integer(r.schemaVersion),
     String(r.transactionId)]
  }

  /** The insertions of the encoder, in its order. */
  function PayloadFields(r: Record): Fields
  {
    [Entry("commandSha256", String(r.commandSha256)), Entry("expectedVersionOrRevision", String(r.expected)),
     Entry("expectedArchitecture", String(r.transaction.architecture)),
     Entry("packageId", String(r.transaction.packageId)), Entry("provider", String(r.transaction.provider)),
     Entry("providerAuthority", String(r.transaction.authority)),
     Entry("providerScope", String(r.transaction.scope)),
     Entry("providerState", String(StateName(r.transaction.state))),
     Entry("providerTransactionIdentity", String(r.transaction.identity)),
     Entry("schemaVersion", Integer(r.schemaVersion)), Entry("transactionId", String(r.transactionId))]
  }

  function Payload(r: Record): JsonValue { Object(Inserted(PayloadFields(r))) }

  /** EncodeRecord, for a digest function. */
  function Encode(r: Record, sha256: string -> string): Option<string>
  {
    if !ValidRecord(r) then None
    else
      Some(EncodeText(Object(Inserted(
        [Entry("payload", Payload(r)), Entry("recordSha256", String(sha256(EncodeText(Payload(r)))))]))))
  }

  predicate Typed(values: seq<JsonValue>)
    requires |values| == |PAYLOAD_KEYS|
  {
    && (forall i :: 0 <= i < 9 ==> values[i].String?)
    && values[9].Integer? && INT64_MIN <= values[9].integer <= INT64_MAX && values[10].String?
    && ParseState(values[7].text).Some?
  }

  function RecordOf(values: seq<JsonValue>): Record
    requires |values| == |PAYLOAD_KEYS| && Typed(values)
  {
    Record(
      values[9].integer, values[10].text,
      Transaction(values[4].text, values[3].text, values[8].text, ParseState(values[7].text).value, values[1].text,
                  values[6].text, values[5].text),
      values[2].text, values[0].text)
  }

  /** DecodeRecord */
  function Decode(bytes: string, sha256: string -> string): Option<Record>
  {
    match ReadObject(bytes, WRAPPER_KEYS)
    case None => None
    case Some(wrapper) =>
      match Members(wrapper[0], PAYLOAD_KEYS)
      case None => None
      case Some(values) =>
        if wrapper[1] != String(sha256(EncodeText(wrapper[0]))) || !Typed(values) || !ValidRecord(RecordOf(values)) then None
        else Some(RecordOf(values))
  }

  lemma WrapperAscending()
    ensures Ascending(WRAPPER_KEYS)
  {
    hide Less;
    LessAt("payload", "recordSha256", 0);
    AscendingFromNeighbours(WRAPPER_KEYS);
  }

  lemma EarlyKeysAscend()
    ensures Less("commandSha256", "expectedArchitecture") && Less("expectedArchitecture", "expectedVersionOrRevision")
    ensures Less("expectedVersionOrRevision", "packageId") && Less("packageId", "provider")
    ensures Less("provider", "providerAuthority")
  {
    hide Less;
    LessAt("commandSha256", "expectedArchitecture", 0);
    assert "expectedArchitecture"[..8] == "expectedVersionOrRevision"[..8];
    LessAt("expectedArchitecture", "expectedVersionOrRevision", 8);
    LessAt("expectedVersionOrRevision", "packageId", 0);
    assert "packageId"[..1] == "provider"[..1];
    LessAt("packageId", "provider", 1);
    assert "provider"[..8] == "providerAuthority"[..8];
    LessAt("provider", "providerAuthority", 8);
  }

  lemma LateKeysAscend()
    ensures Less("providerAuthority", "providerScope") && Less("providerScope", "providerState")
    ensures Less("providerState", "providerTransactionIdentity") && Less("providerTransactionIdentity", "schemaVersion")
    ensures Less("schemaVersion", "transactionId")
  {
    hide Less;
    assert "providerAuthority"[..8] == "providerScope"[..8];
    LessAt("providerAuthority", "providerScope", 8);
    assert "providerScope"[..9] == "providerState"[..9];
    LessAt("providerScope", "providerState", 9);
    assert "providerState"[..8] == "providerTransactionIdentity"[..8];
    LessAt("providerState", "providerTransactionIdentity", 8);
    LessAt("providerTransactionIdentity", "schemaVersion", 0);
    LessAt("schemaVersion", "transactionId", 0);
  }

  lemma PayloadAscending()
    ensures Ascending(PAYLOAD_KEYS)
  {
    hide Less;
    EarlyKeysAscend();
    LateKeysAscend();
    AscendingFromNeighbours(PAYLOAD_KEYS);
  }

  lemma PayloadRearranges(r: Record)
    ensures Rearranges(PayloadFields(r), PAYLOAD_KEYS, PayloadValues(r),
                       [0, 2, 1, 3, 4, 5, 6, 7, 8, 9, 10], [0, 2, 1, 3, 4, 5, 6, 7, 8, 9, 10])
  {
    hide StateName;
  }

  lemma PayloadShape(r: Record)
    ensures Payload(r) == Object(Assemble(PAYLOAD_KEYS, PayloadValues(r))) && Valid(Payload(r))
    ensures Members(Payload(r), PAYLOAD_KEYS) == Some(PayloadValues(r))
  {
    hide Inserted, Assemble, Members, Less, Ascending, PayloadFields, PayloadValues, Rearranges, Valid;
    PayloadAscending();
    PayloadRearranges(r);
    InsertionOrder(PayloadFields(r), PAYLOAD_KEYS, PayloadValues(r),
                   [0, 2, 1, 3, 4, 5, 6, 7, 8, 9, 10], [0, 2, 1, 3, 4, 5, 6, 7, 8, 9, 10]);
    AssembleMembers(PAYLOAD_KEYS, PayloadValues(r));
    PayloadValid(r);
  }

  lemma PayloadValid(r: Record)
    requires Sorted(Assemble(PAYLOAD_KEYS, PayloadValues(r)))
    ensures Valid(Object(Assemble(PAYLOAD_KEYS, PayloadValues(r))))
  {
    hide Assemble, Less, StateName;
    var o := Assemble(PAYLOAD_KEYS, PayloadValues(r));
    forall i | 0 <= i < |o|
      ensures Valid(o[i].value)
    {
      assert o[i].value == PayloadValues(r)[i];
    }
  }

  function WrapperValues(payload: JsonValue, digest: string): (values: seq<JsonValue>)
    ensures |values| == |WRAPPER_KEYS|
  {
    [payload, String(digest)]
  }

  lemma WrapperText(payload: JsonValue, digest: string)
    requires Valid(payload)
    ensures var text := EncodeText(Object(Inserted([Entry("payload", payload), Entry("recordSha256", String(digest))])));
            && text == WriteObject(WRAPPER_KEYS, WrapperValues(payload, digest))
            && ReadObject(text, WRAPPER_KEYS) == Some(WrapperValues(payload, digest))
  {
    hide Inserted, Assemble, EncodeText, Less, Ascending, ReadObject, Valid;
    var fields := [Entry("payload", payload), Entry("recordSha256", String(digest))];
    WrapperAscending();
    InsertionOrder(fields, WRAPPER_KEYS, WrapperValues(payload, digest), [0, 1], [0, 1]);
    TextValid(digest);
    ReadInvertsWrite(WRAPPER_KEYS, WrapperValues(payload, digest));
  }

  lemma TextValid(t: string)
    ensures Valid(String(t))
  {
  }

  /** Every record that encodes is read back. */
  lemma DecodeInvertsEncode(r: Record, sha256: string -> string)
    requires Encode(r, sha256).Some?
    ensures Decode(Encode(r, sha256).value, sha256) == Some(r)
  {
    hide Inserted, EncodeText, ReadObject, Members, Payload, PayloadValues, ValidRecord, Valid, Typed, RecordOf;
    PayloadShape(r);
    WrapperText(Payload(r), sha256(EncodeText(Payload(r))));
    ValuesRead(r);
  }

  lemma ValuesRead(r: Record)
    ensures Typed(PayloadValues(r)) && RecordOf(PayloadValues(r)) == r
  {
    hide StateName, ParseState;
    StateNames(r.transaction.state);
  }

  lemma ValuesWritten(values: seq<JsonValue>)
    requires |values| == |PAYLOAD_KEYS| && Typed(values)
    ensures PayloadValues(RecordOf(values)) == values
  {
    hide StateName, ParseState;
    NamedStates(values[7].text);
  }

  /** Every accepted text is the encoding of the record that it is read as. */
  lemma EncodeInvertsDecode(bytes: string, sha256: string -> string)
    requires Decode(bytes, sha256).Some?
    ensures Encode(Decode(bytes, sha256).value, sha256) == Some(bytes)
  {
    hide Inserted, EncodeText, ReadObject, WriteObject, Members, PayloadFields, PayloadValues, ValidRecord, Valid, Typed, RecordOf,
         Ascending, Assemble;
    var wrapper := ReadObject(bytes, WRAPPER_KEYS).value;
    var values := Members(wrapper[0], PAYLOAD_KEYS).value;
    var r := Decode(bytes, sha256).value;
    WrapperAscending();
    PayloadAscending();
    WriteInvertsRead(bytes, WRAPPER_KEYS);
    assert Valid(wrapper[0]);
    MembersAssemble(wrapper[0], PAYLOAD_KEYS);
    ValuesWritten(values);
    PayloadShape(r);
    WrapperText(wrapper[0], sha256(EncodeText(wrapper[0])));
    assert wrapper == WrapperValues(wrapper[0], sha256(EncodeText(wrapper[0])));
  }

  //
  // Transitions
  //

  predicate ImmutableFieldsMatch(a: Record, b: Record)
  {
    && a.schemaVersion == b.schemaVersion && a.transactionId == b.transactionId
    && a.transaction.provider == b.transaction.provider && a.transaction.packageId == b.transaction.packageId
    && a.transaction.architecture == b.transaction.architecture && a.transaction.scope == b.transaction.scope
    && a.transaction.authority == b.transaction.authority && a.expected == b.expected
    && a.commandSha256 == b.commandSha256
  }

  /** The identity before the provider has given one. */
  function Pending(r: Record): string { "pending-" + r.commandSha256 }

  predicate IdentityTransitionAllowed(from: Record, to: Record)
  {
    || from.transaction.identity == to.transaction.identity
    || (&& from.transaction.identity == Pending(from)
        && (|| (from.transaction.state == Prepared && to.transaction.state == ManagerStarted)
            || (from.transaction.state == VerificationPending && to.transaction.state == Completed))
        && IsIdentity(to.transaction.identity))
  }

  predicate StateTransitionAllowed(from: State, to: State)
  {
    || from == to
    || (from == Prepared && to in {ManagerStarted, VerificationPending, ManualActionRequired})
    || (from == ManagerStarted && to in {VerificationPending, Completed, ManualActionRequired})
    || (from == VerificationPending && to in {Completed, ManualActionRequired})
  }

  predicate Allowed(from: Record, to: Record)
  {
    && ImmutableFieldsMatch(from, to) && IdentityTransitionAllowed(from, to)
    && StateTransitionAllowed(from.transaction.state, to.transaction.state)
  }

  function Rank(s: State): nat
  {
    match s
    case Prepared => 0
    case ManagerStarted => 1
    case VerificationPending => 2
    case Completed => 3
    case ManualActionRequired => 3
  }

  predicate IsTerminal(s: State) { s == Completed || s == ManualActionRequired }

  /** The record after a step that changes only the state and the identity. */
  function Stepped(a: Record, state: State, identity: string): Record
  {
    a.(transaction := a.transaction.(state := state, identity := identity))
  }

  /** A record may follow exactly if nothing but state and identity differs; the state stays or
      advances, except that a prepared transaction cannot complete at once; and the identity stays, or
      the pending one is replaced as the start is recorded or as a pending verification completes. */
  lemma AllowedExactly(a: Record, b: Record)
    ensures var x, y := a.transaction.state, b.transaction.state;
            Allowed(a, b) <==>
            && b == Stepped(a, y, b.transaction.identity)
            && (x == y || (Rank(x) < Rank(y) && !(x == Prepared && y == Completed)))
            && (|| a.transaction.identity == b.transaction.identity
                || (&& a.transaction.identity == "pending-" + a.commandSha256 && IsIdentity(b.transaction.identity)
                    && ((x == Prepared && y == ManagerStarted) || (x == VerificationPending && y == Completed))))
  {
    hide IsIdentity;
  }

  /** Terminal are exactly the states that nothing can follow. */
  lemma TerminalExactly(s: State)
    ensures IsTerminal(s) <==> forall t :: StateTransitionAllowed(s, t) ==> t == s
  {
    if !IsTerminal(s) { assert StateTransitionAllowed(s, ManualActionRequired); }
  }

  /** How a later record relates to an earlier one of the same transaction. */
  predicate Follows(a: Record, b: Record)
  {
    && ImmutableFieldsMatch(a, b)
    && (a.transaction.state == b.transaction.state || Rank(a.transaction.state) < Rank(b.transaction.state))
    && (IsTerminal(a.transaction.state) ==> b == a)
    && (a.transaction.identity == b.transaction.identity ||
        (a.transaction.identity == Pending(a) && Rank(a.transaction.state) < Rank(b.transaction.state)))
  }

  lemma FollowsItself(a: Record)
    ensures Follows(a, a)
  {
  }

  lemma FollowsOn(a: Record, b: Record, c: Record)
    requires Follows(a, b) && Follows(b, c)
    ensures Follows(a, c)
  {
  }

  lemma AllowedFollows(a: Record, b: Record)
    requires Allowed(a, b)
    ensures Follows(a, b)
  {
  }

  /** Every record is an allowed successor of the one before it. */
  ghost predicate Chain(h: seq<Record>)
  {
    forall i :: 0 <= i < |h| - 1 ==> Allowed(h[i], h[i + 1])
  }

  /** Immutable fields never change, the state only advances, terminal records stay, and the
      identity changes only away from the pending digest. */
  lemma {:induction false} ChainFollows(h: seq<Record>, i: nat, j: nat)
    requires Chain(h) && i <= j < |h|
    ensures Follows(h[i], h[j])
    decreases j
  {
    if i < j {
      ChainFollows(h, i, j - 1);
      assert Allowed(h[j - 1], h[j - 1 + 1]);
    }
  }

  /** The identity changes at most once. */
  lemma IdentityChangesOnce(h: seq<Record>, i: nat, j: nat)
    requires Chain(h) && i < j < |h| - 1
    requires h[i].transaction.identity != h[i + 1].transaction.identity
    ensures h[j].transaction.identity == h[j + 1].transaction.identity
  {
    assert Allowed(h[i], h[i + 1]);
    ChainFollows(h, i + 1, j);
    ChainFollows(h, i, j);
    assert Allowed(h[j], h[j + 1]);
    assert Pending(h[i]) == Pending(h[i + 1]) == Pending(h[j]);
  }
}
