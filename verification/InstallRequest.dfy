/**
 The install request: parsing, validation and canonical encoding
 (native_runtime/cpp/native_install_request.cc).  None stands for a throw.
 */
module InstallRequest {
  import opened Primitives
  import opened SortedMap
  import opened Json
  import opened CanonicalObject
  import opened WireMessages
  import opened Text
  import opened Utf8

  //
  // Field checks
  //

  /** RequireBoundedString */
  predicate IsBounded(t: string, maximum: nat)
  {
    && Scalars(t).Some? && 0 < |Scalars(t).value| <= maximum
    && exists i :: 0 <= i < |t| && t[i] !in {' ', '\t', '\r', '\n'}
  }

  predicate IsDottedEdge(c: char) { 'a' <= c <= 'z' || '0' <= c <= '9' }

  predicate IsDottedIdentifier(t: string)
  {
    && 3 <= |t| <= 128 && IsDottedEdge(t[0]) && IsDottedEdge(t[|t| - 1])
    && forall i :: 0 <= i < |t| ==> IsDottedEdge(t[i]) || t[i] in {'.', '_', '-'}
  }

  predicate IsSafeSiblingName(t: string)
  {
    && Scalars(t).Some? && 0 < |Scalars(t).value| <= 255 && t != "." && t != ".."
    && '/' !in t && '\\' !in t && ':' !in t
  }

  predicate IsSafeRelativePath(t: string)
  {
    && Scalars(t).Some? && 0 < |Scalars(t).value| <= 1024 && '\\' !in t
    && !IsDrivePrefixed(t)
    && var components := Split(t, '/');
       forall i :: 0 <= i < |components| ==> components[i] !in {"", ".", ".."}
  }

  predicate IsKeyId(t: string)
  {
    0 < |t| <= 128 && forall i :: 0 <= i < |t| ==> IsAlphaNumeric(t[i]) || t[i] in {'.', '_', '-'}
  }

  predicate IsSignature(t: string)
  {
    && |t| == 88 && t[86] == '=' && t[87] == '='
    && forall i :: 0 <= i < 86 ==> IsAlphaNumeric(t[i]) || t[i] in {'+', '/'}
  }

  function StrategyProviders(strategy: string): set<string>
  {
    if strategy == "directoryReplace" then {"platformDirectory"}
    else if strategy == "singleFileReplace" then {"platformFile"}
    else if strategy == "verifiedInstallerHandoff" then {"macosInstaller", "windowsInno"}
    else if strategy == "systemPackageTransaction" then {"apt", "dnf"}
    else if strategy == "externalManagedRefresh" then {"flatpak", "snap"}
    else {}
  }

  function StrategyClasses(strategy: string): set<string>
  {
    if strategy == "directoryReplace" then
      {"sameUserWritable", "applicationBundle", "applicationDirectory", "protectedApplication"}
    else if strategy == "singleFileReplace" then {"singleExecutable"}
    else if strategy == "verifiedInstallerHandoff" then
      {"applicationBundle", "applicationDirectory", "protectedApplication"}
    else if strategy == "systemPackageTransaction" then {"systemPackage"}
    else if strategy == "externalManagedRefresh" then {"externalManaged"}
    else {}
  }

  //
  // Target
  //

  datatype Target = Target(
    targetClass: string,
    pathHint: string,
    targetNameHint: string,
    executableRelativePath: string,
    identityProofSha256: string)

  predicate ValidTarget(r: Target)
  {
    && IsBounded(r.pathHint, 4096) && IsSafeSiblingName(r.targetNameHint)
    && IsSafeRelativePath(r.executableRelativePath) && IsSha256(r.identityProofSha256)
  }

  const TARGET_KEYS := ["class", "executableRelativePath", "identityProofSha256", "pathHint", "targetNameHint"]

  function TargetValues(r: Target): (values: seq<JsonValue>)
    ensures |values| == |TARGET_KEYS|
  {
    [String(r.targetClass), String(r.executableRelativePath), String(r.identityProofSha256), String(r.pathHint), String(r.targetNameHint)]
  }

  /** The insertions of the encoder, in its order. */
  function TargetFields(r: Target): Fields
  {
    [Entry("class", String(r.targetClass)),
     Entry("pathHint", String(r.pathHint)),
     Entry("targetNameHint", String(r.targetNameHint)),
     Entry("executableRelativePath", String(r.executableRelativePath)),
     Entry("identityProofSha256", String(r.identityProofSha256))]
  }

  function TargetFrom(values: seq<JsonValue>): Option<Target>
  {
    if |values| == |TARGET_KEYS|
       && values[0].String? && values[1].String? && values[2].String? && values[3].String? && values[4].String? then
      var r := Target(values[0].text, values[3].text, values[4].text, values[1].text, values[2].text);
      if ValidTarget(r) then Some(r) else None
    else None
  }

  const TARGET := Codec(TARGET_KEYS, [0, 3, 4, 1, 2], [0, 3, 4, 1, 2], TargetFields, TargetValues, ValidTarget, TargetFrom)

  lemma TargetKeysAscending()
    ensures Ascending(TARGET_KEYS)
  {
    hide Less;
    LessAt("class", "executableRelativePath", 0);
    LessAt("executableRelativePath", "identityProofSha256", 0);
    LessAt("identityProofSha256", "pathHint", 0);
    LessAt("pathHint", "targetNameHint", 0);
    AscendingFromNeighbours(TARGET_KEYS);
  }

  lemma TargetIsFaithful()
    ensures Faithful(TARGET)
  {
    hide ValidTarget, Less;
    TargetKeysAscending();
    forall r
      ensures WritesRecord(TARGET, r)
    {
    }
  }

  //
  // VersionIdentity
  //

  datatype VersionIdentity = VersionIdentity(
    version: string,
    buildNumber: int64,
    packageIdentitySha256: string)

  predicate ValidVersionIdentity(r: VersionIdentity)
  {
    && IsBounded(r.version, 128) && r.buildNumber >= 0 && IsSha256(r.packageIdentitySha256)
  }

  const IDENTITY_KEYS := ["buildNumber", "packageIdentitySha256", "version"]

  function VersionIdentityValues(r: VersionIdentity): (values: seq<JsonValue>)
    ensures |values| == |IDENTITY_KEYS|
  {
    [Integer(r.buildNumber), String(r.packageIdentitySha256), String(r.version)]
  }

  /** The insertions of the encoder, in its order. */
  function VersionIdentityFields(r: VersionIdentity): Fields
  {
    [Entry("version", String(r.version)),
     Entry("buildNumber", Integer(r.buildNumber)),
     Entry("packageIdentitySha256", String(r.packageIdentitySha256))]
  }

  function VersionIdentityFrom(values: seq<JsonValue>): Option<VersionIdentity>
  {
    if |values| == |IDENTITY_KEYS|
       && values[0].Integer? && values[1].String? && values[2].String?
       && INT64_MIN <= values[0].integer <= INT64_MAX then
      var r := VersionIdentity(values[2].text, values[0].integer, values[1].text);
      if ValidVersionIdentity(r) then Some(r) else None
    else None
  }

  const IDENTITY := Codec(IDENTITY_KEYS, [2, 0, 1], [1, 2, 0], VersionIdentityFields, VersionIdentityValues, ValidVersionIdentity, VersionIdentityFrom)

  lemma VersionIdentityKeysAscending()
    ensures Ascending(IDENTITY_KEYS)
  {
    hide Less;
    LessAt("buildNumber", "packageIdentitySha256", 0);
    LessAt("packageIdentitySha256", "version", 0);
    AscendingFromNeighbours(IDENTITY_KEYS);
  }

  lemma VersionIdentityIsFaithful()
    ensures Faithful(IDENTITY)
  {
    hide ValidVersionIdentity, Less;
    VersionIdentityKeysAscending();
    forall r
      ensures WritesRecord(IDENTITY, r)
    {
    }
  }

  //
  // Stage
  //

  datatype Stage = Stage(
    pathHint: string,
    ownershipNonce: string,
    provenanceSha256: string,
    artifactSha256: string,
    artifactLength: int64)

  predicate ValidStage(r: Stage)
  {
    && IsBounded(r.pathHint, 4096) && IsSha256(r.ownershipNonce) && IsSha256(r.provenanceSha256)
    && IsSha256(r.artifactSha256) && r.artifactLength >= 1
  }

  const STAGE_KEYS := ["artifactLength", "artifactSha256", "ownershipNonce", "pathHint", "provenanceSha256"]

  function StageValues(r: Stage): (values: seq<JsonValue>)
    ensures |values| == |STAGE_KEYS|
  {
    [Integer(r.artifactLength), String(r.artifactSha256), String(r.ownershipNonce), String(r.pathHint), String(r.provenanceSha256)]
  }

  /** The insertions of the encoder, in its order. */
  function StageFields(r: Stage): Fields
  {
    [Entry("pathHint", String(r.pathHint)),
     Entry("ownershipNonce", String(r.ownershipNonce)),
     Entry("provenanceSha256", String(r.provenanceSha256)),
     Entry("artifactSha256", String(r.artifactSha256)),
     Entry("artifactLength", Integer(r.artifactLength))]
  }

  function StageFrom(values: seq<JsonValue>): Option<Stage>
  {
    if |values| == |STAGE_KEYS|
       && values[0].Integer? && values[1].String? && values[2].String? && values[3].String? && values[4].String?
       && INT64_MIN <= values[0].integer <= INT64_MAX then
      var r := Stage(values[3].text, values[2].text, values[4].text, values[1].text, values[0].integer);
      if ValidStage(r) then Some(r) else None
    else None
  }

  const STAGE := Codec(STAGE_KEYS, [3, 2, 4, 1, 0], [4, 3, 1, 0, 2], StageFields, StageValues, ValidStage, StageFrom)

  lemma StageKeysAscending()
    ensures Ascending(STAGE_KEYS)
  {
    hide Less;
    assert "artifactLength"[..8] == "artifactSha256"[..8];
    LessAt("artifactLength", "artifactSha256", 8);
    LessAt("artifactSha256", "ownershipNonce", 0);
    LessAt("ownershipNonce", "pathHint", 0);
    assert "pathHint"[..1] == "provenanceSha256"[..1];
    LessAt("pathHint", "provenanceSha256", 1);
    AscendingFromNeighbours(STAGE_KEYS);
  }

  lemma StageIsFaithful()
    ensures Faithful(STAGE)
  {
    hide ValidStage, Less;
    StageKeysAscending();
    forall r
      ensures WritesRecord(STAGE, r)
    {
    }
  }

  //
  // SignedDescriptor
  //

  datatype SignedDescriptor = SignedDescriptor(
    canonicalSha256: string,
    signatureAlgorithm: string,
    keyId: string,
    signatureBase64: string)

  predicate ValidSignedDescriptor(r: SignedDescriptor)
  {
    && IsSha256(r.canonicalSha256) && r.signatureAlgorithm == "ed25519"
    && IsKeyId(r.keyId) && IsSignature(r.signatureBase64)
  }

  const DESCRIPTOR_KEYS := ["canonicalSha256", "keyId", "signatureAlgorithm", "signatureBase64"]

  function SignedDescriptorValues(r: SignedDescriptor): (values: seq<JsonValue>)
    ensures |values| == |DESCRIPTOR_KEYS|
  {
    [String(r.canonicalSha256), String(r.keyId), String(r.signatureAlgorithm), String(r.signatureBase64)]
  }

  /** The insertions of the encoder, in its order. */
  function SignedDescriptorFields(r: SignedDescriptor): Fields
  {
    [Entry("canonicalSha256", String(r.canonicalSha256)),
     Entry("signatureAlgorithm", String(r.signatureAlgorithm)),
     Entry("keyId", String(r.keyId)),
     Entry("signatureBase64", String(r.signatureBase64))]
  }

  function SignedDescriptorFrom(values: seq<JsonValue>): Option<SignedDescriptor>
  {
    if |values| == |DESCRIPTOR_KEYS|
       && values[0].String? && values[1].String? && values[2].String? && values[3].String? then
      var r := SignedDescriptor(values[0].text, values[2].text, values[1].text, values[3].text);
      if ValidSignedDescriptor(r) then Some(r) else None
    else None
  }

  const DESCRIPTOR := Codec(DESCRIPTOR_KEYS, [0, 2, 1, 3], [0, 2, 1, 3], SignedDescriptorFields, SignedDescriptorValues, ValidSignedDescriptor, SignedDescriptorFrom)

  lemma SignedDescriptorKeysAscending()
    ensures Ascending(DESCRIPTOR_KEYS)
  {
    hide Less;
    LessAt("canonicalSha256", "keyId", 0);
    LessAt("keyId", "signatureAlgorithm", 0);
    assert "signatureAlgorithm"[..9] == "signatureBase64"[..9];
    LessAt("signatureAlgorithm", "signatureBase64", 9);
    AscendingFromNeighbours(DESCRIPTOR_KEYS);
  }

  lemma SignedDescriptorIsFaithful()
    ensures Faithful(DESCRIPTOR)
  {
    hide ValidSignedDescriptor, Less;
    SignedDescriptorKeysAscending();
    forall r
      ensures WritesRecord(DESCRIPTOR, r)
    {
    }
  }

  //
  // Caller
  //

  datatype Caller = Caller(
    processId: int64,
    processStartIdentity: string,
    executableSha256: string,
    packageId: string,
    signerIdentity: string)

  predicate ValidCaller(r: Caller)
  {
    && 1 <= r.processId <= 4294967295 && IsBounded(r.processStartIdentity, 256)
    && IsSha256(r.executableSha256) && IsDottedIdentifier(r.packageId) && IsBounded(r.signerIdentity, 512)
  }

  const CALLER_KEYS := ["executableSha256", "packageId", "processId", "processStartIdentity", "signerIdentity"]

  function CallerValues(r: Caller): (values: seq<JsonValue>)
    ensures |values| == |CALLER_KEYS|
  {
    [String(r.executableSha256), String(r.packageId), Integer(r.processId), String(r.processStartIdentity), String(r.signerIdentity)]
  }

  /** The insertions of the encoder, in its order. */
  function CallerFields(r: Caller): Fields
  {
    [Entry("processId", Integer(r.processId)),
     Entry("processStartIdentity", String(r.processStartIdentity)),
     Entry("executableSha256", String(r.executableSha256)),
     Entry("packageId", String(r.packageId)),
     Entry("signerIdentity", String(r.signerIdentity))]
  }

  function CallerFrom(values: seq<JsonValue>): Option<Caller>
  {
    if |values| == |CALLER_KEYS|
       && values[0].String? && values[1].String? && values[2].Integer? && values[3].String? && values[4].String?
       && INT64_MIN <= values[2].integer <= INT64_MAX then
      var r := Caller(values[2].integer, values[3].text, values[0].text, values[1].text, values[4].text);
      if ValidCaller(r) then Some(r) else None
    else None
  }

  const CALLER := Codec(CALLER_KEYS, [2, 3, 0, 1, 4], [2, 3, 0, 1, 4], CallerFields, CallerValues, ValidCaller, CallerFrom)

  lemma CallerKeysAscending()
    ensures Ascending(CALLER_KEYS)
  {
    hide Less;
    LessAt("executableSha256", "packageId", 0);
    assert "packageId"[..1] == "processId"[..1];
    LessAt("packageId", "processId", 1);
    assert "processId"[..7] == "processStartIdentity"[..7];
    LessAt("processId", "processStartIdentity", 7);
    LessAt("processStartIdentity", "signerIdentity", 0);
    AscendingFromNeighbours(CALLER_KEYS);
  }

  lemma CallerIsFaithful()
    ensures Faithful(CALLER)
  {
    hide ValidCaller, Less;
    CallerKeysAscending();
    forall r
      ensures WritesRecord(CALLER, r)
    {
    }
  }

  //
  // Diagnostics
  //

  datatype Diagnostics = Diagnostics(present: bool, kind: string, stream: string)

  const ABSENT := Diagnostics(false, "", "")

  /** What ParseDiagnostics makes of the member, if there is one. */
  function DiagnosticsFrom(v: Option<JsonValue>): Option<Diagnostics>
  {
    match v
    case None => Some(ABSENT)
    case Some(o) =>
      if Members(o, ["kind"]) == Some([String("platformLog")]) then
        Some(Diagnostics(true, "platformLog", ""))
      else if Members(o, ["kind", "stream"]) == Some([String("inheritedStream"), String("stderr")]) then
        Some(Diagnostics(true, "inheritedStream", "stderr"))
      else None
  }

  function DiagnosticsValue(d: Diagnostics): Option<JsonValue>
  {
    if !d.present then None
    else Some(Object(Inserted([Entry("kind", String(d.kind))] +
                              if d.stream == "" then [] else [Entry("stream", String(d.stream))])))
  }

  /** The two objects that ParseDiagnostics accepts. */
  function Kind(kind: string): JsonValue { Object(Assemble(["kind"], [String(kind)])) }

  function KindAndStream(kind: string, stream: string): JsonValue
  {
    Object(Assemble(["kind", "stream"], [String(kind), String(stream)]))
  }

  lemma DiagnosticsKeysAscending()
    ensures Ascending(["kind"]) && Ascending(["kind", "stream"])
  {
    LessAt("kind", "stream", 0);
  }

  lemma DiagnosticsShape(d: Diagnostics)
    requires d.present
    ensures DiagnosticsValue(d) == Some(if d.stream == "" then Kind(d.kind) else KindAndStream(d.kind, d.stream))
    ensures Valid(DiagnosticsValue(d).value)
  {
    hide Inserted, Assemble, Less;
    DiagnosticsKeysAscending();
    var one := [Entry("kind", String(d.kind))];
    if d.stream == "" {
      assert one + [] == one;
      InsertionOrder(one, ["kind"], [String(d.kind)], [0], [0]);
      AssembleMembers(["kind"], [String(d.kind)]);
    } else {
      var two := one + [Entry("stream", String(d.stream))];
      InsertionOrder(two, ["kind", "stream"], [String(d.kind), String(d.stream)], [0, 1], [0, 1]);
      AssembleMembers(["kind", "stream"], [String(d.kind), String(d.stream)]);
    }
  }

  lemma DiagnosticsReads(d: Diagnostics)
    requires d.present && DiagnosticsFrom(DiagnosticsValue(d)).Some?
    ensures DiagnosticsFrom(DiagnosticsValue(d)) == Some(d)
  {
    hide DiagnosticsValue, Assemble, Less, Find;
    DiagnosticsShape(d);
    DiagnosticsKeysAscending();
    AssembleMembers(["kind"], [String(d.kind)]);
    AssembleMembers(["kind", "stream"], [String(d.kind), String(d.stream)]);
  }

  lemma DiagnosticsWrites(v: Option<JsonValue>)
    requires v.Some? ==> Valid(v.value)
    requires DiagnosticsFrom(v).Some?
    ensures DiagnosticsValue(DiagnosticsFrom(v).value) == v
  {
    hide DiagnosticsValue, Assemble, Less, Members;
    if v.Some? {
      DiagnosticsShape(DiagnosticsFrom(v).value);
      DiagnosticsKeysAscending();
      if Members(v.value, ["kind"]).Some? { MembersAssemble(v.value, ["kind"]); }
      if Members(v.value, ["kind", "stream"]).Some? { MembersAssemble(v.value, ["kind", "stream"]); }
    } else {
      NoDiagnostics();
    }
  }

  lemma NoDiagnostics()
    ensures DiagnosticsValue(ABSENT) == None
  {
  }

  //
  // The request
  //

  datatype Request = Request(
    schemaVersion: int64,
    protocolVersion: int64,
    transactionId: string,
    policyId: string,
    packageId: string,
    strategy: string,
    provider: string,
    target: Target,
    currentIdentity: VersionIdentity,
    desiredIdentity: VersionIdentity,
    stage: Stage,
    signedDescriptor: SignedDescriptor,
    caller: Caller,
    requestNonce: string,
    diagnostics: Diagnostics)

  predicate ValidRequest(r: Request)
  {
    && r.schemaVersion == 1 && r.protocolVersion == 1
    && IsLowercaseUuid(r.transactionId) && IsDottedIdentifier(r.policyId) && IsDottedIdentifier(r.packageId)
    && r.provider in StrategyProviders(r.strategy) && r.target.targetClass in StrategyClasses(r.strategy)
    && r.caller.packageId == r.packageId && IsReadyToken(r.requestNonce)
  }

  const PLAIN_KEYS := [
    "caller", "currentIdentity", "desiredIdentity", "packageId", "policyId", "protocolVersion",
    "provider", "requestNonce", "schemaVersion", "signedDescriptor", "stage", "strategy", "target",
    "transactionId"]

  /** With the optional member, which comes at place 3. */
  const FULL_KEYS := [
    "caller", "currentIdentity", "desiredIdentity", "diagnosticsDestination", "packageId",
    "policyId", "protocolVersion", "provider", "requestNonce", "schemaVersion", "signedDescriptor",
    "stage", "strategy", "target", "transactionId"]

  function PlainValues(r: Request): (values: seq<JsonValue>)
    ensures |values| == |PLAIN_KEYS|
  {
    [ToObject(CALLER, r.caller), ToObject(IDENTITY, r.currentIdentity),
     ToObject(IDENTITY, r.desiredIdentity), String(r.packageId), String(r.policyId),
     Integer(r.protocolVersion), String(r.provider), String(r.requestNonce),
     Integer(r.schemaVersion), ToObject(DESCRIPTOR, r.signedDescriptor), ToObject(STAGE, r.stage),
     String(r.strategy), ToObject(TARGET, r.target), String(r.transactionId)]
  }

  function FullValues(r: Request, d: JsonValue): (values: seq<JsonValue>)
    ensures |values| == |FULL_KEYS|
  {
    PlainValues(r)[..3] + [d] + PlainValues(r)[3..]
  }

  /** The insertions of the encoder, in its order. */
  function PlainFields(r: Request): Fields
  {
    [Entry("schemaVersion", Integer(r.schemaVersion)),
     Entry("protocolVersion", Integer(r.protocolVersion)),
     Entry("transactionId", String(r.transactionId)), Entry("policyId", String(r.policyId)),
     Entry("packageId", String(r.packageId)), Entry("strategy", String(r.strategy)),
     Entry("provider", String(r.provider)), Entry("target", ToObject(TARGET, r.target)),
     Entry("currentIdentity", ToObject(IDENTITY, r.currentIdentity)),
     Entry("desiredIdentity", ToObject(IDENTITY, r.desiredIdentity)),
     Entry("stage", ToObject(STAGE, r.stage)),
     Entry("signedDescriptor", ToObject(DESCRIPTOR, r.signedDescriptor)),
     Entry("caller", ToObject(CALLER, r.caller)), Entry("requestNonce", String(r.requestNonce))]
  }

  function RequestObject(r: Request): JsonValue
  {
    match DiagnosticsValue(r.diagnostics)
    case None => Object(Inserted(PlainFields(r)))
    case Some(d) => Object(Inserted(PlainFields(r) + [Entry("diagnosticsDestination", d)]))
  }

  /** All members have their type and their parts are valid. */
  predicate WellTyped(values: seq<JsonValue>)
    requires |values| == |PLAIN_KEYS|
  {
    && FromObject(CALLER, values[0]).Some?
    && FromObject(IDENTITY, values[1]).Some?
    && FromObject(IDENTITY, values[2]).Some?
    && values[3].String?
    && values[4].String?
    && values[5].Integer? && INT64_MIN <= values[5].integer <= INT64_MAX
    && values[6].String?
    && values[7].String?
    && values[8].Integer? && INT64_MIN <= values[8].integer <= INT64_MAX
    && FromObject(DESCRIPTOR, values[9]).Some?
    && FromObject(STAGE, values[10]).Some?
    && values[11].String?
    && FromObject(TARGET, values[12]).Some?
    && values[13].String?
  }

  function RequestOf(values: seq<JsonValue>, d: Diagnostics): Request
    requires |values| == |PLAIN_KEYS| && WellTyped(values)
  {
    Request(values[8].integer, values[5].integer, values[13].text, values[4].text, values[3].text,
            values[11].text, values[6].text, FromObject(TARGET, values[12]).value,
            FromObject(IDENTITY, values[1]).value, FromObject(IDENTITY, values[2]).value,
            FromObject(STAGE, values[10]).value, FromObject(DESCRIPTOR, values[9]).value, FromObject(CALLER, values[0]).value,
            values[7].text, d)
  }

  function RequestFrom(values: seq<JsonValue>, diagnostics: Option<JsonValue>): Option<Request>
    requires |values| == |PLAIN_KEYS|
  {
    var d := DiagnosticsFrom(diagnostics);
    if d.None? || !WellTyped(values) then None
    else
      var r := RequestOf(values, d.value);
      if ValidRequest(r) then Some(r) else None
  }

  function ParseRequest(text: string): Option<Request>
  {
    if Scalars(text).None? then None
    else match ReadObject(text, PLAIN_KEYS)
      case Some(values) => RequestFrom(values, None)
      case None =>
        match ReadObject(text, FULL_KEYS)
        case Some(values) => RequestFrom(values[..3] + values[4..], Some(values[3]))
        case None => None
  }

  /** The encoder parses what it has written and throws if that fails. */
  function EncodeRequest(r: Request): Option<string>
  {
    var text := EncodeText(RequestObject(r));
    if ParseRequest(text).Some? then Some(text) else None
  }

  /** Diagnostics that are not present have no kind and no stream. */
  function Normalise(r: Request): Request
  {
    if r.diagnostics.present then r else r.(diagnostics := ABSENT)
  }

  lemma PlainKeysAscending()
    ensures Ascending(PLAIN_KEYS)
  {
    hide Less;
    assert "caller"[..1] == "currentIdentity"[..1];
    LessAt("caller", "currentIdentity", 1);
    LessAt("currentIdentity", "desiredIdentity", 0);
    LessAt("desiredIdentity", "packageId", 0);
    assert "packageId"[..1] == "policyId"[..1];
    LessAt("packageId", "policyId", 1);
    assert "policyId"[..1] == "protocolVersion"[..1];
    LessAt("policyId", "protocolVersion", 1);
    assert "protocolVersion"[..3] == "provider"[..3];
    LessAt("protocolVersion", "provider", 3);
    LessAt("provider", "requestNonce", 0);
    LessAt("requestNonce", "schemaVersion", 0);
    assert "schemaVersion"[..1] == "signedDescriptor"[..1];
    LessAt("schemaVersion", "signedDescriptor", 1);
    assert "signedDescriptor"[..1] == "stage"[..1];
    LessAt("signedDescriptor", "stage", 1);
    assert "stage"[..2] == "strategy"[..2];
    LessAt("stage", "strategy", 2);
    LessAt("strategy", "target", 0);
    assert "target"[..1] == "transactionId"[..1];
    LessAt("target", "transactionId", 1);
    AscendingFromNeighbours(PLAIN_KEYS);
  }

  lemma FullKeysAscending()
    ensures Ascending(FULL_KEYS)
  {
    hide Less, Ascending;
    PlainKeysAscending();
    DiagnosticsKeyPlace();
    AscendingBetween(PLAIN_KEYS, 3, "diagnosticsDestination");
    assert PLAIN_KEYS[..3] + ["diagnosticsDestination"] + PLAIN_KEYS[3..] == FULL_KEYS;
  }

  lemma PartsAreFaithful()
    ensures Faithful(TARGET) && Faithful(IDENTITY) && Faithful(STAGE) && Faithful(DESCRIPTOR) && Faithful(CALLER)
  {
    hide Faithful;
    TargetIsFaithful();
    VersionIdentityIsFaithful();
    StageIsFaithful();
    SignedDescriptorIsFaithful();
    CallerIsFaithful();
  }

  lemma LeafValid(n: int64, t: string)
    ensures Valid(Integer(n)) && Valid(String(t))
  {
  }

  lemma PlainValuesValid(r: Request)
    ensures AllValid(PlainValues(r))
  {
    hide PlainValues, Valid;
    forall i | 0 <= i < |PlainValues(r)|
      ensures Valid(PlainValues(r)[i])
    {
      PlainValueValid(r, i);
    }
  }

  lemma PlainValueValid(r: Request, i: nat)
    requires i < |PLAIN_KEYS|
    ensures Valid(PlainValues(r)[i])
  {
    hide Valid;
    if i in {0, 1, 2, 9, 10, 12} {
      PlainPartValid(r, i);
    } else {
      PlainLeafValid(r, i);
    }
  }

  lemma PlainPartValid(r: Request, i: nat)
    requires i in {0, 1, 2, 9, 10, 12}
    ensures Valid(PlainValues(r)[i])
  {
    hide ToObject, Faithful, Valid, AllValid, Members, Assemble;
    PartsAreFaithful();
    if i == 0 {
      RecordShape(CALLER, r.caller);
    } else if i == 1 {
      RecordShape(IDENTITY, r.currentIdentity);
    } else if i == 2 {
      RecordShape(IDENTITY, r.desiredIdentity);
    } else if i == 9 {
      RecordShape(DESCRIPTOR, r.signedDescriptor);
    } else if i == 10 {
      RecordShape(STAGE, r.stage);
    } else {
      RecordShape(TARGET, r.target);
    }
  }

  lemma PlainLeafValid(r: Request, i: nat)
    requires i in {3, 4, 5, 6, 7, 8, 11, 13}
    ensures Valid(PlainValues(r)[i])
  {
    hide ToObject, Valid;
    var v := PlainValues(r)[i];
    if v.Integer? {
      LeafValid(v.integer, "");
    } else {
      LeafValid(0, v.text);
    }
  }

  lemma FullValuesValid(r: Request, d: JsonValue)
    requires Valid(d)
    ensures AllValid(FullValues(r, d))
  {
    hide PlainValues, Valid;
    PlainValuesValid(r);
  }

  const PLAIN_ORDER: seq<nat> := [8, 5, 13, 4, 3, 11, 6, 12, 1, 2, 10, 9, 0, 7]
  const PLAIN_PLACE: seq<nat> := [12, 8, 9, 4, 3, 1, 6, 13, 0, 11, 10, 5, 7, 2]

  lemma PlainOrder()
    ensures |PLAIN_ORDER| == |PLAIN_PLACE| == |PLAIN_KEYS| == 14
    ensures forall i :: 0 <= i < |PLAIN_ORDER| ==> PLAIN_ORDER[i] < |PLAIN_PLACE| && PLAIN_PLACE[PLAIN_ORDER[i]] == i
    ensures forall k :: 0 <= k < |PLAIN_PLACE| ==> PLAIN_PLACE[k] < |PLAIN_ORDER| && PLAIN_ORDER[PLAIN_PLACE[k]] == k
  {
  }

  lemma PlainFieldAt(r: Request, i: nat)
    requires i < |PLAIN_ORDER| && PLAIN_ORDER[i] < |PLAIN_KEYS|
    ensures |PlainFields(r)| == |PLAIN_ORDER|
    ensures PlainFields(r)[i] == Entry(PLAIN_KEYS[PLAIN_ORDER[i]], PlainValues(r)[PLAIN_ORDER[i]])
  {
    hide ToObject;
  }

  lemma PlainRearranges(r: Request)
    ensures Rearranges(PlainFields(r), PLAIN_KEYS, PlainValues(r), PLAIN_ORDER, PLAIN_PLACE)
  {
    hide PlainFields, PlainValues, PLAIN_ORDER, PLAIN_PLACE, PLAIN_KEYS;
    PlainOrder();
    PlainFieldAt(r, 0);
    forall i | 0 <= i < |PLAIN_ORDER|
      ensures PlainFields(r)[i] == Entry(PLAIN_KEYS[PLAIN_ORDER[i]], PlainValues(r)[PLAIN_ORDER[i]])
    {
      PlainFieldAt(r, i);
    }
  }

  lemma PlainInserted(r: Request)
    ensures Inserted(PlainFields(r)) == Assemble(PLAIN_KEYS, PlainValues(r))
  {
    hide Inserted, Assemble, Less, Ascending, Rearranges, PlainFields, PlainValues;
    PlainKeysAscending();
    PlainRearranges(r);
    InsertionOrder(PlainFields(r), PLAIN_KEYS, PlainValues(r), PLAIN_ORDER, PLAIN_PLACE);
  }

  lemma PlainText(r: Request)
    requires !r.diagnostics.present
    ensures EncodeText(RequestObject(r)) == WriteObject(PLAIN_KEYS, PlainValues(r))
  {
    hide Inserted, Assemble, EncodeText, PlainFields, PlainValues;
    PlainInserted(r);
  }

  lemma FullText(r: Request)
    requires r.diagnostics.present
    ensures EncodeText(RequestObject(r)) ==
            WriteObject(FULL_KEYS, FullValues(r, DiagnosticsValue(r.diagnostics).value))
  {
    hide Inserted, Assemble, EncodeText, Emplace, PlainFields, PlainValues;
    var d := DiagnosticsValue(r.diagnostics).value;
    InsertedLast(PlainFields(r), Entry("diagnosticsDestination", d));
    FullInserted(r, d);
  }

  lemma FullInserted(r: Request, d: JsonValue)
    ensures Emplace(Inserted(PlainFields(r)), "diagnosticsDestination", d) == Assemble(FULL_KEYS, FullValues(r, d))
  {
    hide Inserted, Assemble, Less, Ascending, Emplace, PlainFields, PlainValues;
    PlainInserted(r);
    PlainKeysAscending();
    DiagnosticsKeyPlace();
    EmplaceBetween(PLAIN_KEYS, PlainValues(r), 3, "diagnosticsDestination", d);
    assert PLAIN_KEYS[..3] + ["diagnosticsDestination"] + PLAIN_KEYS[3..] == FULL_KEYS;
  }

  lemma InsertedLast(fields: Fields, e: Entry<JsonValue>)
    ensures Inserted(fields + [e]) == Emplace(Inserted(fields), e.key, e.value)
  {
    assert (fields + [e])[..|fields|] == fields;
  }

  lemma DiagnosticsKeyPlace()
    ensures Less(PLAIN_KEYS[2], "diagnosticsDestination") && Less("diagnosticsDestination", PLAIN_KEYS[3])
  {
    hide Less;
    assert "desiredIdentity"[..1] == "diagnosticsDestination"[..1];
    LessAt("desiredIdentity", "diagnosticsDestination", 1);
    LessAt("diagnosticsDestination", "packageId", 0);
  }

  /** Reading the members of a request gives the request, if its parts are valid. */
  lemma PartsRead(r: Request)
    requires WellTyped(PlainValues(r))
    ensures RequestOf(PlainValues(r), r.diagnostics) == r
  {
    hide ToObject, FromObject, Faithful;
    PartsAreFaithful();
    ObjectReads(TARGET, r.target);
    ObjectReads(IDENTITY, r.currentIdentity);
    ObjectReads(IDENTITY, r.desiredIdentity);
    ObjectReads(STAGE, r.stage);
    ObjectReads(DESCRIPTOR, r.signedDescriptor);
    ObjectReads(CALLER, r.caller);
  }

  /** Every request that encodes is read back, its absent diagnostics cleared. */
  lemma ParseInvertsEncode(r: Request)
    requires EncodeRequest(r).Some?
    ensures ParseRequest(EncodeRequest(r).value) == Some(Normalise(r))
  {
    hide RequestObject, ReadObject, WriteObject, WellTyped, RequestOf, PlainValues, FullValues, Ascending,
         DiagnosticsValue, DiagnosticsFrom, EncodeText, Scalars, AllValid;
    PlainValuesValid(r);
    PlainKeysAscending();
    FullKeysAscending();
    if r.diagnostics.present {
      var d := DiagnosticsValue(r.diagnostics);
      FullText(r);
      DiagnosticsShape(r.diagnostics);
      FullValuesValid(r, d.value);
      ReadInvertsWrite(FULL_KEYS, FullValues(r, d.value));
      ReadOtherSize(FULL_KEYS, FullValues(r, d.value), PLAIN_KEYS);
      FullWithout(r, d.value);
      DiagnosticsReads(r.diagnostics);
      PartsRead(r);
    } else {
      PlainText(r);
      ReadInvertsWrite(PLAIN_KEYS, PlainValues(r));
      NothingPresent();
      PlainIgnoresDiagnostics(r);
      PartsRead(Normalise(r));
    }
  }

  lemma NothingPresent()
    ensures DiagnosticsFrom(None) == Some(ABSENT)
  {
  }

  lemma PlainIgnoresDiagnostics(r: Request)
    ensures PlainValues(Normalise(r)) == PlainValues(r)
  {
  }

  lemma FullWithout(r: Request, d: JsonValue)
    ensures FullValues(r, d)[..3] + FullValues(r, d)[4..] == PlainValues(r) && FullValues(r, d)[3] == d
  {
    hide PlainValues;
  }

  lemma PartsWrite(values: seq<JsonValue>, d: Diagnostics)
    requires |values| == |PLAIN_KEYS| && WellTyped(values) && AllValid(values)
    ensures PlainValues(RequestOf(values, d)) == values
  {
    hide ToObject, FromObject, Faithful;
    PartsAreFaithful();
    ObjectWrites(TARGET, values[12]);
    ObjectWrites(IDENTITY, values[1]);
    ObjectWrites(IDENTITY, values[2]);
    ObjectWrites(STAGE, values[10]);
    ObjectWrites(DESCRIPTOR, values[9]);
    ObjectWrites(CALLER, values[0]);
  }

  /** Every accepted text is the encoding of the request that it is read as. */
  lemma EncodeInvertsParse(text: string)
    requires ParseRequest(text).Some?
    ensures EncodeRequest(ParseRequest(text).value) == Some(text)
  {
    hide RequestObject, ReadObject, WriteObject, WellTyped, RequestOf, PlainValues, FullValues, Ascending,
         DiagnosticsValue, EncodeText, Scalars, AllValid, ValidRequest;
    PlainKeysAscending();
    FullKeysAscending();
    var r := ParseRequest(text).value;
    if ReadObject(text, PLAIN_KEYS).Some? {
      var values := ReadObject(text, PLAIN_KEYS).value;
      WriteInvertsRead(text, PLAIN_KEYS);
      PartsWrite(values, ABSENT);
      RequestKeepsDiagnostics(values, ABSENT);
      PlainText(r);
    } else {
      var values := ReadObject(text, FULL_KEYS).value;
      WriteInvertsRead(text, FULL_KEYS);
      var d := DiagnosticsFrom(Some(values[3])).value;
      FullValid(values);
      DiagnosticsWrites(Some(values[3]));
      PartsWrite(values[..3] + values[4..], d);
      RequestKeepsDiagnostics(values[..3] + values[4..], d);
      FullText(r);
      FullAgain(r, values);
    }
  }

  lemma RequestKeepsDiagnostics(values: seq<JsonValue>, d: Diagnostics)
    requires |values| == |PLAIN_KEYS| && WellTyped(values)
    ensures RequestOf(values, d).diagnostics == d
  {
  }

  lemma FullValid(values: seq<JsonValue>)
    requires |values| == |FULL_KEYS| && AllValid(values)
    ensures Valid(values[3]) && AllValid(values[..3] + values[4..])
  {
    hide Valid;
  }

  lemma FullAgain(r: Request, values: seq<JsonValue>)
    requires |values| == |FULL_KEYS| && PlainValues(r) == values[..3] + values[4..]
    ensures FullValues(r, values[3]) == values
  {
    hide PlainValues;
  }

  /** Only UTF-8 is accepted. */
  lemma AcceptedIsUtf8(text: string)
    requires ParseRequest(text).Some?
    ensures exists n: nat :: IsUtf8(text, n)
  {
    hide ReadObject, RequestFrom;
    CountsExactlyUtf8(text, |Scalars(text).value|);
  }

  /** Whatever is accepted is a valid request of valid parts: in particular the provider and the class
      of the target belong to the strategy, and the caller is the package that is to be replaced. */
  lemma AcceptedIsValid(text: string)
    requires ParseRequest(text).Some?
    ensures var r := ParseRequest(text).value;
            && r.schemaVersion == 1 && r.protocolVersion == 1 && IsLowercaseUuid(r.transactionId) && IsReadyToken(r.requestNonce)
            && r.provider in StrategyProviders(r.strategy) && r.target.targetClass in StrategyClasses(r.strategy)
            && r.caller.packageId == r.packageId && IsDottedIdentifier(r.packageId) && IsDottedIdentifier(r.policyId)
            && ValidTarget(r.target) && ValidVersionIdentity(r.currentIdentity) && ValidVersionIdentity(r.desiredIdentity)
            && ValidStage(r.stage) && ValidSignedDescriptor(r.signedDescriptor) && ValidCaller(r.caller)
            && r.diagnostics in {ABSENT, Diagnostics(true, "platformLog", ""), Diagnostics(true, "inheritedStream", "stderr")}
  {
    hide ReadObject, ValidTarget, ValidVersionIdentity, ValidStage, ValidSignedDescriptor, ValidCaller, FromObject, Scalars,
         IsLowercaseUuid, IsReadyToken, IsDottedIdentifier, StrategyProviders, StrategyClasses, Members;
    var plain := ReadObject(text, PLAIN_KEYS);
    if plain.Some? {
      PartsAreValid(plain.value);
    } else {
      var full := ReadObject(text, FULL_KEYS).value;
      PartsAreValid(full[..3] + full[4..]);
    }
  }

  lemma PartsAreValid(values: seq<JsonValue>)
    requires |values| == |PLAIN_KEYS| && WellTyped(values)
    ensures ValidCaller(FromObject(CALLER, values[0]).value)
    ensures ValidVersionIdentity(FromObject(IDENTITY, values[1]).value) && ValidVersionIdentity(FromObject(IDENTITY, values[2]).value)
    ensures ValidSignedDescriptor(FromObject(DESCRIPTOR, values[9]).value)
    ensures ValidStage(FromObject(STAGE, values[10]).value) && ValidTarget(FromObject(TARGET, values[12]).value)
  {
    hide ValidTarget, ValidVersionIdentity, ValidStage, ValidSignedDescriptor, ValidCaller, Members;
  }
}
