/**
 The four messages of the install protocol: parsing, validation and canonical
 encoding (native_runtime/cpp/native_install_wire.cc).  None stands for a throw.
 */
module WireMessages {
  import opened Primitives
  import opened SortedMap
  import opened Json
  import opened CanonicalObject

  predicate IsLowerHex(c: char) { '0' <= c <= '9' || 'a' <= c <= 'f' }

  predicate IsLowercaseUuid(t: string)
  {
    && |t| == 36 && t[8] == '-' && t[13] == '-' && t[18] == '-' && t[23] == '-'
    && forall i :: 0 <= i < 36 && i !in {8, 13, 18, 23} ==> IsLowerHex(t[i])
  }

  predicate IsSha256(t: string)
  {
    |t| == 64 && forall i :: 0 <= i < |t| ==> IsLowerHex(t[i])
  }

  predicate IsTokenByte(c: char)
  {
    'A' <= c <= 'Z' || 'a' <= c <= 'z' || '0' <= c <= '9' || c == '-' || c == '_'
  }

  predicate IsReadyToken(t: string)
  {
    |t| == 43 && forall i :: 0 <= i < |t| ==> IsTokenByte(t[i])
  }

  const HEXADECIMAL := "0123456789abcdef"

  /** Together the alphabet of section 5 of RFC 4648. */
  const UPPERCASE := "ABCDEFGHIJKLMNOPQRSTUVWXYZ"

  const LOWERCASE := "abcdefghijklmnopqrstuvwxyz"

  const OTHERS := "0123456789-_"

  predicate InBase64Url(c: char) { c in UPPERCASE || c in LOWERCASE || c in OTHERS }

  lemma HexadecimalExactly(c: char)
    ensures IsLowerHex(c) <==> c in HEXADECIMAL
  {
    var n := c as int;
    if '0' <= c <= '9' { assert HEXADECIMAL[n - 48] == c; }
    if 'a' <= c <= 'f' { assert HEXADECIMAL[n - 87] == c; }
  }

  lemma UppercaseExactly(c: char)
    ensures 'A' <= c <= 'Z' <==> c in UPPERCASE
  {
    if 'A' <= c <= 'Z' { assert UPPERCASE[c as int - 65] == c; }
  }

  lemma LowercaseExactly(c: char)
    ensures 'a' <= c <= 'z' <==> c in LOWERCASE
  {
    if 'a' <= c <= 'z' { assert LOWERCASE[c as int - 97] == c; }
  }

  lemma OthersExactly(c: char)
    ensures '0' <= c <= '9' || c == '-' || c == '_' <==> c in OTHERS
  {
    if '0' <= c <= '9' { assert OTHERS[c as int - 48] == c; }
    if c == '-' { assert OTHERS[10] == c; }
    if c == '_' { assert OTHERS[11] == c; }
  }

  lemma Base64UrlExactly(c: char)
    ensures IsTokenByte(c) <==> InBase64Url(c)
  {
    hide UPPERCASE, LOWERCASE, OTHERS;
    UppercaseExactly(c);
    LowercaseExactly(c);
    OthersExactly(c);
  }

  /** A digest is 64 hexadecimal digits in lower case, a token the 43 characters that 32 bytes take in base64url. */
  lemma AlphabetsExactly(t: string)
    ensures IsSha256(t) <==> |t| == 64 && forall i :: 0 <= i < |t| ==> t[i] in HEXADECIMAL
    ensures IsReadyToken(t) <==> |t| == 43 && forall i :: 0 <= i < |t| ==> InBase64Url(t[i])
  {
    hide IsLowerHex, IsTokenByte, HEXADECIMAL, InBase64Url;
    forall i | 0 <= i < |t|
      ensures IsLowerHex(t[i]) <==> t[i] in HEXADECIMAL
      ensures IsTokenByte(t[i]) <==> InBase64Url(t[i])
    {
      HexadecimalExactly(t[i]);
      Base64UrlExactly(t[i]);
    }
  }

  predicate IsHexRun(t: string, width: nat) { |t| == width && forall i :: 0 <= i < |t| ==> IsLowerHex(t[i]) }

  /** An identifier is five groups of digits (section 4 of RFC 9562), of any version. */
  lemma UuidExactly(t: string)
    ensures IsLowercaseUuid(t) <==>
            && |t| == 36 && t[8] == '-' && t[13] == '-' && t[18] == '-' && t[23] == '-'
            && IsHexRun(t[..8], 8) && IsHexRun(t[9..13], 4) && IsHexRun(t[14..18], 4) && IsHexRun(t[19..23], 4) && IsHexRun(t[24..], 12)
  {
    hide IsLowerHex;
    if |t| == 36 && IsHexRun(t[..8], 8) && IsHexRun(t[9..13], 4) && IsHexRun(t[14..18], 4) && IsHexRun(t[19..23], 4) && IsHexRun(t[24..], 12) {
      forall i | 0 <= i < 36 && i !in {8, 13, 18, 23}
        ensures IsLowerHex(t[i])
      {
        if i < 8 { assert t[i] == t[..8][i]; }
        else if i < 13 { assert t[i] == t[9..13][i - 9]; }
        else if i < 18 { assert t[i] == t[14..18][i - 14]; }
        else if i < 23 { assert t[i] == t[19..23][i - 19]; }
        else { assert t[i] == t[24..][i - 24]; }
      }
    }
  }

  /** ValidateProtocolAndTransaction */
  predicate ValidHeader(protocolVersion: int, transactionId: string)
  {
    protocolVersion == 1 && IsLowercaseUuid(transactionId)
  }

  const STATES := {
    "prepared", "backupCreated", "targetActivated", "managerStarted",
    "verificationPending", "completed", "rolledBack", "manualActionRequired"}

  const RESULT_CODES := {
    "helperUnavailable", "helperTrustFailure", "authorizationDenied", "targetValidationFailure",
    "stageProvenanceFailure", "transactionBusy", "journalCorrupt", "recoveryRequired", "rolledBack",
    "externalManagerPending", "manualActionRequired", "packageManagerFailure", "relaunchFailure", "completed"}

  //
  // Reservation
  //

  datatype Reservation = Reservation(
    protocolVersion: int64,
    transactionId: string,
    readyToken: string,
    journalSha256: string,
    helperEndpointIdentitySha256: string,
    expiresAtUnixMilliseconds: int64)

  predicate ValidReservation(r: Reservation)
  {
    && ValidHeader(r.protocolVersion, r.transactionId) && IsReadyToken(r.readyToken)
    && IsSha256(r.journalSha256) && IsSha256(r.helperEndpointIdentitySha256)
    && r.expiresAtUnixMilliseconds >= 0
  }

  const RESERVATION_KEYS := [
    "expiresAtUnixMilliseconds", "helperEndpointIdentitySha256", "journalSha256", "protocolVersion", "readyToken", "transactionId"]

  /** The values in the order of the keys. */
  function ReservationValues(r: Reservation): (values: seq<JsonValue>)
    ensures |values| == |RESERVATION_KEYS|
  {
    [Integer(r.expiresAtUnixMilliseconds), String(r.helperEndpointIdentitySha256), String(r.journalSha256), Integer(r.protocolVersion), String(r.readyToken), String(r.transactionId)]
  }

  /** The insertions into the object, in the order of the encoder. */
  function ReservationFields(r: Reservation): Fields
  {
    [Entry("protocolVersion", Integer(r.protocolVersion)),
     Entry("transactionId", String(r.transactionId)),
     Entry("readyToken", String(r.readyToken)),
     Entry("journalSha256", String(r.journalSha256)),
     Entry("helperEndpointIdentitySha256", String(r.helperEndpointIdentitySha256)),
     Entry("expiresAtUnixMilliseconds", Integer(r.expiresAtUnixMilliseconds))]
  }

  function ReservationFrom(values: seq<JsonValue>): Option<Reservation>
  {
    if |values| == |RESERVATION_KEYS|
       && values[0].Integer? && values[1].String? && values[2].String? && values[3].Integer? && values[4].String? && values[5].String?
       && INT64_MIN <= values[0].integer <= INT64_MAX && INT64_MIN <= values[3].integer <= INT64_MAX then
      var r := Reservation(values[3].integer, values[5].text, values[4].text, values[2].text, values[1].text, values[0].integer);
      if ValidReservation(r) then Some(r) else None
    else None
  }

  const RESERVATION := Codec(
    RESERVATION_KEYS, [3, 5, 4, 2, 1, 0], [5, 4, 3, 0, 2, 1], ReservationFields, ReservationValues, ValidReservation, ReservationFrom)

  function ParseReservation(text: string): Option<Reservation> { ParseRecord(RESERVATION, text) }

  function EncodeReservation(r: Reservation): Option<string> { EncodeRecord(RESERVATION, r) }

  lemma ReservationIsFaithful()
    ensures Faithful(RESERVATION)
  {
    hide ValidReservation;
    assert Ascending(RESERVATION_KEYS) by {
      assert Less(RESERVATION_KEYS[0], RESERVATION_KEYS[1]);
      assert Less(RESERVATION_KEYS[1], RESERVATION_KEYS[2]);
      assert Less(RESERVATION_KEYS[2], RESERVATION_KEYS[3]);
      assert Less(RESERVATION_KEYS[3], RESERVATION_KEYS[4]);
      assert Less(RESERVATION_KEYS[4], RESERVATION_KEYS[5]);
      AscendingFromNeighbours(RESERVATION_KEYS);
    }
    forall r
      ensures WritesRecord(RESERVATION, r)
    {
    }
  }

  /** Every record that encodes is read back unchanged. */
  lemma ParseReservationInvertsEncode(r: Reservation)
    requires EncodeReservation(r).Some?
    ensures ParseReservation(EncodeReservation(r).value) == Some(r)
  {
    hide Faithful, ParseRecord, EncodeRecord;
    ReservationIsFaithful();
    ParseRecordInvertsEncode(RESERVATION, r);
  }

  /** Every accepted text is the encoding of the record that it is read as. */
  lemma EncodeReservationInvertsParse(text: string)
    requires ParseReservation(text).Some?
    ensures EncodeReservation(ParseReservation(text).value) == Some(text)
  {
    hide Faithful, ParseRecord, EncodeRecord;
    ReservationIsFaithful();
    EncodeRecordInvertsParse(RESERVATION, text);
  }

  //
  // Command
  //

  datatype Command = Command(
    operation: string,
    protocolVersion: int64,
    transactionId: string,
    readyToken: string,
    journalSha256: string,
    helperEndpointIdentitySha256: string)

  predicate ValidCommand(r: Command)
  {
    && ValidHeader(r.protocolVersion, r.transactionId)
    && (r.operation == "commitAfterExit" || r.operation == "cancelReservation")
    && IsReadyToken(r.readyToken) && IsSha256(r.journalSha256) && IsSha256(r.helperEndpointIdentitySha256)
  }

  const COMMAND_KEYS := [
    "helperEndpointIdentitySha256", "journalSha256", "operation", "protocolVersion", "readyToken", "transactionId"]

  /** The values in the order of the keys. */
  function CommandValues(r: Command): (values: seq<JsonValue>)
    ensures |values| == |COMMAND_KEYS|
  {
    [String(r.helperEndpointIdentitySha256), String(r.journalSha256), String(r.operation), Integer(r.protocolVersion), String(r.readyToken), String(r.transactionId)]
  }

  /** The insertions into the object, in the order of the encoder. */
  function CommandFields(r: Command): Fields
  {
    [Entry("operation", String(r.operation)),
     Entry("protocolVersion", Integer(r.protocolVersion)),
     Entry("transactionId", String(r.transactionId)),
     Entry("readyToken", String(r.readyToken)),
     Entry("journalSha256", String(r.journalSha256)),
     Entry("helperEndpointIdentitySha256", String(r.helperEndpointIdentitySha256))]
  }

  function CommandFrom(values: seq<JsonValue>): Option<Command>
  {
    if |values| == |COMMAND_KEYS|
       && values[0].String? && values[1].String? && values[2].String? && values[3].Integer? && values[4].String? && values[5].String?
       && INT64_MIN <= values[3].integer <= INT64_MAX then
      var r := Command(values[2].text, values[3].integer, values[5].text, values[4].text, values[1].text, values[0].text);
      if ValidCommand(r) then Some(r) else None
    else None
  }

  const COMMAND := Codec(
    COMMAND_KEYS, [2, 3, 5, 4, 1, 0], [5, 4, 0, 1, 3, 2], CommandFields, CommandValues, ValidCommand, CommandFrom)

  function ParseCommand(text: string): Option<Command> { ParseRecord(COMMAND, text) }

  function EncodeCommand(r: Command): Option<string> { EncodeRecord(COMMAND, r) }

  lemma CommandIsFaithful()
    ensures Faithful(COMMAND)
  {
    hide ValidCommand;
    assert Ascending(COMMAND_KEYS) by {
      assert Less(COMMAND_KEYS[0], COMMAND_KEYS[1]);
      assert Less(COMMAND_KEYS[1], COMMAND_KEYS[2]);
      assert Less(COMMAND_KEYS[2], COMMAND_KEYS[3]);
      assert Less(COMMAND_KEYS[3], COMMAND_KEYS[4]);
      assert Less(COMMAND_KEYS[4], COMMAND_KEYS[5]);
      AscendingFromNeighbours(COMMAND_KEYS);
    }
    forall r
      ensures WritesRecord(COMMAND, r)
    {
    }
  }

  /** Every record that encodes is read back unchanged. */
  lemma ParseCommandInvertsEncode(r: Command)
    requires EncodeCommand(r).Some?
    ensures ParseCommand(EncodeCommand(r).value) == Some(r)
  {
    hide Faithful, ParseRecord, EncodeRecord;
    CommandIsFaithful();
    ParseRecordInvertsEncode(COMMAND, r);
  }

  /** Every accepted text is the encoding of the record that it is read as. */
  lemma EncodeCommandInvertsParse(text: string)
    requires ParseCommand(text).Some?
    ensures EncodeCommand(ParseCommand(text).value) == Some(text)
  {
    hide Faithful, ParseRecord, EncodeRecord;
    CommandIsFaithful();
    EncodeRecordInvertsParse(COMMAND, text);
  }

  //
  // TransactionStatus
  //

  datatype TransactionStatus = TransactionStatus(
    protocolVersion: int64,
    transactionId: string,
    state: string,
    resultCode: string,
    journalSha256: string)

  predicate ValidTransactionStatus(r: TransactionStatus)
  {
    && ValidHeader(r.protocolVersion, r.transactionId)
    && r.state in STATES && r.resultCode in RESULT_CODES && IsSha256(r.journalSha256)
    && (r.resultCode == "completed" ==> r.state == "completed")
    && (r.resultCode == "rolledBack" ==> r.state == "rolledBack")
  }

  const STATUS_KEYS := [
    "journalSha256", "protocolVersion", "resultCode", "state", "transactionId"]

  /** The values in the order of the keys. */
  function TransactionStatusValues(r: TransactionStatus): (values: seq<JsonValue>)
    ensures |values| == |STATUS_KEYS|
  {
    [String(r.journalSha256), Integer(r.protocolVersion), String(r.resultCode), String(r.state), String(r.transactionId)]
  }

  /** The insertions into the object, in the order of the encoder. */
  function TransactionStatusFields(r: TransactionStatus): Fields
  {
    [Entry("protocolVersion", Integer(r.protocolVersion)),
     Entry("transactionId", String(r.transactionId)),
     Entry("state", String(r.state)),
     Entry("resultCode", String(r.resultCode)),
     Entry("journalSha256", String(r.journalSha256))]
  }

  function TransactionStatusFrom(values: seq<JsonValue>): Option<TransactionStatus>
  {
    if |values| == |STATUS_KEYS|
       && values[0].String? && values[1].Integer? && values[2].String? && values[3].String? && values[4].String?
       && INT64_MIN <= values[1].integer <= INT64_MAX then
      var r := TransactionStatus(values[1].integer, values[4].text, values[3].text, values[2].text, values[0].text);
      if ValidTransactionStatus(r) then Some(r) else None
    else None
  }

  const STATUS := Codec(
    STATUS_KEYS, [1, 4, 3, 2, 0], [4, 0, 3, 2, 1], TransactionStatusFields, TransactionStatusValues, ValidTransactionStatus, TransactionStatusFrom)

  function ParseTransactionStatus(text: string): Option<TransactionStatus> { ParseRecord(STATUS, text) }

  function EncodeTransactionStatus(r: TransactionStatus): Option<string> { EncodeRecord(STATUS, r) }

  lemma TransactionStatusIsFaithful()
    ensures Faithful(STATUS)
  {
    hide ValidTransactionStatus;
    assert Ascending(STATUS_KEYS) by {
      assert Less(STATUS_KEYS[0], STATUS_KEYS[1]);
      assert Less(STATUS_KEYS[1], STATUS_KEYS[2]);
      assert Less(STATUS_KEYS[2], STATUS_KEYS[3]);
      assert Less(STATUS_KEYS[3], STATUS_KEYS[4]);
      AscendingFromNeighbours(STATUS_KEYS);
    }
    forall r
      ensures WritesRecord(STATUS, r)
    {
    }
  }

  /** Every record that encodes is read back unchanged. */
  lemma ParseTransactionStatusInvertsEncode(r: TransactionStatus)
    requires EncodeTransactionStatus(r).Some?
    ensures ParseTransactionStatus(EncodeTransactionStatus(r).value) == Some(r)
  {
    hide Faithful, ParseRecord, EncodeRecord;
    TransactionStatusIsFaithful();
    ParseRecordInvertsEncode(STATUS, r);
  }

  /** Every accepted text is the encoding of the record that it is read as. */
  lemma EncodeTransactionStatusInvertsParse(text: string)
    requires ParseTransactionStatus(text).Some?
    ensures EncodeTransactionStatus(ParseTransactionStatus(text).value) == Some(text)
  {
    hide Faithful, ParseRecord, EncodeRecord;
    TransactionStatusIsFaithful();
    EncodeRecordInvertsParse(STATUS, text);
  }

  //
  // RecoveryResult
  //

  datatype RecoveryResult = RecoveryResult(
    protocolVersion: int64,
    transactionId: string,
    resultCode: string,
    verifiedOutcome: string,
    journalSha256: string)

  predicate ValidRecoveryResult(r: RecoveryResult)
  {
    && ValidHeader(r.protocolVersion, r.transactionId)
    && r.resultCode in RESULT_CODES && IsSha256(r.journalSha256)
    && r.verifiedOutcome in {"oldTarget", "newTarget", "none"}
    && (r.resultCode == "completed" ==> r.verifiedOutcome == "newTarget")
    && (r.resultCode == "rolledBack" ==> r.verifiedOutcome == "oldTarget")
  }

  const RECOVERY_KEYS := [
    "journalSha256", "protocolVersion", "resultCode", "transactionId", "verifiedOutcome"]

  /** The values in the order of the keys. */
  function RecoveryResultValues(r: RecoveryResult): (values: seq<JsonValue>)
    ensures |values| == |RECOVERY_KEYS|
  {
    [String(r.journalSha256), Integer(r.protocolVersion), String(r.resultCode), String(r.transactionId), String(r.verifiedOutcome)]
  }

  /** The insertions into the object, in the order of the encoder. */
  function RecoveryResultFields(r: RecoveryResult): Fields
  {
    [Entry("protocolVersion", Integer(r.protocolVersion)),
     Entry("transactionId", String(r.transactionId)),
     Entry("resultCode", String(r.resultCode)),
     Entry("verifiedOutcome", String(r.verifiedOutcome)),
     Entry("journalSha256", String(r.journalSha256))]
  }

  function RecoveryResultFrom(values: seq<JsonValue>): Option<RecoveryResult>
  {
    if |values| == |RECOVERY_KEYS|
       && values[0].String? && values[1].Integer? && values[2].String? && values[3].String? && values[4].String?
       && INT64_MIN <= values[1].integer <= INT64_MAX then
      var r := RecoveryResult(values[1].integer, values[3].text, values[2].text, values[4].text, values[0].text);
      if ValidRecoveryResult(r) then Some(r) else None
    else None
  }

  const RECOVERY := Codec(
    RECOVERY_KEYS, [1, 3, 2, 4, 0], [4, 0, 2, 1, 3], RecoveryResultFields, RecoveryResultValues, ValidRecoveryResult, RecoveryResultFrom)

  function ParseRecoveryResult(text: string): Option<RecoveryResult> { ParseRecord(RECOVERY, text) }

  function EncodeRecoveryResult(r: RecoveryResult): Option<string> { EncodeRecord(RECOVERY, r) }

  lemma RecoveryResultIsFaithful()
    ensures Faithful(RECOVERY)
  {
    hide ValidRecoveryResult;
    assert Ascending(RECOVERY_KEYS) by {
      assert Less(RECOVERY_KEYS[0], RECOVERY_KEYS[1]);
      assert Less(RECOVERY_KEYS[1], RECOVERY_KEYS[2]);
      assert Less(RECOVERY_KEYS[2], RECOVERY_KEYS[3]);
      assert Less(RECOVERY_KEYS[3], RECOVERY_KEYS[4]);
      AscendingFromNeighbours(RECOVERY_KEYS);
    }
    forall r
      ensures WritesRecord(RECOVERY, r)
    {
    }
  }

  /** Every record that encodes is read back unchanged. */
  lemma ParseRecoveryResultInvertsEncode(r: RecoveryResult)
    requires EncodeRecoveryResult(r).Some?
    ensures ParseRecoveryResult(EncodeRecoveryResult(r).value) == Some(r)
  {
    hide Faithful, ParseRecord, EncodeRecord;
    RecoveryResultIsFaithful();
    ParseRecordInvertsEncode(RECOVERY, r);
  }

  /** Every accepted text is the encoding of the record that it is read as. */
  lemma EncodeRecoveryResultInvertsParse(text: string)
    requires ParseRecoveryResult(text).Some?
    ensures EncodeRecoveryResult(ParseRecoveryResult(text).value) == Some(text)
  {
    hide Faithful, ParseRecord, EncodeRecord;
    RecoveryResultIsFaithful();
    EncodeRecordInvertsParse(RECOVERY, text);
  }

  /** The answer to a cancellation of a reservation that was sent can be sent too. */
  lemma ReservedCanRollBack(r: Reservation)
    requires EncodeReservation(r).Some?
    ensures r.protocolVersion == 1
    ensures EncodeRecoveryResult(RecoveryResult(1, r.transactionId, "rolledBack", "oldTarget", r.journalSha256)).Some?
  {
    hide EncodeText, ToObject;
  }

  /** And so can its two commands. */
  lemma ReservedCanBeBound(r: Reservation, c: Command)
    requires EncodeReservation(r).Some?
    requires c == Command(c.operation, r.protocolVersion, r.transactionId, r.readyToken, r.journalSha256, r.helperEndpointIdentitySha256)
    ensures c.operation in {"commitAfterExit", "cancelReservation"} ==> EncodeCommand(c).Some?
  {
    hide EncodeText, ToObject;
  }

  //
  // What can be sent
  //

  /** What the four messages have in common. */
  predicate HasHeader(protocolVersion: int, transactionId: string, journalSha256: string)
  {
    protocolVersion == 1 && IsLowercaseUuid(transactionId) && IsSha256(journalSha256)
  }

  /** Exactly the reservations and commands with a token, two digests and an identifier can be sent,
      a reservation with a moment from the epoch on and a command with one of two operations. */
  lemma ReservationsExactly(r: Reservation, c: Command)
    ensures EncodeReservation(r).Some? <==>
            && HasHeader(r.protocolVersion, r.transactionId, r.journalSha256) && IsReadyToken(r.readyToken)
            && IsSha256(r.helperEndpointIdentitySha256) && r.expiresAtUnixMilliseconds >= 0
    ensures EncodeCommand(c).Some? <==>
            && HasHeader(c.protocolVersion, c.transactionId, c.journalSha256) && IsReadyToken(c.readyToken)
            && IsSha256(c.helperEndpointIdentitySha256) && c.operation in {"commitAfterExit", "cancelReservation"}
  {
    hide EncodeText, ToObject, IsLowercaseUuid, IsSha256, IsReadyToken;
  }

  /** A result can be sent only with the outcome that it claims: completion means the completed state
      and the new target, a rollback the rolled-back state and the old target. */
  lemma ResultsExactly(s: TransactionStatus, r: RecoveryResult)
    ensures EncodeTransactionStatus(s).Some? <==>
            && HasHeader(s.protocolVersion, s.transactionId, s.journalSha256) && s.state in STATES && s.resultCode in RESULT_CODES
            && (s.resultCode in {"completed", "rolledBack"} ==> s.state == s.resultCode)
    ensures EncodeRecoveryResult(r).Some? <==>
            && HasHeader(r.protocolVersion, r.transactionId, r.journalSha256) && r.resultCode in RESULT_CODES
            && r.verifiedOutcome in
                 (if r.resultCode == "completed" then {"newTarget"}
                  else if r.resultCode == "rolledBack" then {"oldTarget"}
                  else {"oldTarget", "newTarget", "none"})
  {
    hide EncodeText, ToObject, IsLowercaseUuid, IsSha256;
  }
}
