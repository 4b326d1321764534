# Native install runtime: a verified model

This project models the native install runtime of a desktop updater in Dafny 4.11 and
proves what its parts promise. The runtime stages a downloaded release, hands it over to
a small helper process, and the helper swaps the installed directory for the staged one;
the swap is meant to survive a crash at any moment.

A `std::string` is a Dafny `string` with one character per byte. A
`std::map<std::string, T>` is the strictly ascending sequence of its entries
(`SortedMap.dfy`). A throw is `None`, `false` or `Threw`. Calls that leave the modelled
code (file system, clock, channel, provider, authorizer) answer nondeterministically and
may throw at every call. Digest functions are parameters about which nothing is known but,
where it is said so, the form of their result. Run `dafny verify dfyconfig.toml`.

## The modules

| files | subject |
|---|---|
| `Primitives`, `SortedMap`, `Text` | integer types and character classes, `std::string` order, `std::map`, searching and splitting |
| `Json`, `JsonParser`, `JsonRoundTrip`, `JsonGrammar`, `JsonComplete`, `JsonSound`, `JsonMachine` | the canonical JSON parser and encoder: values, parsing functions, inverse laws, the written forms that are accepted, and the imperative classes |
| `CanonicalObject`, `WireMessages`, `InstallRequest`, `Utf8` | the wire formats and UTF-8 counting |
| `InstallContract`, `SwapModel`, `SwapRun`, `SwapTransaction`, `SwapRecovery` | the reference recovery decision, crash images, runs over a directory that may forget what was not synced, the crash-safe swap and its recovery |
| `InstallSession`, `InstallService` | the one-shot session and the service loop |
| `Lifecycle` | the client's check, stage and install leases |
| `Civil`, `Instants`, `InstantForms`, `Versions`, `ReleaseSelection`, `Base64` | the release contract |
| `DotSegments`, `RedirectUrl` | redirect resolution |
| `ArchivePreflight` | the checks before an archive is extracted |
| `StageTree`, `StageMarker` | the inventory of a stage and its provenance marker |
| `ProviderRecord`, `ManagedRefresh` | the provider journal and the durable refresh |

## What turned out to be false

Each of these is stated as a lemma or contract, with the exact condition under which the
code does what one would expect.

- **Recovery can take the application away.** If the helper dies after the stage has been
  renamed and before the journal has been rewritten, and the rename changed the change time
  of the tree, then `LinuxRecoveryService::Recover` moves the untouched target to the backup
  name and only then finds that the prepared tree does not match the journal
  (`SwapRecovery.StageRenameWindowIsStranded`). `SwapRecovery.Recover` states exactly from
  which crash images recovery succeeds and from which it leaves the target name empty.
- **Recovery breaks the transition table of the contract** exactly on the images of
  `SkipsOrRewinds`: it omits `backupCreated`, or goes back from `completed` to
  `targetActivated`.
- **Recovery can record an old tree that is gone.** The backup is removed from its leaves
  upwards, and as long as only files in its subdirectories are gone its root looks as before.
  If the swap is cut off there, recovery takes the completed record back to `targetActivated`
  before it completes again, and a second crash in between leaves a record that promises a
  backup which is no longer whole (`SwapRecovery.HalfRemovedIsRewound`). Without faults this
  happens exactly on the images of `RewindsAt`, which a caller can check beforehand; all other
  recoveries are safe at every moment (`SwapRecovery.RecoverFrom`). Recovery itself still
  completes from such a record; the reference decision asks for manual action
  (`SwapModel.ManualExactlyInTheWindows`).
- **A half-removed tree is no longer recognised.** If the removal that the reference decision
  asks for is interrupted, the next decision is manual action, although the target is fine
  (`SwapModel.InterruptedRemovalIsManual`); in all other cases repeated recovery keeps its
  outcome (`SwapModel.RepeatedRecovery`).
- **Versions with and without build numbers do not mix.** The comparison has cycles
  (`Versions.MixedCycle`). Two versions with builds can be mixed with every version without
  one exactly when their builds and their numbers are ordered alike
  (`Versions.MixedExactly`), and a given list is ordered exactly as `Versions.OrderedExactly`
  says.
- **Leading zeros contradict themselves.** `1.0.0-01` and `1.0.0-1` are each newer than the
  other; this happens exactly when the first difference is between numerals with the same
  (saturated) value (`Versions.MirroredExactly`).
- **Some stages can be written but never verified**: those with a path that the decoder of
  the marker refuses, such as a name with a backslash (`StageMarker.VerifiesExactlyUnchanged`,
  `StageMarker.BackslashNeverVerifies`).
- **Not every instant that is printed can be read.** An offset can shift an accepted text out of the
  years 0 to 9999, and its normal form is then refused (`InstantForms.ReadsBackExactly`).
- **The fallback record of a failed start is refused.** Once the provider has answered with an
  identity, even an empty one, the catch block cannot note the pending verification over the
  prepared record (`ManagedRefresh.FallbackDecided`); the journal then still says `prepared`, and a
  second start with the same request starts the provider again
  (`ManagedRefresh.RestartExactly`).

## Model

| member | source | states |
|---|---|---|
| `JsonRoundTrip.ParseInvertsEncode` | native_runtime/cpp/json_value.cc:16-307 | parsing the canonical text of any value gives that value and consumes the whole text |
| `JsonRoundTrip.EncodeInjective` | native_runtime/cpp/json_value.cc:252-307 | different values have different canonical texts |
| `JsonRoundTrip.CanonicalFixedPoint` | native_runtime/cpp/json_value.cc:356-362 | for any accepted text, encoding what was parsed gives a text that parses to the same value |
| `JsonSound.AcceptsExactlyForms` | native_runtime/cpp/json_value.cc:16-250 | the parser accepts exactly the written forms of values, each as its value: any blanks between tokens, any spelling of the characters of a string, members in any order with distinct keys, integers of 64 bits without leading zeros |
| `JsonComplete.FormsAreRead` | native_runtime/cpp/json_value.cc:16-250 | every written form of a value, with blanks around it, is read as that value |
| `JsonSound.ValueSound` | native_runtime/cpp/json_value.cc:31-131 | whatever is read at a position is a written form of what it is read as |
| `JsonSound.ObjectMeans` | native_runtime/cpp/json_value.cc:74-99 | the value of an object is the sorted map in which each key has its value, and no other key |
| `JsonParser.ParseTextValid` | native_runtime/cpp/json_value.cc:20-132 | whatever is parsed is a value the runtime can hold: 64-bit integers, objects that are maps |
| `JsonMachine.ParseJson` | native_runtime/cpp/json_value.cc:356-357 | the class that advances a position through the text computes the grammar's result, errors included |
| `JsonMachine.EncodeCanonicalJson` | native_runtime/cpp/json_value.cc:358-362 | the class that writes to one output computes the canonical text |
| `JsonMachine.Parser.ParseValue` | native_runtime/cpp/json_value.cc:31-54 | one value is consumed exactly as the grammar says, and the position is where the grammar says |
| `JsonMachine.Parser.ParseArray` | native_runtime/cpp/json_value.cc:56-72 | elements, separators and end of an array |
| `JsonMachine.Parser.ParseObject` | native_runtime/cpp/json_value.cc:74-99 | members of an object, duplicate keys refused |
| `JsonMachine.Parser.ParseInteger` | native_runtime/cpp/json_value.cc:101-131 | integers without leading zeros, fractions or overflow |
| `JsonMachine.Parser.ParseString` | native_runtime/cpp/json_value.cc:133-166 | strings with escapes, control bytes refused |
| `JsonMachine.Parser.ParseUnicodeScalar` | native_runtime/cpp/json_value.cc:168-183 | an escape or a surrogate pair gives one scalar |
| `JsonMachine.Encoder.Encode` | native_runtime/cpp/json_value.cc:275-307 | appends exactly the canonical text of the value |
| `JsonMachine.Encoder.EncodeString` | native_runtime/cpp/json_value.cc:252-273 | appends exactly the quoted and escaped text |
| `Utf8.Utf8ScalarCount` | native_runtime/cpp/native_install_request.cc:25-63 | the loop returns the number of scalars of the decoding, or throws with it |
| `Utf8.CountsExactlyUtf8` | native_runtime/cpp/native_install_request.cc:25-63 | exactly the concatenations of n well-formed sequences of section 4 of RFC 3629 are counted as n |
| `Utf8.CodePointDecodes` | native_runtime/cpp/json_value.cc:201-217 | the bytes appended for a code point are counted as one scalar with its value |
| `Utf8.ScalarsJoin` | native_runtime/cpp/native_install_request.cc:25-63 | the scalars of two texts put together are those of the first and then those of the second |
| `Utf8.EscapeAppendsOneScalar` | native_runtime/cpp/json_value.cc:168-217 | every escape or surrogate pair of section 7 of RFC 8259 adds exactly one scalar, of the same value, between the scalars before it and those after it |
| `CanonicalObject.InsertionOrder` | native_runtime/cpp/native_install_wire.cc:235-248 | inserting the fields in the encoder's order gives the object with the keys in ascending order |
| `CanonicalObject.ReadInvertsWrite` | native_runtime/cpp/native_install_wire.cc:20-44 | an object written with exactly the expected keys is read back member by member |
| `CanonicalObject.WriteInvertsRead` | native_runtime/cpp/native_install_wire.cc:20-44 | a text that is accepted is the canonical text of the members it was read as |
| `CanonicalObject.ParseRecordInvertsEncode` | native_runtime/cpp/native_install_wire.cc:209-359 | for every record type whose key order, insertions and fields fit together, what encodes is read back |
| `CanonicalObject.EncodeRecordInvertsParse` | native_runtime/cpp/native_install_wire.cc:209-359 | for every such type an accepted text is the encoding of what it is read as |
| `CanonicalObject.ObjectReads` | native_runtime/cpp/native_install_request.cc:426-593 | a part of the request is read back from its object exactly if it is valid |
| `CanonicalObject.ObjectWrites` | native_runtime/cpp/native_install_request.cc:426-593 | an object that is read as a part is the object of that part |
| `WireMessages.ParseReservationInvertsEncode` | native_runtime/cpp/native_install_wire.cc:209-248 | a reservation that encodes is read back |
| `WireMessages.EncodeReservationInvertsParse` | native_runtime/cpp/native_install_wire.cc:209-248 | an accepted reservation text is the encoding of what it is read as |
| `WireMessages.ParseCommandInvertsEncode` | native_runtime/cpp/native_install_wire.cc:250-288 | a command that encodes is read back |
| `WireMessages.EncodeCommandInvertsParse` | native_runtime/cpp/native_install_wire.cc:250-288 | an accepted command text is the encoding of what it is read as |
| `WireMessages.ParseTransactionStatusInvertsEncode` | native_runtime/cpp/native_install_wire.cc:290-323 | a status that encodes is read back |
| `WireMessages.EncodeTransactionStatusInvertsParse` | native_runtime/cpp/native_install_wire.cc:290-323 | an accepted status text is the encoding of what it is read as |
| `WireMessages.ParseRecoveryResultInvertsEncode` | native_runtime/cpp/native_install_wire.cc:325-359 | a recovery result that encodes is read back |
| `WireMessages.EncodeRecoveryResultInvertsParse` | native_runtime/cpp/native_install_wire.cc:325-359 | an accepted recovery text is the encoding of what it is read as |
| `WireMessages.AlphabetsExactly` | native_runtime/cpp/native_install_wire.cc:66-81 | a digest is exactly 64 hexadecimal digits in lower case, a token exactly 43 characters of base64url |
| `WireMessages.UuidExactly` | native_runtime/cpp/native_install_wire.cc:50-64 | an identifier is exactly five groups of lower-case digits |
| `WireMessages.ReservationsExactly` | native_runtime/cpp/native_install_wire.cc:83-110 | which reservations and commands can be sent, field by field |
| `WireMessages.ResultsExactly` | native_runtime/cpp/native_install_wire.cc:130-167 | which results can be sent: completion only with the completed state and the new target, a rollback only with the rolled-back state and the old target |
| `InstallRequest.ParseInvertsEncode` | native_runtime/cpp/native_install_request.cc:426-593 | a request that encodes is read back, with the diagnostics fields empty when they are absent |
| `InstallRequest.EncodeInvertsParse` | native_runtime/cpp/native_install_request.cc:426-593 | an accepted request text is the encoding of what it is read as |
| `InstallRequest.AcceptedIsUtf8` | native_runtime/cpp/native_install_request.cc:426-434 | only UTF-8 texts are accepted |
| `InstallRequest.AcceptedIsValid` | native_runtime/cpp/native_install_request.cc:426-593 | what is accepted has valid parts: provider and target class belong to the strategy, the caller is the package to be replaced |
| `SwapRun.EveryCrashIsSafe` | linux/native/src/helper/linux_file_transaction.cc:141-272 | in a safe run, until somebody touches the target or the backup, a crash at any moment, whichever unsynced operations it loses, leaves the old tree intact unless a completed record had become durable by then; the target is missing only while the backup holds the old tree; no journal state runs ahead of its rename unless it was rewound |
| `SwapTransaction.AnyUse` | linux/native/src/helper/linux_file_transaction.cc:103-272 | any calls in any order on one transaction, with any faults and any interference with any of the four names, and the destructor: the whole run is one of guarded directory operations and syncs, all journal writes obey the transition table, and until the target or backup is touched every crash at every moment is safe in that sense |
| `SwapTransaction.OrderlyUse` | linux/native/src/helper/linux_file_transaction.cc:103-272 | if nothing fails and nobody interferes, every crash at every moment leaves each tree under the one name where its renames have put it |
| `SwapRun.CompletedWasDurable` | linux/native/src/helper/linux_file_transaction.cc:266-270 | a run counts as completed only from the sync of a completed record on |
| `SwapRun.ForeignTreesStay` | linux/native/src/helper/linux_file_transaction.cc:222-271 | whatever others put under the target and backup names, the swap moves a target away only if it is exactly the tree the journal calls the old one, to where nothing is; it activates only over the recorded backup; it otherwise changes no more of the target than the change time of its root; and it touches a backup only under a completed record and with the old root |
| `SwapRun.RewoundWasPossible` | linux/native/src/helper/linux_recovery_service.cc:276-282 | a run counts as rewound only after a moment at which a crash could leave a targetActivated record without an intact old tree |
| `SwapTransaction.LinuxFileTransaction.PrepareDurableJournal` | linux/native/src/helper/linux_file_transaction.cc:141-179 | the run continues safely; a return means a durable prepared record of the identities that were validated |
| `SwapTransaction.LinuxFileTransaction.CancelPrepared` | linux/native/src/helper/linux_file_transaction.cc:181-197 | the run continues safely; a return means that journal and lock are durably gone and that target and stage were exactly the recorded ones; without faults it returns exactly if they are |
| `SwapTransaction.LinuxFileTransaction.Execute` | linux/native/src/helper/linux_file_transaction.cc:199-272 | the run so far is continued, safely at every moment, lawfully and without a rewind; a return means the verified payload is in place; without faults it returns; a second call does nothing |
| `SwapTransaction.LinuxFileTransaction.Dispose` | linux/native/src/helper/linux_file_transaction.cc:103-113 | after any calls: a transaction that never wrote a journal gives its lock back, durably if nothing fails; any other leaves the directory alone |
| `SwapTransaction.MoveStage` | linux/native/src/helper/linux_file_transaction.cc:209-220 | stage to prepared, synced before the journal records the new identity |
| `SwapTransaction.MoveTarget` | linux/native/src/helper/linux_file_transaction.cc:222-238 | target to backup, synced before backupCreated is recorded |
| `SwapTransaction.Activate` | linux/native/src/helper/linux_file_transaction.cc:240-256 | prepared to target, synced before targetActivated is recorded |
| `SwapTransaction.Finish` | linux/native/src/helper/linux_file_transaction.cc:258-271 | completion is durable before anything of the backup is removed; a return means the verified payload and nothing left behind |
| `SwapTransaction.Directory.Change` | linux/native/src/helper/linux_file_transaction.cc:209-256 | one directory operation appends one moment to the run, in which it may be lost or kept whichever earlier ones are |
| `SwapTransaction.Directory.Sync` | linux/native/src/helper/linux_file_transaction.cc:216-251 | a successful sync appends the moment in which nothing can be lost, and completes the run if a completed record is there |
| `SwapTransaction.Directory.Persist` | linux/native/src/helper/linux_transaction_journal.cc:737-765 | the journal is the old or the new record, durably the new one on return |
| `SwapTransaction.Directory.Remove` | linux/native/src/helper/linux_transaction_journal.cc:767-777 | journal first, lock second, both durable on return |
| `SwapTransaction.Directory.RemoveBackup` | linux/native/src/helper/linux_transaction_journal.cc:407-445 | any number of removals inside the backup, each of which may or may not change the change time of its root, and then its name: only the backup changes, only under a completed record, and it is durably gone on return |
| `SwapModel.ImagesAreCrashSafe` | linux/native/src/helper/linux_file_transaction.cc:199-272 | an image is safe exactly if it is not rewound: the target is missing only while the backup holds the whole old tree, no journal state runs ahead of its rename, and the old tree is intact until completion |
| `SwapModel.ManualExactlyInTheWindows` | native_runtime/cpp/install_helper_contract.cc:27-95 | on crash images the decision is manual exactly in the two windows between rename and record, with a half-written journal, with a foreign prepared tree, or with a rewound record |
| `SwapModel.ActionDelivers` | native_runtime/cpp/install_helper_contract.cc:277-296 | the action makes the announced outcome true and deciding again announces it again |
| `SwapModel.RepeatedRecovery` | native_runtime/cpp/install_helper_contract.cc:277-296 | any rounds, each finished, not begun or cut inside: the outcome stays the first one exactly unless the first round begun was cut inside a removal; and the target is right either way |
| `SwapModel.InterruptedRemovalIsManual` | native_runtime/cpp/install_helper_contract.cc:27-95 | a crash in the middle of a removal keeps the target but makes the next decision manual |
| `InstallContract.DecisionsAreBacked` | native_runtime/cpp/install_helper_contract.cc:27-137 | whatever is observed, an outcome is named only on trustworthy evidence and only if the action makes it observable at the target; manual action cleans nothing up |
| `InstallContract.ManagerDecidedExactly` | native_runtime/cpp/install_helper_contract.cc:97-137 | a manager transaction is old or new exactly when the manager says so and its journal allows it |
| `InstallContract.SwapDecidedExactly` | native_runtime/cpp/install_helper_contract.cc:27-95 | a swap is decided old or new exactly by the journal state and what is under the three names, and the action is exactly what is left to do |
| `InstallContract.FirstFailureIsReported` | native_runtime/cpp/install_helper_contract.cc:277-296 | of the eight conditions on the evidence the first that fails is reported, and then nothing is decided |
| `InstallContract.TransitionsExactly` | native_runtime/cpp/install_helper_contract.cc:252-275 | from a state that is not final exactly these are allowed: manual action, rolling back while no manager was started, and one step further on the same track |
| `SwapRecovery.Recover` | linux/native/src/helper/linux_recovery_service.cc:103-299 | without faults it recovers exactly the recoverable images, empties the target name exactly on the stranded ones, asks for manual action exactly if it ends stuck, and rewinds exactly on RewindsAt; with faults it rewinds at most there; it leaves a stuck image as it is but for one change time; it breaks the transition table exactly on SkipsOrRewinds; a live owner is left alone |
| `SwapRecovery.TakeStage` | linux/native/src/helper/linux_recovery_service.cc:213-228 | finishes the stage rename if stage and payload match the journal |
| `SwapRecovery.TakeTarget` | linux/native/src/helper/linux_recovery_service.cc:230-244 | finishes the backup rename if the target matches the journal |
| `SwapRecovery.TakePrepared` | linux/native/src/helper/linux_recovery_service.cc:246-261 | finishes the activation if the prepared tree matches the journal |
| `SwapRecovery.Conclude` | linux/native/src/helper/linux_recovery_service.cc:263-295 | succeeds exactly if the target is the activated tree, then completion is recorded and everything cleaned up; the record is rewound exactly over a half-removed backup; a refusal changes at most a change time |
| `SwapRecovery.Resume` | linux/native/src/helper/linux_recovery_service.cc:213-295 | from a plausible image: whatever has not been moved is moved in order, with the exact conditions for success, an empty target name, a rewind and being stuck |
| `SwapRecovery.DropBackup` | linux/native/src/helper/linux_recovery_service.cc:276-287 | targetActivated and then completed are durable before the backup goes; the first of them is a rewound record exactly if the old tree is not intact |
| `SwapRecovery.RecoverFrom` | linux/native/src/helper/linux_recovery_service.cc:103-299 | from any image: every crash of the recovery leaves an image again; all of them are safe if the start was neither rewound nor on RewindsAt, and exactly then where nothing fails |
| `SwapRecovery.RecoverThroughCrashes` | linux/native/src/helper/linux_recovery_service.cc:103-299 | any number of recoveries, each cut off by a crash anywhere or failing, and then one left alone: all images on the way are crash images, orderly ones where nothing fails; it ends recovered, with nothing to recover, or stuck; and a stuck image stays as it is but for a change time, whatever crashes |
| `SwapRecovery.RecoverableExactly` | linux/native/src/helper/linux_recovery_service.cc:189-275 | of the images that a crash of a swap or recovery without faults leaves, exactly those are recoverable that have the lock, no half-written journal and no identity that has drifted from its record |
| `SwapRecovery.StrandedExactly` | linux/native/src/helper/linux_recovery_service.cc:230-251 | of these images, exactly those lose the target name that have lost it already and are not recoverable, or whose prepared tree has drifted while lock and journal are in order |
| `SwapRecovery.HalfRemovedIsRewound` | linux/native/src/helper/linux_recovery_service.cc:208-282 | a crash deep inside the removal of the backup leaves an image that recovery accepts; the record it then writes first claims an old tree that is gone: a crash over it is not safe and the reference decision gives up |
| `SwapRecovery.HalfRemovedExample` | linux/native/src/helper/linux_recovery_service.cc:276-282 | such an image exists |
| `SwapRecovery.ReleaseOrphanLock` | linux/native/src/helper/linux_recovery_service.cc:113-142 | without a journal at most the lock of a dead owner is removed |
| `SwapRecovery.StageRenameWindowIsStranded` | linux/native/src/helper/linux_recovery_service.cc:230-251 | in the stage rename window with a changed change time recovery strands the target |
| `SwapRecovery.RecoverableIsNotStranded` | linux/native/src/helper/linux_recovery_service.cc:103-299 | up-to-date identities are never stranded or stuck |
| `InstallSession.Session.Prepare` | native_runtime/cpp/native_install_session.cc:44-90 | a return means the seven calls of a complete preparation and a reservation bound to their answers; it throws exactly if a call did, the request is refused, the transaction is another one, the clock is out of range or the answers make no reservation; every failure is settled |
| `InstallSession.Session.AcceptCommit` | native_runtime/cpp/native_install_session.cc:106-120 | a return means a bound command, a clock not past the expiry, and the commit marked, in that order |
| `InstallSession.OneTextIsBound` | native_runtime/cpp/native_install_session.cc:92-104 | for each operation exactly one text is bound to a reservation: the canonical text of the command with all its fields |
| `InstallSession.Session.ExecuteAfterCallerExit` | native_runtime/cpp/native_install_session.cc:122-135 | executes once, only from the committed state, and reports what happened |
| `InstallSession.Session.Cancel` | native_runtime/cpp/native_install_session.cc:137-144 | cancels once, only for a bound cancellation of a prepared transaction |
| `InstallSession.Session.CancelPreparedState` | native_runtime/cpp/native_install_session.cc:156-169 | cancels once from the expected state and changes nothing otherwise |
| `InstallSession.Session.Dispose` | native_runtime/cpp/native_install_session.cc:28-36 | after the destructor every durable prepare is settled |
| `InstallSession.AnyUse` | native_runtime/cpp/native_install_session.cc:28-169 | any calls in any order with any failures, and the destructor: a durable prepare is settled exactly once, and executed only after the commit was marked |
| `InstallSession.SettledExactlyOnce` | native_runtime/cpp/native_install_session.cc:28-169 | what settled means call by call: exactly one cancellation or execution after the durable prepare and none before |
| `InstallService.Service.RunWithInitialRequest` | native_runtime/cpp/native_install_service_runtime.cc:24-84 | settled without the destructor however calls fail; executed only at the end of a whole commit dialogue; it returns exactly if no call threw and neither the preparation nor the command was refused, and then the commit was executed or the cancellation answered |
| `InstallService.Service.Run` | native_runtime/cpp/native_install_service_runtime.cc:18-22 | the same for the request that is read first, exactly when it returns included |
| `InstallService.Service.Converse` | native_runtime/cpp/native_install_service_runtime.cc:46-71 | which phase the dialogue is left in and which session states that phase can have; a bound and unexpired commit is executed and a bound cancellation answered unless a call throws or the cancellation fails |
| `InstallService.Service.Commit` | native_runtime/cpp/native_install_service_runtime.cc:52-63 | mark, identical acknowledgement, caller exit, execution, in that order; a bound commit that is not late gets there unless a call throws |
| `InstallService.Service.CancelOnRequest` | native_runtime/cpp/native_install_service_runtime.cc:64-70 | a bound cancellation is carried out and answered unless one of the two calls fails, never executed |
| `Lifecycle.RunsAreConsistent` | native_runtime/cpp/client_lifecycle.cc:9-217 | in every run a held stage belongs to the latest check and attempt, an install is in progress exactly with a nonzero active token, and then no stage is held |
| `Lifecycle.CheckLeaseExactly` | native_runtime/cpp/client_lifecycle.cc:24-47 | the lease of a check is accepted later exactly if no install is in progress and no other check was begun since, for fewer than 2^64 - 1 calls |
| `Lifecycle.StageLeaseExactly` | native_runtime/cpp/client_lifecycle.cc:49-88 | the lease of a stage attempt is accepted later exactly if no install is in progress and neither a check nor another attempt was begun since |
| `Lifecycle.InstallIsExclusive` | native_runtime/cpp/client_lifecycle.cc:109-201 | no second install until the token is rolled back or completed |
| `Lifecycle.RollbackRestoresExactly` | native_runtime/cpp/client_lifecycle.cc:130-201 | the handed out stage comes back exactly if no check and no stage attempt was begun in between |
| `Lifecycle.SpentTokensChangeNothing` | native_runtime/cpp/client_lifecycle.cc:159-201 | a token whose install is over never acts again, for fewer than 2^64 - 1 calls |
| `Lifecycle.ConfirmedNeverRollsBack` | native_runtime/cpp/client_lifecycle.cc:159-201 | once an install is confirmed its token can never be rolled back, whatever is called in between |
| `Lifecycle.DeniedLeasesPublishNothing` | native_runtime/cpp/client_lifecycle.cc:37-88 | a lease that was not allowed publishes nothing, whatever happens later |
| `Lifecycle.GrantedExactly` | native_runtime/cpp/client_lifecycle.cc:130-157 | in every run an install is granted exactly if none is in progress and a stage with a path is held, which is then handed out |
| `Lifecycle.PublishedIsHandedOut` | native_runtime/cpp/client_lifecycle.cc:72-157 | the stage that an install hands out is the one that was published, with its path, provenance and generation |
| `Lifecycle.CheckIsHandedOn` | native_runtime/cpp/client_lifecycle.cc:37-70 | a stage attempt is given the result of the check that was published |
| `Lifecycle.CountersDoNotRepeat` | native_runtime/cpp/client_lifecycle.cc:9-14 | the counters that skip zero do not repeat within their period |
| `Lifecycle.ClientLifecycleState.BeginCheck` | native_runtime/cpp/client_lifecycle.cc:24-35 | the method is the step of the state machine |
| `Lifecycle.ClientLifecycleState.BeginStage` | native_runtime/cpp/client_lifecycle.cc:49-70 | the step, and exactly when the lease is allowed |
| `Lifecycle.ClientLifecycleState.BeginInstall` | native_runtime/cpp/client_lifecycle.cc:109-157 | the step, and the handoff of the very stage that was held |
| `Lifecycle.ClientLifecycleState.RollbackInstall` | native_runtime/cpp/client_lifecycle.cc:159-179 | the step, and exactly when the stage is restored |
| `Lifecycle.ClientLifecycleState.CompleteInstall` | native_runtime/cpp/client_lifecycle.cc:191-201 | the step |
| `Lifecycle.SchedulingRollbackGuard.Dispose` | native_runtime/cpp/client_lifecycle.cc:224-228 | the destructor of the guard rolls back unless it was confirmed |
| `Civil.EpochIsDayZero` | native_runtime/cpp/release_contract.cc:97-107 | 1970-01-01 is day 0 |
| `Civil.NextDayIsNextNumber` | native_runtime/cpp/release_contract.cc:87-107 | each calendar successor is the next integer |
| `Civil.CivilInvertsDays` | native_runtime/cpp/release_contract.cc:178-197 | the day arithmetic of the formatter inverts DaysFromCivil on every valid date |
| `Civil.DaysInvertsCivil` | native_runtime/cpp/release_contract.cc:178-197 | and DaysFromCivil inverts it on every day |
| `Instants.ParseInstant` | native_runtime/cpp/release_contract.cc:109-170 | the loops compute the specified instant, or throw with it |
| `InstantForms.AcceptsExactlyForms` | native_runtime/cpp/release_contract.cc:109-170 | exactly the written forms are accepted, each as its instant: fixed-width fields of a valid date and time, an optional fraction of any length cut or filled to six digits, and Z or an offset below a day |
| `InstantForms.ReadsBackExactly` | native_runtime/cpp/release_contract.cc:109-215 | what is printed is read back exactly in the years 0 to 9999, and refused otherwise |
| `InstantForms.PolicyExactly` | native_runtime/cpp/release_contract.cc:998-1011 | a supported version is always offered updates; otherwise both texts must be instants and the deadline decides |
| `Instants.ReadInvertsFormat` | native_runtime/cpp/release_contract.cc:109-215 | instants of UTC years 0 to 9999 are read back from their normal form |
| `Instants.ReadInvertsFormatAtOffset` | native_runtime/cpp/release_contract.cc:150-170 | the same instant written at any offset is read as the same instant |
| `Instants.OffsetShifts` | native_runtime/cpp/release_contract.cc:129-170 | any accepted text with Z, whatever the length of its fraction, is read with an offset as the instant so much earlier or later |
| `Instants.MicrosecondsInRange` | native_runtime/cpp/release_contract.cc:129-148 | an accepted text has less than a second of microseconds, however long its fraction is |
| `Instants.DeadlineIgnoresOffsets` | native_runtime/cpp/release_contract.cc:998-1011 | for any accepted texts the deadline is enforced from its microsecond on, and texts of the same moment have the same outcome |
| `Versions.ParseInvertsText` | native_runtime/cpp/release_contract.cc:562-605 | well-formed versions are read from their text, and a build argument replaces the one in the text |
| `Versions.ParsedIsSound` | native_runtime/cpp/release_contract.cc:562-605 | accepted versions have numbers that fit, no empty identifier, no negative build, and at most one plus sign |
| `Versions.Trim` | native_runtime/cpp/release_contract.cc:21-33 | the loops strip exactly the spaces at both ends |
| `Text.SplitText` | native_runtime/cpp/release_contract.cc:229-238 | the loop computes the parts between the separators |
| `Versions.ComparePrerelease` | native_runtime/cpp/release_contract.cc:240-262 | the loop decides by the first difference |
| `Versions.ComparesAsSemVer` | native_runtime/cpp/release_contract.cc:240-262 | without builds and on canonical identifiers the comparison is the precedence of section 11 of Semantic Versioning 2.0.0 |
| `Versions.OrderedExactly` | native_runtime/cpp/release_contract.cc:607-617 | on any list of versions the comparison is a total preorder exactly if no two differ first in numerals of the same value and none without a build is between two with builds |
| `Versions.TripleExactly` | native_runtime/cpp/release_contract.cc:607-617 | two versions with builds and one without are in order exactly if it is not between them |
| `Versions.ComparesInOrder` | native_runtime/cpp/release_contract.cc:607-617 | with builds throughout, without any, or with builds that agree with the numbers, the comparison is a total preorder |
| `Versions.MixedExactly` | native_runtime/cpp/release_contract.cc:607-617 | two versions with builds mix with every version without one exactly when builds and numbers agree |
| `Versions.MixedCycle` | native_runtime/cpp/release_contract.cc:607-617 | a cycle of three versions |
| `Versions.MirroredExactly` | native_runtime/cpp/release_contract.cc:240-262 | the two directions contradict each other exactly on numerals with the same value |
| `Versions.LeadingZerosContradict` | native_runtime/cpp/release_contract.cc:240-262 | 1.0.0-01 and 1.0.0-1 are each above the other |
| `ReleaseSelection.RolloutIncludes` | native_runtime/cpp/release_contract.cc:264-279 | the cohort is the first four digest bytes modulo 100, compared with the percentage |
| `ReleaseSelection.SharesAreExact` | native_runtime/cpp/release_contract.cc:264-279 | a percentage admits exactly that many of the hundred cohorts, the shortcuts for 0 and 100 included; without an identity only full rollouts are admitted |
| `ReleaseSelection.CohortTextLines` | native_runtime/cpp/release_contract.cc:264-279 | the digested text has exactly the salt, the channel and the trimmed identity as its lines |
| `ReleaseSelection.LeadingBytes` | native_runtime/cpp/release_contract.cc:264-279 | the cohort number is made of the first four bytes, the most significant first |
| `ReleaseSelection.SelectReleaseIndexItem` | native_runtime/cpp/release_contract.cc:786-814 | the loop computes the selection; what it selects is for the platform and channel of the installation and above its version, and it throws exactly if such an item has no cohort or no version |
| `ReleaseSelection.SelectThrows` | native_runtime/cpp/release_contract.cc:786-814 | the selection throws exactly if some matching item does |
| `ReleaseSelection.SelectsFirstMaximal` | native_runtime/cpp/release_contract.cc:786-814 | among comparable candidates the first of the newest eligible items is selected, and none exactly if none is eligible |
| `ReleaseSelection.RaisingNeverLowers` | native_runtime/cpp/release_contract.cc:264-279 | raising rollout percentages never lowers the selected version |
| `ReleaseSelection.CheckStages` | native_runtime/cpp/update_client_core.cc:113-137 | noUpdate exactly if no item of this platform and channel has a version above the current one; rolloutIneligible exactly if some have and this installation is in the cohort of none; what is offered is of this platform, channel and above the current version, and is the selection |
| `ReleaseSelection.ValidItemHasVersion` | native_runtime/cpp/update_client_core.cc:46-54 | items of a parsed index always have a version to compare |
| `ReleaseSelection.ItemBuild` | native_runtime/cpp/release_contract.cc:797-800 | a positive build number of an item decides over the text and any other does not count |
| `Base64.DecodeBase64` | native_runtime/cpp/release_contract.cc:1013-1054 | the loop computes the decoding or throws with it |
| `Base64.DecodeInvertsEncode` | native_runtime/cpp/release_contract.cc:1013-1054 | nonempty bytes are read back from the encoding of section 4 of RFC 4648 |
| `Base64.EncodeInvertsDecode` | native_runtime/cpp/release_contract.cc:1013-1054 | only encodings are accepted, and there are three quarters of the length less the padding as many bytes |
| `Base64.DecodeInjective` | native_runtime/cpp/release_contract.cc:1020-1039 | accepted texts with the same bytes are equal |
| `DotSegments.RemoveDotSegments` | native_runtime/cpp/redirect_url.cc:188-220 | terminates, and on rooted paths equals the segment stack of section 5.2.4 of RFC 3986 |
| `DotSegments.NormalIsNormal` | native_runtime/cpp/redirect_url.cc:188-220 | the result is rooted, has no dot segment and is a fixed point |
| `DotSegments.PopRemoves` | native_runtime/cpp/redirect_url.cc:179-186 | removing the last segment pops the stack |
| `RedirectUrl.ResolveRedirectURL` | native_runtime/cpp/redirect_url.cc:242-270 | the branches compute the resolved parts and print them |
| `RedirectUrl.ResolvesAsRfc3986` | native_runtime/cpp/redirect_url.cc:242-270 | the target is the transformation of section 5.2.2 of RFC 3986, required to be an HTTP URL that does not leave https |
| `RedirectUrl.MergeBySegments` | native_runtime/cpp/redirect_url.cc:222-227 | the last segment of the base gives way to the segments of the reference, as in section 5.2.3 of RFC 3986 |
| `RedirectUrl.AbsoluteIsClean` | native_runtime/cpp/redirect_url.cc:58-177 | every accepted URL has a lower-case host, no default port, a rooted path and parts free of the marks that end them |
| `RedirectUrl.SerializedReads` | native_runtime/cpp/redirect_url.cc:229-238 | clean parts are read back from their text |
| `RedirectUrl.ResolvedReads` | native_runtime/cpp/redirect_url.cc:242-270 | every returned URL is read back as exactly the parts it was printed from |
| `RedirectUrl.ChainStaysClean` | native_runtime/cpp/redirect_url.cc:242-277 | along a chain of any length https stays https, a default port never reappears, each URL is its own normal text and the request target is exactly its middle, never the fragment |
| `RedirectUrl.TargetIsMiddle` | native_runtime/cpp/redirect_url.cc:272-277 | the request target is exactly what stands between authority and fragment in the text of the URL: path and query |
| `RedirectUrl.CharactersExactly` | native_runtime/cpp/redirect_url.cc:40-56 | exactly texts without blanks, control bytes and backslashes pass |
| `RedirectUrl.AuthorityExactly` | native_runtime/cpp/redirect_url.cc:116-160 | exactly a host in brackets or without a colon, with or without a nonempty port and without user information, is accepted, in lower case |
| `RedirectUrl.PortsExactly` | native_runtime/cpp/redirect_url.cc:116-177 | a port is read as written and left out exactly if it is that of the scheme |
| `ArchivePreflight.NormalizeSafeArchivePath` | native_runtime/cpp/artifact_stager.cc:166-201 | the loops compute the specified path or throw with it |
| `ArchivePreflight.NormalPathIsNormal` | native_runtime/cpp/artifact_stager.cc:166-201 | the result is relative, has only plain segments and is its own normal form |
| `ArchivePreflight.NormalPathExactly` | native_runtime/cpp/artifact_stager.cc:166-201 | exactly these paths are accepted: no NUL, no colon, not rooted, no segment that leads upwards and some segment that counts |
| `ArchivePreflight.KeptFilters` | native_runtime/cpp/artifact_stager.cc:166-201 | the segments that count are kept in their order, segment by segment |
| `ArchivePreflight.KeysExactly` | native_runtime/cpp/artifact_stager.cc:122-133 | two paths are one entry exactly if they are equal, on Windows up to the case of letters |
| `ArchivePreflight.CheckDuplicateConflict` | native_runtime/cpp/artifact_stager.cc:135-162 | accepts exactly when no known entry has the key or is in the way, and then adds the key |
| `ArchivePreflight.FileAbove` | native_runtime/cpp/artifact_stager.cc:146-153 | the loop finds a file among the parents exactly if there is one |
| `ArchivePreflight.ProbeFindsChild` | native_runtime/cpp/artifact_stager.cc:154-160 | the lower_bound probe finds a child whenever there is one |
| `ArchivePreflight.BelowBySegments` | native_runtime/cpp/artifact_stager.cc:146-160 | the textual prefix test is the prefix of segment lists |
| `ArchivePreflight.Preflight` | native_runtime/cpp/artifact_stager.cc:221-282 | accepts exactly the archives within all limits, with an unbounded sum of sizes, whose keys are distinct and none below a file |
| `ArchivePreflight.VerdictUnordered` | native_runtime/cpp/artifact_stager.cc:254-282 | the verdict does not depend on the order of the entries |
| `StageTree.ValidateRelative` | native_runtime/cpp/stage_provenance.cc:92-110 | the loop accepts exactly relative paths of plain segments |
| `StageTree.ValidRelativeExactly` | native_runtime/cpp/stage_provenance.cc:92-110 | exactly segments joined by slashes are valid, none of them empty or dots, without backslash and drive letter |
| `StageTree.AddInventory` | native_runtime/cpp/stage_provenance.cc:302-386 | whatever order names are listed in, each node but the root marker gets one entry; throws exactly on special files and links that lead outside |
| `StageTree.Inventory` | native_runtime/cpp/stage_provenance.cc:388-400 | the sorted result has an entry for each node and no other |
| `StageTree.InventoryUnique` | native_runtime/cpp/stage_provenance.cc:388-400 | a tree has one inventory |
| `StageTree.InventoryPinsTree` | native_runtime/cpp/stage_provenance.cc:302-400 | two trees have the same inventory exactly when they are the same up to digests |
| `StageTree.AlikeExactlyEqual` | native_runtime/cpp/stage_provenance.cc:302-400 | where the digest tells the files of two trees apart, alike is equal |
| `StageMarker.DecodeListing` | native_runtime/cpp/stage_provenance.cc:437-471 | the loop with its set of paths and its previous path decides by the order alone |
| `StageMarker.MarkerDecodes` | native_runtime/cpp/stage_provenance.cc:402-473 | a marker is read back exactly when its paths are acceptable |
| `StageMarker.ReadInvertsEncode` | native_runtime/cpp/stage_provenance.cc:533-548 | and so is its canonical text |
| `StageMarker.ReadMarkersAreValid` | native_runtime/cpp/stage_provenance.cc:423-473 | whatever is read has a valid identity and sorted, relative, well-shaped entries, and is canonical |
| `StageMarker.NonceExactly` | native_runtime/cpp/stage_provenance.cc:75-90 | a nonce is exactly the five groups of lower-case digits of a version 4 UUID |
| `StageMarker.EqualEntries` | native_runtime/cpp/stage_provenance.cc:475-488 | the loop decides equality |
| `StageMarker.WriteStageProvenance` | native_runtime/cpp/stage_provenance.cc:604-624 | succeeds only, and without faults of the file system exactly, if the metadata and the tree allow it; the marker then holds the inventory |
| `StageMarker.VerifyStageProvenance` | native_runtime/cpp/stage_provenance.cc:642-657 | succeeds only, and without faults of the file system exactly, on a verified stage |
| `StageMarker.VerifiesExactlyUnchanged` | native_runtime/cpp/stage_provenance.cc:604-657 | with the marker in place, verification succeeds exactly when the rest is the tree it was written for, up to digests, and its paths are acceptable |
| `StageMarker.VerifiesExactlyEqual` | native_runtime/cpp/stage_provenance.cc:604-657 | and where the digest tells the files apart, exactly when the rest is that very tree and its paths are acceptable |
| `StageMarker.BackslashNeverVerifies` | native_runtime/cpp/stage_provenance.cc:92-98 | the marker of a stage with a backslash in a name can be written, but no stage that holds it ever verifies |
| `ProviderRecord.DecodeInvertsEncode` | linux/native/src/helper/linux_provider_journal.cc:120-174 | a record that encodes is read back |
| `ProviderRecord.EncodeInvertsDecode` | linux/native/src/helper/linux_provider_journal.cc:120-174 | an accepted text is the encoding of what it is read as |
| `ProviderRecord.ChainFollows` | linux/native/src/helper/linux_provider_journal.cc:236-290 | along any allowed writes immutable fields never change, the state only advances, terminal records stay, and the identity changes only away from the pending digest |
| `ProviderRecord.AllowedExactly` | linux/native/src/helper/linux_provider_journal.cc:236-290 | a record may follow another exactly if nothing but state and identity differs, the state stays or advances without completing at once, and the identity stays or replaces the pending one at its two places |
| `ProviderRecord.TerminalExactly` | linux/native/src/helper/linux_provider_journal.cc:272-290 | terminal are exactly the states that nothing can follow |
| `ProviderRecord.IdentityChangesOnce` | linux/native/src/helper/linux_provider_journal.cc:253-270 | the identity changes at most once |
| `ManagedRefresh.Journal.Load` | linux/native/src/helper/linux_provider_journal.cc:321-341 | returns what the journal holds, or throws; without faults it returns for every valid id |
| `ManagedRefresh.Journal.Persist` | linux/native/src/helper/linux_provider_journal.cc:343-384 | only permitted records become visible, on success the new one and durably, on failure the old or the new one; without faults it succeeds exactly for permitted records; what is durable afterwards follows what was durable |
| `ManagedRefresh.SurvivorsFollow` | linux/native/src/helper/linux_provider_journal.cc:367-383 | what a power loss leaves follows the durable record and is followed by the held one, and is the held one if that was durable |
| `ManagedRefresh.Journal.LosePower` | linux/native/src/helper/linux_provider_journal.cc:367-383 | a power loss leaves of each file its durable version or any later one, and nothing durable is lost |
| `ManagedRefresh.HeldFollowsDurable` | linux/native/src/helper/linux_provider_journal.cc:343-384 | what is held follows what is durable |
| `ManagedRefresh.StartDurable` | linux/native/src/helper/external_managed_refresh.cc:93-128 | a return equals the durably journaled transaction; the provider is started at most once and only over a durable prepared record; what each failure leaves behind; without faults it starts exactly if the prepared record is permitted and returns exactly if the provider gives an identity that can be recorded |
| `ManagedRefresh.RecoverDurable` | linux/native/src/helper/external_managed_refresh.cc:130-157 | a return equals the journaled transaction, which follows the earlier one; the provider is never started; without faults a terminal transaction is returned as it is and any other exactly if the provider answers with something that may be recorded |
| `ManagedRefresh.RecoverTransaction` | linux/native/src/helper/external_managed_refresh.cc:76-91 | only state and identity change, and without an identity nothing is asked |
| `ManagedRefresh.FallbackDecided` | linux/native/src/helper/external_managed_refresh.cc:119-127 | the fallback record is allowed over the prepared one exactly if no new identity was captured |
| `ManagedRefresh.RestartExactly` | linux/native/src/helper/external_managed_refresh.cc:98-110 | a second start goes through exactly while the journal holds the same prepared record or none |
| `ManagedRefresh.AnyUse` | linux/native/src/helper/external_managed_refresh.cc:93-157 | any starts, recoveries, writes and power losses, failing anywhere: what is durable and what is held in the end follows what was durable; without a power loss it follows what was held; and every start happened over a prepared record |

## Left out

- Signatures and digests are parameters: Ed25519, SHA-256 and hexadecimal printing of digests are not modelled, and nothing is claimed about collisions.
- File descriptors, mounts, ownership, modes and process liveness: a tree is an identity (inode and change time), a payload and whether it is whole; `HasStableLinuxIdentity` and `MatchesActivatedPayloadRoot` compare the inode, `HasExactLinuxIdentity` also the change time.
- Interference is modelled at the fault points of the swap. Recovery has none: it is modelled alone with the directory, from an image in which nobody has replaced the target or the backup.
- The lock files of the recovery service, except the transaction lock, and the decoding of lock and journal files, which are treated as records.
- The actions that the reference decision names have no code in the repository: they are modelled by their effect, and removals also by a half-removed tree.
- Error codes and messages of the request and wire codecs: only acceptance and refusal are modelled. The nesting depth and memory that a recursive parser needs are not bounded.
- Allocation failures, in particular while a result is copied out of a session.
- Threads of the client lifecycle: each method holds one mutex, so that a concurrent run is a sequence of calls.
- The temporary file of the provider journal and the limit on its length.
- The construction and digest of provider commands, and the field checks of refresh requests: the digest of the command is part of the request.
- The support policy status that an update check carries along, the download and verification of descriptors, and the indexes themselves: items are taken as parsed.
- A marker that is itself a symbolic link.
- Windows-specific code, except for the lower-casing of archive keys; extraction of archives; removal of trees.
- Policy and authorization checks, reservation store, relaunch, diagnostics, syslog, plugins and bridges.
