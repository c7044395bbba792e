# Housegate in Dafny

Housegate is a proxy for the ClickHouse native protocol. It terminates the protocol towards
clients and towards upstream servers, enforces permissions, and runs a storage-integrity lane in
which every signed INSERT is sequenced, stored and acknowledged exactly once. This project models
the parts of it where state, loops or parsing span several functions, and proves what those parts
are for.

`dafny verify dfyconfig.toml` checks the whole project.

## The components

**Storage-integrity ingress** (`Ingress`, `PartsReservation`, `ClientErrors`,
`MergeSupervisor`).
One admission goes through merge health, a capacity reservation, the payload store and the
orchestrator. The collaborators are ports: every answer they can give is a parameter, so each
contract holds for all answers. What is assumed of them is written as a predicate where it is
used: a fresh accept carries no refusal code (`AcceptedHasNoCode`), ports return no error that is
already flagged (`PortsUnflagged`).
`Conserved` says that each capacity handle ever obtained is either tracked live under its own
statement or settled; every method keeps it and `RunAll` carries it through whole runs. The merge
supervisor is a state machine of `Run`, a publisher and other callers, interleaved step by step; it
is assumed that the table state publishes snapshots with strictly increasing versions.

**DDL and DCL state with rollback, and the permission gate** (`NetworkState`, `CommitGate`,
`StatementEffects`, `CommitGateObserver`, `PermissionGate`). `CommitGate` says on values what each
statement does to the two maps and which undo it stashes (the closures of the source are a
datatype); `StatementEffects` says of every statement, without its steps, which databases, tables
and bits are there afterwards. The observer
class updates its fields in place and is proved to do exactly that. A privilege delta is taken to
target the first accessed table, as the comment at
`pkg/network/inmemory_commitgate_observer.go:363` says (`SingleTarget`).

**The wire codec** (`Wire`, `WireExact`, `WireReader`, `Layout`, `QueryCodec`, `QueryExact`,
`QueryLayout`, `QueryPackets`, `ChunkModes`, `ServerHello`, `HelloLayout`, `HelloRewriter`,
`Chunking`, `ChunkedTransport`, `Addendum`, `AddendumCodec`, `PacketBodies`, `PacketLayouts`,
`Capture`, `PacketReader`, `CompressedFrames`, `CompressedReader`). Readers and
writers are specified on byte sequences (`...From` and `...Then`, the latter an encoding followed
by any tail) and the classes that consume streams or fill buffers are proved against those. What
travels is stated a second time as tables (`Layout`): the named fields of a packet in their order,
each with the number of the revision that introduced it. The writers write the tables and the
readers read them back (`QueryLayout`, `HelloLayout`, `PacketLayouts`). The
connection under the chunked reader answers as it likes: `Transport` follows an arbitrary script
of piece sizes and errors. The Native decoder and the decompressor are libraries: a body is a
function that says after which bytes it is done, a frame has the data the decompressor gives it,
and what is assumed of them is `Sound`. The protocol revisions are in `Revisions`,
the sizes of the buffered readers in `BufferedReading`.

**Lattice hash and canonical rows** (`LtHash`, `NameOrder`, `RowFraming`, `RowReading`,
`CanonicalValue`, `CanonicalRow`). BLAKE3 is an arbitrary function of the right output size. Rows are encoded by the
loops of the source; injectivity, a reader that takes a row apart again and order-independence are
lemmas about the layout.

**Replica pool and health** (`ReplicaPool`, `ReplicaHealth`). `Get` is one atomic step, expiry and
dialling are decided by the caller of the model. Health is compared with a specification over the
whole history of results.

`Bytes` and `Options` are shared by all of them; `NameOrder` also orders the partitions of the
ingress.

## Where the code and its promises part

- A ClientError around a flagged one hides the flag; `ClientErrorHidesInnerFlag` and
  `FlagSurvivesJoin` say exactly when a flag shows.
- Restoring reservations conserves handles exactly when none of the restored statements is
  tracked already (`RestorePressureReservations`).
- Replaying an event is a no-op in every state, except a permitted DROP of a table or view whose
  name its database lists twice (`ReplayIsNoOpIff`, `ReplayNeedsDistinctTables`).
- A Date before the epoch is stored as the following day unless it is a midnight
  (`DateDaysAreCalendarDays`).
- A processing stage larger than one byte is cut on decoding (`StageSurvivesIffOneByte`).
- The rewriter of the ServerHello reads varints that the codec refuses; the two readers differ
  exactly on `Overfull` inputs (`VarIntsAgree`).
- Two ends disagree on chunking exactly when something wanted and advertised is not proposed any
  more, or the revision does not carry the modes (`EndsAgreeIff`, `ProposingLessDisagrees`).
- The byte count reported for a BlockInfo is the number of bytes read exactly when every varint
  in it is written shortest (`CountIsExactIff`, `CountCanFallShort`).
- A compressed body that ends where a frame with data ends is walked to that point exactly when
  its first frame has data and no hundred frames in a row have none (`WalkSucceedsIff`,
  `EmptyFirstFrameFails`).
- A string length in a ServerHello that takes the rewriter past the largest `int` is a slice out of
  bounds (`RewritePanics`, `LongestNamePanics`). It does not happen on a packet the decoder accepts
  (`AcceptedPacketsDoNotPanic`), and the only caller, at `pkg/chproto/codec.go:346`, has decoded the
  packet before.
- A streaming read with no room for a byte does not return from an open frame exactly when the
  connection does not fail there, and on a connection that never fails exactly when there is
  something to come (`ChunkedReader.Read`).
- A stashed undo loses an entry left over from a database that was not registered, and inner maps
  without entries; `UndoIsExactIff` gives the exact condition in every state, and
  `UndoNeedsNoLeftover` a case.
- A decoded Query is encoded to the same bytes exactly when they were canonical
  (`QueryBytesKeptIff`).
- The comment at `storage_integrity_ingress.go:659` says that after Orchestrate only a coded terminal
  reject is marked unspent; the code also marks five refusal codes whatever the category
  (`RefusedUnspent`), and the model follows the code.
- Returning a connection twice breaks the pool unless it is neither idle nor kept; the exact
  condition is the contract of `Pool.Put`.
- Health thresholds beyond the 32-bit counters are never reached
  (`WideThresholdsAreMissed`, `WidthDoesNotMatter`).

## Model

| member | source | states |
|---|---|---|
| `ClientErrors.MarkSeqUnspent` | pkg/chproto/client_error.go:241-246 | the result is unspent, matches exactly the sentinels the error matched and tells the client the same code |
| `ClientErrors.UnflaggedIsNotUnspent` | pkg/chproto/client_error.go:250-257 | an error chain without a marker or flagged ClientError is never reported as unspent |
| `ClientErrors.FlagSurvivesWrapping` | pkg/chproto/client_error.go:241-257 | any number of wraps neither drops nor invents the flag |
| `ClientErrors.FlagSurvivesJoin` | pkg/chproto/client_error.go:250-257 | exactly when a joined error is unspent: an unflagged ClientError on the left hides a flagged one on the right |
| `ClientErrors.ClientErrorHidesInnerFlag` | pkg/chproto/client_error.go:250-257 | a ClientError around a flagged error shows only a marker |
| `ClientErrors.IsIff` | pkg/chproto/client_error.go:241-257 | a sentinel matches exactly if the walk of the error tree meets it |
| `ClientErrors.FirstClientDecides` | pkg/chproto/client_error.go:250-257 | what the client is told and the flag are those of the first ClientError the walk meets |
| `ClientErrors.HasMarkIff` | pkg/chproto/client_error.go:250-257 | a marker counts exactly if the walk meets it |
| `PartsReservation.Reservation.Commit` | pkg/storageintegrity/parts_pressure.go:1057-1081 | a reserved handle becomes committed even when binding fails; a settled one stays settled |
| `PartsReservation.Reservation.CommitIndeterminate` | pkg/storageintegrity/parts_pressure.go:1083-1098 | a reserved handle becomes committed, any other is left alone |
| `PartsReservation.Reservation.Release` | pkg/storageintegrity/parts_pressure.go:1100-1102 | idempotent release; a finalized handle is not released |
| `PartsReservation.Reservation.ReleaseCleaned` | pkg/storageintegrity/parts_pressure.go:1174-1221 | released exactly when the inventory proof succeeds, otherwise unchanged |
| `PartsReservation.Reservation.Finalize` | pkg/storageintegrity/parts_pressure.go:1459-1470 | finalized unless already released |
| `Ingress.ValidateCandidateBinding` | storage_integrity_ingress.go:345-378 | succeeds exactly when there is one complete candidate of this table for every touched partition |
| `Ingress.CandidatePartitionIds` | storage_integrity_ingress.go:513-525 | the partitions the candidates name, each once and in ascending order |
| `NameOrder.AscendingIsUnique` | storage_integrity_ingress.go:513-525 | that order is the only ascending one of its members |
| `Ingress.PlanRestore` | storage_integrity_ingress.go:386-462 | exactly which journal records recovery skips, restores and refuses; which partitions a restored one gets; if it has a prepared result, these bind its candidates exactly |
| `Ingress.RestoreBatch` | pkg/storageintegrity/parts_pressure.go:674-843 | one fresh committed handle per unfinished statement exactly when the batch is well formed and the guard does not refuse, otherwise an error and none |
| `Ingress.NotAckedError` | storage_integrity_ingress.go:825-909 | the refusal is flagged unspent exactly for the five admission codes and for a terminal reject with a proving code; which code and which fate of the session each of the five tells the client, and that the others tell none |
| `Ingress.EarlyRefusal` | storage_integrity_ingress.go:663-703 | exactly when an admission is refused before the statement record is consulted; every such refusal is flagged unspent, and an unhealthy merge tells the client so |
| `Ingress.ReserveRefusal` | storage_integrity_ingress.go:593-605 | a refused reservation is flagged unspent; a canceled caller is told so, any other the back-pressure code |
| `Ingress.FinalError` | storage_integrity_ingress.go:815-912 | success exactly on a clean ACK2; the error otherwise, and what it tells the client; flagged exactly for a clean outcome without ACK2 whose refusal is flagged |
| `Ingress.StorageIntegrityIngress.CancelAttempt` | storage_integrity_ingress.go:967-973 | releases the handle, forgets it, touches no other statement and conserves all handles |
| `Ingress.StorageIntegrityIngress.FinalizeTracked` | storage_integrity_ingress.go:755-815 | finalizes the handle and forgets it, conserving all handles |
| `Ingress.StorageIntegrityIngress.CommitReservation` | storage_integrity_ingress.go:925-931 | a reserved handle becomes committed with or without candidates; the answer is the guard's unless there is nothing to bind |
| `Ingress.StorageIntegrityIngress.RunHook` | storage_integrity_ingress.go:304-343 | what each hook does: binding complete candidates commits the handle and passes the guard's answer on, incomplete ones change nothing, a proof before cleanup changes nothing, a proved cleanup releases and forgets the handle, a failed proof changes nothing; no other handle moves and all are conserved |
| `Ingress.StorageIntegrityIngress.Settle` | storage_integrity_ingress.go:755-815 | for every outcome of Orchestrate, and every answer of the guard, whether the handle is kept as it is, bound and kept, finalized and forgotten, or released and forgotten; no other handle moves; the error exactly when binding fails |
| `Ingress.StorageIntegrityIngress.OrchestrateAndSettle` | storage_integrity_ingress.go:749-815 | the same after whatever hooks Orchestrate called; hooks that prove no cleanup leave the handle where it was |
| `Ingress.StorageIntegrityIngress.Track` | storage_integrity_ingress.go:948-959 | a fresh reserved handle is tracked under its own statement |
| `Ingress.StorageIntegrityIngress.Acquire` | storage_integrity_ingress.go:713-735 | a tracked statement is reused exactly when a prepare is required; a fresh reserved handle is taken and tracked exactly when one is required, none is tracked and the guard is there; a refusal is the guard's and changes nothing |
| `Ingress.StorageIntegrityIngress.ReserveAndStore` | storage_integrity_ingress.go:713-749 | exactly when it refuses, with which error; a refused attempt gives back exactly what it took, and an accepted one holds the handle it reused or took |
| `Ingress.StorageIntegrityIngress.ConsumeAdmission` | storage_integrity_ingress.go:663-912 | exactly when Orchestrate is reached; conservation for every port answer; before it the map is left as it was, after it the handle of the statement is kept, bound, finalized or released exactly as the outcome says, and no other moves; exactly which refusals are flagged unspent; success exactly on a clean ACK2; metered exactly for an accepted statement, and then never refused as unspent |
| `Ingress.StorageIntegrityIngress.RestorePressureReservations` | storage_integrity_ingress.go:380-484 | all or nothing; tracks exactly the owing statements, each with the table and the partitions of its record; conserves handles if and only if none was tracked before |
| `Ingress.StorageIntegrityIngress.FinalizeRecovered` | storage_integrity_ingress.go:534-542 | every live handle becomes finalized and the map is emptied |
| `Ingress.StorageIntegrityIngress.RecoverPending` | storage_integrity_ingress.go:213-225 | a finished recovery leaves nothing tracked and every handle settled; a failed one can be called again |
| `Ingress.RunAll` | storage_integrity_ingress.go:663-912 | over every run of recoveries, admissions and retries: handles are conserved and every answer is sound about the unspent flag |
| `MergeSupervisor.Supervisor.Assert` | storage_integrity_merge_supervisor.go:54-93 | the latches become exactly those of the Active tables of one snapshot under the guard's report, and exactly the failures among them come back, in order |
| `MergeSupervisor.HealthIs` | storage_integrity_merge_supervisor.go:66-80 | every Active table has a latch: the error of the pass, else what the guard says of the table, else that it was not asserted |
| `MergeSupervisor.FailuresAre` | storage_integrity_merge_supervisor.go:66-80 | the failures are exactly the closed latches with their errors |
| `MergeSupervisor.Supervisor.CheckMergeHealth` | storage_integrity_merge_supervisor.go:97-111 | succeeds exactly for a table with an open latch; an unknown table is refused as not asserted, any other with the error of its latch |
| `MergeSupervisor.RunKeepsInv` | storage_integrity_merge_supervisor.go:54-171 | the invariant of the interleaved machine holds after every run |
| `MergeSupervisor.NoLostWakeup` | storage_integrity_merge_supervisor.go:133-162 | whenever Run sleeps, the last pass covered the current version or its channel has already fired |
| `MergeSupervisor.LatchesFailClosed` | storage_integrity_merge_supervisor.go:54-111 | a latch is open exactly for a table Active and reported healthy in the last completed pass |
| `MergeSupervisor.QuietLatchesAreCurrent` | storage_integrity_merge_supervisor.go:54-162 | while Run sleeps with nothing pending, an open latch names a table that is Active now |
| `MergeSupervisor.PassRefreshes` | storage_integrity_merge_supervisor.go:54-93 | a pass that nothing interrupts, of Run or of another caller, leaves the latches of the current snapshot |
| `MergeSupervisor.RunDecides` | storage_integrity_merge_supervisor.go:141-150 | Run sleeps exactly if the current version has been covered, and otherwise asks for a pass |
| `MergeSupervisor.RoundCatchesUp` | storage_integrity_merge_supervisor.go:133-171 | one round after a wake-up covers the current snapshot and sleeps again, with an open latch exactly for its healthy Active tables |
| `NetworkState.EntriesDetermine` | pkg/network/inmemory_commitgate_observer.go:155-183 | two permission maps without empty inner maps are equal when all their entries are |
| `CommitGate.UndoIsExact` | pkg/network/inmemory_commitgate_observer.go:93-388 | from a well-formed state the stashed undo takes any one statement back exactly |
| `CommitGate.UndoIsExactIff` | pkg/network/inmemory_commitgate_observer.go:93-388 | in every state the stashed undo takes a statement back exactly if and only if it meets no leftover entry and no empty inner map that it would drop |
| `CommitGate.UndoNeedsNoLeftover` | pkg/network/inmemory_commitgate_observer.go:114-145 | a leftover entry that is lost when CREATE DATABASE is taken back |
| `StatementEffects.CreatedTables` | pkg/network/inmemory_commitgate_observer.go:185-220 | exactly when CREATE TABLE or VIEW passes; a name that was not listed is listed behind the others with its kind, and nothing else changes |
| `StatementEffects.DroppedTables` | pkg/network/inmemory_commitgate_observer.go:222-269 | exactly when DROP TABLE or VIEW passes; the first entry of the name is gone, the others keep their order, and nothing else changes |
| `StatementEffects.CreatedDatabase` | pkg/network/inmemory_commitgate_observer.go:114-145 | exactly when CREATE DATABASE passes; a new database is registered at this indexer without tables, its creator gains ownership, and nothing else changes |
| `StatementEffects.DroppedDatabase` | pkg/network/inmemory_commitgate_observer.go:150-183 | exactly when DROP DATABASE passes; the database and every entry on it are gone, and nothing else changes |
| `StatementEffects.ChangedPrivileges` | pkg/network/inmemory_commitgate_observer.go:355-388 | exactly when privileges change; then a bit is held exactly if the last delta that names the account, the database and the bit grants it, or none does and it was held |
| `StatementEffects.OtherEffects` | pkg/network/inmemory_commitgate_observer.go:93-388 | a statement without a target database is refused, one of another kind passes, and neither changes anything |
| `CommitGate.ReverseOrderUndoRestores` | pkg/network/inmemory_commitgate_observer.go:93-417 | undoing any run in reverse order restores both maps exactly |
| `CommitGate.ApplyKeepsWellFormed` | pkg/network/inmemory_commitgate_observer.go:93-388 | every statement keeps: no empty inner maps, permissions only of registered databases, distinct tables |
| `CommitGate.PrivilegesKeepOwners` | pkg/network/inmemory_commitgate_observer.go:473-485 | no GRANT or REVOKE changes an Owner bit |
| `CommitGate.OneOwnerPerCreatedDatabase` | pkg/network/inmemory_commitgate_observer.go:114-183 | at most one owner per database in every run, and exactly one for a database that was not registered at any point of the run and is at its end, so also for one dropped and created again |
| `CommitGate.OpsInClosedForm` | pkg/network/inmemory_commitgate_observer.go:538-590 | any list of grants and revokes on one pair leaves the bits it forces on, minus those it forces off, whatever the rest of the list |
| `CommitGate.OpsAreIdempotent` | pkg/network/inmemory_commitgate_observer.go:538-590 | applying the same privilege operations again changes nothing, in any permission map |
| `CommitGate.ReplayIsNoOp` | pkg/network/inmemory_commitgate_observer.go:93-388 | in a well-formed state, replaying any event, accepted or refused, leaves the state unchanged |
| `CommitGate.ReplayIsNoOpIff` | pkg/network/inmemory_commitgate_observer.go:93-388 | in every state, replaying an event leaves the state unchanged if and only if it is not a permitted DROP of a name listed twice |
| `CommitGate.ReplayNeedsDistinctTables` | pkg/network/inmemory_commitgate_observer.go:222-269 | with a duplicated table name a replayed DROP TABLE removes a second entry |
| `CommitGateObserver.InMemoryObserver.CaptureEntries` | pkg/network/inmemory_commitgate_observer.go:155-175 | the captured entries are exactly the permissions on the database |
| `CommitGateObserver.InMemoryObserver.Sweep` | pkg/network/inmemory_commitgate_observer.go:155-175 | the database is gone from every account and no inner map is left empty |
| `CommitGateObserver.InMemoryObserver.ApplyPrivilegeDeltas` | pkg/network/inmemory_commitgate_observer.go:523-613 | all deltas are applied in order and the first value of every touched pair is captured |
| `CommitGateObserver.InMemoryObserver.BeforeStatement` | pkg/network/inmemory_commitgate_observer.go:93-388 | the in-place update, the verdict and the stashed undo are those of the value-level statement |
| `CommitGateObserver.InMemoryObserver.OnStatementException` | pkg/network/inmemory_commitgate_observer.go:394-417 | running the stashed undo gives the reverted state |
| `CommitGateObserver.InMemoryObserver.RejectedStatement` | pkg/network/inmemory_commitgate_observer.go:93-417 | a statement that passes and is then rejected by the server leaves no trace |
| `PermissionGate.PromoteBySources` | pkg/network/permission_commitgate_observer.go:346-354 | which raw bits give which bit after promotion |
| `PermissionGate.PermissionsFor` | pkg/network/inmemory.go:133-154 | the account's bits united with the zero address's on every database; absent exactly when neither has any |
| `PermissionGate.CheckAccess` | pkg/network/permission_commitgate_observer.go:287-337 | the decision in terms of who holds which raw bit, for the bitmap and for the contract predicate |
| `PermissionGate.BeforeStatement` | pkg/network/permission_commitgate_observer.go:182-237 | a statement passes exactly when its type has a policy, whoever signs for an owner is that owner or one of their operators, and every target allows the required bit to the owner, or without one to the signer; a SELECT may name none |
| `PermissionGate.ReadingTakes` | pkg/network/permission_commitgate_observer.go:116-122 | each of the six reading statements passes exactly on the system database and on a live one where the account or the zero address holds Read, Write or Owner |
| `PermissionGate.WritingTakes` | pkg/network/permission_commitgate_observer.go:124-138 | each of the nine writing statements passes exactly for Write or Owner on a live database, held by the account or the zero address; under the contract predicate held by the account itself, unless it signs for the hosting indexer |
| `PermissionGate.AdministeringTakes` | pkg/network/permission_commitgate_observer.go:140-143 | ALTER, RENAME, GRANT and REVOKE pass exactly for Admin or Owner |
| `PermissionGate.DroppingTakes` | pkg/network/permission_commitgate_observer.go:145-145 | DROP DATABASE passes exactly for Owner |
| `PermissionGate.OthersPassNowhere` | pkg/network/permission_commitgate_observer.go:182-196 | an unclassified statement, CREATE DATABASE and SHOW DATABASES pass nowhere |
| `PermissionGate.BitmapGateIsHasPermission` | pkg/network/inmemory.go:156-172 | the gate and HasPermission agree for every bit, except for the system database and databases pending deletion |
| `PermissionGate.WriterAgainstBitmap` | pkg/network/inmemory.go:194-213 | exactly where the contract writer predicate and the bitmap differ: the hosting indexer's signer and zero-address grants |
| `PermissionGate.WriterIgnoresSpelling` | pkg/network/inmemory.go:194-239 | the contract predicate answers alike for every spelling of an address: whatever white space is around it and whatever the case of its letters |
| `PermissionGate.NormalizeOf` | pkg/network/inmemory.go:203-208 | normalizing drops exactly the white space around a text and lower-cases the rest |
| `PermissionGate.ObserverChecksImplyGate` | pkg/network/inmemory_commitgate_observer.go:429-465 | what the observer's own checks let pass the bitmap gate lets pass |
| `PermissionGate.RevokeTakesEffect` | pkg/network/permission_commitgate_observer.go:287-337 | after any accepted privilege statement the gate refuses a bit to an account if and only if the statement took away every bit that gives it, from the account and from the zero address; for a write under the contract predicate, from the account, unless it signs for the host |
| `PermissionGate.PrivilegesDecideGate` | pkg/network/permission_commitgate_observer.go:287-337 | after any accepted GRANT or REVOKE, of however many deltas and grantees, the decision of the bitmap gate and of the contract predicate for every account, database and bit, in terms of the bits forced on and off |
| `PermissionGate.OwnerKeepsAccess` | pkg/network/inmemory_commitgate_observer.go:473-485 | no privilege statement takes any bit away from an owner |
| `QueryCodec.InfoRoundTrip` | pkg/chproto/query.go:257-490 | the ClientInfo is read back with its gated fields, the patch that depends on the interface, the trace ids and the token flag |
| `QueryLayout.SwapWordsAt` | pkg/chproto/query.go:336-344 | byte `k` of a swapped id is byte `8 * (k / 8) + 7 - k % 8` of the id |
| `QueryLayout.IdsFrom` | pkg/chproto/query.go:329-345 | the decoder takes the trace id from the first 16 bytes and the span id from the next 8, each word reversed |
| `QueryLayout.InfoLaid` | pkg/chproto/query.go:409-490 | the ClientInfo is written as a table of named fields, in order, each from its revision on; the trace ids with every eight-byte word reversed |
| `QueryLayout.InfoFromTable` | pkg/chproto/query.go:257-404 | that table is read back, whatever follows |
| `QueryLayout.InfoBefore` | pkg/chproto/query.go:102-107 | before 54420 nothing is read and every field has its zero value |
| `QueryLayout.QueryLaid` | pkg/chproto/query.go:200-252 | the Query is written as a table of named fields, in order, each from its revision on; settings as text from 54429 on and as numbers before, flags as 1, 2 and 4, parameters as custom settings |
| `QueryLayout.QueryFromTable` | pkg/chproto/query.go:92-195 | that table is read back, whatever follows |
| `QueryCodec.SettingsRoundTrip` | pkg/chproto/query.go:109-122 | settings with flags, up to the empty key |
| `QueryCodec.OldSettingsRoundTrip` | pkg/chproto/query.go:123-140 | settings in the format before string serialisation |
| `QueryCodec.QueryRoundTrip` | pkg/chproto/query.go:92-252 | at every revision, decoding an encoded Query followed by any tail gives the Query and leaves the tail |
| `QueryCodec.DecodedQueriesReencode` | pkg/chproto/query.go:92-252 | whatever the decoder accepts can be encoded and decoded again without loss |
| `QueryExact.QueryBytesKeptIff` | pkg/chproto/query.go:92-490 | decoding and encoding gives the same bytes if and only if varints are shortest, the trace state is canonical, collaboration is zero or one, flags are known, stage and compression fit a byte and parameters are custom settings |
| `QueryCodec.StageSurvivesIffOneByte` | pkg/chproto/query.go:92-195 | a stage or compression varint survives decoding exactly when it is below 256 |
| `Wire.PutUVarIntAt` | pkg/chproto/hello.go:206-219 | byte `i` of a varint has the seven bits for 128 to the `i`, and a high bit unless it is the last |
| `Wire.PutUVarIntLength` | pkg/chproto/codec.go:911-918 | a varint has as many bytes as its value has digits |
| `QueryPackets.DecodeClientInfo` | pkg/chproto/query.go:257-404 | the sequential reads give the specified ClientInfo and leave the specified rest, or fail when it does; of a ClientInfo written as the table they give it back |
| `QueryPackets.DecodeSpan` | pkg/chproto/query.go:329-365 | the trace id is the first 16 bytes of the stream and the span id the next 8, each word reversed |
| `QueryPackets.DecodeSettings` | pkg/chproto/query.go:109-122 | the loop reads exactly the settings up to the empty key |
| `QueryPackets.DecodeOldSettings` | pkg/chproto/query.go:123-140 | the loop reads exactly the old-format settings up to the empty key |
| `QueryPackets.DecodeQuery` | pkg/chproto/query.go:92-195 | the reader consumes exactly one Query body, or fails when the specification does; of a Query written as the table it gives it back |
| `QueryPackets.Buffer.EncodeClientInfo` | pkg/chproto/query.go:409-490 | the buffer grows by exactly the table of the ClientInfo |
| `QueryPackets.Buffer.EncodeQuery` | pkg/chproto/query.go:200-252 | the buffer grows by the type byte 1 and exactly the table of the Query |
| `QueryPackets.SendAndReceive` | pkg/chproto/query.go:92-252 | encode, transmit with anything behind, decode: the same Query, and what was behind |
| `ServerHello.VarIntsAgree` | pkg/chproto/hello.go:206-219 | the rewriter's varint reader agrees with the codec's exactly on inputs that are not overfull |
| `ServerHello.WireRevision` | pkg/chproto/hello.go:116-123 | the gating revision is the least of server, client and supported, and one of them |
| `ServerHello.ProxySend` | pkg/chproto/hello.go:183-190 | the proxy offers chunked responses exactly when the server does |
| `ServerHello.ProxySendByName` | pkg/chproto/hello.go:187-190 | "notchunked" if the server offers nothing or "notchunked", and "chunked_optional" otherwise |
| `HelloLayout.HelloFromTable` | pkg/chproto/hello.go:241-317 | the decoder reads back the table of named fields, each from its revision on, that a server writes at the gating revision, whatever follows |
| `HelloLayout.RewriteOfTable` | pkg/chproto/hello.go:63-201 | the rewriter turns that table into the table of the same Hello with the gating revision, "chunked_optional" to receive, the named mode to send and the same bytes behind it, and reports the modes the server offered |
| `ServerHello.RewriteKeepsMeaning` | pkg/chproto/hello.go:63-201 | whatever the decoder accepts is rewritten, and decodes to the same Hello and the same rest with only the revision and the two modes replaced; the modes it reports are those the server offered, none below the revision that has them |
| `ServerHello.RewriteIsIdempotent` | pkg/chproto/hello.go:63-201 | rewriting twice is rewriting once |
| `HelloRewriter.DecodeUVarInt` | pkg/chproto/hello.go:206-219 | the shift loop computes the 64-bit value, the bytes used and whether it is complete |
| `HelloRewriter.Cursor.ReadStr` | pkg/chproto/hello.go:76-89 | a string within the packet, a refusal, or a panic exactly when the length overflows the cursor |
| `HelloRewriter.RewriteForProxy` | pkg/chproto/hello.go:63-201 | the cursor run gives exactly the specified rewrite and captured modes; when there is none it panics exactly where a text ends past the largest int, and otherwise refuses |
| `HelloRewriter.AcceptedPacketsDoNotPanic` | pkg/chproto/hello.go:63-201 | the rewrite does not panic on a packet it rewrites or the decoder accepts |
| `HelloRewriter.LongestNamePanics` | pkg/chproto/hello.go:76-89 | a server name of the largest length makes the rewrite panic; the decoder refuses that packet |
| `HelloRewriter.DecodeRules` | pkg/chproto/hello.go:293-306 | the loop reads exactly `count` password rules |
| `HelloRewriter.DecodeServerHello` | pkg/chproto/hello.go:241-317 | the reader consumes exactly the packet at the gating revision, or fails when the specification does |
| `ChunkModes.Resolve` | pkg/chproto/addendum.go:301-310 | chunked exactly when both proposals are willing, nothing exactly when one is missing, and otherwise packets |
| `Chunking.PartsRead` | pkg/chproto/addendum.go:237-293 | a framed packet is read back whole, as payload and as one logical chunk, whatever follows |
| `Chunking.FramesCarryPackets` | pkg/chproto/addendum.go:133-197 | the payload of framed packets is their concatenation and no frame is oversized |
| `Chunking.ChunkIsPayload` | pkg/chproto/addendum.go:95-170 | a complete logical chunk is exactly a stretch of the streaming payload |
| `ChunkedTransport.ChunkedReader.ReadChunkHeader` | pkg/chproto/addendum.go:174-197 | a header is decoded and consumed exactly when the connection completes it; an interrupted one is retained byte for byte |
| `ChunkedTransport.ChunkedReader.Read` | pkg/chproto/addendum.go:133-170 | what a read returns and what is still to come are what was to come, for every buffer size and every answer of the connection; exactly when a read with no room never returns |
| `ChunkedTransport.ChunkedReader.ReadChunk` | pkg/chproto/addendum.go:95-128 | success gives exactly the next logical chunk; a failure leaves the stream as it was if and only if its first header was not completed; success is certain when the connection does not fail |
| `ChunkedTransport.ReadPackets` | pkg/chproto/addendum.go:133-197 | streaming reads of any sizes over any interruptions return the packets' concatenation, and a read per byte and answer of the connection is enough |
| `ChunkedTransport.ReadChunks` | pkg/chproto/addendum.go:95-128 | over every script of pieces, time-outs and errors, repeating reads that failed without consuming: the packets returned are the first ones, the others are still to come, and a read per packet and answer gets them all |
| `ChunkedTransport.ChunkedWriter.Write` | pkg/chproto/addendum.go:237-293 | the framed packet goes out, or the prefix the connection takes before it fails |
| `ChunkedTransport.WritePackets` | pkg/chproto/addendum.go:237-293 | packets are on the wire one after another in the writer's mode |
| `Addendum.AddendumRoundTrip` | pkg/chproto/addendum.go:379-465 | the addendum is read back with exactly the fields the revision carries |
| `Addendum.AddendumLaid` | pkg/chproto/addendum.go:439-465 | the addendum is written as a table of four named fields, each from its revision on |
| `Addendum.EndsAgreeIff` | pkg/chproto/addendum.go:301-321 | the exact condition for each direction to be chunked at both ends or neither |
| `Addendum.BothEndsAgree` | pkg/chproto/addendum.go:301-321 | a server that proposes what it advertised, or always proposes to chunk, agrees with every client |
| `Addendum.ProposingLessDisagrees` | pkg/chproto/addendum.go:301-321 | a server that proposes less than it advertised can disagree |
| `AddendumCodec.Codec.Fill` | pkg/chproto/codec.go:103-115 | prefetching never changes what the decoders are going to see, and an error that comes with data is kept for later |
| `AddendumCodec.Codec.ReadByte` | pkg/chproto/codec.go:103-115 | before and after the switch, the next byte the decoders are to see, or none when the buffer is empty and an error is due |
| `AddendumCodec.Codec.ReadBytes` | pkg/chproto/codec.go:103-115 | what is read and what is still to come are what was to come; all of it on a connection that does not fail |
| `AddendumCodec.Codec.EnableChunked` | pkg/chproto/codec.go:103-115 | after the switch the decoders see the deframed remainder, however much was prefetched |
| `AddendumCodec.Codec.NegotiateAddendum` | pkg/chproto/addendum.go:379-421 | reads the client's fields, settles the modes, switches, and leaves exactly the rest of the stream |
| `AddendumCodec.Codec.SendAddendum` | pkg/chproto/addendum.go:439-465 | the addendum goes out unchunked and the codec switches to the settled modes |
| `AddendumCodec.ServerHears` | pkg/chproto/addendum.go:379-465 | the server reads back the addendum and, in the mode it settles on, the client's packets |
| `AddendumCodec.Exchange` | pkg/chproto/addendum.go:379-465 | however the connection hands the bytes out, the server settles as specified and, if that is the mode the client sends in, sees exactly the packets |
| `AddendumCodec.Handshake` | pkg/chproto/addendum.go:379-465 | end to end, from any offer, advertised modes and server proposal: both ends are in the same modes if and only if what was advertised and wanted is still proposed and the revision carries it, and then what the server reads after the switch are exactly the packets the client sent behind its addendum |
| `AddendumCodec.AdvertisementsAreKept` | pkg/chproto/addendum.go:301-321 | a server that proposes what it advertised, or always to chunk, meets that condition with every client |
| `PacketBodies.CountIsExactIff` | pkg/chproto/compress.go:95-145 | the reported BlockInfo size is the bytes read exactly when all its varints are shortest, and never more |
| `PacketBodies.CountCanFallShort` | pkg/chproto/compress.go:95-145 | a two-byte zero field is counted as one byte |
| `PacketLayouts.ServerBodyEnds` | pkg/chproto/codec.go:476-649 | for every packet that is not a block, given as a record of named fields and written as its table at the revision: under its type number the body is skipped to exactly where the server ended it, whatever follows |
| `PacketLayouts.ProgressSkipped` | pkg/chproto/codec.go:550-569 | progress is three counters, one more from 54463 on, two more from 54420 on and one more from 54460 on, and is skipped to its end |
| `PacketLayouts.ClientBodyEnds` | pkg/chproto/codec.go:434-474 | the same for the packets of a client |
| `PacketLayouts.InfoSkipped` | pkg/chproto/compress.go:95-145 | the numbered fields of a block info, in any order and number, are skipped to behind the zero that ends them |
| `PacketLayouts.ServerBlockEnds` | pkg/chproto/codec.go:476-502 | each of the five kinds of block, plain or compressed as the revision has it, is skipped to exactly its end |
| `PacketLayouts.ClientBlockEnds` | pkg/chproto/codec.go:434-446 | the same for data and scalars of a client |
| `PacketLayouts.ColumnFramesEnd` | pkg/chproto/compress.go:207-214 | compressed table columns end with their last frame |
| `PacketLayouts.OthersRefused` | pkg/chproto/codec.go:434-539 | no packet of another type is skipped |
| `PacketLayouts.PacketEnds` | pkg/chproto/codec.go:250-296 | whatever packet either peer writes at the head of a stream, its type and its end are found, whatever follows |
| `Capture.CaptureReader.SetLimit` | pkg/chproto/codec.go:883-895 | the limit is clamped to the largest int and refuses a capture that is already longer |
| `Capture.CaptureReader.ReadByte` | pkg/chproto/codec.go:851-865 | one byte moves from the stream to the capture, or nothing does |
| `Capture.CaptureReader.ReadFullRaw` | pkg/chproto/codec.go:814-824 | all bytes are captured or none; only a short read loses any |
| `PacketReader.UVarIntEncLen` | pkg/chproto/codec.go:911-918 | the length of the shortest varint |
| `PacketReader.SkipBlockInfo` | pkg/chproto/compress.go:95-145 | consumes exactly the fields up to the zero field and reports the specified count |
| `PacketReader.WalkPlainBlock` | pkg/chproto/compress.go:422-447 | consumes exactly the BlockInfo and the block, through the bulk fast path or byte by byte |
| `PacketReader.WalkFrames` | pkg/chproto/compress.go:179-233 | under the capture limit, consumes exactly the frames of a compressed body that ends at a frame end, and nothing is lost when it does not |
| `PacketReader.SkipTablesStatusRequest` | pkg/chproto/codec.go:460-474 | consumes exactly the counted pairs of strings |
| `PacketReader.SkipProfile` | pkg/chproto/codec.go:572-596 | consumes exactly the profile fields of the revision |
| `PacketReader.SkipTablesStatusResponse` | pkg/chproto/codec.go:605-634 | consumes exactly the counted table entries of the revision |
| `PacketReader.SkipPartUuids` | pkg/chproto/codec.go:636-649 | consumes exactly the counted UUIDs; the one body whose short read loses bytes |
| `PacketReader.SkipClientBody` | pkg/chproto/codec.go:434-446 | consumes exactly the body of each known client packet, and fails on others |
| `PacketReader.SkipServerBody` | pkg/chproto/codec.go:476-539 | consumes exactly the body of each known server packet, and fails on others; of a packet written as its table of named fields, exactly that table |
| `PacketReader.ReadPacket` | pkg/chproto/codec.go:250-296 | a packet, compressed ones as walked, comes back exactly when it is complete and within its bound, and its raw bytes are what was taken off the stream; of what a peer writes, exactly one packet |
| `PacketReader.ReadPackets` | pkg/chproto/codec.go:250-296 | over any number of packets the raw bytes, one after another, are the consumed prefix |
| `CompressedFrames.FrameDataSizes` | pkg/chproto/compress.go:303-334 | the loop gives the sizes the frames announce, or fails when the bytes are not whole frames |
| `CompressedFrames.FrameIsWhole` | pkg/chproto/compress.go:303-334 | a checksum of 16 bytes, a method, the size of all behind the checksum, the size of the data and the payload are one whole frame of that data size |
| `CompressedFrames.WholeFrameIs` | pkg/chproto/compress.go:303-334 | and every whole frame is such a one |
| `CompressedFrames.WalkEnds` | pkg/chproto/compress.go:179-190 | a walk that does not fail opened whole frames and stopped exactly the reported number of bytes before the end of the last |
| `CompressedFrames.WalkSucceedsIff` | pkg/chproto/compress.go:179-301 | a body that consumes exactly the data of whole frames, the last of which has data, is walked to its end if and only if the first has data and no run of frames without data is as long as the reader's patience |
| `CompressedFrames.WalkWithin` | pkg/chproto/compress.go:344-356 | a walk that may see only a part of the stream ends as the walk over all of it, unless that one needs bytes beyond the part |
| `CompressedFrames.EmptyFirstFrameFails` | pkg/chproto/compress.go:264-301 | a body whose first frame has no data is refused, also where it would not end at a frame end |
| `CompressedReader.CompressedPacketReader.BoundaryRead` | pkg/chproto/compress.go:264-301 | reads never cross a frame, and a frozen reader never opens one |
| `CompressedReader.CompressedPacketReader.ReadRaw` | pkg/chproto/compress.go:336-356 | header and payload reads capture exactly the next whole frame |
| `CompressedReader.CompressedPacketReader.AssertFrameExhausted` | pkg/chproto/compress.go:235-249 | the trailing count is exactly what is left of the current frame and the stream is untouched |
| `CompressedReader.CompressedPacketReader.WalkBody` | pkg/chproto/compress.go:179-190 | over the capturing stream and its limit, the run gives exactly the frame-level outcome on the bytes that may still be captured; every byte taken is captured |
| `LtHash.BytesAndBack` | pkg/lthash/lthash.go:93-112 | decoding the serialised lanes gives them back |
| `LtHash.LanesAndBack` | pkg/lthash/lthash.go:93-112 | serialising decoded bytes gives them back |
| `LtHash.LaneIsTwoBytes` | pkg/lthash/lthash.go:93-112 | a lane is the two bytes at its place, little-endian |
| `LtHash.Hash.AddHash` | pkg/lthash/lthash.go:69-73 | every lane is the sum modulo 65536, also when an accumulator is added to itself |
| `LtHash.Hash.SubHash` | pkg/lthash/lthash.go:76-80 | every lane is the difference modulo 65536 |
| `LtHash.Hash.UpdateAll` | pkg/lthash/lthash.go:59-80 | the in-place lanes after any Adds and Removes are the specified accumulation |
| `LtHash.Hash.FromBytes` | pkg/lthash/lthash.go:103-112 | refuses exactly the wrong sizes and otherwise holds the decoded lanes |
| `LtHash.OnlyNetCountsMatter` | pkg/lthash/lthash.go:59-80 | the accumulator depends only on each element's net count modulo 65536 |
| `LtHash.NetCountsDecide` | pkg/lthash/lthash.go:59-80 | two histories agree under every expansion function if and only if every element has the same net count modulo 65536 |
| `LtHash.OrderDoesNotMatter` | pkg/lthash/lthash.go:59-80 | reordering a history never changes the accumulator |
| `LtHash.RemoveUndoesAdd` | pkg/lthash/lthash.go:59-66 | adding an element and later removing it leaves no trace |
| `LtHash.FullCycleCancels` | pkg/lthash/lthash.go:69-73 | 65536 copies of one element cancel |
| `NameOrder.SortByName` | pkg/lthash/canonical.go:54-80 | a name-sorted permutation of the columns |
| `NameOrder.SortedOrderIsUnique` | pkg/lthash/canonical.go:54-80 | with distinct names there is one sorted order |
| `NameOrder.LessIff` | pkg/lthash/canonical.go:63-63 | a name comes before another exactly when it is its beginning, or has the smaller byte where they first differ |
| `RowFraming.RowBytesInjective` | pkg/lthash/canonical.go:54-94 | equal row bytes have equal table, column count and framed columns |
| `RowReading.RowRead` | pkg/lthash/canonical.go:54-94 | a reader takes the table and every column, its name, type and value, out of the row bytes under the domain "housegate-row-mvp-v0" |
| `CanonicalValue.EncodingKeepsMeaning` | pkg/lthash/canonical.go:100-188 | two values have the same encoding exactly when they mean the same; two times when their nanoseconds agree modulo 2^64 for a DateTime64, their days for another Date type but DateTime, and their seconds for any other type |
| `CanonicalValue.TimeStored` | pkg/lthash/canonical.go:173-188 | the number that is stored for a time, for each kind of type name |
| `CanonicalValue.TruncDivIs` | pkg/lthash/canonical.go:182-182 | the day number is the quotient toward zero |
| `CanonicalValue.IntegerStored` | pkg/lthash/canonical.go:102-145 | integers are stored behind 1 or 2 in their width, negative ones in two's complement |
| `CanonicalValue.FloatStored` | pkg/lthash/canonical.go:147-169 | floats are stored behind 3 as their bits, every NaN and every zero as one pattern |
| `CanonicalValue.TextStored` | pkg/lthash/canonical.go:122-135 | text is stored as it is behind 4, a truth value as one byte behind 5, and nothing else is stored |
| `Bytes.LittleEndianAt` | pkg/lthash/canonical.go:138-145 | byte `i` of a number is its digit for 256 to the `i` |
| `CanonicalValue.DateDaysAreCalendarDays` | pkg/lthash/canonical.go:173-188 | exactly when the stored day number is the calendar day |
| `CanonicalRow.EncodeRow` | pkg/lthash/canonical.go:54-80 | refuses exactly a length mismatch or an unsupported value, and otherwise gives the name-sorted encoding |
| `CanonicalRow.ColumnOrderDoesNotMatter` | pkg/lthash/canonical.go:54-80 | permuting columns together with their values does not change the encoding |
| `CanonicalRow.SameBytesSameRow` | pkg/lthash/canonical.go:54-188 | on name-sorted rows: equal bytes exactly for the same table and, in order, the same columns and types with values of one meaning |
| `CanonicalRow.SameEncodingIff` | pkg/lthash/canonical.go:54-188 | two results of EncodeRow, their columns in any order, are equal if and only if the tables are and the rows have the same columns and types with values of one meaning |
| `ReplicaPool.Conn.Close` | pkg/cluster/pool.go:43-55 | gives up a checked-out connection once; sound exactly when the connection is not idle |
| `ReplicaPool.Pool.Get` | pkg/cluster/pool.go:90-138 | the most recently returned live connection or a new one, exactly which connections stay idle, exactly when it refuses, and that count, bounds and sockets stay sound |
| `ReplicaPool.Pool.Put` | pkg/cluster/pool.go:142-176 | kept or closed as configured; the exact condition under which the pool stays sound |
| `ReplicaPool.Pool.Discard` | pkg/cluster/pool.go:180-185 | the connection is closed and no longer counted |
| `ReplicaPool.Pool.EvictExpired` | pkg/cluster/pool.go:226-251 | keeps exactly the connections that have not expired, in order, and closes the others |
| `ReplicaPool.Pool.Close` | pkg/cluster/pool.go:200-209 | closes every idle connection and leaves the checked-out ones counted |
| `ReplicaPool.Serve` | pkg/cluster/pool.go:90-251 | in every run where each connection is returned or closed once, and any idle ones may expire at any call: the count equals the checked-out connections, active plus idle stays within the limit, and the numbers of idle and borrowed connections are those of a counting machine |
| `ReplicaHealth.FailureStep` | pkg/cluster/health.go:130-143 | a failure makes a history unhealthy exactly when it was or the run of failures is long enough |
| `ReplicaHealth.SuccessStep` | pkg/cluster/health.go:146-159 | a success leaves a history unhealthy exactly when it was and the run of successes is still short |
| `ReplicaHealth.WideThresholdsAreMissed` | pkg/cluster/health.go:130-159 | a threshold beyond the 32-bit counters is missed by some history |
| `ReplicaHealth.WidthDoesNotMatter` | pkg/cluster/health.go:130-159 | thresholds that fit the counters give the plain trace specification |
| `ReplicaHealth.HealthChecker.RecordFailure` | pkg/cluster/health.go:130-143 | counters stay the trailing runs and the flag stays what the trace says |
| `ReplicaHealth.HealthChecker.RecordSuccess` | pkg/cluster/health.go:146-159 | counters stay the trailing runs and the flag stays what the trace says |
| `ReplicaHealth.HealthChecker.Replay` | pkg/cluster/health.go:25-159 | after any history a replica is unhealthy exactly when some window of failures has no later window of successes, three and two long unless configured |

## Left out

- Orchestrator, parts-pressure guard, table state and relay internals: only their answers and the states of a capacity handle appear.
- Cryptography, token parsing and JSON in `pkg/auth`, configuration, command line, metrics, logging, files and the network registry.
- Decoding of Native column values and LZ4 or ZSTD contents: the libraries are parameters.
- Goroutine interleaving inside `Get` between the limit check and the count, and the 32-bit width of the pool's counter.
- Undo out of order, or interleaved with other statements on the same database: the source calls it best effort.
- Statements that touch several databases with privilege deltas of their own: a delta targets the first accessed table.
- ClientHello, exception and table-status packets are skipped, not decoded, and Data blocks are not written.
- The server-side read of chunked packets that re-parses each chunk, and polling for a packet start.
- Wall-clock time: expiry, time-outs and cancellation are parameters.
- BLAKE3, the digest and the hexadecimal form of the accumulator.
- Capture.CaptureReader.ReadByte: a connection error in the middle of a stream is the end of the stream.
