# Turso verification

Dafny models of the stateful and algorithmic core of Turso: the sync server's
log and page replication, the connection's savepoints and schema gates, the
incremental blob program, the execution meter and several shell algorithms,
each with proofs about every input, every run or every interleaving.

`dafny verify dfyconfig.toml` checks the whole project. Each module is one file.

| module | what it models | main results |
|---|---|---|
| `MvccLog` | the CRC-chained logical log and its scan | `Scanner.TruncationScans`, `Scanner.ExtensionKeepsBoundaries` |
| `LogWriter` | the bytes the database writes to its logical log | `WrittenLogScans`, `FrameIsJudged` |
| `LogReplication` | a server that appends and a client that pulls, in any order | `EveryRunMirrorsTheLog`, `LaterBodyRescans`, `PullOfNumberedRevision` |
| `Framing`, `PagePull` | the page pull from WAL frames through varint-framed bytes to client pages | `RequestUpdatesClient`, `PullsCompose`, `SentOnceInFrameOrder` |
| `BlobProgram`, `BlobHandle` | the bytecode of an open blob handle, its emission and its execution | `BuildBlobProgram`, `Session`, `CloseCommitsPreExpiryWrites`, `ExpiredAccess` |
| `Savepoints` | savepoints, rollback-only transactions, main, temp and attached schemas | `EveryRunAgrees`, `RollbackToUndoesAll`, `CommitIsAllOrNothing` |
| `SchemaGate` | the gate of a beginning MVCC transaction against schema publishers | `BegunTransactionsAreFresh` |
| `Checkpoint` | explicit checkpoints against statements starting and stopping | `CheckpointRunsAlone` |
| `AttachedSchema` | many connections staging one attached schema | `SharedIsCommittedExactlyWhenNeverStale` |
| `AttachedCommit`, `PublishOrder`, `StagingTrace` | the writer lock, cookie check and publish order around that staging, in WAL and MVCC mode | `NothingCommittedIsLost`, `StagingIsNeverStale`, `SafeExactlyWhenPublishedFirstOrChecked` |
| `ExecutionMeter` | many VMs charging one meter, one atomic operation at a time | `EveryInterleavingStaysInBudget`, `NothingGoesUncounted`, `ExhaustionIsFinal` |
| `SqlComplete` | the statement-completeness tokenizer and automaton | `AcceptsExactlyComplete`, `TextCompletes`, `CutsCleanly` |
| `EditDistance` | the two-row edit distance and the page it suggests | `DistanceIsLeastEdits`, `Triangle` |
| `Parameters` | bind-parameter registration with its lookup maps | `LookupsAreScans`, `MarkersAreBijective` |
| `ApplyWriter` | the streaming statement splitter | `WritesAreChunkIndependent`, `DivisionIsUnique` |
| `SqlLiterals` | the SQL literal writer and the parameter value parser | `LiteralRoundTrip`, `FloatRoundTrip` |
| `CivilDate` | epoch seconds to a UTC timestamp | `CivilFollowsCalendar`, `EveryInstantIsReached`, `TextsSortAsInstants` |
| `BusyHandler` | the busy handler's back-off | `RefusalMeansTimeout` |

Objects the source updates in place are classes here, and every method's
postcondition equates the new state with a function of the old one; the
theorems are about those functions. Protocols between threads are state
machines whose steps are the source's atomic operations. A checksum is a
function-valued parameter, so nothing depends on which one it is.

## Properties that hold only under a condition

Three natural statements are false of the code, each with the exact condition
under which it holds.

- A scanned extension of a log does not always keep the boundaries found
  before: an empty log lists a boundary at offset 0 that disappears once the
  header is there (`MvccLog.Scanner.ExtensionKeepsBoundaries`).
- An expired blob handle does not fail every access: an empty access inside the
  value succeeds until some access that was not empty has run into the expiry
  (`BlobHandle.ExpiredAccess`, `BlobHandle.EmptyReadAfterExpiry`).
- Registering a name at an index directly can leave an index whose name leads
  elsewhere (`Parameters.DirectNamingKeepsBijection`,
  `Parameters.OneNameTwice`).

Inserting a closed literal between two parts of an input can change the final
state, when the two parts glue together without it, as `EN` and `D` do
(`SqlComplete.LiteralSplitsKeyword`). Not gluing is exact for how the text is
cut into chunks (`SqlComplete.CutsCleanly`) and sufficient for the final state
(`SqlComplete.LiteralIsInvisible`); it is not necessary for the state, since
`fo` and `o` glue to a word that means as little as its parts.

The code that stages and publishes an attached schema would lose committed DDL
if a copy staged before another commit were published
(`AttachedSchema.SharedIsCommittedExactlyWhenNeverStale`). It is never made to:
in WAL mode because a connection publishes before it gives up the writer lock,
in MVCC mode, where the lock goes first, because of the schema cookie check.
Without both it would be (`PublishOrder.SafeExactlyWhenPublishedFirstOrChecked`).

A private copy of the schema, which every statement step may adopt under MVCC,
is refused by the begin gate although nothing was published; re-preparing lets
the statement through (`SchemaGate.AdoptedCopyIsRefusedOnce`).

Floats are not among the literals that come back unchanged:
`SqlLiterals.FloatRoundTrip` says exactly which do.

## Model

| member | source | states |
|---|---|---|
| `MvccLog.Scanner.ScanLog` | cli/sync_server.rs:1058-1091 | the scanning loop returns the boundaries and end offset of the recursive scan, or its first error |
| `MvccLog.FirstAtFinds` | cli/sync_server.rs:1001-1008 | looking up any boundary of an increasing list finds that boundary's own CRC |
| `MvccLog.FirstAtMisses` | cli/sync_server.rs:1001-1008 | the lookup succeeds exactly on offsets that are boundaries |
| `MvccLog.Scanner.ScanIsChain` | cli/sync_server.rs:1058-1091 | a scan succeeds with a list exactly when the list is the maximal chain of frames, each checked against the CRC of the one before |
| `MvccLog.Scanner.ReadFrameOfTruncation` | cli/sync_server.rs:1142-1216 | cutting the log leaves a frame whole or makes it a torn tail, never a different frame or an error |
| `MvccLog.Scanner.ScanShape` | cli/sync_server.rs:1058-1091 | boundaries increase strictly, the last one is the end offset and lies inside the log |
| `MvccLog.Scanner.TruncationScans` | cli/sync_server.rs:1058-1216 | a truncation of a scannable log scans exactly when it keeps the whole header or nothing, and then finds exactly the boundaries and CRCs that fit |
| `MvccLog.Scanner.ExtensionKeepsBoundaries` | cli/sync_server.rs:1058-1091 | a scannable extension has the old boundary list as a prefix exactly when the old log was not empty or nothing was added |
| `MvccLog.Scanner.ShortLogs` | cli/sync_server.rs:1058-1070 | an empty log has the one boundary at 0, a log shorter than the header is refused |
| `LogWriter.HeaderIsJudged` | cli/sync_server.rs:1098-1140 | every 56-byte header, laid out field by field, is accepted or refused for its first wrong field, and seeds the chain with its salt |
| `LogWriter.FrameIsJudged` | cli/sync_server.rs:1142-1216 | every frame, plain or extended and right or wrong, is accepted with the CRC continued from the frame before or refused for its first fault |
| `LogWriter.ClaimIsJudged` | cli/sync_server.rs:1184-1195 | a claimed size past the log is a torn tail, one past the address space an error |
| `LogWriter.WrittenPrefixScans` | core/mvcc/persistent_storage/logical_log.rs:715-850 | after any log the database wrote, the scan lists the transactions' ends and chained CRCs and goes on with what follows |
| `LogWriter.WrittenLogScans` | core/mvcc/persistent_storage/logical_log.rs:715-850 | the server's scan of a log the database wrote finds exactly its transactions, each with the CRC chained through all before it |
| `LogWriter.BadFrameIsRefused` | cli/sync_server.rs:1142-1216 | a bad frame after any written log fails the scan with its fault, a CRC that does not continue the chain included |
| `LogReplication.RevisionRoundTrip` | cli/sync_server.rs:1033-1056 | a revision handed out parses back to its offset, whatever the legacy default |
| `LogReplication.LegacyRevisionParses` | cli/sync_server.rs:1052-1055 | every text without a separator stands for the default |
| `LogReplication.SeparatedRevisionParses` | cli/sync_server.rs:1037-1051 | every text with a separator is judged by its two parts |
| `LogReplication.NumberedRevisionParses` | cli/sync_server.rs:1037-1051 | generation 1 gives the offset named, every other generation is refused |
| `LogReplication.PullOfLegacyRevision` | cli/sync_server.rs:807-859 | a client whose base is a page snapshot gets an empty body and the revision to go on from |
| `LogReplication.PullOfNumberedRevision` | cli/sync_server.rs:807-859 | for every generation and offset: served from the start, the end or a boundary with its CRC, otherwise the error that applies |
| `LogReplication.PullOfForeignLog` | cli/sync_server.rs:790-806 | an unknown log version gets a replacement of the base, every other header fault fails the pull |
| `LogReplication.PullServes` | cli/sync_server.rs:807-859 | from offset 0 or any boundary the pull is served with the bytes up to the last boundary, its revision and the seed of the start |
| `LogReplication.PullOfClientInStep` | cli/sync_server.rs:807-859 | a client in step receives exactly the bytes between its offset and the last boundary and stays in step |
| `LogReplication.AppendKeepsInStep` | cli/sync_server.rs:750-859 | whatever is appended to the log, whole transactions or torn ones, the client's offset stays resumable |
| `LogReplication.EveryRunStaysInStep` | cli/sync_server.rs:750-859 | every run of appends and pulls keeps the client in step |
| `LogReplication.EveryRunMirrorsTheLog` | cli/sync_server.rs:807-859 | after every run the client holds a prefix of the log, its revision names its length, and the next pull is served exactly when the log scans |
| `LogReplication.ChainResumes` | cli/sync_server.rs:1078-1086 | a chain of frames can be resumed at any of its boundaries with that boundary's CRC |
| `LogReplication.StretchChains` | cli/sync_server.rs:826-850 | the bytes between two boundaries chain, from the CRC at their start, to the same boundaries counted from the start |
| `LogReplication.StretchAfterBoundary` | cli/sync_server.rs:826-850 | the log from any boundary on, scanned from its CRC, gives the later boundaries |
| `LogReplication.FirstBodyRescans` | cli/sync_server.rs:826-850 | the first body scans to the server's whole snapshot |
| `LogReplication.LaterBodyRescans` | cli/sync_server.rs:826-850 | every later body scans, from the seed sent with it, to the server's boundaries and CRCs past the client's offset |
| `Framing.EncodeLengthDelimited` | cli/sync_server.rs:1438-1446 | the loop appends the varint of the length and the data, and changes nothing before |
| `Framing.ReadsWhatWasWritten` | sync/engine/src/database_sync_operations.rs:3890-3907 | the client reads a written length back exactly when it fits the bytes it is willing to read, and calls every other one invalid |
| `Framing.StreamRoundTrip` | sync/engine/src/database_sync_operations.rs:3909-3960 | the client recovers precisely the framed messages, in order |
| `Framing.StreamThen` | sync/engine/src/database_sync_operations.rs:3909-3960 | framed messages are taken off one by one whatever follows |
| `Framing.TornStreamIsRefused` | sync/engine/src/database_sync_operations.rs:3930-3948 | a body that breaks off inside a message is an error |
| `Framing.LongLengthIsRefused` | sync/engine/src/database_sync_operations.rs:3890-3907 | a length of 63 bits or more is an error |
| `PagePull.CollectPages` | cli/sync_server.rs:664-708 | the backward scan with its set of seen pages returns the newest image of each selected page, in frame order, or the error of a frame past the end of the file |
| `PagePull.NewestApplies` | cli/sync_server.rs:664-708 | applying the pages sent sets every selected page touched to its latest image and changes no other page |
| `PagePull.PullReachesServerState` | cli/sync_server.rs:651-736 | a pull from c to s takes selected pages to the server's state at s and leaves the others at c |
| `PagePull.FullPullReachesServerState` | cli/sync_server.rs:651-736 | without a selector the client ends in the server's state at s |
| `PagePull.PullsCompose` | cli/sync_server.rs:651-736 | pulling c to m and m to s equals pulling c to s, from any client state and with any selector |
| `PagePull.SentOnceInFrameOrder` | cli/sync_server.rs:664-708 | each page is sent at most once, exactly for the frames that wrote it last in range, in increasing frame order |
| `PagePull.PageRoundTrip` | sync/engine/src/server_proto.rs:47-55 | a page message decodes to the page it was made from, omitted default fields included |
| `PagePull.BuildResponse` | cli/sync_server.rs:710-736 | the body is the framed header followed by the framed pages |
| `PagePull.HandlePagePull` | cli/sync_server.rs:614-748 | the handler gives the answer specified for the request, defaults and short reads included |
| `PagePull.ResponseUpdatesClient` | cli/sync_server.rs:651-736 | splitting, decoding and applying the bytes sent moves the client's selected pages to the server's state |
| `PagePull.RevisionIsRead` | cli/sync_server.rs:625-635 | a revision is the number it shows, with or without a plus, and anything else the default |
| `PagePull.RequestUpdatesClient` | cli/sync_server.rs:614-748 | from the request text to the client's pages: asking at c for s, named or not, brings the selected pages to the server's state at s |
| `BlobProgram.Builder.PreassignLabelToNextInsn` | core/vdbe/builder.rs:1551-1557 | a label is anchored at the last instruction emitted |
| `BlobProgram.BuildBlobProgram` | core/incremental_blob.rs:384-521 | emission with labels, prologue and epilogue resolves to exactly the 25-instruction listing |
| `BlobHandle.ListingIsBlobProgram` | core/incremental_blob.rs:384-521 | every listing has the control flow the path lemmas rely on |
| `BlobHandle.StepDescends` | core/vdbe/execute.rs:3434-3590 | every instruction that continues lowers a rank, so a resumed program always parks, halts or fails |
| `BlobHandle.OpenPath` | core/incremental_blob.rs:384-521 | opening parks on an addressable value and reports its length; a missing row and a value without bytes are their errors |
| `BlobHandle.Dispatches` | core/incremental_blob.rs:440-476 | a bound operation reaches its own arm with its own offset |
| `BlobHandle.ReadPath` | core/vdbe/execute.rs:3472-3509 | a bound read yields the slice asked for, or NULL and an expired cursor once the row was written by another |
| `BlobHandle.WritePath` | core/vdbe/execute.rs:3538-3580 | a bound write overwrites the range in place and answers 1, or changes nothing and answers NULL |
| `BlobHandle.ClosePath` | core/incremental_blob.rs:144-151 | a bound close halts and commits the table as it stands |
| `BlobHandle.OpenBlob` | core/incremental_blob.rs:275-383 | the handle opened views the row's value, or the refusal says why |
| `BlobHandle.Blob.StepOp` | core/incremental_blob.rs:178-204 | one resumption acknowledges a value, and NULL latches expiry |
| `BlobHandle.Blob.Read` | core/incremental_blob.rs:92-115 | reading through the program is reading the array, with its bounds and expiry errors |
| `BlobHandle.Blob.Write` | core/incremental_blob.rs:117-142 | writing through the program is writing the array in place, with its bounds, read-only and expiry errors |
| `BlobHandle.Blob.PeerWrite` | core/incremental_blob.rs:178-204 | a peer's write to the row expires the handle and a write to another row does not |
| `BlobHandle.Blob.Close` | core/incremental_blob.rs:144-151 | close commits the table as the handle left it |
| `BlobHandle.LiveHandleIsTheArray` | core/incremental_blob.rs:92-142 | while nobody else writes the row, the value is the original with the handle's writes applied in order |
| `BlobHandle.CloseCommitsPreExpiryWrites` | core/incremental_blob.rs:92-204 | what close commits is the run without the handle's operations after the first foreign write to the row |
| `BlobHandle.LatchedExactlyWhenNoticed` | core/incremental_blob.rs:92-204 | after any run the handle is expired exactly if the row was hit, and refuses everything exactly if some non-empty, in-range, permitted access came after the hit |
| `BlobHandle.ExpiredAccess` | core/incremental_blob.rs:92-142 | after any run an access succeeds exactly when it is permitted, in range, nothing noticed the expiry and it is empty or the row was not hit; after a hit none changes the table |
| `BlobHandle.ReadsItsOwnWrites` | core/incremental_blob.rs:92-142 | every read that succeeds returns the bytes the handle's own writes produced |
| `BlobHandle.Drive` | core/incremental_blob.rs:92-204 | the object driven through any operations answers and ends as the array does |
| `BlobHandle.Session` | core/incremental_blob.rs:92-204 | from open to close, the answers and the committed table are the array's |
| `BlobHandle.EmptyReadAfterExpiry` | core/incremental_blob.rs:92-115 | a handle whose row was replaced and which still answers an empty read |
| `BlobHandle.LatchIsPermanent` | core/incremental_blob.rs:178-204 | once latched, every later access of every run fails |
| `Savepoints.Connection.FindSavepoint` | core/connection.rs:5131-5139 | searching from the end finds the innermost savepoint of the name |
| `Savepoints.Connection.BeginSavepoint` | core/vdbe/execute.rs:5465-5595 | pushes a frame of all schemas and the poisoning, and starts a transaction only from autocommit |
| `Savepoints.Connection.ReleaseSavepoint` | core/connection.rs:5131-5144 | drops the savepoint and those above it, or commits when it began the transaction |
| `Savepoints.Connection.RollbackToSavepoint` | core/vdbe/execute.rs:5635-5703 | restores every schema and the poisoning from the frame and keeps the frame |
| `Savepoints.Connection.ChangeSchema` | core/connection.rs:3186-3228 | changes the main, temp or staged attached schema, copying the shared one at most once |
| `Savepoints.Connection.CommitTransaction` | core/vdbe/execute.rs:5340-5432 | a poisoned transaction is rolled back and refused, any other is published whole |
| `Savepoints.Connection.RollbackTransaction` | core/connection.rs:5302-5330 | every schema returns to its committed value and the stack is cleared |
| `Savepoints.Connection.CommitTempSchema` | core/connection.rs:832-856 | the temp schema becomes the one to fall back to only if it changed |
| `Savepoints.Connection.RollbackTempSchema` | core/connection.rs:861-882 | a changed temp schema returns to the last committed one, or to empty |
| `Savepoints.Connection.ResetTempDatabase` | core/connection.rs:807-813 | drops the temp database and its committed schema, refused in a transaction that has one |
| `Savepoints.QuietIsInvisible` | core/connection.rs:861-882 | log entries that do not concern a database leave its replayed schema alone, so an unset changed-flag is safe |
| `Savepoints.FramesOutlive` | core/connection.rs:5131-5162 | snapshots below a cut stay right when what lies above is discarded |
| `Savepoints.RollbackToAgrees` | core/connection.rs:5146-5162 | restoring a frame's snapshots equals replaying the log cut back to the savepoint |
| `Savepoints.FinishAgrees` | core/vdbe/execute.rs:5340-5358 | commit equals moving the pending log to the committed one, unless an abandoned write is in it |
| `Savepoints.DdlInTransaction` | core/connection.rs:3186-3228 | a schema change equals one more log entry for its database |
| `Savepoints.StepAgrees` | core/vdbe/execute.rs:5226-5705 | every statement keeps the connection equal to the replayed log |
| `Savepoints.EveryRunAgrees` | core/connection.rs:124-161 | after every run all schemas and snapshots are the replayed log's, and the connection is poisoned exactly while an abandoned write stands |
| `Savepoints.RollbackToUndoesAll` | core/vdbe/execute.rs:5635-5703 | ROLLBACK TO undoes everything since a live savepoint: schemas, committed schemas, poisoning and stack |
| `Savepoints.CommitIsAllOrNothing` | core/vdbe/execute.rs:5340-5432 | COMMIT succeeds exactly when no abandoned write survives, then publishes what the transaction saw, and otherwise leaves every database as it was |
| `Savepoints.RollbackLeavesCommitted` | core/connection.rs:807-882 | ROLLBACK leaves every schema as the DDL committed so far, the temp schema as that committed since its last reset |
| `SchemaGate.OwnStepIsSound` | core/connection.rs:2092-2120 | a connection's own step keeps what the gate relies on |
| `SchemaGate.OtherStepIsSound` | core/mvcc/database/checkpoint_state_machine.rs:1731-1744 | so does every other connection's step, publishes and DDL included |
| `SchemaGate.BegunTransactionsAreFresh` | core/connection.rs:2092-2120 | in every interleaving a transaction past the gate holds the schema shared at its begin, or one of another version |
| `SchemaGate.GateOpensExactlyWhenUnannounced` | core/mvcc/database/mod.rs:6416-6434 | the re-check under the clock lets a begin through exactly when the generation is unchanged, and then the held schema is current |
| `SchemaGate.UndisturbedBeginSucceeds` | core/connection.rs:2122-2134 | a re-prepared connection with no publish under way gets its transaction on the shared schema |
| `SchemaGate.AdoptedCopyIsRefusedOnce` | core/connection.rs:2033-2066 | a schema adopted by a statement step is a copy the gate refuses though nothing was published; re-preparing gets through |
| `Checkpoint.RunningIsCounted` | core/statement.rs:538-560 | what is running never exceeds the difference of the counters, whatever is half-way through an update |
| `Checkpoint.StatementStep` | core/statement.rs:632-648 | starting and releasing statements keeps the exclusion |
| `Checkpoint.CheckpointStep` | core/connection.rs:4917-4944 | reading the counters one after the other and deciding keeps the exclusion |
| `Checkpoint.CheckpointRunsAlone` | core/connection.rs:4904-4944 | in every interleaving a live guard is the only one, its drop assertion holds, no statement starts and none runs beside it but its caller |
| `Checkpoint.CheckpointGrantedExactlyWhenAlone` | core/connection.rs:4917-4944 | with no statement half-way, a checkpoint is let in exactly when none is active and only its caller runs |
| `Checkpoint.StartsExactlyWhenFree` | core/connection.rs:4904-4913 | in every reachable state a statement can start exactly when it has not and no checkpoint is being decided or held |
| `Checkpoint.StatementComesAndGoes` | core/statement.rs:538-560 | starting a statement counts and runs it, releasing it undoes that |
| `Checkpoint.BlobComesAndGoes` | core/statement.rs:538-560 | a blob handle's statement is counted twice and released in the other order |
| `AttachedSchema.Connection.MutateSchema` | core/connection.rs:3209-3227 | the first change stages a copy of the shared schema, every change applies to the copy |
| `AttachedSchema.Connection.PublishSchema` | core/connection.rs:3847-3859 | the staged copy overwrites the shared schema and is gone |
| `AttachedSchema.Connection.DiscardSchema` | core/connection.rs:5039-5093 | rollback forgets the staged copy and leaves the shared schema |
| `AttachedSchema.Connection.CachedSchema` | core/connection.rs:3813-3837 | a connection reads its own staged copy first |
| `AttachedSchema.CurrentRunAgrees` | core/connection.rs:3186-3228 | while no publish was stale, the shared schema is the committed DDL and each copy is the committed DDL of its time and its own |
| `AttachedSchema.SharedIsCommittedExactlyWhenNeverStale` | core/connection.rs:3847-3859 | the shared schema is the fold of committed DDL throughout a run if and only if no copy staged before another commit was published |
| `AttachedSchema.StalePublishLoses` | core/connection.rs:3847-3859 | every stale publish drops committed DDL |
| `AttachedSchema.OneWriterSeesItsOwn` | core/connection.rs:3813-3859 | with one staged writer at a time nothing is lost, the writer reads its own changes and everyone else what is committed |
| `AttachedSchema.TwoWritersLoseAnUpdate` | core/connection.rs:3847-3859 | staging by itself does not keep two connections apart: publishing both copies loses the first one's change |
| `AttachedCommit.CheckedSeesAll` | core/vdbe/execute.rs:5085-5097 | who passes the cookie check, or holds the lock where publishing comes first, finds every commit published |
| `AttachedCommit.CommitStep` | core/vdbe/mod.rs:3281-3305 | a commit makes its changes the one outstanding publish |
| `AttachedCommit.PublishStep` | core/vdbe/mod.rs:3120-3170 | a publish brings the shared schema up to the committed DDL, with the lock held or already released |
| `AttachedCommit.EveryRunKeepsInvariant` | core/vdbe/execute.rs:5040-5097 | in both modes and every interleaving, at most one publish is outstanding and nobody stages meanwhile |
| `AttachedCommit.NothingCommittedIsLost` | core/vdbe/mod.rs:3270-3310 | the shared schema is always a prefix of the committed DDL and all of it when no publish is outstanding; in WAL mode whenever the lock is free |
| `AttachedCommit.WriterSeesItsOwn` | core/connection.rs:3813-3837 | a writer reads everything committed and its own changes, an idle connection only committed ones |
| `PublishOrder.UndisturbedStatement` | core/vdbe/mod.rs:3270-3310 | undisturbed, in either mode, a schema change commits and is published, or is rolled back without a trace, and frees the lock |
| `PublishOrder.StatementsGoThrough` | core/vdbe/execute.rs:5085-5097 | so in every reachable state with the lock free and no publish outstanding |
| `PublishOrder.UncheckedReleaseLoses` | core/mvcc/database/mod.rs:3680-3692 | releasing before publishing would lose a commit if the cookie were not checked |
| `PublishOrder.SafeExactlyWhenPublishedFirstOrChecked` | core/vdbe/execute.rs:5085-5097 | nothing is lost in any interleaving if and only if publishing precedes the release or the cookie is checked |
| `StagingTrace.StagingIsNeverStale` | core/connection.rs:3186-3228 | under the protocol no stale copy is ever published, in either mode |
| `StagingTrace.PublishedFirstIsOneWriter` | core/vdbe/mod.rs:3281-3305 | where publishing precedes the release, only one connection has a staged copy at a time |
| `ExecutionMeter.ActIsCharged` | core/execution_meter.rs:146-211 | an update past a limit is charged to the one event of that VM that found it crossed |
| `ExecutionMeter.ActReservesSteps` | core/execution_meter.rs:225-246 | a step is counted exactly when it is granted and never past the limit |
| `ExecutionMeter.ActRaises` | core/execution_meter.rs:146-246 | budgets stay spent, flags stay up, and only a spent budget's flag is raised |
| `ExecutionMeter.EveryInterleavingStaysInBudget` | core/execution_meter.rs:146-246 | in every interleaving granted steps never exceed the limit, and rows and mutations exceed theirs by at most one event per VM |
| `ExecutionMeter.RowOvershoot` | core/execution_meter.rs:146-187 | if no event counts more than k rows, the overshoot is at most k per VM |
| `ExecutionMeter.ExhaustionIsFinal` | core/execution_meter.rs:119-128 | once any flag is up, no later step through any view of the meter is granted |
| `ExecutionMeter.UndisturbedStep` | core/execution_meter.rs:213-246 | undisturbed, a step is granted and counted exactly when no flag is up and a step is left; running out raises the flag |
| `ExecutionMeter.UndisturbedRowsRead` | core/execution_meter.rs:146-187 | undisturbed, rows read grow exactly the counters they belong to, and the call fails and raises that counter's flag exactly when it crosses the limit |
| `ExecutionMeter.UndisturbedMutation` | core/execution_meter.rs:189-211 | undisturbed, a mutation counts one and fails exactly when it crosses the limit; through a suppressing view it counts nothing and fails exactly when a flag is up |
| `ExecutionMeter.UndisturbedRowsWritten` | core/execution_meter.rs:220-222 | rows written are only counted |
| `ExecutionMeter.NothingGoesUncounted` | core/execution_meter.rs:146-222 | in every interleaving each counter is the saturated sum of what the calls begun ask for, less what is still under way |
| `SqlComplete.StateInsideTrigger` | cli/read_state_machine.rs:131-199 | inside a trigger the state is a function of how the tokens end |
| `SqlComplete.TriggerCompletesAtFirstClose` | cli/read_state_machine.rs:131-199 | the input first becomes complete exactly at the first run of semicolon, END and semicolon |
| `SqlComplete.StateOutsideTriggers` | cli/read_state_machine.rs:131-199 | before any CREATE TRIGGER the state is a function of how the tokens end |
| `SqlComplete.OrdinaryInputCompletes` | cli/read_state_machine.rs:124-199 | an input without CREATE TRIGGER is complete exactly when only whitespace and semicolons follow a semicolon |
| `SqlComplete.TriggerIsEntered` | cli/read_state_machine.rs:131-199 | a trigger is entered exactly at CREATE, TEMP or whitespace, TRIGGER at the start of a statement or after EXPLAIN |
| `SqlComplete.AcceptsExactlyComplete` | cli/read_state_machine.rs:124-199 | for every token sequence the automaton accepts exactly the complete inputs |
| `SqlComplete.KeywordsAreSpelled` | cli/read_state_machine.rs:56-76 | a word is a keyword by its spelling in any mix of cases |
| `SqlComplete.PiecesAreLexed` | cli/read_state_machine.rs:56-119 | a text of words, symbols, quotes and comments is lexed to what they say, in order |
| `SqlComplete.TextCompletes` | cli/read_state_machine.rs:124-205 | such a text is complete exactly when what it says is |
| `SqlComplete.Tokenizer.Next` | cli/read_state_machine.rs:78-119 | the iterator skips quotes and comments and returns the next token of the lexed input |
| `SqlComplete.ProcessInput` | cli/read_state_machine.rs:201-205 | driving the iterator folds the automaton over the lexed tokens |
| `SqlComplete.FirstStays` | cli/read_state_machine.rs:56-119 | more input does not change a closed chunk it does not glue to |
| `SqlComplete.FirstGrows` | cli/read_state_machine.rs:56-119 | input that glues to a chunk makes it longer |
| `SqlComplete.CutsCleanly` | cli/read_state_machine.rs:56-119 | a fully lexed input and what follows are lexed piece by piece if and only if nothing glues across the cut |
| `SqlComplete.LiteralIsInvisible` | cli/read_state_machine.rs:78-119 | a closed literal, whatever it contains, never changes the final state where the parts around it do not glue |
| `SqlComplete.LiteralSplitsKeyword` | cli/read_state_machine.rs:56-76 | splitting END by a literal keeps a trigger open |
| `EditDistance.Levenshtein` | cli/manual.rs:75-102 | the two-row loop returns the recursive distance |
| `EditDistance.ZeroOnlyOnEqual` | cli/manual.rs:75-102 | the distance is zero exactly on equal strings |
| `EditDistance.Symmetric` | cli/manual.rs:75-102 | the distance is symmetric |
| `EditDistance.Triangle` | cli/manual.rs:75-102 | the distance satisfies the triangle inequality |
| `EditDistance.LengthBounds` | cli/manual.rs:75-102 | the distance is at least the difference of the lengths and at most their sum |
| `EditDistance.NoShorterEdits` | cli/manual.rs:75-102 | no sequence of edits is shorter than the distance |
| `EditDistance.ShortestEditsWork` | cli/manual.rs:75-102 | a constructed sequence of that many edits performs the change |
| `EditDistance.DistanceIsLeastEdits` | cli/manual.rs:75-102 | the distance is the least number of insertions, deletions and replacements |
| `EditDistance.SuggestsFirstNearest` | cli/manual.rs:104-127 | a page is suggested exactly when one is similar, and it is the first of the nearest |
| `EditDistance.SimilarIsRelative` | cli/manual.rs:108-119 | similar means a distance below 0.4 of the longer name, which is not empty |
| `Parameters.Registry.PushPositionalMarker` | core/parameters.rs:126-145 | reserves the index, keeps an existing slot and its numbered bit, never renames a named one |
| `Parameters.Registry.PushNamedMarker` | core/parameters.rs:147-179 | names an unnamed slot, replacing its entry, and keeps an existing name |
| `Parameters.Registry.PushMarker` | core/parameters.rs:181-201 | a known name resolves to its index, a new one gets the next, a number is positional |
| `Parameters.PositionalAgrees` | core/parameters.rs:126-145 | a positional marker keeps the maps equal to the scans |
| `Parameters.NamedAgrees` | core/parameters.rs:147-179 | a named marker keeps the maps equal to the scans |
| `Parameters.EveryRunAgrees` | core/parameters.rs:118-201 | so does every sequence of calls |
| `Parameters.LookupsAreScans` | core/parameters.rs:69-103 | every lookup of every index and every text, `?N` included, answers as a scan of the duplicate-free list, whose entries are named by the first name and numbered if written so and never named |
| `Parameters.CountIsGreatestIndex` | core/parameters.rs:61-63 | the count is the greatest index that occurs |
| `Parameters.DirectNamingKeepsBijection` | core/parameters.rs:147-179 | naming an index directly keeps names and named indices in bijection exactly when the index is named already or the name is new |
| `Parameters.OneNameTwice` | core/parameters.rs:147-179 | naming two indices alike breaks the bijection |
| `Parameters.MarkersAreBijective` | core/parameters.rs:181-201 | without direct naming, names and named indices are always in bijection |
| `Parameters.NameResolvesBack` | core/parameters.rs:80-103 | the name reported for an index, `?N` included, resolves back to it |
| `Parameters.NameGetsIndex` | core/parameters.rs:181-201 | a new name gets the index after the greatest in use, a known name the one it has, and leads there from then on |
| `ApplyWriter.StatementWriter.FindStmtEnd` | cli/input.rs:238-256 | the loop finds the first semicolon followed by a line end and how much to drain |
| `ApplyWriter.StatementWriter.FlushCompleteStatements` | cli/input.rs:257-266 | complete statements are drained and executed in order until one is refused |
| `ApplyWriter.StatementWriter.WriteData` | cli/input.rs:307-311 | a write appends its bytes and flushes |
| `ApplyWriter.StatementWriter.FinishInput` | cli/input.rs:269-283 | a last statement followed only by blanks is executed, anything else is left |
| `ApplyWriter.DivisionIsExact` | cli/input.rs:238-266 | statements with their line ends and the rest are the input, each statement ends at the first place it can, and the rest holds none |
| `ApplyWriter.DivisionIsUnique` | cli/input.rs:238-266 | it is the only division of that kind |
| `ApplyWriter.DivisionContinues` | cli/input.rs:307-311 | dividing what remained together with new bytes continues the division of the whole |
| `ApplyWriter.WritesAreChunkIndependent` | cli/input.rs:257-311 | however the input is cut into writes, the same statements are executed in the same order with the same outcome |
| `ApplyWriter.ChunkingDoesNotMatter` | cli/input.rs:257-311 | two ways of cutting the same bytes have the same outcome, finish included |
| `ApplyWriter.NothingIsLost` | cli/input.rs:257-311 | when all are accepted, statements, line ends and buffer are exactly the bytes written |
| `ApplyWriter.FinishIsExact` | cli/input.rs:269-283 | finishing executes up to a semicolon followed only by blanks, if there is one, and otherwise leaves the buffer |
| `ApplyWriter.WholeInputIsAccountedFor` | cli/input.rs:257-311 | from first write to finish, statements, line ends, the last statement and the rest are the bytes written |
| `SqlLiterals.WriteSqlValue` | cli/app.rs:2025-2054 | the loops write the literal: quotes doubled, bytes as two hex digits |
| `SqlLiterals.ParseHexBlob` | cli/app.rs:2339-2352 | the loop returns the bytes of the digits, or its error for an odd number or a non-hex character |
| `SqlLiterals.UnescapeIsHalved` | cli/app.rs:2363-2369 | the early return of unescaping changes nothing |
| `SqlLiterals.LiteralRoundTrip` | cli/app.rs:2305-2337 | parsing what was written gives every NULL, integer, text and blob back |
| `SqlLiterals.FloatRoundTrip` | cli/app.rs:2315-2319 | a float comes back as that float exactly when its text shows a point or an exponent |
| `SqlLiterals.FloatIsParsed` | cli/app.rs:2315-2319 | every number shown with a point or an exponent is parsed as that float |
| `SqlLiterals.FloatIsShown` | cli/app.rs:2315-2319 | nothing else passes for a number, save the words for infinity and not-a-number |
| `SqlLiterals.SurroundingsAreIgnored` | cli/app.rs:2306 | Unicode whitespace around a value is ignored |
| `SqlLiterals.NullIsParsed` | cli/app.rs:2307-2309 | NULL is read in any mix of cases |
| `SqlLiterals.HexDigitsAre` | cli/app.rs:2354-2361 | digits of either case have their value and nothing else has one |
| `SqlLiterals.BlobLiteralIsParsed` | cli/app.rs:2321-2327 | a blob literal opens with either case and is what its digits are |
| `SqlLiterals.PlainTextIsParsed` | cli/app.rs:2329-2337 | other words and unclosed quotes stand for themselves |
| `SqlLiterals.Utf8IsReadBack` | cli/app.rs:2339-2352 | the bytes digits are counted in are those of UTF-8 |
| `CivilDate.YearIsFound` | core/build.rs:98-101 | the closed form gives the year and the day of the year for every day of an era |
| `CivilDate.CivilFollowsCalendar` | core/build.rs:92-105 | on every day, negative ones included, the next day's date is the calendar's next day |
| `CivilDate.CivilIsDate` | core/build.rs:92-105 | every day gets a date that exists |
| `CivilDate.CivilCounts` | core/build.rs:92-105 | counting the days up to the date gives the day back |
| `CivilDate.CountIsCivilsInverse` | core/build.rs:92-105 | every date that exists is the date of its day |
| `CivilDate.UtcIsExact` | core/build.rs:91-107 | every epoch second is an existing date and time from which the second can be computed back |
| `CivilDate.EveryInstantIsReached` | core/build.rs:91-107 | every date and time is that of an epoch second |
| `CivilDate.UtcIsMonotone` | core/build.rs:91-107 | one second is before another exactly when its date and time are |
| `CivilDate.YearsWithRoom` | core/build.rs:91-107 | the years 0 to 9999 are exactly the seconds between the two bounds |
| `CivilDate.TextsSortAsInstants` | core/build.rs:106 | between those bounds the texts sort as the instants do |
| `CivilDate.TextShowsInstant` | core/build.rs:106 | between the bounds the text has its separators in place and its fields read back as the instant |
| `CivilDate.NegativeYearIsPadded` | core/build.rs:106 | before year 0 the sign takes one of the four places |
| `BusyHandler.BusyHandlerState.InvokeTimeoutHandler` | core/busy.rs:145-167 | grants the scheduled delay, cut off at the timeout, or refuses and changes nothing |
| `BusyHandler.BusyHandlerState.Reset` | core/busy.rs:103-107 | starts the schedule over |
| `BusyHandler.PriorIsWaited` | core/busy.rs:63-91 | the totals table and its extension are the running sums of the delays |
| `BusyHandler.RetriesIsExact` | core/busy.rs:145-167 | the closed form is the first iteration by which the whole timeout has been waited |
| `BusyHandler.WaitsAreCutOffAtTimeout` | core/busy.rs:145-167 | the waits granted add up to the schedule, cut off exactly at the timeout |
| `BusyHandler.RefusalMeansTimeout` | core/busy.rs:145-167 | the handler refuses exactly when the timeout has been waited in full, after the closed-form number of retries, and then changes nothing |

## Left out

- HTTP, JSON and SQL execution of the sync server, and the header message of a
  response beyond its bytes; `db_size` is read at the end of the WAL and no
  claim is made about it.
- The replace-base fallback for a missing or unportable log and log
  generations other than 1: the log only grows.
- The strength of CRC32C: the checksum is a parameter.
- `LogWriter.WrittenLogScans`: the payload is opaque bytes; its operations, encryption
  and the extension record inside its block are not part of this model.
- The bytes of the RoaringBitmap page selector: the selector is a set of pages.
- `BlobHandle.OpenBlob`: table and column are resolved and the column is
  writable; the checks for that, and overflow pages behind a value's bytes, are
  not part of this model.
- `BlobHandle.Blob.StepOp`: busy, interrupt and other statement errors are one
  internal error.
- The pager, WAL and MVCC store below the connection: their rollback is taken
  to restore what the schemas are restored to.
- `Savepoints.Connection.CommitTransaction`: does not model the refusal of a
  commit with deferred foreign-key violations, which leaves the transaction
  open, nor errors of the storage below.
- Statements refused while a write is suspended: a refused statement changes
  nothing.
- `SchemaGate.BegunTransactionsAreFresh`: says nothing about a schema of another
  version, which is the cookie check's part and not part of this model.
- Memory ordering: atomic operations are sequentially consistent steps.
- `AttachedSchema.Connection.PublishSchema`: one attached database; others are
  independent of it.
- `AttachedCommit.NothingCommittedIsLost`: the schema cookie is the number of
  committed changes, and its 32-bit wrap-around is not modelled.
- `ExecutionMeter.EveryInterleavingStaysInBudget`: the snapshot of the counters
  is not modelled.
- `EditDistance.SuggestsFirstNearest`: the similarity threshold of 0.4 is
  compared exactly, as twice the length against five times the distance, not in
  floating point.
- `Parameters.Registry.PushMarker`: indices are unbounded; the source stops the
  program when the next index would overflow.
- `SqlLiterals.WriteSqlValue`: a float is the text it is printed as; printing
  and rounding of floats is not modelled.
- `BusyHandler.BusyHandlerState.InvokeTimeoutHandler`: counters do not wrap
  around; custom callbacks are left out.
- Rust's integer widths elsewhere are modelled only where a result depends on
  them (64-bit revisions, lengths, step counters and integers).
- The remaining shell, bindings, planner, translator and virtual machine would
  add breadth rather than harder properties.
