# dbdock: a verified model

dbdock backs up, restores, copies and migrates databases, keeps a history of guarded
changes that can be undone, and syncs project metadata with a cloud service. This project
models the parts of it that carry protocols, streaming formats and algorithms, in Dafny,
and proves what they promise. `dafny verify dfyconfig.toml` checks all of it.

| file | what it models |
|---|---|
| `SyncMachine`, `CloudQueue`, `CloudSync`, `SyncProtocol`, `SharedState` | cloud sync: the retry queue, the drain loop, any number of machines around one server with lost, late and repeated messages, and several processes on one saved file |
| `CloudDiff`, `CanonicalJson`, `CodeUnits` | canonical JSON, snapshots, deltas and three-way conflict detection |
| `GuardedChange` | lock, checkpoint, record, change, record, release: interleaved runs with a failure, kill or lost lock at every effect |
| `SchemaReset`, `RestoreBackup`, `Undo`, `ChangeHistory` | emptying schemas in a transaction, restoring a saved file, checkpoints, history and undo |
| `BackupStreams`, `RedisFrames`, `Chunks` | the encrypted backup formats and the Redis dump framing, fed with chunks of any size |
| `TopologicalSort`, `BulkInsert`, `FieldScan` | table order under foreign-key cycles, multi-row inserts, field statistics of MongoDB documents |
| `RecycleBin`, `RateLimiter` | guarded deletion from storage and its circuit breaker |
| `PgPass`, `JsStrings`, `Wrappers` | the `.pgpass` format and small shared definitions |

## How it is modelled

Code that works by changing things step by step is a method with loops or a class with
fields, proved against a specification function; expressions and recursion are functions.
An effect on the outside (a query, a save, a request) is a method that may succeed or fail
at will, and where it matters may take effect and still report failure. Systems of several
processes are state machines: one enabling condition and one successor function for each
step, an invariant, and theorems about every finite run. In the cloud sync the methods of
the client are proved to go through moves of that state machine only. A definition that both
a method and its specification use (an order, a check, a format, a limit) is described a
second time in plain terms and with the numbers written out, and proved to be that; these
lemmas are mostly named `...Iff`, `...Is` or `...Means`.

Assumptions, each stated where it is used:

- The cloud server is not part of the repository. It accepts a push exactly when the named
  base revision is its current one, then applies the changes and moves to a greater
  revision; a new project starts at revision 0 without resources. Whether it honours the
  idempotency key is left open: an earlier answer for the same job may be received again, and
  the same job may be accepted again. What is proved of every run therefore holds either way.
- SHA-256, PBKDF2, Brotli, the archive format and AES-GCM are function parameters.
  AES-GCM (NIST SP 800-38D, sections 6.5 and 7) is a keystream indexed by position and a
  tag of the whole ciphertext. The digest is injective only where a lemma says so.
- Between the steps of guarded changes and undo nobody else writes to the database, a
  killed run stops writing, and the lock is named alike by all runs (the code derives it
  from the configured host, port and database).
- `CASCADE` reaches no other schema.
- A statement runs before its answer or error is heard or not at all. A row clashes with no
  other row of its table, as the source has the constraints that the target is given.

## What the code does that its own description does not say

- An unforced job that has been overtaken is never accepted; it stays pending until a failure
  gives it up (`SyncProtocol.OvertakenIsKept`, `SyncProtocol.LeavesByFailure`).
- An unforced push takes effect at most once whatever the server does with the idempotency
  key. A forced one relies on the server: the code sends the same key each time, and a
  server that honours it accepts no job twice (`SyncProtocol.DeduplicatedAcceptsOnce`,
  `SyncProtocol.ForcedPushCanLandTwice`).
- Two syncs in one directory overwrite each other's saved state: a queued job can be lost and
  an accepted one become pending again (`SharedState.WriteForgets`).
- A network error on the eighth attempt gives the job up but is counted as failed, not as
  dead-lettered; the dead-letter list grows by `deadlettered` if and only if there is no such
  attempt (`CloudSync.SyncClient.Drain`, `CloudSync.LastTriesIff`).
- The table copy sends a statement again when the connection seems lost, also if it had run.
  Rows that no unique constraint covers are then there twice; every row is there once if and
  only if no such answer was lost for a batch with such rows (`BulkInsert.CopiedOnceIff`).
- A run that has lost the connection with its lock starts its change all the same, and its
  checkpoint may then be out of date (`GuardedChange.LostLockBreaksTheGuard`).
- A key changed in the same way on both sides is reported as changed locally only
  (`CloudDiff.SideOf`).
- Undoing an undo does not remove a schema that the first undo had to create
  (`Undo.UndoOfUndo` gives the exact condition).
- A trash sidecar naming the trash copy itself makes a restore delete the only copy
  (`RecycleBin.RestoreNeverLosesIff`), and a key too long for its trash name, or ending
  with a dot, does not survive delete and restore unchanged
  (`RecycleBin.RestoreUndoesDeleteForKey`).
- The crypto service's decrypt streams end without an error, and with no output, on a file
  shorter than 96 bytes (16 where salt and iv are kept apart); a file cut off later is refused
  unless its last sixteen bytes happen to be a tag of what precedes them
  (`BackupStreams.FinishesIff`). The command line's stream refuses the short ones too.
- The deletion limit of two or more is kept only by a clock that does not go back
  (`RateLimiter.EveryWindowIsBounded`, `RateLimiter.BoundForAnyClockIff`); that only a full
  window refuses a call needs such a clock for any limit (`RateLimiter.RefusalRuleIff`).
- `.pgpass` entries do not round-trip when the host starts with white space or `#` or the
  password ends with white space (`PgPass.RoundTripIff`).

## Model

| member | source | states |
|---|---|---|
| SyncProtocol.SavedPairIsServerState | src/cloud/sync-engine.ts:243-291 | In every run of any number of machines, whatever is lost, late or repeated, the revision and hashes a machine has saved are a state the server really had, and the only one it ever had under that revision. |
| SyncProtocol.UnforcedPushGivesTheSnapshot | src/cloud/sync-engine.ts:195-214 | A push accepted without force finds the server in exactly the state the machine had saved when it queued the job, and turns it into exactly the hashes of the snapshot that the machine took then. |
| SyncProtocol.QueuedIsDelta | src/cloud/sync-engine.ts:126-147 | The changes of every job that is queued are the delta from a past state of the server to the snapshot taken then. |
| SyncProtocol.AcceptedPushAppliesTheChange | src/cloud/sync-engine.ts:134-144 | Any accepted push, forced or not, gives the keys the machine had changed the values of its snapshot and leaves every other key as the server had it; without force the server is at the revision of the job. |
| SyncProtocol.AcceptedAtMostOnce | src/cloud/sync-engine.ts:184-237 | Later accepted pushes name strictly greater revisions; so of all sendings of one job at most one is accepted without force, whatever becomes of acknowledgements. |
| SyncProtocol.OvertakenNeverLands | src/cloud/sync-engine.ts:195-200 | Once the server has moved past the revision a job was queued on, the job is not accepted any more unless forced. |
| SyncProtocol.OvertakenIsKept | src/cloud/sync-engine.ts:184-237 | A job overtaken before it was accepted, and sent only unforced, is never accepted in any run: it stays with its machine, pending or given up. |
| SyncProtocol.LeavesByFailure | src/cloud/sync-engine.ts:217-231 | A job without an answer leaves the queue only by a failure, into the dead-letter list, where it stays. |
| SyncProtocol.OvertakenCanBeGivenUp | src/cloud/sync-engine.ts:189-231 | Such a failure is possible: any answer but a conflict or a network error to the question for the revision gives the job up. |
| SyncProtocol.DeduplicatedAcceptsOnce | src/cloud/sync-engine.ts:203-210 | Whatever is sent, forced or not, a server that never accepts a job it has answered accepts no job twice; the identifier is sent unchanged as the idempotency key each time. |
| SyncProtocol.ForcedPushCanLandTwice | src/cloud/sync-engine.ts:200-236 | A property of the assumed server when it ignores the idempotency key: from every initial state there is a run in which a forced job is accepted, its answer is lost, and it is accepted again. |
| SyncProtocol.OneStatePerRevision | src/cloud/sync-engine.ts:250-257 | Two moments of a run at which the server has the same revision have the same hashes. |
| SyncProtocol.StepInv | src/cloud/sync-engine.ts:123-291 | Every step of every machine and of the server keeps the invariant: saved pairs and answers are past server states, whose keys all have a colon, queued jobs are deltas of a past state, unforced requests name the job's own revision. |
| CloudSync.SyncClient.Attempt | src/cloud/sync-engine.ts:186-237 | One round of the drain loop with its catch block: the outcome and the exact new state that the server's answers lead to, what was sent and with which base revision, the revision known afterwards; it goes through moves of the machine that SyncProtocol is about. |
| CloudSync.SyncClient.SendJob | src/cloud/sync-engine.ts:200-216 | A push names the revision last known; an accepted one becomes the baseline and removes the job, a failed one changes nothing. |
| CloudSync.SyncClient.Learn | src/cloud/sync-engine.ts:189-192 | Asks for the revision only if it is not known; "not modified" means the saved one. |
| CloudSync.SyncClient.Settle | src/cloud/sync-engine.ts:217-237 | The catch block: a conflict changes nothing, a network error uses one of eight attempts, any other error gives the job up; the counters follow the code, which counts a last network error as failed. |
| CloudSync.SyncClient.Fail | src/cloud/sync-engine.ts:223-231 | The failed job is rescheduled or given up, no other job and no part of the baseline changes, and the books stay balanced. |
| CloudSync.SyncClient.Acknowledge | src/cloud/sync-engine.ts:212-214 | The acknowledged job leaves the queue, the answer becomes the baseline, the books stay balanced. |
| CloudSync.SyncClient.Drain | src/cloud/sync-engine.ts:167-241 | attempted = acked + failed + deadlettered + (1 on conflict), each counter being the number of attempts that the server's answers ended that way; the dead-letter list grows by deadlettered plus the network errors at jobs with seven attempts behind them; every due job is attempted unless a conflict stops the loop; jobs are sent in the order in which they stand in the queue, each push naming the revision last known and, without force, the job's own; the whole path is the one that the answers led to. |
| CloudSync.LastTriesIff | src/cloud/sync-engine.ts:217-231 | The counter of jobs given up is exact if and only if no network error on the way hit a job at its eighth attempt; so in particular if no due job has seven attempts behind it. |
| CloudSync.SyncClient.SyncPush | src/cloud/sync-engine.ts:123-156 | Exactly if the snapshot differs from the saved hashes, the first move queues one job, which carries the difference to that snapshot, and no later move queues another; then the queue is drained. A no-op exactly if nothing was queued and nothing attempted. |
| CloudSync.SyncClient.SyncPull | src/cloud/sync-engine.ts:268-291 | Adopts exactly the state that was read as the baseline, without touching the queue; a failed or "not modified" read changes nothing. |
| CloudSync.SyncClient.EnqueueNew | src/cloud/sync-engine.ts:134-147 | A new job is added to the queue and to the books. |
| CloudSync.AttemptsAreBounded | src/cloud/sync-engine.ts:167-241 | Over any number of drains the settled attempts plus the pending jobs are at most eight per job ever queued. |
| CloudSync.BooksAcked | src/cloud/sync-engine.ts:212-214 | Acknowledging keeps every job in exactly one of pending, dead-letter and acknowledged, lowers the work left and touches no other job. |
| CloudSync.BooksFailed | src/cloud/sync-engine.ts:223-236 | So does a failure, which moves the job to the dead-letter list exactly if it was no network error or the eighth attempt. |
| CloudSync.EightNetworkErrorsGiveUp | src/cloud/sync-engine.ts:223-227 | A network error leaves a job pending up to its seventh attempt and gives it up at the eighth. |
| CloudSync.DiffEmptyIff | src/cloud/sync-engine.ts:130-134 | The difference is empty if and only if the snapshot equals the saved hashes. |
| SyncMachine.FollowsThrough | src/cloud/sync-engine.ts:167-241 | Paths of one machine compose, each move being the one that the server's answer led to; this is how the methods above are tied to the protocol. |
| SyncMachine.NextMoves | src/cloud/sync-engine.ts:184-237 | What a machine can do next in each phase of the drain loop, and nothing else; without force a push goes out only for the revision last known. |
| SharedState.WriteForgets | src/cloud/sync-engine.ts:123-241 | With several processes in one directory: after a write, a job that the write is not about is in the saved file exactly if the writer had it in memory, whatever others have written since. |
| SharedState.ChangesAreWritten | src/cloud/sync-engine.ts:123-241 | Every change of the state is written, and a conflict writes nothing. |
| SharedState.QueuedJobIsLost | src/cloud/sync-engine.ts:124-147 | So of two processes that have read the same file and both queue a job, the first loses its job. |
| SharedState.AcceptedJobReturns | src/cloud/sync-engine.ts:174-215 | And a job that one process has had accepted is pending again once another, which had read the file before, writes. |
| CloudQueue.BackoffBounds | src/cloud/queue.ts:8-11 | The delay lies between half and all of a second doubled per attempt, and between half and all of a minute from the sixth attempt on. |
| CloudQueue.BackoffExact | src/cloud/queue.ts:8-11 | It is half of that time plus the drawn share of the other half, rounded down. |
| CloudQueue.DueJobsExact | src/cloud/queue.ts:17-24 | The due jobs are exactly the pending ones whose time has come, still without duplicates. |
| CloudQueue.DueJobsInOrder | src/cloud/queue.ts:17-24 | And they stand in the order of the queue. |
| CloudQueue.WithoutAt | src/cloud/queue.ts:26-28 | Removing a job closes its gap in the queue and changes nothing else. |
| CloudQueue.AckedLeaves | src/cloud/queue.ts:26-28 | Acknowledging removes exactly that job and lowers the work left. |
| CloudQueue.FailedDies | src/cloud/queue.ts:30-49 | A job that fails with no attempt left moves to the dead-letter list, one attempt further; no other job is touched. |
| CloudQueue.FailedStays | src/cloud/queue.ts:51-55 | A job that fails with attempts left stays pending, at the end, one attempt further and due strictly later. |
| CloudQueue.FailedIs | src/cloud/queue.ts:36-55 | The exact queue after a failure of a job that is found. |
| CloudQueue.WorkWithout | src/cloud/queue.ts:36-49 | Removing a job lowers the sum of remaining attempts by exactly what that job had left. |
| CloudQueue.WorkNonnegative | src/cloud/queue.ts:5 | With fewer than eight attempts per pending job, the remaining attempts lie between one and eight per job. |
| CloudDiff.DiffSnapshot | src/cloud/diff.ts:14-41 | For any base and snapshot: one change for each key on which they differ and no other; first what is new or changed, then what has gone. |
| CloudDiff.DiffSays | src/cloud/diff.ts:14-41 | A change is among them exactly if some key gives rise to it: a resource whose hash is new is sent with its hash and data, a key that has gone is deleted. |
| CloudDiff.KeyWithoutColon | src/cloud/diff.ts:4-10 | A key without a colon is read as a resource named unknown. |
| CloudDiff.DiffIsDelta | src/cloud/diff.ts:14-41 | Where all keys have a colon the changes are a delta: each differing key once, with what the snapshot has there. |
| CloudDiff.DiffRebuildsIff | src/cloud/diff.ts:14-41 | The changes rebuild the snapshot from the base if and only if every key of the base has a colon; any other key is sent as the deletion of something else. |
| CloudDiff.ApplyAllColon | src/cloud/diff.ts:4-6 | A hash map whose keys have a colon keeps to such keys under any changes. |
| CloudDiff.DeltaRebuilds | src/cloud/diff.ts:14-41 | Applying the changes to the base rebuilds the local hash map exactly. |
| CloudDiff.DeltaAt | src/cloud/diff.ts:14-41 | On any other hash map a delta sets the differing keys and nothing else. |
| CloudDiff.KeyRoundTrip | src/cloud/diff.ts:4-10 | Splitting and joining a key are inverse exactly for keys with a colon and for resources without one. |
| CloudDiff.DetectConflicts | src/cloud/conflict.ts:16-54 | The three lists hold, each key once, exactly the conflicting, the otherwise locally changed and the only remotely changed keys; a conflict is reported exactly if one exists. |
| CloudDiff.ReportPartitions | src/cloud/conflict.ts:26-46 | The lists partition the keys changed on either side. (A key changed alike on both sides is listed as local only, as the code does.) |
| CloudDiff.CommuteIffNoConflict | src/cloud/conflict.ts:13-46 | The local and the remote delta commute on the base if and only if no key is in conflict. |
| CanonicalJson.SortValue | src/cloud/snapshot.ts:15-42 | The sorting method computes the sorted value. |
| CanonicalJson.SortObject | src/cloud/snapshot.ts:22-29 | Sorting an object gives each key once, in ascending order, with its value sorted. |
| CodeUnits.LessIff | src/cloud/snapshot.ts:25-25 | The order of keys: the first is a proper prefix of the second or has the smaller code unit where they first differ. |
| CanonicalJson.SortedMembersShape | src/cloud/snapshot.ts:22-29 | The keys of sorted members ascend in that order, and the members are exactly the sorted images of the given ones. |
| CanonicalJson.SortedIsNormalForm | src/cloud/snapshot.ts:15-42 | Sorting is idempotent and leaves no undefined value. |
| CanonicalJson.EquivalentSortAlike | src/cloud/snapshot.ts:15-42 | Values equal up to key order, reading undefined as null, sort alike. |
| CanonicalJson.SortAlikeEquivalent | src/cloud/snapshot.ts:15-42 | And only those do. |
| CanonicalJson.ReadEscaped | src/cloud/snapshot.ts:44-46 | A reader recovers any string, surrogates and control characters included, from its escaped form (RFC 8259, section 7). |
| CanonicalJson.ReadOfStringify | src/cloud/snapshot.ts:44-46 | A reader recovers any value from its text, whatever may follow it. |
| CanonicalJson.StringifyInjective | src/cloud/snapshot.ts:44-46 | Serialisation is injective. |
| CanonicalJson.NumberUnits | src/cloud/snapshot.ts:44-46 | The characters that a printed number can have. |
| CanonicalJson.Keywords | src/cloud/snapshot.ts:44-46 | null, true and false as RFC 8259 has them; undefined is written as null. |
| CanonicalJson.ListText | src/cloud/snapshot.ts:44-46 | Brackets and commas of a list. |
| CanonicalJson.ObjectText | src/cloud/snapshot.ts:44-46 | Braces, commas, quotes and colons of an object, without any white space. |
| CanonicalJson.EscapeOfUnit | src/cloud/snapshot.ts:44-46 | A unit stands for itself exactly if it is printable and no lone surrogate; one without a letter of its own becomes four lower-case hexadecimal digits. |
| CanonicalJson.LetterEscapes | src/cloud/snapshot.ts:44-46 | The seven two-character escapes. |
| CanonicalJson.PlainIffUnescaped | src/cloud/snapshot.ts:44-46 | A string is written unchanged if and only if all its units are printable and its surrogates come in pairs. |
| CanonicalJson.CanonicalIff | src/cloud/snapshot.ts:44-46 | Two values have the same canonical text if and only if they are equal up to key order, reading undefined as null. |
| CloudDiff.HashAlikeIff | src/cloud/snapshot.ts:48-54 | With an injective digest, resource hashes agree exactly for equivalent data. |
| CloudDiff.BuildSnapshot | src/cloud/snapshot.ts:72-86 | Each key maps to the hash and data of the last input with that key; the state hash is that of the key-to-hash object in some order of keys. |
| CloudDiff.HashesAndKeys | src/cloud/snapshot.ts:52-54 | A hash is the digest of the canonical text after sha256: and a key joins resource and identifier by a colon. |
| CloudDiff.StateHashIff | src/cloud/snapshot.ts:78-85 | With an injective digest, state hashes agree exactly if the hash maps do, whatever the order of keys. |
| TopologicalSort.TopologicalSort | src/cli/commands/driver-copy.ts:381-410 | Each name once, as last defined; a permutation exactly for unique names; a reference to a later table lies on a cycle through both; in dependency order if and only if the schema is acyclic; an input already in order is returned unchanged. |
| TopologicalSort.Sorter.Visit | src/cli/commands/driver-copy.ts:389-406 | One call of the recursive search: it terminates, only appends, and whatever it leaves out of order is on a common cycle. |
| TopologicalSort.Sorter.VisitAll | src/cli/commands/driver-copy.ts:408-409 | The outer loop finishes every table. |
| TopologicalSort.FillMap | src/cli/commands/driver-copy.ts:382-383 | The map holds the last definition of each name. |
| TopologicalSort.OrderedIffAcyclic | src/cli/commands/driver-copy.ts:381-410 | If only references on cycles are out of order, the list is in dependency order exactly when there is no cycle. |
| TopologicalSort.OrderedOnlyIfAcyclic | src/cli/commands/driver-copy.ts:381-410 | A list in dependency order proves the schema acyclic. |
| TopologicalSort.BackReferencesAreCyclic | src/cli/commands/driver-copy.ts:390-399 | A reference into a table the search is inside closes a cycle. |
| TopologicalSort.RearrangementIffUnique | src/cli/commands/driver-copy.ts:382-408 | The result is a permutation of the input exactly if no name occurs twice. |
| BulkInsert.CopyTableData | src/cli/commands/driver-copy.ts:517-592 | On success the batches, each sent in a round that ended with an answer, hold every row once and in order, within 65000 parameters, in batches of the greatest size up to 1000 rows; it succeeds exactly if no round is given up and no read of the source fails; otherwise the answered rounds hold a prefix of the rows, as many as were counted. The source is asked in one transaction, committed on success and rolled back otherwise. Holds for 1 to 65000 columns, more than a table can have; a table without columns is skipped. |
| BulkInsert.CopyBatches | src/cli/commands/driver-copy.ts:541-592 | The loop over the cursor: it stops at the first round given up, and has counted exactly the rows of the rounds that were answered. |
| BulkInsert.Connection.QueryWithRetry | src/cli/commands/driver-copy.ts:489-515 | A statement is sent up to four times: again only after an error that looks like a lost connection, and given up after any other error or the fourth. |
| BulkInsert.TableAfterCopy | src/cli/commands/driver-copy.ts:489-592 | What the table holds after a copy, whatever was interrupted and wherever it stopped: the rows of each statement that ran, once, and those of them that no unique constraint covers as often as it ran. |
| BulkInsert.CopiedOnceIff | src/cli/commands/driver-copy.ts:489-592 | After answered rounds the table has got exactly the rows, each once and in order, if and only if each round lost no answer of a statement that had run or has only rows that some unique constraint covers. |
| BulkInsert.LostAnswerDoubles | src/cli/commands/driver-copy.ts:489-515 | A batch without such a constraint whose first answer is lost is there twice after the second attempt. |
| BulkInsert.RowsPerStatement | src/cli/commands/driver-copy.ts:528-531 | The greatest number of rows whose parameters fit into 65000; it is zero only beyond 65000 columns. |
| BulkInsert.PendingTable.Flush | src/migration/engines/mongo-to-postgres.engine.ts:348-383 | Succeeds exactly if every statement is answered: then every pending row has been sent once and in order and the list is empty; otherwise the rows are kept and a prefix was sent, which includes the chunk that was reported to have failed exactly if it had run. |
| BulkInsert.BuildStatement | src/migration/engines/mongo-to-postgres.engine.ts:362-374 | The statement built inserts exactly the chunk. |
| BulkInsert.StatementInsertsChunk | src/migration/engines/mongo-to-postgres.engine.ts:362-374 | Placeholders are numbered 1, 2, ... without gaps and running the statement inserts the chunk, also with rows of different lengths. |
| BulkInsert.StatementIsRowMajor | src/migration/engines/mongo-to-postgres.engine.ts:367-374 | Value number i * columns + j + 1 is row i, column j. |
| BulkInsert.ChunkWithinLimit | src/migration/engines/mongo-to-postgres.engine.ts:359-362 | A chunk of at most that many rows stays within the parameter limit. |
| FieldScan.AnalyzeDocuments | src/migration/analyzers/mongodb.analyzer.ts:87-92 | After scanning a sample, the count of each path is a plain recursive count of its occurrences (first hundred array elements only), a path is present exactly if it occurs, its per-type counts add up to its count, and its marks are those of the values seen there. |
| FieldScan.TypesAre | src/migration/type.mapper.ts:77-120 | The type of each value, from the side of the type. |
| FieldScan.PathsAre | src/migration/analyzers/mongodb.analyzer.ts:160-160 | A path is the keys from the outside in, joined by dots. |
| FieldScan.Analyzer.AnalyzeDocument | src/migration/analyzers/mongodb.analyzer.ts:151-191 | The accumulator map changes exactly as if the document's occurrences were noted one by one. |
| FieldScan.Analyzer.AnalyzeMember | src/migration/analyzers/mongodb.analyzer.ts:159-190 | The same for one member of an object. |
| FieldScan.Analyzer.NoteField | src/migration/analyzers/mongodb.analyzer.ts:160-173 | One occurrence of a field updates exactly its accumulator. |
| FieldScan.Analyzer.AnalyzeBelow | src/migration/analyzers/mongodb.analyzer.ts:175-190 | What lies below a value: of an array the first hundred elements, of a plain object its members. |
| FieldScan.Analyzer.AnalyzeElements | src/migration/analyzers/mongodb.analyzer.ts:175-184 | Each element it is given adds its type, and nested objects are scanned under the path with brackets, in order; it is given at most the first hundred. |
| FieldScan.EventsCountOccurrences | src/migration/analyzers/mongodb.analyzer.ts:151-191 | The occurrences the scan visits are those of the recursive count. |
| FieldScan.TallyDescribes | src/migration/analyzers/mongodb.analyzer.ts:127-191 | Each accumulator describes the values seen at its path: count, counts per type, the first five values, and whether one was an array or an object id. |
| FieldScan.MarksAreExact | src/migration/analyzers/mongodb.analyzer.ts:127-191 | The remaining two fields are exact as well: whether some value at the path is a plain object, and which types occur among the first hundred elements of the arrays there. |
| FieldScan.NameAndDepthAreFirst | src/migration/analyzers/mongodb.analyzer.ts:128-149 | An accumulator keeps the name and the depth that its path was first seen with. |
| FieldScan.StoredCountIsOccurrences | src/migration/analyzers/mongodb.analyzer.ts:127-191 | The stored counts and accumulators of a sample, stated against the plain recursive count. |
| BackupStreams.Encrypt | src/crypto/backup-crypto.ts:35-80 | The output is header, masked data and tag of the whole, for every chunking. |
| BackupStreams.EncryptStream.Transform | src/crypto/backup-crypto.ts:50-65 | A chunk extends what the cipher has processed; the header is written once, first. |
| BackupStreams.EncryptStream.Flush | src/crypto/backup-crypto.ts:66-78 | The end writes the header if it is still due, then the tag. |
| BackupStreams.Decrypt | src/crypto/backup-crypto.ts:82-161 | The outcome depends only on the bytes: it is that of decoding the whole file at once. |
| BackupStreams.DecryptStream.Transform | src/crypto/backup-crypto.ts:89-145 | After every chunk the state is the one the bytes received so far determine. |
| BackupStreams.DecryptStream.ReadHeader | src/crypto/backup-crypto.ts:95-129 | The header is complete exactly when enough bytes have arrived, whatever the chunking; then the key is checked. |
| BackupStreams.DecryptStream.HoldBack | src/crypto/backup-crypto.ts:134-139 | All but the last sixteen bytes of the body are released, in order. |
| BackupStreams.DecryptStream.Flush | src/crypto/backup-crypto.ts:146-158 | Finishes only if the held bytes are the tag of all the rest. |
| BackupStreams.PhaseExtends | src/crypto/backup-crypto.ts:89-145 | More bytes extend the body or keep a refusal; nothing decided is revised. |
| BackupStreams.DecodeOfEncrypted | src/crypto/backup-crypto.ts:35-161 | Decoding an encrypted file gives the plaintext, in all three formats. |
| BackupStreams.EncryptThenDecrypt | src/crypto/backup-crypto.ts:35-161 | So does decrypting any re-chunking of an encrypt stream's output. |
| BackupStreams.FinishesIff | src/crypto/backup-crypto.ts:82-161 | In each of the three formats a stream finishes if and only if it is a header that fits the key, a ciphertext and its tag, or, in the two formats of the crypto service, too short to hold a tag. |
| BackupStreams.HeaderIff | src/crypto/backup-crypto.ts:95-129 | What is read and accepted as a header, byte by byte: after the mark and the version a fingerprint of the key in version 3 and none in any other, then 64 bytes of salt and 16 of nonce. |
| BackupStreams.OlderBackupDecodes | src/crypto/backup-crypto.ts:101-129 | A backup of version 2 decodes to its plaintext, and no fingerprint is compared. |
| BackupStreams.EncryptedIs | src/crypto/backup-crypto.ts:35-80 | What the encrypt stream writes, byte by byte. |
| BackupStreams.BackupHeaderIff | src/crypto/backup-format.ts:19-32 | A file is taken for a versioned backup exactly if it starts with DBDKENC and version 2 or 3. |
| BackupStreams.OtherKeyRefused | src/crypto/backup-crypto.ts:111-119 | A key with another fingerprint is refused whatever follows. |
| BackupStreams.MaskAppend | src/crypto/backup-crypto.ts:60-60 | Masking chunk by chunk is masking the whole (NIST SP 800-38D, section 6.5). |
| BackupStreams.MaskAt | src/crypto/backup-crypto.ts:60-60 | Each byte is combined with the byte of the keystream at its position. |
| BackupStreams.ShortStreamEnds | src/crypto/crypto.service.ts:151-161 | The service's streams end without error and without output on fewer than 96 bytes (16 with separate metadata); FinishesIff says that no other incomplete file ends so. |
| RedisFrames.Dump | src/engines/redis-worker.ts:33-61 | The bytes written are the frames of the keys that still exist, in order, lengths and time-to-live as the headers can hold them. |
| RedisFrames.Restore | src/engines/redis-worker.ts:63-106 | Every chunking of any bytes issues, in batches of 500 and a last smaller one, entries whose frames followed by the leftover are exactly the input; the leftover is a strict prefix of a frame. |
| RedisFrames.RestoreOfDump | src/engines/redis-worker.ts:25-106 | Restoring any chunking of a dump issues exactly the dumped entries. |
| RedisFrames.Restorer.Receive | src/engines/redis-worker.ts:78-102 | One chunk issues exactly the complete frames and keeps the rest. |
| RedisFrames.Restorer.Flush | src/engines/redis-worker.ts:71-76 | Flushing issues the queued commands in order and forgets them; an empty batch is never sent. |
| RedisFrames.ParseAppend | src/engines/redis-worker.ts:78-102 | Parsing in pieces is parsing at once. |
| RedisFrames.ParseIsExact | src/engines/redis-worker.ts:81-100 | What was parsed, written again, and the rest are the input. |
| RedisFrames.StreamDeterminesEntries | src/engines/redis-worker.ts:25-31 | Bytes determine the entries and the leftover: the framing is unambiguous. |
| RedisFrames.IncompleteIffStrictPrefix | src/engines/redis-worker.ts:81-87 | The loop waits for more exactly if what it has is a strict prefix of some frame. |
| RedisFrames.FirstOfFrame | src/engines/redis-worker.ts:82-99 | Reading a written frame gives its entry and what follows. |
| RedisFrames.FrameOfFirst | src/engines/redis-worker.ts:82-99 | Writing the entry that was read gives the bytes read. |
| RedisFrames.Int64RoundTrip | src/engines/redis-worker.ts:28-28 | A signed 64-bit big-endian number is read back as written. |
| RedisFrames.ReadOfWrite | src/engines/redis-worker.ts:27-29 | So is an unsigned one of any width. |
| GuardedChange.ChangeNeedsCheckpoint | src/changes/guard.ts:34-84 | In every interleaving with failures, kills and lost locks anywhere: when a change starts, its record says running and its checkpoint is saved and stays for ever; the checkpoint equals the database scope at that moment if no other run has written since the scope was read, which is so, and the run has the lock, if no run has gone on without its lock since then. |
| GuardedChange.LostLockBreaksTheGuard | src/changes/guard.ts:34-84 | The condition is needed: a run that loses its connection when it is ready begins all the same, after another has written whatever it likes. |
| GuardedChange.ChangeBeginsOnce | src/changes/guard.ts:82-84 | A change starts at most once. |
| GuardedChange.EachInItsTurn | src/changes/guard.ts:34-115 | What a run does follows the order of the code: each event happens only when it has its turn, apart from a kill or the loss of the lock. |
| GuardedChange.WritesAreGuarded | src/changes/guard.ts:34-84 | Whenever the database changes, the writer has begun; if no run has gone on without its lock since the writer read the scope, it holds the lock, no other run has written, and its checkpoint is what the scope held when it began. |
| GuardedChange.LockIsReleased | src/changes/guard.ts:34-115 | A run holds the lock exactly between getting it and being closed or killed, unless it has lost it; so when all runs are over nobody holds it. |
| GuardedChange.HolderIsNeverStuck | src/changes/guard.ts:34-115 | The holder can always go on by itself, whatever the others do. |
| GuardedChange.StepsAreProgress | src/changes/guard.ts:34-115 | Each step of a run brings it nearer to its end, except that each schema is dumped once and the change may write any number of times. |
| GuardedChange.AnythingCanStop | src/changes/guard.ts:34-115 | A run can be killed while it lives and lose its lock while it has it. |
| GuardedChange.EffectsCanFail | src/changes/guard.ts:34-115 | Each effect can fail, a save also after it took effect. |
| GuardedChange.RecordTellsOutcome | src/changes/guard.ts:85-105 | A record that says succeeded or failed tells how the change really ended. |
| GuardedChange.SentIsFinished | src/changes/guard.ts:85-105 | A run that goes on to send its record has saved how the change ended. |
| GuardedChange.SaveLeavesRecord | src/changes/guard.ts:81-105 | A save that took effect leaves the record with its status, also if it was reported to have failed. |
| GuardedChange.StepInv | src/changes/guard.ts:34-115 | Every step of every run keeps the invariant of all runs. |
| GuardedChange.CheckpointStays | src/changes/guard.ts:47-47 | A saved checkpoint is never written again. |
| GuardedChange.SaveLeavesCheckpoint | src/changes/guard.ts:47-47 | A checkpoint is what has been dumped, also if its save took effect and was reported to have failed. |
| GuardedChange.Run.RunGuardedChange | src/changes/guard.ts:34-116 | The program of one run, with its finally: every outcome is a path of the state machine that ends with the connection closed; it succeeds exactly if no effect fails and there is something to save. |
| GuardedChange.Run.WhileLocked | src/changes/guard.ts:35-112 | What happens while the lock is held, in this order. |
| GuardedChange.Run.SaveBefore | src/changes/guard.ts:41-81 | Scope, dump, checkpoint and record; the change is reached only if all were saved. |
| GuardedChange.Run.Change | src/changes/guard.ts:82-106 | The change and the record of its outcome. |
| SchemaReset.Session.ResetPostgres | src/standalone/database-lock.ts:292-323 | All or nothing whatever query fails, also a commit whose answer is lost; it succeeds exactly if no query fails and nothing is refused or of unknown type; a named schema that is reserved or another role's stops it before anything changes, and what differs afterwards belonged to this role. |
| SchemaReset.Session.EmptyTargets | src/standalone/database-lock.ts:298-317 | Inside the transaction exactly the targets are emptied. |
| SchemaReset.Session.EmptyEach | src/standalone/database-lock.ts:298-317 | The loop over the targets: it succeeds exactly if every target can be emptied and no query fails. |
| SchemaReset.Session.EmptySchema | src/standalone/database-lock.ts:311-316 | Dropping the listed objects, with cascades within the schema, empties it and nothing else. |
| SchemaReset.ResetTouchesOnlyRestorable | src/standalone/database-lock.ts:255-317 | What a permitted reset changes exists, belongs to this role, has no reserved name and was asked for. |
| SchemaReset.NothingRefusedIff | src/standalone/database-lock.ts:257-267 | Nothing is refused exactly if each named schema either may be replaced or is missing and not reserved. |
| SchemaReset.RestorableIff | src/standalone/database-lock.ts:232-239 | A schema may be replaced exactly if it exists, this role may empty it and its name is not reserved. |
| SchemaReset.ManagedIff | src/standalone/database-lock.ts:120-150 | The reserved names, one by one, and those that start with pg_. |
| SchemaReset.MayResetIff | src/standalone/database-lock.ts:292-317 | A reset may go ahead exactly if no named schema is reserved or another role's and every object to be dropped is of a known type. |
| SchemaReset.EmptiedAt | src/standalone/database-lock.ts:298-317 | Afterwards each target is empty and has kept its owner and grants, and nothing else has changed. |
| SchemaReset.CapturedIff | src/standalone/database-lock.ts:232-239 | A checkpoint captures the objects of just the schemas that may be replaced. |
| SchemaReset.DropRanks | src/standalone/database-lock.ts:208-229 | The rank of each kind of object, and that no other kind has one. |
| SchemaReset.StatementsExact | src/standalone/database-lock.ts:270-286 | The statements exist exactly if every object type is known, and are then the one order that sorts by rank and keeps the catalog's order within a rank. |
| SchemaReset.StableOrderIsUnique | src/standalone/database-lock.ts:280-281 | There is only one such order. |
| RestoreBackup.RestoreBackupStandalone | src/standalone/restore-standalone.ts:200-315 | Nothing in the target changes unless the file matched its checksum and decoded to the end; then what changes was emptied or is in the archive; it succeeds exactly when it can, leaving the emptied database filled from the archive, and otherwise says what was wrong. |
| RestoreBackup.RunPipeline | src/standalone/restore-standalone.ts:244-256 | Running the stages in order is decoding. |
| RestoreBackup.Load | src/standalone/restore-standalone.ts:260-311 | The restore tool touches only schemas of the archive, however it ends. |
| RestoreBackup.FilledAt | src/standalone/restore-standalone.ts:260-311 | What a complete restore leaves in each schema: what it held and what the archive adds, or a new schema with just that. |
| RestoreBackup.VersionedDecodesIff | src/standalone/restore-standalone.ts:317-370 | An encrypted versioned file gets past the verification if and only if the key has 32 bytes, the file is authentic for it and, where it is compressed, what it holds decompresses. |
| RestoreBackup.GoodFileDecodes | src/standalone/restore-standalone.ts:317-370 | It then decodes to its plaintext, decompressed if asked for. |
| RestoreBackup.OtherFilesDecode | src/standalone/restore-standalone.ts:317-370 | Any other file: one that is not encrypted is decompressed or taken as it is; an encrypted one without the mark goes through the legacy cipher with a key of 32 bytes. |
| RestoreBackup.FingerprintAlsoInStream | src/standalone/restore-standalone.ts:343-356 | The early look at the fingerprint refuses nothing that the stream would accept. |
| Undo.Machine.RestoreCheckpoint | src/changes/restore.ts:23-102 | Nothing changes and nothing is recorded unless confirmed, and the checkpoint is readable, names itself, belongs to this database, lists only schemas that this role may replace and fits the key; the present state is saved and recorded first; only the checkpoint's schemas change; it succeeds exactly if every check passes and no effect fails, the save of the outcome included, and they then hold exactly its content. |
| Undo.Machine.Check | src/changes/restore.ts:27-99 | Goes on exactly if no check refuses and no effect fails, leaving no trace; the checks are spelled out. |
| Undo.Machine.MayStartIff | src/changes/restore.ts:27-99 | The checks, in terms of the manifest, the key and the database. |
| Undo.ReadProblemIff | src/changes/storage.ts:120-165 | A checkpoint can be read exactly if its manifest is there and sound, names itself and belongs to this database; a missing one is told apart. |
| Undo.HoldsIff | src/changes/restore.ts:51-67 | A checkpoint holds what its file, sound by its checksum and decoded as the manifest says, archives. |
| Undo.Machine.SaveBefore | src/changes/restore.ts:50-99 | Checks, checkpoint and record come before anything is replaced. |
| Undo.Machine.Restore | src/changes/restore.ts:51-67 | The restore itself changes only the schemas of the checkpoint. |
| Undo.UndoOfUndo | src/changes/restore.ts:33-74 | Undoing an undo puts every schema that the first undo saved back exactly, touches no other, and restores the whole database if and only if the first undo had no schema to create. |
| Undo.RestoredCanBeReplaced | src/changes/restore.ts:75-84 | What a restore left is never refused to the next one. |
| Undo.ReplacedAt | src/changes/restore.ts:57-65 | A replaced schema holds the checkpoint's objects, keeps its owner and grants if it existed, and all others are unchanged. |
| Undo.Machine.SaveCheckpoint | src/changes/storage.ts:71-121 | After success the checkpoint can be read and restored to exactly what the scope holds; nothing saved before is touched. |
| Undo.SavedCanBeRestored | src/changes/storage.ts:78-107 | The file of a backup decodes to its content, compressed or not, encrypted or not. |
| Undo.SavedIsInScope | src/changes/storage.ts:93-107 | And holds exactly the schemas its manifest lists. |
| ChangeHistory.ReadHistory | src/changes/history.ts:31-62 | The newest merged changes, each once, newest first; whatever the limit leaves out is older. |
| ChangeHistory.CloudAddsAndMarks | src/changes/history.ts:40-51 | A record of this machine is kept, a change known to the cloud is marked, one known only there is added. |
| ChangeHistory.MachineEntries | src/changes/history.ts:32-34 | Every record of this machine is in the merge as it is. |
| ChangeHistory.SortNewestFirst | src/changes/history.ts:24-27 | All entries, each once, by time and then identifier, newest first. |
| ChangeHistory.NewerIff | src/changes/history.ts:24-27 | By time, and by identifier where the times are equal. |
| ChangeHistory.FindUndoTarget | src/changes/history.ts:78-100 | The newest of the first twenty changes whose checkpoint can be read; exactly the newer ones are reported, with reasons. |
| ChangeHistory.ReadableFirstIsFound | src/changes/history.ts:78-100 | If the newest change's checkpoint can be read, it is the target and nothing is passed over, and conversely. |
| ChangeHistory.LatestComesFirst | src/changes/history.ts:59-59 | A change later than all others comes first. |
| ChangeHistory.RecordedLastIsLatest | src/changes/history.ts:31-62 | With increasing times the change recorded last is the latest of the merged history. |
| Undo.Machine.Undo | src/cli/commands/undo.ts:13-55 | Takes the newest of the first fifty merged changes whose checkpoint can be read, within a search of twenty, restores exactly that one, and succeeds exactly if that can be restored and no effect fails; nothing is replaced or recorded unless every check passes. |
| Undo.Machine.LatestIsTaken | src/cli/commands/undo.ts:13-31 | If the latest change's checkpoint can be read, it is the one that undo takes. |
| Undo.Machine.UndoLatest | src/cli/commands/undo.ts:21-55 | If the latest change's checkpoint holds some content, undo puts exactly that back. |
| Undo.Machine.UndoTwice | src/cli/commands/undo.ts:11-55 | Two successful undos in a row give every schema saved by the first back exactly as it was, and everything if and only if the first had none to create; both do succeed if the first can and no effect fails. |
| RecycleBin.SafeStorage.DeleteObject | src/storage/safe-storage.adapter.ts:91-113 | Which calls are refused, limited or carried out; a soft delete only passes through the stores of DeleteStates, with a failure possible before or after every effect. |
| RecycleBin.SafeStorage.MoveToTrash | src/storage/safe-storage.adapter.ts:158-187 | Copy, then sidecar, then removal: every store on the way is one of DeleteStates. |
| RecycleBin.TrashNames | src/storage/safe-storage.adapter.ts:158-187 | The names of the copy and of its sidecar. |
| RecycleBin.SafeStorage.RestoreFromTrash | src/storage/safe-storage.adapter.ts:115-132 | Restoring passes only through RestoreStates; without a usable sidecar nothing changes. |
| RecycleBin.SafeStorage.HardDelete | src/storage/safe-storage.adapter.ts:189-201 | Removes exactly the key, and only if permitted. |
| RecycleBin.HardDeleteIff | src/storage/safe-storage.adapter.ts:189-201 | Removing for good asks for a sound key within an allowed prefix or in the trash. |
| RecycleBin.SafeStorage.PurgeTrash | src/storage/safe-storage.adapter.ts:134-156 | Removes only expired trash objects and their sidecars; when it completes, all expired ones are gone and counted once; without failing effects it completes exactly if every expired key may be removed, and the store has then lost exactly those keys and the sidecars that may be removed. |
| RecycleBin.SafeStorage.PurgeOne | src/storage/safe-storage.adapter.ts:147-151 | One expired object: first the object, then its sidecar. |
| RecycleBin.ExpiredMeans | src/storage/safe-storage.adapter.ts:134-148 | What has expired: the objects of the trash, sidecars aside, last modified more than so many days of 86400000 milliseconds ago, by default as the policy says. |
| RecycleBin.DeleteNeverLoses | src/storage/safe-storage.adapter.ts:158-187 | At every crash point of a delete the bytes are readable under the original or the trash key, the sidecar names the original once it is gone, and nothing else changes. |
| RecycleBin.RestoreNeverLosesIff | src/storage/safe-storage.adapter.ts:115-132 | At every crash point of a restore the bytes are readable under one of the two keys, exactly unless the sidecar names the trash copy or itself and the removal is permitted. |
| RecycleBin.RestoreUndoesDeleteIff | src/storage/safe-storage.adapter.ts:91-187 | With a fresh stamp, delete followed by restore is the identity on the store if and only if the trash key and its sidecar key pass the checks. |
| RecycleBin.RestoreUndoesDeleteForKey | src/storage/safe-storage.adapter.ts:91-201 | Which is the case exactly for keys that leave room for prefix, stamp and suffix within 1024 UTF-16 code units and do not end with a dot. |
| RecycleBin.StampChars | src/storage/safe-storage.adapter.ts:162-165 | The characters of a time stamp in a trash key. |
| RecycleBin.ExtendedKeyPasses | src/storage/deletion-guard.ts:68-111 | Exactly when a valid key stays valid between a prefix and a suffix. |
| RecycleBin.KeyErrorIff | src/storage/deletion-guard.ts:68-138 | The check of a key reports the first thing that is wrong with it, in plain terms and in the order of the code, and nothing exactly if nothing is wrong. |
| JsStrings.Utf16LengthIsOfText | src/storage/deletion-guard.ts:84-86 | Lengths count the units of the UTF-16 form. |
| JsStrings.SpaceIff | src/storage/deletion-guard.ts:77-82 | White space, code point by code point. |
| RateLimiter.DeletionRateLimiter.Record | src/storage/deletion-guard.ts:148-162 | Accepts or refuses and updates the queue. |
| RateLimiter.RefusedIffWindowFull | src/storage/deletion-guard.ts:148-162 | For a clock that does not go back, a call is refused exactly if max accepted calls lie in the closed window ending now. |
| RateLimiter.EveryWindowIsBounded | src/storage/deletion-guard.ts:148-162 | And every closed interval of the window's length holds at most max accepted calls. |
| RateLimiter.BoundForAnyClockIff | src/storage/deletion-guard.ts:148-162 | For a clock of any kind the bound on every window holds for all sequences of calls if and only if the limit is at most one. |
| RateLimiter.RockingIsAccepted | src/storage/deletion-guard.ts:148-162 | With a limit of two or more, a clock that jumps ahead and back lets any number of calls into one window. |
| RateLimiter.NeedlessRefusal | src/storage/deletion-guard.ts:148-162 | A call earlier than one before it is refused although its window is not full, for a limit that is reached and a window wide enough. |
| RateLimiter.RefusalRuleIff | src/storage/deletion-guard.ts:148-162 | The rule for refusals holds for every limit, window and call if and only if the clock never goes back. |
| RateLimiter.EvictionLeavesTheWindow | src/storage/deletion-guard.ts:149-152 | After eviction the queue holds exactly the accepted calls of the window. |
| PgPass.ParsePgPassLine | src/config/pgpass.helper.ts:38-77 | The loop over the line computes the parsed entry. |
| PgPass.EntryIff | src/config/pgpass.helper.ts:38-77 | A line is an entry exactly if, trimmed, it is neither empty nor a comment and has four unprotected colons; the fields are in their order. |
| PgPass.ParseOfCreated | src/config/pgpass.helper.ts:38-149 | For all fields: what parsing a created entry yields, exactly. |
| PgPass.RoundTripIff | src/config/pgpass.helper.ts:38-149 | The round trip is exact if and only if the host does not start with space or #, and the password does not end with space. |
| PgPass.EscapeIsProtected | src/config/pgpass.helper.ts:139-149 | Escaping puts a backslash before exactly the colons and backslashes. |
| PgPass.FieldsOfLine | src/config/pgpass.helper.ts:43-66 | Splitting a line of escaped fields gives the fields. |

## Left out

Whole areas:

- Command-line prompts, tables and messages, logging, alerts, e-mail, HTTP, OAuth, credential
  files and the storage adapters: effects that succeed or fail.
- DDL generation, type coercion, junction-table heuristics, retention policy, cron validation
  and configuration merging: they would only add easy members.
- `migrateCollection` counts and the per-document fallback of the MongoDB migration: nested
  rows may be written twice there, so no theorem is stated.
- The MySQL variants of lock, reset and undo: the database is the only schema there and the
  drops are not in a transaction.
- The legacy CBC cipher, beyond being a parameter of the restore.
- `resolveConflicts`, `linkProject`, `syncStatus` and `syncRecords`: thin wrappers.
- `atomicJson`: writing a temporary file and renaming it is one effect that happens or not.
- The lock object's `closed` and `lostConnection` flags: a closed or lost connection refuses
  a reset before anything is sent.

Weaker than the code or than one might wish:

- CloudSync.SyncClient.Drain: models one process on a machine; what several processes do to
  the saved file is in SharedState, not connected to the protocol.
- CloudSync.SyncClient.SyncPush: reads the clock once for the whole drain, where the code
  reads it again for each failed attempt.
- SyncProtocol.StepInv: `stateHash` is passed along uninterpreted, since no decision uses it.
- CanonicalJson.CanonicalIff: does not model numbers beyond their JSON text, integer-like
  keys that JavaScript lists first, or the key `__proto__`.
- RedisFrames.Dump: models times to live as 64-bit integers; the rounding of JavaScript
  numbers beyond 2^53 when they are read back is not modelled.
- BackupStreams.Decrypt: the streams look at the version byte but not at the magic, as in
  the code; the dispatch that checks the magic first is in RestoreBackup.DecodeStages.
- RestoreBackup.RestoreBackupStandalone: covers the restore that empties its target first;
  without that the program restores while decoding, and nothing is verified beforehand. The
  file is assumed not to change between the two readings.
- RestoreBackup.Load: the exit code rules for harmless warnings are not modelled, and a
  strict success counts as complete.
- SchemaReset.Session.EmptyTargets: empties the schemas in any order, not the listed one.
- GuardedChange.ChangeNeedsCheckpoint: one target and one lock name.
- GuardedChange.Run.RunGuardedChange: the texts of records, their secrets and the summary
  are not modelled.
- Undo.Machine.RestoreCheckpoint: Postgres only; extensions, the text of a manifest and the
  state of a record are not modelled.
- Undo.Machine.UndoTwice: assumes increasing times, unique identifiers and no other writer;
  a failed second undo is covered by Undo.Machine.RestoreCheckpoint.
- ChangeHistory.SortNewestFirst: identifiers and times are numbers in the order of their
  texts.
- FieldScan.TallyDescribes: the sample values are kept as they are, without shortening.
- BulkInsert.CopyTableData: the waiting between two attempts and the texts by which an error
  counts as a lost connection are not modelled.
- RecycleBin.SafeStorage.PurgeTrash: the inner store is a plain map; an adapter that removes
  sidecars by itself is not modelled.
- RecycleBin.ExtendedKeyPasses: keys are sequences of whole characters; unpaired surrogates,
  which JavaScript strings can hold, are not modelled.
- PgPass.ParsePgPassLine: the search for the matching line of a file is not modelled.
