# BemiDB in Dafny: synchronisation, wire protocol, query walk

BemiDB copies Postgres tables into Iceberg tables and answers Postgres clients from them with DuckDB. This
project models the parts of it that keep state across steps, and proves what those steps keep. Verify it with
`dafny verify dfyconfig.toml` (Dafny 4.11).

## The modules

Synchronising a table

- `Checkpoint`: the record stored beside a table, and the rule that makes the next refresh a continued one.
- `TxidWindow`: which rows one COPY statement selects and in which order, on raw 32-bit transaction ids, against
  the 64-bit ids they stand for.
- `RowMatch`: the merge condition and the rows that survive a merge.
- `CappedBuffer`: the bounded pipe between the COPY goroutine and its reader, as a monitor and as a transition
  system over any number of threads.
- `CopyStream`: batches of rows, the watermark, and the checkpoint that belongs to them. All metadata values of a sync
  point to one watermark cell, as in the source.
- `Loader`: the reading end of one COPY. A run of the capped buffer says what all threads do; the reader takes the bytes
  that its reads return, decodes them, and after the last one asks the buffer for its close error.
- `Lake`: the files of an Iceberg table (data files, manifests, manifest lists, metadata versions), what a reader
  of the current snapshot sees, and the accounting.
- `Storage`: the operations that write and re-read those files. The object records in a ghost field every state of
  the table that a crash could have left behind.
- `Attempt`: one sync attempt as a reader sees it: the states it can leave.
- `Merge`: which existing files stay, go or are rewritten when a chunk comes, and what the manifest lists written on the
  way say about it.
- `IcebergWriter`: the chunk loop with its merge of older files, its sequence numbers and its order of commits.
- `SyncRuns`: the source database, transactions in flight, and attempts that finish, are aborted or crash at any
  state; the invariant that makes the stored checkpoint safe to resume from.
- `Resume`: interrupted against uninterrupted refreshes, and the exact conditions of the cases that fail.
- `ResumeExamples`: a concrete run for each of those cases, in which a row is lost.
- `Syncer`: a single attempt and the bounded retries around it, on the imperative writer and the buffer.

Serving a client

- `Exchange`: simple queries and the extended query protocol (PostgreSQL documentation, chapter "Frontend/Backend
  Protocol", section "Message Flow", subsection "Extended Query") as transitions on values. A message carries how
  the database reacts to it, so that a sequence of messages determines the conversation.
- `ExchangeProofs`: what holds of every sequence of messages.
- `ExchangeReplies`: what the replies contain, and exactly when they are errors, in terms of the messages alone.
- `Postgres`: the receive loops and the handlers that update a prepared statement in place, proved to follow
  `Exchange`.

Adapting a query

- `QueryTree`, `FunctionRemapper`: the syntax tree the walk looks into, and the rewriting of one function call.
- `QueryResolution`: what the walk is meant to compute, with the visible WITH names passed down as an argument.
- `QueryWalk`: the walk itself, with its stack of scopes that is pushed, grown and popped.
- `QueryScopes`: what happens to every single place of a query, named by its path from the root, without the functions
  that compute it.
- `QueryRevisits`: the walk visits nested calls more than once; when that equals one pass from the top down.

## What is proved

1. Whatever moment the process dies at, the table and its checkpoint are one of the states that an attempt may show:
   the older table overridden, key by key, by the chunks committed so far, with the checkpoint of the last chunk or
   of the one before it (`IcebergWriterTable.Write`, `Attempt.TableIsOverridden`, `Attempt.TableHasUniqueKeys`). The
   k-th manifest list carries number k, the current one starts with the highest number and holds only live files
   with distinct numbers, and the running totals count exactly what a reader finds (`Lake.Consistent`,
   `Lake.TotalsAreConserved`).
2. Over every run of transactions, attempts, aborts, crashes and retries: if the stored checkpoint makes the next
   refresh a continued one, every source row up to its watermark is in the table with its current value
   (`SyncRuns.ResumeInvariant`). This covers chains of incremental windows, across wraparounds. On a source that
   stands still, an interrupted refresh ends with the rows of an uninterrupted one
   (`Resume.InterruptedEqualsUninterrupted`). The two are joined to the code that writes: when one database answers all
   statements of the imperative retry loop, under the conditions listed below, the loop leaves a state to resume from
   again, and a table that it reports as synced mirrors the source (`SyncerTable.SyncTableWithRetry`). An attempt is made
   exactly when the setup succeeds and the statement is not refused, and made again exactly after a retryable failure, up
   to four times.
3. Under every interleaving the capped buffer loses, duplicates and reorders nothing, keeps its cap and its first
   close reason, reports the end only when drained, and no thread sleeps through a change that would let it proceed.
   Therefore a refresh is marked as completed only if the first close was a clean one and every byte that COPY wrote is
   decoded and in the table (`Syncer.CompletedMeansEveryByte`). A read gets the first bytes, never more than it asked for,
   and a write is accepted as a whole exactly when it fits.
4. For every message sequence: one ReadyForQuery for each handled Sync and each simple query; one ErrorResponse and then
   silence until Sync; nothing left open in the driver, wherever the conversation stops; one successful planning for
   each Parse; results that are fresh, read once, and hold what the database answered. Each message fails exactly under
   the conditions stated, and the rows of a simple query are those of its statements, in order.
5. The walk leaves a table reference alone if and only if it is unqualified and some SELECT on the path to it binds its
   name (`QueryScopes.ReferencesAreResolved`); it rewrites every call it comes to and keeps everything else. It restores
   its stack on every return, and terminates although it rewrites the tree it is walking over.

## Where the code does not do what one would expect

Each item is a theorem that gives the exact condition, and names an input on which the code fails.

- A new full refresh of a table that had a watermark, aborted before its first row, commits the empty table and keeps
  the old watermark: `maxXmin` is seeded from it (src/syncer_table.go:105-108). The attempt that resumes this full
  refresh starts at that watermark, and ends with the whole source in the table if and only if no row of it lies before
  (`Resume.EmptyAbortIsCompleteIff`; a table that was complete before loses a row in
  `ResumeExamples.EmptyAbortLosesEverythingBefore`).
- A full copy has no upper bound, but the window that resumes it ends at the raw id of the current transaction. Source
  rows above it are never read by the resumed attempt (`Resume.ResumedFullCopyIsCompleteIff`,
  `ResumeExamples.ResumedCopyLosesTheOlderEpoch`). For the same reason a full copy sorts by raw ids, which is
  transaction order only within an epoch (`TxidWindow.FullCopyOrderIsLogicalIff`).
- Rows that transactions commit after a full copy during which they were in flight are in the table after the next
  window if and only if none of them is at or below the watermark of the copy (`Resume.NextWindowMissesNoneIff`,
  `ResumeExamples.NextWindowMissesTheLateRow`).
- Even when the watermark is not above the oldest transaction in flight, it can name that transaction: a row of an earlier
  epoch may show the same raw id. That transaction's rows are then missed, and no others
  (`Resume.OnlyAnAliasIsMissedIff`, `ResumeExamples.NextWindowMissesTheAlias`).
- A current transaction id of exactly 2^32 is not recognised as wrapped around, and the sync panics on every legitimate
  watermark but zero (`TxidWindow.ContinuedWindowPanicsIff`).
- A write that is larger than the whole buffer, and a reader, wait for each other for ever
  (`CappedBuffer.StuckIffTooLarge`, `CappedBuffer.StuckRun`).
- An error of the driver in the middle of a result is not looked for, so that a truncated result is answered as a
  complete one (`ExchangeProofs.TruncatedResultIsAnswered`); `FreshResult` in `ExchangeProofs.ExecuteIsFresh` says when a
  result is complete.
- `bemidb_last_synced_at` with a second, constant text argument is rewritten twice when it is nested: the result of the
  first rewriting is taken for the Postgres `to_timestamp` (`FunctionRemapper.SecondVisit`,
  `QueryRevisits.SelectVisitedTwice`, `QueryRevisits.NestedStampIsVisitedTwice`).

Reading a manifest list back forgets which items were deletions; this is harmless because the current list never has any
(`Storage.ReadBackIff`, `IcebergWriterTable.ReadBackItems`).

## What the runs assume

`SyncRuns.SoundConditions` lists, for each attempt: fewer than 2^32 transactions since the watermark of a continued
refresh; no row from an earlier epoch whose raw id is that of the current transaction (`NoAlias`; the section above has
the run that fails without it); for a new full copy, no row newer than the oldest transaction in flight, and raw ids that
are all at or below the current one if the copy is left in progress; and not the empty abort described above.
`incrementalRefresh` is constant for a table. A primary key is unique in the source; a table without one may hold equal
rows, and then the table and the source have the same rows, not the same number of copies. Ids of files and snapshots are
fresh. The query of a merge returns its rows in the same order for every page. One goroutine reads the buffer until it is
told about the end, and a CSV record does not change when more bytes follow it.

## Model

| member | source | states |
|---|---|---|
| TxidWindow.LogicalTxidIsMonotone | src/utils.go:153-159 | the 64-bit id behind a raw xmin never moves back as the current transaction advances |
| TxidWindow.ContinuedWindowIsLogicalInterval | src/syncer_table.go:196-245 | both continued statements select exactly the transactions after the watermark, from it while in progress, up to the current one, wraparound or not |
| TxidWindow.ContinuedOrderIsLogical | src/syncer_table.go:212-236 | both ORDER BY clauses sort by the 64-bit ids |
| TxidWindow.FullCopyOrderIsLogicalIff | src/syncer_table.go:246-254 | the full copy orders a pair of rows by transaction if and only if the current raw id does not separate them |
| TxidWindow.ContinuedWindowPanicsIff | src/syncer_table.go:196-245 | among watermarks some transaction can have left, the statement is refused only when the current id is 2^32 |
| RowMatch.RowMatchConditions | src/storage_utils.go:1239-1251 | plain equality on the primary key, NULL-safe equality on every column of a keyless table, and nothing else |
| RowMatch.MatchesIffSameKey | src/storage_utils.go:1232-1251 | the merge condition holds if and only if the keys are equal |
| RowMatch.SurvivingMembers | src/storage_utils.go:1253-1265 | a row survives a merge if and only if no row of the chunk replaces it |
| Loader.ToldMeansAll | src/capped_buffer.go:73-83 | once a read has reported the end, the bytes delivered are all the bytes ever accepted, and the buffer's close error is the reason of the first close |
| Loader.CsvReader.Read | src/syncer_table.go:115-122 | the next record of what COPY wrote, whatever the threads do meanwhile; none only when all are read and the buffer has reported its end |
| Loader.CsvReader.CloseError | src/capped_buffer.go:122-128 | after the end was reported, the error is there if and only if COPY was aborted |
| Loader.RowLoader.LoadRows | src/syncer_table.go:111-169 | a batch is the next rows of the stream, a full one or all that are left, the watermark is the xmin of the last of them, and the end is reached only by a clean COPY |
| Loader.RowLoader.StoredIsCurrent | src/syncer_table.go:145-168 | although metadata values share one watermark variable, what is stored right after a batch is the checkpoint of that batch |
| CopyStream.NextRefreshContinuesIff | src/syncer_table.go:33-35 | with the mode and watermark that an attempt stores, the next refresh is continued if and only if there is a watermark and it is incremental, or the attempt was an interrupted full one |
| Attempt.NextChunk | src/iceberg_writer_table.go:99-113 | a chunk's table is committed first and its checkpoint follows, and both states are among those an attempt may show |
| Attempt.TableIsOverridden | src/iceberg_writer_table.go:81-109 | the table after some chunks is the older table overridden, key by key, by what was delivered |
| Attempt.TableHasUniqueKeys | src/iceberg_writer_table.go:81-109 | no key is in two live files |
| Syncer.CompletedMeansEveryByte | src/syncer_table.go:115-166 | a refresh is marked as completed only if the first close was clean, and every byte accepted from COPY was delivered, decoded and put in the table |
| Storage.SummaryOfOverwrite | src/storage_utils.go:1014-1038 | the list of a rewritten file is labelled overwrite and counts one file added and one removed, with their records and bytes |
| Storage.SummaryOfHead | src/storage_utils.go:1014-1038 | any other list is labelled by its head and counts it alone |
| Storage.ReadBackIff | src/storage_utils.go:497-525 | dropping the deleted flag on reading a manifest list loses nothing if and only if the item was no deletion |
| Storage.Storage.WriteParquetFile | src/storage_utils.go:557-602 | a data file takes full batches of the stream and ends with the first one that brings the payload to a positive threshold, or when the rows run out; the metadata returned describes its last row |
| Storage.Storage.CreateParquet | src/storage_local.go:143-182 | the file is new, holds exactly the rows read from the stream, and is filled up to the threshold |
| Storage.Storage.WriteOverwrittenParquetFile | src/storage_utils.go:647-699 | the LIMIT/OFFSET loop returns each surviving row exactly once, in order |
| Storage.Storage.CreateOverwrittenParquet | src/storage_local.go:188-234 | no file at all if and only if no key is shared, else a new file with the surviving rows |
| Storage.Storage.CreateManifest | src/storage_local.go:241-252 | the manifest of one added data file, under a new snapshot id |
| Storage.Storage.CreateDeletedRecordsManifest | src/storage_utils.go:883-939 | the existing entry marked as deleted, with its old snapshot id and counts |
| Storage.RecordsAddUp | src/storage_utils.go:951-989 | the records of any list count as many files and rows added and deleted under a number as its summary |
| Storage.Storage.WriteManifestListFile | src/storage_utils.go:941-1039 | the records of the items, and a summary of those with the number of the head, which counts what their records say |
| Storage.Storage.CreateManifestList | src/storage_local.go:272-283 | the list is stored under the snapshot id of its head and the uuid of the first file of the sync, and its records add up to its summary |
| Storage.Storage.WriteMetadataFile | src/storage_utils.go:1041-1153 | one snapshot for each list with the running totals up to it, the last list current |
| Storage.Storage.CreateMetadata | src/storage_local.go:285-297 | committing changes the metadata and nothing else; every snapshot names the one before it as its parent |
| Storage.Storage.WriteInternalTableMetadata | src/storage_local.go:339-351 | the checkpoint stored is what the shared watermark is at that moment |
| Storage.Storage.ExistingManifestListFiles | src/storage_utils.go:443-495 | reading the metadata back gives the lists it was written from |
| Storage.Storage.ExistingManifestListItems | src/storage_utils.go:497-525 | the items of a stored list, without deleted flag and data size |
| Lake.UndisturbedKeepsView | src/iceberg_writer_table.go:66-109 | files written before the commit are invisible to a reader of the table |
| Lake.TotalsAreConserved | src/storage_utils.go:1053-1085 | the running totals of the current snapshot count the files and rows that a reader finds |
| Merge.Reverse | src/utils.go:107-116 | the same items in the opposite order |
| Merge.PathsAfterMerge | src/iceberg_writer_table.go:136-194 | every step of a merge removes an original file, and what is there afterwards is exactly what was kept or came as a replacement |
| Merge.MergeStateReplaced | src/iceberg_writer_table.go:152-191 | a file with replaced rows goes or is rewritten, and the contents, the numbers, the totals and the lists of the merge go on to agree |
| Merge.MergeStateKept | src/iceberg_writer_table.go:144-149 | so they do when a file that shares no key with the chunk is kept |
| IcebergWriter.MergedIsDistinct | src/iceberg_writer_table.go:136-194 | after a merge all live items still have distinct sequence numbers |
| IcebergWriter.MergedIsAccounted | src/iceberg_writer_table.go:136-194 | after a merge lists are still numbered one by one and what they changed adds up to the live files |
| IcebergWriter.AppendedIsAccounted | src/iceberg_writer_table.go:96-107 | so it is after the file of the chunk is added |
| IcebergWriter.CurrentTable | src/iceberg_writer_table.go:103-109 | the committed table is the chunks, latest first, and what they left of the older rows |
| IcebergWriter.CommittedIsConsistent | src/iceberg_writer_table.go:99-109 | what is committed satisfies the consistency of numbers, head, totals and live files |
| IcebergWriter.IcebergWriterTable.DeleteFile | src/iceberg_writer_table.go:152-171 | a file with no surviving row goes, in a stored list of exactly the deletion and the other files, latest first; the record of the deletion counts one file and all its rows as deleted under the old snapshot id, and the summary agrees |
| IcebergWriter.IcebergWriterTable.OverwriteFile | src/iceberg_writer_table.go:172-191 | the surviving rows move to a new file under one new number, in a stored list of exactly two records: the new file with its rows, and the old one with all its rows deleted; the summary agrees |
| IcebergWriter.IcebergWriterTable.MergeFile | src/iceberg_writer_table.go:136-192 | an existing file meets the fate that befits it, and the state of the merge advances by it |
| IcebergWriter.IcebergWriterTable.OverwriteExistingFiles | src/iceberg_writer_table.go:119-195 | every existing file is kept if and only if no key is shared, else dropped or rewritten with its surviving rows; the files in hand are the original ones with those fates, the k-th list describes the k-th file replaced, and nothing a reader sees has changed |
| IcebergWriter.IcebergWriterTable.AppendFile | src/iceberg_writer_table.go:96-106 | the next sequence number goes to the new file, at the head of the new list |
| IcebergWriter.IcebergWriterTable.CommitFile | src/iceberg_writer_table.go:96-109 | the commit makes the chunk and the merged files the table, and leaves it consistent |
| IcebergWriter.IcebergWriterTable.WriteChunk | src/iceberg_writer_table.go:76-115 | one round of the loop: merge, commit, checkpoint; every state in between is one the attempt may show |
| IcebergWriter.IcebergWriterTable.LoadExisting | src/iceberg_writer_table.go:41-51 | a continued refresh starts with the live items and the highest number of the table |
| IcebergWriter.IcebergWriterTable.ReadBackItems | src/iceberg_writer_table.go:45-49 | the items parsed from the current list are live and distinct: no deletion was among them |
| IcebergWriter.IcebergWriterTable.Write | src/iceberg_writer_table.go:32-117 | it terminates with the whole stream in the table, in files filled up to the payload threshold; every state of table and checkpoint on the way is one the attempt may show; an empty file is committed only by a new refresh that delivered no row |
| SyncRuns.NotReturned | src/syncer_table.go:196-236 | a row that a continued statement does not return is in the table already, or newer |
| SyncRuns.TransactionKeepsInvariant | src/syncer_table.go:343-350 | transactions of the source cannot invalidate the checkpoint: new versions get ids above it |
| SyncRuns.AttemptKeepsInvariant | src/syncer_table.go:33-181 | nor can an attempt, left at any of its states |
| SyncRuns.ResumeInvariant | src/syncer_table.go:34-169 | over every run, with or without a primary key, rows up to the watermark of a resumable checkpoint are in the table with current values, and no transaction that can still commit lies there |
| Resume.RetriedRefreshMirrorsSource | src/syncer.go:140-224 | after any number of aborted or crashed attempts, a clean one makes the table mirror the source |
| Resume.InterruptedEqualsUninterrupted | src/syncer.go:140-224 | it ends with the rows of a single uninterrupted attempt, and with each key once if there is a primary key |
| Resume.ResumedFullCopyIsCompleteIff | src/syncer_table.go:208-216 | a resumed full copy is complete if and only if no raw id is above the current one, unless the watermark is; without a primary key an equal row may stand in |
| ResumeExamples.ResumedCopyLosesTheOlderEpoch | src/syncer_table.go:208-216 | a source of two rows whose older one is lost that way |
| Resume.EmptyAbortIsCompleteIff | src/syncer_table.go:105-108 | after a full refresh that was aborted before its first row, the attempt that resumes it ends with the whole source if and only if no row lies before the stale watermark |
| ResumeExamples.EmptyAbortLosesEverythingBefore | src/syncer_table.go:105-108 | a complete table of two rows that ends with one |
| Resume.NextWindowMissesNoneIff | src/syncer_table.go:217-254 | after a completed attempt and a clean continued one, rows of transactions in flight at the first are in the table if and only if each is above its watermark or an equal row is there anyhow; of a keyed table with new contents, if and only if each is above |
| ResumeExamples.NextWindowMissesTheLateRow | src/syncer_table.go:246-254 | a row committed after a full copy that had delivered a newer one, and that the next window leaves out |
| Resume.OnlyAnAliasIsMissedIff | src/syncer_table.go:217-254 | with a watermark that is not above the oldest transaction in flight, exactly that transaction is missed, exactly when the watermark shows its raw id |
| ResumeExamples.NextWindowMissesTheAlias | src/syncer_table.go:217-254 | a watermark of an earlier epoch that hides the row of the transaction in flight |
| Syncer.SyncerTable.SyncPgTable | src/syncer_table.go:33-181 | an attempt is made if and only if the setup succeeds and the statement for the checkpoint on disk is not refused, with the outcome of each case; it leaves only states of the attempt, and succeeds if and only if COPY closed cleanly, which is when the checkpoint is no longer in progress |
| Syncer.RefusedIff | src/syncer_table.go:196-245 | for a watermark that some transaction can have left, the statement of the next refresh is refused only when it is a continued one and the current id is 2^32 |
| Syncer.SyncerTable.SyncTableWithRetry | src/syncer.go:147-229 | a round is followed by another if and only if it failed for a retryable reason and was not the fourth, each resuming from what the one before it left on disk; on a database that stands still and answers them, under the conditions on the source, the invariant of the runs holds afterwards, and a table that counts as synced mirrors the source |
| Syncer.FullRefreshKeepsItsTxid | src/syncer_table.go:68-73 | once an attempt of a full refresh has left a watermark, every later round stores the transaction id of that attempt |
| Syncer.AttemptIsStep | src/syncer_table.go:33-181 | an attempt that puts in the table what COPY wrote is a step of a run, whenever the database answers the statement that the checkpoint on disk leads to |
| CappedBuffer.CappedBuffer.Write | src/capped_buffer.go:33-63 | one pass of a write: refused when closed, blocked when full, else appended with a broadcast |
| CappedBuffer.CappedBuffer.Read | src/capped_buffer.go:65-97 | one pass of a read: blocked when empty and open, the close reason when drained, else the first bytes with a broadcast |
| CappedBuffer.CappedBuffer.CloseWithError | src/capped_buffer.go:99-120 | only the first close sets the reason and broadcasts |
| CappedBuffer.ReadTakesTheFirst | src/capped_buffer.go:65-97 | a read gets the first bytes, as many as it asked for or as there are, and leaves the rest; it sleeps if and only if there are none and the buffer is open |
| CappedBuffer.WriteIsAllOrNothing | src/capped_buffer.go:33-63 | a write into an open buffer is accepted as a whole if it fits and sleeps if not; into a closed one it is refused |
| CappedBuffer.OutcomesFitCalls | src/capped_buffer.go:33-128 | under every interleaving no read returns more than it asked for, no write is accepted in part, and every call gets an outcome of its kind |
| CappedBuffer.StepKeepsInvariant | src/capped_buffer.go:33-128 | every step of every thread keeps the invariant of the buffer |
| CappedBuffer.BytesAreConserved | src/capped_buffer.go:33-97 | bytes accepted are bytes delivered followed by bytes buffered, and the buffer never exceeds its cap |
| CappedBuffer.CloseIsFinal | src/capped_buffer.go:99-128 | the first close reason never changes and nothing is accepted after it |
| CappedBuffer.EndMeansEverything | src/capped_buffer.go:73-83 | a reader told about the end got every byte ever accepted, and the reason of the first close |
| CappedBuffer.SleepersAreBlocked | src/capped_buffer.go:45-59 | no wakeup is lost: the next pass of a sleeping thread would block |
| CappedBuffer.StuckIffTooLarge | src/capped_buffer.go:45-48 | a writer and a reader can sleep at the same time if and only if the payload exceeds the cap |
| CappedBuffer.ReadFreesWriter | src/capped_buffer.go:89-94 | a read with a writer asleep shrinks the buffer and wakes the writer |
| CappedBuffer.WriterGetsThrough | src/capped_buffer.go:45-94 | with one active reader, idle or in a read of any positive size, a write that fits completes |
| ExchangeProofs.EveryConnectionIsSound | src/postgres.go:104-212 | over every message sequence the driver's open objects are those of the current statement, and a nil statement implies a pending error |
| ExchangeProofs.NothingLeaks | src/postgres.go:116-120 | wherever the conversation stops, no driver statement or row set stays open, and no nil statement was dereferenced |
| ExchangeProofs.ReadyForQueryIsCounted | src/postgres.go:176-189 | ReadyForQuery replies equal handled Syncs plus top-level simple queries |
| ExchangeProofs.SilenceUntilSync | src/postgres.go:128-135 | an error is answered by one ErrorResponse alone, then nothing until Sync, which ends the exchange |
| ExchangeProofs.PlannedAtMostOnce | src/query_handler.go:380-394 | a Parse is successfully planned at most once |
| ExchangeProofs.ClosedIsNotReplanned | src/query_handler.go:66-79 | a closed statement is never planned again |
| ExchangeProofs.BindingIsLatest | src/query_handler.go:396-451 | the statement carries the query and variables of the last accepted Parse and Bind |
| ExchangeProofs.ExecuteIsFresh | src/query_handler.go:528-558 | a successful Execute answers with an unread row set of the latest query and variables, the first rows of it in order, and all of them if and only if the driver did not break off |
| ExchangeReplies.ResultsAreAnswers | src/query_handler.go:541-547 | every row set in the driver holds what the database answered to the message that opened it |
| ExchangeReplies.ExecuteReturnsTheAnswer | src/query_handler.go:528-558 | the rows are those of the latest answer, which is that of this Execute unless a described result was waiting |
| ExchangeProofs.TruncatedResultIsAnswered | src/query_handler.go:620-670 | a driver that breaks off after one of two rows is answered as a complete command |
| ExchangeProofs.RowsDoNotSurvive | src/query_handler.go:396-404 | no row set survives a Bind, a Describe, a Close of its portal or statement, or a Sync |
| ExchangeProofs.SyncEndsExchangeIff | src/postgres.go:191-200 | a Sync ends the exchange if and only if it answered an error, a Bind or a Describe before |
| ExchangeProofs.DescribeHasNoDataIff | src/query_handler.go:507-511 | a successful Describe has no data if and only if the query is empty or was not bound |
| ExchangeProofs.RepliesFitMessages | src/postgres.go:137-189 | without a pending error each message gets the replies the protocol has for it, or one error |
| ExchangeReplies.ConversationGoesOn | src/postgres.go:58-87 | the connection ends only with a Terminate or with a message that begins nothing; only a Parse begins an exchange and only a Sync completes one |
| ExchangeReplies.ParseFailsIff | src/query_handler.go:351-372 | a Parse is an error if and only if it cannot be parsed or has more than one statement |
| ExchangeReplies.BindFailsIff | src/query_handler.go:396-451 | a Bind is an error if and only if it names another statement than the last Parse, or a parameter cannot be decoded |
| ExchangeReplies.DescribeFailsIff | src/query_handler.go:486-526 | a Describe is an error if and only if it names another object, or a bound query cannot be planned, run or described; otherwise its answer is determined |
| ExchangeReplies.ExecuteFailsIff | src/query_handler.go:528-558 | an Execute is an error if and only if it names another portal, its result was read before, or planning, running or reading fails |
| ExchangeReplies.OtherNamesAreIgnored | src/postgres.go:155-175 | closing a name that is not the current one is answered and changes nothing |
| ExchangeReplies.SimpleQueryIsAnswered | src/query_handler.go:294-349 | one error if and only if parsing or a statement fails; else, statement after statement, a description exactly for the describable ones, their rows in order, and one CommandComplete |
| ExchangeReplies.SimpleQueryReturnsContents | src/query_handler.go:310-346 | the rows sent are the contents of all results, concatenated |
| ExchangeProofs.StatementOutlivesPortal | src/postgres.go:155-175 | after a portal is closed its statement can be bound and executed again |
| ExchangeProofs.ClosedStatementIsNotExecuted | src/query_handler.go:374-394 | after a statement is closed it can be bound, but executing it is an error |
| Postgres.QueryHandler.ClosePrepared | src/query_handler.go:57-79 | closing is nil-safe, idempotent, and releases rows and statement |
| Postgres.QueryHandler.PrepareStatement | src/query_handler.go:374-394 | planned on first use, reused afterwards, refused once closed |
| Postgres.QueryHandler.HandleParseQuery | src/query_handler.go:351-372 | a nil statement exactly with an error |
| Postgres.QueryHandler.HandleBindQuery | src/query_handler.go:396-451 | old rows are dropped first, and the variables change only on success |
| Postgres.QueryHandler.HandleDescribeQuery | src/query_handler.go:486-526 | old rows are dropped first, and a bound query is run with its variables |
| Postgres.QueryHandler.RowsToDataMessages | src/query_handler.go:620-670 | the loop answers every row that the driver yields, in order, and leaves the row set closed |
| Postgres.QueryHandler.HandleExecuteQuery | src/query_handler.go:528-558 | described rows are used once, otherwise the query is run |
| Postgres.QueryHandler.HandleCloseMessage | src/postgres.go:155-175 | a portal's close keeps the statement bindable, an unknown name is ignored |
| Postgres.QueryHandler.HandleSimple | src/query_handler.go:294-349 | all statements are answered in order, or the first error alone |
| Postgres.Postgres.Dispatch | src/postgres.go:128-175 | one message of an exchange has the effect and the replies of the protocol's transition |
| Postgres.Postgres.HandleExtendedQuery | src/postgres.go:104-212 | the loop follows the transitions from Parse to its end, and releases the statement on every exit |
| Postgres.Postgres.Run | src/postgres.go:58-87 | everything sent is what the messages received deserve, and nothing stays open |
| FunctionRemapper.EncodingsAreRewritten | src/parser_function.go:80-127 | encode and decode, in any schema, with a plain or a cast format: 'hex' and 'base64' become lower(hex(x)), sha256(x), base64(x), unhex(x) and from_base64(x), and any other format is left alone |
| FunctionRemapper.DatesAreRewritten | src/parser_function.go:211-280 | to_char, to_date and the two-argument to_timestamp, in any schema, with any constant format become strftime and strptime; the one-argument to_timestamp stays |
| FunctionRemapper.JsonPathIff | src/parser_function.go:306-313 | a JSON path exists if and only if every part is a constant, non-empty text, and is then their concatenation to "$" with dots |
| FunctionRemapper.PathsAreRewritten | src/parser_function.go:282-320 | a path of any number of constants becomes one JSON path, given one by one, as a variadic array, or as a cast one; any other call is left alone |
| FunctionRemapper.OthersAreRewritten | src/query_remapper_function.go:194-257 | format, cardinality and bemidb_last_synced_at, in any schema and with any arguments, become printf, len and to_timestamp, with NULL for a table never synced; without arguments two of them panic |
| FunctionRemapper.MacrosMoveToMain | src/query_remapper_function.go:171-192 | every macro name is called in the main schema if its schema is one that has it, and left alone in any other |
| FunctionRemapper.OtherCallsAreLeftAlone | src/query_remapper_function.go:171-261 | no other function is touched, nor one of these with another number of arguments or without a constant format |
| FunctionRemapper.ConstantsAreRead | src/parser_function.go:133-142 | a constant text is read plain or through a cast |
| FunctionRemapper.ReplacementsAreFinal | src/query_remapper_function.go:171-261 | what the rewriter produces is not its own input |
| FunctionRemapper.MacrosAreNotSpecial | src/query_remapper_function.go:17-150 | no macro has the name of a function that is rewritten |
| FunctionRemapper.SecondVisit | src/query_remapper_function.go:171-261 | rewriting is idempotent on a call if and only if it is not bemidb_last_synced_at with two arguments and a constant text |
| FunctionRemapper.RewrittenIsSmaller | src/parser_function.go:57-331 | rewriting does not grow the tree, so that the walk over its result terminates |
| QueryResolution.BodySees | src/query_remapper.go:165-186 | a query of a WITH clause sees the earlier names, all of them under RECURSIVE |
| QueryWalk.QueryRemapperWalk.RemapNestedFunctionCalls | src/query_remapper_function.go:263-281 | nested calls are rewritten down to the first that is handled |
| QueryWalk.QueryRemapperWalk.RemapTable | src/query_remapper.go:411-423 | a reference is left alone if and only if it is unqualified and in some scope of the stack |
| QueryWalk.QueryRemapperWalk.RemappedCall | src/query_remapper.go:378-390 | a call is rewritten, its nested calls visited, and then its arguments |
| QueryWalk.QueryRemapperWalk.RemappedExpressions | src/query_remapper.go:317-409 | every kind of expression that is looked into resolves as the lexical rules say |
| QueryWalk.QueryRemapperWalk.RemapTableFunction | src/query_remapper.go:425-437 | so do the arguments of functions in FROM |
| QueryWalk.QueryRemapperWalk.RemapFromItem | src/query_remapper.go:206-225 | so do tables, sub-selects and joins to any depth |
| QueryWalk.QueryRemapperWalk.RemapWith | src/query_remapper.go:165-186 | the shared scope on top of the stack, growing on the way, gives each query its lexical scope |
| QueryWalk.QueryRemapperWalk.RemapSelectStatement | src/query_remapper.go:164-249 | the walk over the mutable stack computes what the environment-passing rules say, and leaves the stack as it was |
| QueryScopes.PlacesAreResolved | src/query_remapper.go:164-249 | wherever the walk comes, it resolves what is there with exactly the names bound along the path |
| QueryScopes.ReferencesAreResolved | src/query_remapper.go:411-423 | a table reference at any path is left alone if and only if it is unqualified and a SELECT on the path binds its name: from outside its WITH clause, or from a later query of it, or from any under RECURSIVE; else it is replaced |
| QueryScopes.CallsAreRewritten | src/query_remapper.go:378-390 | a call at any path is rewritten, and keeps its arguments as places of their own |
| QueryScopes.IndexedCallsAreRewritten | src/query_remapper.go:392-400 | a call that is indexed is rewritten with its nested calls |
| QueryScopes.NestedCallsAreReached | src/query_remapper_function.go:263-281 | at any depth of directly nested calls, the first that is handled is replaced by its rewriting, and all other arguments stay |
| QueryScopes.OthersAreKept | src/query_remapper.go:164-249 | everything else at any path stays, HAVING and unvisited parts included; only the WHERE clause that psql sends is removed |
| QueryRevisits.CallPasses | src/query_remapper.go:378-390 | visited any number of times, a call ends up rewritten once |
| QueryRevisits.ExprVisitedTwice | src/query_remapper.go:317-409 | repeated visits and the walk together equal one pass if and only if the expression is stable |
| QueryRevisits.SelectVisitedTwice | src/query_remapper.go:164-249 | the walk equals a single top-down pass exactly on SELECTs without a nested call that is stamped twice |
| QueryRevisits.NestedStampIsVisitedTwice | src/query_remapper_function.go:236-257 | a concrete call on which it does not |

## Left out

Synchronisation

- Storage.Storage.CreateParquet: does not model encodings; byte sizes of files are arbitrary, and those of the JSON of rows an arbitrary function.
- Storage.Storage.WriteManifestListFile: does not model Avro encoding, file lengths and timestamps, which are not read back for the merge.
- Storage.Storage.CreateMetadata: the metadata write is atomic; version hints and the table schema in it are not modelled.
- Storage.Storage.WriteOverwrittenParquetFile: every page is cut from one result in one order; the source states no ORDER BY.
- IcebergWriter.IcebergWriterTable.OverwriteExistingFiles: does not describe what a reader of an earlier snapshot sees; the list of a deletion can reuse the file name of an earlier list of the same sync, and lists of rewritten files hold two items only.
- RowMatch.RowMatchConditions: does not model columns that an older data file lacks; all files have the columns of the table.
- Loader.CsvReader.Read: does not model CSV decoding, which is an opaque function that never takes a record back; malformed records panic in the source.
- Syncer.SyncerTable.SyncPgTable: connection losses, sizes of batches and clocks are inputs; what a COPY that fails inside a row leaves of it is up to the opaque decoder.
- Syncer.SyncerTable.SyncTableWithRetry: does not model reconnecting, snapshot ids and back-off; whether an error is retryable is an input.
- Deletions in the source are not propagated by an incremental refresh in the source code either; the invariant speaks of rows that exist.
- Listing schemas and tables, clean-up of dropped tables, table filters, analytics, memory monitoring, S3.
- CappedBuffer.CappedBuffer.Write: one pass of its wait loop; how long it waits depends on the other threads, which the transition system covers. `CloseError` only reads a field.

Serving

- Postgres.Postgres.Run: does not model the startup handshake, nor write errors on the connection.
- Postgres.QueryHandler.HandleBindQuery: does not decode parameters; variables are opaque, and decoding may fail.
- Postgres.QueryHandler.HandleSimple: does not model the UNNEST fallback nor the limit on result bytes; its row sets are closed before it returns and are not recorded.
- Postgres.QueryHandler.RowsToDataMessages: column types, data conversion and command tags are opaque.

Queries

- QueryWalk.QueryRemapperWalk.RemapSelectStatement: the tree is a value; the source rewrites nodes in place.
- QueryWalk.QueryRemapperWalk.RemappedExpressions: does not model the rewriting of casts, operators, collations and column references, which happens node by node on the way.
- QueryWalk.QueryRemapperWalk.RemapTable: what a table is replaced by is opaque.
- QueryWalk.QueryRemapperWalk.RemapFromItem: does not model the change of an outer join on `indclass` to an inner one, nor default aliases.
- QueryWalk.QueryRemapperWalk.RemappedCall: on a call for which the rewriter panics the source abandons the query; the model leaves the call as it is and goes on. Names of three or more parts, which also panic, do not exist in the model.
- FunctionRemapper.SecondVisit: translating format strings and looking up sync times are opaque functions.
- Default target names, VALUES lists, the removal of ORDER BY from ARRAY sub-selects, SET, SHOW and catalog tables.
