# YourSQL: a verified model of its transaction, log and page layers

YourSQL is a single-node SQL engine. This project models the parts of it whose correctness is a matter
of whole runs, and proves what they promise.

* **Transactions** (`Mvcc*`). Transaction table, read views, record heap, undo store and row counts as
  one state; begin, view creation, insert, delete, update, commit and the single turns of a rollback as
  its steps, interleaved in any order by any number of transactions. `MvccHistory` keeps beside the
  state what really happened (who inserted, replaced and deleted each record, who had committed when
  each view was made) and states the inductive invariant; `MvccPreservation` proves that every step
  keeps it; `MvccTheorems`, `MvccSnapshots`, `MvccCounts` and `MvccStatements` hold the results.
  `MvccEngine` is the imperative engine with the loops of the source, each proved against the step
  system. `MvccSizes` says what the sizes of pages do to rows. `MvccUpdateGap` and `MvccLists` let others
  act between the two phases of UPDATE, `MvccTurns` between two records of a scan or a DELETE.
* **Log and recovery** (`LogCodec`, `LogBuffer`, `Recovery`, `Durability`, `Redo`). The log's bytes and
  the scanner; the double buffer shared by a client and the backend thread as a two-thread protocol,
  and the object that carries it out on two arrays; transaction outcomes rebuilt after a crash; the
  LSN-guarded replay on page bytes.
* **Pages** (`Bytes`, `TablePage`, `StaleHeader`, `UndoLog`, `BufferPool`, `TableChain`, `ChainBytes`). The
  slotted page and the undo page byte by byte, and two objects over one page; the pool with its free
  list, pin counts and LRU list, and the chain of a table's pages, both as step systems carried out by
  an object; the iterator along the chain; the chain's pages as bytes.
* **Catalogue** (`MetaPage`, `Catalogue`). Table entries written behind one another, three fields of
  each patched in place, and the maps kept in step with them.
* **Between the layers** (`RecordBytes`, `Simulation`). Every event of the transaction layer has its step
  on page bytes, undo appends and remembered record headers, which decides by reading bytes; every run
  leaves bytes that store the state it leads to; and a scan over those bytes returns that state's scan.
  `Common` holds what several layers share.

Five places where the source falls short of what it promises are kept as they are, each with a concrete
case and the exact condition under which the promise holds.

* An UPDATE makes a concurrent reader meet one row twice (`UpdatedRowIsReadTwice`). A scan is the snapshot
  if and only if no undead record of the table has an unseen writer over a visible oldest version
  (`ScanIsSnapshotExactly`).
* UPDATE writes from the list it collected without another look, so two updaters can write one row
  (`TwoUpdatersCollide`). Writing is the guarded step if and only if the record's DEL flag is still clear;
  otherwise a rollback overwrites the other transaction's deletion (`WriteFromListExact`). Any number of
  statements writing from lists are a run of guarded steps if and only if every write finds the flag clear
  (`MovesAreSteps`).
* A table page takes tuples of up to 4060 bytes, an undo page before-images of up to 4052. A stored row can
  be deleted or updated if and only if it has at most 4052 bytes; with 4053 to 4060 every DELETE and UPDATE
  of it throws (`WritableExactly`, `WideRowStays`). A new version is inserted if and only if it has at most
  4060; beyond that UPDATE deletes the row, inserts nothing and still counts it, and its write set gets an
  entry that names no record, so that its transaction can only be committed (`ReplacedExactly`,
  `UpdateLosesRow`, `LostIsNeverAborted`). `DeleteStatementExact` and `UpdateStatementExact` say how far a
  statement gets.
* Each TablePage object writes back the header it loaded. SetLsn after another object's insert loses the
  inserted row (`InsertIsLost`); it sets the LSN alone if and only if the header, but for the LSN, is still
  the loaded one (`SetLsnExact`).
* AddTable's space check forgets the offset, the column count and the columns, so that a table of 210
  columns written to a new catalogue runs over the page (`GuardTooWeak`, `WideTableOverruns`). `AddTable`
  states exactly when that happens.

The layout comment in `src/include/buffer/meta_page.h` omits the offset and the columns that each
catalogue entry also stores; the code is followed.

## Model

| member | source | states |
|---|---|---|
| MvccPreservation.StepKeeps | src/transaction/transaction_manager.cpp:27-134 | every step of every transaction keeps the invariant tying headers, undo pointers, write sets, views and row counts to what really happened |
| MvccPreservation.RunKeeps | src/transaction/transaction_manager.cpp:27-134 | hence so does every interleaving |
| MvccPreservation.ReachableInv | src/transaction/transaction_manager.cpp:27-134 | every reachable state satisfies the invariant |
| MvccTheorems.WatermarksRefineSnapshot | src/transaction/read_view.cpp:14-54 | the watermark test on an allocated id holds exactly for the view's creator and the ids committed when the view was made |
| MvccTheorems.ViewIs | src/transaction/transaction_manager.cpp:112-134 | a view names everyone else running, the next id, and the smallest id of those running |
| MvccTheorems.IdsCountUp | src/transaction/transaction_manager.cpp:27-36 | transaction ids are handed out one after the other |
| MvccTheorems.VisibilityIsStable | src/transaction/read_view.cpp:14-54 | and its answer is the same in every later state of the view |
| MvccTheorems.WriteConflictUnreachable | src/executor/executor_delete.cpp:70-79 | under a read view neither DELETE nor UPDATE can run into the write-conflict throw |
| MvccTheorems.ExclusiveOwnership | src/executor/executor_update.cpp:112-132 | no step of another transaction changes a record whose header an unfinished transaction wrote last, test and write being one step |
| MvccUpdateGap.WriteFromListExact | src/executor/executor_update.cpp:157-211 | after any steps of others and of the list's other rows between collecting and writing, writing the collected row is the guarded step if and only if the DEL flag is clear or the before-image is refused anyway; if the flag is set, another transaction set it and a rollback overwrites that deletion with the collected version |
| MvccUpdateGap.TwoUpdatersCollide | src/executor/executor_update.cpp:157-211 | two transactions that collected the same row: the second, rolled back, undoes what the first, still running, wrote |
| MvccUpdateGap.WrittenOverDeleted | src/executor/executor_update.cpp:157-207 | writing a collected row that has been deleted leaves record and row count alone, but appends its before-image and inserts and counts the new version |
| MvccLists.MoveExact | src/executor/executor_update.cpp:157-211 | with any number of lists pending, a move of the code is its guarded step if and only if the row it writes has not been deleted since it was collected |
| MvccLists.MovesAreSteps | src/executor/executor_update.cpp:106-211 | an interleaving of collecting, writing from lists and all other steps agrees with the guarded steps throughout if and only if no write meets a deleted row, and then it is a run of the step system |
| MvccLists.WritesAreCollected | src/executor/executor_update.cpp:106-211 | from collecting its rows to its end, whatever others do in between, a statement writes exactly the rows it collected, once each and in order, up to the first refused before-image, as its write set shows; while it is under way its list is what is left of them |
| MvccTheorems.AbortIsARun | src/transaction/transaction_manager.cpp:59-110 | Abort, left alone and with no new version lost, is a run of single rollback turns and the change of state |
| MvccTheorems.RollbackComplete | src/transaction/transaction_manager.cpp:84-110 | whatever other transactions do between the turns, when no write is left to undo every record the transaction inserted is its original marked dead, and no record is deleted by it |
| MvccTheorems.AbortIsExact | src/transaction/transaction_manager.cpp:84-110 | unless a new version was lost, Abort restores the header of every record it deleted, leaves its own inserts dead and changes no other record |
| MvccTheorems.AbortRestoresFirstTouch | src/transaction/transaction_manager.cpp:84-110 | whatever happens between, Abort brings a touched record back to the version it had before the first touch |
| MvccTheorems.OwnedStays | src/executor/executor_delete.cpp:81-106 | a deletion stands, with the saved header, until its transaction ends |
| MvccSnapshots.WalkFindsNewestVisible | src/executor/executor_seq_scan.cpp:76-103 | along a version chain visibility only ever turns on, once; the walk returns the newest visible version, or nothing if that is a deletion |
| MvccSnapshots.EmitIsExpected | src/executor/executor_seq_scan.cpp:51-114 | in every reachable state, updates included, a record shows a reader what the history says it should |
| MvccSnapshots.ReadTwiceExact | src/executor/executor_seq_scan.cpp:51-114 | a record not dead, with its own writer unseen and its oldest version seen, is exactly one that shows a row the snapshot shows elsewhere |
| MvccSnapshots.ScanIsSnapshotExactly | src/executor/executor_seq_scan.cpp:51-114 | a scan is the snapshot, each row once in heap order, if and only if the table has no such record |
| MvccSnapshots.SnapshotRead | src/executor/executor_seq_scan.cpp:51-114 | for insert/delete histories a scan is exactly the snapshot |
| MvccSnapshots.StepUnobservable | src/executor/executor_seq_scan.cpp:51-114 | a step of another transaction that neither updates nor undoes an update leaves a scan as it is |
| MvccSnapshots.UpdateDuplicates | src/executor/executor_update.cpp:157-184 | an UPDATE by another transaction whose new version is inserted adds to a scan exactly what the old record shows, once more |
| MvccSnapshots.UpdatedRowIsReadTwice | src/executor/executor_update.cpp:157-184 | a reachable state in which a scan returns one row twice |
| MvccSnapshots.RepeatableRead | src/executor/executor_seq_scan.cpp:51-114 | for insert/delete histories two scans under one view return the same tuples whatever others do between |
| MvccSnapshots.AbortUnobservable | src/transaction/transaction_manager.cpp:59-110 | for insert/delete histories another transaction's scan is byte-identical before and after Abort |
| MvccSnapshots.RepeatableTuples | src/executor/executor_seq_scan.cpp:51-114 | with updates too, two scans under one view return the same set of tuples |
| MvccSnapshots.AbortKeepsTuples | src/transaction/transaction_manager.cpp:59-110 | with updates too, Abort leaves the set of tuples others read |
| MvccTurns.ScanByTurns | src/executor/executor_seq_scan.cpp:37-114 | for insert/delete histories a scan that reads its records one by one, others acting in between, returns exactly the snapshot |
| MvccTurns.TuplesByTurns | src/executor/executor_seq_scan.cpp:37-114 | with updates too, it returns the same set of tuples as a scan of the state it began in |
| MvccTurns.DeleteByTurns | src/executor/executor_delete.cpp:50-119 | a DELETE whose records come up one by one, others acting in between, deletes a record if and only if it was in the snapshot and matched, its DEL flag is clear at its turn and its before-image fits |
| MvccCounts.RowCountConserved | src/buffer/meta_page.cpp:161-178 | a table's row count is the number of its records with neither flag, in every reachable state |
| MvccCounts.TakenRowIsLive | src/storage/page/table_page.cpp:191-215 | MarkDelete tests the DEL flag only, yet neither it nor a rollback's MarkDead ever takes a row off the count for a record that is dead or deleted |
| MvccCounts.ClampNeverFires | src/buffer/meta_page.cpp:166-170 | whenever a step takes a row off a count, the count is at least one: the clamp to zero is never taken |
| MvccStatements.SelectedSound | src/executor/executor_delete.cpp:42-79 | the rows a statement selects are visible, undeleted and matching |
| MvccStatements.SelectedComplete | src/executor/executor_delete.cpp:42-79 | every such row is selected |
| MvccStatements.SelectedOnce | src/executor/executor_delete.cpp:42-79 | and once |
| MvccStatements.DeleteStatementExact | src/executor/executor_delete.cpp:42-119 | a DELETE marks and counts exactly the rows selected at its start, if and only if the before-image of each fits an undo page; otherwise it throws at the first that does not, with exactly the rows before it marked and counted |
| MvccStatements.CollectFindsSelected | src/executor/executor_update.cpp:106-154 | UPDATE's first phase collects exactly those rows with their bytes |
| MvccStatements.UpdateStatementExact | src/executor/executor_update.cpp:87-218 | UPDATE rewrites and counts each of them once, never its own new versions, if and only if the before-image of each fits; otherwise it throws at the first that does not, after those before it; a row whose new version no page takes is deleted and counted with nothing inserted |
| MvccStatements.NewRecordAt | src/executor/executor_update.cpp:67-78 | the records appended are the new versions that fit, in order: each row's is there, behind those of earlier rows, if and only if it fits |
| MvccSizes.StoredFits | src/storage/page/table_page.cpp:135-139 | in every reachable state every tuple fits a table page and every before-image an undo page |
| MvccSizes.InsertedExactly | src/executor/executor_insert.cpp:47-79 | a row is inserted as it was given, and counted, if and only if it has at most 4060 bytes |
| MvccSizes.WritableExactly | src/transaction/undo_log_manager.cpp:26-38 | a row a statement may touch can be deleted or updated if and only if it has at most 4052 bytes |
| MvccSizes.MarkedTwice | src/storage/page/table_page.cpp:191-205 | marking a deleted record leaves it and the row count as they are |
| MvccSizes.ReplacedExactly | src/executor/executor_update.cpp:186-207 | an update that is carried out deletes the old row, and a new one is there if and only if it has at most 4060 bytes |
| MvccSizes.WideRowStays | src/transaction/undo_log_manager.cpp:26-38 | a committed row of 4053 bytes that no DELETE or UPDATE can touch without throwing |
| MvccSizes.UpdateLosesRow | src/executor/executor_update.cpp:73-78 | an UPDATE to 4061 bytes after whose commit the table is empty for every new reader |
| MvccSizes.LostRowIsGone | src/executor/executor_update.cpp:73-78 | the old record of a lost new version shows nothing to anyone who sees the UPDATE, whatever follows |
| MvccSizes.LostIsNeverAborted | src/transaction/transaction_manager.cpp:90-109 | no run of rollback turns ends the transaction of a lost new version |
| MvccStatements.LoopsAreSafe | src/executor/executor_seq_scan.cpp:80-103 | in every reachable state each undo pointer leads to something, and so does each write-set entry but that of a lost new version |
| MvccEngine.AbortIsUndoAll | src/transaction/transaction_manager.cpp:91-109 | the loop that only reads the write set leaves what the steps that pop it leave |
| MvccEngine.Engine.constructor | src/include/transaction/transaction_manager.h:77-80 | an engine without transactions is an initial state |
| MvccEngine.Engine.Begin | src/transaction/transaction_manager.cpp:27-36 | the begin step |
| MvccEngine.Engine.CreateView | src/transaction/transaction_manager.cpp:112-134 | the loop over the active transactions builds the view: all others active, the next id as high watermark, the smallest of those active as low watermark |
| MvccEngine.Engine.Commit | src/transaction/transaction_manager.cpp:42-50 | the commit step; fails exactly for an id that is not active |
| MvccEngine.Engine.Abort | src/transaction/transaction_manager.cpp:59-110 | the reverse loop leaves what undoing all writes leaves; fails exactly for an id that is not active |
| MvccEngine.Engine.Insert | src/executor/executor_insert.cpp:47-79 | the insert step; fails, changing nothing, exactly for a tuple no page takes |
| MvccEngine.Engine.DeleteWhere | src/executor/executor_delete.cpp:42-119 | the DELETE loop against its specification, both exceptions included |
| MvccEngine.Engine.Collect | src/executor/executor_update.cpp:106-154 | the collecting loop against its specification |
| MvccEngine.Engine.UpdateWhere | src/executor/executor_update.cpp:87-218 | both loops of UPDATE against their specification, exceptions included |
| MvccEngine.Engine.WriteAll | src/executor/executor_update.cpp:156-211 | the writing loop against its specification: stops at a before-image that is refused, goes on past a new version that is |
| MvccEngine.Engine.SeqScan | src/executor/executor_seq_scan.cpp:51-114 | the scan with its inner chain loop returns what the walk defines |
| LogCodec.EncodeRecord | src/log/log_manager.cpp:13-35 | the buffer filled field by field is the record's encoding |
| LogCodec.ReadLog | src/transaction/recovery_manager.cpp:24-43 | the scanning loop parses every whole leading record |
| LogCodec.TornTail | src/transaction/recovery_manager.cpp:24-43 | a log cut at any byte reads as the longest run of leading records that fit |
| LogCodec.ParseInvertsEncode | src/transaction/recovery_manager.cpp:24-43 | an uncut log reads back as its records |
| LogCodec.EncodePayload | src/include/log/log_payload.h:25-39 | the payload buffer is the payload's encoding |
| LogCodec.PayloadRoundTrip | src/include/log/log_payload.h:25-58 | Decode inverts Encode |
| LogBuffer.StepKeeps | src/log/log_buffer.cpp:39-94 | no step of either thread overruns a buffer, and each keeps disk, pending flush and active prefix equal to the bytes written |
| LogBuffer.NothingIsLost | src/log/log_buffer.cpp:24-94 | so it is in every interleaving, with offsets within capacity |
| LogBuffer.FlushIsDurable | src/log/log_buffer.cpp:24-72 | Flush returns only when everything written is on disk; after shutdown everything is |
| LogBuffer.WaitingEnds | src/log/log_buffer.cpp:39-72 | a waiting client can go on after at most three backend steps: no deadlock |
| LogBuffer.WriteTakes | src/log/log_buffer.cpp:74-88 | a Write of a record no larger than the buffer hands it over, and the disk stays as it is |
| LogBuffer.WriteWaitsExactly | src/log/log_buffer.cpp:74-88 | Write waits exactly when the buffer has no room, with all that was buffered handed to the backend; otherwise it copies behind what is there |
| LogBuffer.FlushWaitsExactly | src/log/log_buffer.cpp:63-72 | Flush waits exactly when something is buffered, and hands all of it over |
| LogBuffer.StepHands | src/log/log_buffer.cpp:39-94 | no other step changes what was handed over, and the disk only grows |
| LogBuffer.Buffer.StartWrite | src/log/log_buffer.cpp:74-88 | Write up to its wait is the protocol's step; throws exactly for a record larger than the buffer |
| LogBuffer.Buffer.ResumeWrite | src/log/log_buffer.cpp:84-88 | Write after its wait is the protocol's step |
| LogBuffer.Buffer.StartFlush | src/log/log_buffer.cpp:63-71 | Flush up to its wait |
| LogBuffer.Buffer.ResumeFlush | src/log/log_buffer.cpp:71-72 | Flush after its wait: all is on disk |
| LogBuffer.Buffer.BackendTurn | src/log/log_buffer.cpp:39-61 | each turn of the backend is a protocol step |
| Recovery.Analysis | src/transaction/recovery_manager.cpp:45-85 | both loops of Analysis against their specification |
| Recovery.AnalysisOutcome | src/transaction/recovery_manager.cpp:45-85 | for any log, an id is committed exactly when its last ending is a COMMIT, every other id mentioned is aborted, and the next id is beyond all |
| Recovery.NextIsTight | src/transaction/recovery_manager.cpp:45-85 | and the next id stays, or is one more than an id in the log |
| Durability.CrashLog | src/transaction/recovery_manager.cpp:24-43 | what a crash leaves reads as a prefix of the records, and contains all that was on disk |
| Durability.CommitSurvivesCrash | src/transaction/transaction_manager.cpp:42-82 | after a crash at any byte an id is committed exactly when its COMMIT record survived whole; every Commit that returned is; every other id seen is aborted |
| Durability.RunLogs | src/log/log_manager.cpp:13-39 | the log is the record of the session's calls, in order: transaction, kind and payload of each, under consecutive LSNs |
| Durability.LsnsCountUp | src/log/log_manager.cpp:13-39 | in every session the LSNs are 1, 2, 3 and so on along the log, and the next one is beyond them all |
| Durability.RunActive | src/transaction/transaction_manager.cpp:27-50 | a transaction is active from its begin to its end |
| Durability.RunReturns | src/transaction/transaction_manager.cpp:42-57 | the transactions whose Commit returned are those whose commit call ran to its end |
| Durability.CommitReturns | src/transaction/transaction_manager.cpp:42-57 | and whatever the buffer's state, a commit call can be carried to its end |
| Redo.PageLsnIsMax | src/transaction/recovery_manager.cpp:87-119 | a page's LSN ends as the maximum of its start and the LSNs addressed to it, whatever their order |
| Redo.RedoRestartable | src/transaction/recovery_manager.cpp:87-119 | replaying the first k records and then the whole log leaves the same page bytes and row counts as replaying it once |
| Redo.AttemptsThenRedo | src/transaction/recovery_manager.cpp:87-119 | so do any number of attempts, each cut short anywhere |
| Redo.RedoDeletesExactly | src/transaction/recovery_manager.cpp:107-114 | after a replay a row is deleted exactly when it was, or when one of its DELETE records was ahead of its page |
| Redo.RedoPageExact | src/transaction/recovery_manager.cpp:87-119 | a replayed page, whole: its header with the highest LSN addressed to it, its tuples as they were, but for those newly deleted, which name the transaction of the first DELETE record that ran and no undo record |
| Redo.RedoCounts | src/transaction/recovery_manager.cpp:107-114 | after a replay a table's row count is what it was less the number of its rows the replay newly deleted, and never below zero |
| Redo.NewlyDeletedRan | src/transaction/recovery_manager.cpp:107-114 | those are rows undeleted before of which a DELETE record ran |
| Redo.RanIsNewlyDeleted | src/transaction/recovery_manager.cpp:107-114 | and all of them |
| Redo.RedoLog | src/transaction/recovery_manager.cpp:87-119 | the loop over page objects does that replay and leaves table pages |
| TablePage.TupleInserted | src/storage/page/table_page.cpp:135-172 | slot, tuple and header written: the page represents one tuple more and all earlier ones |
| TablePage.TupleEdited | src/storage/page/table_page.cpp:206-210 | bytes written inside one tuple change that tuple only |
| TablePage.Disjoint | src/storage/page/table_page.cpp:66-68 | header, tuples and slots do not overlap |
| TablePage.RepresentsOne | src/storage/page/table_page.cpp:12-49 | the bytes determine header and tuples |
| TablePage.HeaderReads | src/storage/page/table_page.cpp:14-27 | the header reads back as it was written |
| TablePage.TupleReads | src/storage/page/table_page.cpp:87-101 | every tuple reads back through its slot |
| TablePage.DeletedReads | src/storage/page/table_page.cpp:191-215 | a deleted record names its deleter and undo pointer; deleting twice is deleting once |
| TablePage.RestoreUndoes | src/storage/page/table_page.cpp:224-245 | restoring the saved header undoes any header edit bit for bit |
| TablePage.KilledReads | src/storage/page/table_page.cpp:248-266 | a record marked dead keeps its other fields and is not live |
| TablePage.Page.Create | src/storage/page/table_page.cpp:37-48 | a new page represents no tuples |
| TablePage.Page.Open | src/storage/page/table_page.cpp:12-36 | reopening recovers tuples, count, next page, LSN and free size |
| TablePage.Page.HasSpaceFor | src/storage/page/table_page.cpp:82-84 | tells exactly whether the tuple and its slot fit |
| TablePage.Page.InsertTuple | src/storage/page/table_page.cpp:135-172 | appends the tuple and reports one row more, or fails, changing nothing, exactly when there is no room |
| TablePage.Page.GetTuple | src/storage/page/table_page.cpp:87-101 | returns the tuple's bytes |
| TablePage.Page.ReadRecord | src/storage/page/table_page.cpp:103-132 | returns the record's header fields |
| TablePage.Page.MarkDelete | src/storage/page/table_page.cpp:191-215 | writes one 22-byte header, or nothing if already deleted; reports the row-count change |
| TablePage.Page.RestoreRecord | src/storage/page/table_page.cpp:224-245 | writes one 22-byte header; reports the row-count change |
| TablePage.Page.MarkDead | src/storage/page/table_page.cpp:248-266 | sets one flag; reports the row-count change |
| TablePage.Page.SetLsn | src/storage/page/table_page.cpp:76-80 | changes the page LSN only |
| TablePage.Page.SetNextPageId | src/storage/page/table_page.cpp:70-74 | changes the next-page link only |
| StaleHeader.SetLsnExact | src/storage/page/table_page.cpp:76-80 | SetLsn through an object that loaded its header earlier sets the LSN and nothing else if and only if the header is otherwise unchanged |
| StaleHeader.StaleWrite | src/storage/page/table_page.cpp:52-64 | such a write takes the page back to the rows and the link of the loaded header |
| StaleHeader.StaleInsert | src/storage/page/table_page.cpp:135-172 | an insert through such an object replaces the rows added since |
| StaleHeader.InsertIsLost | src/executor/executor_delete.cpp:92-96 | an insert between loading the page and setting its LSN is lost |
| UndoLog.AtReads | src/transaction/undo_log.cpp:53-71 | a stored undo record reads back |
| UndoLog.Page.AppendRecord | src/transaction/undo_log.cpp:73-104 | stores the record at the free offset and leaves all below; fails exactly when it does not fit |
| UndoLog.Page.Load | src/transaction/undo_log.cpp:31-45 | reads the free offset; an unwritten page counts as empty |
| UndoLog.AppendedHeld | src/transaction/undo_log_manager.cpp:35-44 | the new pointer is fresh and all older appends still stand |
| UndoLog.Store.Append | src/transaction/undo_log_manager.cpp:9-45 | returns a non-null pointer never returned before, behind what the current page holds, or on a new page exactly when that has no room; throws exactly when the record is too large for an empty page |
| UndoLog.Store.Get | src/transaction/undo_log_manager.cpp:48-74 | any pointer ever returned leads to what was stored |
| UndoLog.LinkedAppend | src/executor/executor_delete.cpp:81-89 | versions only ever point to strictly earlier appends |
| UndoLog.Store.Walk | src/executor/executor_seq_scan.cpp:80-103 | following the pointers in stored bytes ends, after at most as many steps as appends |
| UndoLog.ChainStays | src/transaction/undo_log_manager.cpp:9-45 | later appends leave every chain as it was |
| RecordBytes.SaveRefines | src/executor/executor_delete.cpp:83-87 | appending the tuple's bytes extends the undo store by that version |
| RecordBytes.DeleteRefines | src/storage/page/table_page.cpp:191-215 | the page edit writes the header of the delete step |
| RecordBytes.KillRefines | src/storage/page/table_page.cpp:248-266 | the page edit is the rollback of an insert |
| RecordBytes.RestoreRefines | src/storage/page/table_page.cpp:224-245 | the page edit is the rollback of a delete |
| RecordBytes.AcyclicBytes | src/executor/executor_seq_scan.cpp:80-103 | the stored bytes are acyclic because the versions are |
| RecordBytes.WalkBytes | src/executor/executor_seq_scan.cpp:76-103 | the loop over page and undo bytes finds exactly the version the walk over versions finds |
| RecordBytes.InsertRefines | src/executor/executor_insert.cpp:56-79 | a tuple appended to the chain and a record appended to the heap keep chain and heap in step |
| RecordBytes.EditRefines | src/storage/page/table_page.cpp:206-210 | so does a header edited on its page and in the heap |
| RecordBytes.ScanBytes | src/executor/executor_seq_scan.cpp:51-114 | a scan over page bytes, from the first page along the links and through the slots, with its walks through the undo bytes, returns the bytes of exactly the scan of the transaction layer |
| Simulation.BytesDecide | src/executor/executor_delete.cpp:54-79 | the row test, the conflict test and the room for the before-image, read off a record's bytes, decide as the step system does |
| Simulation.StepSim | src/executor/executor_update.cpp:157-211 | every event, carried out on page bytes, undo appends and the headers kept in write sets, keeps them in step with the state |
| Simulation.RunSim | src/transaction/transaction_manager.cpp:27-134 | hence so does every run |
| Simulation.BytesFollow | src/transaction/transaction_manager.cpp:27-134 | from an empty database on, the bytes a run leaves store the state it leads to |
| Simulation.ScanTable | src/executor/executor_seq_scan.cpp:37-114 | a scan over those bytes returns the scan of that state |
| BufferPool.FreeIsUnpinned | src/buffer/buffer_manager.cpp:34-51 | the free list is exactly the frames without pins |
| BufferPool.NoSharing | src/buffer/buffer_manager.cpp:93-130 | no two resident pages share a frame |
| BufferPool.StepKeeps | src/buffer/buffer_manager.cpp:34-139 | every operation keeps the pool's invariant |
| BufferPool.RunKeeps | src/buffer/buffer_manager.cpp:34-139 | hence so does every sequence of operations |
| BufferPool.ReadsLastContents | src/buffer/buffer_manager.cpp:93-130 | in every reachable pool a resident frame holds the page's last contents, and so does the disk for every page not resident |
| BufferPool.EvictOnlyThrows | src/buffer/buffer_manager.cpp:69-76 | the free list is empty exactly when every frame is pinned, and then Evict finds nothing |
| BufferPool.StepBalances | src/buffer/buffer_manager.cpp:34-130 | every call does to the pool what it does to a ledger of who holds which page how often |
| BufferPool.PinsAreHolders | src/buffer/buffer_manager.cpp:34-130 | after any run of calls a page is in memory if and only if it was handed out more often than given back since it last left, and its frame has as many pins as that |
| BufferPool.HeldStays | src/buffer/buffer_manager.cpp:34-130 | a page in memory stays there, in its frame, until it is released as often as it is held |
| BufferPool.ReleasedKeeps | src/buffer/buffer_manager.cpp:34-51 | giving up a pin writes the page back and keeps the invariant, whether or not it was the last |
| BufferPool.Lru.Pin | src/include/buffer/lru_manager.h:17-25 | one more pin, and off the list |
| BufferPool.Lru.UnPin | src/include/buffer/lru_manager.h:27-34 | one pin less; with the last, to the front of the list |
| BufferPool.Lru.Touch | src/include/buffer/lru_manager.h:37-44 | a listed frame moves to the front |
| BufferPool.Manager.NewPage | src/buffer/buffer_manager.cpp:57-84 | a zeroed page under a fresh id, in the frame at the back of the free list; throws exactly when every frame is pinned; no frame is ever evicted |
| BufferPool.Manager.FetchPage | src/buffer/buffer_manager.cpp:93-130 | the page's last contents, with one pin more than it had, or one if it was not in memory; throws exactly when not in memory and every frame is pinned |
| BufferPool.Manager.Release | src/buffer/buffer_manager.cpp:34-51 | one pin less, the page on disk, and with the last pin out of memory; throws exactly when not in memory |
| BufferPool.Manager.EditPage | src/include/buffer/page.h:35-40 | a holder's edit, marked dirty, becomes the page's contents and no other page's |
| BufferPool.Manager.Flush | src/buffer/buffer_manager.cpp:19-32 | the page's contents are on disk |
| BufferPool.Manager.TouchPage | src/buffer/buffer_manager.cpp:132-139 | never reorders anything, since a resident page is pinned |
| TableChain.RidsComplete | src/buffer/table_iterator.cpp:65-103 | every slot of every page of the chain is among those listed |
| TableChain.RidsSound | src/buffer/table_iterator.cpp:65-103 | nothing else is |
| TableChain.RidsOnce | src/buffer/table_iterator.cpp:65-103 | and none twice |
| TableChain.RunOk | src/executor/executor_insert.cpp:22-100 | every sequence of inserts, with pages allocated elsewhere between, keeps an acyclic chain from first page to last |
| TableChain.LinkedRows | src/executor/executor_insert.cpp:81-100 | a new page behind the last one keeps the rows |
| TableChain.PlacedRows | src/executor/executor_insert.cpp:56-59 | a tuple put on the last page is the last of the chain |
| TableChain.InsertedRows | src/executor/executor_insert.cpp:22-60 | an insert, on the last page or on a new one, adds one row at the end; none if the tuple is too large for an empty page |
| TableChain.InsertShape | src/executor/executor_insert.cpp:47-59 | an insert fills the last page while it has room and links a new page exactly when it has none; the pages before stay as they are |
| TableChain.FirstInsert | src/executor/executor_insert.cpp:22-45 | the first insert into a table gives it its first page, with the tuple on it |
| TableChain.HeapFile.LinkNewPage | src/executor/executor_insert.cpp:81-100 | links the page; the table's rows stay |
| TableChain.HeapFile.Insert | src/executor/executor_insert.cpp:22-60 | appends one row at the end of the chain; throws exactly when the tuple is too large for an empty page |
| TableChain.Iterator.constructor | src/buffer/table_iterator.cpp:13-48 | starts before every slot, empty pages skipped |
| TableChain.Iterator.Advance | src/buffer/table_iterator.cpp:65-103 | passes exactly one slot, with one page pinned while positioned and none at the end |
| TableChain.Iterator.Current | src/buffer/table_iterator.cpp:50-63 | returns the slot it stands on and its tuple |
| TableChain.ScanAll | src/buffer/table_iterator.cpp:13-110 | a whole scan visits every slot once, in chain order, and ends |
| ChainBytes.InsertedOnDisk | src/executor/executor_insert.cpp:22-60 | linking and filling pages on their bytes keeps every page's bytes in step with the chain |
| ChainBytes.EditedOnDisk | src/storage/page/table_page.cpp:224-245 | so does a record header written through its slot |
| ChainBytes.RowEdited | src/storage/page/table_page.cpp:224-245 | and that changes one row of the chain, in its place |
| ChainBytes.ScanPages | src/buffer/table_iterator.cpp:13-103 | following the links and slots in page bytes reads every row of the chain, in order |
| MetaPage.EntryAdded | src/buffer/meta_page.cpp:218-278 | an entry written at the end: the page holds one entry more and all earlier ones |
| MetaPage.EntryPatched | src/buffer/meta_page.cpp:161-216 | first page, row count or last page written 0, 8 or 24 bytes behind the name changes that entry's field and nothing else |
| MetaPage.ReadItem | src/buffer/meta_page.cpp:48-117 | an entry with its columns reads back |
| MetaPage.PutItem | src/buffer/meta_page.cpp:234-271 | the memcpys at the moving end write the entry's encoding |
| Catalogue.MapsPatched | src/buffer/meta_page.cpp:180-200 | changing one entry changes the three maps at its keys only |
| Catalogue.ReachedOk | src/buffer/meta_page.cpp:131-278 | after any sequence of calls the entries lie behind one another on the page, and count, end and the three maps say what they say |
| Catalogue.GuardTooWeak | src/buffer/meta_page.cpp:220-227 | on every page Init leaves, AddTable's check lets through a table of 210 columns whose entry ends past the page |
| Catalogue.WideTableOverruns | src/buffer/meta_page.cpp:218-278 | creating that table in a new catalogue overruns the page |
| Catalogue.Catalogue.Init | src/buffer/meta_page.cpp:25-35 | an empty catalogue page |
| Catalogue.Catalogue.ReadMata | src/buffer/meta_page.cpp:39-127 | rebuilds entries, the three maps and the end from the bytes alone |
| Catalogue.Catalogue.AddTable | src/buffer/meta_page.cpp:218-278 | appends the entry to bytes and maps; throws, changing nothing, exactly when its check fails; overruns the page exactly when the check passes and offset, column count and columns do not fit; either way the entries there were stand |
| Catalogue.Catalogue.UpdateTableRows | src/buffer/meta_page.cpp:161-178 | adds to the row count, not below zero, in map and bytes, 8 bytes behind the name, and leaves every other field and entry; throws exactly for an unknown table |
| Catalogue.Catalogue.UpdateTableFirstId | src/buffer/meta_page.cpp:180-200 | sets the first page in all three maps and in the bytes right behind the name, and leaves every other field and entry |
| Catalogue.Catalogue.UpdateTableLastId | src/buffer/meta_page.cpp:203-216 | sets the last page in map and bytes, 24 bytes behind the name, and leaves every other field and entry |
| Catalogue.Catalogue.GetFirstPageId | src/buffer/meta_page.cpp:131-136 | finds a table's first page by name; throws exactly for an unknown name |

## Left out

- B+ tree index, parser, binder, planner, expression evaluation and the terminal: the WHERE filter and the SET rewrite are arbitrary functions of a tuple's bytes.
- Row payload codec: the bytes behind the 22-byte record header are opaque, and tuples carry at least that header where a header is read; rows serialised to more than 65535 bytes, whose size wraps in its 16-bit field, are left out.
- Headers cached by TablePage objects: the step system and the page chain always write the current header; `StaleHeader` says when the source does and what is lost when it does not.
- Rollback of a lost new version: MarkDead on row 0 of page 0 reads its slot from behind the page and may write anywhere on the catalogue page; the step system stops before it.
- Disk managers: the data file is a total map from page id to bytes, the log file an append-only byte sequence; I/O errors are not modelled.
- Statements without a transaction, or without an undo manager: every reader and writer in the step system has a read view.
- Interleaving inside one record operation: check, undo append, page edit and write-set entry of one record are one step. Others act between records in `MvccTurns`, and between the collecting and the writing phase of UPDATE in `MvccUpdateGap` and `MvccLists`.
- Records of earlier sessions and several restarts over one log: a run begins with empty tables, and recovery is one session and one crash; LSNs begin at 1 again in every session; page ids restart at 1 in a new process, so the pool is modelled for ids the disk does not hold yet.
- Crash atomicity of data pages: pages are flushed before the log, so only transaction outcomes and the replay itself are claimed.
- Wrap-around of transaction ids, LSNs and page ids, which are unbounded here; fields written to bytes are required to fit their width.
- Several log clients at once: the buffer does not recheck room after waiting, and is modelled with the one client the program has.
- LogBuffer.Buffer.StartFlush: the destructor's flush, stop and join are steps of the protocol, not methods of the object.
- LogCodec.PayloadRoundTrip: Decode reads past a payload whose announced image is longer than the bytes; such payloads are excluded.
- Catalogue.Catalogue.AddTable: requires an id and a name not yet in use (the binder refuses a known name and draws a fresh id); what lies behind the page that an overrun writes to is not modelled, and the call ends there.
- MvccTheorems.ExclusiveOwnership: test and write of an update are one step; when the source's write from its list is that step, and what it breaks when it is not, is `MvccUpdateGap.WriteFromListExact` and `MvccLists.MovesAreSteps`.
- MvccEngine.Engine.Commit: the log record and flush of Commit are in `Durability`, not in the engine.
- MvccEngine.Engine.Abort: the log record and flush of Abort are in `Durability`, not in the engine; requires that no new version of the transaction was lost.
- MvccEngine.Engine.Insert: the place on a page is in `TableChain`, the log record in `LogCodec`; the page LSN set with it is not modelled here.
- MvccEngine.Engine.DeleteWhere: the log record and page LSN written for each row are not part of the method.
- MvccEngine.Engine.UpdateWhere: the log records, page LSNs and the place of the new versions on pages are not part of the method.
- Redo.RedoLog: requires that a DELETE record names an existing slot, as the log writer's records do; the page the buffer pool cannot fetch is one the image does not have, and row counts are a map instead of catalogue bytes.
- TableChain.HeapFile.Insert: the executor keeps its last page pinned between rows, here each insert finds it again; pages are a header and a list of tuples, whose bytes are the subject of `TablePage` and `ChainBytes`.
- Simulation.StepSim: the pointer of an undo append is given, as `UndoLog.Store.Append` returns it, and ids must fit their fields; each table numbers its own pages.
- TablePage.Page.MarkDelete: neighbouring memcpys into one header are written as one, and the page's mutex is not modelled.
- BufferPool.Manager.FetchPage: requires an id that was handed out (or 0, the catalogue page); fetching an id before NewPage hands it out would give one id two frames.
- BufferPool.Manager.NewPage: the branch behind a successful Evict is proved unreachable and not written out.
