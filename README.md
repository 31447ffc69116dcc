# DocProcAiService core in Dafny

A model of the core of the MEITREX document-processing AI service (`service/DocProcAiService.py`):

- **Task queue and worker.** A priority queue of background task items, ordered by priority alone. A single worker loop takes an item of minimal priority, runs it to completion and polls again for as long as the keep-alive Event is set.
- **Vector store.** Two keyed tables of embeddings:
  - `documents`, keyed by (media record, page);
  - `videos`, keyed by (media record, start time).
  Embeddings are declared `vector(1024)`. Rows are inserted one autocommit statement at a time and deleted per media record.
- **Ingest task.** Resolves a media record's type and download URL. It sends PRESENTATION and DOCUMENT records through the PDF embedding generator into `documents`, and VIDEO records through the video generator into `videos`. Any other type raises.
- **Semantic search.** Filters both tables by whitelist and blacklist, tags and scores each row by cosine distance to the query, and takes the UNION ALL. It orders by score and applies the LIMIT. It then deletes, in place, the columns that do not belong to each result row's kind.

Modules:

- `Results`: the `Result` and `Outcome` wrappers.
- `VectorStore` (`store.dfy`): rows, primary keys, the key-uniqueness invariant, single and batch INSERT, and DELETE by media record.
- `Ingestion` (`ingest.dfy`): the ingest task as a function of both tables and an `Environment`. The environment holds the media service and the two embedding generators.
- `Search` (`search.dfy`): the SQL query as a function, the result rows as dicts (`map<string, Value>`) and the projection.
- `TaskQueue` (`tasks.dfy`): task items, `__lt__`, minimal items and drain orders.
- `Service` (`service.dfy`): the class `DocProcAiService`. Its fields are the two tables, the queue (a multiset), the keep-alive Event, the worker's liveness and the log of executed items. Its methods are the service's operations and the worker loop, proved against the functions above.

An exception raised by a task propagates out of `asyncio.run` (line 187) and out of the `while` loop, since nothing catches it, so the worker thread ends. No queued task runs after that. `WorkerStep` therefore clears `workerRunning` when a task fails, and `RunBackgroundTaskRunner` stops.

The worker thread starts in the constructor (lines 66-69). An idle worker blocked in `get` takes the first item put as soon as it arrives. Priority order therefore governs only the items that are queued together before the worker's next `get`, for instance while it is busy with an earlier task. The scenarios below start the worker on a queue that already holds their items.

An INSERT is rejected when a value does not fit its column:
- a page number or start time outside the 32-bit range of `int`;
- a text holding a NUL character, which PostgreSQL `text` cannot store;
- an embedding without exactly 1024 dimensions.
It is also rejected when its primary key is already present. The model checks in that order.

## Model

| member | source | states |
|---|---|---|
| VectorStore.KeysUniqueCons | service/DocProcAiService.py:36-48 | a table with a new row in front has unique primary keys iff the rest does and the new row's key is not already there |
| VectorStore.InsertRow | service/DocProcAiService.py:86-97 | an INSERT succeeds iff every value fits its column (32-bit page or start time, no NUL in a text, 1024 dimensions) and the key is new; it fails with a unique violation exactly when the row fits and its key is present; on success it appends exactly that row, adds exactly that key and keeps keys unique |
| VectorStore.InsertAll | service/DocProcAiService.py:85-97 | a loop of autocommit inserts leaves the old table followed by a prefix of the rows; it passes iff every row went in; key uniqueness is preserved |
| VectorStore.InsertAllStopsAtRejected | service/DocProcAiService.py:85-97 | the rows a batch appended are the first rows of the batch, in order; a failed batch stopped at the next row, and the error it reports is that row's rejection by the table it had reached |
| VectorStore.InsertAllSucceedsIff | service/DocProcAiService.py:36-48 | a batch inserts without error iff every row fits its columns, the batch's keys are distinct and none is already in the table |
| VectorStore.WithoutRecord | service/DocProcAiService.py:105-107 | DELETE keeps exactly the rows of other media records |
| VectorStore.DeleteKeepsOtherRecords | service/DocProcAiService.py:105-107 | deleting one record leaves every other record's rows, in order, unchanged |
| VectorStore.DeleteAbsentIsNoop | service/DocProcAiService.py:105-107 | deleting a record with no rows leaves the table as it was |
| VectorStore.DeleteIsIdempotent | service/DocProcAiService.py:105-107 | deleting twice gives the same table as deleting once |
| VectorStore.DeleteKeepsKeysUnique | service/DocProcAiService.py:105-107 | a table with unique keys keeps them after a delete |
| VectorStore.ReinsertAfterDelete | service/DocProcAiService.py:85-107 | after a delete, re-inserting a record's well-formed rows passes; the record then holds exactly those rows, and other records are untouched |
| Ingestion.Ingest | service/DocProcAiService.py:83-99 | dispatch by type: document types leave `videos` unchanged, VIDEO leaves `documents` unchanged, any other type fails with both tables unchanged; valid tables stay valid |
| Ingestion.DocumentRowsShape | service/DocProcAiService.py:86-89 | the INSERT parameters give one `documents` row per page result, all of the record, keyed by (record, page number); distinct pages give unique keys |
| Ingestion.VideoRowsShape | service/DocProcAiService.py:93-97 | the INSERT parameters give one `videos` row per segment result, all of the record, keyed by (record, start time) |
| Ingestion.DocumentBatchPasses | service/DocProcAiService.py:85-89 | the batch of a record's page rows goes through iff the pages are insertable |
| Ingestion.DocumentBatchRows | service/DocProcAiService.py:85-89 | each row the batch appends is (id, page number, text, embedding) of the page result at its position |
| Ingestion.DocumentBatchRejects | service/DocProcAiService.py:85-89 | a failed batch failed on the row of the first page result it did not append |
| Ingestion.VideoBatchPasses | service/DocProcAiService.py:92-97 | the batch of a record's segment rows goes through iff the segments are insertable |
| Ingestion.VideoBatchRows | service/DocProcAiService.py:92-97 | each row the batch appends is (id, start time, screen text, transcript, embedding) of the segment result at its position |
| Ingestion.VideoBatchRejects | service/DocProcAiService.py:92-97 | a failed batch failed on the row of the first segment result it did not append |
| Ingestion.IngestDocumentRecord | service/DocProcAiService.py:83-89 | for PRESENTATION/DOCUMENT, the new `documents` rows are those of a prefix of the PDF results, in order, each (id, page number, text, embedding); the task passes iff the pages are insertable, and then every result was inserted; `videos` is unchanged |
| Ingestion.IngestDocumentFailure | service/DocProcAiService.py:83-89 | a failed document ingest failed in an INSERT: the page rows before the first rejected result stay, and the next result's row is exactly what the table rejected |
| Ingestion.IngestVideoRecord | service/DocProcAiService.py:90-97 | for VIDEO, the new `videos` rows are those of a prefix of the segment results, in order, each (id, start time, screen text, transcript, embedding); the task passes iff the segments are insertable, and then every result was inserted; `documents` is unchanged |
| Ingestion.IngestVideoFailure | service/DocProcAiService.py:90-97 | a failed video ingest failed in an INSERT: the segment rows before the first rejected result stay, and the next result's row is exactly what the table rejected |
| Ingestion.ReingestAfterDelete | service/DocProcAiService.py:83-107 | deleting a document record then ingesting it again passes when the generator gives distinct pages whose values fit their columns; the record then holds exactly the rows of a fresh ingest, and other records' rows are unchanged |
| Search.EligibleRows | service/DocProcAiService.py:129 | the WHERE clause keeps exactly the rows whose media record is whitelisted and not blacklisted |
| Search.EmptyBlacklistExcludesNothing | service/DocProcAiService.py:142 | with an empty blacklist, a table whose records are all whitelisted is kept whole and in order |
| Search.NoEligibleRecordNoHits | service/DocProcAiService.py:129-142 | an empty whitelist, or one wholly blacklisted, gives no rows whenever the query succeeds |
| Search.SortByScore | service/DocProcAiService.py:149 | ORDER BY score gives a permutation of the candidates with non-decreasing scores |
| Search.ScoredPairsRows | service/DocProcAiService.py:127-140 | scoring gives one candidate per row, and the candidates are exactly the rows paired with their own distance |
| Search.CandidatesOfEligibleRows | service/DocProcAiService.py:144-148 | the UNION ALL has one candidate per eligible row of either table, and its candidates are exactly the eligible stored rows with their own distance |
| Search.SearchQuery | service/DocProcAiService.py:117-157 | the query fails exactly when the LIMIT is negative or does not fit a `bigint` (at least 2^63), and with `NegativeLimit` exactly when it is negative |
| Search.SearchQueryOrderAndLimit | service/DocProcAiService.py:144-149 | when the query succeeds, the result has min(count, candidates) rows, non-decreasing in score, drawn from the union, and no omitted candidate scores lower than a returned one |
| Search.SearchResultProvenance | service/DocProcAiService.py:117-147 | when the query succeeds, every hit is a stored row of an eligible record, carries that row's distance, and is a document exactly when it comes from `documents` |
| Search.ResultRow | service/DocProcAiService.py:119-140 | each query row has the eight selected columns, with the row's media record, its score, and source 'document' or 'video' by table |
| Search.ProjectRowOnlyDrops | service/DocProcAiService.py:159-167 | one pass of the projection loop only removes columns, never mediaRecordId, source or score, and changes no value |
| Search.ProjectionGivesHit | service/DocProcAiService.py:159-167 | projecting a query row leaves exactly the columns of its kind with the stored values: a document keeps mediaRecordId, source, page, text and score; a video keeps mediaRecordId, source, startTime, screenText, transcript and score |
| TaskQueue.LessIsStrictWeakOrder | service/DocProcAiService.py:176-177 | `__lt__` compares priorities only: it is irreflexive and transitive, and two items are unordered exactly when their priorities are equal, whatever their tasks |
| TaskQueue.MinimalItem | service/DocProcAiService.py:184 | a non-empty queue has an item that nothing in the queue is less than |
| TaskQueue.RunMinimalNext | service/DocProcAiService.py:180-188 | taking a minimal item keeps the run sorted by priority, and nothing left in the queue undercuts anything already run |
| TaskQueue.DrainOrdersAgree | service/DocProcAiService.py:176-177 | any two drain orders of one queue run the same sequence of priorities, because ties are the only freedom |
| TaskQueue.DrainFiveOneThree | service/DocProcAiService.py:176-184 | a queue holding priorities 5, 1 and 3 together, before the worker's next `get`, drains as 1, 3, 5 |
| Service.RunAll | service/DocProcAiService.py:180-188 | running a sequence of ingest tasks one after the other, each on the tables the earlier ones left, keeps valid tables valid |
| Service.RunAllSnoc | service/DocProcAiService.py:180-188 | one more task runs on the tables the earlier tasks left; if the earlier ones all passed, only the new one may have failed |
| Service.RunnerStateStep | service/DocProcAiService.py:182-188 | one worker turn that takes a minimal item and runs it keeps the loop's state: tables as `RunAll` over the run, only the last task may have failed, the thread is alive iff it passed, the run is sorted by priority and the run and queue together are the starting queue |
| Service.ProjectResults | service/DocProcAiService.py:159-167 | the in-place loop replaces every row by its projection, with no missing key, and keeps row count and order |
| Service.DocProcAiService.constructor | service/DocProcAiService.py:36-69 | existing tables are kept; the queue is empty, the keep-alive Event is set and the worker is running |
| Service.DocProcAiService.Put | service/DocProcAiService.py:103 | `put` adds exactly one item to the queue |
| Service.DocProcAiService.EnqueueIngestMediaRecordTask | service/DocProcAiService.py:74-103 | the ingest task for the id is queued at priority 0 and nothing else changes |
| Service.DocProcAiService.Dispose | service/DocProcAiService.py:71-72 | `__del__` rebinds the service's attribute and leaves the worker's Event as it was |
| Service.DocProcAiService.ClearKeepAlive | service/DocProcAiService.py:182 | clearing the Event makes the loop test fail |
| Service.DocProcAiService.InsertIntoDocuments | service/DocProcAiService.py:86-89 | the table becomes the INSERT's result, or is unchanged when the INSERT raises; keys stay unique |
| Service.DocProcAiService.InsertIntoVideos | service/DocProcAiService.py:93-97 | the table becomes the INSERT's result, or is unchanged when the INSERT raises; keys stay unique |
| Service.DocProcAiService.InsertDocumentRows | service/DocProcAiService.py:85-89 | the row-by-row loop over the page results leaves `documents`, and the outcome, exactly as the batch insert gives them |
| Service.DocProcAiService.InsertVideoRows | service/DocProcAiService.py:92-97 | the row-by-row loop over the segment results leaves `videos`, and the outcome, exactly as the batch insert gives them |
| Service.DocProcAiService.IngestMediaRecord | service/DocProcAiService.py:75-99 | the row-by-row insert loop leaves both tables, and the outcome, exactly as `Ingest` gives them, and keeps the tables valid |
| Service.DocProcAiService.DeleteEntriesOfMediaRecord | service/DocProcAiService.py:105-107 | both tables lose exactly the record's rows and stay valid |
| Service.DocProcAiService.SemanticSearch | service/DocProcAiService.py:109-169 | fails exactly on a negative count or one of at least 2^63, with `NegativeLimit` exactly on a negative one; otherwise returns, in ranked order, one dict per hit of the query, holding that hit's own columns only |
| Service.DocProcAiService.WorkerStep | service/DocProcAiService.py:182-188 | exits iff the Event is clear or the worker has ended; an empty poll changes nothing; otherwise a minimal item leaves the queue, runs to completion as `Ingest`, is logged, and a failure ends the worker; only the tables, the queue, the log and the worker's liveness can change |
| Service.DocProcAiService.TakeAndRun | service/DocProcAiService.py:184-188 | `get` removes one item of minimal priority; its task runs to completion as `Ingest` and is logged, and the worker stays alive iff it passed |
| Service.DocProcAiService.RunWhileAlive | service/DocProcAiService.py:182-188 | the loop keeps the worker state of `RunnerStateStep` from its start; while the worker stays alive every turn with a non-empty queue runs one item, so it ran min(polls, queue size) items, and with enough turns it empties the queue |
| Service.DocProcAiService.RunBackgroundTaskRunner | service/DocProcAiService.py:180-188 | the run is logged, is sorted by priority, and nothing still queued undercuts it; run and queue together are the old queue; the tables are those `RunAll` gives over the run; every task but the last passed, and a worker that was alive has stopped iff the last task failed; a worker still alive ran min(polls, queue size) items; with enough turns and a live worker the queue is drained in a drain order |
| Service.PriorityOrderScenario | service/DocProcAiService.py:176-188 | tasks queued with priorities 5, 1, 3 before the worker's next `get` run as 1, 3, 5 |
| Service.DisposedWorkerStillRuns | service/DocProcAiService.py:71-72 | after `__del__` as written, the worker still takes and runs a newly queued task |
| Service.ClearedWorkerExits | service/DocProcAiService.py:182-184 | once the Event is cleared, the worker's next turn exits and runs nothing, even with a task queued |

## Left out

- Database connection, pgvector setup, `register_vector` and SQL text (lines 22-30): database I/O. The tables are in-memory sequences and the query is its logical meaning.
- The media service call (line 76): a network call. Its answer is the `resolve` field of `Environment`; its failures are not modelled.
- An exception raised by the PDF or video embedding generator (lines 84, 91): foreign code. The generators are total functions of `Environment`, so the model has no ingest failure other than an unsupported type or a rejected INSERT. In the source such an exception ends the worker at line 187, just as a failed INSERT does.
- The PDF, video and sentence embedding generators and the Llama runner (lines 54-59, 84, 91, 114): foreign ML code. Their result sequences come from `Environment`. The query embedding and `<=>` are abstracted together as the `distance` parameter of `SemanticSearch`.
- VectorStore.InsertRow: a NaN or infinite embedding component, which pgvector also rejects, is not modelled, because embeddings are sequences of integers. The same holds for `InsertAllSucceedsIff` and the ingest lemmas built on it.
- Search.SortByScore: the cosine distance is a floating-point value; it is modelled as a `nat` score, and rows with equal scores come out in one admissible order (the model does not say which one PostgreSQL picks).
- Threading, the Event's wait semantics, the 1-second `get` timeout, `asyncio.run` and `task_done` (lines 63-69, 184-188): concurrency. The worker is a sequential step on explicit state, and a timed-out `get` is an empty poll.
- Service.DocProcAiService.RunBackgroundTaskRunner: runs at most `polls` turns; the source loops until the Event is cleared, which a terminating method cannot model.
- Concurrent use of one connection by callers and the worker: no sequential content.
- Logging (lines 81, 101, 160): no effect on state.
- The KeyError a `del` would raise on a row lacking a column: every query row has all eight columns, so `ProjectResults` requires that.
- A task's closure over the service: a task is identified by its media record id, and the worker runs it through `IngestMediaRecord`.

## Findings

| source | as written | input that shows it | evidently intended | confidence | as-written member | corrected member |
|---|---|---|---|---|---|---|
| service/DocProcAiService.py:71-72 | `__del__` rebinds the attribute `_keep_background_task_thread_alive` to `False`; the worker holds the Event itself, which stays set | a service that is disposed and then given a task: the worker still takes and runs it, and the (non-daemon) worker thread never ends | clear the Event so that the worker loop exits | high; not executed | Service.DisposedWorkerStillRuns | Service.ClearedWorkerExits |
