/**
 * The service object: both tables, the background task queue with its
 * keep-alive flag, the single worker that drains it, and the operations the
 * service offers its callers (enqueue an ingest, delete a record's entries,
 * semantic search).
 */
module Service {
  import opened Results
  import opened VectorStore
  import opened Ingestion
  import opened Search
  import opened TaskQueue

  /** What one turn of the worker loop did. */
  datatype StepResult =
    | Exited       // the keep-alive flag was clear, or the worker thread had already ended
    | EmptyPoll    // `get` found the queue empty and timed out
    | Ran(item: BackgroundTaskItem, outcome: Outcome<IngestError>)

  /**
   * What the service's own keep-alive attribute holds: the Event it shares
   * with the worker thread, or the plain `False` that `__del__` binds.
   */
  datatype KeepAliveAttribute = SharedEvent | PlainFalse

  /** No ingest task can fail in `env`, whatever the tables hold. */
  ghost predicate IngestNeverFails(env: Environment) {
    forall documents, videos, id :: Ingest(documents, videos, id, env).outcome == Pass
  }

  /**
   * The tables after the worker has run `tasks` one after the other, each
   * through `Ingest`, starting from `documents` and `videos`; the outcome is
   * that of the last task.
   */
  ghost function RunAll(documents: seq<Row>, videos: seq<Row>, tasks: seq<BackgroundTaskItem>, env: Environment)
    : (r: IngestResult)
    ensures TablesValid(documents, videos) ==> TablesValid(r.documents, r.videos)
    decreases |tasks|
  {
    if tasks == [] then IngestResult(documents, videos, Pass)
    else
      var before := RunAll(documents, videos, tasks[..|tasks| - 1], env);
      Ingest(before.documents, before.videos, tasks[|tasks| - 1].task.mediaRecordId, env)
  }

  /** Every task of `tasks` but the last passed. */
  ghost predicate OnlyLastMayFail(documents: seq<Row>, videos: seq<Row>, tasks: seq<BackgroundTaskItem>,
                                  env: Environment)
  {
    forall k :: 0 < k < |tasks| ==> RunAll(documents, videos, tasks[..k], env).outcome.Pass?
  }

  /**
   * Running one more task runs it on the tables the earlier ones left; when
   * the earlier ones all passed, the new one is the only one that may fail.
   */
  lemma RunAllSnoc(documents: seq<Row>, videos: seq<Row>, ran: seq<BackgroundTaskItem>, x: BackgroundTaskItem,
                   env: Environment, before: IngestResult, after: IngestResult)
    requires RunAll(documents, videos, ran, env) == before
    requires after == Ingest(before.documents, before.videos, x.task.mediaRecordId, env)
    ensures RunAll(documents, videos, ran + [x], env) == after
    ensures OnlyLastMayFail(documents, videos, ran, env) && (ran == [] || before.outcome.Pass?)
            ==> OnlyLastMayFail(documents, videos, ran + [x], env)
  {
    var s := ran + [x];
    assert s[..|ran|] == ran;
    forall k | 0 < k < |s| ensures s[..k] == ran[..k] {
    }
  }

  /** The worker's part of the service state, as a value. */
  datatype WorkerView = WorkerView(documents: seq<Row>, videos: seq<Row>, taskQueue: multiset<BackgroundTaskItem>,
                                   executed: seq<BackgroundTaskItem>, running: bool)

  /**
   * What the worker loop keeps: from `start`, having run `ran` with `last`
   * as the latest outcome, the tables are those `RunAll` gives, the items ran
   * in priority order and none of them after anything still queued, and the
   * thread is still alive exactly when the latest task passed.
   */
  ghost predicate RunnerState(start: WorkerView, ran: seq<BackgroundTaskItem>, last: Outcome<IngestError>,
                              now: WorkerView, env: Environment)
  {
    && RunAll(start.documents, start.videos, ran, env) == IngestResult(now.documents, now.videos, last)
    && OnlyLastMayFail(start.documents, start.videos, ran, env)
    && (now.running <==> last.Pass?)
    && now.executed == start.executed + ran
    && multiset(ran) + now.taskQueue == start.taskQueue
    && PrioritySorted(ran)
    && (forall x, y :: x in ran && y in now.taskQueue ==> !Less(y, x))
  }

  /** One worker turn that takes a minimal item and ingests it keeps `RunnerState`. */
  lemma RunnerStateStep(start: WorkerView, ran: seq<BackgroundTaskItem>, last: Outcome<IngestError>,
                        now: WorkerView, env: Environment, item: BackgroundTaskItem, outcome: Outcome<IngestError>,
                        next: WorkerView)
    requires RunnerState(start, ran, last, now, env) && now.running
    requires IsMinimal(item, now.taskQueue)
    requires next.taskQueue == now.taskQueue - multiset{item}
    requires next.executed == now.executed + [item]
    requires IngestResult(next.documents, next.videos, outcome)
             == Ingest(now.documents, now.videos, item.task.mediaRecordId, env)
    requires next.running == outcome.Pass?
    ensures RunnerState(start, ran + [item], outcome, next, env)
  {
    RunMinimalNext(ran, now.taskQueue, item);
    RunAllSnoc(start.documents, start.videos, ran, item, env, IngestResult(now.documents, now.videos, last),
               IngestResult(next.documents, next.videos, outcome));
  }

  /**
   * The projection loop: every query row loses the columns of the other kind,
   * in place. Every row carries all eight query columns, so no `del` misses.
   */
  method ProjectResults(rows: array<QueryRow>)
    requires forall i :: 0 <= i < rows.Length ==> rows[i].Keys == QueryColumns
    modifies rows
    ensures forall i :: 0 <= i < rows.Length ==> rows[i] == ProjectRow(old(rows[i]))
  {
    for i := 0 to rows.Length
      invariant forall k :: 0 <= k < i ==> rows[k] == ProjectRow(old(rows[k]))
      invariant forall k :: i <= k < rows.Length ==> rows[k] == old(rows[k])
    {
      var result := rows[i];
      if result["source"] == TextValue("document") {
        result := result - {"startTime"};
        result := result - {"screenText"};
        result := result - {"transcript"};
      } else if result["source"] == TextValue("video") {
        result := result - {"page"};
        result := result - {"text"};
      }
      rows[i] := result;
    }
  }

  class DocProcAiService {
    var documents: seq<Row>
    var videos: seq<Row>
    var taskQueue: multiset<BackgroundTaskItem>
    /** Whether the keep-alive Event the worker loop tests is set. */
    var keepAlive: bool
    /** The service's attribute that first names that Event. */
    var keepAliveAttribute: KeepAliveAttribute
    var workerRunning: bool
    /** The items the worker has taken from the queue and run, in order. */
    var executed: seq<BackgroundTaskItem>

    ghost predicate Valid()
      reads this`documents, this`videos
    {
      TablesValid(documents, videos)
    }

    /**
     * Connects to a database holding the given tables (CREATE TABLE IF NOT
     * EXISTS keeps them), sets the keep-alive flag and starts the worker.
     */
    constructor (storedDocuments: seq<Row>, storedVideos: seq<Row>)
      requires TablesValid(storedDocuments, storedVideos)
      ensures Valid()
      ensures documents == storedDocuments && videos == storedVideos
      ensures taskQueue == multiset{} && keepAlive && workerRunning && executed == []
      ensures keepAliveAttribute == SharedEvent
    {
      keepAliveAttribute := SharedEvent;
      documents, videos := storedDocuments, storedVideos;
      taskQueue := multiset{};
      keepAlive, workerRunning := true, true;
      executed := [];
    }

    /** `PriorityQueue.put`: never blocks, never validates. */
    method Put(item: BackgroundTaskItem)
      modifies this`taskQueue
      ensures taskQueue == old(taskQueue) + multiset{item}
    {
      taskQueue := taskQueue + multiset{item};
    }

    /** Queues the ingest task for `id`, always at priority 0; nothing runs yet. */
    method EnqueueIngestMediaRecordTask(id: MediaRecordId)
      modifies this`taskQueue
      ensures taskQueue == old(taskQueue) + multiset{BackgroundTaskItem(IngestMediaRecordTask(id), 0)}
    {
      Put(BackgroundTaskItem(IngestMediaRecordTask(id), 0));
    }

    /**
     * `__del__` as written: rebinds the service's attribute to `False`. The
     * worker holds the Event itself, which stays set.
     */
    method Dispose()
      modifies this`keepAliveAttribute
      ensures keepAliveAttribute == PlainFalse
    {
      keepAliveAttribute := PlainFalse;
    }

    /** Clears the keep-alive Event that the worker loop tests: what `__del__` is meant to do. */
    method ClearKeepAlive()
      modifies this`keepAlive
      ensures !keepAlive
    {
      keepAlive := false;
    }

    /** `INSERT INTO documents`: appends the row or raises, leaving the table as it was. */
    method InsertIntoDocuments(row: Row) returns (outcome: Outcome<DbError>)
      requires Valid() && row.DocumentRow?
      modifies this`documents
      ensures Valid()
      ensures match InsertRow(old(documents), row)
        case Success(t) => documents == t && outcome == Pass
        case Failure(e) => documents == old(documents) && outcome == Fail(e)
    {
      match InsertRow(documents, row)
      case Success(t) =>
        documents := t;
        outcome := Pass;
      case Failure(e) =>
        outcome := Fail(e);
    }

    /** `INSERT INTO videos`: appends the row or raises, leaving the table as it was. */
    method InsertIntoVideos(row: Row) returns (outcome: Outcome<DbError>)
      requires Valid() && row.VideoRow?
      modifies this`videos
      ensures Valid()
      ensures match InsertRow(old(videos), row)
        case Success(t) => videos == t && outcome == Pass
        case Failure(e) => videos == old(videos) && outcome == Fail(e)
    {
      match InsertRow(videos, row)
      case Success(t) =>
        videos := t;
        outcome := Pass;
      case Failure(e) =>
        outcome := Fail(e);
    }

    /** The insert loop for a PDF: one `INSERT INTO documents` per page result, stopping at the first error. */
    method InsertDocumentRows(id: MediaRecordId, results: seq<PdfEmbeddingResult>) returns (outcome: Outcome<DbError>)
      requires Valid()
      modifies this`documents
      ensures Valid()
      ensures BatchResult(documents, outcome) == InsertAll(old(documents), DocumentRowsOf(id, results))
    {
      ghost var rows := DocumentRowsOf(id, results);
      for i := 0 to |results|
        invariant Valid()
        invariant InsertAll(documents, rows[i..]) == InsertAll(old(documents), rows)
      {
        var result := results[i];
        assert rows[i..] == [rows[i]] + rows[i + 1..];
        var inserted := InsertIntoDocuments(DocumentRow(id, result.pageNumber, result.text, result.embedding));
        if inserted.Fail? {
          return inserted;
        }
      }
      outcome := Pass;
    }

    /** The insert loop for a video: one `INSERT INTO videos` per segment result, stopping at the first error. */
    method InsertVideoRows(id: MediaRecordId, results: seq<VideoEmbeddingResult>) returns (outcome: Outcome<DbError>)
      requires Valid()
      modifies this`videos
      ensures Valid()
      ensures BatchResult(videos, outcome) == InsertAll(old(videos), VideoRowsOf(id, results))
    {
      ghost var rows := VideoRowsOf(id, results);
      for i := 0 to |results|
        invariant Valid()
        invariant InsertAll(videos, rows[i..]) == InsertAll(old(videos), rows)
      {
        var result := results[i];
        assert rows[i..] == [rows[i]] + rows[i + 1..];
        var inserted := InsertIntoVideos(
          VideoRow(id, result.startTime, result.screenText, result.transcript, result.embedding));
        if inserted.Fail? {
          return inserted;
        }
      }
      outcome := Pass;
    }

    /** The ingest task's body, run by the worker: dispatch on the record type and insert row by row. */
    method IngestMediaRecord(id: MediaRecordId, env: Environment) returns (outcome: Outcome<IngestError>)
      requires Valid()
      modifies this`documents, this`videos
      ensures Valid()
      ensures IngestResult(documents, videos, outcome) == Ingest(old(documents), old(videos), id, env)
    {
      var mediaRecord := env.resolve(id);
      var recordType := mediaRecord.recordType;
      if recordType == "PRESENTATION" || recordType == "DOCUMENT" {
        var results := env.pdfEmbeddings(mediaRecord.internalDownloadUrl);
        var inserted := InsertDocumentRows(id, results);
        outcome := AsIngestOutcome(inserted);
      } else if recordType == "VIDEO" {
        var results := env.videoEmbeddings(mediaRecord.internalDownloadUrl);
        var inserted := InsertVideoRows(id, results);
        outcome := AsIngestOutcome(inserted);
      } else {
        outcome := Fail(UnsupportedRecordType(recordType));
      }
    }

    /** Deletes every row of `id` from both tables. */
    method DeleteEntriesOfMediaRecord(id: MediaRecordId)
      requires Valid()
      modifies this`documents, this`videos
      ensures Valid()
      ensures documents == WithoutRecord(old(documents), id)
      ensures videos == WithoutRecord(old(videos), id)
    {
      DeleteKeepsKeysUnique(documents, id);
      DeleteKeepsKeysUnique(videos, id);
      documents := WithoutRecord(documents, id);
      videos := WithoutRecord(videos, id);
    }

    /**
     * Semantic search: the ranked, filtered and limited query result, each row
     * projected to the columns of its kind; `distance` is the cosine distance
     * of an embedding to the embedded query text.
     */
    method SemanticSearch(distance: Embedding -> nat, count: int,
                          blacklist: seq<MediaRecordId>, whitelist: seq<MediaRecordId>)
      returns (r: Result<seq<QueryRow>, SearchError>)
      requires Valid()
      ensures r.Failure? <==> count < 0 || count >= LimitBound
      ensures r == Failure(NegativeLimit) <==> count < 0
      ensures r.Success? ==>
        var ranked := SearchQuery(documents, videos, distance, count, blacklist, whitelist).value;
        && |r.value| == |ranked|
        && forall i :: 0 <= i < |ranked| ==> r.value[i] == HitRow(HitOf(ranked[i]))
      ensures r.Success? ==> forall row :: row in r.value ==>
        row.Keys == DocumentHitColumns || row.Keys == VideoHitColumns
    {
      var query := SearchQuery(documents, videos, distance, count, blacklist, whitelist);
      if query.Failure? {
        return Failure(query.error);
      }
      var ranked := query.value;
      var rows := new QueryRow[|ranked|](i requires 0 <= i < |ranked| => ResultRow(ranked[i]));
      ProjectResults(rows);
      forall i | 0 <= i < |ranked|
        ensures rows[i] == HitRow(HitOf(ranked[i]))
        ensures rows[i].Keys == DocumentHitColumns || rows[i].Keys == VideoHitColumns
      {
        ProjectionGivesHit(ranked[i]);
      }
      r := Success(rows[..]);
    }

    /**
     * One turn of the worker loop: exit when the keep-alive flag is clear or
     * the thread has ended; otherwise take an item of minimal priority, run
     * it to completion and log it. An exception from the task ends the thread.
     */
    method WorkerStep(env: Environment) returns (step: StepResult)
      requires Valid()
      modifies this`documents, this`videos, this`taskQueue, this`executed, this`workerRunning
      ensures Valid()
      ensures step.Exited? <==> !old(keepAlive) || !old(workerRunning)
      ensures step.EmptyPoll? <==> old(keepAlive) && old(workerRunning) && old(taskQueue) == multiset{}
      ensures !step.Ran? ==> unchanged(this)
      ensures step.Ran? ==>
        && IsMinimal(step.item, old(taskQueue))
        && taskQueue == old(taskQueue) - multiset{step.item}
        && executed == old(executed) + [step.item]
        && IngestResult(documents, videos, step.outcome)
             == Ingest(old(documents), old(videos), step.item.task.mediaRecordId, env)
        && workerRunning == step.outcome.Pass?
    {
      if !keepAlive || !workerRunning {
        return Exited;
      }
      if taskQueue == multiset{} {
        return EmptyPoll;
      }
      var item, outcome := TakeAndRun(env);
      step := Ran(item, outcome);
    }

    /**
     * The body of one worker turn with a non-empty queue: `get` an item of
     * minimal priority, run its task and log it; an exception from the task
     * ends the thread.
     */
    method TakeAndRun(env: Environment) returns (item: BackgroundTaskItem, outcome: Outcome<IngestError>)
      requires Valid() && taskQueue != multiset{}
      modifies this`documents, this`videos, this`taskQueue, this`executed, this`workerRunning
      ensures Valid()
      ensures IsMinimal(item, old(taskQueue))
      ensures taskQueue == old(taskQueue) - multiset{item}
      ensures executed == old(executed) + [item]
      ensures IngestResult(documents, videos, outcome) == Ingest(old(documents), old(videos), item.task.mediaRecordId, env)
      ensures workerRunning == outcome.Pass?
    {
      ghost var least := MinimalItem(taskQueue);
      item :| item in taskQueue && IsMinimal(item, taskQueue);
      taskQueue := taskQueue - multiset{item};
      outcome := IngestMediaRecord(item.task.mediaRecordId, env);
      executed := executed + [item];
      workerRunning := outcome.Pass?;   // an exception escapes the loop and ends the thread
    }

    /**
     * The worker loop `_background_task_runner`, for at most `polls` turns.
     * The items it runs come out in priority order, each no later than
     * anything still queued; with enough turns and no failing task it
     * drains the queue.
     */
    method RunBackgroundTaskRunner(env: Environment, polls: nat) returns (ran: seq<BackgroundTaskItem>)
      requires Valid()
      modifies this`documents, this`videos, this`taskQueue, this`executed, this`workerRunning
      ensures Valid()
      ensures keepAlive == old(keepAlive)
      ensures executed == old(executed) + ran
      ensures multiset(ran) + taskQueue == old(taskQueue)
      ensures PrioritySorted(ran)
      ensures forall x, y :: x in ran && y in taskQueue ==> !Less(y, x)
      ensures !old(keepAlive) || !old(workerRunning) ==> ran == [] && unchanged(this)
      ensures IngestNeverFails(env) ==> workerRunning == old(workerRunning)
      ensures documents == RunAll(old(documents), old(videos), ran, env).documents
      ensures videos == RunAll(old(documents), old(videos), ran, env).videos
      ensures OnlyLastMayFail(old(documents), old(videos), ran, env)
      ensures old(workerRunning) ==> (workerRunning <==> ran == [] || RunAll(old(documents), old(videos), ran, env).outcome.Pass?)
      ensures old(keepAlive) && old(workerRunning) && workerRunning ==>
        |ran| == if polls < |old(taskQueue)| then polls else |old(taskQueue)|
      ensures old(keepAlive) && workerRunning && |old(taskQueue)| <= polls ==>
        taskQueue == multiset{} && IsDrainOrder(old(taskQueue), ran)
    {
      ran := [];
      if !keepAlive || !workerRunning {
        return;   // the loop test fails at once
      }
      ghost var start := WorkerView(documents, videos, taskQueue, executed, workerRunning);
      ghost var last;
      ran, last := RunWhileAlive(env, polls, start);
      if IngestNeverFails(env) && ran != [] {
        var before := RunAll(old(documents), old(videos), ran[..|ran| - 1], env);
        assert RunAll(old(documents), old(videos), ran, env)
            == Ingest(before.documents, before.videos, ran[|ran| - 1].task.mediaRecordId, env);
      }
    }

    /**
     * The `while` loop of the worker, entered with the keep-alive flag set
     * and the thread alive: it keeps `RunnerState` from `start`, and with
     * enough turns and no failing task it empties the queue.
     */
    method RunWhileAlive(env: Environment, polls: nat, ghost start: WorkerView)
      returns (ran: seq<BackgroundTaskItem>, ghost last: Outcome<IngestError>)
      requires Valid() && keepAlive && workerRunning
      requires start == WorkerView(documents, videos, taskQueue, executed, workerRunning)
      modifies this`documents, this`videos, this`taskQueue, this`executed, this`workerRunning
      ensures Valid()
      ensures RunnerState(start, ran, last, WorkerView(documents, videos, taskQueue, executed, workerRunning), env)
      ensures workerRunning && |start.taskQueue| <= polls ==> taskQueue == multiset{}
      ensures workerRunning ==> |ran| == if polls < |start.taskQueue| then polls else |start.taskQueue|
    {
      ran, last := [], Pass;
      var i := 0;
      while i < polls && keepAlive && workerRunning
        invariant i <= polls && keepAlive
        invariant RunnerState(start, ran, last, WorkerView(documents, videos, taskQueue, executed, workerRunning), env)
        invariant workerRunning ==> taskQueue == multiset{} || |taskQueue| + i == |start.taskQueue|
        invariant workerRunning ==> |ran| == if i < |start.taskQueue| then i else |start.taskQueue|
        decreases polls - i
      {
        ghost var now := WorkerView(documents, videos, taskQueue, executed, workerRunning);
        var step := WorkerStep(env);
        if step.Ran? {
          RunnerStateStep(start, ran, last, now, env, step.item, step.outcome,
                          WorkerView(documents, videos, taskQueue, executed, workerRunning));
          ran := ran + [step.item];
          last := step.outcome;
        }
        i := i + 1;
      }
    }
  }

  /**
   * Tasks queued with priorities 5, 1 and 3 together, before the worker's next
   * `get` (here: before it starts), run in the order 1, 3, 5.
   */
  method PriorityOrderScenario() returns (order: seq<int>)
    ensures order == [1, 3, 5]
  {
    var env := Environment(id => MediaRecordInfo("VIDEO", ""), url => [], url => []);
    assert IngestNeverFails(env) by {
      forall documents, videos, id ensures Ingest(documents, videos, id, env).outcome == Pass {
        assert VideoRowsOf(id, env.videoEmbeddings("")) == [];
      }
    }
    var service := new DocProcAiService([], []);
    var a := BackgroundTaskItem(IngestMediaRecordTask(1), 5);
    var b := BackgroundTaskItem(IngestMediaRecordTask(2), 1);
    var c := BackgroundTaskItem(IngestMediaRecordTask(3), 3);
    service.Put(a);
    service.Put(b);
    service.Put(c);
    var ran := service.RunBackgroundTaskRunner(env, 3);
    DrainFiveOneThree(a, b, c, ran);
    order := Priorities(ran);
  }

  /** After `__del__` as written, the worker still takes and runs a queued task. */
  method DisposedWorkerStillRuns(env: Environment) returns (step: StepResult)
    ensures step.Ran?
  {
    var service := new DocProcAiService([], []);
    service.Dispose();
    service.EnqueueIngestMediaRecordTask(7);
    step := service.WorkerStep(env);
  }

  /** Once the keep-alive Event is cleared, the worker's next turn exits without running anything. */
  method ClearedWorkerExits(env: Environment) returns (step: StepResult)
    ensures step == Exited
  {
    var service := new DocProcAiService([], []);
    service.ClearKeepAlive();
    service.EnqueueIngestMediaRecordTask(7);
    step := service.WorkerStep(env);
  }
}
