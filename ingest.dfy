/**
 * The body of the ingest task: resolve the media record, dispatch on its
 * type to the matching embedding generator, and insert one row per result.
 * The media service and the two generators are external; they are the
 * function fields of an Environment.
 */
module Ingestion {
  import opened Results
  import opened VectorStore

  /** What the media service reports for a media record. */
  datatype MediaRecordInfo = MediaRecordInfo(recordType: string, internalDownloadUrl: string)

  /** One chunk produced by the PDF embedding generator. */
  datatype PdfEmbeddingResult = PdfEmbeddingResult(text: string, pageNumber: int, embedding: Embedding)

  /** One chunk produced by the video embedding generator. */
  datatype VideoEmbeddingResult =
    VideoEmbeddingResult(screenText: string, transcript: string, startTime: int, embedding: Embedding)

  /** The external collaborators the ingest task calls. */
  datatype Environment = Environment(
    resolve: MediaRecordId -> MediaRecordInfo,
    pdfEmbeddings: string -> seq<PdfEmbeddingResult>,
    videoEmbeddings: string -> seq<VideoEmbeddingResult>)

  /** The exceptions an ingest task can raise. */
  datatype IngestError = UnsupportedRecordType(recordType: string) | InsertFailed(error: DbError)

  /** Both tables after an ingest task, and how the task ended. */
  datatype IngestResult = IngestResult(documents: seq<Row>, videos: seq<Row>, outcome: Outcome<IngestError>)

  /** The record types that are ingested through the PDF generator. */
  predicate IsDocumentType(recordType: string) {
    recordType == "PRESENTATION" || recordType == "DOCUMENT"
  }

  /**
   * The parameters of the INSERT for each page result: one `documents` row
   * per result, all of record `id`, keyed by (id, page number).
   */
  function DocumentRowsOf(id: MediaRecordId, results: seq<PdfEmbeddingResult>): seq<Row> {
    seq(|results|, i requires 0 <= i < |results| =>
      DocumentRow(id, results[i].pageNumber, results[i].text, results[i].embedding))
  }

  /**
   * The parameters of the INSERT for each segment result: one `videos` row
   * per result, all of record `id`, keyed by (id, start time).
   */
  function VideoRowsOf(id: MediaRecordId, results: seq<VideoEmbeddingResult>): seq<Row> {
    seq(|results|, i requires 0 <= i < |results| =>
      VideoRow(id, results[i].startTime, results[i].screenText, results[i].transcript, results[i].embedding))
  }

  function AsIngestOutcome(o: Outcome<DbError>): Outcome<IngestError> {
    match o
    case Pass => Pass
    case Fail(e) => Fail(InsertFailed(e))
  }

  /**
   * The ingest task for media record `id`: PRESENTATION and DOCUMENT records
   * go to `documents`, VIDEO records to `videos`, and any other type raises
   * before anything is inserted.
   */
  function Ingest(documents: seq<Row>, videos: seq<Row>, id: MediaRecordId, env: Environment): (r: IngestResult)
    ensures var recordType := env.resolve(id).recordType;
      && (IsDocumentType(recordType) ==> r.videos == videos)
      && (recordType == "VIDEO" ==> r.documents == documents)
      && (!IsDocumentType(recordType) && recordType != "VIDEO" ==>
            r == IngestResult(documents, videos, Fail(UnsupportedRecordType(recordType))))
    ensures TablesValid(documents, videos) ==> TablesValid(r.documents, r.videos)
  {
    var info := env.resolve(id);
    if IsDocumentType(info.recordType) then
      var rows := DocumentRowsOf(id, env.pdfEmbeddings(info.internalDownloadUrl));
      var b := InsertAll(documents, rows);
      assert forall r :: r in b.table ==> r in documents || r in rows;
      IngestResult(b.table, videos, AsIngestOutcome(b.outcome))
    else if info.recordType == "VIDEO" then
      var rows := VideoRowsOf(id, env.videoEmbeddings(info.internalDownloadUrl));
      var b := InsertAll(videos, rows);
      assert forall r :: r in b.table ==> r in videos || r in rows;
      IngestResult(documents, b.table, AsIngestOutcome(b.outcome))
    else
      IngestResult(documents, videos, Fail(UnsupportedRecordType(info.recordType)))
  }

  /** A page result's values fit the columns of `documents`. */
  predicate PageFits(result: PdfEmbeddingResult) {
    IsInt32(result.pageNumber) && IsText(result.text) && |result.embedding| == EmbeddingDimension
  }

  /** A segment result's values fit the columns of `videos`. */
  predicate SegmentFits(result: VideoEmbeddingResult) {
    && IsInt32(result.startTime) && IsText(result.screenText) && IsText(result.transcript)
    && |result.embedding| == EmbeddingDimension
  }

  /** Every page result fits its columns, pages are distinct, and none is stored yet for `id`. */
  ghost predicate PagesInsertable(documents: seq<Row>, id: MediaRecordId, results: seq<PdfEmbeddingResult>) {
    && (forall i :: 0 <= i < |results| ==> PageFits(results[i]))
    && (forall i, j :: 0 <= i < j < |results| ==> results[i].pageNumber != results[j].pageNumber)
    && (forall i :: 0 <= i < |results| ==> (id, results[i].pageNumber) !in Keys(documents))
  }

  /** Every segment result fits its columns, start times are distinct, and none is stored yet for `id`. */
  ghost predicate SegmentsInsertable(videos: seq<Row>, id: MediaRecordId, results: seq<VideoEmbeddingResult>) {
    && (forall i :: 0 <= i < |results| ==> SegmentFits(results[i]))
    && (forall i, j :: 0 <= i < j < |results| ==> results[i].startTime != results[j].startTime)
    && (forall i :: 0 <= i < |results| ==> (id, results[i].startTime) !in Keys(videos))
  }

  lemma DocumentRowsInsertable(documents: seq<Row>, id: MediaRecordId, results: seq<PdfEmbeddingResult>)
    ensures Insertable(documents, DocumentRowsOf(id, results)) <==> PagesInsertable(documents, id, results)
  {
    var rows := DocumentRowsOf(id, results);
    assert forall i :: 0 <= i < |rows| ==> rows[i].PrimaryKey() == (id, results[i].pageNumber);
    assert forall i :: 0 <= i < |rows| ==> (FitsColumns(rows[i]) <==> PageFits(results[i]));
    assert forall r :: r in rows <==> exists i :: 0 <= i < |rows| && rows[i] == r;
    assert Keys(rows) == set i | 0 <= i < |results| :: (id, results[i].pageNumber) by {
      forall k | k in Keys(rows) ensures exists i :: 0 <= i < |results| && k == (id, results[i].pageNumber) {
        var r :| r in rows && r.PrimaryKey() == k;
        var i :| 0 <= i < |rows| && rows[i] == r;
      }
      forall i | 0 <= i < |results| ensures (id, results[i].pageNumber) in Keys(rows) {
        assert rows[i] in rows;
      }
    }
  }

  lemma VideoRowsInsertable(videos: seq<Row>, id: MediaRecordId, results: seq<VideoEmbeddingResult>)
    ensures Insertable(videos, VideoRowsOf(id, results)) <==> SegmentsInsertable(videos, id, results)
  {
    var rows := VideoRowsOf(id, results);
    assert forall i :: 0 <= i < |rows| ==> rows[i].PrimaryKey() == (id, results[i].startTime);
    assert forall i :: 0 <= i < |rows| ==> (FitsColumns(rows[i]) <==> SegmentFits(results[i]));
    assert forall r :: r in rows <==> exists i :: 0 <= i < |rows| && rows[i] == r;
    assert Keys(rows) == set i | 0 <= i < |results| :: (id, results[i].startTime) by {
      forall k | k in Keys(rows) ensures exists i :: 0 <= i < |results| && k == (id, results[i].startTime) {
        var r :| r in rows && r.PrimaryKey() == k;
        var i :| 0 <= i < |rows| && rows[i] == r;
      }
      forall i | 0 <= i < |results| ensures (id, results[i].startTime) in Keys(rows) {
        assert rows[i] in rows;
      }
    }
  }

  /** The batch of `documents` rows for the results goes through exactly when they are insertable. */
  lemma DocumentBatchPasses(documents: seq<Row>, id: MediaRecordId, results: seq<PdfEmbeddingResult>)
    ensures InsertAll(documents, DocumentRowsOf(id, results)).outcome.Pass? <==> PagesInsertable(documents, id, results)
  {
    InsertAllSucceedsIff(documents, DocumentRowsOf(id, results));
    DocumentRowsInsertable(documents, id, results);
  }

  /** Each row the batch of `documents` rows appends carries its page result's page, text and embedding. */
  lemma DocumentBatchRows(documents: seq<Row>, id: MediaRecordId, results: seq<PdfEmbeddingResult>)
    ensures var b := InsertAll(documents, DocumentRowsOf(id, results));
      forall i :: |documents| <= i < |b.table| ==>
        b.table[i] == DocumentRow(id, results[i - |documents|].pageNumber, results[i - |documents|].text,
                                  results[i - |documents|].embedding)
  {
    var rows := DocumentRowsOf(id, results);
    var b := InsertAll(documents, rows);
    InsertAllStopsAtRejected(documents, rows);
    forall i | |documents| <= i < |b.table|
      ensures b.table[i] == DocumentRow(id, results[i - |documents|].pageNumber, results[i - |documents|].text,
                                        results[i - |documents|].embedding)
    {
    }
  }

  /** A failed batch of `documents` rows failed on the row of the first page result it did not append. */
  lemma DocumentBatchRejects(documents: seq<Row>, id: MediaRecordId, results: seq<PdfEmbeddingResult>)
    ensures var b := InsertAll(documents, DocumentRowsOf(id, results));
      b.outcome.Fail? ==>
        var k := |b.table| - |documents|;
        && k < |results|
        && InsertRow(b.table, DocumentRow(id, results[k].pageNumber, results[k].text, results[k].embedding))
           == Failure(b.outcome.error)
  {
    var rows := DocumentRowsOf(id, results);
    var b := InsertAll(documents, rows);
    InsertAllStopsAtRejected(documents, rows);
    if b.outcome.Fail? {
      var k := |b.table| - |documents|;
      assert rows[k] == DocumentRow(id, results[k].pageNumber, results[k].text, results[k].embedding);
    }
  }

  /**
   * Ingesting a PRESENTATION or DOCUMENT record: `videos` is untouched; the
   * task succeeds exactly when its pages are insertable, and then it has
   * appended one row per page result carrying id, page number, text and
   * embedding; whatever happens, the rows it appended are those of a prefix
   * of the results, in order.
   */
  lemma IngestDocumentRecord(documents: seq<Row>, videos: seq<Row>, id: MediaRecordId, env: Environment)
    requires IsDocumentType(env.resolve(id).recordType)
    ensures var results := env.pdfEmbeddings(env.resolve(id).internalDownloadUrl);
      var r := Ingest(documents, videos, id, env);
      && r.videos == videos
      && (r.outcome.Pass? <==> PagesInsertable(documents, id, results))
      && |documents| <= |r.documents| <= |documents| + |results|
      && r.documents[..|documents|] == documents
      && (forall i :: |documents| <= i < |r.documents| ==>
            r.documents[i] == DocumentRow(id, results[i - |documents|].pageNumber,
                                          results[i - |documents|].text, results[i - |documents|].embedding))
      && (r.outcome.Pass? ==> |r.documents| == |documents| + |results|)

  {
    var results := env.pdfEmbeddings(env.resolve(id).internalDownloadUrl);
    var b := InsertAll(documents, DocumentRowsOf(id, results));
    assert Ingest(documents, videos, id, env) == IngestResult(b.table, videos, AsIngestOutcome(b.outcome));
    DocumentBatchPasses(documents, id, results);
    DocumentBatchRows(documents, id, results);
  }
  /**
   * A failed document ingest raised from an INSERT: the rows of the results before
   * the first rejected one stay, and the next result's row is the one rejected.
   */
  lemma IngestDocumentFailure(documents: seq<Row>, videos: seq<Row>, id: MediaRecordId, env: Environment)
    requires IsDocumentType(env.resolve(id).recordType)
    ensures var results := env.pdfEmbeddings(env.resolve(id).internalDownloadUrl);
      var r := Ingest(documents, videos, id, env);
      r.outcome.Fail? ==>
        && r.outcome.error.InsertFailed?
        && var k := |r.documents| - |documents|;
        && k < |results|
        && InsertRow(r.documents, DocumentRow(id, results[k].pageNumber, results[k].text, results[k].embedding))
           == Failure(r.outcome.error.error)
  {
    var results := env.pdfEmbeddings(env.resolve(id).internalDownloadUrl);
    var b := InsertAll(documents, DocumentRowsOf(id, results));
    assert Ingest(documents, videos, id, env) == IngestResult(b.table, videos, AsIngestOutcome(b.outcome));
    DocumentBatchRejects(documents, id, results);
  }


  /** The batch of `videos` rows for the results goes through exactly when they are insertable. */
  lemma VideoBatchPasses(videos: seq<Row>, id: MediaRecordId, results: seq<VideoEmbeddingResult>)
    ensures InsertAll(videos, VideoRowsOf(id, results)).outcome.Pass? <==> SegmentsInsertable(videos, id, results)
  {
    InsertAllSucceedsIff(videos, VideoRowsOf(id, results));
    VideoRowsInsertable(videos, id, results);
  }

  /** Each row the batch of `videos` rows appends carries its segment result's start time, texts and embedding. */
  lemma VideoBatchRows(videos: seq<Row>, id: MediaRecordId, results: seq<VideoEmbeddingResult>)
    ensures var b := InsertAll(videos, VideoRowsOf(id, results));
      forall i :: |videos| <= i < |b.table| ==>
        b.table[i] == VideoRow(id, results[i - |videos|].startTime, results[i - |videos|].screenText,
                               results[i - |videos|].transcript, results[i - |videos|].embedding)
  {
    var rows := VideoRowsOf(id, results);
    var b := InsertAll(videos, rows);
    InsertAllStopsAtRejected(videos, rows);
    forall i | |videos| <= i < |b.table|
      ensures b.table[i] == VideoRow(id, results[i - |videos|].startTime, results[i - |videos|].screenText,
                                     results[i - |videos|].transcript, results[i - |videos|].embedding)
    {
    }
  }

  /** A failed batch of `videos` rows failed on the row of the first segment result it did not append. */
  lemma VideoBatchRejects(videos: seq<Row>, id: MediaRecordId, results: seq<VideoEmbeddingResult>)
    ensures var b := InsertAll(videos, VideoRowsOf(id, results));
      b.outcome.Fail? ==>
        var k := |b.table| - |videos|;
        && k < |results|
        && InsertRow(b.table, VideoRow(id, results[k].startTime, results[k].screenText,
                                       results[k].transcript, results[k].embedding))
           == Failure(b.outcome.error)
  {
    var rows := VideoRowsOf(id, results);
    var b := InsertAll(videos, rows);
    InsertAllStopsAtRejected(videos, rows);
    if b.outcome.Fail? {
      var k := |b.table| - |videos|;
      assert rows[k] == VideoRow(id, results[k].startTime, results[k].screenText, results[k].transcript,
                                 results[k].embedding);
    }
  }

  /**
   * Ingesting a VIDEO record: `documents` is untouched; the task succeeds
   * exactly when its segments are insertable, and then it has appended one
   * row per segment result; whatever happens, the rows it appended are those
   * of a prefix of the results, in order.
   */
  lemma IngestVideoRecord(documents: seq<Row>, videos: seq<Row>, id: MediaRecordId, env: Environment)
    requires env.resolve(id).recordType == "VIDEO"
    ensures var results := env.videoEmbeddings(env.resolve(id).internalDownloadUrl);
      var r := Ingest(documents, videos, id, env);
      && r.documents == documents
      && (r.outcome.Pass? <==> SegmentsInsertable(videos, id, results))
      && |videos| <= |r.videos| <= |videos| + |results|
      && r.videos[..|videos|] == videos
      && (forall i :: |videos| <= i < |r.videos| ==>
            r.videos[i] == VideoRow(id, results[i - |videos|].startTime, results[i - |videos|].screenText,
                                    results[i - |videos|].transcript, results[i - |videos|].embedding))
      && (r.outcome.Pass? ==> |r.videos| == |videos| + |results|)

  {
    var results := env.videoEmbeddings(env.resolve(id).internalDownloadUrl);
    var b := InsertAll(videos, VideoRowsOf(id, results));
    assert Ingest(documents, videos, id, env) == IngestResult(documents, b.table, AsIngestOutcome(b.outcome));
    VideoBatchPasses(videos, id, results);
    VideoBatchRows(videos, id, results);
  }
  /**
   * A failed video ingest raised from an INSERT: the rows of the results before
   * the first rejected one stay, and the next result's row is the one rejected.
   */
  lemma IngestVideoFailure(documents: seq<Row>, videos: seq<Row>, id: MediaRecordId, env: Environment)
    requires env.resolve(id).recordType == "VIDEO"
    ensures var results := env.videoEmbeddings(env.resolve(id).internalDownloadUrl);
      var r := Ingest(documents, videos, id, env);
      r.outcome.Fail? ==>
        && r.outcome.error.InsertFailed?
        && var k := |r.videos| - |videos|;
        && k < |results|
        && InsertRow(r.videos, VideoRow(id, results[k].startTime, results[k].screenText,
                                        results[k].transcript, results[k].embedding))
           == Failure(r.outcome.error.error)
  {
    var results := env.videoEmbeddings(env.resolve(id).internalDownloadUrl);
    var b := InsertAll(videos, VideoRowsOf(id, results));
    assert Ingest(documents, videos, id, env) == IngestResult(documents, b.table, AsIngestOutcome(b.outcome));
    VideoBatchRejects(videos, id, results);
  }


  /**
   * The rows of one PDF result list: one per result, all `documents` rows of
   * `id`, keyed by (id, page number), so their keys are unique when the pages
   * are distinct.
   */
  lemma DocumentRowsShape(id: MediaRecordId, results: seq<PdfEmbeddingResult>)
    ensures |DocumentRowsOf(id, results)| == |results|
    ensures forall i :: 0 <= i < |results| ==> DocumentRowsOf(id, results)[i].PrimaryKey() == (id, results[i].pageNumber)
    ensures forall r :: r in DocumentRowsOf(id, results) ==> r.mediaRecord == id && r.DocumentRow?
    ensures (forall i, j :: 0 <= i < j < |results| ==> results[i].pageNumber != results[j].pageNumber)
            ==> KeysUnique(DocumentRowsOf(id, results))
  {
    var rows := DocumentRowsOf(id, results);
    assert forall r :: r in rows ==> exists i :: 0 <= i < |rows| && rows[i] == r;
  }

  /**
   * The rows of one segment result list: one per result, all `videos` rows of
   * `id`, keyed by (id, start time).
   */
  lemma VideoRowsShape(id: MediaRecordId, results: seq<VideoEmbeddingResult>)
    ensures |VideoRowsOf(id, results)| == |results|
    ensures forall i :: 0 <= i < |results| ==> VideoRowsOf(id, results)[i].PrimaryKey() == (id, results[i].startTime)
    ensures forall r :: r in VideoRowsOf(id, results) ==> r.mediaRecord == id && r.VideoRow?
  {
    var rows := VideoRowsOf(id, results);
    assert forall r :: r in rows ==> exists i :: 0 <= i < |rows| && rows[i] == r;
  }

  /**
   * Deleting a document record and ingesting it again raises no unique
   * violation when the generator's pages are distinct and of the declared
   * dimension; afterwards the record's rows are exactly those of a fresh
   * ingestion, and every other record's rows are as before the delete.
   */
  lemma ReingestAfterDelete(documents: seq<Row>, videos: seq<Row>, id: MediaRecordId, env: Environment,
                            other: MediaRecordId)
    requires IsDocumentType(env.resolve(id).recordType)
    requires var results := env.pdfEmbeddings(env.resolve(id).internalDownloadUrl);
      && (forall i :: 0 <= i < |results| ==> PageFits(results[i]))
      && (forall i, j :: 0 <= i < j < |results| ==> results[i].pageNumber != results[j].pageNumber)
    requires other != id
    ensures var r := Ingest(WithoutRecord(documents, id), WithoutRecord(videos, id), id, env);
      && r.outcome == Pass
      && RowsOf(r.documents, id) == RowsOf(Ingest([], [], id, env).documents, id)
      && RowsOf(r.documents, id) == DocumentRowsOf(id, env.pdfEmbeddings(env.resolve(id).internalDownloadUrl))
      && RowsOf(r.documents, other) == RowsOf(documents, other)
  {
    var results := env.pdfEmbeddings(env.resolve(id).internalDownloadUrl);
    var rows := DocumentRowsOf(id, results);
    DocumentRowsShape(id, results);
    assert forall r :: r in rows ==> FitsColumns(r) by {
      assert forall r :: r in rows ==> exists i :: 0 <= i < |rows| && rows[i] == r;
    }
    ReinsertAfterDelete(documents, id, rows, other);
    ReinsertAfterDelete([], id, rows, other);
  }
}
