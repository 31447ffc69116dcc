/**
 * The two pgvector tables of the service, `documents` and `videos`, as the
 * rows they hold in insertion order, together with what the database does on
 * an INSERT (dimension check, primary-key check) and on a DELETE by media
 * record.
 */
module VectorStore {
  import opened Results

  /** The UUID of a media record, kept opaque. */
  type MediaRecordId = nat

  /** Width of the `embedding vector(1024)` columns of both tables. */
  const EmbeddingDimension: nat := 1024

  /** A pgvector value; its float components are abstracted to integers. */
  type Embedding = seq<int>

  /** A primary key: (media_record, page) or (media_record, start_time). */
  type Key = (MediaRecordId, int)

  /** A row of `documents` (DocumentRow) or of `videos` (VideoRow). */
  datatype Row =
    | DocumentRow(mediaRecord: MediaRecordId, page: int, text: string, embedding: Embedding)
    | VideoRow(mediaRecord: MediaRecordId, startTime: int, screenText: string, transcript: string,
               embedding: Embedding)
  {
    function PrimaryKey(): Key {
      match this
      case DocumentRow(id, page, _, _) => (id, page)
      case VideoRow(id, startTime, _, _, _) => (id, startTime)
    }
  }

  /** PostgreSQL's `int` column type: a signed 32-bit integer. */
  predicate IsInt32(n: int) {
    -0x8000_0000 <= n < 0x8000_0000
  }

  /** PostgreSQL's `text` type cannot hold a NUL character. */
  predicate IsText(s: string) {
    '\0' !in s
  }

  /** Every `text` column of the row holds a valid text value. */
  predicate TextFits(row: Row) {
    match row
    case DocumentRow(_, _, text, _) => IsText(text)
    case VideoRow(_, _, screenText, transcript, _) => IsText(screenText) && IsText(transcript)
  }

  /** The row's values fit the declared column types: `int` key part, `text` columns, `vector(1024)`. */
  predicate FitsColumns(row: Row) {
    IsInt32(row.PrimaryKey().1) && TextFits(row) && |row.embedding| == EmbeddingDimension
  }

  /** The ways the database rejects an INSERT. */
  datatype DbError = IntegerOutOfRange | InvalidText | DimensionMismatch | UniqueViolation

  /** A table after a run of INSERT statements, and whether all of them went through. */
  datatype BatchResult = BatchResult(table: seq<Row>, outcome: Outcome<DbError>)

  function Keys(t: seq<Row>): set<Key> {
    set r | r in t :: r.PrimaryKey()
  }

  /** The primary-key constraint: no two rows of a table share a key. */
  ghost predicate KeysUnique(t: seq<Row>) {
    forall i, j :: 0 <= i < j < |t| ==> t[i].PrimaryKey() != t[j].PrimaryKey()
  }

  /** Both tables satisfy their primary keys, and each holds only its own kind of row. */
  ghost predicate TablesValid(documents: seq<Row>, videos: seq<Row>) {
    && KeysUnique(documents)
    && KeysUnique(videos)
    && (forall r :: r in documents ==> r.DocumentRow?)
    && (forall r :: r in videos ==> r.VideoRow?)
  }

  lemma KeysAppend(t: seq<Row>, row: Row)
    ensures Keys(t + [row]) == Keys(t) + {row.PrimaryKey()}
  {
    assert row in t + [row];
    forall k | k in Keys(t) ensures k in Keys(t + [row]) {
      var r :| r in t && r.PrimaryKey() == k;
      assert r in t + [row];
    }
  }

  lemma {:induction false} KeysCons(row: Row, t: seq<Row>)
    ensures Keys([row] + t) == {row.PrimaryKey()} + Keys(t)
  {
    assert row in [row] + t;
    forall k | k in Keys(t) ensures k in Keys([row] + t) {
      var r :| r in t && r.PrimaryKey() == k;
      assert r in [row] + t;
    }
  }

  /** A table that starts with `row` satisfies its key iff the rest does and does not repeat `row`'s key. */
  lemma {:induction false} KeysUniqueCons(row: Row, t: seq<Row>)
    ensures KeysUnique([row] + t) <==> KeysUnique(t) && row.PrimaryKey() !in Keys(t)
  {
    var s := [row] + t;
    if KeysUnique(s) {
      forall i, j | 0 <= i < j < |t| ensures t[i].PrimaryKey() != t[j].PrimaryKey() {
        assert s[i + 1] == t[i] && s[j + 1] == t[j];
      }
    }
    if row.PrimaryKey() in Keys(t) {
      var r :| r in t && r.PrimaryKey() == row.PrimaryKey();
      var k :| 0 <= k < |t| && t[k] == r;
      assert s[0].PrimaryKey() == s[k + 1].PrimaryKey();
    }
    if KeysUnique(t) && row.PrimaryKey() !in Keys(t) {
      forall i, j | 0 <= i < j < |s| ensures s[i].PrimaryKey() != s[j].PrimaryKey() {
        if i == 0 {
          assert s[j] == t[j - 1] && t[j - 1] in t;
        } else {
          assert s[i] == t[i - 1] && s[j] == t[j - 1];
        }
      }
    }
  }

  /**
   * One INSERT statement: a value that does not fit its column type is
   * rejected (an `int` out of 32-bit range, a NUL in `text`, an embedding
   * whose length is not the declared dimension), then the primary key
   * rejects a row whose key is already present; otherwise the row is appended.
   */
  function InsertRow(t: seq<Row>, row: Row): (r: Result<seq<Row>, DbError>)
    ensures r.Success? <==> FitsColumns(row) && row.PrimaryKey() !in Keys(t)
    ensures r == Failure(UniqueViolation) <==> FitsColumns(row) && row.PrimaryKey() in Keys(t)
    ensures r.Success? ==> r.value == t + [row] && Keys(r.value) == Keys(t) + {row.PrimaryKey()}
    ensures r.Success? && KeysUnique(t) ==> KeysUnique(r.value)
  {
    if !IsInt32(row.PrimaryKey().1) then Failure(IntegerOutOfRange)
    else if !TextFits(row) then Failure(InvalidText)
    else if |row.embedding| != EmbeddingDimension then Failure(DimensionMismatch)
    else if row.PrimaryKey() in Keys(t) then Failure(UniqueViolation)
    else
      KeysAppend(t, row);
      assert KeysUnique(t) ==> KeysUnique(t + [row]) by {
        if KeysUnique(t) {
          forall i, j | 0 <= i < j < |t| + 1
            ensures (t + [row])[i].PrimaryKey() != (t + [row])[j].PrimaryKey()
          {
            if j == |t| {
              assert (t + [row])[i] == t[i] && t[i] in t;
            }
          }
        }
      }
      Success(t + [row])
  }

  /**
   * INSERT statements for `rows`, one after the other, each committed on its
   * own: the first rejected row stops the run, and the rows before it stay.
   */
  function InsertAll(t: seq<Row>, rows: seq<Row>): (r: BatchResult)
    ensures |t| <= |r.table| <= |t| + |rows|
    ensures r.table == t + rows[..|r.table| - |t|]
    ensures r.outcome.Pass? <==> |r.table| == |t| + |rows|
    ensures KeysUnique(t) ==> KeysUnique(r.table)
    decreases |rows|
  {
    if rows == [] then BatchResult(t, Pass)
    else
      match InsertRow(t, rows[0])
      case Failure(e) => BatchResult(t, Fail(e))
      case Success(t') =>
        var r := InsertAll(t', rows[1..]);
        assert rows[..|r.table| - |t|] == [rows[0]] + rows[1..][..|r.table| - |t'|];
        r
  }

  /**
   * Autocommit batches: the rows that stay are the batch's first rows, in
   * order, and a failed batch stopped at the first row the database
   * rejected, with that row's error.
   */
  lemma {:induction false} InsertAllStopsAtRejected(t: seq<Row>, rows: seq<Row>)
    ensures var r := InsertAll(t, rows);
      && (forall i :: |t| <= i < |r.table| ==> r.table[i] == rows[i - |t|])
      && (r.outcome.Fail? ==>
            |r.table| - |t| < |rows| && InsertRow(r.table, rows[|r.table| - |t|]) == Failure(r.outcome.error))
    decreases |rows|
  {
    if rows != [] && InsertRow(t, rows[0]).Success? {
      var t' := InsertRow(t, rows[0]).value;
      InsertAllStopsAtRejected(t', rows[1..]);
    }
  }

  /** Every row fits its columns, no two rows share a key, and none reuses a key of `t`. */
  ghost predicate Insertable(t: seq<Row>, rows: seq<Row>) {
    && (forall r :: r in rows ==> FitsColumns(r))
    && KeysUnique(rows)
    && Keys(rows) !! Keys(t)
  }

  /** A batch of inserts goes through completely exactly when the batch is insertable. */
  lemma {:induction false} InsertAllSucceedsIff(t: seq<Row>, rows: seq<Row>)
    ensures InsertAll(t, rows).outcome.Pass? <==> Insertable(t, rows)
    decreases |rows|
  {
    if rows != [] {
      var head, rest := rows[0], rows[1..];
      assert rows == [head] + rest;
      KeysCons(head, rest);
      KeysUniqueCons(head, rest);
      match InsertRow(t, head)
      case Failure(_) =>
        assert head in rows;
      case Success(t') =>
        InsertAllSucceedsIff(t', rest);
    }
  }

  /** The DELETE ... WHERE media_record = id statement: the rows of every other record, in order. */
  function WithoutRecord(t: seq<Row>, id: MediaRecordId): (r: seq<Row>)
    ensures forall row :: row in r <==> row in t && row.mediaRecord != id
    decreases |t|
  {
    if t == [] then []
    else if t[0].mediaRecord == id then WithoutRecord(t[1..], id)
    else [t[0]] + WithoutRecord(t[1..], id)
  }

  /** The rows of one media record, in table order. */
  function RowsOf(t: seq<Row>, id: MediaRecordId): (r: seq<Row>)
    ensures forall row :: row in r <==> row in t && row.mediaRecord == id
    decreases |t|
  {
    if t == [] then []
    else if t[0].mediaRecord == id then [t[0]] + RowsOf(t[1..], id)
    else RowsOf(t[1..], id)
  }

  lemma RowsOfCons(row: Row, t: seq<Row>, id: MediaRecordId)
    ensures RowsOf([row] + t, id) == (if row.mediaRecord == id then [row] else []) + RowsOf(t, id)
  {
    assert ([row] + t)[1..] == t;
  }

  /** Deleting one media record leaves the rows of every other record exactly as they were. */
  lemma {:induction false} DeleteKeepsOtherRecords(t: seq<Row>, id: MediaRecordId, other: MediaRecordId)
    requires other != id
    ensures RowsOf(WithoutRecord(t, id), other) == RowsOf(t, other)
    decreases |t|
  {
    if t != [] {
      DeleteKeepsOtherRecords(t[1..], id, other);
      if t[0].mediaRecord != id {
        RowsOfCons(t[0], WithoutRecord(t[1..], id), other);
      }
    }
  }

  /** Deleting a media record that has no rows changes nothing. */
  lemma {:induction false} DeleteAbsentIsNoop(t: seq<Row>, id: MediaRecordId)
    requires forall r :: r in t ==> r.mediaRecord != id
    ensures WithoutRecord(t, id) == t
    decreases |t|
  {
    if t != [] {
      assert t[0] in t;
      assert forall r :: r in t[1..] ==> r in t;
      DeleteAbsentIsNoop(t[1..], id);
      assert t == [t[0]] + t[1..];
    }
  }

  /** Deleting twice leaves the same table as deleting once. */
  lemma DeleteIsIdempotent(t: seq<Row>, id: MediaRecordId)
    ensures WithoutRecord(WithoutRecord(t, id), id) == WithoutRecord(t, id)
  {
    DeleteAbsentIsNoop(WithoutRecord(t, id), id);
  }

  /** Deleting keeps the primary-key constraint. */
  lemma {:induction false} DeleteKeepsKeysUnique(t: seq<Row>, id: MediaRecordId)
    requires KeysUnique(t)
    ensures KeysUnique(WithoutRecord(t, id))
    decreases |t|
  {
    if t != [] {
      assert t == [t[0]] + t[1..];
      KeysUniqueCons(t[0], t[1..]);
      DeleteKeepsKeysUnique(t[1..], id);
      var w := WithoutRecord(t[1..], id);
      if t[0].mediaRecord != id {
        assert Keys(w) <= Keys(t[1..]) by {
          forall k | k in Keys(w) ensures k in Keys(t[1..]) {
            var r :| r in w && r.PrimaryKey() == k;
            assert r in t[1..];
          }
        }
        KeysUniqueCons(t[0], w);
      }
    }
  }

  lemma {:induction false} RowsOfConcat(a: seq<Row>, b: seq<Row>, id: MediaRecordId)
    ensures RowsOf(a + b, id) == RowsOf(a, id) + RowsOf(b, id)
    decreases |a|
  {
    if a != [] {
      assert a + b == [a[0]] + (a[1..] + b);
      RowsOfCons(a[0], a[1..] + b, id);
      RowsOfConcat(a[1..], b, id);
    } else {
      assert a + b == b;
    }
  }

  lemma {:induction false} RowsOfSingleRecord(rows: seq<Row>, id: MediaRecordId)
    requires forall r :: r in rows ==> r.mediaRecord == id
    ensures RowsOf(rows, id) == rows
    decreases |rows|
  {
    if rows != [] {
      assert rows[0] in rows;
      assert forall r :: r in rows[1..] ==> r in rows;
      RowsOfSingleRecord(rows[1..], id);
      assert rows == [rows[0]] + rows[1..];
    }
  }

  lemma NoRowsOfAbsentRecord(t: seq<Row>, id: MediaRecordId)
    requires forall r :: r in t ==> r.mediaRecord != id
    ensures RowsOf(t, id) == []
  {
    if RowsOf(t, id) != [] {
      assert RowsOf(t, id)[0] in RowsOf(t, id);
    }
  }

  /**
   * Re-inserting a record's rows after deleting the record: the batch goes
   * through when it is well formed, the record then has exactly those rows,
   * and every other record keeps its rows.
   */
  lemma ReinsertAfterDelete(t: seq<Row>, id: MediaRecordId, rows: seq<Row>, other: MediaRecordId)
    requires forall r :: r in rows ==> r.mediaRecord == id && FitsColumns(r)
    requires KeysUnique(rows)
    requires other != id
    ensures var b := InsertAll(WithoutRecord(t, id), rows);
      && b.outcome == Pass
      && RowsOf(b.table, id) == rows
      && RowsOf(b.table, other) == RowsOf(t, other)
  {
    var kept := WithoutRecord(t, id);
    assert Keys(rows) !! Keys(kept) by {
      forall k | k in Keys(rows) ensures k !in Keys(kept) {
        var r :| r in rows && r.PrimaryKey() == k;
      }
    }
    InsertAllSucceedsIff(kept, rows);
    assert rows[..|rows|] == rows;
    assert InsertAll(kept, rows).table == kept + rows;
    RowsOfConcat(kept, rows, id);
    RowsOfConcat(kept, rows, other);
    RowsOfSingleRecord(rows, id);
    NoRowsOfAbsentRecord(kept, id);
    NoRowsOfAbsentRecord(rows, other);
    DeleteKeepsOtherRecords(t, id, other);
  }
}
