/**
 * The semantic-search query over both tables: keep the rows whose media
 * record is whitelisted and not blacklisted, tag and score them, take the
 * UNION ALL, order by score and apply the LIMIT; then the projection that
 * strips every result row down to the columns of its own kind.
 */
module Search {
  import opened Results
  import opened VectorStore

  /** A row that passed the filter, with its distance to the query. */
  datatype Candidate = Candidate(row: Row, score: nat)

  /**
   * The database rejects a negative LIMIT, and one that does not fit the
   * `bigint` that LIMIT takes.
   */
  datatype SearchError = NegativeLimit | LimitOutOfRange

  /** One more than the largest `bigint`, 2^63. */
  const LimitBound: int := 0x8000_0000_0000_0000

  /** `media_record = ANY(whitelist) AND NOT media_record = ANY(blacklist)`. */
  predicate Eligible(id: MediaRecordId, whitelist: seq<MediaRecordId>, blacklist: seq<MediaRecordId>) {
    id in whitelist && id !in blacklist
  }

  /** The WHERE clause applied to one table, keeping table order. */
  function EligibleRows(t: seq<Row>, whitelist: seq<MediaRecordId>, blacklist: seq<MediaRecordId>): (r: seq<Row>)
    ensures forall row :: row in r <==> row in t && Eligible(row.mediaRecord, whitelist, blacklist)
    ensures |r| <= |t|
    decreases |t|
  {
    if t == [] then []
    else if Eligible(t[0].mediaRecord, whitelist, blacklist) then [t[0]] + EligibleRows(t[1..], whitelist, blacklist)
    else EligibleRows(t[1..], whitelist, blacklist)
  }

  /** With an empty blacklist, a table whose records are all whitelisted is kept whole. */
  lemma {:induction false} EmptyBlacklistExcludesNothing(t: seq<Row>, whitelist: seq<MediaRecordId>)
    requires forall r :: r in t ==> r.mediaRecord in whitelist
    ensures EligibleRows(t, whitelist, []) == t
    decreases |t|
  {
    if t != [] {
      assert t[0] in t;
      assert forall r :: r in t[1..] ==> r in t;
      EmptyBlacklistExcludesNothing(t[1..], whitelist);
      assert t == [t[0]] + t[1..];
    }
  }

  /** `embedding <=> query_embedding AS score` for each row. */
  function Scored(rows: seq<Row>, distance: Embedding -> nat): seq<Candidate> {
    seq(|rows|, i requires 0 <= i < |rows| => Candidate(rows[i], distance(rows[i].embedding)))
  }

  /** document_results UNION ALL video_results. */
  function Candidates(documents: seq<Row>, videos: seq<Row>, distance: Embedding -> nat,
                      whitelist: seq<MediaRecordId>, blacklist: seq<MediaRecordId>): seq<Candidate>
  {
    Scored(EligibleRows(documents, whitelist, blacklist) + EligibleRows(videos, whitelist, blacklist), distance)
  }

  /** Scoring gives one candidate per row: exactly the rows, each paired with its own distance. */
  lemma ScoredPairsRows(rows: seq<Row>, distance: Embedding -> nat)
    ensures |Scored(rows, distance)| == |rows|
    ensures forall c :: c in Scored(rows, distance) <==> c.row in rows && c.score == distance(c.row.embedding)
  {
    var r := Scored(rows, distance);
    forall c: Candidate | c.row in rows && c.score == distance(c.row.embedding) ensures c in r {
      var i :| 0 <= i < |rows| && rows[i] == c.row;
      assert r[i] == c;
    }
  }

  /**
   * The UNION ALL holds one candidate per eligible row of either table, and
   * its candidates are exactly the eligible stored rows, each scored by its
   * own distance.
   */
  lemma CandidatesOfEligibleRows(documents: seq<Row>, videos: seq<Row>, distance: Embedding -> nat,
                                 whitelist: seq<MediaRecordId>, blacklist: seq<MediaRecordId>)
    ensures |Candidates(documents, videos, distance, whitelist, blacklist)|
            == |EligibleRows(documents, whitelist, blacklist)| + |EligibleRows(videos, whitelist, blacklist)|
    ensures forall c :: c in Candidates(documents, videos, distance, whitelist, blacklist) <==>
      && (c.row in documents || c.row in videos)
      && Eligible(c.row.mediaRecord, whitelist, blacklist)
      && c.score == distance(c.row.embedding)
  {
    ScoredPairsRows(EligibleRows(documents, whitelist, blacklist) + EligibleRows(videos, whitelist, blacklist), distance);
  }

  ghost predicate ScoreSorted(s: seq<Candidate>) {
    forall i, j :: 0 <= i < j < |s| ==> s[i].score <= s[j].score
  }

  function InsertByScore(c: Candidate, s: seq<Candidate>): (r: seq<Candidate>)
    requires ScoreSorted(s)
    ensures ScoreSorted(r)
    ensures multiset(r) == multiset(s) + multiset{c}
    decreases |s|
  {
    if s == [] || c.score <= s[0].score then [c] + s
    else
      var rest := InsertByScore(c, s[1..]);
      assert s == [s[0]] + s[1..];
      SortedCons(s[0], rest, c, s[1..]);
      [s[0]] + rest
  }

  /** Prepending an element no larger than anything in `rest` keeps the order. */
  lemma SortedCons(x: Candidate, rest: seq<Candidate>, c: Candidate, s: seq<Candidate>)
    requires ScoreSorted(rest) && ScoreSorted([x] + s)
    requires multiset(rest) == multiset(s) + multiset{c} && x.score <= c.score
    ensures ScoreSorted([x] + rest)
  {
    forall j | 0 <= j < |rest| ensures x.score <= rest[j].score {
      assert rest[j] in multiset(rest);
      if rest[j] != c {
        assert rest[j] in s;
        var m :| 0 <= m < |s| && s[m] == rest[j];
        assert ([x] + s)[0] == x && ([x] + s)[m + 1] == s[m];
      }
    }
    forall i, j | 0 <= i < j < |rest| + 1 ensures ([x] + rest)[i].score <= ([x] + rest)[j].score {
      if i > 0 {
        assert ([x] + rest)[i] == rest[i - 1] && ([x] + rest)[j] == rest[j - 1];
      } else {
        assert ([x] + rest)[j] == rest[j - 1];
      }
    }
  }

  /** ORDER BY score: a reordering of `s` with non-decreasing scores. */
  function SortByScore(s: seq<Candidate>): (r: seq<Candidate>)
    ensures ScoreSorted(r)
    ensures multiset(r) == multiset(s)
    decreases |s|
  {
    if s == [] then []
    else
      assert s == [s[0]] + s[1..];
      InsertByScore(s[0], SortByScore(s[1..]))
  }

  /** The whole SQL query: filter, union, order by score, limit `count`. */
  function SearchQuery(documents: seq<Row>, videos: seq<Row>, distance: Embedding -> nat, count: int,
                       blacklist: seq<MediaRecordId>, whitelist: seq<MediaRecordId>): (r: Result<seq<Candidate>, SearchError>)
    ensures r.Failure? <==> count < 0 || count >= LimitBound
    ensures r == Failure(NegativeLimit) <==> count < 0
  {
    if count < 0 then Failure(NegativeLimit)
    else if count >= LimitBound then Failure(LimitOutOfRange)
    else
      var ranked := SortByScore(Candidates(documents, videos, distance, whitelist, blacklist));
      Success(if count < |ranked| then ranked[..count] else ranked)
  }

  /**
   * The query returns min(count, number of candidates) rows in
   * non-decreasing score order, drawn from the candidates, and no candidate
   * it leaves out scores lower than one it returns.
   */
  lemma SearchQueryOrderAndLimit(documents: seq<Row>, videos: seq<Row>, distance: Embedding -> nat, count: int,
                                 blacklist: seq<MediaRecordId>, whitelist: seq<MediaRecordId>)
    ensures var q := SearchQuery(documents, videos, distance, count, blacklist, whitelist);
      var cands := Candidates(documents, videos, distance, whitelist, blacklist);
      q.Success? ==>
      var r := q.value;
      && |r| == (if count < |cands| then count else |cands|)
      && ScoreSorted(r)
      && multiset(r) <= multiset(cands)
      && (forall x, y :: x in r && y in multiset(cands) - multiset(r) ==> x.score <= y.score)
  {
    if !SearchQuery(documents, videos, distance, count, blacklist, whitelist).Success? {
      return;
    }
    var cands := Candidates(documents, videos, distance, whitelist, blacklist);
    var ranked := SortByScore(cands);
    assert |ranked| == |multiset(ranked)| == |cands|;
    var k := if count < |ranked| then count else |ranked|;
    assert SearchQuery(documents, videos, distance, count, blacklist, whitelist).value == ranked[..k];
    SortedPrefix(ranked, k);
  }

  /** A prefix of a score-sorted sequence is sorted and scores no higher than what follows it. */
  lemma SortedPrefix(ranked: seq<Candidate>, k: nat)
    requires ScoreSorted(ranked) && k <= |ranked|
    ensures ScoreSorted(ranked[..k])
    ensures multiset(ranked[..k]) <= multiset(ranked)
    ensures forall x, y :: x in ranked[..k] && y in multiset(ranked) - multiset(ranked[..k]) ==> x.score <= y.score
  {
    var r := ranked[..k];
    assert ranked == r + ranked[k..];
    assert multiset(ranked[k..]) == multiset(ranked) - multiset(r);
    forall x, y | x in r && y in multiset(ranked[k..]) ensures x.score <= y.score {
      PrefixBelowSuffix(ranked, k, x, y);
    }
  }

  /** In a score-sorted sequence, nothing before position `k` scores higher than anything from `k` on. */
  lemma PrefixBelowSuffix(ranked: seq<Candidate>, k: nat, x: Candidate, y: Candidate)
    requires ScoreSorted(ranked) && k <= |ranked|
    requires x in ranked[..k] && y in ranked[k..]
    ensures x.score <= y.score
  {
    var i :| 0 <= i < k && ranked[..k][i] == x;
    var j :| 0 <= j < |ranked| - k && ranked[k..][j] == y;
    assert ranked[i] == x && ranked[k + j] == y;
  }

  /**
   * Every returned row is a stored row of an eligible media record, carries
   * that row's distance, and is a document exactly when it comes from the
   * documents table.
   */
  lemma SearchResultProvenance(documents: seq<Row>, videos: seq<Row>, distance: Embedding -> nat, count: int,
                               blacklist: seq<MediaRecordId>, whitelist: seq<MediaRecordId>)
    requires TablesValid(documents, videos)
    ensures var q := SearchQuery(documents, videos, distance, count, blacklist, whitelist);
      forall c :: q.Success? && c in q.value ==>
      && Eligible(c.row.mediaRecord, whitelist, blacklist)
      && c.score == distance(c.row.embedding)
      && (c.row in documents || c.row in videos)
      && (c.row.DocumentRow? <==> c.row in documents)
  {
    if !SearchQuery(documents, videos, distance, count, blacklist, whitelist).Success? {
      return;
    }
    var cands := Candidates(documents, videos, distance, whitelist, blacklist);
    var rows := EligibleRows(documents, whitelist, blacklist) + EligibleRows(videos, whitelist, blacklist);
    var ranked := SortByScore(cands);
    var r := SearchQuery(documents, videos, distance, count, blacklist, whitelist).value;
    forall c | c in r
      ensures Eligible(c.row.mediaRecord, whitelist, blacklist) && c.score == distance(c.row.embedding)
      ensures c.row in documents || c.row in videos
    {
      assert c in ranked;
      assert c in multiset(cands);
      var i :| 0 <= i < |cands| && cands[i] == c;
      assert c.row == rows[i];
      assert rows[i] in rows;
    }
  }

  /** No whitelisted record escapes the blacklist (an empty whitelist, or one whose ids are all blacklisted): no hits. */
  lemma NoEligibleRecordNoHits(documents: seq<Row>, videos: seq<Row>, distance: Embedding -> nat, count: int,
                               blacklist: seq<MediaRecordId>, whitelist: seq<MediaRecordId>)
    requires forall id :: id in whitelist ==> id in blacklist
    ensures var q := SearchQuery(documents, videos, distance, count, blacklist, whitelist);
      q.Success? ==> q.value == []
  {
    NoEligibleRows(documents, whitelist, blacklist);
    NoEligibleRows(videos, whitelist, blacklist);
  }

  lemma NoEligibleRows(t: seq<Row>, whitelist: seq<MediaRecordId>, blacklist: seq<MediaRecordId>)
    requires forall id :: id in whitelist ==> id in blacklist
    ensures EligibleRows(t, whitelist, blacklist) == []
  {
  }

  /** A cell of a query result row. */
  datatype Value = UuidValue(id: MediaRecordId) | TextValue(text: string) | IntValue(n: int) | ScoreValue(distance: nat) | Null

  /** A result row as the dict row factory returns it: column name to value. */
  type QueryRow = map<string, Value>

  const QueryColumns: set<string> :=
    {"mediaRecordId", "source", "page", "startTime", "text", "screenText", "transcript", "score"}
  const DocumentHitColumns: set<string> := {"mediaRecordId", "source", "page", "text", "score"}
  const VideoHitColumns: set<string> := {"mediaRecordId", "source", "startTime", "screenText", "transcript", "score"}

  /** The SELECT list of document_results or video_results: all eight columns, NULL where the kind has none. */
  function ResultRow(c: Candidate): (r: QueryRow)
    ensures r.Keys == QueryColumns
    ensures r["mediaRecordId"] == UuidValue(c.row.mediaRecord) && r["score"] == ScoreValue(c.score)
    ensures r["source"] == TextValue(if c.row.DocumentRow? then "document" else "video")
  {
    match c.row
    case DocumentRow(id, page, text, _) =>
      map["mediaRecordId" := UuidValue(id), "source" := TextValue("document"), "page" := IntValue(page),
          "startTime" := Null, "text" := TextValue(text), "screenText" := Null, "transcript" := Null,
          "score" := ScoreValue(c.score)]
    case VideoRow(id, startTime, screenText, transcript, _) =>
      map["mediaRecordId" := UuidValue(id), "source" := TextValue("video"), "page" := Null,
          "startTime" := IntValue(startTime), "text" := Null, "screenText" := TextValue(screenText),
          "transcript" := TextValue(transcript), "score" := ScoreValue(c.score)]
  }

  /** One pass of the projection loop: drop the other kind's columns from a row. */
  function ProjectRow(row: QueryRow): QueryRow {
    if "source" in row && row["source"] == TextValue("document") then row - {"startTime", "screenText", "transcript"}
    else if "source" in row && row["source"] == TextValue("video") then row - {"page", "text"}
    else row
  }

  /** The projection only removes columns, never mediaRecordId, source or score, and changes no value. */
  lemma ProjectRowOnlyDrops(row: QueryRow)
    ensures ProjectRow(row).Keys <= row.Keys
    ensures row.Keys * {"mediaRecordId", "source", "score"} <= ProjectRow(row).Keys
    ensures forall k :: k in ProjectRow(row) ==> ProjectRow(row)[k] == row[k]
  {
  }

  /** A search result of one of the two kinds, each with its own fields only. */
  datatype SearchHit =
    | DocumentHit(mediaRecordId: MediaRecordId, page: int, text: string, score: nat)
    | VideoHit(mediaRecordId: MediaRecordId, startTime: int, screenText: string, transcript: string, score: nat)

  function HitOf(c: Candidate): SearchHit {
    match c.row
    case DocumentRow(id, page, text, _) => DocumentHit(id, page, text, c.score)
    case VideoRow(id, startTime, screenText, transcript, _) => VideoHit(id, startTime, screenText, transcript, c.score)
  }

  /** The dict the service hands back for a hit. */
  function HitRow(h: SearchHit): QueryRow {
    match h
    case DocumentHit(id, page, text, score) =>
      map["mediaRecordId" := UuidValue(id), "source" := TextValue("document"), "page" := IntValue(page),
          "text" := TextValue(text), "score" := ScoreValue(score)]
    case VideoHit(id, startTime, screenText, transcript, score) =>
      map["mediaRecordId" := UuidValue(id), "source" := TextValue("video"), "startTime" := IntValue(startTime),
          "screenText" := TextValue(screenText), "transcript" := TextValue(transcript), "score" := ScoreValue(score)]
  }

  /**
   * Projecting a query row leaves exactly the columns of its kind, with the
   * values of the stored row and its score: the dict of its SearchHit.
   */
  lemma ProjectionGivesHit(c: Candidate)
    ensures ProjectRow(ResultRow(c)) == HitRow(HitOf(c))
    ensures ProjectRow(ResultRow(c)).Keys == if c.row.DocumentRow? then DocumentHitColumns else VideoHitColumns
  {
    var p := ProjectRow(ResultRow(c));
    assert p.Keys == HitRow(HitOf(c)).Keys;
  }
}
