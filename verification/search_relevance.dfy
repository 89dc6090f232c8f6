/** The relevance evaluation's request and response handling: the search body
    built for a query (neural sparse or plain match) and the map from
    document id to score built from the hits of the response. The search
    call itself is an input: the response is given as a JSON value. */
module SearchRelevance {
  import opened Wrappers
  import opened Exceptions
  import opened JsonValue

  /** The number of hits every search asks for. */
  const ResultSize: int := 15

  /** The `_source` filter every search carries. */
  function SourceFields(): Json {
    JArr([JStr("id"), JStr("text")])
  }

  // ----------------------------------------------------- create_query_body

  /** `create_query_body`: the request body for `queryType`, or a ValueError
      for a query type other than "neural_sparse" and "match". The embedding
      field only matters for neural sparse queries. */
  function CreateQueryBody(queryText: string, queryType: string, embeddingField: string): (r: Result<Json, Exception>)
    ensures r.Failure? <==> queryType != "neural_sparse" && queryType != "match"
    ensures r.Failure? ==> r.error == ValueError
    ensures r.Success? ==>
              && r.value.JObj? && r.value.m.Keys == {"query", "_source", "size"}
              && Path(r.value, ["_source"]) == Success(SourceFields())
              && Path(r.value, ["size"]) == Success(JInt(ResultSize))
    ensures queryType == "neural_sparse" ==>
              && Path(r.value, ["query", "neural_sparse", embeddingField, "query_text"]) == Success(JStr(queryText))
              && r.value.m["query"].JObj? && r.value.m["query"].m.Keys == {"neural_sparse"}
              && r.value.m["query"].m["neural_sparse"].JObj?
              && r.value.m["query"].m["neural_sparse"].m.Keys == {embeddingField}
    ensures queryType == "match" ==>
              && Path(r.value, ["query", "match", "text"]) == Success(JStr(queryText))
              && r.value.m["query"].JObj? && r.value.m["query"].m.Keys == {"match"}
              && r.value.m["query"].m["match"].JObj? && r.value.m["query"].m["match"].m.Keys == {"text"}
  {
    if queryType == "neural_sparse" then
      NeuralSparsePath(queryText, embeddingField);
      Success(JObj(map[
        "query" := JObj(map["neural_sparse" := JObj(map[embeddingField := JObj(map["query_text" := JStr(queryText)])])]),
        "_source" := SourceFields(),
        "size" := JInt(ResultSize)]))
    else if queryType == "match" then
      Success(JObj(map[
        "query" := JObj(map["match" := JObj(map["text" := JStr(queryText)])]),
        "_source" := SourceFields(),
        "size" := JInt(ResultSize)]))
    else Failure(ValueError)
  }

  lemma NeuralSparsePath(queryText: string, embeddingField: string)
    ensures var leaf := JObj(map["query_text" := JStr(queryText)]);
            var body := JObj(map[
              "query" := JObj(map["neural_sparse" := JObj(map[embeddingField := leaf])]),
              "_source" := SourceFields(),
              "size" := JInt(ResultSize)]);
            Path(body, ["query", "neural_sparse", embeddingField, "query_text"]) == Success(JStr(queryText))
  {
    var keys := ["query", "neural_sparse", embeddingField, "query_text"];
    var leaf := JObj(map["query_text" := JStr(queryText)]);
    var fields := JObj(map[embeddingField := leaf]);
    var query := JObj(map["neural_sparse" := fields]);
    assert keys[3..][1..] == keys[4..] == [];
    assert Path(leaf, keys[3..]) == Success(JStr(queryText));
    assert keys[2..][1..] == keys[3..];
    assert Path(fields, keys[2..]) == Success(JStr(queryText));
    assert keys[1..][1..] == keys[2..];
    assert Path(query, keys[1..]) == Success(JStr(queryText));
  }

  /** The query text a body searches for, read back the way the search
      engine reads it: from the single neural sparse field, or from the
      match clause. */
  ghost function QueryTextOf(body: Json): Option<string> {
    if !body.JObj? || "query" !in body.m then None
    else
      var q := body.m["query"];
      if !q.JObj? then None
      else if "neural_sparse" in q.m && q.m["neural_sparse"].JObj? && |q.m["neural_sparse"].m| == 1 then
        var fields := q.m["neural_sparse"].m;
        var f :| f in fields;
        match Path(fields[f], ["query_text"])
        case Success(JStr(t)) => Some(t)
        case _ => None
      else if "match" in q.m then
        match Path(q.m["match"], ["text"])
        case Success(JStr(t)) => Some(t)
        case _ => None
      else None
  }

  /** Every body the builder produces searches for exactly the given text,
      whichever query type and embedding field were chosen. */
  lemma QueryTextRoundTrip(queryText: string, queryType: string, embeddingField: string)
    requires CreateQueryBody(queryText, queryType, embeddingField).Success?
    ensures QueryTextOf(CreateQueryBody(queryText, queryType, embeddingField).value) == Some(queryText)
  {
    var body := CreateQueryBody(queryText, queryType, embeddingField).value;
    var q := body.m["query"];
    if queryType == "neural_sparse" {
      var fields := q.m["neural_sparse"].m;
      assert fields.Keys == {embeddingField};
      assert |fields| == 1;
      forall f | f in fields ensures f == embeddingField { }
    } else {
      assert "neural_sparse" !in q.m;
    }
  }

  /** A match body does not depend on the embedding field, and two distinct
      embedding fields give distinct neural sparse bodies. */
  lemma EmbeddingFieldOnlyForNeuralSparse(queryText: string, field1: string, field2: string)
    ensures CreateQueryBody(queryText, "match", field1) == CreateQueryBody(queryText, "match", field2)
    ensures field1 != field2 ==>
              CreateQueryBody(queryText, "neural_sparse", field1) != CreateQueryBody(queryText, "neural_sparse", field2)
  {
    if field1 != field2 {
      var b1 := CreateQueryBody(queryText, "neural_sparse", field1).value;
      var b2 := CreateQueryBody(queryText, "neural_sparse", field2).value;
      assert field1 in b1.m["query"].m["neural_sparse"].m.Keys;
      assert field1 !in b2.m["query"].m["neural_sparse"].m.Keys;
    }
  }

  // ------------------------------------------------------------ search_query

  /** Python dict keys must be hashable: lists and dicts are not. */
  predicate Hashable(v: Json) {
    !v.JArr? && !v.JObj?
  }

  /** One hit of the comprehension: `hit["_source"]["id"]`, then
      `hit["_score"]`, then the insertion, which rejects an unhashable id. */
  function HitEntry(hit: Json): (r: Result<(Json, Json), Exception>)
    ensures r.Success? <==>
              Path(hit, ["_source", "id"]).Success? && Subscript(hit, "_score").Success? &&
              Hashable(Path(hit, ["_source", "id"]).value)
    ensures r.Success? ==> r.value == (Path(hit, ["_source", "id"]).value, hit.m["_score"])
  {
    var id :- Path(hit, ["_source", "id"]);
    var score :- Subscript(hit, "_score");
    if Hashable(id) then Success((id, score)) else Failure(TypeError)
  }

  /** `{hit["_source"]["id"]: hit["_score"] for hit in hits}`, built left to
      right: a later hit with the same id replaces the earlier score, and the
      first malformed hit raises. */
  function Scores(hits: seq<Json>): (r: Result<map<Json, Json>, Exception>)
    ensures r.Success? <==> forall i :: 0 <= i < |hits| ==> HitEntry(hits[i]).Success?
    decreases |hits|
  {
    if |hits| == 0 then Success(map[])
    else
      var before :- Scores(hits[..|hits| - 1]);
      var (id, score) :- HitEntry(hits[|hits| - 1]);
      Success(before[id := score])
  }

  /** The id and the score of a well-formed hit. */
  function IdOf(hit: Json): Json
    requires HitEntry(hit).Success?
  {
    HitEntry(hit).value.0
  }

  function ScoreOf(hit: Json): Json
    requires HitEntry(hit).Success?
  {
    HitEntry(hit).value.1
  }

  /** The map holds exactly the ids of the hits. */
  lemma {:induction false} ScoresKeys(hits: seq<Json>)
    requires Scores(hits).Success?
    ensures forall id :: id in Scores(hits).value <==> exists i :: 0 <= i < |hits| && IdOf(hits[i]) == id
    decreases |hits|
  {
    if |hits| > 0 {
      var n := |hits| - 1;
      var prefix := hits[..n];
      ScoresKeys(prefix);
      var m := Scores(hits).value;
      assert m == Scores(prefix).value[IdOf(hits[n]) := ScoreOf(hits[n])];
      forall k | k in m
        ensures exists i :: 0 <= i < |hits| && IdOf(hits[i]) == k
      {
        if k != IdOf(hits[n]) {
          var i :| 0 <= i < |prefix| && IdOf(prefix[i]) == k;
          assert hits[i] == prefix[i];
        }
      }
      forall i | 0 <= i < |hits|
        ensures IdOf(hits[i]) in m
      {
        if i < n { assert hits[i] == prefix[i]; }
      }
    }
  }

  /** Each id's score is that of the last hit carrying it. */
  lemma {:induction false} ScoresLastHitWins(hits: seq<Json>)
    requires Scores(hits).Success?
    ensures forall i :: 0 <= i < |hits| && (forall j :: i < j < |hits| ==> IdOf(hits[j]) != IdOf(hits[i])) ==>
              IdOf(hits[i]) in Scores(hits).value && Scores(hits).value[IdOf(hits[i])] == ScoreOf(hits[i])
    decreases |hits|
  {
    if |hits| > 0 {
      var n := |hits| - 1;
      var prefix := hits[..n];
      ScoresLastHitWins(prefix);
      var m := Scores(hits).value;
      assert m == Scores(prefix).value[IdOf(hits[n]) := ScoreOf(hits[n])];
      forall i | 0 <= i < n && (forall j :: i < j < |hits| ==> IdOf(hits[j]) != IdOf(hits[i]))
        ensures IdOf(hits[i]) in m && m[IdOf(hits[i])] == ScoreOf(hits[i])
      {
        assert hits[i] == prefix[i];
        forall j | i < j < |prefix|
          ensures IdOf(prefix[j]) != IdOf(prefix[i])
        {
          assert prefix[j] == hits[j];
        }
        assert IdOf(hits[n]) != IdOf(hits[i]);
      }
    }
  }

  /** When the hits are malformed, the error is the first malformed hit's. */
  lemma {:induction false} ScoresFirstError(hits: seq<Json>, i: nat)
    requires i < |hits| && HitEntry(hits[i]).Failure?
    requires forall j :: 0 <= j < i ==> HitEntry(hits[j]).Success?
    ensures Scores(hits) == Failure(HitEntry(hits[i]).error)
    decreases |hits|
  {
    var n := |hits| - 1;
    if i < n {
      ScoresFirstError(hits[..n], i);
    } else {
      assert forall j :: 0 <= j < |hits[..n]| ==> hits[..n][j] == hits[j];
    }
  }

  /** `for hit in hits` over the value at `response["hits"]["hits"]`: a list
      is iterated; an empty dict or string gives no hits; a non-empty dict
      or string yields strings, whose `["_source"]` raises a TypeError; any
      other value is not iterable. */
  function HitList(hits: Json): (r: Result<seq<Json>, Exception>)
    ensures r.Success? <==> hits.JArr? || hits == JObj(map[]) || hits == JStr([])
    ensures r.Failure? ==> r.error == TypeError
    ensures hits.JArr? ==> r == Success(hits.a)
  {
    match hits
    case JArr(a) => Success(a)
    case JObj(m) => if |m| == 0 then Success([]) else Failure(TypeError)
    case JStr(s) => if |s| == 0 then Success([]) else Failure(TypeError)
    case _ => Failure(TypeError)
  }

  /** `search_query`: builds the body, takes the search response (the call
      to the cluster is an input), and returns the query id unchanged with
      the scores of the hits. */
  function SearchQuery(queryId: string, queryText: string, queryType: string, embeddingField: string,
                       response: Json): (r: Result<(string, map<Json, Json>), Exception>)
    ensures CreateQueryBody(queryText, queryType, embeddingField).Failure? ==> r == Failure(ValueError)
    ensures r.Success? ==> r.value.0 == queryId
    ensures r.Success? <==>
              && CreateQueryBody(queryText, queryType, embeddingField).Success?
              && Path(response, ["hits", "hits"]).Success?
              && HitList(Path(response, ["hits", "hits"]).value).Success?
              && Scores(HitList(Path(response, ["hits", "hits"]).value).value).Success?
    ensures r.Success? ==>
              && Path(response, ["hits", "hits"]).Success?
              && HitList(Path(response, ["hits", "hits"]).value).Success?
              && Scores(HitList(Path(response, ["hits", "hits"]).value).value) == Success(r.value.1)
  {
    var _ :- CreateQueryBody(queryText, queryType, embeddingField);
    var hitsValue :- Path(response, ["hits", "hits"]);
    var hits :- HitList(hitsValue);
    var scores :- Scores(hits);
    Success((queryId, scores))
  }
}
