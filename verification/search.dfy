/**
 * `search_qdrant`: embed the question, build the combined filter, search
 * the store, and rerank the hits with FinBERT when asked to; any exception
 * turns the whole call into an error message.
 */
module Search {
  import opened Wrappers
  import opened PyValue
  import opened QueryFilter
  import opened Rerank

  /** A search hit; only its payload is looked at. */
  datatype Point = Point(payload: Object)

  /** The question's embedding; its components stand for the model's floats. */
  datatype Vector = Vector(components: seq<int>)

  /** The `limit` passed to the store. */
  const SearchLimit: nat := 50

  /**
   * The collaborators: the embedding model, the store's filtered search and
   * FinBERT's relevance logit for the question and a hit's text, the text
   * being `None` when the tokenizer is given no second sequence. `None` as a
   * result stands for an exception.
   */
  datatype SearchEnv = SearchEnv(
    embed: string -> Option<Vector>,
    search: (Vector, Filter, nat) -> Option<seq<Point>>,
    relevance: (string, Option<string>) -> int)

  /** What ends up in the `"Failed to search Qdrant: …"` message. */
  datatype SearchError =
    | EmbeddingFailed
    | BadFilter(reason: FilterError)
    | StoreFailed
    | TextMissing

  /**
   * `result.payload['text']` as the tokenizer's `text_pair`: a string is
   * paired with the question, `None` means no pair; a missing key raises
   * `KeyError` and any other value is refused by the tokenizer (`None` here).
   */
  function PointText(p: Point): Option<Option<string>> {
    if "text" !in p.payload then None
    else match p.payload["text"]
      case JStr(s) => Some(Some(s))
      case JNull => Some(None)
      case JInt(_) => None
  }

  /** Every hit paired with FinBERT's score for it, in hit order. */
  function ScorePoints(points: seq<Point>, query: string, relevance: (string, Option<string>) -> int): (r: Result<seq<Scored<Point>>, SearchError>)
    ensures r.Success? <==> forall i :: 0 <= i < |points| ==> PointText(points[i]).Some?
    ensures r.Success? ==> |r.value| == |points|
    ensures r.Success? ==> forall i :: 0 <= i < |points| ==>
              r.value[i] == Scored(points[i], relevance(query, PointText(points[i]).value))
    ensures r.Failure? ==> r.error == TextMissing
    decreases |points|
  {
    if |points| == 0 then Success([])
    else
      var init := points[..|points| - 1];
      var last := points[|points| - 1];
      assert forall i :: 0 <= i < |init| ==> init[i] == points[i];
      match ScorePoints(init, query, relevance)
      case Failure(e) => Failure(e)
      case Success(scored) =>
        match PointText(last)
        case None => Failure(TextMissing)
        case Some(text) => Success(scored + [Scored(last, relevance(query, text))])
  }

  /** `rerank_results_with_finbert`. */
  function RerankWithFinbert(points: seq<Point>, query: string, relevance: (string, Option<string>) -> int): Result<seq<Point>, SearchError> {
    var scored :- ScorePoints(points, query, relevance);
    Success(RerankScored(scored))
  }

  /** `search_qdrant(json_filters, user_input, enable_reranking)`. */
  function SearchQdrant(entries: seq<Object>, query: string, enableReranking: bool, env: SearchEnv): (r: Result<seq<Point>, SearchError>)
    ensures r.Success? <==>
              && env.embed(query).Some? && BuildFilter(entries).Success?
              && env.search(env.embed(query).value, BuildFilter(entries).value, SearchLimit).Some?
              && (enableReranking ==>
                    var hits := env.search(env.embed(query).value, BuildFilter(entries).value, SearchLimit).value;
                    forall i :: 0 <= i < |hits| ==> PointText(hits[i]).Some?)
    ensures r.Success? && !enableReranking ==>
              r.value == env.search(env.embed(query).value, BuildFilter(entries).value, SearchLimit).value
  {
    var vector :- (match env.embed(query) case None => Failure(EmbeddingFailed) case Some(v) => Success(v));
    var filter :- (match BuildFilter(entries) case Failure(e) => Failure(BadFilter(e)) case Success(f) => Success(f));
    var hits :- (match env.search(vector, filter, SearchLimit) case None => Failure(StoreFailed) case Some(h) => Success(h));
    if enableReranking then RerankWithFinbert(hits, query, env.relevance) else Success(hits)
  }

  /**
   * With reranking on, the answer is at most ten of the hits, each used at
   * most as often as the store returned it, in non-increasing FinBERT score.
   */
  lemma RerankedAnswer(entries: seq<Object>, query: string, env: SearchEnv)
    requires SearchQdrant(entries, query, true, env).Success?
    ensures var hits := env.search(env.embed(query).value, BuildFilter(entries).value, SearchLimit).value;
      var answer := SearchQdrant(entries, query, true, env).value;
      && |answer| == Min(RerankLimit, |hits|)
      && multiset(answer) <= multiset(hits)
      && (forall i :: 0 <= i < |answer| ==> PointText(answer[i]).Some?)
      && (forall i, j :: 0 <= i < j < |answer| ==>
            env.relevance(query, PointText(answer[i]).value) >= env.relevance(query, PointText(answer[j]).value))
  {
    var hits := env.search(env.embed(query).value, BuildFilter(entries).value, SearchLimit).value;
    var scored := RerankedFromScores(entries, query, env);
    var top := TopScored(scored);
    var answer := SearchQdrant(entries, query, true, env).value;
    RerankScoredFromInput(scored);
    TopScoredFromInput(scored);
    forall i | 0 <= i < |answer|
      ensures PointText(answer[i]).Some? && env.relevance(query, PointText(answer[i]).value) == top[i].score
    {
      assert top[i] in multiset(scored);
      ScoredCarryRelevance(hits, query, env.relevance, top[i]);
    }
  }

  /** The reranked answer is the top of the scored hits. */
  lemma RerankedFromScores(entries: seq<Object>, query: string, env: SearchEnv) returns (scored: seq<Scored<Point>>)
    requires SearchQdrant(entries, query, true, env).Success?
    ensures var hits := env.search(env.embed(query).value, BuildFilter(entries).value, SearchLimit).value;
      && ScorePoints(hits, query, env.relevance) == Success(scored)
      && Items(scored) == hits
      && SearchQdrant(entries, query, true, env).value == RerankScored(scored)
  {
    var hits := env.search(env.embed(query).value, BuildFilter(entries).value, SearchLimit).value;
    scored := ScorePoints(hits, query, env.relevance).value;
  }

  /** Every scored pair carries its point's FinBERT score. */
  lemma ScoredCarryRelevance(points: seq<Point>, query: string, relevance: (string, Option<string>) -> int, y: Scored<Point>)
    requires ScorePoints(points, query, relevance).Success?
    requires y in ScorePoints(points, query, relevance).value
    ensures PointText(y.item).Some? && relevance(query, PointText(y.item).value) == y.score
  {
    var scored := ScorePoints(points, query, relevance).value;
    var k :| 0 <= k < |scored| && scored[k] == y;
  }

  /**
   * When the store keeps to the filter it is given, every point of the
   * answer, reranked or not, belongs to one of the requested filings.
   */
  lemma AnswerBelongsToRequestedFilings(entries: seq<Object>, query: string, enableReranking: bool, env: SearchEnv)
    requires SearchQdrant(entries, query, enableReranking, env).Success?
    requires var hits := env.search(env.embed(query).value, BuildFilter(entries).value, SearchLimit).value;
             forall i :: 0 <= i < |hits| ==> Matches(hits[i].payload, BuildFilter(entries).value)
    ensures var answer := SearchQdrant(entries, query, enableReranking, env).value;
            forall i :: 0 <= i < |answer| ==>
              exists k :: 0 <= k < |entries| && WellFormedEntry(entries[k]) && EntryMatches(answer[i].payload, entries[k])
  {
    var hits := env.search(env.embed(query).value, BuildFilter(entries).value, SearchLimit).value;
    var answer := SearchQdrant(entries, query, enableReranking, env).value;
    if enableReranking {
      RerankedAnswer(entries, query, env);
    }
    forall i | 0 <= i < |answer|
      ensures exists k :: 0 <= k < |entries| && WellFormedEntry(entries[k]) && EntryMatches(answer[i].payload, entries[k])
    {
      assert answer[i] in multiset(hits);
      var h :| 0 <= h < |hits| && hits[h] == answer[i];
      FilterMatchesIffSomeEntry(entries, answer[i].payload);
    }
  }
}
