/**
 * `retrieve` of the four retrieval pipelines:
 *
 *   categorized_retrieval_pipeline.py                   filter, rerank (search_k), group, top_k
 *   retrieval_pipeline.py                               rerank (top_k), format with ranks
 *   categorized_retrieval_pipeline_without_reranker.py  filter, group by vector score, top_k
 *   retrieval_pipeline_without_reranker.py              group by vector score, top_k
 *
 * The sentence encoder (`encode`), the vector store's `query_points`
 * (`search`: vector, filter, limit) and the cross-encoder (`predict`) are
 * parameters.
 */
module Pipelines {
  import opened Wrappers
  import opened Json
  import opened Errors
  import Ordering
  import Grouping
  import Search
  import Rerank

  /** The reranked candidates as `group_results` reads them: grouped by `rerank_score`. */
  function RerankedHits(rs: seq<Rerank.Reranked>): (r: seq<Grouping.Hit>)
    ensures |r| == |rs|
    ensures forall i :: 0 <= i < |r| ==>
      r[i].id == rs[i].cand.id && r[i].score == rs[i].score && r[i].payload == rs[i].cand.payload
  {
    seq(|rs|, i requires 0 <= i < |rs| => Grouping.Hit(rs[i].cand.id, rs[i].score, rs[i].cand.payload))
  }

  /** `group_results(...)[:top_k]`, as the caller receives it. */
  function GroupTop(hits: seq<Grouping.Hit>, topK: int): (r: seq<Grouping.GroupedResult>)
    ensures 0 <= topK ==> |r| <= topK
  {
    Grouping.Output(Ordering.Prefix(Grouping.GroupResults(hits), topK))
  }

  /** What the categorized reranking pipeline does with the store's answer. */
  function RerankGroupTop(query: string, points: seq<Search.Point>, predict: seq<(string, string)> -> seq<int>,
                          searchK: int, topK: int): (r: Result<seq<Grouping.GroupedResult>, PyError>)
    ensures r.Ok? && 0 <= topK ==> |r.value| <= topK
  {
    var reranked :- Rerank.Rerank(query, Search.Candidates(points), Rerank.RichText, predict, searchK);
    Ok(GroupTop(RerankedHits(reranked), topK))
  }

  /** `CategorizedRAGRetriever.retrieve`. */
  function CategorizedRerankRetrieve<V>(query: string, category: Option<string>, topK: int, searchK: int,
                                        encode: string -> V,
                                        search: (V, Option<Search.Filter>, int) -> seq<Search.Point>,
                                        predict: seq<(string, string)> -> seq<int>)
    : (r: Result<seq<Grouping.GroupedResult>, PyError>)
    ensures r.Ok? && 0 <= topK ==> |r.value| <= topK
  {
    var points := search(encode(Search.QueryText(query)), Search.CategoryFilter(category), searchK);
    RerankGroupTop(query, points, predict, searchK, topK)
  }

  /** One entry of `formatted` in `RAGRetriever.retrieve`. */
  datatype Formatted = Formatted(rank: nat, score: int, initialScore: int, content: Value, metadata: Fields)

  /** `rank` counts from 1; `content` is the `text` field; `metadata` is the rest of the payload. */
  function Format(rs: seq<Rerank.Reranked>): (r: seq<Formatted>)
    ensures |r| == |rs|
    ensures forall i :: 0 <= i < |r| ==> r[i].rank == i + 1 && r[i].score == rs[i].score
  {
    seq(|rs|, i requires 0 <= i < |rs| =>
      var p := rs[i].cand.payload;
      Formatted(i + 1, rs[i].score, rs[i].cand.initialScore, GetOr(p, "text", String("")), Without(p, "text")))
  }

  /** What the plain reranking pipeline does with the store's answer. */
  function RerankFormat(query: string, points: seq<Search.Point>, predict: seq<(string, Value)> -> seq<int>,
                        topK: int): (r: Result<seq<Formatted>, PyError>)
    ensures r.Ok? && 0 <= topK ==> |r.value| <= topK
  {
    var reranked :- Rerank.Rerank(query, Search.Candidates(points), Rerank.PlainText, predict, topK);
    Ok(Format(reranked))
  }

  /** `RAGRetriever.retrieve`: the cross-encoder already cuts to `top_k`; nothing is grouped. */
  function PlainRerankRetrieve<V>(query: string, topK: int, searchK: int,
                                  encode: string -> V,
                                  search: (V, Option<Search.Filter>, int) -> seq<Search.Point>,
                                  predict: seq<(string, Value)> -> seq<int>)
    : (r: Result<seq<Formatted>, PyError>)
    ensures r.Ok? && 0 <= topK ==> |r.value| <= topK
  {
    var points := search(encode(Search.QueryText(query)), None, searchK);
    RerankFormat(query, points, predict, topK)
  }

  /** `CategorizedRAGRetrieverNoReranker.retrieve`. */
  function CategorizedRetrieve<V>(query: string, category: Option<string>, topK: int, searchK: int,
                                  encode: string -> V,
                                  search: (V, Option<Search.Filter>, int) -> seq<Search.Point>)
    : (r: seq<Grouping.GroupedResult>)
    ensures 0 <= topK ==> |r| <= topK
  {
    var points := search(encode(Search.QueryText(query)), Search.CategoryFilter(category), searchK);
    GroupTop(Search.Hits(points), topK)
  }

  /** `RAGRetrieverNoReranker.retrieve`. */
  function PlainRetrieve<V>(query: string, topK: int, searchK: int,
                            encode: string -> V,
                            search: (V, Option<Search.Filter>, int) -> seq<Search.Point>)
    : (r: seq<Grouping.GroupedResult>)
    ensures 0 <= topK ==> |r| <= topK
  {
    var points := search(encode(Search.QueryText(query)), None, searchK);
    GroupTop(Search.Hits(points), topK)
  }

  // ---------------------------------------------------------------------
  // Properties of the compositions.

  /** Every result has the score and payload of one of the hits. */
  predicate ScoredFrom(r: seq<Grouping.GroupedResult>, hits: seq<Grouping.Hit>) {
    forall i :: 0 <= i < |r| ==>
      exists j :: 0 <= j < |hits| && hits[j].score == r[i].score && hits[j].payload == r[i].payload
  }

  /** Every result has the payload of one of the points the store returned. */
  predicate PayloadsFrom(r: seq<Grouping.GroupedResult>, points: seq<Search.Point>) {
    forall i :: 0 <= i < |r| ==> exists j :: 0 <= j < |points| && points[j].payload == r[i].payload
  }

  /** The store honoured the filter: it admits every point returned. */
  predicate AllAdmitted(f: Option<Search.Filter>, points: seq<Search.Point>) {
    forall j :: 0 <= j < |points| ==> Search.Admits(f, points[j].payload)
  }

  /** Every result is tagged with the category `c`. */
  predicate AllInCategory(r: seq<Grouping.GroupedResult>, c: string) {
    forall i :: 0 <= i < |r| ==> Search.HasCategory(r[i].payload, c)
  }

  /** Grouping, then keeping a prefix: best first, each result taken from one of the hits. */
  lemma GroupTopSound(hits: seq<Grouping.Hit>, topK: int)
    ensures Ordering.NonIncreasing(GroupTop(hits, topK), Grouping.ResultScore)
    ensures ScoredFrom(GroupTop(hits, topK), hits)
  {
    var gs := Grouping.GroupResults(hits);
    var c := Grouping.Collect(hits);
    Ordering.SortDescIsStable(c, Grouping.Best);
    Ordering.PrefixNonIncreasing(gs, Grouping.Best, topK);
    Grouping.OutputNonIncreasing(Ordering.Prefix(gs, topK));
    Grouping.GroupResultsProvenance(hits);
    var p := Ordering.Prefix(gs, topK);
    var r := Grouping.Output(p);
    forall i | 0 <= i < |r|
      ensures exists j :: 0 <= j < |hits| && hits[j].score == r[i].score && hits[j].payload == r[i].payload
    {
      assert p[i] in gs;
    }
  }

  /** Grouping the store's points directly: each result carries a returned point's score and payload. */
  lemma GroupPointsSound(points: seq<Search.Point>, topK: int)
    ensures Ordering.NonIncreasing(GroupTop(Search.Hits(points), topK), Grouping.ResultScore)
    ensures ScoredFromPoints(GroupTop(Search.Hits(points), topK), points)
    ensures PayloadsFrom(GroupTop(Search.Hits(points), topK), points)
  {
    var hits := Search.Hits(points);
    var r := GroupTop(hits, topK);
    GroupTopSound(hits, topK);
    forall i | 0 <= i < |r|
      ensures exists j :: 0 <= j < |points| && points[j].score == r[i].score && points[j].payload == r[i].payload
    {
      var j :| 0 <= j < |hits| && hits[j].score == r[i].score && hits[j].payload == r[i].payload;
      assert points[j].score == hits[j].score;
    }
  }

  /** Every result has the score and payload of one of the points the store returned. */
  predicate ScoredFromPoints(r: seq<Grouping.GroupedResult>, points: seq<Search.Point>) {
    forall i :: 0 <= i < |r| ==>
      exists j :: 0 <= j < |points| && points[j].score == r[i].score && points[j].payload == r[i].payload
  }

  /**
   * Without a reranker, the categorized pipeline returns results best
   * first, each carrying the score and payload of a point the store
   * returned; when the store honours the filter, every result is tagged
   * with the requested category.
   */
  lemma CategorizedRetrieveSound<V>(query: string, category: Option<string>, topK: int, searchK: int,
                                    encode: string -> V,
                                    search: (V, Option<Search.Filter>, int) -> seq<Search.Point>)
    ensures var points := search(encode(Search.QueryText(query)), Search.CategoryFilter(category), searchK);
      var r := CategorizedRetrieve(query, category, topK, searchK, encode, search);
      && Ordering.NonIncreasing(r, Grouping.ResultScore)
      && ScoredFromPoints(r, points)
      && (AllAdmitted(Search.CategoryFilter(category), points) && category.Some? && category.value != ""
          ==> AllInCategory(r, category.value))
  {
    var points := search(encode(Search.QueryText(query)), Search.CategoryFilter(category), searchK);
    GroupPointsSound(points, topK);
    if AllAdmitted(Search.CategoryFilter(category), points) && category.Some? && category.value != "" {
      AdmittedCarryCategory(category, points, GroupTop(Search.Hits(points), topK));
    }
  }

  /** With no category (or the empty one) the categorized pipeline is the plain one. */
  lemma NoCategoryIsPlain<V>(query: string, category: Option<string>, topK: int, searchK: int,
                             encode: string -> V,
                             search: (V, Option<Search.Filter>, int) -> seq<Search.Point>)
    requires category.None? || category.value == ""
    ensures CategorizedRetrieve(query, category, topK, searchK, encode, search)
         == PlainRetrieve(query, topK, searchK, encode, search)
  {
  }

  /** Results whose payloads come from points the filter admitted carry the category. */
  lemma AdmittedCarryCategory(category: Option<string>, points: seq<Search.Point>, r: seq<Grouping.GroupedResult>)
    requires category.Some? && category.value != ""
    requires AllAdmitted(Search.CategoryFilter(category), points)
    requires PayloadsFrom(r, points)
    ensures AllInCategory(r, category.value)
  {
    forall i | 0 <= i < |r| ensures Search.HasCategory(r[i].payload, category.value) {
      var j :| 0 <= j < |points| && points[j].payload == r[i].payload;
      Search.CategoryFilterAdmits(category, points[j].payload);
    }
  }

  /** Every reranked candidate's payload and initial score are those of a point the store returned. */
  predicate RerankedFrom(rs: seq<Rerank.Reranked>, points: seq<Search.Point>) {
    forall k :: 0 <= k < |rs| ==>
      exists j :: 0 <= j < |points| && rs[k].cand.payload == points[j].payload && rs[k].cand.initialScore == points[j].score
  }

  /** Every reranked candidate's payload is that of a point the store returned. */
  lemma RerankedFromPoints<P>(query: string, points: seq<Search.Point>, doc: Fields -> P,
                              predict: seq<(string, P)> -> seq<int>, topK: int)
    requires Rerank.Rerank(query, Search.Candidates(points), doc, predict, topK).Ok?
    ensures RerankedFrom(Rerank.Rerank(query, Search.Candidates(points), doc, predict, topK).value, points)
  {
    var cands := Search.Candidates(points);
    var rs := Rerank.Rerank(query, cands, doc, predict, topK).value;
    Rerank.RerankSorted(query, cands, doc, predict, topK);
    forall k | 0 <= k < |rs|
      ensures exists j :: 0 <= j < |points| && rs[k].cand.payload == points[j].payload && rs[k].cand.initialScore == points[j].score
    {
      assert rs[k] in rs;
      var j :| 0 <= j < |cands| && rs[k] == Rerank.Reranked(cands[j], predict(Rerank.Pairs(query, cands, doc))[j]);
    }
  }

  /** Grouping reranked candidates: each result's payload is one the store returned. */
  lemma GroupRerankedSound(reranked: seq<Rerank.Reranked>, points: seq<Search.Point>, topK: int)
    requires RerankedFrom(reranked, points)
    ensures Ordering.NonIncreasing(GroupTop(RerankedHits(reranked), topK), Grouping.ResultScore)
    ensures PayloadsFrom(GroupTop(RerankedHits(reranked), topK), points)
  {
    var hits := RerankedHits(reranked);
    var r := GroupTop(hits, topK);
    GroupTopSound(hits, topK);
    forall i | 0 <= i < |r| ensures exists j :: 0 <= j < |points| && points[j].payload == r[i].payload {
      var k :| 0 <= k < |hits| && hits[k].score == r[i].score && hits[k].payload == r[i].payload;
      assert hits[k].payload == reranked[k].cand.payload;
    }
  }

  /** After reranking and grouping: best first, each result with the payload of a returned point. */
  lemma RerankGroupTopSound(query: string, points: seq<Search.Point>, predict: seq<(string, string)> -> seq<int>,
                            searchK: int, topK: int)
    requires RerankGroupTop(query, points, predict, searchK, topK).Ok?
    ensures Ordering.NonIncreasing(RerankGroupTop(query, points, predict, searchK, topK).value, Grouping.ResultScore)
    ensures PayloadsFrom(RerankGroupTop(query, points, predict, searchK, topK).value, points)
  {
    var reranked := Rerank.Rerank(query, Search.Candidates(points), Rerank.RichText, predict, searchK).value;
    RerankedFromPoints(query, points, Rerank.RichText, predict, searchK);
    GroupRerankedSound(reranked, points, topK);
  }

  /**
   * The reranking categorized pipeline returns results best first by
   * reranker score, each with the payload of a point the store returned;
   * when the store honours the filter, every result carries the category.
   */
  lemma CategorizedRerankRetrieveSound<V>(query: string, category: Option<string>, topK: int, searchK: int,
                                          encode: string -> V,
                                          search: (V, Option<Search.Filter>, int) -> seq<Search.Point>,
                                          predict: seq<(string, string)> -> seq<int>)
    requires CategorizedRerankRetrieve(query, category, topK, searchK, encode, search, predict).Ok?
    ensures var points := search(encode(Search.QueryText(query)), Search.CategoryFilter(category), searchK);
      var r := CategorizedRerankRetrieve(query, category, topK, searchK, encode, search, predict).value;
      && Ordering.NonIncreasing(r, Grouping.ResultScore)
      && PayloadsFrom(r, points)
      && (AllAdmitted(Search.CategoryFilter(category), points) && category.Some? && category.value != ""
          ==> AllInCategory(r, category.value))
  {
    var points := search(encode(Search.QueryText(query)), Search.CategoryFilter(category), searchK);
    RerankGroupTopSound(query, points, predict, searchK, topK);
    if AllAdmitted(Search.CategoryFilter(category), points) && category.Some? && category.value != "" {
      AdmittedCarryCategory(category, points, RerankGroupTop(query, points, predict, searchK, topK).value);
    }
  }

  /**
   * After reranking and formatting: `min(top_k, #points)` results ranked
   * 1, 2, ... best first; `content` is the point's `text` field and
   * `metadata` keeps every other payload field.
   */
  lemma RerankFormatSound(query: string, points: seq<Search.Point>, predict: seq<(string, Value)> -> seq<int>, topK: int)
    requires RerankFormat(query, points, predict, topK).Ok?
    ensures var r := RerankFormat(query, points, predict, topK).value;
      && (0 <= topK ==> |r| == if topK < |points| then topK else |points|)
      && (forall i, j :: 0 <= i < j < |r| ==> r[i].score >= r[j].score)
      && forall i :: 0 <= i < |r| ==>
           && r[i].rank == i + 1
           && Get(r[i].metadata, "text").None?
           && exists j :: 0 <= j < |points|
                && r[i].initialScore == points[j].score
                && r[i].content == GetOr(points[j].payload, "text", String(""))
                && forall k :: k != "text" ==> Get(r[i].metadata, k) == Get(points[j].payload, k)
  {
    var cands := Search.Candidates(points);
    var reranked := Rerank.Rerank(query, cands, Rerank.PlainText, predict, topK).value;
    Rerank.RerankSorted(query, cands, Rerank.PlainText, predict, topK);
    RerankedFromPoints(query, points, Rerank.PlainText, predict, topK);
    assert RerankedFrom(reranked, points);
    var r := Format(reranked);
    forall i | 0 <= i < |r|
      ensures exists j :: 0 <= j < |points|
                && r[i].initialScore == points[j].score
                && r[i].content == GetOr(points[j].payload, "text", String(""))
                && forall k :: k != "text" ==> Get(r[i].metadata, k) == Get(points[j].payload, k)
    {
      var j :| 0 <= j < |points| && reranked[i].cand.payload == points[j].payload && reranked[i].cand.initialScore == points[j].score;
      assert r[i].metadata == Without(points[j].payload, "text");
    }
  }

  /** The plain reranking pipeline, in terms of the request it sends. */
  lemma PlainRerankRetrieveSound<V>(query: string, topK: int, searchK: int,
                                    encode: string -> V,
                                    search: (V, Option<Search.Filter>, int) -> seq<Search.Point>,
                                    predict: seq<(string, Value)> -> seq<int>)
    requires PlainRerankRetrieve(query, topK, searchK, encode, search, predict).Ok?
    ensures var points := search(encode(Search.QueryText(query)), None, searchK);
      var r := PlainRerankRetrieve(query, topK, searchK, encode, search, predict).value;
      && (0 <= topK ==> |r| == if topK < |points| then topK else |points|)
      && forall i :: 0 <= i < |r| ==> r[i].rank == i + 1 && Get(r[i].metadata, "text").None?
  {
    RerankFormatSound(query, search(encode(Search.QueryText(query)), None, searchK), predict, topK);
  }

  /** A store that returns nothing gives no results, and the cross-encoder is not needed. */
  lemma NoPointsNoResults<V>(query: string, category: Option<string>, topK: int, searchK: int,
                             encode: string -> V,
                             search: (V, Option<Search.Filter>, int) -> seq<Search.Point>,
                             predict: seq<(string, string)> -> seq<int>)
    requires search(encode(Search.QueryText(query)), Search.CategoryFilter(category), searchK) == []
    ensures CategorizedRerankRetrieve(query, category, topK, searchK, encode, search, predict) == Ok([])
    ensures CategorizedRetrieve(query, category, topK, searchK, encode, search) == []
  {
    assert Grouping.Collect([]) == [];
  }
}
