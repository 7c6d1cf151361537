/**
 * `rerank` of the two reranking pipelines: every candidate is paired with
 * the query, the cross-encoder scores the pairs, the candidates are sorted
 * by that score (descending, stable) and cut to `top_k`.
 *
 * The cross-encoder is a parameter `predict`; the two pipelines differ
 * only in the document text they pair with the query (`RichText` in
 * categorized_retrieval_pipeline.py, the raw `text` field in
 * retrieval_pipeline.py).
 */
module Rerank {
  import opened Wrappers
  import opened Json
  import opened Errors
  import Ordering
  import Search

  /** A candidate with the `rerank_score` the cross-encoder gave it. */
  datatype Reranked = Reranked(cand: Search.Candidate, score: int)

  function RerankScore(r: Reranked): int {
    r.score
  }

  const LawLabel := "القانون: "
  const ArticleLabel := "\nالمادة: "
  const ContentLabel := "\nنص المادة: "

  /**
   * The text the categorized pipeline scores: law name, article title and
   * status, then the article text, each read with `.get(key, '')`.
   */
  function RichText(p: Fields): (r: string)
    ensures var content := Display(GetOr(p, "text_content", String("")));
      && |r| >= |LawLabel| + |content|
      && r[..|LawLabel|] == LawLabel
      && r[|r| - |content|..] == content
  {
    var lawName := Display(GetOr(p, "law_name", String("")));
    var details := Display(GetOr(p, "article_title", String("")));
    var status := Display(GetOr(p, "status", String("")));
    var content := Display(GetOr(p, "text_content", String("")));
    LawLabel + lawName + ArticleLabel + details + " (" + status + ")" + ContentLabel + content
  }

  /** A payload without any of the four fields is rendered from empty strings. */
  lemma RichTextOfBarePayload()
    ensures RichText([]) == LawLabel + ArticleLabel + " ()" + ContentLabel
  {
    assert Display(GetOr([], "text_content", String(""))) == "";
  }

  /** The document the plain pipeline scores: `payload.get('text', '')`. */
  function PlainText(p: Fields): Value {
    GetOr(p, "text", String(""))
  }

  /** `pairs`: one `[query, document]` pair per candidate, in order. */
  function Pairs<P>(query: string, cands: seq<Search.Candidate>, doc: Fields -> P): (r: seq<(string, P)>)
    ensures |r| == |cands|
    ensures forall i :: 0 <= i < |r| ==> r[i] == (query, doc(cands[i].payload))
  {
    seq(|cands|, i requires 0 <= i < |cands| => (query, doc(cands[i].payload)))
  }

  /** `res['rerank_score'] = float(scores[i])` for every candidate. */
  function Attach(cands: seq<Search.Candidate>, scores: seq<int>): (r: seq<Reranked>)
    requires |cands| <= |scores|
    ensures |r| == |cands|
    ensures forall i :: 0 <= i < |r| ==> r[i] == Reranked(cands[i], scores[i])
  {
    seq(|cands|, i requires 0 <= i < |cands| => Reranked(cands[i], scores[i]))
  }

  /**
   * `rerank(query, initial_results, top_k)`. No candidates give no results
   * without consulting the cross-encoder; fewer scores than candidates is
   * the `IndexError` of `scores[i]`; extra scores are ignored.
   */
  function Rerank<P>(query: string, cands: seq<Search.Candidate>, doc: Fields -> P,
                     predict: seq<(string, P)> -> seq<int>, topK: int): (r: Result<seq<Reranked>, PyError>)
    ensures r.Err? <==> 0 < |cands| && |predict(Pairs(query, cands, doc))| < |cands|
    ensures r.Err? ==> r.error == IndexError
    ensures r.Ok? && 0 <= topK ==> |r.value| == if topK < |cands| then topK else |cands|
  {
    if |cands| == 0 then Ok([])
    else
      var scores := predict(Pairs(query, cands, doc));
      if |scores| < |cands| then Err(IndexError)
      else Ok(Ordering.Prefix(Ordering.SortDesc(Attach(cands, scores), RerankScore), topK))
  }

  /**
   * The result is the first `top_k` items of THE stable descending sort of
   * the scored candidates: any list that orders them by score and keeps
   * equal scores in candidate order has it as its prefix.
   */
  lemma RerankIsStableSortPrefix<P>(query: string, cands: seq<Search.Candidate>, doc: Fields -> P,
                                    predict: seq<(string, P)> -> seq<int>, topK: int, t: seq<Reranked>)
    requires 0 < |cands| && |cands| <= |predict(Pairs(query, cands, doc))|
    requires Ordering.IsStableSortDesc(t, Attach(cands, predict(Pairs(query, cands, doc))), RerankScore)
    ensures Rerank(query, cands, doc, predict, topK) == Ok(Ordering.Prefix(t, topK))
  {
    Ordering.StableSortDescIsSortDesc(t, Attach(cands, predict(Pairs(query, cands, doc))), RerankScore);
  }

  /** The results come best first, each a candidate carrying its own score. */
  lemma RerankSorted<P>(query: string, cands: seq<Search.Candidate>, doc: Fields -> P,
                        predict: seq<(string, P)> -> seq<int>, topK: int)
    requires Rerank(query, cands, doc, predict, topK).Ok?
    ensures var rs := Rerank(query, cands, doc, predict, topK).value;
      && Ordering.NonIncreasing(rs, RerankScore)
      && forall x :: x in rs ==> exists i :: 0 <= i < |cands| && x == Reranked(cands[i], predict(Pairs(query, cands, doc))[i])
  {
    if 0 < |cands| {
      var scores := predict(Pairs(query, cands, doc));
      var a := Attach(cands, scores);
      var s := Ordering.SortDesc(a, RerankScore);
      Ordering.SortDescIsStable(a, RerankScore);
      Ordering.PrefixNonIncreasing(s, RerankScore, topK);
      var rs := Ordering.Prefix(s, topK);
      forall x | x in rs ensures exists i :: 0 <= i < |cands| && x == Reranked(cands[i], scores[i]) {
        assert x in s;
        assert x in multiset(a);
        var i :| 0 <= i < |a| && a[i] == x;
      }
    }
  }
}
