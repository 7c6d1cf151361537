/**
 * The first stage shared by the four retrieval pipelines: the E5 query
 * prefix, the optional category filter, and the mapping of the points the
 * vector store returns to candidate records.
 *
 * The encoder and the vector store are parameters of the pipelines; this
 * module fixes what is sent to them and how their answer is read.
 */
module Search {
  import opened Wrappers
  import opened Json
  import Grouping

  /** `f"query: {query}"`, the E5 convention for queries. */
  const QueryPrefix := "query: "

  function QueryText(query: string): (r: string)
    ensures |r| == |QueryPrefix| + |query|
    ensures r[..|QueryPrefix|] == QueryPrefix
    ensures r[|QueryPrefix|..] == query
  {
    QueryPrefix + query
  }

  /** Different queries are never sent to the encoder as the same text. */
  lemma QueryTextInjective(a: string, b: string)
    ensures QueryText(a) == QueryText(b) <==> a == b
  {
    if QueryText(a) == QueryText(b) {
      assert a == QueryText(a)[|QueryPrefix|..];
    }
  }

  // ---------------------------------------------------------------------
  // Filters.

  /** `models.FieldCondition(key=key, match=models.MatchAny(any=values))`. */
  datatype Condition = MatchAny(key: string, any: seq<string>)

  /** `models.Filter(must=conditions)`. */
  datatype Filter = Filter(must: seq<Condition>)

  const CategoriesKey := "categories"

  /**
   * The filter the categorized pipelines send: none when `category` is
   * `None` or the empty string (both falsy), otherwise one condition asking
   * the `categories` field to match the category.
   */
  function CategoryFilter(category: Option<string>): (f: Option<Filter>)
    ensures f.None? <==> category.None? || category.value == ""
    ensures f.Some? ==> |f.value.must| == 1
    ensures f.Some? ==> f.value.must[0] == MatchAny(CategoriesKey, [category.value])
  {
    if category.Some? && category.value != "" then Some(Filter([MatchAny(CategoriesKey, [category.value])]))
    else None
  }

  /**
   * The vector store's reading of `MatchAny`: a keyword field matches when
   * it is one of the values; an array field matches when one of its
   * keyword elements is.
   */
  predicate Matches(v: Value, any: seq<string>) {
    match v
    case String(s) => s in any
    case Array(xs) => exists i :: 0 <= i < |xs| && xs[i].String? && xs[i].s in any
    case _ => false
  }

  predicate Holds(c: Condition, payload: Fields) {
    var v := Get(payload, c.key);
    v.Some? && Matches(v.value, c.any)
  }

  /** A point passes when there is no filter, or every `must` condition holds. */
  predicate Admits(f: Option<Filter>, payload: Fields) {
    f.None? || forall i :: 0 <= i < |f.value.must| ==> Holds(f.value.must[i], payload)
  }

  /** The payload lists `category` among its categories (or is tagged with it alone). */
  predicate HasCategory(payload: Fields, category: string) {
    var v := Get(payload, CategoriesKey);
    && v.Some?
    && (|| v.value == String(category)
        || (v.value.Array? && String(category) in v.value.items))
  }

  /**
   * With a non-empty category the store may return exactly the points
   * tagged with it; with no category, or the empty one, it may return any.
   */
  lemma CategoryFilterAdmits(category: Option<string>, payload: Fields)
    ensures Admits(CategoryFilter(category), payload)
      <==> category.None? || category.value == "" || HasCategory(payload, category.value)
  {
    if category.Some? && category.value != "" {
      var c := category.value;
      var f := CategoryFilter(category);
      var v := Get(payload, CategoriesKey);
      if v.Some? && v.value.Array? {
        var xs := v.value.items;
        if String(c) in xs {
          var i :| 0 <= i < |xs| && xs[i] == String(c);
          assert xs[i].String? && xs[i].s in [c];
        }
        if Matches(v.value, [c]) {
          var i :| 0 <= i < |xs| && xs[i].String? && xs[i].s in [c];
          assert xs[i] == String(c);
        }
      }
      assert Admits(f, payload) <==> Holds(f.value.must[0], payload);
    }
  }

  // ---------------------------------------------------------------------
  // Reading the store's answer.

  /** A scored point as `query_points` returns it. */
  datatype Point = Point(id: Value, score: int, payload: Fields)

  /** `{"id": ..., "initial_score": ..., "payload": ...}` of the reranking pipelines. */
  datatype Candidate = Candidate(id: Value, initialScore: int, payload: Fields)

  /** `vector_search` of the reranking pipelines. */
  function Candidates(points: seq<Point>): (r: seq<Candidate>)
    ensures |r| == |points|
    ensures forall i :: 0 <= i < |r| ==>
      r[i].id == points[i].id && r[i].initialScore == points[i].score && r[i].payload == points[i].payload
  {
    seq(|points|, i requires 0 <= i < |points| => Candidate(points[i].id, points[i].score, points[i].payload))
  }

  /** `vector_search` of the pipelines without a reranker: the vector score is the grouping score. */
  function Hits(points: seq<Point>): (r: seq<Grouping.Hit>)
    ensures |r| == |points|
    ensures forall i :: 0 <= i < |r| ==>
      r[i].id == points[i].id && r[i].score == points[i].score && r[i].payload == points[i].payload
  {
    seq(|points|, i requires 0 <= i < |points| => Grouping.Hit(points[i].id, points[i].score, points[i].payload))
  }
}
