/**
 * `group_results`, which appears three times in the retrieval pipelines
 * (categorized_retrieval_pipeline.py groups by `rerank_score`, both
 * pipelines without a reranker group by the vector `score`). It is modelled
 * once: each variant first projects its records to `Hit`s carrying the
 * score it groups by.
 *
 * Sub-chunks are collected in an insertion-ordered dictionary keyed by
 * `article_group_id` (or the chunk id when that is falsy); each entry keeps
 * the best score, the payload of the first chunk reaching it and the number
 * of chunks; the entries are then sorted by best score, descending and
 * stable.
 */
module Grouping {
  import opened Json
  import Ordering

  /** A candidate as the grouper sees it: chunk id, the score it groups by, payload. */
  datatype Hit = Hit(id: Value, score: int, payload: Fields)

  /** `res['payload'].get('article_group_id')`, or `res['id']` when that is falsy. */
  function GroupKey(h: Hit): (k: Value)
    ensures Get(h.payload, "article_group_id").Some? && Truthy(Get(h.payload, "article_group_id").value)
      ==> k == Get(h.payload, "article_group_id").value
    ensures Get(h.payload, "article_group_id").None? || !Truthy(Get(h.payload, "article_group_id").value)
      ==> k == h.id
  {
    var g := Get(h.payload, "article_group_id");
    if g.Some? && Truthy(g.value) then g.value else h.id
  }

  /** One dictionary entry: `best_score`, `primary_chunk`'s payload and `len(all_chunks)`. */
  datatype Group = Group(key: Value, best: int, primary: Fields, count: nat)

  /** What `group_results` returns per group. */
  datatype GroupedResult = GroupedResult(score: int, payload: Fields, groupCount: nat)

  function Emit(g: Group): GroupedResult {
    GroupedResult(g.best, g.primary, g.count)
  }

  function Best(g: Group): int {
    g.best
  }

  /** Position of the entry for `k`, or `|gs|` when there is none. */
  function IndexOf(gs: seq<Group>, k: Value): (i: nat)
    ensures i <= |gs|
    ensures i < |gs| ==> gs[i].key == k
    ensures forall j :: 0 <= j < i ==> gs[j].key != k
  {
    if |gs| == 0 then 0 else if gs[0].key == k then 0 else 1 + IndexOf(gs[1..], k)
  }

  /** A further member for an existing entry: counted, and the new representative when strictly better. */
  function Bump(g: Group, h: Hit): Group {
    if h.score > g.best then Group(g.key, h.score, h.payload, g.count + 1)
    else g.(count := g.count + 1)
  }

  /** One iteration of the `for res in results` loop. */
  function Absorb(gs: seq<Group>, h: Hit): seq<Group> {
    var k := GroupKey(h);
    var i := IndexOf(gs, k);
    if i == |gs| then gs + [Group(k, h.score, h.payload, 1)] else gs[i := Bump(gs[i], h)]
  }

  /** The dictionary after the loop, entries in insertion order. */
  function Collect(hits: seq<Hit>): seq<Group> {
    if |hits| == 0 then [] else Absorb(Collect(hits[..|hits| - 1]), hits[|hits| - 1])
  }

  /** `final_output` after its sort. */
  function GroupResults(hits: seq<Hit>): seq<Group> {
    Ordering.SortDesc(Collect(hits), Best)
  }

  // ---------------------------------------------------------------------
  // Reference definitions: what an entry should hold, stated on the input.

  /** The hits whose group key is `k`, in input order. */
  function Members(hits: seq<Hit>, k: Value): (r: seq<Hit>)
    ensures |r| <= |hits|
  {
    if |hits| == 0 then []
    else Members(hits[..|hits| - 1], k) + (if GroupKey(hits[|hits| - 1]) == k then [hits[|hits| - 1]] else [])
  }

  /** Position of the first hit with key `k`, or `|hits|` when there is none. */
  function FirstIndex(hits: seq<Hit>, k: Value): (i: nat)
    ensures i <= |hits|
    ensures i < |hits| ==> GroupKey(hits[i]) == k
    ensures forall j :: 0 <= j < i ==> GroupKey(hits[j]) != k
  {
    if |hits| == 0 then 0 else if GroupKey(hits[0]) == k then 0 else 1 + FirstIndex(hits[1..], k)
  }

  /** Member `j` is the first member reaching the group's best score. */
  predicate FirstBest(ms: seq<Hit>, j: int, g: Group) {
    && 0 <= j < |ms|
    && ms[j].score == g.best
    && ms[j].payload == g.primary
    && forall i :: 0 <= i < j ==> ms[i].score < g.best
  }

  /**
   * An entry summarises its members: it counts them, its score is their
   * maximum, and its payload comes from the first member reaching it.
   */
  predicate Summarises(g: Group, hits: seq<Hit>) {
    var ms := Members(hits, g.key);
    && g.count == |ms|
    && (forall i :: 0 <= i < |ms| ==> ms[i].score <= g.best)
    && exists j :: 0 <= j < |ms| && FirstBest(ms, j, g)
  }

  predicate DistinctKeys(gs: seq<Group>) {
    forall i, j :: 0 <= i < j < |gs| ==> gs[i].key != gs[j].key
  }

  function SumCounts(gs: seq<Group>): nat {
    if |gs| == 0 then 0 else gs[0].count + SumCounts(gs[1..])
  }

  /** Entries appear in the order their keys first occur among the hits. */
  predicate FirstSeenOrder(gs: seq<Group>, hits: seq<Hit>) {
    forall i, j :: 0 <= i < j < |gs| ==> FirstIndex(hits, gs[i].key) < FirstIndex(hits, gs[j].key)
  }

  /** Everything the collected dictionary promises about the hits. */
  predicate Sound(gs: seq<Group>, hits: seq<Hit>) {
    && DistinctKeys(gs)
    && (forall i :: 0 <= i < |gs| ==> Summarises(gs[i], hits))
    && (forall h :: h in hits ==> IndexOf(gs, GroupKey(h)) < |gs|)
    && (forall i :: 0 <= i < |gs| ==> FirstIndex(hits, gs[i].key) < |hits|)
    && FirstSeenOrder(gs, hits)
    && SumCounts(gs) == |hits|
  }

  // ---------------------------------------------------------------------
  // Proof that the loop builds a sound dictionary.

  lemma {:induction false} SumCountsAppend(gs: seq<Group>, g: Group)
    ensures SumCounts(gs + [g]) == SumCounts(gs) + g.count
  {
    if |gs| > 0 {
      SumCountsAppend(gs[1..], g);
      assert (gs + [g])[1..] == gs[1..] + [g];
    }
  }

  lemma {:induction false} SumCountsUpdate(gs: seq<Group>, i: nat, g: Group)
    requires i < |gs|
    ensures SumCounts(gs[i := g]) + gs[i].count == SumCounts(gs) + g.count
  {
    if i > 0 {
      SumCountsUpdate(gs[1..], i - 1, g);
      assert gs[i := g][1..] == gs[1..][i - 1 := g];
    }
  }

  lemma {:induction false} FirstIndexSnoc(hits: seq<Hit>, h: Hit, k: Value)
    ensures FirstIndex(hits, k) < |hits| ==> FirstIndex(hits + [h], k) == FirstIndex(hits, k)
    ensures FirstIndex(hits, k) == |hits| && GroupKey(h) == k ==> FirstIndex(hits + [h], k) == |hits|
    ensures FirstIndex(hits, k) == |hits| && GroupKey(h) != k ==> FirstIndex(hits + [h], k) == |hits| + 1
  {
    if |hits| > 0 {
      FirstIndexSnoc(hits[1..], h, k);
      assert (hits + [h])[1..] == hits[1..] + [h];
    }
  }

  lemma MembersSnoc(hits: seq<Hit>, h: Hit, k: Value)
    ensures Members(hits + [h], k) == Members(hits, k) + (if GroupKey(h) == k then [h] else [])
  {
    assert (hits + [h])[..|hits|] == hits;
  }

  /** A key that no hit carries has no members. */
  lemma {:induction false} MembersOfAbsentKey(hits: seq<Hit>, k: Value)
    requires forall h :: h in hits ==> GroupKey(h) != k
    ensures Members(hits, k) == []
  {
    if |hits| > 0 {
      MembersOfAbsentKey(hits[..|hits| - 1], k);
    }
  }

  lemma SummarisesOther(g: Group, hits: seq<Hit>, h: Hit)
    requires Summarises(g, hits) && GroupKey(h) != g.key
    ensures Summarises(g, hits + [h])
  {
    MembersSnoc(hits, h, g.key);
    assert Members(hits + [h], g.key) == Members(hits, g.key);
  }

  lemma SummarisesBump(g: Group, hits: seq<Hit>, h: Hit)
    requires Summarises(g, hits) && GroupKey(h) == g.key
    ensures Summarises(Bump(g, h), hits + [h])
  {
    MembersSnoc(hits, h, g.key);
    var ms := Members(hits, g.key);
    var ms' := Members(hits + [h], g.key);
    assert ms' == ms + [h];
    var j :| 0 <= j < |ms| && FirstBest(ms, j, g);
    assert ms[j].score == g.best;
    if h.score > g.best {
      assert FirstBest(ms', |ms|, Bump(g, h));
    } else {
      assert forall i :: 0 <= i < |ms| ==> ms'[i] == ms[i];
      var g' := Bump(g, h);
      assert g'.best == g.best && g'.primary == g.primary;
      assert 0 <= j < |ms'|;
      assert ms'[j].score == g'.best;
      assert ms'[j].payload == g'.primary;
      assert forall i :: 0 <= i < j ==> ms'[i].score < g'.best;
      assert FirstBest(ms', j, g');
    }
  }

  lemma SummarisesNew(hits: seq<Hit>, h: Hit)
    requires forall x :: x in hits ==> GroupKey(x) != GroupKey(h)
    ensures Summarises(Group(GroupKey(h), h.score, h.payload, 1), hits + [h])
  {
    var g := Group(GroupKey(h), h.score, h.payload, 1);
    MembersOfAbsentKey(hits, g.key);
    MembersSnoc(hits, h, g.key);
    assert Members(hits + [h], g.key) == [h];
    assert FirstBest([h], 0, g);
  }

  /** After absorbing `h`, every hit seen so far has an entry. */
  lemma AbsorbCovers(gs: seq<Group>, hits: seq<Hit>, h: Hit)
    requires forall x :: x in hits ==> IndexOf(gs, GroupKey(x)) < |gs|
    ensures forall x :: x in hits + [h] ==> IndexOf(Absorb(gs, h), GroupKey(x)) < |Absorb(gs, h)|
  {
    var gs' := Absorb(gs, h);
    assert |gs| <= |gs'|;
    assert forall q :: 0 <= q < |gs| ==> gs'[q].key == gs[q].key;
    forall x | x in hits ensures IndexOf(gs', GroupKey(x)) < |gs'| {
      var q := IndexOf(gs, GroupKey(x));
      assert gs'[q].key == GroupKey(x);
    }
    assert gs'[IndexOf(gs, GroupKey(h))].key == GroupKey(h);
  }

  /** Absorbing keeps the existing keys in place and adds at most the new one at the end. */
  lemma AbsorbKeys(gs: seq<Group>, h: Hit)
    ensures var gs' := Absorb(gs, h);
      && (IndexOf(gs, GroupKey(h)) < |gs| ==> |gs'| == |gs|)
      && (IndexOf(gs, GroupKey(h)) == |gs| ==> |gs'| == |gs| + 1 && gs'[|gs|].key == GroupKey(h))
      && forall p :: 0 <= p < |gs| ==> gs'[p].key == gs[p].key
  {
  }

  lemma AbsorbDistinct(gs: seq<Group>, h: Hit)
    requires DistinctKeys(gs)
    ensures DistinctKeys(Absorb(gs, h))
  {
    AbsorbKeys(gs, h);
  }

  lemma AbsorbSummarises(gs: seq<Group>, hits: seq<Hit>, h: Hit)
    requires DistinctKeys(gs)
    requires forall x :: x in hits ==> IndexOf(gs, GroupKey(x)) < |gs|
    requires forall i :: 0 <= i < |gs| ==> Summarises(gs[i], hits)
    ensures var gs' := Absorb(gs, h); forall p :: 0 <= p < |gs'| ==> Summarises(gs'[p], hits + [h])
  {
    var k := GroupKey(h);
    var i := IndexOf(gs, k);
    var gs' := Absorb(gs, h);
    AbsorbKeys(gs, h);
    if i == |gs| {
      forall x | x in hits ensures GroupKey(x) != k {
        assert IndexOf(gs, GroupKey(x)) < |gs|;
      }
      SummarisesNew(hits, h);
    } else {
      SummarisesBump(gs[i], hits, h);
    }
    forall p | 0 <= p < |gs'| ensures Summarises(gs'[p], hits + [h]) {
      if p != i {
        assert gs'[p] == gs[p];
        SummarisesOther(gs[p], hits, h);
      }
    }
  }

  lemma AbsorbFirstIndex(gs: seq<Group>, hits: seq<Hit>, h: Hit)
    requires forall x :: x in hits ==> IndexOf(gs, GroupKey(x)) < |gs|
    requires forall i :: 0 <= i < |gs| ==> FirstIndex(hits, gs[i].key) < |hits|
    requires forall i, j :: 0 <= i < j < |gs| ==> FirstIndex(hits, gs[i].key) < FirstIndex(hits, gs[j].key)
    ensures var gs' := Absorb(gs, h); var hits' := hits + [h];
      && (forall i :: 0 <= i < |gs'| ==> FirstIndex(hits', gs'[i].key) < |hits'|)
      && (forall i, j :: 0 <= i < j < |gs'| ==> FirstIndex(hits', gs'[i].key) < FirstIndex(hits', gs'[j].key))
  {
    var k := GroupKey(h);
    var gs' := Absorb(gs, h);
    var hits' := hits + [h];
    AbsorbKeys(gs, h);
    forall p | 0 <= p < |gs| ensures FirstIndex(hits', gs'[p].key) == FirstIndex(hits, gs[p].key) {
      FirstIndexSnoc(hits, h, gs[p].key);
    }
    if IndexOf(gs, k) == |gs| {
      forall x | x in hits ensures GroupKey(x) != k {
        assert IndexOf(gs, GroupKey(x)) < |gs|;
      }
      FirstIndexSnoc(hits, h, k);
      assert FirstIndex(hits', k) == |hits|;
    }
  }

  lemma AbsorbSumCounts(gs: seq<Group>, h: Hit)
    ensures SumCounts(Absorb(gs, h)) == SumCounts(gs) + 1
  {
    var k := GroupKey(h);
    var i := IndexOf(gs, k);
    if i == |gs| {
      SumCountsAppend(gs, Group(k, h.score, h.payload, 1));
    } else {
      SumCountsUpdate(gs, i, Bump(gs[i], h));
    }
  }

  lemma AbsorbSound(gs: seq<Group>, hits: seq<Hit>, h: Hit)
    requires Sound(gs, hits)
    ensures Sound(Absorb(gs, h), hits + [h])
  {
    AbsorbDistinct(gs, h);
    AbsorbSummarises(gs, hits, h);
    AbsorbCovers(gs, hits, h);
    AbsorbFirstIndex(gs, hits, h);
    AbsorbSumCounts(gs, h);
  }

  /**
   * The dictionary the loop builds has one entry per distinct key, in
   * order of first appearance; each entry counts its members, holds their
   * maximum score and the payload of the first member reaching it; the
   * counts add up to the number of hits.
   */
  lemma {:induction false} CollectSound(hits: seq<Hit>)
    ensures Sound(Collect(hits), hits)
  {
    if |hits| > 0 {
      var front := hits[..|hits| - 1];
      var h := hits[|hits| - 1];
      CollectSound(front);
      assert front + [h] == hits;
      AbsorbSound(Collect(front), front, h);
    }
  }

  // ---------------------------------------------------------------------
  // The final sort keeps all of it.

  lemma ConsDistinct(a: Group, rest: seq<Group>)
    requires DistinctKeys(rest)
    requires forall y :: y in rest ==> y.key != a.key
    ensures DistinctKeys([a] + rest)
  {
    forall i, j | 0 <= i < j < |[a] + rest| ensures ([a] + rest)[i].key != ([a] + rest)[j].key {
      if i > 0 {
        assert ([a] + rest)[i] == rest[i - 1];
      }
      assert ([a] + rest)[j] == rest[j - 1];
    }
  }

  lemma {:induction false} InsertDistinct(x: Group, s: seq<Group>)
    requires DistinctKeys(s)
    requires forall y :: y in s ==> y.key != x.key
    ensures DistinctKeys(Ordering.Insert(x, s, Best))
  {
    if |s| == 0 {
    } else if Best(s[0]) <= Best(x) {
      ConsDistinct(x, s);
    } else {
      var rest := Ordering.Insert(x, s[1..], Best);
      assert DistinctKeys(s[1..]);
      InsertDistinct(x, s[1..]);
      forall y | y in rest ensures y.key != s[0].key {
        assert y in multiset(rest);
        if y != x {
          assert y in s[1..];
        }
      }
      ConsDistinct(s[0], rest);
    }
  }

  lemma {:induction false} SortDistinct(s: seq<Group>)
    requires DistinctKeys(s)
    ensures DistinctKeys(Ordering.SortDesc(s, Best))
  {
    if |s| > 0 {
      assert DistinctKeys(s[1..]);
      SortDistinct(s[1..]);
      var t := Ordering.SortDesc(s[1..], Best);
      forall y | y in t ensures y.key != s[0].key {
        assert y in multiset(t);
        assert y in s[1..];
      }
      InsertDistinct(s[0], t);
    }
  }

  lemma {:induction false} SumCountsInsert(x: Group, s: seq<Group>)
    ensures SumCounts(Ordering.Insert(x, s, Best)) == x.count + SumCounts(s)
  {
    if |s| == 0 {
    } else if Best(s[0]) <= Best(x) {
      assert ([x] + s)[1..] == s;
    } else {
      SumCountsInsert(x, s[1..]);
      assert ([s[0]] + Ordering.Insert(x, s[1..], Best))[1..] == Ordering.Insert(x, s[1..], Best);
    }
  }

  lemma {:induction false} SumCountsSort(s: seq<Group>)
    ensures SumCounts(Ordering.SortDesc(s, Best)) == SumCounts(s)
  {
    if |s| > 0 {
      SumCountsSort(s[1..]);
      SumCountsInsert(s[0], Ordering.SortDesc(s[1..], Best));
    }
  }

  lemma ConsFirstSeen(a: Group, rest: seq<Group>, hits: seq<Hit>)
    requires FirstSeenOrder(rest, hits)
    requires forall y :: y in rest ==> FirstIndex(hits, a.key) < FirstIndex(hits, y.key)
    ensures FirstSeenOrder([a] + rest, hits)
  {
    forall i, j | 0 <= i < j < |[a] + rest|
      ensures FirstIndex(hits, ([a] + rest)[i].key) < FirstIndex(hits, ([a] + rest)[j].key)
    {
      if i > 0 {
        assert ([a] + rest)[i] == rest[i - 1];
      }
      assert ([a] + rest)[j] == rest[j - 1];
    }
  }

  /** Picking the entries of one score out of an ordered sequence keeps them ordered. */
  lemma {:induction false} TierFirstSeen(gs: seq<Group>, hits: seq<Hit>, v: int)
    requires FirstSeenOrder(gs, hits)
    ensures FirstSeenOrder(Ordering.Tier(gs, Best, v), hits)
  {
    if |gs| > 0 {
      assert FirstSeenOrder(gs[1..], hits);
      TierFirstSeen(gs[1..], hits, v);
      var rest := Ordering.Tier(gs[1..], Best, v);
      if Best(gs[0]) == v {
        forall y | y in rest ensures FirstIndex(hits, gs[0].key) < FirstIndex(hits, y.key) {
          var p :| 0 <= p < |gs[1..]| && gs[1..][p] == y;
          assert gs[p + 1] == y;
        }
        ConsFirstSeen(gs[0], rest, hits);
      } else {
        assert Ordering.Tier(gs, Best, v) == rest;
      }
    }
  }

  lemma SortedFrom(c: seq<Group>, g: Group)
    requires g in Ordering.SortDesc(c, Best)
    ensures g in c
  {
    assert g in multiset(Ordering.SortDesc(c, Best));
  }

  lemma SortedKeeps(c: seq<Group>, g: Group)
    requires g in c
    ensures g in Ordering.SortDesc(c, Best)
  {
    assert g in multiset(c);
  }

  lemma GroupResultsSummarise(hits: seq<Hit>)
    ensures forall g :: g in GroupResults(hits) ==> Summarises(g, hits)
  {
    var c := Collect(hits);
    CollectSound(hits);
    forall g | g in GroupResults(hits) ensures Summarises(g, hits) {
      SortedFrom(c, g);
    }
  }

  lemma GroupResultsCover(hits: seq<Hit>)
    ensures var r := GroupResults(hits);
      forall h :: h in hits ==> exists p :: 0 <= p < |r| && r[p].key == GroupKey(h)
  {
    var c := Collect(hits);
    var r := GroupResults(hits);
    CollectSound(hits);
    forall h | h in hits ensures exists p :: 0 <= p < |r| && r[p].key == GroupKey(h) {
      var i := IndexOf(c, GroupKey(h));
      SortedKeeps(c, c[i]);
      var p :| 0 <= p < |r| && r[p] == c[i];
    }
  }

  lemma GroupResultsTies(hits: seq<Hit>)
    ensures forall v :: FirstSeenOrder(Ordering.Tier(GroupResults(hits), Best, v), hits)
  {
    var c := Collect(hits);
    CollectSound(hits);
    Ordering.SortDescIsStable(c, Best);
    forall v ensures FirstSeenOrder(Ordering.Tier(GroupResults(hits), Best, v), hits) {
      TierFirstSeen(c, hits, v);
    }
  }

  /**
   * `group_results` returns one entry per distinct key, sorted by best
   * score with ties in first-seen order; each entry summarises its members
   * and every hit is represented; the group counts add up to the number of
   * hits.
   */
  lemma GroupResultsCorrect(hits: seq<Hit>)
    ensures var r := GroupResults(hits);
      && Ordering.IsStableSortDesc(r, Collect(hits), Best)
      && DistinctKeys(r)
      && (forall g :: g in r ==> Summarises(g, hits))
      && (forall h :: h in hits ==> exists p :: 0 <= p < |r| && r[p].key == GroupKey(h))
      && (forall v :: FirstSeenOrder(Ordering.Tier(r, Best, v), hits))
      && SumCounts(r) == |hits|
  {
    var c := Collect(hits);
    CollectSound(hits);
    Ordering.SortDescIsStable(c, Best);
    SortDistinct(c);
    SumCountsSort(c);
    GroupResultsSummarise(hits);
    GroupResultsCover(hits);
    GroupResultsTies(hits);
  }

  // ---------------------------------------------------------------------
  // What the caller receives.

  /** The `{"score", "payload", "group_count"}` dictionaries, in order. */
  function Output(gs: seq<Group>): (r: seq<GroupedResult>)
    ensures |r| == |gs|
    ensures forall i :: 0 <= i < |r| ==> r[i] == Emit(gs[i])
  {
    seq(|gs|, i requires 0 <= i < |gs| => Emit(gs[i]))
  }

  function ResultScore(r: GroupedResult): int {
    r.score
  }

  lemma OutputNonIncreasing(gs: seq<Group>)
    requires Ordering.NonIncreasing(gs, Best)
    ensures Ordering.NonIncreasing(Output(gs), ResultScore)
  {
  }

  lemma {:induction false} MembersSubset(hits: seq<Hit>, k: Value)
    ensures forall x :: x in Members(hits, k) ==> x in hits && GroupKey(x) == k
  {
    if |hits| > 0 {
      MembersSubset(hits[..|hits| - 1], k);
      assert hits == hits[..|hits| - 1] + [hits[|hits| - 1]];
    }
  }

  /** Every entry's score and payload are those of one of the hits. */
  lemma GroupResultsProvenance(hits: seq<Hit>)
    ensures forall g :: g in GroupResults(hits) ==>
      exists i :: 0 <= i < |hits| && hits[i].score == g.best && hits[i].payload == g.primary
  {
    GroupResultsSummarise(hits);
    forall g | g in GroupResults(hits)
      ensures exists i :: 0 <= i < |hits| && hits[i].score == g.best && hits[i].payload == g.primary
    {
      var ms := Members(hits, g.key);
      var j :| 0 <= j < |ms| && FirstBest(ms, j, g);
      MembersSubset(hits, g.key);
      assert ms[j] in hits;
      var i :| 0 <= i < |hits| && hits[i] == ms[j];
    }
  }

  /** Three chunks of two articles: the article with the 9 comes first and counts two chunks. */
  lemma TwoArticlesExample(pa: Fields, pb: Fields, pc: Fields)
    requires pa == [("article_group_id", String("A")), ("n", Number(1))]
    requires pb == [("article_group_id", String("A")), ("n", Number(2))]
    requires pc == [("article_group_id", String("B")), ("n", Number(3))]
    ensures Output(GroupResults([Hit(Number(1), 5, pa), Hit(Number(2), 9, pb), Hit(Number(3), 7, pc)]))
      == [GroupedResult(9, pb, 2), GroupedResult(7, pc, 1)]
  {
    var hits := [Hit(Number(1), 5, pa), Hit(Number(2), 9, pb), Hit(Number(3), 7, pc)];
    assert GroupKey(hits[0]) == String("A");
    assert GroupKey(hits[1]) == String("A");
    assert GroupKey(hits[2]) == String("B");
    assert hits[..2][..1] == [hits[0]];
    assert hits[..2] == [hits[0], hits[1]];
    assert Collect([hits[0]]) == [Group(String("A"), 5, pa, 1)];
    assert Collect(hits[..2]) == [Group(String("A"), 9, pb, 2)];
    var c := [Group(String("A"), 9, pb, 2), Group(String("B"), 7, pc, 1)];
    assert Collect(hits) == c;
    assert c[1..] == [c[1]];
    assert Ordering.SortDesc(c, Best) == c;
  }
}
