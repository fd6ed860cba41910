/** The top-3 recommender. Every catalog row gets a candidate carrying its row
    index and its similarity to the query, raised by a fixed bonus when the
    row's category occurs in the lower-cased query; the candidates are sorted
    by score, highest first, by a stable sort, and the first three are kept.
    The similarity scores are an input, one per row. */
module RecommendationSystem {
  import opened Text
  import opened Catalog
  import SmartRecommender

  /** The bonus added to a row whose category occurs in the query. */
  const CATEGORY_BONUS: real := 0.5

  /** How many candidates are returned. */
  const TOP_K: nat := 3

  /** A `(index, score)` pair of the result list. */
  datatype Candidate = Candidate(index: nat, score: real)

  function Min(a: nat, b: nat): nat {
    if a <= b then a else b
  }

  /** A row's score after the category bonus. The test is category-in-query. */
  function BoostedScore(score: real, category: string, queryLower: string): (boosted: real)
    ensures boosted == score || boosted == score + CATEGORY_BONUS
    ensures boosted > score <==> IsSubstring(category, queryLower)
  {
    if IsSubstring(category, queryLower) then score + CATEGORY_BONUS else score
  }

  /** The candidate list before sorting: one per row, in row order. */
  ghost function Candidates(catalog: seq<Row>, scores: seq<real>, queryLower: string): seq<Candidate>
    requires |scores| == |catalog|
  {
    seq(|catalog|, k requires 0 <= k < |catalog| =>
      Candidate(k, BoostedScore(scores[k], catalog[k].category, queryLower)))
  }

  // ---------------------------------------------------------------------------
  // The stable sort: `sorted(results, key=lambda x: x[1], reverse=True)`.

  /** Puts `c` in front of the first element whose score is not greater than
      its own, so that `c` stays ahead of later elements with an equal score. */
  function Insert(c: Candidate, s: seq<Candidate>): (r: seq<Candidate>)
    ensures |r| == |s| + 1
    ensures multiset(r) == multiset(s) + multiset{c}
  {
    if s == [] then [c]
    else if s[0].score > c.score then
      assert s == [s[0]] + s[1..];
      [s[0]] + Insert(c, s[1..])
    else [c] + s
  }

  /** A stable sort by score, highest first. */
  function SortByScore(s: seq<Candidate>): (r: seq<Candidate>)
    ensures |r| == |s|
    ensures multiset(r) == multiset(s)
  {
    if s == [] then []
    else
      assert s == [s[0]] + s[1..];
      Insert(s[0], SortByScore(s[1..]))
  }

  ghost predicate ScoresNonIncreasing(s: seq<Candidate>) {
    forall i, j :: 0 <= i < j < |s| ==> s[i].score >= s[j].score
  }

  ghost predicate IndicesIncreasing(s: seq<Candidate>) {
    forall i, j :: 0 <= i < j < |s| ==> s[i].index < s[j].index
  }

  /** `a` ranks before `b`: a higher score, or the same score and a lower row. */
  predicate Before(a: Candidate, b: Candidate) {
    a.score > b.score || (a.score == b.score && a.index < b.index)
  }

  /** Every element ranks before every later one. */
  ghost predicate Ranked(s: seq<Candidate>) {
    forall i, j :: 0 <= i < j < |s| ==> Before(s[i], s[j])
  }

  lemma RankedCons(x: Candidate, t: seq<Candidate>)
    requires Ranked(t)
    requires forall y :: y in t ==> Before(x, y)
    ensures Ranked([x] + t)
  {
  }

  lemma NonIncreasingCons(x: Candidate, t: seq<Candidate>)
    requires ScoresNonIncreasing(t)
    requires forall y :: y in t ==> x.score >= y.score
    ensures ScoresNonIncreasing([x] + t)
  {
  }

  lemma {:induction false} InsertNonIncreasing(c: Candidate, s: seq<Candidate>)
    requires ScoresNonIncreasing(s)
    ensures ScoresNonIncreasing(Insert(c, s))
  {
    if s != [] {
      if s[0].score > c.score {
        var t := Insert(c, s[1..]);
        InsertNonIncreasing(c, s[1..]);
        forall y | y in t
          ensures s[0].score >= y.score
        {
          assert y in multiset(t);
          if y != c {
            assert y in multiset(s[1..]);
            var j :| 0 <= j < |s[1..]| && s[1..][j] == y;
            assert s[j + 1] == y;
          }
        }
        NonIncreasingCons(s[0], t);
      } else {
        forall y | y in s
          ensures c.score >= y.score
        {
          var j :| 0 <= j < |s| && s[j] == y;
          assert s[0].score >= s[j].score;
        }
        NonIncreasingCons(c, s);
      }
    }
  }

  /** Sorting yields scores in non-increasing order, whatever the input. */
  lemma {:induction false} SortNonIncreasing(s: seq<Candidate>)
    ensures ScoresNonIncreasing(SortByScore(s))
  {
    if s != [] {
      SortNonIncreasing(s[1..]);
      InsertNonIncreasing(s[0], SortByScore(s[1..]));
    }
  }

  lemma {:induction false} InsertRanked(c: Candidate, s: seq<Candidate>)
    requires Ranked(s)
    requires forall y :: y in s ==> c.index < y.index
    ensures Ranked(Insert(c, s))
  {
    if s != [] {
      if s[0].score > c.score {
        var t := Insert(c, s[1..]);
        InsertRanked(c, s[1..]);
        forall y | y in t
          ensures Before(s[0], y)
        {
          assert y in multiset(t);
          if y != c {
            assert y in multiset(s[1..]);
            var j :| 0 <= j < |s[1..]| && s[1..][j] == y;
            assert s[j + 1] == y;
          }
        }
        RankedCons(s[0], t);
      } else {
        forall y | y in s
          ensures Before(c, y)
        {
          var j :| 0 <= j < |s| && s[j] == y;
          assert j > 0 ==> Before(s[0], s[j]);
        }
        RankedCons(c, s);
      }
    }
  }

  /** Stability: when the input lists rows in increasing index order, the sorted
      list ranks equal scores by increasing index. */
  lemma {:induction false} SortRanked(s: seq<Candidate>)
    requires IndicesIncreasing(s)
    ensures Ranked(SortByScore(s))
  {
    if s != [] {
      var t := SortByScore(s[1..]);
      SortRanked(s[1..]);
      forall y | y in t
        ensures s[0].index < y.index
      {
        assert y in multiset(s[1..]);
        var j :| 0 <= j < |s[1..]| && s[1..][j] == y;
        assert s[j + 1] == y;
      }
      InsertRanked(s[0], t);
    }
  }

  // ---------------------------------------------------------------------------
  // The recommender.

  /** The specification of the result: the first three boosted candidates in
      sorted order. */
  ghost function TopThree(catalog: seq<Row>, scores: seq<real>, queryLower: string): seq<Candidate>
    requires |scores| == |catalog|
  {
    var ranked := SortByScore(Candidates(catalog, scores, queryLower));
    ranked[..Min(TOP_K, |ranked|)]
  }

  /** The scoring loop: one candidate per row, in row order, with the bonus
      added exactly when the row's category occurs in the query. */
  method BuildCandidates(catalog: seq<Row>, scores: seq<real>, queryLower: string)
    returns (results: seq<Candidate>)
    requires |scores| == |catalog|
    ensures |results| == |catalog|
    ensures forall k :: 0 <= k < |results| ==>
      && results[k].index == k
      && (IsSubstring(catalog[k].category, queryLower) ==> results[k].score == scores[k] + CATEGORY_BONUS)
      && (!IsSubstring(catalog[k].category, queryLower) ==> results[k].score == scores[k])
    ensures results == Candidates(catalog, scores, queryLower)
  {
    results := [];
    var index := 0;
    while index < |scores|
      invariant 0 <= index <= |scores|
      invariant results == Candidates(catalog, scores, queryLower)[..index]
    {
      var score := scores[index];
      var category := catalog[index].category;
      if IsSubstring(category, queryLower) {
        score := score + CATEGORY_BONUS;
      }
      results := results + [Candidate(index, score)];
      index := index + 1;
    }
  }

  /** `index` appears among the candidates of `s`. */
  predicate HasIndex(s: seq<Candidate>, index: nat) {
    exists i | 0 <= i < |s| :: s[i].index == index
  }

  /** The recommendation: the lower-cased query's boosted candidates, sorted by
      score with ties in row order, cut to the first three. Each returned
      candidate is the one of its row; the rows are distinct; and every row
      left out ranks after every row returned. */
  method Recommend(catalog: seq<Row>, scores: seq<real>, query: string)
    returns (top: seq<Candidate>)
    requires |scores| == |catalog|
    ensures top == TopThree(catalog, scores, Lower(query))
    ensures |top| == Min(TOP_K, |catalog|)
    ensures ScoresNonIncreasing(top) && Ranked(top)
    ensures forall i :: 0 <= i < |top| ==>
      && top[i].index < |catalog|
      && top[i].score == BoostedScore(scores[top[i].index], catalog[top[i].index].category, Lower(query))
    ensures forall i, j :: 0 <= i < j < |top| ==> top[i].index != top[j].index
    ensures forall k, i :: 0 <= k < |catalog| && !HasIndex(top, k) && 0 <= i < |top| ==>
      Before(top[i], Candidate(k, BoostedScore(scores[k], catalog[k].category, Lower(query))))
  {
    var queryLower := Lower(query);
    var results := BuildCandidates(catalog, scores, queryLower);
    var ranked := SortByScore(results);
    top := ranked[..Min(TOP_K, |ranked|)];
    TopThreeProperties(catalog, scores, queryLower);
  }

  lemma TopThreeProperties(catalog: seq<Row>, scores: seq<real>, queryLower: string)
    requires |scores| == |catalog|
    ensures var top := TopThree(catalog, scores, queryLower);
      && |top| == Min(TOP_K, |catalog|)
      && ScoresNonIncreasing(top) && Ranked(top)
      && (forall i :: 0 <= i < |top| ==>
            && top[i].index < |catalog|
            && top[i].score == BoostedScore(scores[top[i].index], catalog[top[i].index].category, queryLower))
      && (forall i, j :: 0 <= i < j < |top| ==> top[i].index != top[j].index)
      && (forall k, i :: 0 <= k < |catalog| && !HasIndex(top, k) && 0 <= i < |top| ==>
            Before(top[i], Candidate(k, BoostedScore(scores[k], catalog[k].category, queryLower))))
  {
    var cands := Candidates(catalog, scores, queryLower);
    var ranked := SortByScore(cands);
    SortRanked(cands);
    SortNonIncreasing(cands);
    PrefixOfRanking(cands, ranked, Min(TOP_K, |ranked|));
  }

  /** Each candidate carries its own position as its index. */
  ghost predicate Enumerated(s: seq<Candidate>) {
    forall k :: 0 <= k < |s| ==> s[k].index == k
  }

  /** The first `m` elements of a ranked permutation `ranked` of an enumerated
      list `cands`: each is the candidate of its own row, no row appears twice,
      and every row left out ranks after every row kept. */
  lemma PrefixOfRanking(cands: seq<Candidate>, ranked: seq<Candidate>, m: nat)
    requires Enumerated(cands)
    requires multiset(ranked) == multiset(cands)
    requires Ranked(ranked) && ScoresNonIncreasing(ranked)
    requires m <= |ranked|
    ensures var top := ranked[..m];
      && ScoresNonIncreasing(top) && Ranked(top)
      && (forall i :: 0 <= i < |top| ==> top[i].index < |cands| && top[i] == cands[top[i].index])
      && (forall i, j :: 0 <= i < j < |top| ==> top[i].index != top[j].index)
      && (forall k, i :: 0 <= k < |cands| && !HasIndex(top, k) && 0 <= i < |top| ==> Before(top[i], cands[k]))
  {
    var top := ranked[..m];
    forall p | 0 <= p < |ranked|
      ensures ranked[p].index < |cands| && ranked[p] == cands[ranked[p].index]
    {
      assert ranked[p] in multiset(cands);
      var a :| 0 <= a < |cands| && cands[a] == ranked[p];
    }
    forall i, j | 0 <= i < j < |top|
      ensures top[i].index != top[j].index
    {
      assert Before(ranked[i], ranked[j]);
    }
    forall k, i | 0 <= k < |cands| && !HasIndex(top, k) && 0 <= i < |top|
      ensures Before(top[i], cands[k])
    {
      assert cands[k] in multiset(ranked);
      var p :| 0 <= p < |ranked| && ranked[p] == cands[k];
      assert forall q :: 0 <= q < m ==> ranked[q].index != k;
      assert Before(ranked[i], ranked[p]);
    }
  }

  // ---------------------------------------------------------------------------
  // Properties of the bonus and of the ranking as a whole.

  /** A row with an empty category always gets the bonus: the empty string
      occurs in every query. */
  lemma EmptyCategoryBoosted(catalog: seq<Row>, scores: seq<real>, queryLower: string, k: nat)
    requires |scores| == |catalog|
    requires k < |catalog| && catalog[k].category == ""
    ensures Candidates(catalog, scores, queryLower)[k].score == scores[k] + CATEGORY_BONUS
  {
    EmptyIsSubstring(queryLower);
  }

  /** The bonus goes one way only: a query inside a category earns nothing,
      while a category inside a query earns the bonus. */
  lemma BonusIsCategoryInQuery()
    ensures BoostedScore(0.0, "banking", "bank") == 0.0
    ensures BoostedScore(0.0, "banking", "online banking") == CATEGORY_BONUS
  {
    assert OccursAt("banking", "online banking", 7);
  }

  /** For one and the same score vector, without any bonus the ranking starts
      with the first maximum (`ArgMax`): the first row holding the highest
      score. */
  lemma BestMatchLeadsRanking(catalog: seq<Row>, scores: seq<real>, queryLower: string)
    requires |scores| == |catalog| > 0
    requires forall k :: 0 <= k < |catalog| ==> !IsSubstring(catalog[k].category, queryLower)
    ensures |TopThree(catalog, scores, queryLower)| > 0
    ensures TopThree(catalog, scores, queryLower)[0].index == SmartRecommender.ArgMax(scores)
  {
    var cands := Candidates(catalog, scores, queryLower);
    var ranked := SortByScore(cands);
    SortRanked(cands);
    assert ranked[0] in multiset(cands);
    var a :| 0 <= a < |cands| && cands[a] == ranked[0];
    forall j | 0 <= j < |scores|
      ensures scores[j] <= scores[a] && (j < a ==> scores[j] < scores[a])
    {
      assert cands[j] in multiset(ranked);
      var p :| 0 <= p < |ranked| && ranked[p] == cands[j];
      assert p == 0 || Before(ranked[0], ranked[p]);
    }
    assert SmartRecommender.IsFirstMax(scores, a);
    SmartRecommender.FirstMaxUnique(scores, a, SmartRecommender.ArgMax(scores));
  }

  // ---------------------------------------------------------------------------
  // The Wikipedia summary request: `query.replace(" ", "%20")`.

  /** The page name put in the summary URL: each space of the query becomes
      `%20`, so the name holds no space. */
  function WebSummaryTopic(query: string): (topic: string)
    ensures ' ' !in topic
  {
    ReplaceChar(query, ' ', "%20")
  }

  /** Turns each `%20` back into a space. */
  ghost function DecodeSpaces(s: string): string {
    if |s| >= 3 && s[..3] == "%20" then " " + DecodeSpaces(s[3..])
    else if s == [] then []
    else [s[0]] + DecodeSpaces(s[1..])
  }

  /** A page name can start with `%20` only where the query starts with a
      space or with `%20` itself. */
  lemma EscapedPrefix(query: string)
    ensures |WebSummaryTopic(query)| >= 3 && WebSummaryTopic(query)[..3] == "%20" ==>
      query != [] && (query[0] == ' ' || OccursAt("%20", query, 0))
  {
    if query != [] && query[0] != ' ' {
      var q1 := query[1..];
      assert WebSummaryTopic(query) == [query[0]] + WebSummaryTopic(q1);
      if q1 != [] {
        assert WebSummaryTopic(q1) == (if q1[0] == ' ' then "%20" else [q1[0]]) + WebSummaryTopic(q1[1..]);
        if q1[0] != ' ' && q1[1..] != [] {
          var q2 := q1[1..];
          assert WebSummaryTopic(q2) == (if q2[0] == ' ' then "%20" else [q2[0]]) + WebSummaryTopic(q2[1..]);
          assert query[..3] == [query[0], q1[0], q2[0]];
        }
      }
    }
  }

  /** Nothing but the spaces changes: for a query that does not itself contain
      `%20`, decoding the page name gives the query back. */
  lemma {:induction false} WebSummaryTopicDecodes(query: string)
    requires !IsSubstring("%20", query)
    ensures DecodeSpaces(WebSummaryTopic(query)) == query
  {
    if query != [] {
      var rest := WebSummaryTopic(query[1..]);
      SubstringOfTail("%20", query);
      WebSummaryTopicDecodes(query[1..]);
      if query[0] == ' ' {
        assert WebSummaryTopic(query) == "%20" + rest;
        assert ("%20" + rest)[3..] == rest;
      } else {
        EscapedPrefix(query);
        assert !OccursAt("%20", query, 0);
        assert WebSummaryTopic(query) == [query[0]] + rest;
        assert ([query[0]] + rest)[1..] == rest;
      }
      assert query == [query[0]] + query[1..];
    }
  }

  /** The condition is needed: a query holding `%20` encodes to itself and
      decodes to a space. */
  lemma EscapeIsNotInjective()
    ensures WebSummaryTopic("%20") == "%20"
    ensures DecodeSpaces(WebSummaryTopic("%20")) == " "
  {
    assert WebSummaryTopic("%20") == ['%'] + WebSummaryTopic("20");
    assert WebSummaryTopic("20") == ['2'] + WebSummaryTopic("0");
    assert WebSummaryTopic("0") == ['0'] + WebSummaryTopic("");
  }
}
