/** The single-best recommender: the row whose similarity to the query is
    highest wins, and its fields are returned with that score. The scores are
    an input, one per catalog row (the embedding and cosine similarity that
    produce them are not modelled). */
module SmartRecommender {
  import opened Catalog

  /** The response of the `/recommend` endpoint. */
  datatype Response = Response(
    query: string,
    bestMatch: string,
    title: string,
    content: string,
    matchScore: real)

  /** `k` is the first position holding the largest score: nothing is larger
      than `scores[k]` and everything before `k` is strictly smaller. */
  ghost predicate IsFirstMax(scores: seq<real>, k: int) {
    && 0 <= k < |scores|
    && (forall i :: 0 <= i < |scores| ==> scores[i] <= scores[k])
    && (forall i :: 0 <= i < k ==> scores[i] < scores[k])
  }

  /** numpy's `argmax`: the index of the maximum, the first one on ties. */
  function ArgMax(scores: seq<real>): (k: nat)
    requires |scores| > 0
    ensures IsFirstMax(scores, k)
    decreases |scores|
  {
    if |scores| == 1 then 0
    else
      var front := scores[..|scores| - 1];
      var k := ArgMax(front);
      assert forall i :: 0 <= i < |front| ==> front[i] == scores[i];
      if scores[|scores| - 1] > scores[k] then |scores| - 1 else k
  }

  /** At most one position is the first maximum, so `ArgMax` is determined by
      its contract. */
  lemma FirstMaxUnique(scores: seq<real>, a: int, b: int)
    requires IsFirstMax(scores, a) && IsFirstMax(scores, b)
    ensures a == b
  {
    assert scores[a] == scores[b];
  }

  /** The response for `query`: the query as given, and the category, title,
      content and score of the first best-scoring row. */
  function Recommend(catalog: seq<Row>, scores: seq<real>, query: string): (r: Response)
    requires |catalog| > 0
    requires |scores| == |catalog|
    ensures r.query == query
    ensures forall i :: 0 <= i < |scores| ==> scores[i] <= r.matchScore
    ensures exists k ::
      && IsFirstMax(scores, k)
      && r.bestMatch == catalog[k].category
      && r.title == catalog[k].title
      && r.content == catalog[k].content
      && r.matchScore == scores[k]
  {
    var best := ArgMax(scores);
    var row := catalog[best];
    Response(query, row.category, row.title, row.content, scores[best])
  }
}
