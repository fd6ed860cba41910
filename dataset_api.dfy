/** The dataset recommender: the topic is lower-cased and the first catalog row
    whose category is exactly that topic is returned; when there is none, a
    fixed failure record is returned instead. */
module DatasetApi {
  import opened Text
  import opened Catalog

  /** The two shapes of the `/recommend` response. */
  datatype Response =
    | Match(title: string, category: string, content: string)
    | Failed(status: string, message: string)

  const FAILED_STATUS: string := "failed"
  const FAILED_MESSAGE: string := "Use stocks / crypto / banking / mutual funds"

  /** Row `k` is the first row whose category is `topic`. */
  ghost predicate IsFirstMatch(rows: seq<Row>, topic: string, k: int) {
    && 0 <= k < |rows|
    && rows[k].category == topic
    && (forall j :: 0 <= j < k ==> rows[j].category != topic)
  }

  /** `data[data["category"] == topic]`: the rows whose category equals `topic`,
      in table order. */
  function FilterCategory(rows: seq<Row>, topic: string): (r: seq<Row>)
    ensures |r| <= |rows|
    ensures forall x :: x in r ==> x in rows && x.category == topic
    ensures r == [] <==> forall i :: 0 <= i < |rows| ==> rows[i].category != topic
  {
    if rows == [] then []
    else if rows[0].category == topic then [rows[0]] + FilterCategory(rows[1..], topic)
    else FilterCategory(rows[1..], topic)
  }

  /** `idx` lists, in increasing order, exactly the positions of the rows whose
      category is `topic`. */
  ghost predicate MatchPositions(rows: seq<Row>, topic: string, idx: seq<nat>) {
    && (forall j, k :: 0 <= j < k < |idx| ==> idx[j] < idx[k])
    && (forall j :: 0 <= j < |idx| ==> idx[j] < |rows| && rows[idx[j]].category == topic)
    && (forall i :: 0 <= i < |rows| && rows[i].category == topic ==> i in idx)
  }

  /** Every position moved one row down. */
  function Shift(idx: seq<nat>): (moved: seq<nat>)
    ensures |moved| == |idx|
    ensures forall j :: 0 <= j < |idx| ==> moved[j] == idx[j] + 1
  {
    seq(|idx|, j requires 0 <= j < |idx| => idx[j] + 1)
  }

  /** The positions of the matching rows, in increasing order. */
  ghost function MatchIndices(rows: seq<Row>, topic: string): seq<nat> {
    if rows == [] then []
    else if rows[0].category == topic then [0] + Shift(MatchIndices(rows[1..], topic))
    else Shift(MatchIndices(rows[1..], topic))
  }

  /** Positions found in the tail, moved down by one, are the matching
      positions of the whole table after the first row. */
  lemma ShiftedPositions(rows: seq<Row>, topic: string, inner: seq<nat>)
    requires rows != []
    requires MatchPositions(rows[1..], topic, inner)
    ensures forall j, k :: 0 <= j < k < |Shift(inner)| ==> Shift(inner)[j] < Shift(inner)[k]
    ensures forall j :: 0 <= j < |Shift(inner)| ==>
      1 <= Shift(inner)[j] < |rows| && rows[Shift(inner)[j]].category == topic
    ensures forall i :: 1 <= i < |rows| && rows[i].category == topic ==> i in Shift(inner)
  {
    var later := Shift(inner);
    forall j | 0 <= j < |later|
      ensures 1 <= later[j] < |rows| && rows[later[j]].category == topic
    {
      assert rows[later[j]] == rows[1..][inner[j]];
    }
    forall i | 1 <= i < |rows| && rows[i].category == topic
      ensures i in later
    {
      assert rows[1..][i - 1] == rows[i];
      var j :| 0 <= j < |inner| && inner[j] == i - 1;
      assert later[j] == i;
    }
  }

  /** `MatchIndices` lists exactly the matching positions, in increasing order. */
  lemma {:induction false} MatchIndicesCorrect(rows: seq<Row>, topic: string)
    ensures MatchPositions(rows, topic, MatchIndices(rows, topic))
  {
    if rows != [] {
      MatchIndicesCorrect(rows[1..], topic);
      ShiftedPositions(rows, topic, MatchIndices(rows[1..], topic));
      var later := Shift(MatchIndices(rows[1..], topic));
      if rows[0].category == topic {
        assert MatchIndices(rows, topic) == [0] + later;
        FirstRowPosition(rows, topic, later);
      } else {
        assert MatchIndices(rows, topic) == later;
      }
    }
  }

  /** Adding position 0 in front of the later matching positions, when the
      first row matches too, gives all matching positions. */
  lemma FirstRowPosition(rows: seq<Row>, topic: string, later: seq<nat>)
    requires rows != [] && rows[0].category == topic
    requires forall j, k :: 0 <= j < k < |later| ==> later[j] < later[k]
    requires forall j :: 0 <= j < |later| ==> 1 <= later[j] < |rows| && rows[later[j]].category == topic
    requires forall i :: 1 <= i < |rows| && rows[i].category == topic ==> i in later
    ensures MatchPositions(rows, topic, [0] + later)
  {
    var idx := [0] + later;
    forall j, k | 0 <= j < k < |idx|
      ensures idx[j] < idx[k]
    {
      assert idx[k] == later[k - 1];
      if j > 0 { assert idx[j] == later[j - 1]; }
    }
    forall j | 0 <= j < |idx|
      ensures idx[j] < |rows| && rows[idx[j]].category == topic
    {
      if j > 0 { assert idx[j] == later[j - 1]; }
    }
    forall i | 0 <= i < |rows| && rows[i].category == topic
      ensures i in idx
    {
      if i > 0 {
        var j :| 0 <= j < |later| && later[j] == i;
        assert idx[j + 1] == i;
      }
    }
  }

  /** The filter keeps table order: its `j`-th row is the row at the `j`-th
      matching position. */
  lemma {:induction false} FilterKeepsTableOrder(rows: seq<Row>, topic: string)
    ensures |FilterCategory(rows, topic)| == |MatchIndices(rows, topic)|
    ensures forall j :: 0 <= j < |MatchIndices(rows, topic)| ==>
      MatchIndices(rows, topic)[j] < |rows| &&
      FilterCategory(rows, topic)[j] == rows[MatchIndices(rows, topic)[j]]
  {
    if rows != [] {
      var tail := rows[1..];
      FilterKeepsTableOrder(tail, topic);
      var rt := FilterCategory(tail, topic);
      var inner := MatchIndices(tail, topic);
      var later := Shift(inner);
      forall j | 0 <= j < |later|
        ensures later[j] < |rows| && rt[j] == rows[later[j]]
      {
        assert rows[later[j]] == tail[inner[j]];
      }
      if rows[0].category == topic {
        assert FilterCategory(rows, topic) == [rows[0]] + rt;
      }
    }
  }

  /** Nothing that matches is dropped: every row whose category is `topic` is
      in the filtered table. */
  lemma FilterKeepsEveryMatch(rows: seq<Row>, topic: string)
    ensures forall i :: 0 <= i < |rows| && rows[i].category == topic ==>
      rows[i] in FilterCategory(rows, topic)
  {
    FilterKeepsTableOrder(rows, topic);
    MatchIndicesCorrect(rows, topic);
    var r := FilterCategory(rows, topic);
    var idx := MatchIndices(rows, topic);
    forall i | 0 <= i < |rows| && rows[i].category == topic
      ensures rows[i] in r
    {
      var j :| 0 <= j < |idx| && idx[j] == i;
      assert r[j] == rows[i];
    }
  }

  /** The first row of the filtered table is the first matching row. */
  lemma {:induction false} FilterHeadIsFirstMatch(rows: seq<Row>, topic: string)
    requires FilterCategory(rows, topic) != []
    ensures exists k :: IsFirstMatch(rows, topic, k) && FilterCategory(rows, topic)[0] == rows[k]
  {
    if rows[0].category == topic {
      assert IsFirstMatch(rows, topic, 0);
    } else {
      FilterHeadIsFirstMatch(rows[1..], topic);
      var k :| IsFirstMatch(rows[1..], topic, k) && FilterCategory(rows[1..], topic)[0] == rows[1..][k];
      assert IsFirstMatch(rows, topic, k + 1);
    }
  }

  /** The `/recommend` handler: a failure record exactly when no category equals
      the lower-cased topic, otherwise the fields of the first such row. */
  function Recommend(catalog: seq<Row>, topic: string): (r: Response)
    ensures r.Failed? <==> forall i :: 0 <= i < |catalog| ==> catalog[i].category != Lower(topic)
    ensures r.Failed? ==> r.status == FAILED_STATUS && r.message == FAILED_MESSAGE
    ensures r.Match? ==> r.category == Lower(topic)
    ensures r.Match? ==> exists k ::
      && IsFirstMatch(catalog, Lower(topic), k)
      && r == Match(catalog[k].title, catalog[k].category, catalog[k].content)
  {
    var topic := Lower(topic);
    var result := FilterCategory(catalog, topic);
    if result == [] then
      Failed(FAILED_STATUS, FAILED_MESSAGE)
    else
      FilterHeadIsFirstMatch(catalog, topic);
      var row := result[0];
      Match(row.title, row.category, row.content)
  }
}
