/** The `/learn` endpoint: the topic is lower-cased, a Wikipedia summary and an
    AI explanation are fetched for it, and reference links are picked from a
    fixed table of four topics, or built from the topic when it is not there.
    The Wikipedia fetch and the language-model call are parameters. */
module Api {
  import opened Text

  /** Reading and viewing suggestions for a topic. */
  datatype Links = Links(articles: seq<string>, videos: seq<string>)

  /** The response of `/learn`. */
  datatype LearnResponse = LearnResponse(
    topic: string,
    internetSummary: string,
    aiDetailedExplanation: string,
    articles: seq<string>,
    videos: seq<string>)

  const STOCKS_LINKS: Links := Links(
    [ "https://www.investopedia.com/terms/s/stock.asp",
      "https://groww.in/p/stock-market",
      "https://www.nerdwallet.com/article/investing/stocks",
      "https://www.moneycontrol.com/stocksmarketsindia/" ],
    [ "https://www.youtube.com/watch?v=p7HKvqRI_Bo",
      "https://www.youtube.com/watch?v=ywbv_6RZQY8",
      "https://www.youtube.com/watch?v=ZCFkWDdmXG8" ])

  const CRYPTO_LINKS: Links := Links(
    [ "https://www.investopedia.com/cryptocurrency-4689743",
      "https://coinmarketcap.com/alexandria/",
      "https://www.binance.com/en/learn" ],
    [ "https://www.youtube.com/watch?v=SSo_EIwHSd4",
      "https://www.youtube.com/watch?v=bBC-nXj3Ng4" ])

  const BANKING_LINKS: Links := Links(
    [ "https://www.investopedia.com/terms/b/banking.asp",
      "https://www.rbi.org.in/",
      "https://www.worldbank.org/en/home" ],
    [ "https://www.youtube.com/watch?v=B9c2tgR_iqI",
      "https://www.youtube.com/watch?v=s8MCNjYgS3Q" ])

  const MUTUAL_FUNDS_LINKS: Links := Links(
    [ "https://www.investopedia.com/terms/m/mutualfund.asp",
      "https://groww.in/mutual-funds",
      "https://www.morningstar.com/" ],
    [ "https://www.youtube.com/watch?v=3UFkZo9B5OU",
      "https://www.youtube.com/watch?v=z3OWJxsNU5g" ])

  /** The fixed `topic_links` table. */
  const TOPIC_LINKS: map<string, Links> := map[
    "stocks" := STOCKS_LINKS,
    "crypto" := CRYPTO_LINKS,
    "banking" := BANKING_LINKS,
    "mutual funds" := MUTUAL_FUNDS_LINKS ]

  const INVESTOPEDIA_SEARCH: string := "https://www.investopedia.com/search?q="
  const WIKIPEDIA_WIKI: string := "https://en.wikipedia.org/wiki/"
  const YOUTUBE_SEARCH: string := "https://www.youtube.com/results?search_query="
  const EXPLAINED_SUFFIX: string := "+explained"

  /** The links built for a topic outside the table: an Investopedia search and
      a Wikipedia page (spaces become underscores), and one YouTube search. */
  function FallbackLinks(topic: string): (l: Links)
    ensures |l.articles| == 2 && |l.videos| == 1
    ensures |l.articles[0]| == |INVESTOPEDIA_SEARCH| + |topic|
    ensures |l.articles[1]| == |WIKIPEDIA_WIKI| + |topic|
    ensures |l.videos[0]| == |YOUTUBE_SEARCH| + |topic| + |EXPLAINED_SUFFIX|
    ensures l.articles[0][..|INVESTOPEDIA_SEARCH|] == INVESTOPEDIA_SEARCH
    ensures l.articles[0][|INVESTOPEDIA_SEARCH|..] == topic
    ensures l.articles[1][..|WIKIPEDIA_WIKI|] == WIKIPEDIA_WIKI
    ensures forall i :: 0 <= i < |topic| ==>
      l.articles[1][|WIKIPEDIA_WIKI| + i] == (if topic[i] == ' ' then '_' else topic[i])
    ensures ' ' !in l.articles[1][|WIKIPEDIA_WIKI|..]
    ensures l.videos[0][..|YOUTUBE_SEARCH|] == YOUTUBE_SEARCH
    ensures l.videos[0][|YOUTUBE_SEARCH|..|YOUTUBE_SEARCH| + |topic|] == topic
    ensures l.videos[0][|l.videos[0]| - |EXPLAINED_SUFFIX|..] == EXPLAINED_SUFFIX
  {
    ReplaceCharPointwise(topic, ' ', '_');
    var page := ReplaceChar(topic, ' ', "_");
    assert (WIKIPEDIA_WIKI + page)[|WIKIPEDIA_WIKI|..] == page;
    Links(
      [ INVESTOPEDIA_SEARCH + topic, WIKIPEDIA_WIKI + ReplaceChar(topic, ' ', "_") ],
      [ YOUTUBE_SEARCH + topic + EXPLAINED_SUFFIX ])
  }

  /** `topic_links.get(topic, fallback)`: the constructed links are used
      exactly when the topic is not a key of the table. */
  function SelectLinks(topic: string): (l: Links)
    ensures topic in TOPIC_LINKS ==> l == TOPIC_LINKS[topic]
    ensures l == FallbackLinks(topic) <==> topic !in TOPIC_LINKS
  {
    if topic in TOPIC_LINKS then TOPIC_LINKS[topic] else FallbackLinks(topic)
  }

  /** The `/learn` handler. `fetchWikipedia` and `aiGenerate` stand for the
      network and language-model calls; both receive the lower-cased topic.
      Articles and videos always come from one entry: the table's entry for a
      known topic, the constructed links for any other. */
  function Learn(
    topic: string,
    fetchWikipedia: string -> string,
    aiGenerate: (string, string) -> string): (r: LearnResponse)
    ensures r.topic == Lower(topic)
    ensures r.internetSummary == fetchWikipedia(r.topic)
    ensures r.aiDetailedExplanation == aiGenerate(r.topic, r.internetSummary)
    ensures r.topic in TOPIC_LINKS ==>
      r.articles == TOPIC_LINKS[r.topic].articles && r.videos == TOPIC_LINKS[r.topic].videos
    ensures r.topic !in TOPIC_LINKS ==>
      && r.articles == [INVESTOPEDIA_SEARCH + r.topic, WIKIPEDIA_WIKI + ReplaceChar(r.topic, ' ', "_")]
      && r.videos == [YOUTUBE_SEARCH + r.topic + EXPLAINED_SUFFIX]
  {
    var topic := Lower(topic);
    var wikiSummary := fetchWikipedia(topic);
    var aiResponse := aiGenerate(topic, wikiSummary);
    var selected := SelectLinks(topic);
    LearnResponse(topic, wikiSummary, aiResponse, selected.articles, selected.videos)
  }

  /** Every key of the table is already lower-case, so any capitalisation of a
      known topic reaches its entry. */
  lemma TableKeysAreLowerCase()
    ensures forall key :: key in TOPIC_LINKS ==> Lower(key) == key
  {
    forall key | key in TOPIC_LINKS
      ensures Lower(key) == key
    {
      LowerKeepsLowerCase(key);
    }
  }

  /** A string without upper-case letters is its own lower-case form. */
  lemma LowerKeepsLowerCase(s: string)
    requires forall i :: 0 <= i < |s| ==> !IsUpper(s[i])
    ensures Lower(s) == s
  {
  }

  /** Any capitalisation of a known topic gets that topic's table entry. */
  lemma CaseVariantOfKnownTopic(
    topic: string,
    key: string,
    fetchWikipedia: string -> string,
    aiGenerate: (string, string) -> string)
    requires key in TOPIC_LINKS && Lower(topic) == Lower(key)
    ensures Learn(topic, fetchWikipedia, aiGenerate).articles == TOPIC_LINKS[key].articles
    ensures Learn(topic, fetchWikipedia, aiGenerate).videos == TOPIC_LINKS[key].videos
  {
    TableKeysAreLowerCase();
  }
}
