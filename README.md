# Finance knowledge recommender: selection rules

This project models the deterministic selection rules of a small
financial-education recommender. The catalog is a fixed table of snippets,
each with a title, a category (stocks, crypto, banking, mutual funds, …) and
content. The model does not compute similarity. It takes one similarity score
per catalog row as an input and models what the service does with those
scores and with the query text:

- **Top-3 recommendation** (`RecommendationSystem`). The query is
  lower-cased. Every row gets a candidate `(index, score)`. The score is
  raised by 0.5 when the row's category occurs inside the lower-cased query.
  The candidates are sorted by score, highest first, with a stable sort, and
  the first three are kept. This module also models the page name sent to
  Wikipedia's summary API (every space becomes `%20`).
- **Single-best recommendation** (`SmartRecommender`). The first row with the
  highest score wins. The response carries the query unchanged and that row's
  category, title, content and score.
- **Dataset lookup** (`DatasetApi`). The topic is lower-cased. The first row
  whose category equals it is returned. If no row matches, a fixed failure
  record is returned.
- **Learning links** (`Api`). The topic is lower-cased and looked up in a fixed
  table of four topics. A topic outside the table gets three constructed links:
  an Investopedia search, a Wikipedia page with spaces turned into
  underscores, and a YouTube search ending in `+explained`.

`Text` holds the string operations they share: ASCII lower-casing, Python's
substring test and one-character replacement. `Catalog` holds the row type
and the text indexed per row (`title + " " + content`).

Main results:

- The ranking is sorted by score. Equal scores keep row order, because the
  sort is stable and the candidates are built in row order.
- Exactly `min(3, rows)` candidates are returned, from distinct rows. Each
  carries its row's boosted score. Every row left out ranks after every row
  returned.
- For one and the same score vector, when no category gets the bonus, the
  top-3 ranking starts with the first maximum (`ArgMax`).

Modelling notes:

- Categories are compared exactly as stored in the catalog. The code never
  lower-cases them on load, so a category with capitals never matches a
  lower-cased topic.
- The single-best recommender does not guard against an empty catalog: its
  `argmax` over zero rows fails. The model states a non-empty catalog as a
  precondition instead of inventing an error value.
- The single-best recommender does not lower-case its query. The top-3
  recommender and the other two handlers do.

## Model

| member | source | states |
|---|---|---|
| `Text.Lower` | dataset_api.py:23 | Same length; no upper-case ASCII letter is left; every other character is kept; each upper-case letter becomes its lower-case counterpart. |
| `Text.EmptyIsSubstring` | recommendation_system.py:74 | `"" in s` holds for every string `s`. |
| `Text.ReplaceChar` | recommendation_system.py:30 | `s.replace(c, t)`: the length grows by `|t| - 1` per occurrence of `c`; if `t` does not contain `c`, neither does the result. |
| `Text.ReplaceCharPointwise` | api.py:212 | With a one-character replacement the result has the input's length and differs from it exactly at the positions that held `c`. |
| `Catalog.IndexedText` | recommendation_system.py:14 | For every row, the indexed text is the title, then one space at position `|title|`, then the content, with nothing else. |
| `Catalog.IndexedTextSplits` | recommendation_system.py:14 | For a title without spaces, splitting the indexed text at its first space gives the title and the content back. The program never splits this text; the lemma is a check on the concatenation's layout. |
| `RecommendationSystem.Insert` | recommendation_system.py:79 | Inserting into the sorted list adds exactly that one element; nothing is lost or duplicated. |
| `RecommendationSystem.SortByScore` | recommendation_system.py:79 | `sorted(...)` returns a permutation of its input (same length, same multiset). |
| `RecommendationSystem.SortNonIncreasing` | recommendation_system.py:79 | For any input, the sorted scores are in non-increasing order (`reverse=True`). |
| `RecommendationSystem.InsertRanked` | recommendation_system.py:79 | Inserting an element whose row precedes all rows of a ranked list keeps the list ranked: by score, then by row on equal scores. |
| `RecommendationSystem.SortRanked` | recommendation_system.py:79 | Stability: if the input lists rows in increasing order, the sorted list puts equal scores in increasing row order. |
| `RecommendationSystem.BoostedScore` | recommendation_system.py:74-75 | The score either stays as it is or grows by exactly 0.5, and it grows exactly when the category occurs in the lower-cased query. `BuildCandidates` applies it once per row. |
| `RecommendationSystem.BuildCandidates` | recommendation_system.py:70-77 | Exactly one candidate per row, in row order, with index `k` at position `k`. The score is raised by exactly 0.5 when the row's category occurs in the lower-cased query, and is unchanged otherwise. |
| `RecommendationSystem.Recommend` | recommendation_system.py:64-79 | Returns the first `min(3, rows)` boosted candidates of the stable sort. They are sorted by score with ties in row order. Each is in range and carries its row's boosted score. No row appears twice. Every row left out ranks after every row returned. |
| `RecommendationSystem.TopThreeProperties` | recommendation_system.py:79 | The same properties, stated for the specification `TopThree`. |
| `RecommendationSystem.PrefixOfRanking` | recommendation_system.py:79 | Any prefix of a ranked permutation of the candidate list holds distinct rows, each with its own candidate, and ranks before every candidate it omits. |
| `RecommendationSystem.EmptyCategoryBoosted` | recommendation_system.py:74-75 | A row whose category is the empty string always gets the 0.5 bonus. Such a row cannot come from the CSV, whose empty cells are read as missing values; it arises only from a catalog given directly. |
| `RecommendationSystem.BonusIsCategoryInQuery` | recommendation_system.py:74 | The bonus test runs category-in-query: query `bank` earns nothing for category `banking`; query `online banking` earns the bonus. |
| `RecommendationSystem.BestMatchLeadsRanking` | recommendation_system.py:79 | For one and the same score vector, with no bonus applied, the first candidate of the ranking is the first maximum (`ArgMax`). |
| `RecommendationSystem.WebSummaryTopic` | recommendation_system.py:30 | The page name sent for the Wikipedia summary holds no space. |
| `RecommendationSystem.EscapedPrefix` | recommendation_system.py:30 | The page name starts with `%20` only if the query starts with a space or with `%20`. |
| `RecommendationSystem.WebSummaryTopicDecodes` | recommendation_system.py:30 | Only the spaces change: for a query that does not itself contain `%20`, turning each `%20` back into a space gives the query. |
| `RecommendationSystem.EscapeIsNotInjective` | recommendation_system.py:30 | The round trip needs its condition: the query `%20` is left as `%20` and decodes to a space. |
| `SmartRecommender.ArgMax` | smart_recommender.py:34 | The index is in range, holds a maximal score, and every earlier index holds a strictly smaller score (numpy's first-occurrence rule). |
| `SmartRecommender.FirstMaxUnique` | smart_recommender.py:34 | At most one index is the first maximum, so `ArgMax` is fully determined by its contract. |
| `SmartRecommender.Recommend` | smart_recommender.py:28-44 | `query` is the input unchanged. `match_score` is at least every score. Category, title, content and score all come from one row, the first maximum. Requires a non-empty catalog. |
| `DatasetApi.FilterCategory` | dataset_api.py:25 | The filtered rows come from the table and all have the topic as category. The filter is empty exactly when no row's category equals the topic. That every match is kept, in table order, is proved by `FilterKeepsEveryMatch` and `FilterKeepsTableOrder`. |
| `DatasetApi.MatchIndicesCorrect` | dataset_api.py:25 | `MatchIndices` lists every position whose category equals the topic, and only those, in increasing order. |
| `DatasetApi.FilterKeepsTableOrder` | dataset_api.py:25 | The filtered table has one row per matching position: its `j`-th row is the row at the `j`-th matching position, so table order is kept. |
| `DatasetApi.FilterKeepsEveryMatch` | dataset_api.py:25 | Every row whose category equals the topic is in the filtered table. |
| `DatasetApi.FilterHeadIsFirstMatch` | dataset_api.py:25-33 | The first filtered row is the first row of the table whose category equals the topic. |
| `DatasetApi.Recommend` | dataset_api.py:21-39 | Fails exactly when no category equals the lower-cased topic. A failure has status `failed` and the fixed message. A success is the first matching row, with title, category and content from that row, and its category is the lower-cased topic. |
| `Api.Learn` | api.py:150-225 | `topic` is the lower-cased input, and the fetch and the generator receive it. A known topic gets exactly its table entry's articles and videos. Any other topic gets the two constructed article links and the one video link. |
| `Api.SelectLinks` | api.py:209-217 | `topic_links.get`: a known topic gets its table entry, and the constructed links are used exactly when the topic is not a key of the table. |
| `Api.FallbackLinks` | api.py:210-216 | Two articles and one video. The first article is the Investopedia search prefix followed by the topic. The second is the wiki prefix followed by the topic with each space turned into `_`, character for character, so it holds no space. The video is the YouTube search prefix, then the topic, then `+explained`. |
| `Api.TableKeysAreLowerCase` | api.py:157-207 | Every key of the link table is its own lower-case form, so any capitalisation of a known topic reaches it. |
| `Api.CaseVariantOfKnownTopic` | api.py:152-209 | Any capitalisation of a known topic gets that topic's table entry, articles and videos alike. |

## Left out

- Embedding and cosine similarity (sentence-transformer encoding, `cosine_similarity`) are library calls. Their output, one score per row, is a parameter of each recommender.
- Scores are exact reals. The model does not capture float32 rounding of the similarity or of `score += 0.5`, and there are no NaN scores; numpy's `argmax` returns the first NaN, which is not modelled.
- Python's `sorted` is modelled by a stable insertion sort. Only its result matters: a stable sort's output is fully determined.
- The Wikipedia HTTP requests, their status and exception fallbacks, and the BART summariser are network and model calls. Only the `%20` page name is modelled.
- In `learn`, `fetch_wikipedia` and the Groq language-model call (with its prompt) are function-typed parameters of `Api.Learn`.
- The console program of the top-3 recommender (`input()`, printing of titles, previews and reference links) is I/O.
- FastAPI app creation, CORS middleware, the `/` home routes, `.env` loading and API keys are web and configuration plumbing.
- CSV loading with pandas is I/O. The catalog is a parameter; a category that pandas reads as a missing value (not a string) is not modelled. pandas reads an empty cell as such a missing value, on which `category in query_lower` raises, so an empty-string category comes only from a catalog given directly.
- `str.lower()` is modelled as ASCII case folding. Unicode case mapping is not modelled.
- The two recommenders compute their scores from different texts: the single-best one compares each row's content with the raw query, the top-3 one compares `title + " " + content` with the lower-cased query. The model takes each score vector as a parameter, so it does not relate the two endpoints' actual outputs.
- `Api.Learn`: exceptions from the Groq call are not modelled. The source's `ai_generate` has no handler, so a failed or unauthorised request makes `learn` raise before any links are chosen; the model assumes the call returns a string.
- `SmartRecommender.Recommend` requires a non-empty catalog, because the source's `argmax` over zero rows raises instead of returning a value.
