# Top articles per industry — a Dafny model

This project models the logic inside the Kafka Streams pipeline
`TopArticlesLambdaExample`. The pipeline reads page-view events and keeps
only article views. It counts them per article in one-hour tumbling windows,
then re-keys each windowed count by the article's industry. Per windowed
industry it keeps a `PriorityQueue` of stats records, and it renders that
queue as text, one page per line, polling it at most 100 times.

Modules, in pipeline order:

- `Records` (records.dfy): the value types: page view, window, windowed key, stats record.
- `ArticleFilter` (article_filter.dfy): `isArticle` and the `filter` step.
- `Windows` (windows.dfy): one-hour tumbling window assignment. The streams library does this, so it is modelled as an assumed pure function.
- `Regroup` (regroup.dfy): the `groupBy` selector.
- `Ranking` (ranking.dfy): the comparator and the priority queue, as a class whose abstract value is a multiset. It also holds the initializer and the "add" and "remove" aggregators.
- `TopNews` (top_n.dfy): the `mapValues` loop that drains the queue into text.

Points where the code's behaviour is easy to misread:

- The selector writes the literals `"pageId"` and `"industryName"` into every stats record. It does not copy the article's values. `Regroup.RecordIgnoresArticle` and `TopNews.PlaceholderLines` state what follows: every rendered line reads `pageId`.
- The comparator is ascending by count, so polling yields the lowest counts first. The header comment (TopArticlesLambdaExample.java:42) speaks of the "top 100 news articles … ranked by click-through-rate", which suggests the highest first; the model follows the code.
- `remove` drops an element equal to the record in every field (Avro record equality).
- The rendering consumes what it polls: up to 100 records leave the queue, and it holds only what was not polled.

## Model

| member | source | states |
|---|---|---|
| `ArticleFilter.Contains` | kafka-streams/src/main/java/io/confluent/examples/streams/TopArticlesLambdaExample.java:57 | `String.contains`: true exactly when `sub` occurs as a contiguous substring of `s` at some index |
| `ArticleFilter.IsArticle` | kafka-streams/src/main/java/io/confluent/examples/streams/TopArticlesLambdaExample.java:54-58 | a view is an article exactly when its `flags` contain "ART" at some index |
| `ArticleFilter.FilterArticles` | kafka-streams/src/main/java/io/confluent/examples/streams/TopArticlesLambdaExample.java:83-85 | the filter keeps only article views, keeps each article view as many times as it occurs and in the input's order, drops every other view, and never grows the input |
| `Windows.WindowFor` | kafka-streams/src/main/java/io/confluent/examples/streams/TopArticlesLambdaExample.java:91-94 | a timestamp lands in a window that is aligned to one hour, one hour long, and contains it |
| `Windows.WindowForUnique` | kafka-streams/src/main/java/io/confluent/examples/streams/TopArticlesLambdaExample.java:92-94 | tumbling windows do not overlap: any aligned one-hour window holding the timestamp is the assigned one |
| `Regroup.Select` | kafka-streams/src/main/java/io/confluent/examples/streams/TopArticlesLambdaExample.java:99-109 | the new key keeps the window and takes the article's industry; the record keeps the count, with page "pageId" and industry "industryName" |
| `Regroup.SameIndustrySameKey` | kafka-streams/src/main/java/io/confluent/examples/streams/TopArticlesLambdaExample.java:101-102 | articles of one industry in one window are re-keyed to the same ranking, whatever their counts |
| `Regroup.RecordIgnoresArticle` | kafka-streams/src/main/java/io/confluent/examples/streams/TopArticlesLambdaExample.java:104-107 | the stats record depends only on the count: different articles with equal counts give equal records |
| `Ranking.NarrowToInt` | kafka-streams/src/main/java/io/confluent/examples/streams/TopArticlesLambdaExample.java:116 | the `(int)` cast gives a 32-bit signed value that equals its input modulo 2^32 |
| `Ranking.NarrowedCompare` | kafka-streams/src/main/java/io/confluent/examples/streams/TopArticlesLambdaExample.java:116 | the comparator as written: a 32-bit signed value congruent to the count difference modulo 2^32 |
| `Ranking.CompareCounts` | kafka-streams/src/main/java/io/confluent/examples/streams/TopArticlesLambdaExample.java:115-117 | the intended comparator is negative, zero or positive exactly when the first count is smaller, equal or larger |
| `Ranking.NarrowedCompareAgrees` | kafka-streams/src/main/java/io/confluent/examples/streams/TopArticlesLambdaExample.java:115-117 | when counts lie in [0, 2^31) the comparator as written returns the exact difference, so its sign agrees with the intended comparator |
| `Ranking.NarrowedCompareMisorders` | kafka-streams/src/main/java/io/confluent/examples/streams/TopArticlesLambdaExample.java:116 | with counts 2^31 and 0 the comparator as written calls each record smaller than the other |
| `Ranking.FirstMinimal` | kafka-streams/src/main/java/io/confluent/examples/streams/TopArticlesLambdaExample.java:141 | every non-empty sequence of records has an index of minimal count; this is the first one. It witnesses the choice `Poll` makes |
| `Ranking.MinimalAtIsMinimal` | kafka-streams/src/main/java/io/confluent/examples/streams/TopArticlesLambdaExample.java:141 | an element minimal by position is minimal against the whole multiset of the queue |
| `Ranking.RemoveAtContents` | kafka-streams/src/main/java/io/confluent/examples/streams/TopArticlesLambdaExample.java:128 | taking one element out of the storage removes exactly one copy of it from the contents |
| `Ranking.RankingQueue.constructor` | kafka-streams/src/main/java/io/confluent/examples/streams/TopArticlesLambdaExample.java:117 | a new priority queue is empty |
| `Ranking.RankingQueue.Add` | kafka-streams/src/main/java/io/confluent/examples/streams/TopArticlesLambdaExample.java:122 | `add` raises the multiplicity of the record by one and changes nothing else |
| `Ranking.RankingQueue.Remove` | kafka-streams/src/main/java/io/confluent/examples/streams/TopArticlesLambdaExample.java:128 | `remove` drops one equal element and reports true when one was present; otherwise it reports false and leaves the contents as they were |
| `Ranking.RankingQueue.Poll` | kafka-streams/src/main/java/io/confluent/examples/streams/TopArticlesLambdaExample.java:141-143 | `poll` on an empty queue gives None and changes nothing; otherwise it removes and returns one element whose count is minimal |
| `Ranking.Initializer` | kafka-streams/src/main/java/io/confluent/examples/streams/TopArticlesLambdaExample.java:114-118 | the aggregate starts from a fresh empty queue |
| `Ranking.AddAggregator` | kafka-streams/src/main/java/io/confluent/examples/streams/TopArticlesLambdaExample.java:121-124 | "add" inserts the record in place and returns the same queue object |
| `Ranking.RemoveAggregator` | kafka-streams/src/main/java/io/confluent/examples/streams/TopArticlesLambdaExample.java:127-130 | "remove" takes out one equal record in place, or nothing when none is present, and returns the same queue object |
| `Ranking.AddThenRemove` | kafka-streams/src/main/java/io/confluent/examples/streams/TopArticlesLambdaExample.java:121-130 | "add" then "remove" of the same record restores the queue's original contents |
| `TopNews.Lines` | kafka-streams/src/main/java/io/confluent/examples/streams/TopArticlesLambdaExample.java:144-145 | the rendered text of a non-empty sequence of records ends in a newline |
| `TopNews.TopNewsText` | kafka-streams/src/main/java/io/confluent/examples/streams/TopArticlesLambdaExample.java:136-148 | the loop polls min(100, size) records and renders their pages one per line. The records come out in non-decreasing count order, none counts more than a record left behind, and the queue keeps exactly the original minus what was polled |
| `TopNews.DrainStep` | kafka-streams/src/main/java/io/confluent/examples/streams/TopArticlesLambdaExample.java:140-146 | appending a polled minimal record keeps the output sorted and no larger than what remains, and moves exactly that record from queue to output |
| `TopNews.LinesCount` | kafka-streams/src/main/java/io/confluent/examples/streams/TopArticlesLambdaExample.java:144-145 | when no page holds a newline, the text has exactly one newline per polled record |
| `TopNews.PlaceholderLines` | kafka-streams/src/main/java/io/confluent/examples/streams/TopArticlesLambdaExample.java:144-145 | records made by the selector render as "pageId\n" repeated once per record |

## Findings

| source | as written | input that shows it | evidently intended | confidence | as-written member | corrected member |
|---|---|---|---|---|---|---|
| kafka-streams/src/main/java/io/confluent/examples/streams/TopArticlesLambdaExample.java:116 | `(int) (count1 - count2)` narrows a `long` difference to 32 bits | counts 2^31 and 0: both comparisons come out negative | a sign-correct comparison by count (`Long.compare`) | low: needs 2^31 views of one article in an hour; not executed | `Ranking.NarrowedCompareMisorders` | `Ranking.CompareCounts` |

The queue in `Ranking` is ordered by `CompareCounts`. `Ranking.NarrowedCompareAgrees` shows the two comparators agree when counts lie in [0, 2^31).

## Left out

- Process configuration, the broker, ZooKeeper and schema-registry addresses, `KafkaStreams.start` and the shutdown hook (lines 60-79, 152-156). These are I/O and lifecycle.
- Avro schema parsing and every serde (generic Avro, windowed, priority queue) and the output topic (lines 75-77, 89, 132, 150). These are codecs and I/O whose source is not part of this model.
- The `map` step that re-keys each article view by itself (line 87). It is an identity pairing with no logic of its own.
- The windowed count store (`groupByKey().count`, lines 91-94). The library also decides when the re-grouping fires "add" and when it fires "remove", and runs repartitioning and the state stores. That behaviour cannot be seen in the source. Only the window assignment is modelled, as an assumed function.
- Windows.WindowFor: takes a non-negative timestamp only. The library's handling of negative timestamps is outside this model.
- The heap layout of `java.util.PriorityQueue` and its order among equal counts. The queue is a multiset with min-extraction, and `Poll` may return any element of minimal count.
- Missing (`null`) `flags` or `industry` fields, and the class casts on them. In Java these throw; the model's records always have every field.
- Ranking.RankingQueue.Poll: ordered by the sign-correct comparator, not by the narrowed one as written. The two agree when counts lie in [0, 2^31) (see Findings). With counts that differ by 2^31 or more, Java's queue has an inconsistent comparator and promises no order.
- TopNews.TopNewsText: its sorted output and its "no polled count above a remaining count" clause rest on `Poll`, so they carry the same gap for counts that differ by 2^31 or more.
