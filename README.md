# Document-tracker analytics: "also likes" and top readers

This project models the two analyses of the document-tracker data-analysis tool
that have real algorithmic structure. Both work over an event table. Each row of
the table records a visitor (`visitor_uuid`), a document (`subject_doc_id`), an
event type (`event_type`) and a read time in milliseconds (`event_readtime`).

- **Also likes** (`AlsoLikesAnalyzer`). For a seed document:
  - find the seed's distinct readers;
  - gather the distinct documents each of them read;
  - count, per document, how many of the seed's readers read it, and rank by that count;
  - keep the top ten;
  - build a directed graph linking those readers to those documents, with the seed document and the queried visitor marked.
- **Top readers** (`ViewerDataAnalyzer`). Keep the `pagereadtime` events, sum the read time per visitor, and return the ten largest totals, largest first.

The analyzer object only holds the table and never changes it. So the table is
an explicit `events: seq<Event>` parameter of every operation. The two loops of
the source are methods with loop invariants, and each is proved equal to a
specification function:
- the reader loop of `also_likes` (`AlsoLikes` against `CoOccurrence`);
- the nested document/reader loops of `create_also_likes_graph` (`CreateAlsoLikesGraph` and `LinkReaders` against `AlsoLikesGraph`).

The properties the analyses promise are proved as lemmas about those functions.
The lemmas are stated against reference sets: `Events.ReaderSet` (the visitors
with an event on a document) and `Events.DocSet` (the documents a visitor has
an event on).

Modules:
- `Seqs`: duplicate-free sequences; `Distinct` models pandas `unique()`, which keeps first-appearance order.
- `Events`: the event record and the reference reader and document sets.
- `Ranking`: a ranked pandas Series as a sequence of `(key, count)` entries. It provides a stable descending sort, `head`/slicing, and `value_counts`.
- `AlsoLikesAnalyzer`, `ViewerDataAnalyzer`: the two analyses.

## Model

| member | source | states |
|---|---|---|
| AlsoLikesAnalyzer.ReadersOf | src/analysis/alsoLikesAnalyzer.py:13-15 | The readers of a document are duplicate-free. A visitor is listed iff some event links it to the document. The order is first appearance among that document's rows. |
| AlsoLikesAnalyzer.DocumentsOf | src/analysis/alsoLikesAnalyzer.py:19-21 | The documents of a visitor are duplicate-free. A document is listed iff the visitor has an event on it. The order is first appearance among the visitor's rows. |
| AlsoLikesAnalyzer.ReaderColumn | src/analysis/alsoLikesAnalyzer.py:15 | The filtered visitor column holds exactly the readers of the document. |
| AlsoLikesAnalyzer.DocColumn | src/analysis/alsoLikesAnalyzer.py:21 | The filtered document column holds exactly the documents of the visitor. |
| Events.ReadSymmetric | src/analysis/alsoLikesAnalyzer.py:13-21 | The two lookups see one relation: v reads d iff d is among v's documents. |
| AlsoLikesAnalyzer.LikedCount | src/analysis/alsoLikesAnalyzer.py:29-34 | Given distinct readers, the flat list built by the loop holds a document once per listed reader who read it. |
| AlsoLikesAnalyzer.AlsoLikes | src/analysis/alsoLikesAnalyzer.py:25-37 | The loop that extends the list reader by reader, followed by value_counts, yields the co-occurrence ranking. |
| AlsoLikesAnalyzer.CoOccurrence | src/analysis/alsoLikesAnalyzer.py:36-37 | Each document appears once in the ranking, and counts never increase along it. |
| AlsoLikesAnalyzer.CoOccurrenceCounts | src/analysis/alsoLikesAnalyzer.py:27-36 | A document's count is the number of distinct visitors who read both it and the seed, and is at least 1. |
| AlsoLikesAnalyzer.CoOccurrenceKeys | src/analysis/alsoLikesAnalyzer.py:29-37 | A document is ranked iff it shares at least one reader with the seed. |
| AlsoLikesAnalyzer.RankedAreCoReadDocuments | src/analysis/alsoLikesAnalyzer.py:29-37 | The ranked documents are exactly the union of the document sets of the seed's readers. |
| AlsoLikesAnalyzer.SeedCountsItsReaders | src/analysis/alsoLikesAnalyzer.py:27-36 | A seed with readers is ranked itself, with its number of distinct readers as its count. |
| AlsoLikesAnalyzer.SeedCountIsMaximal | src/analysis/alsoLikesAnalyzer.py:27-36 | No count exceeds the seed's number of distinct readers. |
| AlsoLikesAnalyzer.EmptyIffNoReaders | src/analysis/alsoLikesAnalyzer.py:27-37 | The ranking is empty iff the seed has no events, an unknown id included. |
| AlsoLikesAnalyzer.GetTop10AlsoLikes | src/analysis/alsoLikesAnalyzer.py:39-42 | The result is the prefix of the ranking of length min(10, ranking size). Its entries have distinct keys and non-increasing counts. No kept count is below a count left out. |
| AlsoLikesAnalyzer.ReaderEdgesMembers | src/analysis/alsoLikesAnalyzer.py:74-81 | For one document, the inner loop adds an edge exactly for each scanned reader who also read the seed, marked iff that reader is the queried visitor. Over distinct readers, no edge repeats. |
| AlsoLikesAnalyzer.GraphEdgesMembers | src/analysis/alsoLikesAnalyzer.py:64-81 | An edge v→d is in the graph iff d is listed and v read both the seed and d, marked iff v is the queried visitor. Over distinct documents, no edge repeats. |
| AlsoLikesAnalyzer.DocNodesAt | src/analysis/alsoLikesAnalyzer.py:66-72 | There is one document node per listed document, in list order, marked iff it is the seed. |
| AlsoLikesAnalyzer.AlsoLikesGraphShape | src/analysis/alsoLikesAnalyzer.py:64-81 | Document nodes are the listed entries in order, seed-marked iff equal to the seed. Edges are exactly (seed reader, listed document it read), each at most once. Visitor nodes are exactly the seed readers who read a listed document, queried-marked iff equal to the supplied visitor. An absent queried visitor marks nothing. |
| AlsoLikesAnalyzer.LinkReaders | src/analysis/alsoLikesAnalyzer.py:74-81 | The inner loop appends the edges of the document's seed-reading users and keeps the visitor-node set equal to the sources of the edges so far. |
| AlsoLikesAnalyzer.CreateAlsoLikesGraph | src/analysis/alsoLikesAnalyzer.py:60-83 | The nested loops build exactly AlsoLikesGraph, whose shape AlsoLikesGraphShape states. |
| Ranking.ValueCounts | src/analysis/alsoLikesAnalyzer.py:36 | value_counts: keys are exactly the distinct values, each with its number of occurrences. Keys are distinct and counts non-increasing. |
| Ranking.SortDesc | src/analysis/viewerDataAnalyzer.py:10 | The descending sort is a permutation of its input with non-increasing counts, and it keeps keys distinct. |
| Ranking.Insert | src/analysis/viewerDataAnalyzer.py:10 | One insertion step of the sort adds exactly the inserted entry. |
| Ranking.InsertNonIncreasing | src/analysis/viewerDataAnalyzer.py:10 | Inserting into a non-increasing sequence keeps it non-increasing. |
| Ranking.Head | src/analysis/viewerDataAnalyzer.py:10 | head(n) / [:n]: the prefix of length min(n, size). It keeps order and distinct keys, and no kept count is below a dropped one. |
| Ranking.HeadLeavesOutSmaller | src/analysis/viewerDataAnalyzer.py:10 | An entry that head drops is not larger than any entry it keeps. |
| Seqs.Distinct | src/analysis/alsoLikesAnalyzer.py:15 | unique(): duplicate-free, the same members as its input, in first-appearance order. |
| ViewerDataAnalyzer.PageReads | src/analysis/viewerDataAnalyzer.py:8 | The filter keeps exactly the pagereadtime events. |
| ViewerDataAnalyzer.PageReadsCounts | src/analysis/viewerDataAnalyzer.py:8 | The filter keeps each pagereadtime row as many times as it occurs in the table, repeated rows included, and drops every other row. |
| ViewerDataAnalyzer.GroupSum | src/analysis/viewerDataAnalyzer.py:9 | There is one group per visitor of the filtered rows, each with the sum of that visitor's read times. |
| ViewerDataAnalyzer.GroupTotalOfPageReads | src/analysis/viewerDataAnalyzer.py:8-9 | A visitor's group sum over the filtered rows is the visitor's total pagereadtime read time. |
| ViewerDataAnalyzer.PageReadVisitors | src/analysis/viewerDataAnalyzer.py:8-9 | The grouped visitors are exactly the visitors with a pagereadtime event. |
| ViewerDataAnalyzer.NoReadTimeEventsNoTime | src/analysis/viewerDataAnalyzer.py:8-9 | A visitor without pagereadtime events has total read time 0. |
| ViewerDataAnalyzer.CalculateReadingTimes | src/analysis/viewerDataAnalyzer.py:6-11 | Size min(10, number of visitors with a pagereadtime event), so empty when there are none. Visitors are distinct, with non-increasing totals. Each value is the visitor's total pagereadtime read time. Every returned total is at least the total of any visitor left out. |
| ViewerDataAnalyzer.PageReadsAppend | src/analysis/viewerDataAnalyzer.py:8 | The filter distributes over concatenation of tables. |
| ViewerDataAnalyzer.OtherEventsIgnored | src/analysis/viewerDataAnalyzer.py:8 | Inserting an event of any other type anywhere in the table leaves the result unchanged. |

## Left out

- `print_top_liked_docs` and `print_top_readers`: formatting with `tabulate` and printing, which is output only.
- `save_graph`: creating the output directory and rendering with Graphviz, which is file I/O.
- The graph's presentation: graph name, `rankdir`, shapes, fill styles, the four-character labels (`uuid[-4:]`) and the edge label "Likes". Colours appear only as the role flags `isSeed` and `isQueried`.
- AlsoLikesAnalyzer.CreateAlsoLikesGraph: the Graphviz `Digraph` is a library object built inside the function. It is a `Graph` value reassigned by the loops, not an object updated in place. Repeated node statements for one visitor are one element of a set, since Graphviz merges them. The model does not capture the case where a visitor id equals a document id, which Graphviz would also merge.
- AlsoLikesAnalyzer.CoOccurrence: pandas does not fix the order of documents with equal counts in `value_counts`. The model uses a stable sort over first-appearance order. Only distinct keys and non-increasing counts are proved, and nothing about tie order.
- ViewerDataAnalyzer.CalculateReadingTimes: pandas `groupby` sorts visitor ids, and `sort_values` is not a stable sort. The model groups in first-appearance order and sorts stably, so which visitor among equal totals at the tenth place is kept is not the pandas choice. Every proved property holds for any tie order.
- ViewerDataAnalyzer.CalculateReadingTimes: read times are naturals. Floating-point and missing (NaN) read times are not modelled.
- Events: every row has a visitor id and a document id. Rows missing `visitor_uuid` or `subject_doc_id` are not modelled; `read_json` loads those as NaN. For such a table, the source's two lookups (`unique()`) would list NaN as a reader or document, while `value_counts` and `groupby` drop NaN keys. The model describes the table without those rows.
- Events: the table's other columns (user agent, country and the rest) play no part in these analyses.
- The queried visitor of the graph is a plain id. An id that matches no reader leaves every node unmarked, as the source does.
- Loading the table from JSON (`src/analysis/data_handler.py`), the Streamlit GUI, the command-line front end and the geographic and browser analyses are not part of this model. They are I/O, presentation or calls into external libraries.
