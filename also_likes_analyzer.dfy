/**
 * The "also likes" co-occurrence recommender: for a seed document, the
 * documents read by the seed's readers, ranked by how many of those readers
 * read them, and the graph that explains the top of that ranking.
 *
 * The analyzer object only holds the event table, which it never changes, so
 * every operation here takes the table as its first parameter.
 */
module AlsoLikesAnalyzer {
  import opened Seqs
  import opened Events
  import opened Ranking

  /** How many entries get_top_10_also_likes keeps. */
  const TopCount: nat := 10

  // ---------------------------------------------------------------------
  // Reader and document lookups
  // ---------------------------------------------------------------------

  /** The visitor_uuid column of the rows whose subject_doc_id is doc, in table order. */
  function ReaderColumn(events: seq<Event>, doc: string): (r: seq<string>)
    ensures forall v :: v in r <==> v in ReaderSet(events, doc)
  {
    if events == [] then []
    else
      var n := |events| - 1;
      ReaderSetSnoc(events, doc);
      ReaderColumn(events[..n], doc) + (if events[n].doc == doc then [events[n].visitor] else [])
  }

  /** The subject_doc_id column of the rows whose visitor_uuid is visitor, in table order. */
  function DocColumn(events: seq<Event>, visitor: string): (r: seq<string>)
    ensures forall d :: d in r <==> d in DocSet(events, visitor)
  {
    if events == [] then []
    else
      var n := |events| - 1;
      DocSetSnoc(events, visitor);
      DocColumn(events[..n], visitor) + (if events[n].visitor == visitor then [events[n].doc] else [])
  }

  /**
   * get_reader_uuids_for_document: the distinct readers of doc, in the order
   * in which they first appear among the rows on doc.
   */
  function ReadersOf(events: seq<Event>, doc: string): (r: seq<string>)
    ensures NoDups(r)
    ensures forall v :: v in r <==> v in ReaderSet(events, doc)
    ensures forall i, j :: 0 <= i < j < |r| ==>
      FirstIndex(ReaderColumn(events, doc), r[i]) < FirstIndex(ReaderColumn(events, doc), r[j])
  {
    Distinct(ReaderColumn(events, doc))
  }

  /**
   * get_document_uuids_read_by_visitor: the distinct documents of visitor, in
   * the order in which they first appear among the visitor's rows.
   */
  function DocumentsOf(events: seq<Event>, visitor: string): (r: seq<string>)
    ensures NoDups(r)
    ensures forall d :: d in r <==> d in DocSet(events, visitor)
    ensures forall i, j :: 0 <= i < j < |r| ==>
      FirstIndex(DocColumn(events, visitor), r[i]) < FirstIndex(DocColumn(events, visitor), r[j])
  {
    Distinct(DocColumn(events, visitor))
  }

  // ---------------------------------------------------------------------
  // Co-occurrence count
  // ---------------------------------------------------------------------

  /** liked_docs_list after the loop of also_likes has visited readers: each reader's documents in turn. */
  function Liked(events: seq<Event>, readers: seq<string>): seq<string>
  {
    if readers == [] then []
    else Liked(events, readers[..|readers| - 1]) + DocumentsOf(events, readers[|readers| - 1])
  }

  /**
   * A document occurs in the list once for every listed reader who read it:
   * its number of occurrences is the number of distinct such readers.
   */
  lemma {:induction false} LikedCount(events: seq<Event>, readers: seq<string>, doc: string)
    requires NoDups(readers)
    ensures multiset(Liked(events, readers))[doc] == |(set v | v in readers) * ReaderSet(events, doc)|
  {
    if readers != [] {
      var n := |readers| - 1;
      var v := readers[n];
      assert readers == readers[..n] + [v];
      assert v !in readers[..n];
      LikedCount(events, readers[..n], doc);
      OneReaderCount(events, v, doc);
      AddReader(readers[..n], v, ReaderSet(events, doc));
    }
  }

  /** A reader's document list holds a document once if the reader read it, and otherwise not at all. */
  lemma OneReaderCount(events: seq<Event>, v: string, doc: string)
    ensures multiset(DocumentsOf(events, v))[doc] == if v in ReaderSet(events, doc) then 1 else 0
  {
    NoDupsCount(DocumentsOf(events, v), doc);
    ReadSymmetric(events, v, doc);
  }

  /** The readers among prefix + [v] that belong to b: those among prefix, and v if it belongs. */
  lemma AddReader(prefix: seq<string>, v: string, b: set<string>)
    requires v !in prefix
    ensures |(set u | u in prefix + [v]) * b| ==
      |(set u | u in prefix) * b| + (if v in b then 1 else 0)
  {
    var before := (set u | u in prefix) * b;
    assert v !in before;
    if v in b {
      assert (set u | u in prefix + [v]) * b == before + {v};
    } else {
      assert (set u | u in prefix + [v]) * b == before;
    }
  }

  /**
   * The ranked Series also_likes returns for seed: the documents read by the
   * seed's readers, each once, most co-read first. What the counts and the
   * documents are is stated by CoOccurrenceCounts and CoOccurrenceKeys.
   */
  function CoOccurrence(events: seq<Event>, seed: string): (r: seq<Entry>)
    ensures UniqueKeys(r) && NonIncreasing(r)
  {
    ValueCounts(Liked(events, ReadersOf(events, seed)))
  }

  /** Each document's count is the number of distinct visitors who read both it and seed, and is positive. */
  lemma CoOccurrenceCounts(events: seq<Event>, seed: string)
    ensures forall e :: e in CoOccurrence(events, seed) ==>
      e.count == |ReaderSet(events, seed) * ReaderSet(events, e.key)| && e.count >= 1
  {
    var r := CoOccurrence(events, seed);
    forall e | e in r ensures e.count == |ReaderSet(events, seed) * ReaderSet(events, e.key)| && e.count >= 1 {
      var k :| 0 <= k < |r| && r[k] == e;
      CoReadCount(events, seed, e.key);
    }
  }

  /** A document is ranked exactly when it shares at least one reader with seed. */
  lemma CoOccurrenceKeys(events: seq<Event>, seed: string)
    ensures forall d :: d in Keys(CoOccurrence(events, seed)) <==>
      ReaderSet(events, seed) * ReaderSet(events, d) != {}
  {
    forall d ensures d in Keys(CoOccurrence(events, seed)) <==> ReaderSet(events, seed) * ReaderSet(events, d) != {} {
      CoReadCount(events, seed, d);
    }
  }

  /** The occurrences of doc among the documents of seed's readers count the readers the two share. */
  lemma CoReadCount(events: seq<Event>, seed: string, doc: string)
    ensures multiset(Liked(events, ReadersOf(events, seed)))[doc] ==
      |ReaderSet(events, seed) * ReaderSet(events, doc)|
  {
    var readers := ReadersOf(events, seed);
    assert (set v | v in readers) == ReaderSet(events, seed);
    LikedCount(events, readers, doc);
  }

  /** The documents ranked are exactly the union of the document sets of the seed's readers. */
  lemma RankedAreCoReadDocuments(events: seq<Event>, seed: string, doc: string)
    ensures doc in Keys(CoOccurrence(events, seed)) <==>
      exists v :: v in ReaderSet(events, seed) && doc in DocSet(events, v)
  {
    CoOccurrenceKeys(events, seed);
    var common := ReaderSet(events, seed) * ReaderSet(events, doc);
    if common != {} {
      var v :| v in common;
      ReadSymmetric(events, v, doc);
    }
    forall v | v in ReaderSet(events, seed) && doc in DocSet(events, v) ensures v in common {
      ReadSymmetric(events, v, doc);
    }
  }

  /**
   * also_likes: walks the readers of seed, appending each reader's documents
   * to a flat list, then counts the list with value_counts.
   */
  method AlsoLikes(events: seq<Event>, seed: string) returns (ranked: seq<Entry>)
    ensures ranked == CoOccurrence(events, seed)
  {
    var readers := ReadersOf(events, seed);
    var liked: seq<string> := [];
    var i := 0;
    while i < |readers|
      invariant 0 <= i <= |readers|
      invariant liked == Liked(events, readers[..i])
    {
      LikedStep(events, readers, i);
      liked := liked + DocumentsOf(events, readers[i]);
      i := i + 1;
    }
    assert readers[..i] == readers;
    ranked := ValueCounts(liked);
  }

  lemma LikedStep(events: seq<Event>, readers: seq<string>, i: nat)
    requires i < |readers|
    ensures Liked(events, readers[..i + 1]) == Liked(events, readers[..i]) + DocumentsOf(events, readers[i])
  {
    assert readers[..i + 1][..i] == readers[..i];
  }

  /** The seed's own count is the number of its distinct readers. */
  lemma SeedCountsItsReaders(events: seq<Event>, seed: string)
    requires ReaderSet(events, seed) != {}
    ensures Entry(seed, |ReaderSet(events, seed)|) in CoOccurrence(events, seed)
  {
    var r := CoOccurrence(events, seed);
    var readers := ReaderSet(events, seed);
    CoOccurrenceKeys(events, seed);
    CoOccurrenceCounts(events, seed);
    assert readers * readers == readers;
    assert seed in Keys(r);
    var k :| 0 <= k < |r| && Keys(r)[k] == seed;
    assert r[k].key == seed;
    assert r[k].count == |readers * readers|;
    assert r[k] == Entry(seed, |readers|);
  }

  /** No document is co-read by more visitors than the seed has readers. */
  lemma SeedCountIsMaximal(events: seq<Event>, seed: string)
    ensures forall e :: e in CoOccurrence(events, seed) ==> e.count <= |ReaderSet(events, seed)|
  {
    CoOccurrenceCounts(events, seed);
    forall e | e in CoOccurrence(events, seed) ensures e.count <= |ReaderSet(events, seed)| {
      SharedReadersBound(events, seed, e.key);
    }
  }

  lemma SharedReadersBound(events: seq<Event>, seed: string, doc: string)
    ensures |ReaderSet(events, seed) * ReaderSet(events, doc)| <= |ReaderSet(events, seed)|
  {
    IntersectionCard(ReaderSet(events, seed), ReaderSet(events, doc));
  }

  /** A seed with no events, an unknown id included, gives an empty result, and only such a seed does. */
  lemma EmptyIffNoReaders(events: seq<Event>, seed: string)
    ensures CoOccurrence(events, seed) == [] <==> ReaderSet(events, seed) == {}
  {
    var r := CoOccurrence(events, seed);
    if ReaderSet(events, seed) != {} {
      SeedCountsItsReaders(events, seed);
    }
    if r != [] {
      CoOccurrenceKeys(events, seed);
      assert Keys(r)[0] in Keys(r);
    }
  }

  // ---------------------------------------------------------------------
  // Top 10
  // ---------------------------------------------------------------------

  /** get_top_10_also_likes: the first ten entries of also_likes, or all of them when there are fewer. */
  method GetTop10AlsoLikes(events: seq<Event>, seed: string) returns (top: seq<Entry>)
    ensures |top| == Min(TopCount, |CoOccurrence(events, seed)|)
    ensures forall i :: 0 <= i < |top| ==> top[i] == CoOccurrence(events, seed)[i]
    ensures forall i, j :: 0 <= i < |top| <= j < |CoOccurrence(events, seed)| ==>
      top[i].count >= CoOccurrence(events, seed)[j].count
    ensures UniqueKeys(top) && NonIncreasing(top)
  {
    var ranked := AlsoLikes(events, seed);
    top := Head(ranked, TopCount);
  }

  // ---------------------------------------------------------------------
  // Graph builder
  // ---------------------------------------------------------------------

  /** A document node; isSeed stands for the colour that marks the seed document. */
  datatype DocNode = DocNode(id: string, isSeed: bool)

  /** A visitor node; isQueried stands for the colour that marks the queried visitor. */
  datatype VisitorNode = VisitorNode(id: string, isQueried: bool)

  /** A "Likes" edge from a visitor to a document; isQueried stands for its colour. */
  datatype Edge = Edge(visitor: string, doc: string, isQueried: bool)

  /**
   * The directed graph: document nodes in the order they were added, visitor
   * nodes as a set (repeated node statements for one visitor are one node),
   * and edges in the order they were added.
   */
  datatype Graph = Graph(docNodes: seq<DocNode>, visitorNodes: set<VisitorNode>, edges: seq<Edge>)

  /** The edges the inner loop adds for doc while it scans users: one per user who read the seed. */
  function ReaderEdges(seedReaders: seq<string>, visitor: string, doc: string, users: seq<string>): seq<Edge>
  {
    if users == [] then []
    else
      var u := users[|users| - 1];
      ReaderEdges(seedReaders, visitor, doc, users[..|users| - 1])
      + (if u in seedReaders then [Edge(u, doc, u == visitor)] else [])
  }

  /** The edges the graph holds once the outer loop has handled docs. */
  function GraphEdges(events: seq<Event>, seed: string, visitor: string, docs: seq<string>): seq<Edge>
  {
    if docs == [] then []
    else
      var d := docs[|docs| - 1];
      GraphEdges(events, seed, visitor, docs[..|docs| - 1])
      + ReaderEdges(ReadersOf(events, seed), visitor, d, ReadersOf(events, d))
  }

  /** The inner loop links exactly the scanned users who read the seed, each once. */
  lemma {:induction false} ReaderEdgesMembers(seedReaders: seq<string>, visitor: string, doc: string, users: seq<string>)
    ensures forall e :: e in ReaderEdges(seedReaders, visitor, doc, users) <==>
      e.doc == doc && e.visitor in users && e.visitor in seedReaders && e.isQueried == (e.visitor == visitor)
    ensures NoDups(users) ==> NoDups(ReaderEdges(seedReaders, visitor, doc, users))
  {
    if users != [] {
      var n := |users| - 1;
      assert users == users[..n] + [users[n]];
      ReaderEdgesMembers(seedReaders, visitor, doc, users[..n]);
    }
  }

  /**
   * An edge is in the graph iff its document is listed, its visitor read both
   * the seed and that document, and it is marked iff its visitor is the
   * queried one; with distinct documents no edge occurs twice.
   */
  lemma {:induction false} GraphEdgesMembers(events: seq<Event>, seed: string, visitor: string, docs: seq<string>)
    ensures forall e :: e in GraphEdges(events, seed, visitor, docs) <==>
      && e.doc in docs
      && e.visitor in ReaderSet(events, seed)
      && e.visitor in ReaderSet(events, e.doc)
      && e.isQueried == (e.visitor == visitor)
    ensures NoDups(docs) ==> NoDups(GraphEdges(events, seed, visitor, docs))
  {
    if docs != [] {
      var n := |docs| - 1;
      var d := docs[n];
      assert docs == docs[..n] + [d];
      GraphEdgesMembers(events, seed, visitor, docs[..n]);
      ReaderEdgesMembers(ReadersOf(events, seed), visitor, d, ReadersOf(events, d));
      if NoDups(docs) {
        NoDupsConcat(GraphEdges(events, seed, visitor, docs[..n]),
                     ReaderEdges(ReadersOf(events, seed), visitor, d, ReadersOf(events, d)));
      }
    }
  }

  lemma ReaderEdgesStep(seedReaders: seq<string>, visitor: string, doc: string, users: seq<string>, j: nat)
    requires j < |users|
    ensures ReaderEdges(seedReaders, visitor, doc, users[..j + 1]) ==
      ReaderEdges(seedReaders, visitor, doc, users[..j])
      + (if users[j] in seedReaders then [Edge(users[j], doc, users[j] == visitor)] else [])
  {
    assert users[..j + 1][..j] == users[..j];
  }

  lemma GraphEdgesStep(events: seq<Event>, seed: string, visitor: string, docs: seq<string>, i: nat)
    requires i < |docs|
    ensures GraphEdges(events, seed, visitor, docs[..i + 1]) ==
      GraphEdges(events, seed, visitor, docs[..i])
      + ReaderEdges(ReadersOf(events, seed), visitor, docs[i], ReadersOf(events, docs[i]))
  {
    assert docs[..i + 1][..i] == docs[..i];
  }

  /** The document nodes the outer loop adds for docs, one per document. */
  function DocNodes(docs: seq<string>, seed: string): seq<DocNode>
  {
    if docs == [] then []
    else
      var d := docs[|docs| - 1];
      DocNodes(docs[..|docs| - 1], seed) + [DocNode(d, d == seed)]
  }

  /** One node per listed document, in list order, marked iff it is the seed. */
  lemma {:induction false} DocNodesAt(docs: seq<string>, seed: string)
    ensures |DocNodes(docs, seed)| == |docs|
    ensures forall k :: 0 <= k < |docs| ==> DocNodes(docs, seed)[k] == DocNode(docs[k], docs[k] == seed)
  {
    if docs != [] {
      var n := |docs| - 1;
      assert docs == docs[..n] + [docs[n]];
      DocNodesAt(docs[..n], seed);
    }
  }

  /** The visitor nodes added together with the given edges. */
  function VisitorNodesOf(edges: seq<Edge>): set<VisitorNode>
  {
    set e | e in edges :: VisitorNode(e.visitor, e.isQueried)
  }

  /** The graph create_also_likes_graph builds for the listed entries top. */
  function AlsoLikesGraph(events: seq<Event>, seed: string, visitor: string, top: seq<Entry>): Graph
  {
    var edges := GraphEdges(events, seed, visitor, Keys(top));
    Graph(DocNodes(Keys(top), seed), VisitorNodesOf(edges), edges)
  }

  /**
   * What the graph holds: one document node per listed entry, in list order,
   * marked iff it is the seed; an edge from v to d iff d is listed and v read
   * both the seed and d, marked iff v is the queried visitor; a visitor node
   * for exactly the visitors with an edge; and, for distinct listed documents,
   * no edge twice. Readers of a listed document who never read the seed get
   * neither node nor edge, and a queried visitor outside the graph leaves
   * every node unmarked.
   */
  lemma AlsoLikesGraphShape(events: seq<Event>, seed: string, visitor: string, top: seq<Entry>)
    ensures var g := AlsoLikesGraph(events, seed, visitor, top);
      && |g.docNodes| == |top|
      && (forall i :: 0 <= i < |top| ==> g.docNodes[i] == DocNode(top[i].key, top[i].key == seed))
      && (forall e :: e in g.edges <==>
            && e.doc in Keys(top)
            && e.visitor in ReaderSet(events, seed)
            && e.visitor in ReaderSet(events, e.doc)
            && e.isQueried == (e.visitor == visitor))
      && (forall n :: n in g.visitorNodes <==>
            && n.id in ReaderSet(events, seed)
            && (exists d :: d in Keys(top) && n.id in ReaderSet(events, d))
            && n.isQueried == (n.id == visitor))
      && (UniqueKeys(top) ==> NoDups(g.edges))
  {
    var docs := Keys(top);
    var g := AlsoLikesGraph(events, seed, visitor, top);
    DocNodesAt(docs, seed);
    GraphEdgesMembers(events, seed, visitor, docs);
    forall n: VisitorNode | n.id in ReaderSet(events, seed) && (exists d :: d in docs && n.id in ReaderSet(events, d))
        && n.isQueried == (n.id == visitor)
      ensures n in g.visitorNodes
    {
      var d :| d in docs && n.id in ReaderSet(events, d);
      assert Edge(n.id, d, n.isQueried) in g.edges;
    }
    assert UniqueKeys(top) ==> NoDups(docs);
  }

  /**
   * The inner loop of create_also_likes_graph for the listed document doc:
   * for each reader in users who also read the seed, a visitor node and an
   * edge from the reader to doc.
   */
  method LinkReaders(seedReaders: seq<string>, visitor: string, doc: string, users: seq<string>,
                     nodes: set<VisitorNode>, edges: seq<Edge>)
    returns (nodes': set<VisitorNode>, edges': seq<Edge>)
    requires nodes == VisitorNodesOf(edges)
    ensures edges' == edges + ReaderEdges(seedReaders, visitor, doc, users)
    ensures nodes' == VisitorNodesOf(edges')
  {
    nodes', edges' := nodes, edges;
    var j := 0;
    assert users[..0] == [];
    while j < |users|
      invariant 0 <= j <= |users|
      invariant edges' == edges + ReaderEdges(seedReaders, visitor, doc, users[..j])
      invariant nodes' == VisitorNodesOf(edges')
    {
      var u := users[j];
      ReaderEdgesStep(seedReaders, visitor, doc, users, j);
      if u in seedReaders {
        var e := Edge(u, doc, u == visitor);
        assert VisitorNodesOf(edges' + [e]) == VisitorNodesOf(edges') + {VisitorNode(u, u == visitor)};
        nodes' := nodes' + {VisitorNode(u, u == visitor)};
        edges' := edges' + [e];
      }
      j := j + 1;
    }
    assert users[..j] == users;
  }

  /**
   * create_also_likes_graph: for each listed document in turn, a document
   * node, then the readers of that document who also read the seed, linked
   * to it by LinkReaders.
   */
  method CreateAlsoLikesGraph(events: seq<Event>, seed: string, visitor: string, top: seq<Entry>)
    returns (g: Graph)
    ensures g == AlsoLikesGraph(events, seed, visitor, top)
  {
    var readers := ReadersOf(events, seed);
    var docs := Keys(top);
    var docNodes: seq<DocNode> := [];
    var visitorNodes: set<VisitorNode> := {};
    var edges: seq<Edge> := [];
    var i := 0;
    while i < |docs|
      invariant 0 <= i <= |docs|
      invariant docNodes == DocNodes(docs[..i], seed)
      invariant edges == GraphEdges(events, seed, visitor, docs[..i])
      invariant visitorNodes == VisitorNodesOf(edges)
    {
      var d := docs[i];
      assert docs[..i + 1][..i] == docs[..i];
      docNodes := docNodes + [DocNode(d, d == seed)];
      var users := ReadersOf(events, d);
      GraphEdgesStep(events, seed, visitor, docs, i);
      visitorNodes, edges := LinkReaders(readers, visitor, d, users, visitorNodes, edges);
      i := i + 1;
    }
    assert docs[..i] == docs;
    g := Graph(docNodes, visitorNodes, edges);
  }
}
