/**
 * The cross-document invariant of the link graph, and why it makes the
 * PageRank division by `len(graph[incoming_page]['outgoing'])` (main.py:90)
 * safe: every page listed as an in-link is a node whose out-link list holds
 * the page it is listed under, so that list is never empty.
 */
module LinkInvariant {
  import opened Pages
  import opened GraphBuilder

  /** Every page named in an in-link or out-link list is itself a node. */
  predicate Closed(g: map<PageId, Node>) {
    && (forall p, q :: p in g && q in g[p].incoming ==> q in g)
    && (forall p, q :: p in g && q in g[p].outgoing ==> q in g)
  }

  /** `q` appears in `p`'s in-links exactly as often as `p` in `q`'s out-links. */
  predicate Balanced(g: map<PageId, Node>) {
    forall p, q :: p in g && q in g ==> multiset(g[p].incoming)[q] == multiset(g[q].outgoing)[p]
  }

  predicate WellFormed(g: map<PageId, Node>) {
    Closed(g) && Balanced(g)
  }

  /** What main.py:88-90 needs: each in-link is a node with a non-empty out-link list. */
  predicate DivisorsSafe(g: map<PageId, Node>) {
    forall p, q :: p in g && q in g[p].incoming ==> q in g && |g[q].outgoing| > 0
  }

  /** Only pages in `sources` have ever been given out-links. */
  predicate SourcesOnly(g: map<PageId, Node>, sources: set<PageId>) {
    forall p :: p in g && g[p].outgoing != [] ==> p in sources
  }

  /** A well-formed graph never divides by zero when ranking. */
  lemma WellFormedDivisorsSafe(g: map<PageId, Node>)
    requires WellFormed(g)
    ensures DivisorsSafe(g)
  {
    forall p, q | p in g && q in g[p].incoming
      ensures q in g && |g[q].outgoing| > 0
    {
      assert multiset(g[p].incoming)[q] > 0;
      assert multiset(g[q].outgoing)[p] > 0;
    }
  }

  /** The graph is closed after one more document. */
  lemma IngestKeepsClosed(st: State, name: Href, hrefs: seq<Href>)
    requires Closed(st.graph)
    ensures Closed(Ingest(st, name, hrefs).graph)
  {
    var g, r, page := st.graph, Ingest(st, name, hrefs).graph, StripExt(name);
    var out := OutgoingLinks(hrefs);
    IngestGraph(st, name, hrefs);
    forall p, q | p in r && q in r[p].incoming ensures q in r {
      if q !in In(g, p) {
        assert q in Repeat(page, multiset(out)[p]);
      }
    }
    forall p, q | p in r && q in r[p].outgoing ensures q in r {
      if p == page {
        OutgoingLinksMember(hrefs, q);
      }
    }
  }

  /** The balance of one pair of nodes after one more document. */
  lemma IngestKeepsBalancedAt(st: State, name: Href, hrefs: seq<Href>, p: PageId, q: PageId)
    requires WellFormed(st.graph)
    requires Out(st.graph, StripExt(name)) == []
    requires p in Ingest(st, name, hrefs).graph && q in Ingest(st, name, hrefs).graph
    ensures var r := Ingest(st, name, hrefs).graph;
      multiset(r[p].incoming)[q] == multiset(r[q].outgoing)[p]
  {
    var g, r, page := st.graph, Ingest(st, name, hrefs).graph, StripExt(name);
    var out := OutgoingLinks(hrefs);
    IngestGraph(st, name, hrefs);
    RepeatCount(page, multiset(out)[p], q);
    assert multiset(r[p].incoming)[q]
      == multiset(In(g, p))[q] + (if q == page then multiset(out)[p] else 0);
    // what the old graph says about the pair
    if p in g && q in g {
      assert multiset(In(g, p))[q] == multiset(Out(g, q))[p];
    } else if p in g {
      assert q !in In(g, p);
    } else if q in g {
      assert p !in Out(g, q);
    }
  }

  /**
   * Ingesting a document whose page has no out-links yet keeps the graph
   * well formed.
   */
  lemma IngestKeepsWellFormed(st: State, name: Href, hrefs: seq<Href>)
    requires WellFormed(st.graph)
    requires Out(st.graph, StripExt(name)) == []
    ensures WellFormed(Ingest(st, name, hrefs).graph)
  {
    var r := Ingest(st, name, hrefs).graph;
    IngestKeepsClosed(st, name, hrefs);
    forall p, q | p in r && q in r
      ensures multiset(r[p].incoming)[q] == multiset(r[q].outgoing)[p]
    {
      IngestKeepsBalancedAt(st, name, hrefs, p, q);
    }
  }

  /** Only the ingested page can gain out-links. */
  lemma IngestSourcesOnly(st: State, name: Href, hrefs: seq<Href>, sources: set<PageId>)
    requires SourcesOnly(st.graph, sources)
    ensures SourcesOnly(Ingest(st, name, hrefs).graph, sources + {StripExt(name)})
  {
    IngestGraph(st, name, hrefs);
  }

  /** The pages of the documents in a sequence. */
  function PagesOf(docs: seq<Doc>): set<PageId> {
    if docs == [] then {} else {StripExt(docs[0].name)} + PagesOf(docs[1..])
  }

  /** No two documents of the sequence name the same page. */
  predicate DistinctPages(docs: seq<Doc>) {
    forall i, j :: 0 <= i < j < |docs| ==> StripExt(docs[i].name) != StripExt(docs[j].name)
  }

  /**
   * Ingesting documents whose pages are all different, and none of which
   * had out-links before, keeps the graph well formed.
   */
  lemma {:induction false} IngestAllKeepsWellFormed(st: State, docs: seq<Doc>, sources: set<PageId>)
    requires WellFormed(st.graph)
    requires SourcesOnly(st.graph, sources)
    requires DistinctPages(docs)
    requires forall i :: 0 <= i < |docs| ==> StripExt(docs[i].name) !in sources
    ensures WellFormed(IngestAll(st, docs).graph)
    ensures SourcesOnly(IngestAll(st, docs).graph, sources + PagesOf(docs))
    decreases |docs|
  {
    if docs != [] {
      var d, rest := docs[0], docs[1..];
      var page := StripExt(d.name);
      var next := Ingest(st, d.name, d.hrefs);
      assert WellFormed(next.graph) && SourcesOnly(next.graph, sources + {page}) by {
        assert Out(st.graph, page) == [];
        IngestKeepsWellFormed(st, d.name, d.hrefs);
        IngestSourcesOnly(st, d.name, d.hrefs, sources);
      }
      assert DistinctPages(rest) && forall i :: 0 <= i < |rest| ==> StripExt(rest[i].name) !in sources + {page} by {
        forall i | 0 <= i < |rest| ensures StripExt(rest[i].name) !in sources + {page} {
          assert rest[i] == docs[i + 1];
        }
        forall i, j | 0 <= i < j < |rest| ensures StripExt(rest[i].name) != StripExt(rest[j].name) {
          assert rest[i] == docs[i + 1] && rest[j] == docs[j + 1];
        }
      }
      IngestAllKeepsWellFormed(next, rest, sources + {page});
      assert IngestAll(st, docs) == IngestAll(next, rest);
    }
  }

  /**
   * From the empty state, a sequence of documents with distinct pages
   * builds a graph whose in-links can always be divided over.
   */
  lemma IngestAllFromEmptySafe(docs: seq<Doc>)
    requires DistinctPages(docs)
    ensures WellFormed(IngestAll(Empty, docs).graph)
    ensures DivisorsSafe(IngestAll(Empty, docs).graph)
  {
    IngestAllKeepsWellFormed(Empty, docs, {});
    WellFormedDivisorsSafe(IngestAll(Empty, docs).graph);
  }

  /**
   * Why the premise matters: ingesting the same page twice can break the
   * balance, since the in-links of the first round are never withdrawn.
   */
  lemma ReingestBreaksBalance()
    ensures var st := Ingest(Ingest(Empty, "a.html", ["b.html"]), "a.html", []);
      && "b" in st.graph && "a" in st.graph
      && st.graph["b"].incoming == ["a"]
      && st.graph["a"].outgoing == []
      && !DivisorsSafe(st.graph)
  {
    var s1 := Ingest(Empty, "a.html", ["b.html"]);
    var s2 := Ingest(s1, "a.html", []);
    assert StripExt("a.html") == "a";
    assert Qualifies("b.html") && StripExt("b.html") == "b";
    assert OutgoingLinks(["b.html"]) == ["b"];
    assert OutgoingLinks([]) == [];
    IngestGraph(Empty, "a.html", ["b.html"]);
    IngestGraph(s1, "a.html", []);
    assert "b" in s1.graph && s1.graph["b"].incoming == ["a"];
    assert "a" in s2.graph["b"].incoming;
  }
}
