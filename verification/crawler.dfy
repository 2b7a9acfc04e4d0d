/**
 * The driver loop that feeds documents to the graph builder (main.py:117-122):
 * listed documents are visited in order, and each one whose name ends in
 * ".html" is ingested and its page seeded with score 0.01, until `max_files`
 * documents have been taken.
 */
module Crawler {
  import opened Pages
  import opened GraphBuilder
  import opened LinkInvariant
  import opened LinkStats

  /** The initial PageRank score of every ingested page. */
  const Seed: real := 0.01

  /** What the loop leaves behind: the graph state, the seed scores and the unused budget. */
  datatype Run = Run(state: State, seeds: map<PageId, real>, budget: int)

  /** The loop over the listing, with `budget` playing `max_files`. */
  function Crawl(docs: seq<Doc>, budget: int, st: State, seeds: map<PageId, real>): Run
    decreases |docs|
  {
    if docs == [] then Run(st, seeds, budget)
    else
      var d := docs[0];
      if EndsWithExt(d.name) && budget > 0 then
        Crawl(docs[1..], budget - 1, Ingest(st, d.name, d.hrefs), seeds[StripExt(d.name) := Seed])
      else
        Crawl(docs[1..], budget, st, seeds)
  }

  /** Reference filter: the listed documents whose name ends in ".html", in order. */
  function HtmlDocs(docs: seq<Doc>): seq<Doc> {
    if docs == [] then []
    else (if EndsWithExt(docs[0].name) then [docs[0]] else []) + HtmlDocs(docs[1..])
  }

  /** Reference selection: the first `budget` documents of `HtmlDocs`, none when `budget <= 0`. */
  function Selected(docs: seq<Doc>, budget: int): seq<Doc> {
    var html := HtmlDocs(docs);
    if budget <= 0 then [] else if budget >= |html| then html else html[..budget]
  }

  /** Every selected document was listed and has a ".html" name. */
  lemma {:induction false} HtmlDocsMember(docs: seq<Doc>, d: Doc)
    ensures d in HtmlDocs(docs) <==> d in docs && EndsWithExt(d.name)
  {
    if docs != [] {
      HtmlDocsMember(docs[1..], d);
      assert docs == [docs[0]] + docs[1..];
    }
  }

  /** Selecting from a listing that starts with an eligible document takes it first. */
  lemma SelectedCons(docs: seq<Doc>, budget: int)
    requires docs != [] && EndsWithExt(docs[0].name) && budget > 0
    ensures Selected(docs, budget) == [docs[0]] + Selected(docs[1..], budget - 1)
  {
    var html, tail := HtmlDocs(docs), HtmlDocs(docs[1..]);
    assert html == [docs[0]] + tail;
    if budget - 1 < |tail| {
      assert html[..budget] == [docs[0]] + tail[..budget - 1];
    }
  }

  lemma IngestAllCons(st: State, d: Doc, tail: seq<Doc>)
    ensures IngestAll(st, [d] + tail) == IngestAll(Ingest(st, d.name, d.hrefs), tail)
  {
    assert ([d] + tail)[1..] == tail;
  }

  /** One step of the loop, and of the reference selection, on an eligible first document. */
  lemma CrawlTake(docs: seq<Doc>, budget: int, st: State, seeds: map<PageId, real>)
    requires docs != [] && EndsWithExt(docs[0].name) && budget > 0
    ensures Crawl(docs, budget, st, seeds)
      == Crawl(docs[1..], budget - 1, Ingest(st, docs[0].name, docs[0].hrefs), seeds[StripExt(docs[0].name) := Seed])
    ensures Selected(docs, budget) == [docs[0]] + Selected(docs[1..], budget - 1)
  {
    SelectedCons(docs, budget);
  }

  /** One step of the loop, and of the reference selection, on a skipped first document. */
  lemma CrawlSkip(docs: seq<Doc>, budget: int, st: State, seeds: map<PageId, real>)
    requires docs != [] && !(EndsWithExt(docs[0].name) && budget > 0)
    ensures Crawl(docs, budget, st, seeds) == Crawl(docs[1..], budget, st, seeds)
    ensures Selected(docs, budget) == Selected(docs[1..], budget)
  {
    if budget > 0 {
      assert HtmlDocs(docs) == HtmlDocs(docs[1..]);
    }
  }

  /**
   * The loop ingests exactly the selected documents, in order, and spends
   * one unit of budget per ingested document.
   */
  lemma {:induction false} CrawlIngestsSelected(docs: seq<Doc>, budget: int, st: State, seeds: map<PageId, real>)
    ensures Crawl(docs, budget, st, seeds).state == IngestAll(st, Selected(docs, budget))
    ensures Crawl(docs, budget, st, seeds).budget == budget - |Selected(docs, budget)|
    decreases |docs|
  {
    if docs != [] {
      var d, rest := docs[0], docs[1..];
      if EndsWithExt(d.name) && budget > 0 {
        var next, seeds' := Ingest(st, d.name, d.hrefs), seeds[StripExt(d.name) := Seed];
        CrawlTake(docs, budget, st, seeds);
        CrawlIngestsSelected(rest, budget - 1, next, seeds');
        IngestAllCons(st, d, Selected(rest, budget - 1));
      } else {
        CrawlSkip(docs, budget, st, seeds);
        CrawlIngestsSelected(rest, budget, st, seeds);
      }
    }
  }

  /** The seed of one page after the loop. */
  lemma {:induction false} CrawlSeedAt(docs: seq<Doc>, budget: int, st: State, seeds: map<PageId, real>, p: PageId)
    ensures p in Crawl(docs, budget, st, seeds).seeds <==> p in seeds || p in PagesOf(Selected(docs, budget))
    ensures p in Crawl(docs, budget, st, seeds).seeds ==>
      Crawl(docs, budget, st, seeds).seeds[p] == if p in PagesOf(Selected(docs, budget)) then Seed else seeds[p]
    decreases |docs|
  {
    if docs != [] {
      var d, rest := docs[0], docs[1..];
      if EndsWithExt(d.name) && budget > 0 {
        var next, seeds' := Ingest(st, d.name, d.hrefs), seeds[StripExt(d.name) := Seed];
        CrawlTake(docs, budget, st, seeds);
        CrawlSeedAt(rest, budget - 1, next, seeds', p);
        var sel, tail := Selected(docs, budget), Selected(rest, budget - 1);
        assert p in PagesOf(sel) <==> p == StripExt(d.name) || p in PagesOf(tail) by {
          assert sel[0] == d && sel[1..] == tail;
        }
      } else {
        CrawlSkip(docs, budget, st, seeds);
        CrawlSeedAt(rest, budget, st, seeds, p);
      }
    }
  }

  /**
   * The loop seeds exactly the pages of the selected documents with 0.01 and
   * leaves every other seed alone.
   */
  lemma CrawlSeedsSelected(docs: seq<Doc>, budget: int, st: State, seeds: map<PageId, real>)
    ensures Crawl(docs, budget, st, seeds).seeds.Keys == seeds.Keys + PagesOf(Selected(docs, budget))
    ensures forall p :: p in Crawl(docs, budget, st, seeds).seeds ==>
      Crawl(docs, budget, st, seeds).seeds[p] == if p in PagesOf(Selected(docs, budget)) then Seed else seeds[p]
  {
    forall p
      ensures p in Crawl(docs, budget, st, seeds).seeds <==> p in seeds || p in PagesOf(Selected(docs, budget))
      ensures p in Crawl(docs, budget, st, seeds).seeds ==>
        Crawl(docs, budget, st, seeds).seeds[p] == if p in PagesOf(Selected(docs, budget)) then Seed else seeds[p]
    {
      CrawlSeedAt(docs, budget, st, seeds, p);
    }
  }

  /** At most `max_files` documents are taken, and only ".html" ones. */
  lemma SelectedBounds(docs: seq<Doc>, budget: int)
    ensures |Selected(docs, budget)| <= if budget <= 0 then 0 else budget
    ensures |Selected(docs, budget)| == if budget <= 0 then 0 else Min(budget, |HtmlDocs(docs)|)
    ensures forall d :: d in Selected(docs, budget) ==> d in docs && EndsWithExt(d.name)
  {
    forall d | d in Selected(docs, budget) ensures d in docs && EndsWithExt(d.name) {
      HtmlDocsMember(docs, d);
    }
  }

  function Min(a: int, b: int): int {
    if a <= b then a else b
  }

  /** Distinct listed names stay distinct among the ".html" documents. */
  lemma {:induction false} HtmlDocsDistinct(docs: seq<Doc>)
    requires DistinctNames(docs)
    ensures DistinctNames(HtmlDocs(docs))
  {
    if docs != [] {
      var d, rest := docs[0], docs[1..];
      assert DistinctNames(rest) by {
        forall i, j | 0 <= i < j < |rest| ensures rest[i].name != rest[j].name {
          assert rest[i] == docs[i + 1] && rest[j] == docs[j + 1];
        }
      }
      HtmlDocsDistinct(rest);
      var tail := HtmlDocs(rest);
      if EndsWithExt(d.name) {
        var html := [d] + tail;
        forall i, j | 0 <= i < j < |html| ensures html[i].name != html[j].name {
          if i == 0 {
            assert html[j] == tail[j - 1];
            HtmlDocsMember(rest, tail[j - 1]);
            var k :| 0 <= k < |rest| && rest[k] == tail[j - 1];
            assert rest[k] == docs[k + 1];
          } else {
            assert html[i] == tail[i - 1] && html[j] == tail[j - 1];
          }
        }
      }
    }
  }

  /** Among ".html" documents, distinct names are distinct pages. */
  lemma SelectedDistinctPages(docs: seq<Doc>, budget: int)
    requires DistinctNames(docs)
    ensures DistinctNames(Selected(docs, budget))
    ensures DistinctPages(Selected(docs, budget))
  {
    HtmlDocsDistinct(docs);
    var sel := Selected(docs, budget);
    SelectedBounds(docs, budget);
    forall i, j | 0 <= i < j < |sel| ensures StripExt(sel[i].name) != StripExt(sel[j].name) {
      assert sel[i] in sel && sel[j] in sel;
      StripInjective(sel[i].name, sel[j].name);
    }
  }

  /** Every ingested page ends up a node of the graph. */
  lemma {:induction false} IngestAllPagesAreNodes(st: State, docs: seq<Doc>)
    ensures st.graph.Keys + PagesOf(docs) <= IngestAll(st, docs).graph.Keys
    decreases |docs|
  {
    if docs != [] {
      var d := docs[0];
      var next := Ingest(st, d.name, d.hrefs);
      forall q | q in st.graph || q == StripExt(d.name) ensures q in next.graph {
        IngestGraphAt(st, d.name, d.hrefs, q);
      }
      IngestAllPagesAreNodes(next, docs[1..]);
    }
  }

  /**
   * The whole run from empty maps over a listing with distinct names: the
   * graph is well formed, so every PageRank division is by a non-empty
   * out-link list; every page with out-links was seeded and every seeded page
   * is a node; and the two count maps sum to the same total.
   */
  lemma CrawlFromEmpty(docs: seq<Doc>, budget: int)
    requires DistinctNames(docs)
    ensures var r := Crawl(docs, budget, Empty, map[]);
      && WellFormed(r.state.graph)
      && DivisorsSafe(r.state.graph)
      && SourcesOnly(r.state.graph, r.seeds.Keys)
      && r.seeds.Keys <= r.state.graph.Keys
      && Total(r.state.incomingCounts) == Total(r.state.outgoingCounts)
  {
    var sel := Selected(docs, budget);
    CrawlIngestsSelected(docs, budget, Empty, map[]);
    CrawlSeedsSelected(docs, budget, Empty, map[]);
    SelectedDistinctPages(docs, budget);
    IngestAllKeepsWellFormed(Empty, sel, {});
    WellFormedDivisorsSafe(IngestAll(Empty, sel).graph);
    IngestAllPagesAreNodes(Empty, sel);
    AveragesShareTotal(sel);
  }
}
