# Link graph of a bucket crawler, in Dafny

The crawler in `main.py` lists the blobs of a bucket, takes at most `max_files`
of the `.html` ones, and extracts the `href` of every anchor from each of them.
It keeps three global tables:

- `incoming_links_counts`, keyed by raw href with the `.html` extension;
- `outgoing_links_counts`, keyed by blob name;
- `graph`, keyed by page name, the blob name or href with its last five
  characters cut off. Each node holds an ordered `outgoing` list and an ordered
  `incoming` list, and both keep duplicates.

It then runs PageRank over `graph` and prints summary statistics. The average
of a count table comes from `compute_average_links`.

This project models the bookkeeping core as pure functions over an explicit
state, and proves what one document does to the state and what a whole crawl
guarantees.

- `Pages` (`pages.dfy`) defines hrefs, page ids, and the `.html` test. It also
  defines `StripExt`, Python's `s[:-5]`, which yields `""` on a string shorter
  than five characters.
- `GraphBuilder` (`graph_builder.dfy`) holds `State`, three maps threaded
  explicitly in place of the globals. `Ingest(st, name, hrefs)` is `parse_file`
  once the anchors are known: `hrefs` is the list of `href` values, in document
  order. `IngestAll` folds `Ingest` over a sequence of documents.
- `LinkInvariant` (`link_invariant.dfy`) defines the graph invariant
  `WellFormed`. For all pages p and q, p's in-links hold q exactly as often as
  q's out-links hold p, and every listed page is a node. The module shows that
  the invariant survives every document whose page has no out-links yet. It
  also shows that the invariant makes the PageRank divisor
  `len(graph[incoming_page]['outgoing'])` non-zero.
- `LinkStats` (`link_stats.dfy`) holds `ComputeAverageLinks` and the totals it
  averages.
- `Crawler` (`crawler.dfy`) is the driver loop, compared against a reference
  selection: the first `max_files` documents whose name ends in `.html`.
- `Rank` (`rank.dfy`) is one un-normalised PageRank score over exact reals.
  It shows where the invariant is consumed.

Behaviour that is modelled as the code has it:

- The anchor filter is `if href:` followed by `href.endswith(".html")`. The
  first test is kept even though the second implies it.
- An href shorter than five characters cannot pass the filter. A blob name is
  stripped whatever its length, exactly as `[:-5]` does.
- In-links are an ordered list with repetitions, not a set. A page that links
  to a target twice appears twice in the target's in-links. A self-link puts
  the page into its own in-links.
- A repeated `parse_file` of the same name replaces the page's out-links and
  keeps its in-links (`IngestTwice`). The in-links that the first round added
  to its targets are never withdrawn, so the invariant needs each page to be
  ingested at most once (`ReingestBreaksBalance`). Blob names are unique in a
  listing, so the crawl meets this (`CrawlFromEmpty`).
- `compute_average_links` divides by the number of keys. On an empty table
  this raises `ZeroDivisionError` in the source. Here it returns
  `Err(DivisionByZero)`: the method's result is an error exactly when the
  table is empty.

## Model

| member | source | states |
|---|---|---|
| Pages.Qualifies | main.py:42-44 | no ensures of its own: the parser's href test, a non-empty href ending in ".html"; its effect on a document is stated by GraphBuilder.QualifyingCount and GraphBuilder.IngestSkipsHref |
| Pages.StripExt | main.py:48 | no ensures of its own: Python's `[:-5]`, also used at main.py:53 and main.py:121; stated by Pages.StripRoundTrip and Pages.StripInjective |
| Pages.StripRoundTrip | main.py:44-48 | for a string ending in ".html", the page id with ".html" appended again is the original string |
| Pages.StripInjective | main.py:53 | two names ending in ".html" give the same page id exactly when they are equal |
| GraphBuilder.Qualifying | main.py:41-44 | the reference filter keeps only non-empty ".html" hrefs taken from the document; GraphBuilder.QualifyingCount states that it keeps every occurrence of them |
| GraphBuilder.OutgoingLinks | main.py:41-48 | the out-link list has one entry per qualifying href; its contents are stated by GraphBuilder.OutgoingLinksStripped and GraphBuilder.OutgoingLinksMember |
| GraphBuilder.BumpCounts | main.py:46 | no ensures of its own: the incoming-count updates of the anchor loop; stated by GraphBuilder.BumpCountsAt |
| GraphBuilder.SetSource | main.py:53-57 | no ensures of its own: the source node update; stated by GraphBuilder.SetSourceAt |
| GraphBuilder.LinkTargets | main.py:60-64 | no ensures of its own: the in-link updates of the targets; stated by GraphBuilder.LinkTargetsAt |
| GraphBuilder.AddPage | main.py:53-64 | no ensures of its own: the whole graph update of one document; stated by GraphBuilder.AddPageEffect |
| GraphBuilder.Ingest | main.py:40-64 | no ensures of its own: `parse_file` once the anchors are known; its effects are stated by GraphBuilder.IngestCounts and GraphBuilder.IngestGraph |
| GraphBuilder.IngestAll | main.py:117-122 | no ensures of its own: documents parsed one after the other; stated by LinkInvariant.IngestAllKeepsWellFormed and LinkStats.IngestAllTotals |
| GraphBuilder.QualifyingCount | main.py:41-44 | the href filter keeps every occurrence of a non-empty ".html" href and drops every occurrence of any other href |
| GraphBuilder.OutgoingLinksStripped | main.py:48 | position i of the out-link list is the i-th qualifying href with its last five characters removed, so document order and duplicates are kept |
| GraphBuilder.OutgoingLinksMember | main.py:44-48 | a page id is in the out-link list exactly when it is the stripped form of some qualifying href of the document |
| GraphBuilder.BumpCountsAt | main.py:46 | after the anchor loop, a qualifying href's incoming count has grown by its number of occurrences; every other key keeps its count and presence, and only qualifying hrefs become new keys |
| GraphBuilder.SetSourceAt | main.py:53-57 | the source node is created with the out-links and no in-links, or, if it exists, has only its out-links replaced; other nodes are untouched |
| GraphBuilder.LinkTargetsAt | main.py:60-64 | after the in-link loop, the nodes are the old ones plus the link targets; each node keeps its out-links and has the source appended to its in-links once per link to it |
| GraphBuilder.AddPageEffect | main.py:53-64 | after the graph update, the nodes are the old ones, the source and its targets; only the source's out-links change; each node's in-links gain the source once per link to it |
| GraphBuilder.IngestCounts | main.py:42-51 | one document grows each qualifying href's incoming count by its occurrences and leaves other counts alone; its outgoing count becomes its number of qualifying hrefs (0 when none), and no other outgoing count changes |
| GraphBuilder.IngestGraph | main.py:53-64 | one document adds its page and its link targets as nodes and removes none; it replaces only its own page's out-links, with the stripped qualifying hrefs; each node's in-links are its old in-links followed by the page once per link to it |
| GraphBuilder.IngestGraphAt | main.py:53-64 | the same statement as IngestGraph, for a single page |
| GraphBuilder.IngestIgnoresNonQualifying | main.py:42-44 | ingesting a document gives the same state as ingesting only its qualifying hrefs |
| GraphBuilder.IngestSkipsHref | main.py:42-44 | deleting one empty or non-".html" href from a document changes no count, list or node |
| GraphBuilder.IngestTwice | main.py:51-64 | ingesting one name twice: the second out-link list and count replace the first, and each node's in-links keep the additions of both rounds in order |
| LinkInvariant.WellFormedDivisorsSafe | main.py:88-90 | in a well-formed graph, every page listed as an in-link is a node with a non-empty out-link list, so the PageRank division is by a non-zero length |
| LinkInvariant.IngestKeepsClosed | main.py:53-64 | one document keeps every page named in any in-link or out-link list a node of the graph |
| LinkInvariant.IngestKeepsBalancedAt | main.py:53-64 | for a page with no out-links yet, one document keeps, for every pair of nodes, the count of q in p's in-links equal to the count of p in q's out-links |
| LinkInvariant.IngestKeepsWellFormed | main.py:53-64 | ingesting a document whose page has no out-links yet keeps the graph well formed |
| LinkInvariant.IngestSourcesOnly | main.py:53-64 | a document can give out-links only to its own page |
| LinkInvariant.IngestAllKeepsWellFormed | main.py:117-122 | ingesting documents with pairwise distinct pages, none of which had out-links, keeps the graph well formed, and only those pages gain out-links |
| LinkInvariant.IngestAllFromEmptySafe | main.py:55-64 | from the empty tables, documents with distinct pages build a well-formed graph whose in-links all have non-empty out-link lists |
| LinkInvariant.ReingestBreaksBalance | main.py:54-64 | ingesting "a.html" linking to "b.html", then "a.html" again with no links, leaves "a" among "b"'s in-links while "a" has no out-links, so the division would be by zero |
| LinkStats.ComputeAverageLinks | main.py:69-77 | the result is an error exactly for an empty table; otherwise it is the sum of the counts over the number of keys, whatever the iteration order |
| LinkStats.TotalRemove | main.py:73-75 | the sum of a table's counts does not depend on the order its keys are visited in |
| LinkStats.BumpCountsTotal | main.py:46 | the anchor loop adds exactly one to the sum of incoming counts per qualifying href |
| LinkStats.IngestTotals | main.py:46-51 | a document with a new name adds its number of qualifying hrefs to both the incoming and the outgoing sum |
| LinkStats.IngestAllTotals | main.py:46-51 | documents with distinct new names keep the two sums equal, and the outgoing table's keys become the old keys plus the document names |
| LinkStats.AveragesShareTotal | main.py:69-77 | from the empty tables, documents with distinct names give the incoming and outgoing averages the same numerator |
| Crawler.Crawl | main.py:117-122 | no ensures of its own: the driver loop over the listing; stated by Crawler.CrawlIngestsSelected and Crawler.CrawlSeedsSelected |
| Crawler.CrawlIngestsSelected | main.py:117-122 | the loop parses exactly the first `max_files` ".html" documents, in listing order, and spends one unit of `max_files` per parsed document |
| Crawler.CrawlSeedAt | main.py:117-121 | a page has a seed after the loop exactly when it had one before or is the page of a selected document; selected pages hold 0.01 and others keep their old value |
| Crawler.CrawlSeedsSelected | main.py:117-121 | the seeded pages are exactly the old ones plus the pages of the selected documents, each selected page holding 0.01 |
| Crawler.SelectedBounds | main.py:117-119 | the selection holds min(`max_files`, number of ".html" documents) documents, none when `max_files` <= 0, and only listed ".html" documents |
| Crawler.HtmlDocsMember | main.py:118 | a document passes the loop's name test exactly when it is listed and its name ends in ".html" |
| Crawler.SelectedDistinctPages | main.py:118-121 | distinct blob names among the selected ".html" documents give distinct pages |
| Crawler.IngestAllPagesAreNodes | main.py:53-57 | every parsed page is a node of the final graph |
| Crawler.CrawlFromEmpty | main.py:117-124 | a whole crawl over a listing with distinct names yields a well-formed graph with every PageRank divisor non-zero; every page with out-links was seeded and every seeded page is a node; the incoming and outgoing sums agree |
| Rank.Inflow | main.py:88-90 | with non-negative previous scores, the in-link contributions to a page sum to a non-negative value, and a page without in-links gets none |
| Rank.RawScore | main.py:84-90 | on a graph where every divisor is non-zero, a page scores exactly 0.15 before normalisation when nothing links to it, and, when all previous scores are non-negative, at least 0.15 |
| Rank.RankStep | main.py:84-90 | one iteration scores exactly the nodes of the graph, and, when all previous scores are non-negative, each score is at least 0.15 |

## Left out

- Bucket listing and download (`list_bucket_files`, `download_as_text`, main.py:16-30, 36) are network I/O. A crawl takes a sequence of documents, each a name and its href list.
- HTML parsing with BeautifulSoup (main.py:37-38) is a foreign library. Its output, the `href` of every anchor in order, with `None` for a missing attribute written as `""`, is the input `hrefs`.
- The `except` blocks that print and swallow errors (main.py:28-30, 66-67) are not modelled. A failure part-way through a document would leave partial updates; `Ingest` is all-or-nothing.
- `pagerank_iterative` normalisation and convergence (main.py:92-104) are not modelled. They are floating-point power iteration with no termination bound. Only the un-normalised score of one iteration is modelled, over exact reals.
- Rank.RawScore: computes 0.15 plus the sum of the in-link terms rather than adding term by term onto 0.15, which is the same value over reals but not over Python floats.
- LinkInvariant.IngestKeepsWellFormed: demands that the page has no out-links yet, rather than that its name was never ingested. This is a weaker precondition, not a gap. "Never ingested" implies it only when every ingested name ends in ".html", as in a crawl, because `[:-5]` is injective only on such names (`StripInjective`). A name such as "abcdef" strips to "a", the same page as "a.html".
- LinkStats.ComputeAverageLinks: returns an exact real rather than a Python float.
- Median, percentiles, `max` and `min` of the count tables (main.py:139-164) are NumPy and float routines.
- `print`, `tqdm` and the top-five ranking (main.py:106-164) are presentation only.
- The module-level tables (main.py:11-13) are threaded as an explicit `State`.
