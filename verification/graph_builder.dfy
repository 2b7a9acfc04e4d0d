/**
 * The graph-building step of the crawler (`parse_file`, main.py:40-64).
 *
 * The three module-level dictionaries of the program are threaded through
 * `Ingest` as one immutable `State`; downloading the document and extracting
 * its anchors are replaced by the ordered sequence of href values found in it.
 */
module GraphBuilder {
  import opened Pages

  /** A graph node: ordered out-links and in-links, duplicates kept. */
  datatype Node = Node(outgoing: seq<PageId>, incoming: seq<PageId>)

  /**
   * The crawler's bookkeeping. `incomingCounts` is keyed by raw href and
   * `outgoingCounts` by document name, both with extension; `graph` is keyed
   * by page identifier, extension stripped.
   */
  datatype State = State(
    incomingCounts: map<Href, nat>,
    outgoingCounts: map<Href, nat>,
    graph: map<PageId, Node>)

  /** The state before any document is ingested. */
  const Empty: State := State(map[], map[], map[])

  /** Python's `counts.get(k, 0)`. */
  function Get(counts: map<Href, nat>, k: Href): nat {
    if k in counts then counts[k] else 0
  }

  /** The out-links of `p`, or none when `p` is not a node. */
  function Out(g: map<PageId, Node>, p: PageId): seq<PageId> {
    if p in g then g[p].outgoing else []
  }

  /** The in-links of `p`, or none when `p` is not a node. */
  function In(g: map<PageId, Node>, p: PageId): seq<PageId> {
    if p in g then g[p].incoming else []
  }

  /** `n` copies of `x`. */
  function Repeat(x: PageId, n: nat): (r: seq<PageId>)
    ensures |r| == n
    ensures forall i :: 0 <= i < n ==> r[i] == x
  {
    seq(n, _ => x)
  }

  /** Reference filter: the hrefs that pass the parser's test, in document order. */
  function Qualifying(hrefs: seq<Href>): (r: seq<Href>)
    ensures forall h :: h in r ==> Qualifies(h) && h in hrefs
  {
    if hrefs == [] then []
    else (if Qualifies(hrefs[0]) then [hrefs[0]] else []) + Qualifying(hrefs[1..])
  }

  /** The filter keeps every occurrence of a qualifying href and none of the others. */
  lemma {:induction false} QualifyingCount(hrefs: seq<Href>, h: Href)
    ensures multiset(Qualifying(hrefs))[h] == if Qualifies(h) then multiset(hrefs)[h] else 0
  {
    if hrefs != [] {
      QualifyingCount(hrefs[1..], h);
      assert hrefs == [hrefs[0]] + hrefs[1..];
    }
  }

  /** The set of qualifying hrefs of a document. */
  function QualifyingSet(hrefs: seq<Href>): set<Href> {
    set h | h in hrefs && Qualifies(h)
  }

  /** The set of pages a document links to. */
  function TargetSet(hrefs: seq<Href>): set<PageId> {
    set h | h in hrefs && Qualifies(h) :: StripExt(h)
  }

  /**
   * The out-link list built by the anchor loop (main.py:41-48): each
   * qualifying href with its extension removed, in document order.
   */
  function OutgoingLinks(hrefs: seq<Href>): (r: seq<PageId>)
    ensures |r| == |Qualifying(hrefs)|
  {
    if hrefs == [] then []
    else (if Qualifies(hrefs[0]) then [StripExt(hrefs[0])] else []) + OutgoingLinks(hrefs[1..])
  }

  /**
   * The out-link list is the filtered hrefs with the extension removed,
   * position by position.
   */
  lemma {:induction false} OutgoingLinksStripped(hrefs: seq<Href>, i: nat)
    requires i < |OutgoingLinks(hrefs)|
    ensures OutgoingLinks(hrefs)[i] == StripExt(Qualifying(hrefs)[i])
  {
    var h, rest := hrefs[0], hrefs[1..];
    if Qualifies(h) {
      if i > 0 {
        OutgoingLinksStripped(rest, i - 1);
      }
    } else {
      OutgoingLinksStripped(rest, i);
    }
  }

  /**
   * The incoming-count updates of the anchor loop (main.py:46), one
   * `get(href, 0) + 1` per qualifying href, left to right.
   */
  function BumpCounts(counts: map<Href, nat>, hrefs: seq<Href>): map<Href, nat>
    decreases |hrefs|
  {
    if hrefs == [] then counts
    else
      var h := hrefs[0];
      var next := if Qualifies(h) then counts[h := Get(counts, h) + 1] else counts;
      BumpCounts(next, hrefs[1..])
  }

  /**
   * Each qualifying href's count grows by its number of occurrences; every
   * other key keeps its count, and only qualifying hrefs become new keys.
   */
  lemma {:induction false} BumpCountsAt(counts: map<Href, nat>, hrefs: seq<Href>, k: Href)
    ensures k in BumpCounts(counts, hrefs) <==> k in counts || (Qualifies(k) && k in hrefs)
    ensures Get(BumpCounts(counts, hrefs), k) == Get(counts, k) + (if Qualifies(k) then multiset(hrefs)[k] else 0)
    decreases |hrefs|
  {
    if hrefs != [] {
      var h, rest := hrefs[0], hrefs[1..];
      var next := if Qualifies(h) then counts[h := Get(counts, h) + 1] else counts;
      BumpCountsAt(next, rest, k);
      assert hrefs == [h] + rest;
    }
  }

  /** `BumpCountsAt` for every key at once. */
  lemma BumpCountsEffect(counts: map<Href, nat>, hrefs: seq<Href>)
    ensures BumpCounts(counts, hrefs).Keys == counts.Keys + QualifyingSet(hrefs)
    ensures forall k ::
      Get(BumpCounts(counts, hrefs), k) == Get(counts, k) + (if Qualifies(k) then multiset(hrefs)[k] else 0)
  {
    forall k ensures
      && (k in BumpCounts(counts, hrefs) <==> k in counts || (Qualifies(k) && k in hrefs))
      && Get(BumpCounts(counts, hrefs), k) == Get(counts, k) + (if Qualifies(k) then multiset(hrefs)[k] else 0)
    {
      BumpCountsAt(counts, hrefs, k);
    }
  }

  /**
   * The source node update (main.py:53-57): a new node gets the out-links
   * and no in-links; an existing node has only its out-links replaced.
   */
  function SetSource(g: map<PageId, Node>, page: PageId, out: seq<PageId>): map<PageId, Node> {
    if page !in g then g[page := Node(out, [])]
    else g[page := g[page].(outgoing := out)]
  }

  /** The source update adds at most the source, and changes only its out-links. */
  lemma SetSourceAt(g: map<PageId, Node>, page: PageId, out: seq<PageId>, q: PageId)
    ensures q in SetSource(g, page, out) <==> q in g || q == page
    ensures q in SetSource(g, page, out) ==>
      SetSource(g, page, out)[q] == if q == page then Node(out, In(g, page)) else g[q]
  {
  }

  /**
   * The in-link updates (main.py:60-64): for each out-link in order, a missing
   * target is created with no out-links and `[page]` as in-links, an existing
   * one gets `page` appended to its in-links.
   */
  function LinkTargets(g: map<PageId, Node>, page: PageId, links: seq<PageId>): map<PageId, Node>
    decreases |links|
  {
    if links == [] then g
    else
      var t := links[0];
      var next :=
        if t !in g then g[t := Node([], [page])]
        else g[t := g[t].(incoming := g[t].incoming + [page])];
      LinkTargets(next, page, links[1..])
  }

  /** One target's node after the in-link updates. */
  lemma {:induction false} LinkTargetsAt(g: map<PageId, Node>, page: PageId, links: seq<PageId>, q: PageId)
    ensures q in LinkTargets(g, page, links) <==> q in g || q in links
    ensures q in LinkTargets(g, page, links) ==>
      LinkTargets(g, page, links)[q] == Node(Out(g, q), In(g, q) + Repeat(page, multiset(links)[q]))
    decreases |links|
  {
    if links != [] {
      var t, rest := links[0], links[1..];
      var next :=
        if t !in g then g[t := Node([], [page])]
        else g[t := g[t].(incoming := g[t].incoming + [page])];
      LinkTargetsAt(next, page, rest, q);
      var n := multiset(rest)[q];
      assert links == [t] + rest;
      assert multiset(links)[q] == n + (if q == t then 1 else 0);
      if q == t {
        assert In(next, q) == In(g, q) + [page];
        AppendRepeat(In(g, q), page, n);
      }
    }
  }

  /** Appending one more copy to a repetition. */
  lemma AppendRepeat(s: seq<PageId>, x: PageId, n: nat)
    ensures s + [x] + Repeat(x, n) == s + Repeat(x, n + 1)
  {
    assert [x] + Repeat(x, n) == Repeat(x, n + 1);
    assert s + [x] + Repeat(x, n) == s + ([x] + Repeat(x, n));
  }

  /** A repetition of `x` holds `x` exactly its length many times. */
  lemma {:induction false} RepeatCount(x: PageId, n: nat, y: PageId)
    ensures multiset(Repeat(x, n))[y] == if y == x then n else 0
  {
    if n > 0 {
      RepeatCount(x, n - 1, y);
      assert Repeat(x, n) == Repeat(x, n - 1) + [x];
    }
  }

  /**
   * The graph half of `parse_file` (main.py:53-64) for the source page `page`
   * with out-link list `out`.
   */
  function AddPage(g: map<PageId, Node>, page: PageId, out: seq<PageId>): map<PageId, Node> {
    LinkTargets(SetSource(g, page, out), page, out)
  }

  /**
   * After `AddPage` the source and its targets are nodes, only the source's
   * out-links have changed, and each target lists the source once per link.
   */
  lemma AddPageEffect(g: map<PageId, Node>, page: PageId, out: seq<PageId>)
    ensures forall q :: q in AddPage(g, page, out) <==> q in g || q == page || q in out
    ensures forall q :: q in AddPage(g, page, out) ==>
      AddPage(g, page, out)[q].outgoing == (if q == page then out else Out(g, q))
    ensures forall q :: q in AddPage(g, page, out) ==>
      AddPage(g, page, out)[q].incoming == In(g, q) + Repeat(page, multiset(out)[q])
  {
    var src := SetSource(g, page, out);
    forall q
      ensures q in AddPage(g, page, out) <==> q in g || q == page || q in out
      ensures q in AddPage(g, page, out) ==>
        && AddPage(g, page, out)[q].outgoing == (if q == page then out else Out(g, q))
        && AddPage(g, page, out)[q].incoming == In(g, q) + Repeat(page, multiset(out)[q])
    {
      SetSourceAt(g, page, out, q);
      LinkTargetsAt(src, page, out, q);
    }
  }

  /**
   * `parse_file` once its anchors are known (main.py:40-64): the incoming
   * counts, the document's outgoing count, its node and its targets' in-links
   * are updated.
   */
  function Ingest(st: State, name: Href, hrefs: seq<Href>): State {
    var out := OutgoingLinks(hrefs);
    State(
      BumpCounts(st.incomingCounts, hrefs),
      st.outgoingCounts[name := |out|],
      AddPage(st.graph, StripExt(name), out))
  }

  /**
   * The count maps after one document: each qualifying href's incoming count
   * grows by its number of occurrences and nothing else changes; the
   * document's outgoing count becomes its number of qualifying hrefs.
   */
  lemma IngestCounts(st: State, name: Href, hrefs: seq<Href>)
    ensures Ingest(st, name, hrefs).incomingCounts.Keys == st.incomingCounts.Keys + QualifyingSet(hrefs)
    ensures forall k ::
      Get(Ingest(st, name, hrefs).incomingCounts, k)
        == Get(st.incomingCounts, k) + (if Qualifies(k) then multiset(hrefs)[k] else 0)
    ensures Ingest(st, name, hrefs).outgoingCounts.Keys == st.outgoingCounts.Keys + {name}
    ensures Ingest(st, name, hrefs).outgoingCounts[name] == |Qualifying(hrefs)|
    ensures forall k :: k in st.outgoingCounts && k != name ==>
      Ingest(st, name, hrefs).outgoingCounts[k] == st.outgoingCounts[k]
  {
    BumpCountsEffect(st.incomingCounts, hrefs);
  }

  /**
   * The graph after one document: the source page and its targets are nodes
   * and no node is removed; only the source's out-links change, becoming the
   * stripped qualifying hrefs; every node gains the source as in-link once per
   * link to it, self-links included.
   */
  lemma IngestGraph(st: State, name: Href, hrefs: seq<Href>)
    ensures forall q :: q in Ingest(st, name, hrefs).graph <==>
      q in st.graph || q == StripExt(name) || q in TargetSet(hrefs)
    ensures forall q :: q in Ingest(st, name, hrefs).graph ==>
      Ingest(st, name, hrefs).graph[q].outgoing
        == (if q == StripExt(name) then OutgoingLinks(hrefs) else Out(st.graph, q))
    ensures forall q :: q in Ingest(st, name, hrefs).graph ==>
      Ingest(st, name, hrefs).graph[q].incoming
        == In(st.graph, q) + Repeat(StripExt(name), multiset(OutgoingLinks(hrefs))[q])
  {
    OutgoingLinksTargets(hrefs);
    AddPageEffect(st.graph, StripExt(name), OutgoingLinks(hrefs));
  }

  /** `IngestGraph` for one page. */
  lemma IngestGraphAt(st: State, name: Href, hrefs: seq<Href>, q: PageId)
    ensures q in Ingest(st, name, hrefs).graph <==> q in st.graph || q == StripExt(name) || q in OutgoingLinks(hrefs)
    ensures q in Ingest(st, name, hrefs).graph ==>
      && Ingest(st, name, hrefs).graph[q].outgoing
        == (if q == StripExt(name) then OutgoingLinks(hrefs) else Out(st.graph, q))
      && Ingest(st, name, hrefs).graph[q].incoming
        == In(st.graph, q) + Repeat(StripExt(name), multiset(OutgoingLinks(hrefs))[q])
  {
    AddPageEffect(st.graph, StripExt(name), OutgoingLinks(hrefs));
  }

  /** The pages in the out-link list are exactly the stripped qualifying hrefs. */
  lemma OutgoingLinksTargets(hrefs: seq<Href>)
    ensures (set t | t in OutgoingLinks(hrefs)) == TargetSet(hrefs)
  {
    forall t ensures t in OutgoingLinks(hrefs) <==> t in TargetSet(hrefs) {
      OutgoingLinksMember(hrefs, t);
    }
  }

  lemma {:induction false} OutgoingLinksMember(hrefs: seq<Href>, t: PageId)
    ensures t in OutgoingLinks(hrefs) <==> t in TargetSet(hrefs)
  {
    if hrefs != [] {
      var h, rest := hrefs[0], hrefs[1..];
      OutgoingLinksMember(rest, t);
      var head: seq<PageId> := if Qualifies(h) then [StripExt(h)] else [];
      assert OutgoingLinks(hrefs) == head + OutgoingLinks(rest);
      assert t in OutgoingLinks(hrefs) <==> t in head || t in OutgoingLinks(rest);
      if t in TargetSet(hrefs) {
        var w :| w in hrefs && Qualifies(w) && StripExt(w) == t;
        if w != h {
          assert w in rest;
          assert t in TargetSet(rest);
        }
      }
      if t in TargetSet(rest) {
        var w :| w in rest && Qualifies(w) && StripExt(w) == t;
        assert w in hrefs;
      }
    }
  }

  /** The filter keeps document order: it distributes over concatenation. */
  lemma {:induction false} QualifyingAppend(a: seq<Href>, b: seq<Href>)
    ensures Qualifying(a + b) == Qualifying(a) + Qualifying(b)
  {
    if a == [] {
      assert a + b == b;
    } else {
      var head: seq<Href> := if Qualifies(a[0]) then [a[0]] else [];
      assert (a + b)[0] == a[0] && (a + b)[1..] == a[1..] + b;
      calc {
        Qualifying(a + b);
        head + Qualifying(a[1..] + b);
        { QualifyingAppend(a[1..], b); }
        head + (Qualifying(a[1..]) + Qualifying(b));
        (head + Qualifying(a[1..])) + Qualifying(b);
        Qualifying(a) + Qualifying(b);
      }
    }
  }

  /** The out-link list, too, is built piecewise in document order. */
  lemma {:induction false} OutgoingLinksAppend(a: seq<Href>, b: seq<Href>)
    ensures OutgoingLinks(a + b) == OutgoingLinks(a) + OutgoingLinks(b)
  {
    if a == [] {
      assert a + b == b;
    } else {
      var head: seq<PageId> := if Qualifies(a[0]) then [StripExt(a[0])] else [];
      assert (a + b)[0] == a[0] && (a + b)[1..] == a[1..] + b;
      calc {
        OutgoingLinks(a + b);
        head + OutgoingLinks(a[1..] + b);
        { OutgoingLinksAppend(a[1..], b); }
        head + (OutgoingLinks(a[1..]) + OutgoingLinks(b));
        (head + OutgoingLinks(a[1..])) + OutgoingLinks(b);
        OutgoingLinks(a) + OutgoingLinks(b);
      }
    }
  }

  /** Filtering the hrefs first leaves the out-link list as it was. */
  lemma {:induction false} OutgoingLinksOfQualifying(hrefs: seq<Href>)
    ensures OutgoingLinks(Qualifying(hrefs)) == OutgoingLinks(hrefs)
  {
    if hrefs != [] {
      var h := hrefs[0];
      OutgoingLinksOfQualifying(hrefs[1..]);
      var head: seq<Href> := if Qualifies(h) then [h] else [];
      OutgoingLinksAppend(head, Qualifying(hrefs[1..]));
    }
  }

  /**
   * Only qualifying hrefs matter: ingesting a document gives the same state
   * as ingesting just its qualifying hrefs.
   */
  lemma IngestIgnoresNonQualifying(st: State, name: Href, hrefs: seq<Href>)
    ensures Ingest(st, name, Qualifying(hrefs)) == Ingest(st, name, hrefs)
  {
    OutgoingLinksOfQualifying(hrefs);
    BumpCountsOfQualifying(st.incomingCounts, hrefs);
  }

  /** Filtering the hrefs first leaves the incoming counts as they were. */
  lemma {:induction false} BumpCountsOfQualifying(counts: map<Href, nat>, hrefs: seq<Href>)
    ensures BumpCounts(counts, Qualifying(hrefs)) == BumpCounts(counts, hrefs)
    decreases |hrefs|
  {
    if hrefs != [] {
      var h, rest := hrefs[0], hrefs[1..];
      if Qualifies(h) {
        var next := counts[h := Get(counts, h) + 1];
        var q := [h] + Qualifying(rest);
        assert q[0] == h && q[1..] == Qualifying(rest);
        BumpCountsOfQualifying(next, rest);
      } else {
        assert Qualifying(hrefs) == Qualifying(rest);
        BumpCountsOfQualifying(counts, rest);
      }
    }
  }

  /** A non-qualifying href can be dropped from anywhere in a document. */
  lemma IngestSkipsHref(st: State, name: Href, a: seq<Href>, h: Href, b: seq<Href>)
    requires !Qualifies(h)
    ensures Ingest(st, name, a + [h] + b) == Ingest(st, name, a + b)
  {
    assert Qualifying([h]) == [];
    calc {
      Qualifying(a + [h] + b);
      { QualifyingAppend(a + [h], b); QualifyingAppend(a, [h]); }
      Qualifying(a) + Qualifying([h]) + Qualifying(b);
      Qualifying(a) + Qualifying(b);
      { QualifyingAppend(a, b); }
      Qualifying(a + b);
    }
    IngestIgnoresNonQualifying(st, name, a + [h] + b);
    IngestIgnoresNonQualifying(st, name, a + b);
  }

  /**
   * Ingesting the same document name twice: the second out-link list
   * replaces the first (last write wins), while in-links pile up from both.
   */
  lemma IngestTwice(st: State, name: Href, first: seq<Href>, second: seq<Href>)
    ensures var r := Ingest(Ingest(st, name, first), name, second);
      && StripExt(name) in r.graph
      && r.graph[StripExt(name)].outgoing == OutgoingLinks(second)
      && r.outgoingCounts[name] == |Qualifying(second)|
      && forall q :: q in r.graph ==>
           r.graph[q].incoming == In(st.graph, q)
             + Repeat(StripExt(name), multiset(OutgoingLinks(first))[q])
             + Repeat(StripExt(name), multiset(OutgoingLinks(second))[q])
  {
    var s1 := Ingest(st, name, first);
    var r := Ingest(s1, name, second);
    assert StripExt(name) in r.graph && r.graph[StripExt(name)].outgoing == OutgoingLinks(second) by {
      IngestGraphAt(s1, name, second, StripExt(name));
    }
    assert r.outgoingCounts[name] == |Qualifying(second)| by {
      IngestCounts(s1, name, second);
    }
    forall q | q in r.graph
      ensures r.graph[q].incoming == In(st.graph, q)
        + Repeat(StripExt(name), multiset(OutgoingLinks(first))[q])
        + Repeat(StripExt(name), multiset(OutgoingLinks(second))[q])
    {
      IngestTwiceAt(st, name, first, second, q);
    }
  }

  /** `IngestTwice` for the in-links of one page. */
  lemma IngestTwiceAt(st: State, name: Href, first: seq<Href>, second: seq<Href>, q: PageId)
    requires q in Ingest(Ingest(st, name, first), name, second).graph
    ensures Ingest(Ingest(st, name, first), name, second).graph[q].incoming == In(st.graph, q)
      + Repeat(StripExt(name), multiset(OutgoingLinks(first))[q])
      + Repeat(StripExt(name), multiset(OutgoingLinks(second))[q])
  {
    var page := StripExt(name);
    var s1 := Ingest(st, name, first);
    var r := Ingest(s1, name, second);
    var c1, c2 := multiset(OutgoingLinks(first))[q], multiset(OutgoingLinks(second))[q];
    assert r.graph[q].incoming == In(s1.graph, q) + Repeat(page, c2) by {
      IngestGraphAt(s1, name, second, q);
    }
    assert In(s1.graph, q) == In(st.graph, q) + Repeat(page, c1) by {
      IngestGraphAt(st, name, first, q);
      if q !in s1.graph {
        assert c1 == 0;
        assert Repeat(page, c1) == [];
      }
    }
  }

  /** A crawled document: its name and the href values of its anchors, in order. */
  datatype Doc = Doc(name: Href, hrefs: seq<Href>)

  /** Documents ingested one after the other. */
  function IngestAll(st: State, docs: seq<Doc>): State
    decreases |docs|
  {
    if docs == [] then st
    else IngestAll(Ingest(st, docs[0].name, docs[0].hrefs), docs[1..])
  }
}
