/**
 * The un-normalised score of one PageRank iteration (main.py:84-90), over
 * exact reals. It is here to show where the graph invariant is consumed: the
 * division by an in-link's out-degree needs that out-degree to be non-zero.
 */
module Rank {
  import opened Pages
  import opened GraphBuilder
  import opened LinkInvariant

  /** The constant every page starts an iteration with (main.py:85). */
  const Restart: real := 0.15

  /** The share of an in-link's score that flows along its edges (main.py:90). */
  const Damping: real := 0.85

  /** Python's `pagerank_prev.get(q, 0.0)`. */
  function PrevScore(prev: map<PageId, real>, q: PageId): real {
    if q in prev then prev[q] else 0.0
  }

  predicate NonNegative(prev: map<PageId, real>) {
    forall q :: q in prev ==> prev[q] >= 0.0
  }

  /**
   * What the in-links `inc` add to a page, accumulated left to right: each
   * in-link passes on its previous score divided by its out-degree, damped.
   */
  function Inflow(g: map<PageId, Node>, prev: map<PageId, real>, inc: seq<PageId>): (r: real)
    requires forall q :: q in inc ==> q in g && |g[q].outgoing| > 0
    ensures NonNegative(prev) ==> r >= 0.0
    ensures inc == [] ==> r == 0.0
    decreases |inc|
  {
    if inc == [] then 0.0
    else
      var q := inc[|inc| - 1];
      assert q in inc;
      Inflow(g, prev, inc[..|inc| - 1]) + Damping * (PrevScore(prev, q) / (|g[q].outgoing| as real))
  }

  /**
   * The score of page `p` before normalisation. The precondition is what the
   * crawl guarantees; with non-negative previous scores every page scores at
   * least the restart constant, and a page nobody links to scores exactly it.
   */
  function RawScore(g: map<PageId, Node>, prev: map<PageId, real>, p: PageId): (r: real)
    requires p in g && DivisorsSafe(g)
    ensures NonNegative(prev) ==> r >= Restart
    ensures g[p].incoming == [] ==> r == Restart
  {
    Restart + Inflow(g, prev, g[p].incoming)
  }

  /**
   * One iteration before normalisation: every node of the graph and nothing
   * else gets a score, each at least the restart constant, so the total that
   * main.py:93-94 divides by is positive whenever the graph has a node.
   */
  function RankStep(g: map<PageId, Node>, prev: map<PageId, real>): (r: map<PageId, real>)
    requires DivisorsSafe(g)
    ensures r.Keys == g.Keys
    ensures NonNegative(prev) ==> forall p :: p in r ==> r[p] >= Restart
  {
    map p | p in g :: RawScore(g, prev, p)
  }
}
