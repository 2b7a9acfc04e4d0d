/**
 * The average-links statistic (`compute_average_links`, main.py:69-77) and
 * the totals it averages over.
 */
module LinkStats {
  import opened Pages
  import opened GraphBuilder

  /** Why an average could not be computed. */
  datatype StatsError = DivisionByZero

  datatype Result<T> = Ok(value: T) | Err(error: StatsError)

  /** The sum of all counts of a map, whatever the order of its keys. */
  ghost function Total(counts: map<Href, nat>): nat
    decreases |counts|
  {
    if counts == map[] then 0
    else
      var k :| k in counts;
      counts[k] + Total(counts - {k})
  }

  /** The sum can be taken starting from any key. */
  lemma {:induction false} TotalRemove(counts: map<Href, nat>, k: Href)
    requires k in counts
    ensures Total(counts) == counts[k] + Total(counts - {k})
    decreases |counts|
  {
    var j :| j in counts && Total(counts) == counts[j] + Total(counts - {j});
    if j != k {
      var both := counts - {j} - {k};
      assert counts - {k} - {j} == both;
      assert |counts - {j}| < |counts| by {
        assert (counts - {j}).Keys < counts.Keys;
      }
      assert |counts - {k}| < |counts| by {
        assert (counts - {k}).Keys < counts.Keys;
      }
      TotalRemove(counts - {j}, k);
      TotalRemove(counts - {k}, j);
    }
  }

  /** Setting one key to `v` changes the sum by the difference. */
  lemma TotalUpdate(counts: map<Href, nat>, k: Href, v: nat)
    ensures Total(counts[k := v]) + Get(counts, k) == Total(counts) + v
  {
    TotalRemove(counts[k := v], k);
    if k in counts {
      assert counts[k := v] - {k} == counts - {k};
      TotalRemove(counts, k);
    } else {
      assert counts[k := v] - {k} == counts;
    }
  }

  /**
   * `compute_average_links`: the sum of the counts over the number of keys,
   * iterating over the map's items in whatever order; on an empty map the
   * source divides by zero, modelled as an error result.
   */
  method ComputeAverageLinks(counts: map<Href, nat>) returns (r: Result<real>)
    ensures r.Err? <==> |counts| == 0
    ensures r.Ok? ==> r.value == Total(counts) as real / |counts| as real
  {
    var totalLinks: nat := 0;
    var totalFiles: nat := 0;
    var rest := counts;
    while rest != map[]
      invariant totalLinks + Total(rest) == Total(counts)
      invariant totalFiles + |rest| == |counts|
      decreases |rest|
    {
      var k :| k in rest;
      TotalRemove(rest, k);
      assert |rest - {k}| == |rest| - 1 by {
        assert (rest - {k}).Keys == rest.Keys - {k};
      }
      totalLinks := totalLinks + rest[k];
      totalFiles := totalFiles + 1;
      rest := rest - {k};
    }
    assert totalLinks == Total(counts) && totalFiles == |counts|;
    if totalFiles == 0 {
      r := Err(DivisionByZero);
    } else {
      r := Ok(totalLinks as real / totalFiles as real);
    }
  }

  /** The incoming-count updates add one to the sum per qualifying href. */
  lemma {:induction false} BumpCountsTotal(counts: map<Href, nat>, hrefs: seq<Href>)
    ensures Total(BumpCounts(counts, hrefs)) == Total(counts) + |Qualifying(hrefs)|
    decreases |hrefs|
  {
    if hrefs != [] {
      var h, rest := hrefs[0], hrefs[1..];
      if Qualifies(h) {
        var next := counts[h := Get(counts, h) + 1];
        TotalUpdate(counts, h, Get(counts, h) + 1);
        BumpCountsTotal(next, rest);
      } else {
        BumpCountsTotal(counts, rest);
      }
    }
  }

  /**
   * A document whose name is new adds the same amount, its number of
   * qualifying hrefs, to both sums.
   */
  lemma IngestTotals(st: State, name: Href, hrefs: seq<Href>)
    requires name !in st.outgoingCounts
    ensures Total(Ingest(st, name, hrefs).incomingCounts) == Total(st.incomingCounts) + |Qualifying(hrefs)|
    ensures Total(Ingest(st, name, hrefs).outgoingCounts) == Total(st.outgoingCounts) + |Qualifying(hrefs)|
  {
    BumpCountsTotal(st.incomingCounts, hrefs);
    TotalUpdate(st.outgoingCounts, name, |OutgoingLinks(hrefs)|);
  }

  /** The document names of a sequence. */
  function NamesOf(docs: seq<Doc>): set<Href> {
    if docs == [] then {} else {docs[0].name} + NamesOf(docs[1..])
  }

  /** No two documents of the sequence have the same name. */
  predicate DistinctNames(docs: seq<Doc>) {
    forall i, j :: 0 <= i < j < |docs| ==> docs[i].name != docs[j].name
  }

  /**
   * Documents with new, distinct names keep the two sums equal: every
   * counted link is counted once at its source and once at its target.
   */
  lemma {:induction false} IngestAllTotals(st: State, docs: seq<Doc>)
    requires Total(st.incomingCounts) == Total(st.outgoingCounts)
    requires DistinctNames(docs)
    requires forall i :: 0 <= i < |docs| ==> docs[i].name !in st.outgoingCounts
    ensures Total(IngestAll(st, docs).incomingCounts) == Total(IngestAll(st, docs).outgoingCounts)
    ensures IngestAll(st, docs).outgoingCounts.Keys == st.outgoingCounts.Keys + NamesOf(docs)
    decreases |docs|
  {
    if docs != [] {
      var d, rest := docs[0], docs[1..];
      var next := Ingest(st, d.name, d.hrefs);
      IngestTotals(st, d.name, d.hrefs);
      IngestCounts(st, d.name, d.hrefs);
      assert DistinctNames(rest) && forall i :: 0 <= i < |rest| ==> rest[i].name !in next.outgoingCounts by {
        forall i | 0 <= i < |rest| ensures rest[i].name !in next.outgoingCounts {
          assert rest[i] == docs[i + 1];
        }
        forall i, j | 0 <= i < j < |rest| ensures rest[i].name != rest[j].name {
          assert rest[i] == docs[i + 1] && rest[j] == docs[j + 1];
        }
      }
      IngestAllTotals(next, rest);
      assert IngestAll(st, docs) == IngestAll(next, rest);
    }
  }

  /**
   * From the empty state, the sums of incoming and outgoing counts agree, so
   * the two averages share a numerator.
   */
  lemma AveragesShareTotal(docs: seq<Doc>)
    requires DistinctNames(docs)
    ensures Total(IngestAll(Empty, docs).incomingCounts) == Total(IngestAll(Empty, docs).outgoingCounts)
  {
    assert Total(map[]) == 0;
    IngestAllTotals(Empty, docs);
  }
}
