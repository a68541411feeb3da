/**
 `generate_cluster_summary`: one record per distinct cluster id of a document
 table, in ascending id order, carrying the display label, the joined top
 terms, the number of reviews, the verified ratio and the joined examples.
 */
module Summary {
  import opened Wrappers
  import opened Sequences
  import opened TopTerms

  /** One row of the document table. `verified` is only meaningful when the
      table has a `verified_purchase` column. */
  datatype Row = Row(cluster: int, doc: string, verified: bool)

  /** The document table: its rows in table order, and whether the
      `verified_purchase` column is present at all. */
  datatype Table = Table(rows: seq<Row>, hasVerifiedColumn: bool)

  /** The "Verified Ratio" field: the sentinel "NA" when the column is absent,
      otherwise the exact fraction `verified / reviews`. */
  datatype VerifiedRatio = NotAvailable | Ratio(verified: nat, reviews: nat)

  /** One summary record; the fields are the output columns
      Cluster ID, Label, Top Terms, Num Reviews, Verified Ratio, Examples. */
  datatype ClusterRecord = ClusterRecord(
    clusterId: int,
    displayLabel: string,
    topTerms: string,
    numReviews: nat,
    verifiedRatio: VerifiedRatio,
    examples: string)

  const UnknownLabel: string := "Unknown"
  const TermSeparator: string := ", "
  const ExampleSeparator: string := "\n---\n"

  /** The cluster ids that occur in the table. */
  function Clusters(rows: seq<Row>): set<int>
  {
    set k | 0 <= k < |rows| :: rows[k].cluster
  }

  /** How many rows carry cluster id `id`. */
  function Count(rows: seq<Row>, id: int): nat
  {
    if |rows| == 0 then 0
    else (if rows[0].cluster == id then 1 else 0) + Count(rows[1..], id)
  }

  /** How many rows carry cluster id `id` and are flagged as verified. */
  function VerifiedCount(rows: seq<Row>, id: int): nat
  {
    if |rows| == 0 then 0
    else (if rows[0].cluster == id && rows[0].verified then 1 else 0) + VerifiedCount(rows[1..], id)
  }

  /** `df[df["cluster"] == id]`: the rows of cluster `id`, in table order. */
  function Select(rows: seq<Row>, id: int): (r: seq<Row>)
    ensures |r| == Count(rows, id)
    ensures forall k :: 0 <= k < |r| ==> r[k].cluster == id
  {
    if |rows| == 0 then []
    else
      (if rows[0].cluster == id then [rows[0]] else []) + Select(rows[1..], id)
  }

  /** Every selected row is a row of the table. */
  lemma {:induction false} SelectedFromTable(rows: seq<Row>, id: int)
    ensures forall k :: 0 <= k < |Select(rows, id)| ==> Select(rows, id)[k] in rows
  {
    if |rows| > 0 {
      SelectedFromTable(rows[1..], id);
      var head := if rows[0].cluster == id then [rows[0]] else [];
      var tail := Select(rows[1..], id);
      assert Select(rows, id) == head + tail;
      forall k | 0 <= k < |head + tail|
        ensures (head + tail)[k] in rows
      {
        if k >= |head| {
          assert (head + tail)[k] == tail[k - |head|];
          assert tail[k - |head|] in rows[1..];
        }
      }
    }
  }

  /** The `doc` column of some rows, in order. */
  function Docs(rows: seq<Row>): (r: seq<string>)
    ensures |r| == |rows|
    ensures forall k :: 0 <= k < |r| ==> r[k] == rows[k].doc
  {
    seq(|rows|, k requires 0 <= k < |rows| => rows[k].doc)
  }

  /** The docs of cluster `id`, in table order. */
  function ClusterDocs(rows: seq<Row>, id: int): seq<string>
  {
    Docs(Select(rows, id))
  }

  /** The number of verified rows among some rows. */
  function VerifiedIn(rows: seq<Row>): nat
  {
    if |rows| == 0 then 0
    else (if rows[0].verified then 1 else 0) + VerifiedIn(rows[1..])
  }

  /** `cluster_labels.get(id, "Unknown")`. */
  function Label(labels: map<int, string>, id: int): string
  {
    if id in labels then labels[id] else UnknownLabel
  }

  /** The value of a ratio as a real number, once it has at least one review. */
  function RatioValue(v: VerifiedRatio): (r: real)
    requires v.Ratio? && 0 < v.reviews && v.verified <= v.reviews
    ensures 0.0 <= r <= 1.0
  {
    v.verified as real / v.reviews as real
  }

  /** Term extraction for cluster `id` does not raise. */
  predicate TermsSucceed(rows: seq<Row>, id: int, nTerms: int, fit: Vectorizer)
  {
    GetTopTerms(ClusterDocs(rows, id), nTerms, fit).Some?
  }

  /** What a record promises about its cluster `rec.clusterId`: the id occurs
      in the table, the count is the number of rows carrying the id, the ratio
      is the verified share of those rows (or "NA" without the column), the
      label defaults to "Unknown", and the two text fields join the top terms
      and the first `nExamples` docs of the cluster. */
  predicate Describes(rec: ClusterRecord, table: Table, labels: map<int, string>,
                      nTerms: int, nExamples: int, fit: Vectorizer)
  {
    var id := rec.clusterId;
    var docs := ClusterDocs(table.rows, id);
    && rec.numReviews == Count(table.rows, id)
    && rec.numReviews >= 1
    && rec.displayLabel == (if id in labels then labels[id] else UnknownLabel)
    && (table.hasVerifiedColumn ==>
          rec.verifiedRatio == Ratio(VerifiedCount(table.rows, id), rec.numReviews))
    && (!table.hasVerifiedColumn ==> rec.verifiedRatio == NotAvailable)
    && TermsSucceed(table.rows, id, nTerms, fit)
    && rec.topTerms == Join(GetTopTerms(docs, nTerms, fit).value, TermSeparator)
    && rec.examples == Join(Head(docs, nExamples), ExampleSeparator)
  }

  /** The verified rows of cluster `id` are the verified rows of its selection. */
  lemma {:induction false} VerifiedOfSelection(rows: seq<Row>, id: int)
    ensures VerifiedIn(Select(rows, id)) == VerifiedCount(rows, id)
    ensures VerifiedCount(rows, id) <= Count(rows, id)
  {
    if |rows| > 0 {
      VerifiedOfSelection(rows[1..], id);
      var head := if rows[0].cluster == id then [rows[0]] else [];
      VerifiedInAppend(head, Select(rows[1..], id));
    }
  }

  lemma {:induction false} VerifiedInAppend(a: seq<Row>, b: seq<Row>)
    ensures VerifiedIn(a + b) == VerifiedIn(a) + VerifiedIn(b)
  {
    if |a| > 0 {
      assert (a + b)[0] == a[0];
      assert (a + b)[1..] == a[1..] + b;
      VerifiedInAppend(a[1..], b);
    } else {
      assert a + b == b;
    }
  }

  /** The record for one non-empty cluster (the loop body of
      `generate_cluster_summary`), or `None` when term extraction raises. */
  function SummarizeCluster(table: Table, id: int, labels: map<int, string>,
                            nTerms: int, nExamples: int, fit: Vectorizer): (r: Option<ClusterRecord>)
    ensures r.Some? <==> TermsSucceed(table.rows, id, nTerms, fit)
    ensures r.Some? ==> r.value.clusterId == id
  {
    var sel := Select(table.rows, id);
    var docs := Docs(sel);
    var ratio := if table.hasVerifiedColumn then Ratio(VerifiedIn(sel), |sel|) else NotAvailable;
    match GetTopTerms(docs, nTerms, fit)
    case None => None
    case Some(terms) =>
      Some(ClusterRecord(id, Label(labels, id), Join(terms, TermSeparator), |sel|, ratio,
                         Join(Head(docs, nExamples), ExampleSeparator)))
  }

  /** The record of a non-empty cluster describes that cluster. */
  lemma SummarizeClusterDescribes(table: Table, id: int, labels: map<int, string>,
                                  nTerms: int, nExamples: int, fit: Vectorizer)
    requires Count(table.rows, id) > 0
    requires SummarizeCluster(table, id, labels, nTerms, nExamples, fit).Some?
    ensures Describes(SummarizeCluster(table, id, labels, nTerms, nExamples, fit).value,
                      table, labels, nTerms, nExamples, fit)
  {
    VerifiedOfSelection(table.rows, id);
  }

  /** Ids strictly ascend, so in particular they are distinct. */
  predicate StrictlyIncreasing(s: seq<int>)
  {
    forall i, j :: 0 <= i < j < |s| ==> s[i] < s[j]
  }

  /** Record ids strictly ascend. */
  predicate IdsAscending(recs: seq<ClusterRecord>)
  {
    forall i, j :: 0 <= i < j < |recs| ==> recs[i].clusterId < recs[j].clusterId
  }

  /** The ids of some records. */
  function RecordIds(recs: seq<ClusterRecord>): set<int>
  {
    set k | 0 <= k < |recs| :: recs[k].clusterId
  }

  /** The "Num Reviews" column summed. */
  function TotalReviews(recs: seq<ClusterRecord>): nat
  {
    if |recs| == 0 then 0 else recs[0].numReviews + TotalReviews(recs[1..])
  }

  /** The counts of the given ids summed. */
  function SumCounts(ids: seq<int>, rows: seq<Row>): nat
  {
    if |ids| == 0 then 0 else Count(rows, ids[0]) + SumCounts(ids[1..], rows)
  }

  /** Adds `x` to an ascending list of distinct ids, keeping it ascending and
      distinct. */
  function InsertSorted(x: int, s: seq<int>): (r: seq<int>)
    requires StrictlyIncreasing(s)
    ensures StrictlyIncreasing(r)
    ensures forall y :: y in r <==> y == x || y in s
  {
    if |s| == 0 then [x]
    else if x < s[0] then [x] + s
    else if x == s[0] then s
    else
      var tail := InsertSorted(x, s[1..]);
      assert forall k :: 0 <= k < |tail| ==> tail[k] in tail;
      [s[0]] + tail
  }

  /** `sorted(df["cluster"].unique())`. */
  function ClusterIds(rows: seq<Row>): (r: seq<int>)
    ensures StrictlyIncreasing(r)
    ensures forall id :: id in r <==> id in Clusters(rows)
  {
    if |rows| == 0 then []
    else
      var rest := ClusterIds(rows[1..]);
      assert forall id :: id in Clusters(rows) <==> id == rows[0].cluster || id in Clusters(rows[1..]) by {
        forall id | id in Clusters(rows[1..])
          ensures id in Clusters(rows)
        {
          var k :| 0 <= k < |rows[1..]| && rows[1..][k].cluster == id;
          assert rows[k + 1].cluster == id;
        }
      }
      InsertSorted(rows[0].cluster, rest)
  }

  /** The ids whose selection is non-empty, in order: the loop's
      `if cluster_df.empty: continue`. */
  function KeptIds(ids: seq<int>, rows: seq<Row>): (r: seq<int>)
    ensures |r| <= |ids|
    decreases |ids|
  {
    if |ids| == 0 then []
    else
      var tail := KeptIds(ids[1..], rows);
      if Count(rows, ids[0]) == 0 then tail else [ids[0]] + tail
  }

  /** The loop keeps exactly the listed ids that have at least one row. */
  lemma {:induction false} KeptIdsMembers(ids: seq<int>, rows: seq<Row>)
    ensures forall id :: id in KeptIds(ids, rows) <==> id in ids && Count(rows, id) > 0
    decreases |ids|
  {
    if |ids| > 0 {
      KeptIdsMembers(ids[1..], rows);
      assert ids == [ids[0]] + ids[1..];
    }
  }

  /** Term extraction succeeds for every id of the list. */
  predicate AllSucceed(ids: seq<int>, rows: seq<Row>, nTerms: int, fit: Vectorizer)
  {
    |ids| == 0 || (TermsSucceed(rows, ids[0], nTerms, fit) && AllSucceed(ids[1..], rows, nTerms, fit))
  }

  lemma {:induction false} AllSucceedEach(ids: seq<int>, rows: seq<Row>, nTerms: int, fit: Vectorizer)
    ensures AllSucceed(ids, rows, nTerms, fit) <==>
            forall k :: 0 <= k < |ids| ==> TermsSucceed(rows, ids[k], nTerms, fit)
    decreases |ids|
  {
    if |ids| > 0 {
      AllSucceedEach(ids[1..], rows, nTerms, fit);
      assert forall k :: 0 < k < |ids| ==> ids[k] == ids[1..][k - 1];
    }
  }

  /** The records of the kept ids, one each and in the same order, or `None`
      as soon as one cluster's term extraction raises. */
  function RecordsFor(kept: seq<int>, table: Table, labels: map<int, string>,
                      nTerms: int, nExamples: int, fit: Vectorizer): (r: Option<seq<ClusterRecord>>)
    ensures r.Some? ==> |r.value| == |kept|
    ensures r.Some? ==> forall k :: 0 <= k < |kept| ==> r.value[k].clusterId == kept[k]
    decreases |kept|
  {
    if |kept| == 0 then Some([])
    else
      match SummarizeCluster(table, kept[0], labels, nTerms, nExamples, fit)
      case None => None
      case Some(rec) =>
        match RecordsFor(kept[1..], table, labels, nTerms, nExamples, fit)
        case None => None
        case Some(rest) =>
          Some([rec] + rest)
  }

  /** The records are produced exactly when term extraction succeeds for
      every kept id. */
  lemma {:induction false} RecordsForSucceeds(kept: seq<int>, table: Table, labels: map<int, string>,
                                              nTerms: int, nExamples: int, fit: Vectorizer)
    ensures RecordsFor(kept, table, labels, nTerms, nExamples, fit).Some?
            <==> AllSucceed(kept, table.rows, nTerms, fit)
    decreases |kept|
  {
    if |kept| > 0 {
      RecordsForSucceeds(kept[1..], table, labels, nTerms, nExamples, fit);
    }
  }

  /** Every record describes its cluster. */
  lemma {:induction false} RecordsDescribe(kept: seq<int>, table: Table, labels: map<int, string>,
                                           nTerms: int, nExamples: int, fit: Vectorizer)
    requires forall k :: 0 <= k < |kept| ==> Count(table.rows, kept[k]) > 0
    requires RecordsFor(kept, table, labels, nTerms, nExamples, fit).Some?
    ensures var recs := RecordsFor(kept, table, labels, nTerms, nExamples, fit).value;
            forall k :: 0 <= k < |recs| ==> Describes(recs[k], table, labels, nTerms, nExamples, fit)
    decreases |kept|
  {
    if |kept| > 0 {
      var recs := RecordsFor(kept, table, labels, nTerms, nExamples, fit).value;
      var rec := SummarizeCluster(table, kept[0], labels, nTerms, nExamples, fit).value;
      var rest := RecordsFor(kept[1..], table, labels, nTerms, nExamples, fit).value;
      RecordsDescribe(kept[1..], table, labels, nTerms, nExamples, fit);
      SummarizeClusterDescribes(table, kept[0], labels, nTerms, nExamples, fit);
      assert recs == [rec] + rest;
      forall k | 0 <= k < |recs|
        ensures Describes(recs[k], table, labels, nTerms, nExamples, fit)
      {
        if k > 0 {
          assert recs[k] == rest[k - 1];
        }
      }
    }
  }

  /** The loop of `generate_cluster_summary` over the given ids: clusters
      with no rows are skipped, and the first cluster whose term extraction
      raises makes the whole summary fail. */
  function BuildRecords(ids: seq<int>, table: Table, labels: map<int, string>,
                        nTerms: int, nExamples: int, fit: Vectorizer): Option<seq<ClusterRecord>>
  {
    RecordsFor(KeptIds(ids, table.rows), table, labels, nTerms, nExamples, fit)
  }

  /** Each record's count is the count of its id, so the column sums to the
      summed counts of the ids. */
  lemma {:induction false} RecordsTotal(kept: seq<int>, rows: seq<Row>, recs: seq<ClusterRecord>)
    requires |recs| == |kept|
    requires forall k :: 0 <= k < |kept| ==> recs[k].numReviews == Count(rows, kept[k])
    ensures TotalReviews(recs) == SumCounts(kept, rows)
    decreases |kept|
  {
    if |kept| > 0 {
      RecordsTotal(kept[1..], rows, recs[1..]);
    }
  }

  /** `generate_cluster_summary(df, cluster_labels, n_terms, n_examples)`:
      the records of the table's cluster ids in ascending order, or `None`
      when term extraction raises for some cluster. Its properties are the
      lemmas below. */
  function GenerateClusterSummary(table: Table, labels: map<int, string>,
                                  nTerms: int := 10, nExamples: int := 3, fit: Vectorizer): Option<seq<ClusterRecord>>
  {
    BuildRecords(ClusterIds(table.rows), table, labels, nTerms, nExamples, fit)
  }

  /** Every id the loop visits has rows, so none is skipped. */
  lemma NoClusterSkipped(rows: seq<Row>)
    ensures forall k :: 0 <= k < |ClusterIds(rows)| ==> Count(rows, ClusterIds(rows)[k]) > 0
    ensures KeptIds(ClusterIds(rows), rows) == ClusterIds(rows)
  {
    var ids := ClusterIds(rows);
    forall k | 0 <= k < |ids|
      ensures Count(rows, ids[k]) > 0
    {
      assert ids[k] in ids;
      CountPositive(rows, ids[k]);
    }
    KeptAll(ids, rows);
  }

  /** The summary fails exactly when term extraction raises for some cluster
      of the table. */
  lemma SummarySucceeds(table: Table, labels: map<int, string>,
                        nTerms: int, nExamples: int, fit: Vectorizer)
    ensures GenerateClusterSummary(table, labels, nTerms, nExamples, fit).Some? <==>
            forall id :: id in Clusters(table.rows) ==> TermsSucceed(table.rows, id, nTerms, fit)
  {
    var ids := ClusterIds(table.rows);
    NoClusterSkipped(table.rows);
    RecordsForSucceeds(ids, table, labels, nTerms, nExamples, fit);
    AllSucceedEach(ids, table.rows, nTerms, fit);
    if forall k :: 0 <= k < |ids| ==> TermsSucceed(table.rows, ids[k], nTerms, fit) {
      forall id | id in Clusters(table.rows)
        ensures TermsSucceed(table.rows, id, nTerms, fit)
      {
        assert id in ids;
      }
    }
  }

  /** One record per distinct cluster id of the table, in strictly ascending
      id order, and the "Num Reviews" column adds up to the number of rows. */
  lemma SummaryOnePerCluster(table: Table, labels: map<int, string>,
                             nTerms: int, nExamples: int, fit: Vectorizer)
    requires GenerateClusterSummary(table, labels, nTerms, nExamples, fit).Some?
    ensures var recs := GenerateClusterSummary(table, labels, nTerms, nExamples, fit).value;
            && IdsAscending(recs)
            && RecordIds(recs) == Clusters(table.rows)
            && |recs| == |Clusters(table.rows)|
            && TotalReviews(recs) == |table.rows|
  {
    var ids := ClusterIds(table.rows);
    var recs := GenerateClusterSummary(table, labels, nTerms, nExamples, fit).value;
    NoClusterSkipped(table.rows);
    assert recs == RecordsFor(ids, table, labels, nTerms, nExamples, fit).value;
    RecordsDescribe(ids, table, labels, nTerms, nExamples, fit);
    RecordsTotal(ids, table.rows, recs);
    SummaryShape(table.rows, ids, recs);
  }

  /** Every record describes its cluster: count, ratio, label, terms and
      examples as `Describes` states them. */
  lemma SummaryRecordsDescribe(table: Table, labels: map<int, string>,
                               nTerms: int, nExamples: int, fit: Vectorizer)
    requires GenerateClusterSummary(table, labels, nTerms, nExamples, fit).Some?
    ensures var recs := GenerateClusterSummary(table, labels, nTerms, nExamples, fit).value;
            forall k :: 0 <= k < |recs| ==> Describes(recs[k], table, labels, nTerms, nExamples, fit)
  {
    var ids := ClusterIds(table.rows);
    NoClusterSkipped(table.rows);
    RecordsDescribe(ids, table, labels, nTerms, nExamples, fit);
  }

  /** Facts about a complete, ordered record list, separated from the
      function to keep its proof small. */
  lemma SummaryShape(rows: seq<Row>, ids: seq<int>, recs: seq<ClusterRecord>)
    requires StrictlyIncreasing(ids)
    requires forall id :: id in ids <==> id in Clusters(rows)
    requires |recs| == |ids| && forall k :: 0 <= k < |ids| ==> recs[k].clusterId == ids[k]
    requires TotalReviews(recs) == SumCounts(ids, rows)
    ensures IdsAscending(recs)
    ensures RecordIds(recs) == Clusters(rows)
    ensures |recs| == |Clusters(rows)|
    ensures TotalReviews(recs) == |rows|
  {
    DistinctCardinality(ids);
    assert (set x | x in ids) == Clusters(rows);
    CountsAddUp(ids, rows);
  }

  /** When every id has rows, none is skipped. */
  lemma {:induction false} KeptAll(ids: seq<int>, rows: seq<Row>)
    requires forall k :: 0 <= k < |ids| ==> Count(rows, ids[k]) > 0
    ensures KeptIds(ids, rows) == ids
    decreases |ids|
  {
    if |ids| > 0 {
      KeptAll(ids[1..], rows);
      assert ids == [ids[0]] + ids[1..];
    }
  }

  /** An id occurs in the table exactly when some row carries it. */
  lemma {:induction false} CountPositive(rows: seq<Row>, id: int)
    ensures Count(rows, id) > 0 <==> id in Clusters(rows)
  {
    if |rows| > 0 {
      CountPositive(rows[1..], id);
      assert Clusters(rows) == {rows[0].cluster} + Clusters(rows[1..]) by {
        forall x | x in Clusters(rows)
          ensures x in {rows[0].cluster} + Clusters(rows[1..])
        {
          var k :| 0 <= k < |rows| && rows[k].cluster == x;
          if k > 0 {
            assert rows[1..][k - 1].cluster == x;
          }
        }
        forall x | x in Clusters(rows[1..])
          ensures x in Clusters(rows)
        {
          var k :| 0 <= k < |rows[1..]| && rows[1..][k].cluster == x;
          assert rows[k + 1].cluster == x;
        }
      }
    }
  }

  /** A list of distinct ids has as many elements as the set of its ids. */
  lemma {:induction false} DistinctCardinality(ids: seq<int>)
    requires StrictlyIncreasing(ids)
    ensures |set x | x in ids| == |ids|
  {
    if |ids| > 0 {
      DistinctCardinality(ids[1..]);
      var rest := set x | x in ids[1..];
      assert (set x | x in ids) == {ids[0]} + rest;
      assert ids[0] !in rest;
    }
  }

  /** How many times `c` occurs in `ids`. */
  function Occurrences(ids: seq<int>, c: int): nat
  {
    if |ids| == 0 then 0 else (if ids[0] == c then 1 else 0) + Occurrences(ids[1..], c)
  }

  lemma {:induction false} OccursOnce(ids: seq<int>, c: int)
    requires StrictlyIncreasing(ids) && c in ids
    ensures Occurrences(ids, c) == 1
  {
    if ids[0] == c {
      NotOccurring(ids[1..], c);
    } else {
      OccursOnce(ids[1..], c);
    }
  }

  lemma {:induction false} NotOccurring(ids: seq<int>, c: int)
    requires c !in ids
    ensures Occurrences(ids, c) == 0
  {
    if |ids| > 0 {
      NotOccurring(ids[1..], c);
    }
  }

  /** Counting the first row against every id adds its one occurrence. */
  lemma {:induction false} SumCountsCons(ids: seq<int>, rows: seq<Row>)
    requires |rows| > 0
    ensures SumCounts(ids, rows) == Occurrences(ids, rows[0].cluster) + SumCounts(ids, rows[1..])
  {
    if |ids| > 0 {
      SumCountsCons(ids[1..], rows);
    }
  }

  /** Count conservation: over a distinct list of ids that covers every
      cluster of the table, the per-id counts add up to the number of rows. */
  lemma {:induction false} CountsAddUp(ids: seq<int>, rows: seq<Row>)
    requires StrictlyIncreasing(ids)
    requires forall id :: id in Clusters(rows) ==> id in ids
    ensures SumCounts(ids, rows) == |rows|
  {
    if |rows| > 0 {
      assert rows[0].cluster in Clusters(rows);
      forall id | id in Clusters(rows[1..])
        ensures id in ids
      {
        var k :| 0 <= k < |rows[1..]| && rows[1..][k].cluster == id;
        assert rows[k + 1].cluster == id;
        assert id in Clusters(rows);
      }
      CountsAddUp(ids, rows[1..]);
      SumCountsCons(ids, rows);
      OccursOnce(ids, rows[0].cluster);
    } else {
      NothingToCount(ids, rows);
    }
  }

  lemma {:induction false} NothingToCount(ids: seq<int>, rows: seq<Row>)
    requires |rows| == 0
    ensures SumCounts(ids, rows) == 0
  {
    if |ids| > 0 {
      NothingToCount(ids[1..], rows);
    }
  }
}
