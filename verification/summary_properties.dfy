/**
 Properties of the cluster summary that follow from the record contract:
 selection keeps table order, the ratio is a fraction in [0, 1] or "NA", the
 joined fields decode back to the lists they were built from, and the
 per-row verified flags matter only when the column is present.
 */
module SummaryProperties {
  import opened Wrappers
  import opened Sequences
  import opened TopTerms
  import opened Summary

  /** Selecting from two consecutive stretches of the table selects from each
      in turn: selection keeps the original table order. */
  lemma {:induction false} SelectAppend(a: seq<Row>, b: seq<Row>, id: int)
    ensures Select(a + b, id) == Select(a, id) + Select(b, id)
  {
    if |a| == 0 {
      assert a + b == b;
    } else {
      assert (a + b)[0] == a[0];
      assert (a + b)[1..] == a[1..] + b;
      SelectAppend(a[1..], b, id);
    }
  }

  /** The first row selected for a cluster is the first row of the table
      that carries its id, so the first example is that row's doc. */
  lemma FirstSelectedRow(rows: seq<Row>, id: int, i: nat)
    requires i < |rows| && rows[i].cluster == id
    requires forall j :: 0 <= j < i ==> rows[j].cluster != id
    ensures |Select(rows, id)| > 0 && Select(rows, id)[0] == rows[i]
  {
    var before, after := rows[..i], rows[i + 1..];
    assert rows == before + ([rows[i]] + after);
    SelectAppend(before, [rows[i]] + after, id);
    NoneSelected(before, id);
    SelectAppend([rows[i]], after, id);
    assert Select([rows[i]], id) == [rows[i]] by {
      assert [rows[i]][1..] == [];
    }
  }

  /** A stretch with no row of cluster `id` contributes nothing. */
  lemma {:induction false} NoneSelected(rows: seq<Row>, id: int)
    requires forall j :: 0 <= j < |rows| ==> rows[j].cluster != id
    ensures Select(rows, id) == []
  {
    if |rows| > 0 {
      NoneSelected(rows[1..], id);
    }
  }

  /** With the column the ratio is the fraction of the cluster's rows that
      are verified, a number in [0, 1]; without the column it is "NA". */
  lemma SummaryRatio(table: Table, labels: map<int, string>,
                     nTerms: int, nExamples: int, fit: Vectorizer, k: nat)
    requires GenerateClusterSummary(table, labels, nTerms, nExamples, fit).Some?
    requires k < |GenerateClusterSummary(table, labels, nTerms, nExamples, fit).value|
    ensures var rec := GenerateClusterSummary(table, labels, nTerms, nExamples, fit).value[k];
            && (!table.hasVerifiedColumn ==> rec.verifiedRatio == NotAvailable)
            && (table.hasVerifiedColumn ==>
                  && rec.verifiedRatio.Ratio?
                  && rec.verifiedRatio.verified == VerifiedCount(table.rows, rec.clusterId)
                  && rec.verifiedRatio.reviews == Count(table.rows, rec.clusterId)
                  && 0 < rec.verifiedRatio.reviews
                  && rec.verifiedRatio.verified <= rec.verifiedRatio.reviews
                  && 0.0 <= RatioValue(rec.verifiedRatio) <= 1.0)
  {
    SummaryRecordsDescribe(table, labels, nTerms, nExamples, fit);
    var rec := GenerateClusterSummary(table, labels, nTerms, nExamples, fit).value[k];
    VerifiedOfSelection(table.rows, rec.clusterId);
  }

  /** The label is the mapped display string, or "Unknown" for an id the
      mapping lacks. */
  lemma SummaryLabel(table: Table, labels: map<int, string>,
                     nTerms: int, nExamples: int, fit: Vectorizer, k: nat)
    requires GenerateClusterSummary(table, labels, nTerms, nExamples, fit).Some?
    requires k < |GenerateClusterSummary(table, labels, nTerms, nExamples, fit).value|
    ensures var rec := GenerateClusterSummary(table, labels, nTerms, nExamples, fit).value[k];
            && (rec.clusterId in labels ==> rec.displayLabel == labels[rec.clusterId])
            && (rec.clusterId !in labels ==> rec.displayLabel == "Unknown")
  {
    SummaryRecordsDescribe(table, labels, nTerms, nExamples, fit);
  }

  /** No doc of the table contains a line break. */
  predicate SingleLineDocs(rows: seq<Row>)
  {
    forall j :: 0 <= j < |rows| ==> '\n' !in rows[j].doc
  }

  /** Splitting the "Examples" field at "\n---\n" gives back the first
      `min(n_examples, count)` docs of the cluster in table order, provided
      the docs are single lines and at least one example is asked for. */
  lemma SummaryExamples(table: Table, labels: map<int, string>,
                        nTerms: int, nExamples: int, fit: Vectorizer, k: nat)
    requires GenerateClusterSummary(table, labels, nTerms, nExamples, fit).Some?
    requires k < |GenerateClusterSummary(table, labels, nTerms, nExamples, fit).value|
    requires nExamples >= 1 && SingleLineDocs(table.rows)
    ensures var rec := GenerateClusterSummary(table, labels, nTerms, nExamples, fit).value[k];
            var examples := Split(rec.examples, ExampleSeparator);
            && examples == Head(ClusterDocs(table.rows, rec.clusterId), nExamples)
            && |examples| == Min(nExamples, rec.numReviews)
            && examples <= ClusterDocs(table.rows, rec.clusterId)
  {
    SummaryRecordsDescribe(table, labels, nTerms, nExamples, fit);
    var rec := GenerateClusterSummary(table, labels, nTerms, nExamples, fit).value[k];
    var sel := Select(table.rows, rec.clusterId);
    var docs := ClusterDocs(table.rows, rec.clusterId);
    var shown := Head(docs, nExamples);
    SelectedFromTable(table.rows, rec.clusterId);
    assert FreeOfSeparator(shown, ExampleSeparator) by {
      forall j | 0 <= j < |shown|
        ensures ExampleSeparator[0] !in shown[j]
      {
        assert shown[j] == docs[j] == sel[j].doc;
        assert sel[j] in table.rows;
      }
    }
    SplitJoin(shown, ExampleSeparator);
  }

  /** With the default `n_examples=3` a record joins the first three docs of
      its cluster, or all of them when it has fewer; for single-line docs the
      field splits back into exactly those docs. */
  lemma DefaultExamples(table: Table, labels: map<int, string>, fit: Vectorizer, k: nat)
    requires GenerateClusterSummary(table, labels, fit := fit).Some?
    requires k < |GenerateClusterSummary(table, labels, fit := fit).value|
    ensures var rec := GenerateClusterSummary(table, labels, fit := fit).value[k];
            var shown := Head(ClusterDocs(table.rows, rec.clusterId), 3);
            && rec.examples == Join(shown, ExampleSeparator)
            && |shown| == Min(3, rec.numReviews)
            && shown <= ClusterDocs(table.rows, rec.clusterId)
            && (SingleLineDocs(table.rows) ==> Split(rec.examples, ExampleSeparator) == shown)
  {
    SummaryRecordsDescribe(table, labels, 10, 3, fit);
    if SingleLineDocs(table.rows) {
      SummaryExamples(table, labels, 10, 3, fit, k);
    }
  }

  /** Splitting the "Top Terms" field of a record at ", " gives back the
      extracted term list, provided it is non-empty and no term holds a
      comma. Every record of the summary qualifies, by
      `SummaryRecordsDescribe`. */
  lemma RecordTopTerms(rec: ClusterRecord, table: Table, labels: map<int, string>,
                       nTerms: int, nExamples: int, fit: Vectorizer)
    requires Describes(rec, table, labels, nTerms, nExamples, fit)
    ensures var terms := GetTopTerms(ClusterDocs(table.rows, rec.clusterId), nTerms, fit);
            && terms.Some?
            && (|terms.value| > 0 && FreeOfSeparator(terms.value, TermSeparator) ==>
                  Split(rec.topTerms, TermSeparator) == terms.value)
  {
    var terms := GetTopTerms(ClusterDocs(table.rows, rec.clusterId), nTerms, fit);
    if |terms.value| > 0 && FreeOfSeparator(terms.value, TermSeparator) {
      SplitJoin(terms.value, TermSeparator);
    }
  }

  /** Two tables that agree on every row's cluster id and doc, whatever their
      verified flags. */
  predicate SameButFlags(a: seq<Row>, b: seq<Row>)
  {
    |a| == |b| && forall j :: 0 <= j < |a| ==> a[j].cluster == b[j].cluster && a[j].doc == b[j].doc
  }

  /** Without the column the per-row flags are never read: tables that differ
      only in their flags have the same summary. */
  lemma FlagsIgnoredWithoutColumn(a: seq<Row>, b: seq<Row>, labels: map<int, string>,
                                  nTerms: int, nExamples: int, fit: Vectorizer)
    requires SameButFlags(a, b)
    ensures GenerateClusterSummary(Table(a, false), labels, nTerms, nExamples, fit)
         == GenerateClusterSummary(Table(b, false), labels, nTerms, nExamples, fit)
  {
    ClusterIdsIgnoreFlags(a, b);
    forall id
      ensures ClusterDocs(a, id) == ClusterDocs(b, id)
      ensures Count(a, id) == Count(b, id)
    {
      DocsIgnoreFlags(a, b, id);
    }
    var ids := ClusterIds(a);
    KeptIgnoresFlags(ids, a, b);
    RecordsForIgnoresFlags(KeptIds(ids, a), a, b, labels, nTerms, nExamples, fit);
  }

  lemma {:induction false} ClusterIdsIgnoreFlags(a: seq<Row>, b: seq<Row>)
    requires SameButFlags(a, b)
    ensures ClusterIds(a) == ClusterIds(b)
  {
    if |a| > 0 {
      assert a[0].cluster == b[0].cluster;
      assert SameButFlags(a[1..], b[1..]);
      ClusterIdsIgnoreFlags(a[1..], b[1..]);
    }
  }

  lemma {:induction false} DocsIgnoreFlags(a: seq<Row>, b: seq<Row>, id: int)
    requires SameButFlags(a, b)
    ensures ClusterDocs(a, id) == ClusterDocs(b, id)
    ensures Count(a, id) == Count(b, id)
  {
    if |a| > 0 {
      assert a[0].cluster == b[0].cluster && a[0].doc == b[0].doc;
      assert SameButFlags(a[1..], b[1..]);
      DocsIgnoreFlags(a[1..], b[1..], id);
      var headA := if a[0].cluster == id then [a[0]] else [];
      var headB := if b[0].cluster == id then [b[0]] else [];
      DocsAppend(headA, Select(a[1..], id));
      DocsAppend(headB, Select(b[1..], id));
    }
  }

  lemma DocsAppend(a: seq<Row>, b: seq<Row>)
    ensures Docs(a + b) == Docs(a) + Docs(b)
  {
  }

  lemma {:induction false} KeptIgnoresFlags(ids: seq<int>, a: seq<Row>, b: seq<Row>)
    requires forall id :: Count(a, id) == Count(b, id)
    ensures KeptIds(ids, a) == KeptIds(ids, b)
    decreases |ids|
  {
    if |ids| > 0 {
      KeptIgnoresFlags(ids[1..], a, b);
    }
  }

  lemma {:induction false} RecordsForIgnoresFlags(kept: seq<int>, a: seq<Row>, b: seq<Row>,
                                                  labels: map<int, string>,
                                                  nTerms: int, nExamples: int, fit: Vectorizer)
    requires forall id :: ClusterDocs(a, id) == ClusterDocs(b, id)
    requires forall id :: Count(a, id) == Count(b, id)
    ensures RecordsFor(kept, Table(a, false), labels, nTerms, nExamples, fit)
         == RecordsFor(kept, Table(b, false), labels, nTerms, nExamples, fit)
    decreases |kept|
  {
    if |kept| > 0 {
      RecordsForIgnoresFlags(kept[1..], a, b, labels, nTerms, nExamples, fit);
      assert |Select(a, kept[0])| == |Select(b, kept[0])|;
      assert SummarizeCluster(Table(a, false), kept[0], labels, nTerms, nExamples, fit)
          == SummarizeCluster(Table(b, false), kept[0], labels, nTerms, nExamples, fit);
    }
  }
}
