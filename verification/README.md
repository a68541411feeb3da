# Cluster summary model

A Dafny model of the cluster-summary reporting step of a review
topic-analysis project (`src/summary_utils.py`). The input is a table of
documents (reviews) that already carry a cluster id. For each distinct id, in ascending
order, the program builds one summary record:

- the display label, taken from a label map, or "Unknown";
- the top TF-IDF terms, joined with `", "`;
- the number of reviews;
- the share of verified purchases, or the sentinel "NA" when the table has
  no `verified_purchase` column;
- the first few reviews, joined with `"\n---\n"`.

Files and modules:

- `wrappers.dfy` (`Wrappers`): `Option`. Here `None` means that the Python
  code raised.
- `sequences.dfy` (`Sequences`): Python's `s[:n]` slice, which pandas'
  `head(n)` mirrors, including negative `n`; `sep.join(parts)`; and
  `s.split(sep)` as the inverse of the join.
- `top_terms.dfy` (`TopTerms`): the skeleton of `get_top_terms`. The TF-IDF
  fit is a parameter `fit: Vectorizer`. It maps a document list to the
  scored vocabulary, or to `None` when the library raises. The model covers
  the empty-input guard, the descending sort and the truncation.
- `summary.dfy` (`Summary`): the table (`Row`, `Table`) and the record
  (`ClusterRecord`, `VerifiedRatio`). The loop of `generate_cluster_summary`
  is modelled in steps: `ClusterIds` collects the ids, `KeptIds` skips empty
  selections, `SummarizeCluster` is the loop body, and `RecordsFor` builds the
  record list. The lemmas `Summary*` state the summary's guarantees.
- `summary_properties.dfy` (`SummaryProperties`): consequences for callers:
  - selection keeps table order;
  - the ratio is a fraction in [0, 1], or "NA";
  - the joined fields decode back to their lists;
  - the per-row flags matter only when the column is present.

The verified ratio is kept as the exact fraction `Ratio(verified, reviews)`.
`RatioValue` gives its value as a real.

When a cluster's docs leave no vocabulary term (all stop words), the
vectoriser raises. `get_top_terms` does not catch it, so the whole summary
call raises. In the model, `fit` returns `None`, and so do `GetTopTerms` and
`GenerateClusterSummary` (`Summary.SummarySucceeds`).

The default arguments `n_terms=10` and `n_examples=3` are Dafny default
parameter values of `GetTopTerms` and `GenerateClusterSummary`.

## Model

| member | source | states |
|---|---|---|
| Sequences.Head | src/summary_utils.py:38 | `head(n)` / `[:n]` returns a prefix of the input. Its length is `min(n, len)` for `n >= 0`, and `len + n` (at least 0) for negative `n`. |
| Sequences.SplitJoin | src/summary_utils.py:43-46 | Splitting a joined list at the separator gives the list back, when it is non-empty and no part holds the separator's first character. |
| Sequences.JoinLength | src/summary_utils.py:43-46 | A joined string is as long as its parts plus one separator between each pair of neighbours. |
| TopTerms.Insert | src/summary_utils.py:15 | Inserting into a non-increasing list keeps it non-increasing and adds exactly that one pair. |
| TopTerms.SortDesc | src/summary_utils.py:15 | `sorted(..., key=score, reverse=True)` returns a permutation of the pairs in non-increasing score order. |
| TopTerms.TopPairsRanked | src/summary_utils.py:15 | `sorted(...)[:n_terms]` keeps pairs in non-increasing score order, drawn from the input (a sub-multiset), `min(n_terms, vocabulary)` of them (Python slice rule for negative `n_terms`). No dropped pair outscores a kept one. |
| TopTerms.GetTopTerms | src/summary_utils.py:6-16 | Empty input gives `[]` whatever the vectoriser, so no fit is attempted. Otherwise the call fails exactly when the fit raises. |
| TopTerms.TopTermsShape | src/summary_utils.py:13-16 | After a successful fit there are exactly `min(n_terms, vocabulary size)` terms, and each one is a vocabulary term. |
| TopTerms.TopTermsRanked | src/summary_utils.py:13-16 | The returned terms are those of a non-increasing, sub-multiset selection of the scored vocabulary. Every left-out pair scores no higher than every kept one. |
| TopTerms.DefaultTermLimit | src/summary_utils.py:6 | With the default `n_terms=10` there are at most ten terms, and exactly ten when the fitted vocabulary has at least ten. |
| TopTerms.TermsInVocabulary | src/summary_utils.py:16 | Every term taken from the selected pairs is in the vectoriser's vocabulary. |
| Summary.Select | src/summary_utils.py:30 | `df[df.cluster == id]` has exactly as many rows as carry the id, and every selected row carries it. |
| Summary.SelectedFromTable | src/summary_utils.py:30 | Every selected row is a row of the table. |
| Summary.RatioValue | src/summary_utils.py:35 | A ratio with at least one review and no more verified rows than reviews lies in [0, 1]. |
| Summary.VerifiedOfSelection | src/summary_utils.py:35 | The verified rows of the selection are the verified rows carrying the id, and there are no more of them than rows carrying the id. |
| Summary.SummarizeCluster | src/summary_utils.py:34-47 | The record for one id exists exactly when term extraction for the id's docs does not raise, and it carries that id. |
| Summary.SummarizeClusterDescribes | src/summary_utils.py:34-47 | The record of a non-empty cluster has the count, ratio ("NA" without the column), label default, joined terms and joined first examples of that cluster. |
| Summary.InsertSorted | src/summary_utils.py:29 | Adding an id to an ascending duplicate-free list keeps it ascending and adds just that id. |
| Summary.ClusterIds | src/summary_utils.py:29 | `sorted(df.cluster.unique())` is strictly ascending and holds exactly the ids that occur in the table. |
| Summary.KeptIdsMembers | src/summary_utils.py:31-32 | The `if cluster_df.empty: continue` step keeps exactly the listed ids that have at least one row. |
| Summary.RecordsFor | src/summary_utils.py:29-47 | The loop yields one record per kept id, in the same order and with the same ids. |
| Summary.RecordsForSucceeds | src/summary_utils.py:37 | The loop yields records exactly when term extraction succeeds for every kept id. |
| Summary.NoClusterSkipped | src/summary_utils.py:29-32 | Every id drawn from the table has rows, so the empty-selection branch never skips one. |
| Summary.CountPositive | src/summary_utils.py:29-31 | An id has at least one row exactly when it occurs in the table. |
| Summary.CountsAddUp | src/summary_utils.py:30-34 | Over strictly ascending ids covering every cluster, the per-id counts add up to the number of rows. |
| Summary.SummarySucceeds | src/summary_utils.py:29-37 | The summary is produced exactly when term extraction succeeds for every cluster id of the table. |
| Summary.SummaryOnePerCluster | src/summary_utils.py:29-34 | There is one record per distinct cluster id, with ids strictly ascending and as many records as distinct ids. "Num Reviews" sums to the table length. |
| Summary.SummaryRecordsDescribe | src/summary_utils.py:34-47 | Every record's count is the id's row count (at least 1). Its ratio is verified/count, or "NA"; its label falls back to "Unknown"; its terms and examples are the joined lists. |
| SummaryProperties.SelectAppend | src/summary_utils.py:30 | Selection over two consecutive stretches of the table selects from each in turn, so table order is kept. |
| SummaryProperties.FirstSelectedRow | src/summary_utils.py:38 | The first selected row, and so the first example, is the first row of the table that carries the id. |
| SummaryProperties.NoneSelected | src/summary_utils.py:30 | A stretch with no row of the id contributes nothing to the selection. |
| SummaryProperties.SummaryRatio | src/summary_utils.py:35-45 | Without the column the ratio is "NA". With it, the ratio is (verified rows of the id)/(rows of the id), with a positive denominator and a value in [0, 1]. |
| SummaryProperties.SummaryLabel | src/summary_utils.py:36 | A record's label is `cluster_labels[id]` when the id is a key, and "Unknown" otherwise. |
| SummaryProperties.SummaryExamples | src/summary_utils.py:38-46 | Splitting "Examples" at `"\n---\n"` gives the cluster's first `min(n_examples, count)` docs in table order, a prefix of its docs. |
| SummaryProperties.DefaultExamples | src/summary_utils.py:18-46 | With the default `n_examples=3`, "Examples" is the `"\n---\n"` join of the cluster's first `min(3, count)` docs in table order. For single-line docs it splits back into exactly those docs. |
| SummaryProperties.RecordTopTerms | src/summary_utils.py:37-43 | For a record that describes its cluster, as every summary record does, term extraction for that cluster succeeded. Splitting "Top Terms" at `", "` gives the extracted term list back. |
| SummaryProperties.FlagsIgnoredWithoutColumn | src/summary_utils.py:35 | Without the `verified_purchase` column the per-row flags are never read: two tables that agree on every row's id and doc have the same summary. |

## Left out

- TF-IDF fitting: tokenisation, the English stop-word list, bigrams, the
  1000-feature cap, idf weighting and the column mean
  (src/summary_utils.py:11-14). This is a call into scikit-learn that computes
  floats. It is the `fit` parameter, and its scores are reals.
- TopTerms.TopPairsRanked: the order among equal scores is not stated. `Insert`
  places an earlier pair ahead of later pairs with the same score, as Python's
  stable `sorted(..., reverse=True)` does. But the scikit-learn vocabulary
  order that decides ties is not modelled, so only non-increasing order is
  proved.
- SummaryProperties.SummaryRatio: `round(ratio, 2)` is float rounding and is
  not modelled. The exact fraction is kept instead.
- Per-row missing values in `verified_purchase`, which pandas' `mean` skips,
  are not modelled. Each row's flag is a plain boolean.
- Per-row missing docs (NaN) are not modelled: `doc` is a plain string. In the
  program a NaN doc reaches `tfidf.fit_transform` (src/summary_utils.py:12,
  37), where scikit-learn raises on it. Nothing catches the error, so the
  summary call raises.
- SummaryProperties.SummaryExamples: the round trip is stated only for
  single-line docs and `n_examples >= 1`. A doc containing the separator
  cannot be recovered from the joined text.
- SummaryProperties.RecordTopTerms: the round trip is stated only for a
  non-empty term list without commas. Scikit-learn's default tokens and
  bigrams have no commas.
- The missing-column error for `cluster` or `doc`: typed rows always have both
  fields, so this error cannot arise in the model.
- Cluster ids are integers. String ids, which Python's built-in `sorted`
  orders lexicographically over the array `unique()` returns, are not
  modelled. Float ids and missing ids are not modelled either. A missing id
  (NaN, or None/NaT when it is the column's only value) is the one kind of
  input for which `if cluster_df.empty: continue` (src/summary_utils.py:31)
  fires, because pandas compares a column with a missing value as all-false,
  so `df["cluster"] == <missing>` selects no row. Those rows would then drop
  out, and "Num Reviews" would no longer sum to the row count. With integer
  ids this cannot happen, which is why `Summary.NoClusterSkipped` holds.
- Building the pandas DataFrame from the record list (src/summary_utils.py:49)
  is not modelled. The model returns the record sequence itself.
- `save_summary` (src/summary_utils.py:52-55) is not modelled: it writes a CSV
  file and prints.
