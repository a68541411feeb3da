/**
 The outer skeleton of `get_top_terms`: the empty-input guard, the ranking of
 (term, score) pairs by descending score, and the truncation to `n_terms`.
 Fitting the TF-IDF vectoriser is left abstract: a `Vectorizer` stands for the
 library call that yields the vocabulary with each term's mean weight.
 */
module TopTerms {
  import opened Wrappers
  import opened Sequences

  /** A vocabulary term with its mean TF-IDF weight over the documents. */
  datatype TermScore = TermScore(term: string, score: real)

  /** The fitted vectoriser applied to a non-empty list of documents: the
      vocabulary zipped with the mean weights, in the library's feature order,
      or `None` when the library raises (for instance, when no term survives
      stop-word filtering and the vocabulary would be empty). */
  type Vectorizer = seq<string> -> Option<seq<TermScore>>

  /** Scores never increase from left to right. */
  predicate SortedDesc(s: seq<TermScore>)
  {
    forall i, j :: 0 <= i < j < |s| ==> s[i].score >= s[j].score
  }

  /** Inserts `x` into a descending list ahead of every entry whose score does
      not exceed its own, so that an earlier equal-score entry stays ahead of
      later ones. */
  function Insert(x: TermScore, s: seq<TermScore>): (r: seq<TermScore>)
    requires SortedDesc(s)
    ensures SortedDesc(r)
    ensures multiset(r) == multiset(s) + multiset{x}
  {
    if |s| == 0 || s[0].score <= x.score then [x] + s
    else
      var tail := Insert(x, s[1..]);
      assert s == [s[0]] + s[1..];
      assert forall k :: 0 <= k < |tail| ==> tail[k].score <= s[0].score by {
        forall k | 0 <= k < |tail|
          ensures tail[k].score <= s[0].score
        {
          assert tail[k] in multiset(tail);
          if tail[k] != x {
            assert tail[k] in multiset(s[1..]);
            var j :| 0 <= j < |s[1..]| && s[1..][j] == tail[k];
            assert s[j + 1] == tail[k];
          }
        }
      }
      [s[0]] + tail
  }

  /** `sorted(pairs, key=score, reverse=True)`: the same pairs, best first. */
  function SortDesc(pairs: seq<TermScore>): (r: seq<TermScore>)
    ensures SortedDesc(r)
    ensures multiset(r) == multiset(pairs)
  {
    if |pairs| == 0 then []
    else
      assert pairs == [pairs[0]] + pairs[1..];
      Insert(pairs[0], SortDesc(pairs[1..]))
  }

  /** `sorted(...)[:n_terms]`: the best `n` pairs (Python slice semantics).
      Its properties are stated by `TopPairsRanked`. */
  function TopPairs(pairs: seq<TermScore>, n: int): seq<TermScore>
  {
    Head(SortDesc(pairs), n)
  }

  /** The kept pairs are the best of the input: best first, drawn from the
      input, as many as the slice keeps, and no dropped pair outscores a kept
      one. */
  lemma TopPairsRanked(pairs: seq<TermScore>, n: int)
    ensures var r := TopPairs(pairs, n);
            && SortedDesc(r)
            && multiset(r) <= multiset(pairs)
            && (n >= 0 ==> |r| == Min(n, |pairs|))
            && (n < 0 ==> |r| == Max(0, |pairs| + n))
            && forall x, y :: x in r && y in multiset(pairs) - multiset(r) ==> y.score <= x.score
  {
    var sorted := SortDesc(pairs);
    var r := TopPairs(pairs, n);
    assert r == sorted[..|r|];
    TopAreBest(sorted, |r|);
  }

  /** In a descending list every kept entry scores at least as high as every
      dropped one. */
  lemma TopAreBest(sorted: seq<TermScore>, k: nat)
    requires SortedDesc(sorted) && k <= |sorted|
    ensures SortedDesc(sorted[..k])
    ensures multiset(sorted[..k]) <= multiset(sorted)
    ensures multiset(sorted) - multiset(sorted[..k]) == multiset(sorted[k..])
    ensures forall x, y :: x in sorted[..k] && y in multiset(sorted[k..]) ==> y.score <= x.score
  {
    assert sorted == sorted[..k] + sorted[k..];
    assert multiset(sorted) == multiset(sorted[..k]) + multiset(sorted[k..]);
    forall x, y | x in sorted[..k] && y in multiset(sorted[k..])
      ensures y.score <= x.score
    {
      var i :| 0 <= i < k && sorted[..k][i] == x;
      assert y in sorted[k..];
      var j :| 0 <= j < |sorted| - k && sorted[k..][j] == y;
      assert sorted[i] == x && sorted[k + j] == y;
    }
  }

  /** The terms of a list of pairs, in order. */
  function Terms(pairs: seq<TermScore>): (r: seq<string>)
    ensures |r| == |pairs|
    ensures forall k :: 0 <= k < |r| ==> r[k] == pairs[k].term
  {
    seq(|pairs|, k requires 0 <= k < |pairs| => pairs[k].term)
  }

  /** The vocabulary a vectoriser produced. */
  function Vocabulary(pairs: seq<TermScore>): set<string>
  {
    set k | 0 <= k < |pairs| :: pairs[k].term
  }

  /** Terms of a sub-multiset of the pairs belong to their vocabulary. */
  lemma TermsInVocabulary(top: seq<TermScore>, pairs: seq<TermScore>)
    requires multiset(top) <= multiset(pairs)
    ensures forall k :: 0 <= k < |top| ==> Terms(top)[k] in Vocabulary(pairs)
  {
    forall k | 0 <= k < |top|
      ensures Terms(top)[k] in Vocabulary(pairs)
    {
      assert top[k] in multiset(pairs);
      var j :| 0 <= j < |pairs| && pairs[j] == top[k];
      assert pairs[j].term == Terms(top)[k];
    }
  }

  /** `get_top_terms(texts, n_terms)`. An empty text list yields no terms
      whatever the vectoriser would do, so no fit is attempted; otherwise the
      result fails exactly when fitting fails. */
  function GetTopTerms(texts: seq<string>, nTerms: int := 10, fit: Vectorizer): (r: Option<seq<string>>)
    ensures |texts| == 0 ==> r == Some([])
    ensures |texts| > 0 ==> (r.Some? <==> fit(texts).Some?)
  {
    if |texts| == 0 then Some([])
    else
      match fit(texts)
      case None => None
      case Some(pairs) => Some(Terms(TopPairs(pairs, nTerms)))
  }

  /** On a successful fit the result has `min(n_terms, vocabulary size)`
      terms (Python slice semantics for a negative `n_terms`), every one of
      them from the vocabulary. */
  lemma TopTermsShape(texts: seq<string>, nTerms: int, fit: Vectorizer)
    requires |texts| > 0 && fit(texts).Some?
    ensures var r := GetTopTerms(texts, nTerms, fit);
            var pairs := fit(texts).value;
            && r.Some?
            && (nTerms >= 0 ==> |r.value| == Min(nTerms, |pairs|))
            && (nTerms < 0 ==> |r.value| == Max(0, |pairs| + nTerms))
            && forall k :: 0 <= k < |r.value| ==> r.value[k] in Vocabulary(pairs)
  {
    var pairs := fit(texts).value;
    TopPairsRanked(pairs, nTerms);
    TermsInVocabulary(TopPairs(pairs, nTerms), pairs);
  }

  /** The returned terms are the terms of a best-first selection of the
      vectoriser's pairs: scores never increase along the list, the selection
      is drawn from the vocabulary, and no pair left out outscores a pair
      kept. */
  lemma TopTermsRanked(texts: seq<string>, nTerms: int, fit: Vectorizer)
    requires |texts| > 0 && fit(texts).Some?
    ensures GetTopTerms(texts, nTerms, fit).Some?
    ensures var pairs := fit(texts).value;
            var top := TopPairs(pairs, nTerms);
            && GetTopTerms(texts, nTerms, fit).value == Terms(top)
            && SortedDesc(top)
            && multiset(top) <= multiset(pairs)
            && forall x, y :: x in top && y in multiset(pairs) - multiset(top) ==> y.score <= x.score
  {
    TopPairsRanked(fit(texts).value, nTerms);
  }

  /** With the default `n_terms=10` there are at most ten terms, and exactly
      ten once the vocabulary has that many. */
  lemma DefaultTermLimit(texts: seq<string>, fit: Vectorizer)
    ensures var r := GetTopTerms(texts, fit := fit);
            && (r.Some? ==> |r.value| <= 10)
            && (|texts| > 0 && fit(texts).Some? && |fit(texts).value| >= 10 ==> |r.value| == 10)
  {
    if |texts| > 0 && fit(texts).Some? {
      TopTermsShape(texts, 10, fit);
    }
  }
}
