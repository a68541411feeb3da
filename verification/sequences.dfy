/**
 Python's sequence and string helpers that the summary relies on: the prefix
 slice `s[:n]` (which pandas' `head(n)` mirrors), `sep.join(parts)` and, as the
 inverse of the join, `s.split(sep)`.
 */
module Sequences {
  import opened Wrappers

  function Min(a: int, b: int): int { if a <= b then a else b }

  function Max(a: int, b: int): int { if a >= b then a else b }

  /** `s[:n]` in Python, and `head(n)` on a pandas Series: the first `n` items
      when `n` is non-negative, and every item but the last `-n` when `n` is
      negative; a bound past either end is clamped. */
  function Head<T>(s: seq<T>, n: int): (r: seq<T>)
    ensures r <= s
    ensures n >= 0 ==> |r| == Min(n, |s|)
    ensures n < 0 ==> |r| == Max(0, |s| + n)
  {
    if n >= 0 then
      if n <= |s| then s[..n] else s
    else
      if |s| + n >= 0 then s[..|s| + n] else []
  }

  /** `sep.join(parts)`: the parts in order with `sep` between neighbours. */
  function Join(parts: seq<string>, sep: string): string
  {
    if |parts| == 0 then ""
    else if |parts| == 1 then parts[0]
    else parts[0] + sep + Join(parts[1..], sep)
  }

  /** `sep` occurs in `s` starting at index `i`. */
  predicate OccursAt(s: string, sep: string, i: int)
  {
    0 <= i && i + |sep| <= |s| && s[i..i + |sep|] == sep
  }

  /** The leftmost index at which `sep` occurs in `s`, if any (`s.find(sep)`). */
  function FirstOccurrence(s: string, sep: string): (r: Option<nat>)
    requires |sep| > 0
    ensures r.Some? ==> OccursAt(s, sep, r.value)
    ensures r.Some? ==> forall j :: 0 <= j < r.value ==> !OccursAt(s, sep, j)
    ensures r.None? ==> forall j :: !OccursAt(s, sep, j)
    decreases |s|
  {
    if |s| < |sep| then None
    else if s[..|sep|] == sep then Some(0)
    else
      ShiftedOccurrence(s, sep);
      match FirstOccurrence(s[1..], sep)
      case None => None
      case Some(i) => Some(i + 1)
  }

  /** Occurrences in `s[1..]` are the occurrences in `s` moved one to the left. */
  lemma ShiftedOccurrence(s: string, sep: string)
    requires |s| > 0
    ensures forall j :: 0 <= j ==> (OccursAt(s[1..], sep, j) <==> OccursAt(s, sep, j + 1))
    ensures forall j :: 1 <= j ==> (OccursAt(s, sep, j) <==> OccursAt(s[1..], sep, j - 1))
  {
  }

  /** `s.split(sep)` in Python: the pieces between leftmost, non-overlapping
      occurrences of `sep`; a string without `sep` is one piece. */
  function Split(s: string, sep: string): (r: seq<string>)
    requires |sep| > 0
    ensures |r| >= 1
    decreases |s|
  {
    match FirstOccurrence(s, sep)
    case None => [s]
    case Some(i) => [s[..i]] + Split(s[i + |sep|..], sep)
  }

  /** No part contains the separator's first character, so no occurrence of
      the separator can start inside a part or straddle a part boundary. */
  predicate FreeOfSeparator(parts: seq<string>, sep: string)
    requires |sep| > 0
  {
    forall k :: 0 <= k < |parts| ==> sep[0] !in parts[k]
  }

  /** A string that lacks the separator's first character does not contain it. */
  lemma NoOccurrenceWithoutLead(s: string, sep: string)
    requires |sep| > 0 && sep[0] !in s
    ensures FirstOccurrence(s, sep) == None
  {
  }

  /** Splitting a joined list gives the list back, provided the parts are free
      of the separator; this makes the joined "Top Terms" and "Examples" fields
      faithful encodings of the lists they were made from. */
  lemma {:induction false} SplitJoin(parts: seq<string>, sep: string)
    requires |sep| > 0 && |parts| > 0
    requires FreeOfSeparator(parts, sep)
    ensures Split(Join(parts, sep), sep) == parts
    decreases |parts|
  {
    if |parts| == 1 {
      NoOccurrenceWithoutLead(parts[0], sep);
    } else {
      var p, rest := parts[0], Join(parts[1..], sep);
      var s := p + sep + rest;
      assert s == Join(parts, sep);
      assert s[|p|..|p| + |sep|] == sep;
      assert OccursAt(s, sep, |p|);
      forall j | 0 <= j < |p|
        ensures !OccursAt(s, sep, j)
      {
        assert s[j] == p[j];
      }
      var f := FirstOccurrence(s, sep);
      assert f == Some(|p|) by {
        if f.None? {
          assert false;
        } else if f.value < |p| {
          assert false;
        } else if f.value > |p| {
          assert false;
        }
      }
      assert s[..|p|] == p;
      assert s[|p| + |sep|..] == rest;
      assert FreeOfSeparator(parts[1..], sep) by {
        forall k | 0 <= k < |parts[1..]|
          ensures sep[0] !in parts[1..][k]
        {
          assert parts[1..][k] == parts[k + 1];
        }
      }
      SplitJoin(parts[1..], sep);
      assert parts == [p] + parts[1..];
    }
  }

  /** The joined string is as long as its parts plus one separator between
      each pair of neighbours. */
  lemma {:induction false} JoinLength(parts: seq<string>, sep: string)
    requires |parts| > 0
    ensures |Join(parts, sep)| == TotalLength(parts) + (|parts| - 1) * |sep|
    decreases |parts|
  {
    if |parts| > 1 {
      JoinLength(parts[1..], sep);
    }
  }

  /** The summed length of a list of strings. */
  function TotalLength(parts: seq<string>): nat
  {
    if |parts| == 0 then 0 else |parts[0]| + TotalLength(parts[1..])
  }
}
