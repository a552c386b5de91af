/**
 * The JavaScript string operations the deep-link handler is built from:
 * `String.prototype.includes`, `indexOf` and `split` with a non-empty
 * separator, over strings as sequences of Unicode characters (`char`).
 */
module JsString {
  import opened Wrappers

  /** `p` occurs in `s` starting at index `i`. */
  predicate OccursAt(s: string, p: string, i: int)
  {
    0 <= i && i + |p| <= |s| && s[i..i + |p|] == p
  }

  /** `p` is a substring of `s`: the meaning of `s.includes(p)`. */
  ghost predicate Contains(s: string, p: string)
  {
    exists i :: OccursAt(s, p, i)
  }

  /** `i` is the leftmost occurrence of `p` in `s`. */
  ghost predicate FirstOccurrence(s: string, p: string, i: int)
  {
    OccursAt(s, p, i) && forall j :: 0 <= j < i ==> !OccursAt(s, p, j)
  }

  /** There is only one leftmost occurrence. */
  lemma FirstOccurrenceUnique(s: string, p: string, i: int, j: int)
    requires FirstOccurrence(s, p, i) && FirstOccurrence(s, p, j)
    ensures i == j
  {
  }

  /** No occurrence of `p` starts where the first two characters of `p` are
      not both matched. */
  lemma NoOccurrenceIn(s: string, p: string, lo: int, hi: int)
    requires |p| >= 2
    requires forall j :: lo <= j < hi && 0 <= j && j + 1 < |s| ==> s[j] != p[0] || s[j + 1] != p[1]
    ensures forall j :: lo <= j < hi ==> !OccursAt(s, p, j)
  {
    forall j | lo <= j < hi
      ensures !OccursAt(s, p, j)
    {
      if 0 <= j && j + |p| <= |s| {
        assert s[j..j + |p|][0] == s[j] && s[j..j + |p|][1] == s[j + 1];
      }
    }
  }

  /** The search `split` performs: the leftmost occurrence of `p` at or
      after index `from`. */
  function IndexFrom(s: string, p: string, from: nat): (r: Option<nat>)
    decreases |s| + 1 - from
    ensures r.Some? ==> from <= r.value && OccursAt(s, p, r.value)
    ensures forall j :: from <= j && (r.None? || j < r.value) ==> !OccursAt(s, p, j)
  {
    if from + |p| > |s| then None
    else if s[from..from + |p|] == p then Some(from)
    else IndexFrom(s, p, from + 1)
  }

  /** `s.indexOf(p)`, with `None` for JavaScript's -1. */
  function IndexOf(s: string, p: string): (r: Option<nat>)
    ensures r.Some? <==> Contains(s, p)
    ensures r.Some? ==> FirstOccurrence(s, p, r.value)
  {
    IndexFrom(s, p, 0)
  }

  /** `s.includes(p)`. */
  predicate Includes(s: string, p: string)
    ensures Includes(s, p) <==> Contains(s, p)
  {
    IndexOf(s, p).Some?
  }

  /** Index `i + j` of `s` is index `j` of `s[i..]`. */
  lemma OccursInSuffix(s: string, p: string, i: nat, j: int)
    requires i <= |s| && 0 <= j
    ensures OccursAt(s[i..], p, j) <==> OccursAt(s, p, i + j)
  {
  }

  /** An occurrence inside a prefix of `s` is an occurrence in `s`. */
  lemma OccursInPrefix(s: string, p: string, n: nat, j: int)
    requires n <= |s| && OccursAt(s[..n], p, j)
    ensures OccursAt(s, p, j) && j + |p| <= n
  {
  }

  /** A one-character string occurs exactly where that character stands. */
  lemma ContainsChar(s: string, c: char)
    ensures Contains(s, [c]) <==> c in s
  {
    if c in s {
      var k :| 0 <= k < |s| && s[k] == c;
      assert s[k..k + 1] == [c];
      assert OccursAt(s, [c], k);
    }
    if Contains(s, [c]) {
      var j :| OccursAt(s, [c], j);
      assert s[j] == s[j..j + 1][0];
    }
  }

  /** A prefix of a string free of `p` is free of `p`. */
  lemma PrefixOfFree(s: string, t: string, p: string)
    requires t <= s && !Contains(s, p)
    ensures !Contains(t, p)
  {
    if Contains(t, p) {
      var j :| OccursAt(t, p, j);
      assert t == s[..|t|];
      OccursInPrefix(s, p, |t|, j);
      assert false;
    }
  }

  /** The text before the first occurrence of a non-empty `p` does not contain `p`. */
  lemma BeforeFirstIsFree(s: string, p: string, i: nat)
    requires p != [] && FirstOccurrence(s, p, i)
    ensures !Contains(s[..i], p)
  {
    if Contains(s[..i], p) {
      var j :| OccursAt(s[..i], p, j);
      OccursInPrefix(s, p, i, j);
      assert false;
    }
  }

  /** `s.split(sep)` for a non-empty `sep`: the pieces between successive
      non-overlapping occurrences of `sep`, scanning from the left. */
  function Split(s: string, sep: string): (pieces: seq<string>)
    requires sep != []
    decreases |s|
    ensures |pieces| >= 1
    ensures |pieces| > 1 <==> Contains(s, sep)
    ensures forall k :: 0 <= k < |pieces| ==> !Contains(pieces[k], sep)
  {
    match IndexOf(s, sep)
    case None => [s]
    case Some(i) =>
      BeforeFirstIsFree(s, sep, i);
      [s[..i]] + Split(s[i + |sep|..], sep)
  }

  /** `pieces.join(sep)`: the inverse of `Split`. */
  function Join(pieces: seq<string>, sep: string): string
    requires |pieces| >= 1
  {
    if |pieces| == 1 then pieces[0] else pieces[0] + sep + Join(pieces[1..], sep)
  }

  /** Splitting loses nothing: joining the pieces back gives the original string. */
  lemma {:induction false} JoinSplit(s: string, sep: string)
    requires sep != []
    decreases |s|
    ensures Join(Split(s, sep), sep) == s
  {
    match IndexOf(s, sep)
    case None =>
    case Some(i) =>
      var rest := s[i + |sep|..];
      JoinSplit(rest, sep);
      assert Split(s, sep)[1..] == Split(rest, sep);
      assert s[i..i + |sep|] == sep;
      assert s == s[..i] + s[i..i + |sep|] + rest;
  }

  /** The first piece of `s.split(sep)` is the text before the first
      occurrence of `sep`, or all of `s` when there is none. */
  lemma SplitHead(s: string, sep: string)
    requires sep != []
    ensures IndexOf(s, sep).None? ==> Split(s, sep)[0] == s
    ensures IndexOf(s, sep).Some? ==> Split(s, sep)[0] == s[..IndexOf(s, sep).value]
  {
  }

  /** The first piece of `s.split(sep)` ends at the end of `s` or at an
      occurrence of `sep`, and no occurrence of `sep` starts inside it. */
  lemma SplitHeadStops(s: string, sep: string)
    requires sep != []
    ensures var n := |Split(s, sep)[0]|;
      n <= |s| && Split(s, sep)[0] == s[..n] &&
      (n == |s| || OccursAt(s, sep, n)) &&
      forall j :: 0 <= j < n ==> !OccursAt(s, sep, j)
  {
  }

  /** The second piece of `s.split(sep)` is the first piece of what follows
      the first occurrence of `sep`. */
  lemma SplitSecond(s: string, sep: string, i: nat)
    requires sep != [] && FirstOccurrence(s, sep, i)
    ensures |Split(s, sep)| > 1 && Split(s, sep)[1] == Split(s[i + |sep|..], sep)[0]
  {
  }
}
