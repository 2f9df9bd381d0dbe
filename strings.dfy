/** Python string operations used by the core: `in` on strings, `str.split(sep)`
    and `sep.join(parts)`, over `seq<char>`. */
module Strings {
  import opened Outcomes

  /** `pat` occurs in `s` starting at index `i`. */
  predicate OccursAt(s: string, pat: string, i: int) {
    0 <= i && i + |pat| <= |s| && s[i..i + |pat|] == pat
  }

  /** Python's `pat in s`: the empty string occurs in every string. */
  predicate IsSubstring(pat: string, s: string) {
    exists i | 0 <= i <= |s| :: OccursAt(s, pat, i)
  }

  predicate StartsWith(s: string, prefix: string) {
    |prefix| <= |s| && s[..|prefix|] == prefix
  }

  predicate EndsWith(s: string, suffix: string) {
    |suffix| <= |s| && s[|s| - |suffix|..] == suffix
  }

  /** The middle part of a three-part concatenation sits at the first part's length. */
  lemma SliceOfConcat(a: string, b: string, c: string)
    ensures (a + b + c)[|a|..|a| + |b|] == b
    ensures a + b + c == a + (b + c) && [] + b + c == b + c && a + b + [] == a + b
  {
  }

  /** The leftmost occurrence of `pat` in `s` at or after index `from`. */
  function FindFrom(s: string, pat: string, from: nat): (r: Option<nat>)
    requires |pat| > 0
    ensures r.Some? ==> from <= r.value && OccursAt(s, pat, r.value)
    ensures r.Some? ==> forall j :: from <= j < r.value ==> !OccursAt(s, pat, j)
    ensures r.None? ==> forall j :: from <= j ==> !OccursAt(s, pat, j)
    decreases |s| - from
  {
    if from + |pat| > |s| then None
    else if OccursAt(s, pat, from) then Some(from)
    else FindFrom(s, pat, from + 1)
  }

  /** Python's `s.split(sep)`: cut at every leftmost, non-overlapping
      occurrence of `sep`; empty pieces are kept. */
  function Split(s: string, sep: string): (parts: seq<string>)
    requires |sep| > 0
    ensures |parts| >= 1
    decreases |s|
  {
    match FindFrom(s, sep, 0)
    case None => [s]
    case Some(i) => [s[..i]] + Split(s[i + |sep|..], sep)
  }

  /** Python's `sep.join(parts)`. */
  function Join(sep: string, parts: seq<string>): string
  {
    if |parts| == 0 then ""
    else if |parts| == 1 then parts[0]
    else parts[0] + sep + Join(sep, parts[1..])
  }

  /** An occurrence in `[c] + s` is either at its first index or one in `s`. */
  lemma SubstringCons(pat: string, c: char, s: string)
    requires |pat| > 0
    ensures IsSubstring(pat, [c] + s) <==> OccursAt([c] + s, pat, 0) || IsSubstring(pat, s)
  {
    var cs := [c] + s;
    if IsSubstring(pat, cs) && !OccursAt(cs, pat, 0) {
      var i :| 0 <= i <= |cs| && OccursAt(cs, pat, i);
      assert 1 <= i;
      forall k | 0 <= k < |pat|
        ensures s[i - 1..i - 1 + |pat|][k] == pat[k]
      {
        assert cs[i..i + |pat|][k] == pat[k];
      }
      assert s[i - 1..i - 1 + |pat|] == pat;
      assert OccursAt(s, pat, i - 1);
    }
    if IsSubstring(pat, s) {
      var i :| 0 <= i <= |s| && OccursAt(s, pat, i);
      assert cs[i + 1..i + 1 + |pat|] == s[i..i + |pat|];
      assert OccursAt(cs, pat, i + 1);
    }
  }

  /** An occurrence inside a prefix is an occurrence in the whole string. */
  lemma OccursInPrefix(s: string, pat: string, n: nat, j: int)
    requires n <= |s| && OccursAt(s[..n], pat, j)
    ensures OccursAt(s, pat, j) && j + |pat| <= n
  {
    assert s[..n][j..j + |pat|] == s[j..j + |pat|];
  }

  /** An occurrence in a suffix is an occurrence in the whole string, shifted. */
  lemma OccursInSuffix(s: string, pat: string, n: nat, j: int)
    requires n <= |s| && OccursAt(s[n..], pat, j)
    ensures OccursAt(s, pat, n + j)
  {
    assert s[n..][j..j + |pat|] == s[n + j..n + j + |pat|];
  }

  /** Joining the pieces of a split with the same separator gives back the input. */
  lemma {:induction false} JoinSplit(s: string, sep: string)
    requires |sep| > 0
    ensures Join(sep, Split(s, sep)) == s
    decreases |s|
  {
    match FindFrom(s, sep, 0)
    case None =>
    case Some(i) =>
      var head, rest := s[..i], s[i + |sep|..];
      var tail := Split(rest, sep);
      JoinSplit(rest, sep);
      assert Split(s, sep) == [head] + tail;
      assert Join(sep, [head] + tail) == head + sep + Join(sep, tail) by {
        assert ([head] + tail)[1..] == tail;
      }
      assert s == head + sep + rest by {
        assert s[i..i + |sep|] == sep;
      }
  }

  /** No piece of a split contains the separator. */
  lemma {:induction false} SplitPiecesAvoidSeparator(s: string, sep: string)
    requires |sep| > 0
    ensures forall k :: 0 <= k < |Split(s, sep)| ==> !IsSubstring(sep, Split(s, sep)[k])
    decreases |s|
  {
    var parts := Split(s, sep);
    match FindFrom(s, sep, 0)
    case None =>
      assert parts == [s];
    case Some(i) =>
      var rest := s[i + |sep|..];
      SplitPiecesAvoidSeparator(rest, sep);
      assert parts == [s[..i]] + Split(rest, sep);
      if IsSubstring(sep, s[..i]) {
        var j :| 0 <= j <= i && OccursAt(s[..i], sep, j);
        OccursInPrefix(s, sep, i, j);
        assert false;
      }
      forall k | 0 <= k < |parts|
        ensures !IsSubstring(sep, parts[k])
      {
        if k > 0 {
          assert parts[k] == Split(rest, sep)[k - 1];
        }
      }
  }

  /** `sep` first occurs in `piece + sep` at its end: the cut after `piece` is the
      leftmost occurrence available. */
  predicate FirstOccurrenceAtEnd(piece: string, sep: string) {
    forall j :: 0 <= j < |piece| ==> !OccursAt(piece + sep, sep, j)
  }

  /** Every cut is leftmost: each piece but the last is followed by the first
      occurrence of the separator after it. */
  lemma {:induction false} SplitCutsLeftmost(s: string, sep: string)
    requires |sep| > 0
    ensures forall k :: 0 <= k < |Split(s, sep)| - 1 ==> FirstOccurrenceAtEnd(Split(s, sep)[k], sep)
    decreases |s|
  {
    var parts := Split(s, sep);
    match FindFrom(s, sep, 0)
    case None =>
      assert parts == [s];
    case Some(i) =>
      var rest := s[i + |sep|..];
      SplitCutsLeftmost(rest, sep);
      assert parts == [s[..i]] + Split(rest, sep);
      assert s[..i] + sep == s[..i + |sep|] by {
        assert s[i..i + |sep|] == sep;
      }
      forall j | 0 <= j < i
        ensures !OccursAt(s[..i] + sep, sep, j)
      {
        if OccursAt(s[..i] + sep, sep, j) {
          OccursInPrefix(s, sep, i + |sep|, j);
          assert false;
        }
      }
      forall k | 0 <= k < |parts| - 1
        ensures FirstOccurrenceAtEnd(parts[k], sep)
      {
        if k > 0 {
          assert parts[k] == Split(rest, sep)[k - 1];
        }
      }
  }

  /** A split yields the single piece `[s]` exactly when `s` does not contain the separator. */
  lemma SplitSingleIff(s: string, sep: string)
    requires |sep| > 0
    ensures Split(s, sep) == [s] <==> !IsSubstring(sep, s)
  {
    match FindFrom(s, sep, 0)
    case None =>
    case Some(i) =>
      assert OccursAt(s, sep, i);
      var parts := Split(s, sep);
      assert parts[0] == s[..i];
      assert |s[..i]| < |s|;
  }

  /** A leading separator produces a leading empty piece: empty pieces are kept. */
  lemma SplitLeadingSeparator(s: string, sep: string)
    requires |sep| > 0
    ensures Split(sep + s, sep) == [""] + Split(s, sep)
  {
    var t := sep + s;
    assert OccursAt(t, sep, 0);
    assert FindFrom(t, sep, 0) == Some(0);
    assert t[|sep|..] == s;
  }

  /** Joining two non-empty lists is joining each and putting one separator between. */
  lemma {:induction false} JoinAppend(sep: string, a: seq<string>, b: seq<string>)
    requires |a| > 0 && |b| > 0
    ensures Join(sep, a + b) == Join(sep, a) + sep + Join(sep, b)
    decreases |a|
  {
    if |a| == 1 {
      assert (a + b)[1..] == b;
    } else {
      assert (a + b)[1..] == a[1..] + b;
      JoinAppend(sep, a[1..], b);
    }
  }
}
