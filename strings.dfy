/**
 * The two JavaScript string operations the sidebar relies on:
 * `String.prototype.startsWith` and `String.prototype.replace` with a
 * string pattern, which rewrites only the FIRST occurrence of the pattern.
 */
module Strings {

  /** `pat` occurs in `s` starting at position `i`. */
  predicate OccursAt(s: string, pat: string, i: int) {
    0 <= i && i + |pat| <= |s| && s[i..i + |pat|] == pat
  }

  /** JavaScript `s.startsWith(prefix)`: every character of `prefix` is matched at the same position of `s`. */
  predicate StartsWith(s: string, prefix: string): (b: bool)
    ensures b <==> |prefix| <= |s| && forall i :: 0 <= i < |prefix| ==> s[i] == prefix[i]
  {
    |prefix| <= |s| && s[..|prefix|] == prefix
  }

  /** `StartsWith` holds exactly when `s` is `prefix` followed by something. */
  lemma StartsWithConcat(s: string, prefix: string)
    ensures StartsWith(s, prefix) <==> exists rest :: s == prefix + rest
  {
    if StartsWith(s, prefix) {
      assert s == prefix + s[|prefix|..];
    }
    if exists rest :: s == prefix + rest {
      var rest :| s == prefix + rest;
      assert s[..|prefix|] == prefix;
    }
  }

  /** Position of the first occurrence of `pat` at or after `from`, or -1. */
  function IndexFrom(s: string, pat: string, from: nat): (r: int)
    decreases |s| - from
    ensures r == -1 || (from <= r && OccursAt(s, pat, r))
    ensures r == -1 ==> forall j :: from <= j ==> !OccursAt(s, pat, j)
    ensures r != -1 ==> forall j :: from <= j < r ==> !OccursAt(s, pat, j)
  {
    if from + |pat| > |s| then -1
    else if s[from..from + |pat|] == pat then from
    else IndexFrom(s, pat, from + 1)
  }

  /** JavaScript `s.indexOf(pat)`: the least position where `pat` occurs, or -1. */
  function IndexOf(s: string, pat: string): (r: int)
    ensures r == -1 || 0 <= r <= |s| - |pat|
    ensures r == -1 <==> forall j :: !OccursAt(s, pat, j)
    ensures r != -1 ==> OccursAt(s, pat, r) && forall j :: 0 <= j < r ==> !OccursAt(s, pat, j)
  {
    IndexFrom(s, pat, 0)
  }

  /**
   * JavaScript `s.replace(pat, rep)` with a string pattern and a replacement
   * free of `$` sequences: the first occurrence of `pat` becomes `rep`.
   */
  function ReplaceFirst(s: string, pat: string, rep: string): (r: string)
    ensures IndexOf(s, pat) == -1 ==> r == s
    ensures IndexOf(s, pat) != -1 ==>
      && |r| == |s| - |pat| + |rep|
      && r[..IndexOf(s, pat)] == s[..IndexOf(s, pat)]
      && OccursAt(r, rep, IndexOf(s, pat))
      && r[IndexOf(s, pat) + |rep|..] == s[IndexOf(s, pat) + |pat|..]
  {
    var k := IndexOf(s, pat);
    if k == -1 then s else s[..k] + rep + s[k + |pat|..]
  }

  /** A string in which the pattern does not occur is returned unchanged. */
  lemma ReplaceFirstAbsent(s: string, pat: string, rep: string)
    requires forall j :: !OccursAt(s, pat, j)
    ensures ReplaceFirst(s, pat, rep) == s
  {
  }

  /**
   * Characterisation: if `s` splits as `pre + pat + post` and `pat` does not
   * occur anywhere before `|pre|`, the result is `pre + rep + post`.
   */
  lemma ReplaceFirstSplit(s: string, pat: string, rep: string, pre: string, post: string)
    requires s == pre + pat + post
    requires forall j :: 0 <= j < |pre| ==> !OccursAt(s, pat, j)
    ensures ReplaceFirst(s, pat, rep) == pre + rep + post
  {
    assert OccursAt(s, pat, |pre|) by {
      assert s[|pre|..|pre| + |pat|] == pat;
    }
    var k := IndexOf(s, pat);
    assert k == |pre|;
    assert s[..k] == pre;
    assert s[k + |pat|..] == post;
  }

  /**
   * Only the first occurrence is rewritten: a later occurrence that does not
   * overlap the first survives, shifted by the change in length.
   */
  lemma ReplaceFirstKeepsLater(s: string, pat: string, rep: string, j: int)
    requires IndexOf(s, pat) != -1
    requires OccursAt(s, pat, j)
    requires j >= IndexOf(s, pat) + |pat|
    ensures OccursAt(ReplaceFirst(s, pat, rep), pat, j - |pat| + |rep|)
  {
    var k := IndexOf(s, pat);
    var r := ReplaceFirst(s, pat, rep);
    var j' := j - |pat| + |rep|;
    assert r == s[..k] + rep + s[k + |pat|..];
    assert |r| == |s| - |pat| + |rep|;
    forall t | 0 <= t < |pat|
      ensures r[j' + t] == pat[t]
    {
      assert r[j' + t] == s[j + t];
      assert s[j..j + |pat|][t] == s[j + t];
    }
    assert r[j'..j' + |pat|] == pat;
  }

  /** A non-empty pattern cannot occur in a string lacking its first character. */
  lemma AbsentWithoutFirstChar(s: string, pat: string)
    requires |pat| > 0
    requires forall t :: 0 <= t < |s| ==> s[t] != pat[0]
    ensures forall j :: !OccursAt(s, pat, j)
  {
    forall j
      ensures !OccursAt(s, pat, j)
    {
      if 0 <= j && j + |pat| <= |s| {
        assert s[j..j + |pat|][0] == s[j];
      }
    }
  }
}
