/**
 * How `getMenu` turns a link's `href` into a selector:
 * `href.replace(/.*(?=#[^\s]*$)/, '')`. The regular expression is modelled with
 * its ECMAScript meaning: `.` matches any character but a line terminator, `\s`
 * is ECMAScript white space, `$` is the end of the input (no `m` flag), the
 * search is leftmost and `.*` is greedy, and without the `g` flag only the first
 * match is replaced.
 */
module Href {
  import opened Wrappers

  /** The line terminators `.` does not match. */
  predicate IsLineTerminator(c: char) {
    c == '\n' || c == '\r' || c == '\U{2028}' || c == '\U{2029}'
  }

  /** ECMAScript `\s`: white space and line terminators. */
  predicate IsWhiteSpace(c: char) {
    || c == '\t' || c == '\U{000B}' || c == '\U{000C}' || c == ' ' || c == '\U{00A0}' || c == '\U{FEFF}'
    || c == '\U{1680}' || ('\U{2000}' <= c <= '\U{200A}') || c == '\U{202F}' || c == '\U{205F}' || c == '\U{3000}'
    || IsLineTerminator(c)
  }

  /** `(?=#[^\s]*$)` succeeds at position `j`: a `#` there and no white space after it. */
  predicate LookaheadAt(s: string, j: nat) {
    j < |s| && s[j] == '#' && forall k :: j < k < |s| ==> !IsWhiteSpace(s[k])
  }

  /** `.*` can consume `s[i..j]`. */
  predicate DotsBetween(s: string, i: nat, j: nat) {
    i <= j <= |s| && forall k :: i <= k < j ==> !IsLineTerminator(s[k])
  }

  /** A match of the whole expression from `i` to `j`. */
  predicate MatchesAt(s: string, i: nat, j: nat) {
    DotsBetween(s, i, j) && LookaheadAt(s, j)
  }

  /** Where greedy `.*` stops when it starts at `i`: the end of the run without line terminators. */
  function RunEnd(s: string, i: nat): (e: nat)
    requires i <= |s|
    ensures DotsBetween(s, i, e)
    ensures e < |s| ==> IsLineTerminator(s[e])
    decreases |s| - i
  {
    if i == |s| || IsLineTerminator(s[i]) then i else RunEnd(s, i + 1)
  }

  /** Backtracking `.*` from `k` towards `i` until the lookahead succeeds. */
  function Backtrack(s: string, i: nat, k: nat): (r: Option<nat>)
    requires i <= k <= |s|
    ensures r.Some? ==> i <= r.value <= k && LookaheadAt(s, r.value)
    decreases k - i
  {
    if LookaheadAt(s, k) then Some(k)
    else if k == i then None
    else Backtrack(s, i, k - 1)
  }

  /** The leftmost match at or after `i`, as (start, end). */
  function Search(s: string, i: nat): (r: Option<(nat, nat)>)
    requires i <= |s|
    ensures r.Some? ==> i <= r.value.0 <= r.value.1 <= |s| && MatchesAt(s, r.value.0, r.value.1)
    decreases |s| - i
  {
    match Backtrack(s, i, RunEnd(s, i))
    case Some(j) => Some((i, j))
    case None => if i == |s| then None else Search(s, i + 1)
  }

  /** `href.replace(/.*(?=#[^\s]*$)/, '')`: drop the first match; the `#` the lookahead saw stays. */
  function StripHref(s: string): (r: string)
    ensures |r| <= |s|
    ensures r != s ==> '#' in r
  {
    match Search(s, 0)
    case None => s
    case Some((i, j)) => assert s[j..][0] == '#'; s[..i] + s[j..]
  }

  /** The last position of `c` in `s`. */
  function LastIndexOf(s: string, c: char): (r: Option<nat>)
    ensures r.Some? ==> r.value < |s| && s[r.value] == c
    ensures r.Some? ==> forall k :: r.value < k < |s| ==> s[k] != c
    ensures r.None? ==> forall k :: 0 <= k < |s| ==> s[k] != c
    decreases |s|
  {
    if s == [] then None
    else if s[|s| - 1] == c then Some(|s| - 1)
    else LastIndexOf(s[..|s| - 1], c)
  }

  /**
   * What the stripping is for: the fragment starting at the last `#`, when that
   * fragment holds no white space; otherwise the whole `href`.
   */
  function Fragment(s: string): (r: string)
    ensures r == s || (|r| > 0 && r[0] == '#')
    ensures |r| <= |s| && r == s[|s| - |r|..]
    ensures r != s ==> forall k :: 0 < k < |r| ==> r[k] != '#' && !IsWhiteSpace(r[k])
  {
    match LastIndexOf(s, '#')
    case None => s
    case Some(j) => if forall k :: j < k < |s| ==> !IsWhiteSpace(s[k]) then s[j..] else s
  }

  predicate NoLineTerminator(s: string) {
    forall k :: 0 <= k < |s| ==> !IsLineTerminator(s[k])
  }

  /** Backtracking finds the rightmost lookahead position in `[i, k]`, or none. */
  lemma {:induction false} BacktrackRightmost(s: string, i: nat, k: nat)
    requires i <= k <= |s|
    ensures Backtrack(s, i, k).Some? ==>
              var j := Backtrack(s, i, k).value;
              i <= j <= k && LookaheadAt(s, j) && forall m :: j < m <= k ==> !LookaheadAt(s, m)
    ensures Backtrack(s, i, k).None? ==> forall m :: i <= m <= k ==> !LookaheadAt(s, m)
    decreases k - i
  {
    if !LookaheadAt(s, k) && k != i {
      BacktrackRightmost(s, i, k - 1);
    }
  }

  /** With no lookahead position anywhere, there is no match. */
  lemma {:induction false} SearchFailsWithoutLookahead(s: string, i: nat)
    requires i <= |s|
    requires forall m :: 0 <= m <= |s| ==> !LookaheadAt(s, m)
    ensures Search(s, i).None?
    decreases |s| - i
  {
    BacktrackRightmost(s, i, RunEnd(s, i));
    if i < |s| {
      SearchFailsWithoutLookahead(s, i + 1);
    }
  }

  /** Wherever the lookahead succeeds, it also succeeds at the last `#`, which lies no further left. */
  lemma LookaheadAtLastHash(s: string, m: nat)
    requires LookaheadAt(s, m)
    ensures LastIndexOf(s, '#').Some?
    ensures m <= LastIndexOf(s, '#').value && LookaheadAt(s, LastIndexOf(s, '#').value)
  {
  }

  /**
   * For an `href` without line terminators the replacement yields exactly the
   * intended fragment: greedy `.*` reaches from the start to the last `#`.
   */
  lemma StripHrefIsFragment(s: string)
    requires NoLineTerminator(s)
    ensures StripHref(s) == Fragment(s)
  {
    var e := RunEnd(s, 0);
    assert e == |s|;
    BacktrackRightmost(s, 0, e);
    match Backtrack(s, 0, e)
    case Some(j) =>
      LookaheadAtLastHash(s, j);
      assert LastIndexOf(s, '#') == Some(j);
      assert Search(s, 0) == Some((0, j));
      assert s[..0] + s[j..] == s[j..];
    case None =>
      SearchFailsWithoutLookahead(s, 0);
      match LastIndexOf(s, '#')
      case None =>
      case Some(j) =>
        assert !LookaheadAt(s, j);
  }

  /** Hence the result is a suffix of the `href` ... */
  lemma StripHrefIsSuffix(s: string)
    requires NoLineTerminator(s)
    ensures var r := StripHref(s); |r| <= |s| && r == s[|s| - |r|..]
  {
    StripHrefIsFragment(s);
  }

  /** ... and stripping twice is stripping once. */
  lemma StripHrefIdempotent(s: string)
    requires NoLineTerminator(s)
    ensures StripHref(StripHref(s)) == StripHref(s)
  {
    StripHrefIsFragment(s);
    var r := Fragment(s);
    assert NoLineTerminator(r) by {
      forall k | 0 <= k < |r| ensures !IsLineTerminator(r[k]) {
        assert r[k] == s[|s| - |r| + k];
      }
    }
    StripHrefIsFragment(r);
    if r != s {
      var j := LastIndexOf(r, '#');
      assert r[0] == '#';
      assert j.Some?;
      assert j.value == 0;
    }
  }

  /** A line terminator before the last `#` stops `.*`: the match starts after it and the prefix survives. */
  lemma LineTerminatorKeepsPrefix()
    ensures StripHref("a\nb#x") == "a\n#x"
  {
    var s := "a\nb#x";
    assert RunEnd(s, 0) == 1;
    assert !LookaheadAt(s, 1) && !LookaheadAt(s, 0);
    assert Search(s, 0) == Search(s, 1);
    assert RunEnd(s, 1) == 1;
    assert Search(s, 1) == Search(s, 2);
    assert RunEnd(s, 2) == 5;
    assert !LookaheadAt(s, 5) && LookaheadAt(s, 3);
    assert Search(s, 2) == Some((2, 3));
    assert s[..2] + s[3..] == "a\n#x";
  }

  /** So the suffix property needs the `href` to be free of line terminators. */
  lemma StrippedNotAlwaysSuffix()
    ensures exists s: string :: var r := StripHref(s); !(|r| <= |s| && r == s[|s| - |r|..])
  {
    LineTerminatorKeepsPrefix();
    var s := "a\nb#x";
    assert StripHref(s)[1] != s[2];
  }
}
