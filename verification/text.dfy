/**
 * String operations of Python 2's `str` type that the helpers rely on:
 * whitespace stripping, searching, splitting and `replace`; and `join`,
 * with which the lemmas build templates.
 */
module Text {
  import opened Options

  /** The characters Python 2's `str.strip()` removes. */
  predicate IsSpace(c: char) {
    c == ' ' || c == '\t' || c == '\n' || c == '\r' || c == '\U{B}' || c == '\U{C}'
  }

  predicate AllSpace(s: string) {
    forall i :: 0 <= i < |s| ==> IsSpace(s[i])
  }

  /** No leading and no trailing whitespace. */
  predicate IsStripped(s: string) {
    s == [] || (!IsSpace(s[0]) && !IsSpace(s[|s| - 1]))
  }

  /** `pat` occurs in `s` starting at index `i`. */
  predicate OccursAt(s: string, pat: string, i: nat) {
    i + |pat| <= |s| && s[i..i + |pat|] == pat
  }

  /** Python's `pat in s`. */
  predicate Contains(s: string, pat: string) {
    exists i: nat | i <= |s| :: OccursAt(s, pat, i)
  }

  /** Where `str.lstrip()` cuts: the number of leading whitespace characters. */
  function StripStart(s: string): (lo: nat)
    ensures lo <= |s|
    ensures forall i :: 0 <= i < lo ==> IsSpace(s[i])
    ensures lo < |s| ==> !IsSpace(s[lo])
  {
    if s != [] && IsSpace(s[0]) then 1 + StripStart(s[1..]) else 0
  }

  /** Where `str.rstrip()` cuts `s[lo..hi]`: the end of its last non-whitespace character, or `lo`. */
  function StripEnd(s: string, lo: nat, hi: nat): (end: nat)
    requires lo <= hi <= |s|
    decreases hi
    ensures lo <= end <= hi
    ensures forall i :: end <= i < hi ==> IsSpace(s[i])
    ensures end > lo ==> !IsSpace(s[end - 1])
  {
    if hi > lo && IsSpace(s[hi - 1]) then StripEnd(s, lo, hi - 1) else hi
  }

  /**
   * `str.strip()`: the slice of `s` after its leading whitespace, with no
   * whitespace at either end and only whitespace after it; empty exactly for
   * all-whitespace input.
   */
  function Strip(s: string): (r: string)
    ensures IsStripped(r)
    ensures OccursAt(s, r, StripStart(s))
    ensures AllSpace(s[StripStart(s) + |r|..])
    ensures r == [] <==> AllSpace(s)
  {
    var lo := StripStart(s);
    s[lo..StripEnd(s, lo, |s|)]
  }

  /** Stripping a string that is already stripped changes nothing. */
  lemma {:induction false} StripStripped(s: string)
    requires IsStripped(s)
    ensures Strip(s) == s
  {
    assert s[0..|s|] == s;
  }

  /**
   * `s.find(pat, start)`: the least index at or after `start` where `pat` occurs,
   * or `None` where Python returns -1.
   */
  function FindFrom(s: string, pat: string, start: nat): (r: Option<nat>)
    decreases |s| - start
    ensures r.Some? ==> start <= r.value && r.value + |pat| <= |s|
  {
    if start + |pat| > |s| then None
    else if OccursAt(s, pat, start) then Some(start)
    else FindFrom(s, pat, start + 1)
  }

  /** The search finds the first occurrence at or after `start`, and fails only when there is none. */
  lemma {:induction false} FindFromFirst(s: string, pat: string, start: nat)
    decreases |s| - start
    ensures var r := FindFrom(s, pat, start);
      && (r.Some? ==> start <= r.value && OccursAt(s, pat, r.value))
      && (r.Some? ==> forall i :: start <= i < r.value ==> !OccursAt(s, pat, i))
      && (r.None? ==> forall i: nat :: start <= i ==> !OccursAt(s, pat, i))
  {
    if start + |pat| <= |s| && !OccursAt(s, pat, start) {
      FindFromFirst(s, pat, start + 1);
    }
  }

  /** A part of a part of `s` is a part of `s`. */
  lemma {:induction false} OccursAtTrans(s: string, t: string, r: string, i: nat, j: nat)
    requires OccursAt(s, t, i) && OccursAt(t, r, j)
    ensures OccursAt(s, r, i + j)
  {
    forall k | 0 <= k < |r| ensures s[i + j + k] == r[k] {
      assert r[k] == t[j..j + |r|][k] == t[j + k];
      assert t[j + k] == s[i..i + |t|][j + k];
    }
  }

  /** What follows a prefix of `s` occurs in `s` right after that prefix. */
  lemma {:induction false} OccursAfterPrefix(s: string, a: string, b: string)
    requires a + b <= s
    ensures OccursAt(s, b, |a|)
  {
    assert s[|a|..|a| + |b|] == (a + b)[|a|..];
  }

  /** The first occurrence at or after `start` is what the search finds. */
  lemma {:induction false} FindFirst(s: string, pat: string, start: nat, k: nat)
    requires start <= k && OccursAt(s, pat, k)
    requires forall i :: start <= i < k ==> !OccursAt(s, pat, i)
    decreases k - start
    ensures FindFrom(s, pat, start) == Some(k)
  {
    if start < k {
      FindFirst(s, pat, start + 1, k);
    }
  }

  /** An occurrence in a suffix is an occurrence in the whole, shifted. */
  lemma {:induction false} OccursAtShift(s: string, pat: string, k: nat, i: nat)
    requires k <= |s|
    ensures OccursAt(s[k..], pat, i) <==> OccursAt(s, pat, k + i)
  {
    if k + i + |pat| <= |s| {
      assert s[k..][i..i + |pat|] == s[k + i..k + i + |pat|];
    }
  }

  /** What occurs in a suffix of `s` occurs in `s`. */
  lemma {:induction false} ContainsSuffix(s: string, k: nat, pat: string)
    requires k <= |s| && Contains(s[k..], pat)
    ensures Contains(s, pat)
  {
    var i: nat :| i <= |s[k..]| && OccursAt(s[k..], pat, i);
    OccursAtShift(s, pat, k, i);
  }

  /** `s.find(c, start)` for a single character `c`, or `None` where Python returns -1. */
  function FindCharFrom(s: string, c: char, start: nat): (r: Option<nat>)
    decreases |s| - start
    ensures r.Some? ==> start <= r.value < |s| && s[r.value] == c
    ensures r.Some? ==> forall i :: start <= i < r.value ==> s[i] != c
    ensures r.None? ==> forall i :: start <= i < |s| ==> s[i] != c
  {
    if start >= |s| then None
    else if s[start] == c then Some(start)
    else FindCharFrom(s, c, start + 1)
  }

  /** Searching a suffix for a character finds what searching the whole finds, shifted. */
  lemma {:induction false} FindCharShift(s: string, c: char, k: nat, start: nat)
    requires k <= |s|
    ensures FindCharFrom(s[k..], c, start)
         == (match FindCharFrom(s, c, k + start) case None => None case Some(j) => Some(j - k))
  {
    var r, whole := FindCharFrom(s[k..], c, start), FindCharFrom(s, c, k + start);
    if whole.Some? {
      assert s[k..][whole.value - k] == c;
    }
    if r.Some? {
      assert s[k + r.value] == c;
    }
  }

  /**
   * `s.split(c, 1)`: `[s]` when `c` does not occur, otherwise the text before
   * the first `c` and the text after it.
   */
  function SplitOnce(s: string, c: char): (r: seq<string>)
    ensures |r| == 1 || |r| == 2
    ensures |r| == 1 <==> c !in s
    ensures |r| == 1 ==> r[0] == s
    ensures |r| == 2 ==> s == r[0] + [c] + r[1] && c !in r[0]
  {
    match FindCharFrom(s, c, 0)
    case None => [s]
    case Some(k) =>
      assert s == s[..k] + [c] + s[k + 1..];
      [s[..k], s[k + 1..]]
  }

  /** Splitting at the first `c` is unique: a split whose left part holds no `c` is the one `SplitOnce` makes. */
  lemma {:induction false} SplitOnceAt(left: string, c: char, right: string)
    requires c !in left
    ensures SplitOnce(left + [c] + right, c) == [left, right]
  {
    var s := left + [c] + right;
    assert s[|left|] == c;
    var r := SplitOnce(s, c);
    assert r[0] == s[..|r[0]|] == left;
    assert r[1] == s[|left| + 1..] == right;
  }

  /**
   * `s.replace(pat, with)`: every occurrence, left to right and non-overlapping,
   * is replaced; replacing a pattern by itself changes nothing.
   */
  function Replace(s: string, pat: string, with: string): (r: string)
    requires pat != []
    decreases |s|
    ensures pat == with ==> r == s
  {
    if |s| < |pat| then s
    else if pat <= s then
      assert s == pat + s[|pat|..];
      with + Replace(s[|pat|..], pat, with)
    else
      assert s == [s[0]] + s[1..];
      [s[0]] + Replace(s[1..], pat, with)
  }

  /** Replacing a pattern that does not occur changes nothing. */
  lemma {:induction false} ReplaceAbsent(s: string, pat: string, with: string)
    requires pat != [] && !Contains(s, pat)
    decreases |s|
    ensures Replace(s, pat, with) == s
  {
    if |s| >= |pat| {
      assert !OccursAt(s, pat, 0);
      forall i: nat | i <= |s[1..]| ensures !OccursAt(s[1..], pat, i) {
        OccursAtShift(s, pat, 1, i);
      }
      ReplaceAbsent(s[1..], pat, with);
      assert [s[0]] + s[1..] == s;
    }
  }

  /** `sep.join(pieces)`; no routine calls it, the lemmas build templates with it. */
  function Join(pieces: seq<string>, sep: string): string
  {
    if pieces == [] then []
    else if |pieces| == 1 then pieces[0]
    else pieces[0] + sep + Join(pieces[1..], sep)
  }
}
