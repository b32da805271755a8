/**
 * The tag-stripping step of `remove_html_tags`: the substitution of every
 * match of the regular expression `<[^>]*>` by the empty string. A match
 * starts at a `<` that has a `>` somewhere after it and ends at the first
 * such `>`; matches are taken leftmost first and do not overlap.
 */
module HtmlTags {
  import opened Options
  import opened Text

  /** Some `<` is followed, somewhere later, by a `>`: the text still holds a tag. */
  predicate HasTag(s: string) {
    exists i, j :: 0 <= i < j < |s| && s[i] == '<' && s[j] == '>'
  }

  /** The text with every tag removed; it is never longer than the text. */
  function StripTags(s: string): (r: string)
    decreases |s|
    ensures |r| <= |s|
  {
    if s == [] then []
    else if s[0] == '<' then
      match FindCharFrom(s, '>', 1)
      case Some(j) => StripTags(s[j + 1..])
      case None => [s[0]] + StripTags(s[1..])
    else
      [s[0]] + StripTags(s[1..])
  }

  /** The step only removes characters: it brings in no character. */
  lemma {:induction false} StripTagsKeeps(s: string)
    decreases |s|
    ensures forall c :: c in StripTags(s) ==> c in s
  {
    if s != [] {
      var close := FindCharFrom(s, '>', 1);
      var n := if s[0] == '<' && close.Some? then close.value + 1 else 1;
      StripTagsKeeps(s[n..]);
      forall c | c in StripTags(s[n..]) ensures c in s {
        var k :| 0 <= k < |s[n..]| && s[n..][k] == c;
        assert s[n + k] == c;
      }
    }
  }

  /** No tag survives the step. */
  lemma {:induction false} StripTagsLeavesNoTag(s: string)
    ensures !HasTag(StripTags(s))
  {
    if s != [] {
      var r := StripTags(s);
      if s[0] == '<' && FindCharFrom(s, '>', 1).Some? {
        var j := FindCharFrom(s, '>', 1).value;
        StripTagsLeavesNoTag(s[j + 1..]);
      } else {
        StripTagsLeavesNoTag(s[1..]);
        StripTagsKeeps(s[1..]);
        var rest := StripTags(s[1..]);
        assert r == [s[0]] + rest;
        forall i, j | 0 <= i < j < |r| ensures !(r[i] == '<' && r[j] == '>') {
          assert r[j] == rest[j - 1];
          if i > 0 {
            assert r[i] == rest[i - 1];
          } else if r[0] == '<' {
            assert rest[j - 1] in s[1..];
            var k :| 1 <= k < |s| && s[k] == rest[j - 1];
          }
        }
      }
    }
  }

  /** Text holding no tag passes through unchanged. */
  lemma {:induction false} StripTagsNoTag(s: string)
    requires !HasTag(s)
    ensures StripTags(s) == s
  {
    if s != [] {
      forall i, j | 0 <= i < j < |s[1..]| ensures !(s[1..][i] == '<' && s[1..][j] == '>') {
        assert s[1..][i] == s[i + 1] && s[1..][j] == s[j + 1];
      }
      StripTagsNoTag(s[1..]);
    }
  }

  /** Text that holds a tag gets strictly shorter. */
  lemma {:induction false} StripTagsShortens(s: string)
    requires HasTag(s)
    ensures |StripTags(s)| < |s|
  {
    var i, j :| 0 <= i < j < |s| && s[i] == '<' && s[j] == '>';
    if !(s[0] == '<' && FindCharFrom(s, '>', 1).Some?) && i > 0 {
      assert s[1..][i - 1] == '<' && s[1..][j - 1] == '>';
      StripTagsShortens(s[1..]);
    }
  }

  /** The step leaves a text unchanged exactly when the text holds no tag. */
  lemma {:induction false} StripTagsFixedPoint(s: string)
    ensures StripTags(s) == s <==> !HasTag(s)
  {
    if HasTag(s) {
      StripTagsShortens(s);
    } else {
      StripTagsNoTag(s);
    }
  }

  /** Stripping twice is stripping once. */
  lemma {:induction false} StripTagsIdempotent(s: string)
    ensures StripTags(StripTags(s)) == StripTags(s)
  {
    StripTagsLeavesNoTag(s);
    StripTagsNoTag(StripTags(s));
  }

  /** A text without any `<` holds no tag, so it passes through unchanged. */
  lemma {:induction false} StripTagsNoOpen(s: string)
    requires '<' !in s
    ensures StripTags(s) == s
  {
    StripTagsNoTag(s);
  }

  /** One step of the scan at index `i`, in terms of searches in the whole text. */
  lemma {:induction false} StripTagsAt(html: string, i: nat)
    requires i < |html|
    ensures html[i] == '<' && FindCharFrom(html, '>', i + 1).Some? ==>
      StripTags(html[i..]) == StripTags(html[FindCharFrom(html, '>', i + 1).value + 1..])
    ensures html[i] != '<' || FindCharFrom(html, '>', i + 1).None? ==>
      StripTags(html[i..]) == [html[i]] + StripTags(html[i + 1..])
  {
    var s, close := html[i..], FindCharFrom(html, '>', i + 1);
    FindCharShift(html, '>', i, 1);
    assert s[0] == html[i] && s[1..] == html[i + 1..];
    if html[i] == '<' && close.Some? {
      var j := close.value - i;
      assert FindCharFrom(s, '>', 1) == Some(j);
      assert s[j + 1..] == html[close.value + 1..];
    } else if html[i] == '<' {
      assert FindCharFrom(s, '>', 1).None?;
    }
  }

  /** The scan's invariant carries over one step. */
  lemma {:induction false} ScanStep(html: string, i: nat, stripped: string)
    requires i < |html| && stripped + StripTags(html[i..]) == StripTags(html)
    ensures html[i] == '<' && FindCharFrom(html, '>', i + 1).Some? ==>
      stripped + StripTags(html[FindCharFrom(html, '>', i + 1).value + 1..]) == StripTags(html)
    ensures html[i] != '<' || FindCharFrom(html, '>', i + 1).None? ==>
      (stripped + [html[i]]) + StripTags(html[i + 1..]) == StripTags(html)
  {
    StripTagsAt(html, i);
    if html[i] != '<' || FindCharFrom(html, '>', i + 1).None? {
      assert stripped + ([html[i]] + StripTags(html[i + 1..])) == (stripped + [html[i]]) + StripTags(html[i + 1..]);
    }
  }

  /**
   * The substitution as a left-to-right scan: a `<` with a `>` after it skips
   * up to and including that `>`; every other character is kept.
   */
  method RemoveTags(html: string) returns (stripped: string)
    ensures stripped == StripTags(html)
    ensures !HasTag(stripped)
  {
    stripped := [];
    var i := 0;
    while i < |html|
      invariant 0 <= i <= |html|
      invariant stripped + StripTags(html[i..]) == StripTags(html)
    {
      ScanStep(html, i, stripped);
      var close := FindCharFrom(html, '>', i + 1);
      if html[i] == '<' && close.Some? {
        i := close.value + 1;
      } else {
        stripped, i := stripped + [html[i]], i + 1;
      }
    }
    assert stripped + StripTags(html[i..]) == stripped + [];
    StripTagsLeavesNoTag(html);
  }
}
