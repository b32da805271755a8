/**
 * `get_first_line`: the first line of a text, with surrounding whitespace
 * removed (`s.strip().split('\n')[0].strip()`).
 */
module FirstLine {
  import opened Options
  import opened Text

  /** `s.split('\n')[0]`: the text before the first line break. */
  function FirstSegment(s: string): (r: string)
    ensures r <= s && '\n' !in r
    ensures |r| < |s| ==> s[|r|] == '\n'
  {
    SplitOnce(s, '\n')[0]
  }

  /**
   * The first line stands in `s` right after its leading whitespace; it has no
   * line break and no whitespace at either end, and what follows it up to the
   * next line break is whitespace.
   */
  function GetFirstLine(s: string): (r: string)
    ensures '\n' !in r
    ensures IsStripped(r)
    ensures OccursAt(s, r, StripStart(s))
    ensures forall k :: StripStart(s) + |r| <= k < |s| && '\n' !in s[StripStart(s) + |r|..k] ==> IsSpace(s[k])
    ensures r == [] <==> AllSpace(s)
  {
    FirstLineEmpty(s);
    FirstLinePlace(s);
    Strip(FirstSegment(Strip(s)))
  }

  /** The first line is empty only when the stripped text is. */
  lemma {:induction false} FirstLineEmpty(s: string)
    ensures Strip(FirstSegment(Strip(s))) == [] ==> Strip(s) == []
  {
    var t := Strip(s);
    if t != [] {
      assert FirstSegment(t) != [] && FirstSegment(t)[0] == t[0];
    }
  }

  /** Where the first line stands, and what follows it on its line. */
  lemma {:induction false} FirstLinePlace(s: string)
    ensures var r := Strip(FirstSegment(Strip(s)));
      && OccursAt(s, r, StripStart(s))
      && forall k :: StripStart(s) + |r| <= k < |s| && '\n' !in s[StripStart(s) + |r|..k] ==> IsSpace(s[k])
  {
    var t, i := Strip(s), StripStart(s);
    var f := FirstSegment(t);
    var r := Strip(f);
    assert OccursAt(f, r, 0) && AllSpace(f[|r|..]) by {
      assert f == [] || f[0] == t[0];
      NoLeadingSpace(f);
    }
    LineTail(s, t, f, r, i);
  }

  /** A text that does not start with whitespace loses nothing at the front when stripped. */
  lemma {:induction false} NoLeadingSpace(f: string)
    requires f == [] || !IsSpace(f[0])
    ensures OccursAt(f, Strip(f), 0) && AllSpace(f[|Strip(f)|..])
  {
  }

  /**
   * Where `t` stands in `s` followed by whitespace only, `f` is a prefix of `t`
   * cut at a line break, and `r` a prefix of `f` followed by whitespace only,
   * `r` stands where `t` does and what follows it up to the next line break is
   * whitespace.
   */
  lemma {:induction false} LineTail(s: string, t: string, f: string, r: string, i: nat)
    requires OccursAt(s, t, i) && AllSpace(s[i + |t|..])
    requires f <= t && (|f| < |t| ==> t[|f|] == '\n')
    requires OccursAt(f, r, 0) && AllSpace(f[|r|..])
    ensures OccursAt(s, r, i)
    ensures forall k :: i + |r| <= k < |s| && '\n' !in s[i + |r|..k] ==> IsSpace(s[k])
  {
    assert OccursAt(s, f, i) by {
      assert t[..|f|] == f;
      OccursAtTrans(s, t, f, i, 0);
    }
    OccursAtTrans(s, f, r, i, 0);
    forall k | i + |r| <= k < |s|
      ensures '\n' !in s[i + |r|..k] ==> IsSpace(s[k])
    {
      if k < i + |f| {
        assert s[k] == f[k - i] == f[|r|..][k - i - |r|];
      } else if i + |f| < k < i + |t| {
        assert s[i + |r|..k][|f| - |r|] == s[i + |f|] == t[|f|] == '\n';
      } else if k >= i + |t| {
        assert s[k] == s[i + |t|..][k - i - |t|];
      }
    }
  }

  /** Taking the first line of a first line changes nothing. */
  lemma {:induction false} GetFirstLineIdempotent(s: string)
    ensures GetFirstLine(GetFirstLine(s)) == GetFirstLine(s)
  {
    var r := GetFirstLine(s);
    StripStripped(r);
    assert FirstSegment(r) == r;
    StripStripped(r);
  }
}
