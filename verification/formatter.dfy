/**
 * `object_string_formatter`: replaces `{key.attr}` placeholders in a
 * template with attribute values of the objects passed as keyword
 * arguments. An object is modelled as the map from its attribute names to
 * their values; the keyword arguments as the sequence of their (key, object)
 * pairs, in the order the loop visits them.
 */
module Formatter {
  import opened Options
  import opened Text

  /** An attribute value: a string, or anything `str.replace` refuses. */
  datatype Value = Str(text: string) | NonString

  type Object = map<string, Value>

  predicate IsIdentifierChar(c: char) {
    'a' <= c <= 'z' || 'A' <= c <= 'Z' || '0' <= c <= '9' || c == '_'
  }

  /** A Python keyword-argument name; such a key stands for itself inside the regular expression. */
  predicate IsIdentifier(key: string) {
    key != [] && !('0' <= key[0] <= '9') && forall i :: 0 <= i < |key| ==> IsIdentifierChar(key[i])
  }

  /** Keyword arguments: identifier keys, each at most once. */
  predicate ValidKwargs(kwargs: seq<(string, Object)>) {
    && (forall i :: 0 <= i < |kwargs| ==> IsIdentifier(kwargs[i].0))
    && (forall i, j :: 0 <= i < j < |kwargs| ==> kwargs[i].0 != kwargs[j].0)
  }

  /** The text that opens a placeholder of `key`. */
  function Opening(key: string): string {
    "{" + key + "."
  }

  /** `'{%s.%s}' % (key, attr)`. */
  function Placeholder(key: string, attr: string): string {
    Opening(key) + attr + "}"
  }

  /**
   * `re.findall(r'\{key\.([^\}]+)\}', s)`: the attribute names of the
   * placeholders of `key`, left to right and non-overlapping. A match runs from
   * `{key.` to the first `}` after it and needs at least one character between.
   * Every name found is non-empty, holds no `}`, and its placeholder occurs in `s`.
   */
  function Placeholders(s: string, key: string): (attrs: seq<string>)
    requires IsIdentifier(key)
    decreases |s|
    ensures forall a :: a in attrs ==> a != [] && '}' !in a
    ensures forall a :: a in attrs ==> Contains(s, Placeholder(key, a))
  {
    if s == [] then []
    else
      var p := |Opening(key)|;
      var close := if Opening(key) <= s then FindCharFrom(s, '}', p) else None;
      if close.Some? && close.value > p then
        var j := close.value;
        var rest := Placeholders(s[j + 1..], key);
        PlaceholdersInSuffix(s, j + 1, key, rest);
        assert OccursAt(s, Placeholder(key, s[p..j]), 0) by {
          assert s[..j + 1] == s[..p] + s[p..j] + [s[j]];
        }
        [s[p..j]] + rest
      else
        var rest := Placeholders(s[1..], key);
        PlaceholdersInSuffix(s, 1, key, rest);
        rest
  }

  /** Placeholders occurring in a suffix of `s` occur in `s`. */
  lemma {:induction false} PlaceholdersInSuffix(s: string, k: nat, key: string, attrs: seq<string>)
    requires k <= |s| && forall a :: a in attrs ==> Contains(s[k..], Placeholder(key, a))
    ensures forall a :: a in attrs ==> Contains(s, Placeholder(key, a))
  {
    forall a | a in attrs ensures Contains(s, Placeholder(key, a)) {
      ContainsSuffix(s, k, Placeholder(key, a));
    }
  }

  /**
   * The inner loop over the found attribute names: each one the object has
   * as a string is replaced, everywhere in the current result; the others
   * leave it as it is.
   */
  function ApplyAttrs(result: string, key: string, o: Object, attrs: seq<string>): (r: string)
    decreases |attrs|
    ensures (forall a :: a in attrs ==> a !in o || !o[a].Str?) ==> r == result
  {
    if attrs == [] then result
    else
      var before := ApplyAttrs(result, key, o, attrs[..|attrs| - 1]);
      var a := attrs[|attrs| - 1];
      if a in o && o[a].Str? then Replace(before, Placeholder(key, a), o[a].text) else before
  }

  /** No attribute name is found in `s` for any of the keys. */
  predicate NoneFound(s: string, kwargs: seq<(string, Object)>)
    requires ValidKwargs(kwargs)
    decreases |kwargs|
  {
    kwargs == [] || (NoneFound(s, kwargs[..|kwargs| - 1]) && Placeholders(s, kwargs[|kwargs| - 1].0) == [])
  }

  /**
   * The outer loop: one object after the other, each with the attribute
   * names found in the original template `s`. A template that holds no
   * placeholder of any key comes back unchanged.
   */
  function Format(s: string, kwargs: seq<(string, Object)>): (r: string)
    requires ValidKwargs(kwargs)
    decreases |kwargs|
    ensures NoneFound(s, kwargs) ==> r == s
  {
    if kwargs == [] then s
    else
      var (key, o) := kwargs[|kwargs| - 1];
      ApplyAttrs(Format(s, kwargs[..|kwargs| - 1]), key, o, Placeholders(s, key))
  }

  /** The source's nested loops over the keyword arguments and the attribute names found for each. */
  method ObjectStringFormatter(s: string, kwargs: seq<(string, Object)>) returns (result: string)
    requires ValidKwargs(kwargs)
    ensures result == Format(s, kwargs)
  {
    result := s;
    for i := 0 to |kwargs|
      invariant result == Format(s, kwargs[..i])
    {
      var (key, o) := kwargs[i];
      var matches := Placeholders(s, key);
      ghost var start := result;
      for j := 0 to |matches|
        invariant result == ApplyAttrs(start, key, o, matches[..j])
      {
        var attr := matches[j];
        assert matches[..j + 1][..j] == matches[..j];
        if attr in o && o[attr].Str? {
          result := Replace(result, Placeholder(key, attr), o[attr].text);
        }
      }
      assert matches[..|matches|] == matches;
      assert kwargs[..i + 1][..i] == kwargs[..i];
    }
    assert kwargs[..|kwargs|] == kwargs;
  }

  /** An object none of whose placeholders names a string attribute leaves the template unchanged. */
  lemma {:induction false} FormatWithoutStringAttributes(s: string, key: string, o: Object)
    requires IsIdentifier(key)
    requires forall a :: a in Placeholders(s, key) ==> a !in o || !o[a].Str?
    ensures Format(s, [(key, o)]) == s
  {
  }

  /**
   * Placeholders are looked for in the original template only: an object
   * whose key has no placeholder there changes nothing, even when earlier
   * substitutions wrote text that looks like one of its placeholders.
   */
  lemma {:induction false} FormatSearchesOriginal(s: string, kwargs: seq<(string, Object)>, key: string, o: Object)
    requires IsIdentifier(key) && ValidKwargs(kwargs) && ValidKwargs(kwargs + [(key, o)])
    requires Placeholders(s, key) == []
    ensures Format(s, kwargs + [(key, o)]) == Format(s, kwargs)
  {
    assert (kwargs + [(key, o)])[..|kwargs|] == kwargs;
  }

  /** Only the first character of `{key.` is a `{`. */
  lemma {:induction false} OpeningBraceFirst(key: string, m: nat)
    requires IsIdentifier(key) && 0 < m < |Opening(key)|
    ensures Opening(key)[m] != '{'
  {
    if m <= |key| {
      assert Opening(key)[m] == key[m - 1];
    }
  }

  /**
   * A pattern that starts with `{key.` does not start `x + t` when `x` holds no
   * `{key.` and `t` is empty or starts with `{`: it can neither lie in `x` nor
   * reach into `t`, whose `{` would have to fall inside `{key.`.
   */
  lemma {:induction false} NotAtFront(x: string, t: string, key: string, pat: string)
    requires IsIdentifier(key) && Opening(key) <= pat
    requires x != [] && !Contains(x, Opening(key)) && (t == [] || t[0] == '{')
    ensures !(pat <= x + t)
  {
    var s, o := x + t, Opening(key);
    if |o| <= |x| {
      assert !OccursAt(x, o, 0);
      assert s[..|o|] == x[..|o|] && pat[..|o|] == o;
    } else if |x| < |s| {
      OpeningBraceFirst(key, |x|);
      assert s[|x|] == '{' != pat[|x|];
    }
  }

  /** Text holding no `{key.` contributes no placeholder when what follows starts one or is empty. */
  lemma {:induction false} PlaceholdersSkip(x: string, t: string, key: string)
    requires IsIdentifier(key) && !Contains(x, Opening(key)) && (t == [] || t[0] == '{')
    decreases |x|
    ensures Placeholders(x + t, key) == Placeholders(t, key)
  {
    if x != [] {
      NotAtFront(x, t, key, Opening(key));
      forall i: nat | i <= |x[1..]| ensures !OccursAt(x[1..], Opening(key), i) {
        OccursAtShift(x, Opening(key), 1, i);
      }
      assert (x + t)[1..] == x[1..] + t;
      PlaceholdersSkip(x[1..], t, key);
    } else {
      assert x + t == t;
    }
  }

  /** A placeholder at the front is found, and the search goes on after it. */
  lemma {:induction false} PlaceholdersAt(key: string, attr: string, t: string)
    requires IsIdentifier(key) && attr != [] && '}' !in attr
    ensures Placeholders(Placeholder(key, attr) + t, key) == [attr] + Placeholders(t, key)
  {
    PlaceholderParts(key, attr, t);
  }

  /** Where the parts of a placeholder followed by `t` stand. */
  lemma {:induction false} PlaceholderParts(key: string, attr: string, t: string)
    requires '}' !in attr
    ensures var s, p := Placeholder(key, attr) + t, |Opening(key)|;
      && Opening(key) <= s
      && FindCharFrom(s, '}', p) == Some(p + |attr|)
      && s[p..p + |attr|] == attr
      && s[p + |attr| + 1..] == t
  {
    var s := Placeholder(key, attr) + t;
    var p := |Opening(key)|;
    assert s == Opening(key) + (attr + "}" + t);
    forall i | p <= i < p + |attr| ensures s[i] != '}' {
      assert s[i] == attr[i - p];
    }
    assert s[p + |attr|] == '}';
  }

  /** `n` copies of `attr`. */
  function Copies(attr: string, n: nat): (r: seq<string>)
    ensures |r| == n && forall i :: 0 <= i < n ==> r[i] == attr
  {
    if n == 0 then [] else [attr] + Copies(attr, n - 1)
  }

  /** No piece holds the opening `{key.` of a placeholder of `key`. */
  predicate LacksOpening(pieces: seq<string>, key: string) {
    forall i :: 0 <= i < |pieces| ==> !Contains(pieces[i], Opening(key))
  }

  /** A template made of pieces without `{key.`, joined by one placeholder, holds that placeholder once per gap. */
  lemma {:induction false} PlaceholdersJoin(pieces: seq<string>, key: string, attr: string)
    requires IsIdentifier(key) && attr != [] && '}' !in attr
    requires pieces != [] && LacksOpening(pieces, key)
    decreases |pieces|
    ensures Placeholders(Join(pieces, Placeholder(key, attr)), key) == Copies(attr, |pieces| - 1)
  {
    var ph := Placeholder(key, attr);
    if |pieces| == 1 {
      PlaceholdersSkip(pieces[0], [], key);
      assert pieces[0] + [] == pieces[0];
    } else {
      var rest := Join(pieces[1..], ph);
      assert Join(pieces, ph) == pieces[0] + (ph + rest);
      PlaceholdersSkip(pieces[0], ph + rest, key);
      PlaceholdersAt(key, attr, rest);
      PlaceholdersJoin(pieces[1..], key, attr);
    }
  }

  /** Replacing a placeholder of `key` skips text without `{key.` when what follows starts with `{` or is empty. */
  lemma {:induction false} ReplaceSkip(x: string, t: string, key: string, attr: string, with: string)
    requires IsIdentifier(key) && !Contains(x, Opening(key)) && (t == [] || t[0] == '{')
    decreases |x|
    ensures Replace(x + t, Placeholder(key, attr), with) == x + Replace(t, Placeholder(key, attr), with)
  {
    var pat := Placeholder(key, attr);
    if x != [] {
      var s := x + t;
      NotAtFront(x, t, key, pat);
      forall i: nat | i <= |x[1..]| ensures !OccursAt(x[1..], Opening(key), i) {
        OccursAtShift(x, Opening(key), 1, i);
      }
      assert s[0] == x[0] && s[1..] == x[1..] + t;
      ReplaceSkip(x[1..], t, key, attr, with);
      if |pat| <= |s| {
        calc {
          Replace(s, pat, with);
          [s[0]] + Replace(x[1..] + t, pat, with);
          [x[0]] + (x[1..] + Replace(t, pat, with));
          { assert [x[0]] + x[1..] == x; }
          x + Replace(t, pat, with);
        }
      }
    } else {
      assert x + t == t;
    }
  }

  /** Replacing a placeholder in pieces without `{key.` joined by it puts the replacement in every gap. */
  lemma {:induction false} ReplaceJoin(pieces: seq<string>, key: string, attr: string, with: string)
    requires IsIdentifier(key) && LacksOpening(pieces, key)
    ensures Replace(Join(pieces, Placeholder(key, attr)), Placeholder(key, attr), with) == Join(pieces, with)
  {
    var pat := Placeholder(key, attr);
    if |pieces| == 1 {
      ReplaceSkip(pieces[0], [], key, attr, with);
      assert pieces[0] + [] == pieces[0];
    } else if |pieces| > 1 {
      var rest := Join(pieces[1..], pat);
      assert Join(pieces, pat) == pieces[0] + (pat + rest);
      ReplaceSkip(pieces[0], pat + rest, key, attr, with);
      assert pat <= pat + rest;
      assert (pat + rest)[|pat|..] == rest;
      ReplaceJoin(pieces[1..], key, attr, with);
    }
  }

  /**
   * The inner loop over `n` copies of one attribute name: the first replaces
   * every occurrence, and the later ones change nothing as long as the value
   * did not bring the placeholder back.
   */
  lemma {:induction false} ApplyAttrsCopies(pieces: seq<string>, key: string, o: Object, attr: string, n: nat)
    requires IsIdentifier(key) && attr in o && o[attr].Str? && LacksOpening(pieces, key)
    requires n > 1 ==> !Contains(Join(pieces, o[attr].text), Placeholder(key, attr))
    ensures ApplyAttrs(Join(pieces, Placeholder(key, attr)), key, o, Copies(attr, n))
         == if n == 0 then Join(pieces, Placeholder(key, attr)) else Join(pieces, o[attr].text)
  {
    if n > 0 {
      var ph, v := Placeholder(key, attr), o[attr].text;
      assert Copies(attr, n)[..n - 1] == Copies(attr, n - 1);
      ApplyAttrsCopies(pieces, key, o, attr, n - 1);
      if n == 1 {
        ReplaceJoin(pieces, key, attr, v);
      } else {
        ReplaceAbsent(Join(pieces, v), ph, v);
      }
    }
  }

  /**
   * For a single object with string attribute `attr`, every occurrence of its
   * placeholder in the template is replaced by the attribute's value, provided
   * the text between the occurrences holds no `{key.` (which would open a
   * placeholder swallowing the next one) and, when the placeholder occurs
   * twice or more, the result holds no occurrence of it either (each repeated
   * find of the name replaces again).
   */
  lemma {:induction false} FormatReplacesEveryOccurrence(pieces: seq<string>, key: string, attr: string, o: Object)
    requires IsIdentifier(key) && attr != [] && '}' !in attr && attr in o && o[attr].Str?
    requires pieces != [] && LacksOpening(pieces, key)
    requires |pieces| > 2 ==> !Contains(Join(pieces, o[attr].text), Placeholder(key, attr))
    ensures Format(Join(pieces, Placeholder(key, attr)), [(key, o)]) == Join(pieces, o[attr].text)
  {
    var s := Join(pieces, Placeholder(key, attr));
    PlaceholdersJoin(pieces, key, attr);
    ApplyAttrsCopies(pieces, key, o, attr, |pieces| - 1);
    if |pieces| == 1 {
      assert Join(pieces, o[attr].text) == s;
    }
  }

  /**
   * A placeholder inside an unterminated one is not replaced: in `{k.zz{k.a}`
   * the only name found is `zz{k.a`, which the object lacks, so `{k.a}` stays
   * although `k.a` is the string `A`.
   */
  lemma UnterminatedSwallowsNext()
    ensures Format("{k.zz{k.a}", [("k", map["a" := Str("A")])]) == "{k.zz{k.a}"
  {
    PlaceholdersAt("k", "zz{k.a", []);
    assert Placeholder("k", "zz{k.a") + [] == "{k.zz{k.a}";
    FormatWithoutStringAttributes("{k.zz{k.a}", "k", map["a" := Str("A")]);
  }

  /**
   * The attribute names found are the empty list exactly when no placeholder
   * of `key` with a non-empty name free of `}` occurs in the template.
   */
  lemma {:induction false} PlaceholdersNone(s: string, key: string)
    requires IsIdentifier(key)
    decreases |s|
    ensures Placeholders(s, key) == [] <==> forall a :: a != [] && '}' !in a ==> !Contains(s, Placeholder(key, a))
  {
    if Placeholders(s, key) != [] {
      var a := Placeholders(s, key)[0];
      assert a in Placeholders(s, key);
    }
    forall a | a != [] && '}' !in a && Contains(s, Placeholder(key, a))
      ensures Placeholders(s, key) != []
    {
      var ph := Placeholder(key, a);
      var i: nat :| i <= |s| && OccursAt(s, ph, i);
      if i == 0 {
        assert s == ph + s[|ph|..];
        PlaceholderParts(key, a, s[|ph|..]);
      } else if Placeholders(s, key) == Placeholders(s[1..], key) {
        OccursAtShift(s, ph, 1, i - 1);
        PlaceholdersNone(s[1..], key);
      }
    }
  }

  /** The template `{a.x}` holds one placeholder of `a`, naming `x`. */
  lemma ExamplePlaceholdersOfA()
    ensures Placeholders("{a.x}", "a") == ["x"]
  {
    PlaceholdersAt("a", "x", []);
    assert Placeholder("a", "x") + [] == "{a.x}";
  }

  /** Replacing the whole template. */
  lemma ExampleReplace()
    ensures Replace("{a.x}", "{a.x}", "{b.y}") == "{b.y}"
  {
    ReplaceJoin(["", ""], "a", "x", "{b.y}");
    assert Join(["", ""], "{a.x}") == "{a.x}";
    assert Join(["", ""], "{b.y}") == "{b.y}";
  }

  /** The template `{a.x}` with object `a` whose `x` is the text `{b.y}`. */
  lemma ExampleFirstObject()
    ensures Format("{a.x}", [("a", map["x" := Str("{b.y}")])]) == "{b.y}"
  {
    var oa: Object := map["x" := Str("{b.y}")];
    ExamplePlaceholdersOfA();
    ExampleReplace();
    assert [("a", oa)][..0] == [];
    assert ["x"][..0] == [];
    assert Placeholder("a", "x") == "{a.x}";
    calc {
      Format("{a.x}", [("a", oa)]);
      ApplyAttrs(Format("{a.x}", []), "a", oa, ["x"]);
      ApplyAttrs("{a.x}", "a", oa, ["x"]);
      Replace(ApplyAttrs("{a.x}", "a", oa, []), "{a.x}", "{b.y}");
      "{b.y}";
    }
  }

  /** The template `{a.x}` holds no placeholder of `b`. */
  lemma ExampleNoPlaceholderOfB()
    ensures Placeholders("{a.x}", "b") == []
  {
    assert "{a.x}"[..3][1] != Opening("b")[1];
    PlaceholdersSkip("a.x}", [], "b");
    assert "{a.x}"[1..] == "a.x}" + [];
  }

  /** The keyword arguments `a=…` and `a=…, b=…` are well formed. */
  lemma {:induction false} ExampleKwargs(oa: Object, ob: Object)
    ensures ValidKwargs([("a", oa)]) && ValidKwargs([("a", oa)] + [("b", ob)])
  {
    var kwargs := [("a", oa)] + [("b", ob)];
    assert IsIdentifier("a") && IsIdentifier("b") && "a" != "b";
    assert kwargs[0].0 == "a" && kwargs[1].0 == "b";
  }

  /**
   * A value that looks like another object's placeholder is not expanded:
   * `{a.x}` becomes `{b.y}` and stays so, although `b.y` is the string `Z`.
   */
  lemma SubstitutedTextNotSearched()
    ensures Format("{a.x}", [("a", map["x" := Str("{b.y}")]), ("b", map["y" := Str("Z")])]) == "{b.y}"
  {
    var oa: Object, ob: Object := map["x" := Str("{b.y}")], map["y" := Str("Z")];
    ExampleFirstObject();
    ExampleNoPlaceholderOfB();
    ExampleKwargs(oa, ob);
    assert [("a", oa), ("b", ob)] == [("a", oa)] + [("b", ob)];
    FormatSearchesOriginal("{a.x}", [("a", oa)], "b", ob);
  }
}
