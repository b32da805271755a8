/**
 * `username_password_from_url`: the user name and password embedded in the
 * authority of a URL (`user:password@host`, section 3.2.1 of RFC 3986),
 * each percent-decoded the way Python 2's `urllib.unquote` does it.
 * The URL's network location (what `urlparse` returns as `netloc`) is the input.
 */
module Credentials {
  import opened Options
  import opened Text

  /** What the source returns: `(None, None)`, a pair of strings, or the
      `ValueError` raised when the unpacking finds no `:` before the `@`. */
  datatype Auth = NoAuth | Auth(username: string, password: string) | UnpackError

  predicate IsHexDigit(c: char) {
    '0' <= c <= '9' || 'a' <= c <= 'f' || 'A' <= c <= 'F'
  }

  function HexValue(c: char): (v: nat)
    requires IsHexDigit(c)
    ensures v < 16
  {
    if '0' <= c <= '9' then c as nat - '0' as nat
    else if 'a' <= c <= 'f' then c as nat - 'a' as nat + 10
    else c as nat - 'A' as nat + 10
  }

  /** The upper-case hex digit of `v`. */
  function HexDigit(v: nat): (c: char)
    requires v < 16
    ensures IsHexDigit(c) && HexValue(c) == v
  {
    if v < 10 then ('0' as nat + v) as char else ('A' as nat + v - 10) as char
  }

  /**
   * `urllib.unquote`: every `%` followed by two hex digits (either case)
   * becomes the character with that code; any other `%` stays as it is.
   * A decoded character is never scanned again.
   */
  function Unquote(s: string): (r: string)
    decreases |s|
    ensures |r| <= |s|
    ensures '%' !in s ==> r == s
  {
    if s == [] then []
    else if s[0] == '%' && |s| >= 3 && IsHexDigit(s[1]) && IsHexDigit(s[2]) then
      [(HexValue(s[1]) * 16 + HexValue(s[2])) as char] + Unquote(s[3..])
    else
      [s[0]] + Unquote(s[1..])
  }

  /** The characters a client must escape inside the user-information part. */
  predicate MustEscape(c: char) {
    c == '%' || c == ':' || c == '@'
  }

  /** Percent-encoding of the characters that `MustEscape`; the reference inverse of `Unquote`. */
  function Quote(s: string): (r: string)
    ensures forall i :: 0 <= i < |r| ==> r[i] != ':' && r[i] != '@'
  {
    if s == [] then []
    else if MustEscape(s[0]) then
      ['%', HexDigit(s[0] as nat / 16), HexDigit(s[0] as nat % 16)] + Quote(s[1..])
    else
      [s[0]] + Quote(s[1..])
  }

  /** Decoding undoes encoding. */
  lemma {:induction false} UnquoteQuote(s: string)
    ensures Unquote(Quote(s)) == s
  {
    if s != [] {
      UnquoteQuote(s[1..]);
      var q := Quote(s);
      if MustEscape(s[0]) {
        var hi, lo := s[0] as nat / 16, s[0] as nat % 16;
        assert q[0] == '%' && q[1] == HexDigit(hi) && q[2] == HexDigit(lo);
        assert q[3..] == Quote(s[1..]);
        assert (HexValue(q[1]) * 16 + HexValue(q[2])) as char == s[0];
      } else {
        assert q[1..] == Quote(s[1..]);
      }
    }
  }

  /**
   * The split of the source: nothing without an `@`; otherwise the text before
   * the first `@` is split at its first `:` into user name and password, and
   * a missing `:` is the unpacking error.
   */
  function UsernamePassword(netloc: string): (r: Auth)
    ensures r == NoAuth <==> '@' !in netloc
    ensures r.UnpackError? <==> '@' in netloc && ':' !in SplitOnce(netloc, '@')[0]
  {
    var parts := SplitOnce(netloc, '@');
    if |parts| == 1 then NoAuth
    else
      var userinfo := SplitOnce(parts[0], ':');
      if |userinfo| == 1 then UnpackError
      else Auth(Unquote(userinfo[0]), Unquote(userinfo[1]))
  }

  /**
   * Every network location `u:p@h` with no `:` or `@` in `u` and no `@` in `p`
   * yields the decoded `u` and `p`; with `SplitOnce` this covers every input
   * that has a `:` before its first `@`.
   */
  lemma {:induction false} UsernamePasswordSplit(u: string, p: string, h: string)
    requires ':' !in u && '@' !in u && '@' !in p
    ensures UsernamePassword(u + ":" + p + "@" + h) == Auth(Unquote(u), Unquote(p))
  {
    assert u + ":" + p + "@" + h == (u + ":" + p) + ['@'] + h;
    SplitOnceAt(u + ":" + p, '@', h);
    assert u + ":" + p == u + [':'] + p;
    SplitOnceAt(u, ':', p);
  }

  /** Credentials written with `Quote` into a network location are read back unchanged. */
  lemma {:induction false} UsernamePasswordRoundTrip(user: string, password: string, host: string)
    ensures UsernamePassword(Quote(user) + ":" + Quote(password) + "@" + host) == Auth(user, password)
  {
    UsernamePasswordSplit(Quote(user), Quote(password), host);
    UnquoteQuote(user);
    UnquoteQuote(password);
  }
}
