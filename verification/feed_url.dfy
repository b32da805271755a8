/**
 * `normalize_feed_url`: turns a subscription URL into one that a download
 * tool understands (`http://` or `ftp://`), rewriting the `feed://` pseudo
 * scheme to `http://` and rejecting everything else.
 */
module FeedUrl {
  import opened Options

  /**
   * `None` for input shorter than 8 characters or with a scheme other than
   * http, ftp or feed; http and ftp URLs unchanged; `feed://X` becomes `http://X`.
   */
  function NormalizeFeedUrl(url: string): (r: Option<string>)
    ensures r.None? <==> |url| < 8 || !("http://" <= url || "ftp://" <= url || "feed://" <= url)
    ensures ("http://" <= url || "ftp://" <= url) && |url| >= 8 ==> r == Some(url)
    ensures "feed://" <= url && |url| >= 8 ==> r == Some("http://" + url[|"feed://"|..])
    ensures r.Some? ==> ("http://" <= r.value || "ftp://" <= r.value) && |r.value| == |url|
  {
    if |url| < 8 then None
    else if "http://" <= url || "ftp://" <= url then
      SchemesDisjoint(url);
      Some(url)
    else if "feed://" <= url then Some("http://" + url[7..])
    else None
  }

  /** A URL has at most one of the three schemes: the second characters differ. */
  lemma {:induction false} SchemesDisjoint(url: string)
    ensures "feed://" <= url ==> !("http://" <= url) && !("ftp://" <= url)
  {
    if "feed://" <= url {
      assert url[1] == 'e';
    }
  }

  /** A normalised URL is a fixed point: normalising it again gives it back. */
  lemma {:induction false} NormalizeIdempotent(url: string)
    ensures NormalizeFeedUrl(url).Some? ==> NormalizeFeedUrl(NormalizeFeedUrl(url).value) == NormalizeFeedUrl(url)
  {
  }

  /** The pseudo scheme and the scheme it stands for normalise to the same URL. */
  lemma {:induction false} FeedAndHttpAgree(rest: string)
    requires |rest| >= 1
    ensures NormalizeFeedUrl("feed://" + rest) == NormalizeFeedUrl("http://" + rest) == Some("http://" + rest)
  {
    assert ("feed://" + rest)[7..] == rest;
  }
}
