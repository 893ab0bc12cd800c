/**
  The parts of a URL the extractor looks at: the host (`urlparse(url).netloc`),
  the text after the host, and the last path segment a page title is made from.
 */
module Urls {
  import opened Values
  import opened Text

  /** The first position at or after `i` where `p` occurs, or -1. */
  function IndexFrom(s: string, p: string, i: nat): (r: int)
    requires i <= |s|
    ensures r == -1 <==> !ContainsFrom(s, p, i)
    ensures r != -1 ==> i <= r <= |s| && MatchAt(s, p, r) && forall j :: i <= j < r ==> !MatchAt(s, p, j)
    decreases |s| - i
  {
    if MatchAt(s, p, i) then i
    else if i == |s| then -1
    else IndexFrom(s, p, i + 1)
  }

  /** The characters that end the host part of a URL. */
  predicate EndsHost(c: char)
  {
    c == '/' || c == '?' || c == '#'
  }

  /** The first position at or after `i` that ends the host, or the length. */
  function HostEnd(s: string, i: nat): (r: nat)
    requires i <= |s|
    ensures i <= r <= |s|
    ensures forall j :: i <= j < r ==> !EndsHost(s[j])
    ensures r < |s| ==> EndsHost(s[r])
    decreases |s| - i
  {
    if i == |s| || EndsHost(s[i]) then i else HostEnd(s, i + 1)
  }

  /** The host ends at the first host-ending character. */
  lemma {:induction false} HostEndAt(s: string, i: nat, k: nat)
    requires i <= k < |s| && EndsHost(s[k]) && forall j :: i <= j < k ==> !EndsHost(s[j])
    ensures HostEnd(s, i) == k
    decreases k - i
  {
    if i < k {
      HostEndAt(s, i + 1, k);
    }
  }

  /** Where the host starts: just after the first "://", if there is one. */
  function HostStart(url: string): (r: Option<nat>)
    ensures r.Some? ==> 3 <= r.value <= |url| && url[r.value - 3..r.value] == "://"
    ensures r.None? <==> !Contains(url, "://")
  {
    var k := IndexFrom(url, "://", 0);
    if k == -1 then None
    else
      MatchAtSlice(url, "://", k);
      Some(k + 3)
  }

  /** `urlparse(url).netloc`: the text between "://" and the next '/', '?' or '#'; empty without a scheme. */
  function Netloc(url: string): (host: string)
    ensures forall j :: 0 <= j < |host| ==> !EndsHost(host[j])
    ensures HostStart(url).None? ==> host == []
  {
    match HostStart(url)
    case None => []
    case Some(h) => url[h..HostEnd(url, h)]
  }

  /** The URL from the end of its host on: the path, query and fragment. */
  function AfterHost(url: string): (rest: string)
    ensures rest == [] || EndsHost(rest[0]) || HostStart(url).None?
    ensures HostStart(url).None? ==> rest == url
  {
    match HostStart(url)
    case None => url
    case Some(h) => url[HostEnd(url, h)..]
  }

  /** The first occurrence of `p` from `i` on is at `k`. */
  lemma {:induction false} IndexFromAt(s: string, p: string, i: nat, k: nat)
    requires i <= k <= |s| && MatchAt(s, p, k) && forall j :: i <= j < k ==> !MatchAt(s, p, j)
    ensures IndexFrom(s, p, i) == k
    decreases k - i
  {
    if i < k {
      IndexFromAt(s, p, i + 1, k);
    }
  }

  /** The text after the host, for a URL whose first "://" is at `k` and whose host ends at `e`. */
  lemma AfterHostAt(url: string, k: nat, e: nat)
    requires k + 3 <= e < |url| && MatchAt(url, "://", k) && forall j :: 0 <= j < k ==> !MatchAt(url, "://", j)
    requires EndsHost(url[e]) && forall j :: k + 3 <= j < e ==> !EndsHost(url[j])
    ensures HostStart(url) == Some(k + 3)
    ensures AfterHost(url) == url[e..]
  {
    IndexFromAt(url, "://", 0, k);
    HostEndAt(url, k + 3, e);
  }

  /** A URL with a scheme is its scheme part, the host and the rest, glued back together. */
  lemma UrlSplits(url: string)
    requires HostStart(url).Some?
    ensures url == url[..HostStart(url).value] + Netloc(url) + AfterHost(url)
  {
    var h := HostStart(url).value;
    assert url == url[..h] + url[h..HostEnd(url, h)] + url[HostEnd(url, h)..];
  }

  /** `url.split('/')[-1]`: the text after the last '/'. */
  function LastSegment(url: string): (seg: string)
    ensures '/' !in seg
    ensures |seg| <= |url| && url[|url| - |seg|..] == seg
  {
    var k := RFind(url, '/');
    if k == -1 then url else url[k + 1..]
  }

  /** `.replace('-', ' ').replace('_', ' ')`. */
  function Unhyphenate(s: string): (r: string)
    ensures |r| == |s|
    ensures forall i :: 0 <= i < |s| ==> r[i] == (if s[i] == '-' || s[i] == '_' then ' ' else s[i])
  {
    if s == [] then []
    else [if s[0] == '-' || s[0] == '_' then ' ' else s[0]] + Unhyphenate(s[1..])
  }
}
