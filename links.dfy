/**
  Link triage in `_discover_important_links` and `_heuristic_link_filtering`:
  which links of the page count as internal, the order they are sorted into,
  and the keyword score that picks the links worth visiting when the language
  model gives no answer.
 */
module Links {
  import opened Values
  import opened Text
  import opened Seqs

  /** One link as the in-page script reports it. `className` and `parentElement` are never read. */
  datatype Link = Link(href: string, text: string, title: string, location: string, priority: int)

  // ---- The internal-link filter ----

  /** A link is kept when its href is non-empty, holds the site's domain, and is neither a phone nor a mail link. */
  predicate Internal(l: Link, domain: string)
  {
    && l.href != []
    && Contains(l.href, domain)
    && !StartsWith(l.href, "tel:")
    && !StartsWith(l.href, "mailto:")
    && !Contains(Lower(l.href), "tel:")
  }

  /** The internal links, in page order. */
  function InternalLinks(links: seq<Link>, domain: string): seq<Link>
  {
    Filter(links, (l: Link) => Internal(l, domain))
  }

  /** A link is among the internal links exactly when it is on the page and passes the filter. */
  lemma InternalMembers(links: seq<Link>, domain: string, l: Link)
    ensures l in InternalLinks(links, domain) <==> l in links && Internal(l, domain)
  {
    FilterMembers(links, (l: Link) => Internal(l, domain), l);
  }

  /** The loop that appends the links passing the filter. */
  method FilterInternalLinks(links: seq<Link>, domain: string) returns (r: seq<Link>)
    ensures r == InternalLinks(links, domain)
  {
    r := [];
    for i := 0 to |links|
      invariant r == InternalLinks(links[..i], domain)
    {
      assert links[..i + 1][..i] == links[..i];
      if Internal(links[i], domain) {
        r := r + [links[i]];
      }
    }
    assert links[..|links|] == links;
  }

  /** The sort key `(priority, text.lower())`. */
  function LinkKey(l: Link): (int, string)
  {
    (l.priority, Lower(l.text))
  }

  /** Python's `<` on `(int, str)` tuples. */
  predicate KeyLess(a: (int, string), b: (int, string))
  {
    a.0 < b.0 || (a.0 == b.0 && LexLess(a.1, b.1))
  }

  lemma KeyLessStrict()
    ensures StrictOrder(KeyLess)
  {
    forall a: (int, string) ensures !KeyLess(a, a) {
      LexLessIrreflexive(a.1);
    }
    forall a: (int, string), b: (int, string), c: (int, string) | KeyLess(a, b) && KeyLess(b, c)
      ensures KeyLess(a, c)
    {
      if a.0 == b.0 && b.0 == c.0 {
        LexLessTransitive(a.1, b.1, c.1);
      }
    }
  }

  /** `internal_links.sort(key=lambda x: (x['priority'], x['text'].lower()))`. */
  function SortedInternal(links: seq<Link>, domain: string): seq<Link>
  {
    SortBy(InternalLinks(links, domain), LinkKey, KeyLess)
  }

  /** The sorted list holds the internal links, each as often as before, with no key above a later one's, and links with equal keys in page order. */
  lemma SortedInternalOrder(links: seq<Link>, domain: string, k: (int, string))
    ensures multiset(SortedInternal(links, domain)) == multiset(InternalLinks(links, domain))
    ensures SortedBy(SortedInternal(links, domain), LinkKey, KeyLess)
    ensures WithKey(SortedInternal(links, domain), LinkKey, k) == WithKey(InternalLinks(links, domain), LinkKey, k)
  {
    KeyLessStrict();
    SortBySorted(InternalLinks(links, domain), LinkKey, KeyLess);
    SortByStable(InternalLinks(links, domain), LinkKey, KeyLess, k);
  }

  /** The locations whose links count as header navigation. */
  predicate HeaderLocation(location: string)
  {
    location == "header" || location == "menu"
  }

  /** `set(link['href'] for link in header_nav_links)`. */
  function HeaderNavUrls(links: seq<Link>): (urls: set<string>)
    ensures forall u :: u in urls <==> exists i :: 0 <= i < |links| && HeaderLocation(links[i].location) && links[i].href == u
  {
    set i | 0 <= i < |links| && HeaderLocation(links[i].location) :: links[i].href
  }

  // ---- The heuristic fallback ----

  const ImportantKeywords: seq<string> := [
    "program", "class", "course", "lesson", "staff", "instructor", "coach", "teacher",
    "about", "schedule", "calendar", "pricing", "price", "fee", "cost", "policy",
    "registration", "enroll", "contact", "location", "facility"
  ]

  const NavTerms: seq<string> := ["programs", "classes", "staff", "about", "contact", "schedule", "pricing"]

  /** `sum(1 for word in words if word in text)`. */
  function Hits(text: string, words: seq<string>): (n: nat)
    ensures n <= |words|
  {
    |Filter(words, (w: string) => Contains(text, w))|
  }

  /** No word is counted exactly when none of them occurs. */
  lemma HitsZero(text: string, words: seq<string>)
    ensures Hits(text, words) == 0 <==> forall j :: 0 <= j < |words| ==> !Contains(text, words[j])
  {
    var f := Filter(words, (w: string) => Contains(text, w));
    if f != [] {
      FilterMembers(words, (w: string) => Contains(text, w), f[0]);
    }
    forall j | 0 <= j < |words| && Contains(text, words[j]) ensures f != [] {
      FilterMembers(words, (w: string) => Contains(text, w), words[j]);
    }
  }

  /** `location_scores.get(location, 25)`. */
  function LocationScore(location: string): int
  {
    if HeaderLocation(location) then 100
    else if location == "sidebar" then 50
    else if location == "content" then 25
    else if location == "footer" then 10
    else 25
  }

  /** The lowercased text and title the keywords are looked for in. */
  function LinkText(l: Link): string
  {
    Lower(l.text + " " + l.title)
  }

  /** The location's score, 20 per keyword and 30 per navigation term found. */
  function Score(l: Link): int
  {
    LocationScore(l.location) + 20 * Hits(LinkText(l), ImportantKeywords) + 30 * Hits(LinkText(l), NavTerms)
  }

  /** A link that passed the score threshold: `(href, score, location)`. */
  datatype Scored = Scored(href: string, score: int, location: string)

  function ScoredOf(l: Link): Scored
  {
    Scored(l.href, Score(l), l.location)
  }

  predicate AboveThreshold(l: Link)
  {
    Score(l) > 30
  }

  /** The `scored_links` list: the links scoring above 30, in order. */
  function ScoredLinks(links: seq<Link>): seq<Scored>
  {
    MapFilter(links, AboveThreshold, ScoredOf)
  }

  /** Header, menu and sidebar links always pass; content links and links of an unknown location pass exactly when some keyword or navigation term occurs; footer links need two keywords or one navigation term. */
  lemma KeptByLocation(l: Link)
    ensures HeaderLocation(l.location) || l.location == "sidebar" ==> Score(l) > 30
    ensures !HeaderLocation(l.location) && l.location !in ["sidebar", "footer"] ==>
      (Score(l) > 30 <==> Hits(LinkText(l), ImportantKeywords) + Hits(LinkText(l), NavTerms) > 0)
    ensures l.location == "footer" ==>
      (Score(l) > 30 <==> Hits(LinkText(l), ImportantKeywords) >= 2 || Hits(LinkText(l), NavTerms) >= 1)
  {
  }

  /** An entry of `scored_links` is the score record of a link scoring above 30, and every such link has one. */
  lemma ScoredMembers(links: seq<Link>, x: Scored)
    ensures x in ScoredLinks(links) <==> exists i :: 0 <= i < |links| && Score(links[i]) > 30 && x == ScoredOf(links[i])
  {
    MapFilterMembers(links, AboveThreshold, ScoredOf, x);
  }

  /** The loop that scores every link and appends those above the threshold. */
  method ScoreLinks(links: seq<Link>) returns (scored: seq<Scored>)
    ensures scored == ScoredLinks(links)
  {
    scored := [];
    for i := 0 to |links|
      invariant scored == ScoredLinks(links[..i])
    {
      assert links[..i + 1][..i] == links[..i];
      var text := Lower(links[i].text + " " + links[i].title);
      var score := LocationScore(links[i].location);
      score := score + Hits(text, ImportantKeywords) * 20;
      score := score + Hits(text, NavTerms) * 30;
      if score > 30 {
        scored := scored + [Scored(links[i].href, score, links[i].location)];
      }
    }
    assert links[..|links|] == links;
  }

  /** `reverse=True` on an integer key: a larger score comes first, ties keep their order. */
  predicate Higher(a: int, b: int)
  {
    a > b
  }

  function ScoreKey(x: Scored): int
  {
    x.score
  }

  /** `scored_links.sort(key=lambda x: x[1], reverse=True)`. */
  function ByScore(s: seq<Scored>): seq<Scored>
  {
    SortBy(s, ScoreKey, Higher)
  }

  /** Sorting by score keeps every entry, puts no score below a later one, and keeps entries of one score in their order. */
  lemma ByScoreOrder(s: seq<Scored>, k: int)
    ensures multiset(ByScore(s)) == multiset(s)
    ensures forall i, j :: 0 <= i < j < |ByScore(s)| ==> ByScore(s)[i].score >= ByScore(s)[j].score
    ensures WithKey(ByScore(s), ScoreKey, k) == WithKey(s, ScoreKey, k)
  {
    assert StrictOrder(Higher);
    SortBySorted(s, ScoreKey, Higher);
    SortByStable(s, ScoreKey, Higher, k);
  }

  /** The hrefs of the entries whose location is (or is not) header navigation, in order. */
  function HrefsWhere(s: seq<Scored>, header: bool): (r: seq<string>)
    ensures |r| <= |s|
  {
    if s == [] then []
    else
      var x := s[|s| - 1];
      HrefsWhere(s[..|s| - 1], header) + (if HeaderLocation(x.location) == header then [x.href] else [])
  }

  lemma {:induction false} HrefsWhereMembers(s: seq<Scored>, header: bool, u: string)
    ensures u in HrefsWhere(s, header) <==>
      exists i :: 0 <= i < |s| && HeaderLocation(s[i].location) == header && s[i].href == u
  {
    if s != [] {
      var n := |s| - 1;
      HrefsWhereMembers(s[..n], header, u);
      if exists i :: 0 <= i < |s| && HeaderLocation(s[i].location) == header && s[i].href == u {
        var i :| 0 <= i < |s| && HeaderLocation(s[i].location) == header && s[i].href == u;
        if i < n { assert s[..n][i] == s[i]; }
      }
    }
  }

  /** `header_nav_links[:15] + other_links[:10]`. */
  function Important(links: seq<Link>): seq<string>
  {
    var sorted := ByScore(ScoredLinks(links));
    Prefix(HrefsWhere(sorted, true), 15) + Prefix(HrefsWhere(sorted, false), 10)
  }

  /** `list(dict.fromkeys(important_links))[:25]`. */
  function HeuristicSelection(links: seq<Link>): seq<string>
  {
    Prefix(Dedupe(Important(links)), 25)
  }

  /** The method form of the fallback: score, sort, split by location, join, dedupe, cut. */
  method HeuristicLinkFiltering(links: seq<Link>) returns (r: seq<string>)
    ensures r == HeuristicSelection(links)
  {
    var scored := ScoreLinks(links);
    scored := SortBy(scored, ScoreKey, Higher);
    var header := HrefsWhere(scored, true);
    var other := HrefsWhere(scored, false);
    var important := Prefix(header, 15) + Prefix(other, 10);
    r := Prefix(Dedupe(important), 25);
  }

  /** The result has no repeated href and at most 25 of them; the cut at 25 never removes one, since at most 25 are joined. */
  lemma SelectionBounds(links: seq<Link>)
    ensures Distinct(HeuristicSelection(links))
    ensures HeuristicSelection(links) == Dedupe(Important(links))
    ensures |HeuristicSelection(links)| <= 25
  {
  }

  /** The kept header and menu hrefs, deduplicated, open the result, ahead of every other href; what follows them is at most 10 hrefs, each among the first 10 other hrefs and none a kept header href. */
  lemma SelectionHeaderFirst(links: seq<Link>)
    ensures var header := Dedupe(Prefix(HrefsWhere(ByScore(ScoredLinks(links)), true), 15));
      |header| <= |HeuristicSelection(links)| && HeuristicSelection(links)[..|header|] == header
    ensures var header := Dedupe(Prefix(HrefsWhere(ByScore(ScoredLinks(links)), true), 15));
      |HeuristicSelection(links)| - |header| <= 10
    ensures var header := Dedupe(Prefix(HrefsWhere(ByScore(ScoredLinks(links)), true), 15));
      forall u :: u in HeuristicSelection(links)[|header|..] ==>
        u in Prefix(HrefsWhere(ByScore(ScoredLinks(links)), false), 10) && u !in header
  {
    var sorted := ByScore(ScoredLinks(links));
    var a := Prefix(HrefsWhere(sorted, true), 15);
    var b := Prefix(HrefsWhere(sorted, false), 10);
    SelectionBounds(links);
    assert HeuristicSelection(links) == Dedupe(a + b);
    DedupeConcatPrefix(a, b);
    DedupeConcatRest(a, b);
  }

  /** Every href of the result belongs to a link on the page scoring above 30. */
  lemma SelectionFromKeptLinks(links: seq<Link>, u: string)
    requires u in HeuristicSelection(links)
    ensures exists i :: 0 <= i < |links| && Score(links[i]) > 30 && links[i].href == u
  {
    var scored := ScoredLinks(links);
    var sorted := ByScore(scored);
    var header := HrefsWhere(sorted, true);
    var other := HrefsWhere(sorted, false);
    assert u in Important(links);
    var x: Scored;
    if u in Prefix(header, 15) {
      assert u in header;
      HrefsWhereMembers(sorted, true, u);
      var i :| 0 <= i < |sorted| && HeaderLocation(sorted[i].location) && sorted[i].href == u;
      x := sorted[i];
    } else {
      assert u in Prefix(other, 10);
      assert u in other;
      HrefsWhereMembers(sorted, false, u);
      var i :| 0 <= i < |sorted| && !HeaderLocation(sorted[i].location) && sorted[i].href == u;
      x := sorted[i];
    }
    assert x in multiset(sorted);
    ByScoreOrder(scored, 0);
    assert x in scored;
    ScoredMembers(links, x);
  }
}
