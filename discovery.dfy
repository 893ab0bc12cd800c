/**
  Site discovery and the visiting order: `_discover_important_links`,
  `_discover_site_structure`, `_is_header_navigation_link` and the page
  selection at the start of `_browse_and_extract_content`, over the state of
  `EnhancedAIBusinessExtractor` that they read and write.
 */
module Discovery {
  import opened Values
  import opened Seqs
  import opened Urls
  import opened Triage
  import opened Links

  function UrlOf(p: PageInfo): string
  {
    p.url
  }

  /** `[p.url for p in pages]`. */
  function PageUrls(pages: seq<PageInfo>): (us: seq<string>)
    ensures |us| == |pages| && forall i :: 0 <= i < |pages| ==> us[i] == pages[i].url
  {
    seq(|pages|, i requires 0 <= i < |pages| => pages[i].url)
  }

  /** The links the discovery loop goes through: the language model's answer when there is one, the heuristic choice among the sorted internal links otherwise. */
  function ImportantLinks(allLinks: seq<Link>, baseUrl: string, answer: Option<seq<string>>): seq<string>
  {
    match answer
    case Some(urls) => urls
    case None => HeuristicSelection(SortedInternal(allLinks, Netloc(baseUrl)))
  }

  /** What every page a categorizer returns satisfies, as `CategorizePage` does: it is the page of the link it was asked about, with a priority in 1..5, neither visited nor extracted. */
  ghost predicate WellCategorized(categorize: string -> Option<PageInfo>)
  {
    forall l :: categorize(l).Some? ==>
      && categorize(l).value.url == l
      && 1 <= categorize(l).value.priority <= 5
      && !categorize(l).value.visited && !categorize(l).value.contentExtracted
  }

  lemma CategorizePageWell()
    ensures WellCategorized(CategorizePageAsWritten)
    ensures WellCategorized(CategorizePage)
  {
  }

  /** The header and other pages of the discovery loop, as written: a link is dropped only when
      it is skipped by `categorize` or its URL is among the pages discovered before the loop. */
  function CollectAsWritten(categorize: string -> Option<PageInfo>, known: seq<string>, nav: set<string>, links: seq<string>)
    : (r: (seq<PageInfo>, seq<PageInfo>))
    ensures |r.0| + |r.1| <= |links|
  {
    if links == [] then ([], [])
    else
      var (header, other) := CollectAsWritten(categorize, known, nav, links[..|links| - 1]);
      var l := links[|links| - 1];
      match categorize(l)
      case None => (header, other)
      case Some(p) =>
        if p.url in known then (header, other)
        else if l in nav then (header + [p.(priority := 1)], other)
        else (header, other + [p])
  }

  /** The discovery loop as the header-first dedupe intends: a link whose URL was already
      collected in this pass is dropped too. */
  function Collect(categorize: string -> Option<PageInfo>, known: seq<string>, nav: set<string>, links: seq<string>)
    : (r: (seq<PageInfo>, seq<PageInfo>))
    ensures |r.0| + |r.1| <= |links|
  {
    if links == [] then ([], [])
    else
      var (header, other) := Collect(categorize, known, nav, links[..|links| - 1]);
      var l := links[|links| - 1];
      match categorize(l)
      case None => (header, other)
      case Some(p) =>
        if p.url in known || p.url in PageUrls(header) || p.url in PageUrls(other) then (header, other)
        else if l in nav then (header + [p.(priority := 1)], other)
        else (header, other + [p])
  }

  /** As written, a link the discovery receives twice is discovered twice. */
  lemma DuplicateLinkAsWritten(categorize: string -> Option<PageInfo>, l: string, nav: set<string>)
    requires WellCategorized(categorize) && categorize(l).Some?
    ensures var (header, other) := CollectAsWritten(categorize, [], nav, [l, l]);
      PageUrls(header + other) == [l, l]
  {
    assert [l, l][..1] == [l];
    assert [l][..0] == [];
  }

  /** The intended loop discovers such a link once. */
  lemma DuplicateLinkOnce(categorize: string -> Option<PageInfo>, l: string, nav: set<string>)
    requires WellCategorized(categorize) && categorize(l).Some?
    ensures var (header, other) := Collect(categorize, [], nav, [l, l]);
      PageUrls(header + other) == [l]
  {
    assert [l, l][..1] == [l];
    assert [l][..0] == [];
    var p := categorize(l).value;
    var first := Collect(categorize, [], nav, [l]);
    assert Collect(categorize, [], nav, []) == ([], []);
    if l in nav {
      assert [] + [p.(priority := 1)] == [p.(priority := 1)];
      assert first == ([p.(priority := 1)], []);
      assert PageUrls(first.0)[0] == l;
    } else {
      assert [] + [p] == [p];
      assert first == ([], [p]);
      assert PageUrls(first.1)[0] == l;
    }
    assert Collect(categorize, [], nav, [l, l]) == first;
  }

  /** Header pages carry priority 1 and a header URL, the other pages a priority in 1..5 and a URL outside the header set, and no page is visited yet. */
  ghost predicate Shaped(nav: set<string>, header: seq<PageInfo>, other: seq<PageInfo>)
  {
    && (forall i :: 0 <= i < |header| ==>
      header[i].priority == 1 && header[i].url in nav && !header[i].visited && !header[i].contentExtracted)
    && (forall i :: 0 <= i < |other| ==>
      1 <= other[i].priority <= 5 && other[i].url !in nav && !other[i].visited && !other[i].contentExtracted)
  }

  /** The discovery loop, as written and as intended, only collects pages of that shape. */
  lemma {:induction false} CollectShape(categorize: string -> Option<PageInfo>, known: seq<string>, nav: set<string>, links: seq<string>)
    requires WellCategorized(categorize)
    ensures Shaped(nav, CollectAsWritten(categorize, known, nav, links).0, CollectAsWritten(categorize, known, nav, links).1)
    ensures Shaped(nav, Collect(categorize, known, nav, links).0, Collect(categorize, known, nav, links).1)
  {
    if links != [] {
      CollectShape(categorize, known, nav, links[..|links| - 1]);
    }
  }

  /** A URL is discovered exactly when it is among the links, was not known before, and is not skipped by `categorize`. */
  lemma {:induction false} CollectMembers(categorize: string -> Option<PageInfo>, known: seq<string>, nav: set<string>, links: seq<string>, u: string)
    requires WellCategorized(categorize)
    ensures var (header, other) := CollectAsWritten(categorize, known, nav, links);
      u in PageUrls(header + other) <==> u in links && u !in known && categorize(u).Some?
  {
    if links != [] {
      var n := |links| - 1;
      var (header, other) := CollectAsWritten(categorize, known, nav, links[..n]);
      CollectMembers(categorize, known, nav, links[..n], u);
      assert links == links[..n] + [links[n]];
      var l := links[n];
      assert PageUrls(header + other) == PageUrls(header) + PageUrls(other);
      if categorize(l).Some? {
        var p := categorize(l).value;
        if l in nav {
          assert PageUrls(header + [p.(priority := 1)] + other) == PageUrls(header) + [l] + PageUrls(other);
        } else {
          assert PageUrls(header + (other + [p])) == PageUrls(header) + PageUrls(other) + [l];
        }
      }
    }
  }

  /** The same holds for the intended loop. */
  lemma {:induction false} CollectMembersIntended(categorize: string -> Option<PageInfo>, known: seq<string>, nav: set<string>, links: seq<string>, u: string)
    requires WellCategorized(categorize)
    ensures var (header, other) := Collect(categorize, known, nav, links);
      u in PageUrls(header + other) <==> u in links && u !in known && categorize(u).Some?
  {
    if links != [] {
      var n := |links| - 1;
      var (header, other) := Collect(categorize, known, nav, links[..n]);
      CollectMembersIntended(categorize, known, nav, links[..n], u);
      CollectMembersIntended(categorize, known, nav, links[..n], links[n]);
      assert links == links[..n] + [links[n]];
      var l := links[n];
      assert PageUrls(header + other) == PageUrls(header) + PageUrls(other);
      if categorize(l).Some? {
        var p := categorize(l).value;
        if l in nav {
          assert PageUrls(header + [p.(priority := 1)] + other) == PageUrls(header) + [l] + PageUrls(other);
        } else {
          assert PageUrls(header + (other + [p])) == PageUrls(header) + PageUrls(other) + [l];
        }
      }
    }
  }

  /** No URL is discovered twice. */
  lemma {:induction false} CollectDistinct(categorize: string -> Option<PageInfo>, known: seq<string>, nav: set<string>, links: seq<string>)
    requires WellCategorized(categorize)
    ensures var (header, other) := Collect(categorize, known, nav, links);
      DistinctBy(header + other, UrlOf)
  {
    if links != [] {
      var n := |links| - 1;
      var (header, other) := Collect(categorize, known, nav, links[..n]);
      CollectDistinct(categorize, known, nav, links[..n]);
      var l := links[n];
      if categorize(l).Some? {
        var p := categorize(l).value;
        if !(l in known || l in PageUrls(header) || l in PageUrls(other)) {
          var s := header + other;
          forall i | 0 <= i < |s| ensures s[i].url != l {
            if i < |header| { assert PageUrls(header)[i] == s[i].url; }
            else { assert PageUrls(other)[i - |header|] == s[i].url; }
          }
          if l in nav {
            AppendInsideDistinct(header, other, p.(priority := 1));
          } else {
            assert header + (other + [p]) == s + [p];
          }
        }
      }
    }
  }

  /** On links without repeats the loop as written and the intended loop collect the same pages. */
  lemma {:induction false} CollectAgree(categorize: string -> Option<PageInfo>, known: seq<string>, nav: set<string>, links: seq<string>)
    requires WellCategorized(categorize) && Distinct(links)
    ensures CollectAsWritten(categorize, known, nav, links) == Collect(categorize, known, nav, links)
  {
    if links != [] {
      var n := |links| - 1;
      var l := links[n];
      assert Distinct(links[..n]);
      CollectAgree(categorize, known, nav, links[..n]);
      CollectMembersIntended(categorize, known, nav, links[..n], l);
      var (header, other) := Collect(categorize, known, nav, links[..n]);
      assert l !in links[..n];
      assert PageUrls(header + other) == PageUrls(header) + PageUrls(other);
    }
  }

  /** A page whose URL is new keeps the list without repeated URLs wherever it goes in. */
  lemma AppendInsideDistinct(a: seq<PageInfo>, b: seq<PageInfo>, p: PageInfo)
    requires DistinctBy(a + b, UrlOf)
    requires forall i :: 0 <= i < |a + b| ==> (a + b)[i].url != p.url
    ensures DistinctBy(a + [p] + b, UrlOf)
  {
    var s := a + b;
    var t := a + [p] + b;
    forall i, j | 0 <= i < j < |t| ensures t[i].url != t[j].url {
      if j < |a| {
        assert t[i] == s[i] && t[j] == s[j];
      } else if j == |a| {
        assert t[i] == s[i];
      } else if i < |a| {
        assert t[i] == s[i] && t[j] == s[j - 1];
      } else if i == |a| {
        assert t[j] == s[j - 1];
      } else {
        assert t[i] == s[i - 1] && t[j] == s[j - 1];
      }
    }
  }

  function PriorityOf(p: PageInfo): int
  {
    p.priority
  }

  predicate IntLess(a: int, b: int)
  {
    a < b
  }

  /** `header_pages.sort(key=priority)` and `other_pages.sort(key=priority)`, header pages first. */
  function SiteOrder(collected: (seq<PageInfo>, seq<PageInfo>)): seq<PageInfo>
  {
    SortBy(collected.0, PriorityOf, IntLess) + SortBy(collected.1, PriorityOf, IntLess)
  }

  /** Sorting the header pages changes nothing, since they all carry priority 1. */
  lemma HeaderSortKeepsOrder(header: seq<PageInfo>)
    requires forall i :: 0 <= i < |header| ==> header[i].priority == 1
    ensures SortBy(header, PriorityOf, IntLess) == header
  {
    assert StrictOrder(IntLess);
    SortByConstantKey(header, PriorityOf, IntLess, 1);
  }

  /** The discovered pages list every header page, in the order the links gave them, then the other pages by priority, ties in link order. */
  lemma SiteOrderShape(categorize: string -> Option<PageInfo>, known: seq<string>, nav: set<string>, links: seq<string>, k: int)
    requires WellCategorized(categorize)
    ensures var (header, other) := CollectAsWritten(categorize, known, nav, links);
      var pages := SiteOrder((header, other));
      && pages[..|header|] == header
      && multiset(pages[|header|..]) == multiset(other)
      && SortedBy(pages[|header|..], PriorityOf, IntLess)
      && WithKey(pages[|header|..], PriorityOf, k) == WithKey(other, PriorityOf, k)
  {
    CollectShape(categorize, known, nav, links);
    SiteOrderOf(nav, CollectAsWritten(categorize, known, nav, links).0, CollectAsWritten(categorize, known, nav, links).1, k);
  }

  /** The same order for the intended loop, which moreover lists no URL twice. */
  lemma SiteOrderShapeIntended(categorize: string -> Option<PageInfo>, known: seq<string>, nav: set<string>, links: seq<string>, k: int)
    requires WellCategorized(categorize)
    ensures var (header, other) := Collect(categorize, known, nav, links);
      var pages := SiteOrder((header, other));
      && pages[..|header|] == header
      && multiset(pages[|header|..]) == multiset(other)
      && SortedBy(pages[|header|..], PriorityOf, IntLess)
      && WithKey(pages[|header|..], PriorityOf, k) == WithKey(other, PriorityOf, k)
      && DistinctBy(pages, UrlOf)
  {
    CollectShape(categorize, known, nav, links);
    CollectDistinct(categorize, known, nav, links);
    SiteOrderOf(nav, Collect(categorize, known, nav, links).0, Collect(categorize, known, nav, links).1, k);
    SiteOrderDistinct(Collect(categorize, known, nav, links).0, Collect(categorize, known, nav, links).1);
  }

  /** `SiteOrder` on any header pages of priority 1 and other pages. */
  lemma SiteOrderOf(nav: set<string>, header: seq<PageInfo>, other: seq<PageInfo>, k: int)
    requires Shaped(nav, header, other)
    ensures var pages := SiteOrder((header, other));
      && pages[..|header|] == header
      && multiset(pages[|header|..]) == multiset(other)
      && SortedBy(pages[|header|..], PriorityOf, IntLess)
      && WithKey(pages[|header|..], PriorityOf, k) == WithKey(other, PriorityOf, k)
  {
    HeaderSortKeepsOrder(header);
    var sorted := SortBy(other, PriorityOf, IntLess);
    var pages := header + sorted;
    assert pages[..|header|] == header && pages[|header|..] == sorted;
    assert StrictOrder(IntLess);
    SortBySorted(other, PriorityOf, IntLess);
    SortByStable(other, PriorityOf, IntLess, k);
  }

  /** `SiteOrder` lists no URL twice when the collected pages do not. */
  lemma SiteOrderDistinct(header: seq<PageInfo>, other: seq<PageInfo>)
    requires forall i :: 0 <= i < |header| ==> header[i].priority == 1
    requires DistinctBy(header + other, UrlOf)
    ensures DistinctBy(SiteOrder((header, other)), UrlOf)
  {
    HeaderSortKeepsOrder(header);
    SortSecondDistinctBy(header, other, PriorityOf, IntLess, UrlOf);
  }

  /** The pages `_browse_and_extract_content` visits first: unvisited, priority 1. */
  predicate FirstWave(p: PageInfo)
  {
    !p.visited && p.priority == 1
  }

  /** The pages it visits after them: unvisited, a priority above 1. */
  predicate SecondWave(p: PageInfo)
  {
    !p.visited && p.priority > 1
  }

  /** The pages `_browse_and_extract_content` visits: the first wave, then the second, cut to `max_pages` by a Python slice. */
  function PagesToVisit(pages: seq<PageInfo>, maxPages: int): seq<PageInfo>
  {
    Prefix(Filter(pages, FirstWave) + Filter(pages, SecondWave), maxPages)
  }

  /** Only unvisited pages of the list are visited, at most `max_pages` of them, and no priority-1 page after a page of lower priority. */
  lemma PagesToVisitOrder(pages: seq<PageInfo>, maxPages: int)
    ensures maxPages >= 0 ==> |PagesToVisit(pages, maxPages)| <= maxPages
    ensures forall i :: 0 <= i < |PagesToVisit(pages, maxPages)| ==>
      PagesToVisit(pages, maxPages)[i] in pages && !PagesToVisit(pages, maxPages)[i].visited
      && PagesToVisit(pages, maxPages)[i].priority >= 1
    ensures forall i, j :: 0 <= i < j < |PagesToVisit(pages, maxPages)| ==>
      !(PagesToVisit(pages, maxPages)[i].priority > 1 && PagesToVisit(pages, maxPages)[j].priority == 1)
  {
    var header := Filter(pages, FirstWave);
    var other := Filter(pages, SecondWave);
    var r := PagesToVisit(pages, maxPages);
    FilterElements(pages, FirstWave);
    FilterElements(pages, SecondWave);
    assert r == (header + other)[..|r|];
    forall i, j | 0 <= i < j < |r| ensures !(r[i].priority > 1 && r[j].priority == 1) {
      if j < |header| {
        assert r[i] == header[i];
      } else {
        assert r[j] == other[j - |header|];
      }
    }
  }

  /** With room for all of them, every unvisited page of priority 1 or more is visited. */
  lemma PagesToVisitAll(pages: seq<PageInfo>, maxPages: int, p: PageInfo)
    requires maxPages >= |pages|
    ensures p in PagesToVisit(pages, maxPages) <==> p in pages && !p.visited && p.priority >= 1
  {
    FilterMembers(pages, FirstWave, p);
    FilterMembers(pages, SecondWave, p);
    FilterPartition(pages);
  }

  /** The two waves together are no longer than the list they come from. */
  lemma {:induction false} FilterPartition(pages: seq<PageInfo>)
    ensures |Filter(pages, FirstWave)| + |Filter(pages, SecondWave)| <= |pages|
  {
    if pages != [] {
      FilterPartition(pages[..|pages| - 1]);
    }
  }

  /** A list sorted by priority, all unvisited and of priority 1 or more, is its first wave followed by its second. */
  lemma SortedSplitsIntoWaves(s: seq<PageInfo>)
    requires forall i :: 0 <= i < |s| ==> !s[i].visited && s[i].priority >= 1
    requires SortedBy(s, PriorityOf, IntLess)
    ensures Filter(s, FirstWave) + Filter(s, SecondWave) == s
  {
    var n := FirstWhere(s, SecondWave, 0);
    forall i | n <= i < |s| ensures SecondWave(s[i]) && !FirstWave(s[i]) {
      if i > n { assert !IntLess(PriorityOf(s[i]), PriorityOf(s[n])); }
    }
    SplitFilters(s, FirstWave, SecondWave, n);
  }

  /** Browsing right after discovery visits the discovered pages in their stored order, as many as `max_pages` allows. */
  lemma VisitFollowsDiscovery(categorize: string -> Option<PageInfo>, known: seq<string>, nav: set<string>, links: seq<string>, maxPages: int)
    requires WellCategorized(categorize)
    ensures var pages := SiteOrder(CollectAsWritten(categorize, known, nav, links));
      PagesToVisit(pages, maxPages) == Prefix(pages, maxPages)
    ensures var pages := SiteOrder(Collect(categorize, known, nav, links));
      PagesToVisit(pages, maxPages) == Prefix(pages, maxPages)
  {
    CollectShape(categorize, known, nav, links);
    WavesOfSiteOrder(nav, CollectAsWritten(categorize, known, nav, links).0, CollectAsWritten(categorize, known, nav, links).1, maxPages);
    WavesOfSiteOrder(nav, Collect(categorize, known, nav, links).0, Collect(categorize, known, nav, links).1, maxPages);
  }

  /** `SiteOrder` of unvisited header pages of priority 1 and unvisited other pages of priority 1 or more is its own first wave followed by its second. */
  lemma WavesOfSiteOrder(nav: set<string>, header: seq<PageInfo>, other: seq<PageInfo>, maxPages: int)
    requires Shaped(nav, header, other)
    ensures PagesToVisit(SiteOrder((header, other)), maxPages) == Prefix(SiteOrder((header, other)), maxPages)
  {
    HeaderSortKeepsOrder(header);
    var sorted := SortBy(other, PriorityOf, IntLess);
    assert StrictOrder(IntLess);
    SortBySorted(other, PriorityOf, IntLess);
    forall i | 0 <= i < |sorted| ensures !sorted[i].visited && sorted[i].priority >= 1 {
      SortByMembers(other, PriorityOf, IntLess, sorted[i]);
    }
    SortedSplitsIntoWaves(sorted);
    SplitFiltersFront(header, sorted, FirstWave, SecondWave);
  }

  /** The loop of `_discover_site_structure`: each link is categorized, skipped when there is no page or its URL is among the pages discovered before, and added to the header pages with priority 1 when its URL is among the header navigation URLs (what `_is_header_navigation_link` checks), to the other pages otherwise. */
  method CollectPages(categorize: string -> Option<PageInfo>, known: seq<string>, nav: set<string>, links: seq<string>)
    returns (header: seq<PageInfo>, other: seq<PageInfo>)
    ensures (header, other) == CollectAsWritten(categorize, known, nav, links)
  {
    header, other := [], [];
    for i := 0 to |links|
      invariant (header, other) == CollectAsWritten(categorize, known, nav, links[..i])
    {
      assert links[..i + 1][..i] == links[..i];
      var pageInfo := categorize(links[i]);
      if pageInfo.Some? && pageInfo.value.url !in known {
        if links[i] in nav {
          header := header + [pageInfo.value.(priority := 1)];
        } else {
          other := other + [pageInfo.value];
        }
      }
    }
    assert links[..|links|] == links;
  }

  /** `EnhancedAIBusinessExtractor`, as far as discovery and browsing read and write it. */
  class Extractor {
    var maxPages: int
    var discoveredPages: seq<PageInfo>
    /** `_header_nav_urls`; before the first discovery it does not exist, which `_is_header_navigation_link` reads as empty. */
    var headerNavUrls: set<string>

    constructor (maxPages: int)
      ensures this.maxPages == maxPages && discoveredPages == [] && headerNavUrls == {}
    {
      this.maxPages := maxPages;
      discoveredPages := [];
      headerNavUrls := {};
    }

    /** `_discover_important_links`: filters and sorts the page's links, records the header and menu URLs, and returns the model's answer or the heuristic choice. */
    method DiscoverImportantLinks(allLinks: seq<Link>, baseUrl: string, answer: Option<seq<string>>) returns (urls: seq<string>)
      modifies this
      ensures headerNavUrls == HeaderNavUrls(SortedInternal(allLinks, Netloc(baseUrl)))
      ensures discoveredPages == old(discoveredPages) && maxPages == old(maxPages)
      ensures urls == ImportantLinks(allLinks, baseUrl, answer)
    {
      var domain := Netloc(baseUrl);
      var internal := FilterInternalLinks(allLinks, domain);
      internal := SortBy(internal, LinkKey, KeyLess);
      headerNavUrls := HeaderNavUrls(internal);
      if answer.Some? {
        return answer.value;
      }
      urls := HeuristicLinkFiltering(internal);
    }

    /** `_discover_site_structure`: categorizes every important link, forces header links to priority 1, and stores header pages before the others sorted by priority. */
    method DiscoverSiteStructure(allLinks: seq<Link>, baseUrl: string, answer: Option<seq<string>>)
      modifies this
      ensures headerNavUrls == HeaderNavUrls(SortedInternal(allLinks, Netloc(baseUrl)))
      ensures discoveredPages ==
        SiteOrder(CollectAsWritten(CategorizePageAsWritten, PageUrls(old(discoveredPages)), headerNavUrls, ImportantLinks(allLinks, baseUrl, answer)))
      ensures maxPages == old(maxPages)
    {
      var links := DiscoverImportantLinks(allLinks, baseUrl, answer);
      var header, other := CollectPages(CategorizePageAsWritten, PageUrls(discoveredPages), headerNavUrls, links);
      header := SortBy(header, PriorityOf, IntLess);
      other := SortBy(other, PriorityOf, IntLess);
      discoveredPages := header + other;
    }

    /** The page selection of `_browse_and_extract_content`. */
    function PagesToVisitNow(): (r: seq<PageInfo>)
      reads this
      ensures maxPages >= 0 ==> |r| <= maxPages
      ensures forall i :: 0 <= i < |r| ==> r[i] in discoveredPages && !r[i].visited
    {
      PagesToVisitOrder(discoveredPages, maxPages);
      PagesToVisit(discoveredPages, maxPages)
    }
  }
}
