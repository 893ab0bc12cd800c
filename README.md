# Class schedule extractor — a verified model of its decision logic

`class_schedule_extractor.py` crawls the web site of a gymnastics school with a
headless browser and a language model, then combines what every page yielded
into one `ComprehensiveBusinessData` record. This project models, in Dafny, the
deterministic logic around the browser and the model. It covers three groups.

- **Page-discovery loops.** These are the expansion of collapsible content, the
  systematic scroll, the load-more and infinite-scroll probes, and the fallback
  screenshot positions. They run against a `Page` object whose heights,
  visibility and click outcomes are fixed oracles supplied up front.
- **Link and page triage.** This covers the internal-link filter, the header-first
  link ordering, the heuristic link scoring, the keyword categorization of
  pages, and the header-first order in which pages are discovered and visited.
- **Cross-page data synthesis.** This covers program-name normalization, the
  grouping of programs by that name, the per-field merge rules of
  `_merge_two_programs`, instructor de-duplication, the aggregation of page
  results, the validation filters, and the brace slicing of the model's reply.

JSON-like values are the datatype `Values.Value` (`None`, booleans, integers,
strings, lists, dicts). Python truthiness is the predicate `Truthy`. Every
`TypeError`, `AttributeError` or `IndexError` the code would raise on a field
value the model types as `Value` becomes the `Raised` case of `Result`. The
containers around those values (each page's instructor list, its business
info, the URLs of the link answer) have fixed types; what that leaves out is
listed under "Left out". The overall
shapes are:

- functions are the specification;
- the imperative parts of the code (the loops, and the dict and list updates)
  are methods proved equal to those functions;
- lemmas state what the code promises about them.

The modules follow the structure of the program:

- `Values`, `Text`, `Seqs` and `Urls` model the Python built-ins the code relies
  on;
- `Browser` covers the page loops;
- `Links`, `Triage` and `Discovery` cover discovery and triage;
- `Names`, `MergeRules`, `Grouping`, `Programs`, `Synthesis` and `Responses`
  cover the synthesis.

## Model

A row whose third column begins "definition, no contract" names a definition
that the contracts of the other rows are stated over; it carries no contract
of its own.

| member | source | states |
|---|---|---|
| Browser.Page.constructor | class_schedule_extractor.py:1464-1465 | a fresh page holds the given height, viewport and reaction oracles and has seen no measurement, scroll or click |
| Browser.Page.Measure | class_schedule_extractor.py:1481 | returns the next height of the page's height sequence and records exactly one more measurement, nothing else changes |
| Browser.Page.ScrollTo | class_schedule_extractor.py:1476 | appends exactly one scroll to the given position to the scroll log, nothing else changes |
| Browser.Page.ScrollToBottom | class_schedule_extractor.py:1547 | appends exactly one scroll to the live bottom to the scroll log, nothing else changes |
| Browser.Page.Elements | class_schedule_extractor.py:1444 | `locator(selector).all()` either raises or returns the selector's number of matches |
| Browser.Page.IsVisible | class_schedule_extractor.py:1447 | `is_visible()` answers the page's visibility oracle |
| Browser.Page.Click | class_schedule_extractor.py:1448 | a click is logged on that element whether or not it succeeds, and reports the page's click oracle |
| Browser.Page.ButtonPresent | class_schedule_extractor.py:1531 | `load_button.count() > 0` after `n` presses answers the presence oracle |
| Browser.Page.ButtonVisible | class_schedule_extractor.py:1532 | the load-more button's visibility after `n` presses answers the visibility oracle |
| Browser.Page.PressButton | class_schedule_extractor.py:1533 | the `n`-th press is logged and reports the press oracle, nothing else changes |
| Browser.Page.Tried | class_schedule_extractor.py:1443-1455 | at most 10 matches of a selector are tried, and none when listing them raises |
| Browser.Page.ElementClicks | class_schedule_extractor.py:1445-1453 | the clicks on a selector's first `n` elements number at most `n` |
| Browser.Page.Expanded | class_schedule_extractor.py:1445-1453 | the expanded elements among the first `n` number at most `n` |
| Browser.Page.RunningMax | class_schedule_extractor.py:1481-1484 | the recorded height after `k` steps is at least the latest measurement, and is the first measurement before any step |
| Browser.Page.ScrollRun | class_schedule_extractor.py:1475-1496 | the scroll loop run from step `k` ends after at most 51 steps |
| Browser.Page.ScrollCount | class_schedule_extractor.py:1475-1496 | the systematic scroll takes between `k` and 51 steps, so it always terminates |
| Browser.Page.LoadClicks | class_schedule_extractor.py:1531-1539 | one load-more button is pressed successfully at most 8 times |
| Browser.Page.LoadRounds | class_schedule_extractor.py:1531-1539 | the presses of one button are its successful presses plus at most one failing press, and at most 8 |
| Browser.Page.LoadPresses | class_schedule_extractor.py:1531-1539 | one button receives one press per pressing round |
| Browser.Page.LoadTotal | class_schedule_extractor.py:1526-1541 | the load-more clicks over `n` selectors are at most 8 per selector |
| Browser.Page.Probes | class_schedule_extractor.py:1546-1558 | the bottom of the page is probed at most 5 times |
| Browser.ScrollSteps | class_schedule_extractor.py:1476-1491 | each scroll step scrolls exactly twice |
| Browser.StepScrolls | class_schedule_extractor.py:1476-1488 | one scroll step makes two scrolls |
| Browser.PositionIsMultiple | class_schedule_extractor.py:1469-1491 | step `k` starts at `k·step` |
| Browser.ScrollTargets | class_schedule_extractor.py:1476-1491 | step `i` scrolls to `i·step` and then to `i·step + step // 2`, so the targets are 0, step, 2·step, … |
| Browser.ExpandCollapsibleContent | class_schedule_extractor.py:1405-1457 | the expanded count is the total over the 21 selectors, that total is at most 210, and the clicks are exactly those of the selector loop, with no scroll or measurement |
| Browser.ExpandTotalBound | class_schedule_extractor.py:1445-1450 | each selector adds at most 10 expansions |
| Browser.ExpandAll | class_schedule_extractor.py:1442-1455 | the selector loop counts and logs exactly the per-selector expansions, a failing selector or click skipped |
| Browser.ExpandedClicked | class_schedule_extractor.py:1447-1450 | every counted expansion is one of the clicks made |
| Browser.ElementClicksVisible | class_schedule_extractor.py:1447-1448 | only visible elements among the first `n` are clicked |
| Browser.ExpandLogVisible | class_schedule_extractor.py:1442-1453 | every click of the expansion is on a visible element among the first 10 matches of one of its selectors |
| Browser.ExpandSelector | class_schedule_extractor.py:1443-1455 | one selector expands and clicks exactly its tried elements, and none when listing them raises |
| Browser.SystematicPageScroll | class_schedule_extractor.py:1464-1502 | the step count is the scroll count and at most 51. The recorded height is the running maximum. The scrolls are the steps followed by one scroll to the bottom, and there are exactly step count + 2 measurements |
| Browser.ScrollThrough | class_schedule_extractor.py:1469-1496 | the `while` loop takes `ScrollCount` steps, records the running maximum and logs exactly its steps' scrolls |
| Browser.ScrollStep | class_schedule_extractor.py:1476-1491 | one iteration scrolls to the step's position and half a step beyond, measures once and keeps the larger height |
| Browser.ScrollCountMeaning | class_schedule_extractor.py:1475-1496 | the loop goes on exactly while a step starts above the recorded height, until the guard stops it after step 51 |
| Browser.ScrollRunCounts | class_schedule_extractor.py:1469-1496 | run with its own position and recorded height, the loop takes `ScrollCount` steps |
| Browser.StandingStillHitsGuard | class_schedule_extractor.py:1468-1496 | with a zero step on a non-empty page the loop still ends, at the guard, after 51 steps |
| Browser.RunningMaxStep | class_schedule_extractor.py:1482-1484 | a step changes the recorded height only to a strictly larger new measurement |
| Browser.RunningMaxGrows | class_schedule_extractor.py:1482-1484 | the recorded page height never decreases |
| Browser.Bottoms | class_schedule_extractor.py:1547 | the probe loop's scrolls are all to the bottom |
| Browser.HandleDynamicContentLoading | class_schedule_extractor.py:1510-1558 | the clicks, at most 88, are exactly those of the 11 load-more selectors. The probe count is `Probes`. `previous_height` is the larger of the last two measurements. Each probe scrolls once to the bottom and measures once |
| Browser.PressLoadMore | class_schedule_extractor.py:1526-1541 | the selector loop presses and counts exactly each selector's presses, with no scroll or measurement |
| Browser.PressButton | class_schedule_extractor.py:1528-1539 | one load-more selector is pressed `LoadClicks` times successfully, and its presses are exactly `LoadPresses` |
| Browser.LoadClicksMeaning | class_schedule_extractor.py:1531-1539 | every counted round found the button present and visible with fewer than 8 presses, and its press succeeded; the round after them did not |
| Browser.LoadPressesShown | class_schedule_extractor.py:1531-1533 | a load-more button is pressed only while present and visible, and never after 8 presses |
| Browser.LoadLogShown | class_schedule_extractor.py:1526-1539 | every load-more press is on a present, visible button of one of the selectors, before its 9th press |
| Browser.ProbesMeaning | class_schedule_extractor.py:1546-1558 | every probe before the last found the page higher than the previous height. The last probe, unless it is the 5th, did not |
| Browser.ProbeBottom | class_schedule_extractor.py:1544-1558 | the probe loop makes `Probes` probes. It ends with `previous_height` the larger of the last two measurements. It scrolls only to the bottom and measures once per probe plus once before |
| Browser.SectionCount | class_schedule_extractor.py:1592 | `min(6, max(3, h // vh))` lies in 3..6 and equals `h // vh` when that does |
| Browser.ScreenshotPositions | class_schedule_extractor.py:1587-1594 | raises exactly when the viewport height is 0. There are `num_sections + 1` positions and the first is 0. The section starts are non-decreasing and lie below `h` when `h > 0`. The last position is `max(0, h - vh)` |
| Browser.SectionStartsGrow | class_schedule_extractor.py:1593 | later sections start no earlier |
| Browser.SectionStartBelow | class_schedule_extractor.py:1593 | every section starts inside a non-empty page |
| Browser.ExpandableSelectors | class_schedule_extractor.py:1405-1438 | definition, no contract: the 21 selectors of `_expand_collapsible_content`, in the order they are tried |
| Browser.LoadMoreSelectors | class_schedule_extractor.py:1510-1522 | definition, no contract: the 11 load-more selectors of `_handle_dynamic_content_loading` |
| Browser.ExpandPerSelector | class_schedule_extractor.py:1445 | definition, no contract: `elements[:10]`, so 10 matches per selector are tried |
| Browser.ClicksPerButton | class_schedule_extractor.py:1531 | definition, no contract: `click_count < 8`, so a load-more button is pressed at most 8 times |
| Browser.ScrollGuard | class_schedule_extractor.py:1494 | definition, no contract: the `scroll_count > 50` guard |
| Browser.BottomProbes | class_schedule_extractor.py:1546 | definition, no contract: `range(5)` bottom probes |
| Browser.StepFor | class_schedule_extractor.py:1468 | definition, no contract: `int(viewport_height * 0.7)` as `(7 * vh) / 10` |
| Links.InternalMembers | class_schedule_extractor.py:297-306 | a link survives the filter exactly when it is on the page, its href is non-empty and holds the domain, and it is no `tel:` or `mailto:` link |
| Links.FilterInternalLinks | class_schedule_extractor.py:298-306 | the append loop yields exactly the internal links in page order |
| Links.KeyLessStrict | class_schedule_extractor.py:309 | Python's `<` on `(priority, text)` keys is a strict order |
| Links.SortedInternalOrder | class_schedule_extractor.py:309 | the sorted links are a permutation of the internal links, ordered by key, with equal keys in page order |
| Links.HeaderNavUrls | class_schedule_extractor.py:312-318 | `_header_nav_urls` holds exactly the hrefs of header and menu links |
| Links.Hits | class_schedule_extractor.py:479 | the keyword count is at most the number of keywords |
| Links.HitsZero | class_schedule_extractor.py:479-485 | no keyword is counted exactly when none occurs in the link text |
| Links.KeptByLocation | class_schedule_extractor.py:469-487 | header, menu and sidebar links always pass the threshold. Content and unknown locations pass exactly when some term occurs. Footer links need two keywords or one navigation term |
| Links.ScoredMembers | class_schedule_extractor.py:464-488 | `scored_links` holds exactly the score records of the links scoring above 30 |
| Links.ScoreLinks | class_schedule_extractor.py:464-488 | the scoring loop appends exactly the links above the threshold, in order |
| Links.ByScoreOrder | class_schedule_extractor.py:491 | sorting by score, descending, is a permutation with no score below a later one, and equal scores keep their order |
| Links.HrefsWhere | class_schedule_extractor.py:494-495 | the split lists are no longer than the scored list |
| Links.HrefsWhereMembers | class_schedule_extractor.py:494-495 | an href is in the header (other) list exactly when a scored entry with a header (non-header) location carries it |
| Links.HeuristicLinkFiltering | class_schedule_extractor.py:455-503 | the fallback is the scored, sorted, split, joined, de-duplicated and cut selection |
| Links.SelectionBounds | class_schedule_extractor.py:498-503 | the result has no repeated href and at most 25, and the cut at 25 never removes one |
| Links.SelectionHeaderFirst | class_schedule_extractor.py:494-503 | the deduplicated first 15 header and menu hrefs open the result; at most 10 hrefs follow them, each among `other_links[:10]` and none a kept header href |
| Links.SelectionFromKeptLinks | class_schedule_extractor.py:487-503 | every href of the result belongs to a link on the page scoring above 30 |
| Links.Internal | class_schedule_extractor.py:299-306 | definition, no contract: a link is kept when its href is non-empty, holds the domain, and is not a `tel:` or `mailto:` link |
| Links.InternalLinks | class_schedule_extractor.py:298-306 | definition, no contract: the `internal_links` list, in page order |
| Links.SortedInternal | class_schedule_extractor.py:309 | definition, no contract: `internal_links` sorted stably by `(priority, text.lower())` |
| Links.HeaderLocation | class_schedule_extractor.py:312 | definition, no contract: the location is "header" or "menu" |
| Links.ImportantKeywords | class_schedule_extractor.py:457-461 | definition, no contract: the 21 keywords of `important_keywords` |
| Links.NavTerms | class_schedule_extractor.py:483 | definition, no contract: the 7 navigation terms of `nav_terms` |
| Links.LocationScore | class_schedule_extractor.py:469-476 | definition, no contract: `location_scores.get(location, 25)` |
| Links.Score | class_schedule_extractor.py:466-485 | definition, no contract: the location score plus 20 per keyword and 30 per navigation term in the lowercased text and title |
| Links.ScoredLinks | class_schedule_extractor.py:464-488 | definition, no contract: the `scored_links` list: (href, score, location) of each link scoring above 30, in order |
| Links.ByScore | class_schedule_extractor.py:491 | definition, no contract: `scored_links` sorted stably by descending score |
| Links.Important | class_schedule_extractor.py:494-498 | definition, no contract: `header_nav_links[:15] + other_links[:10]` |
| Links.HeuristicSelection | class_schedule_extractor.py:503 | definition, no contract: `list(dict.fromkeys(important_links))[:25]` |
| Triage.RulesShape | class_schedule_extractor.py:519-566 | only the contact group skips pages, and every priority the table assigns lies in 1..5, so the `priority > 5` rejection never fires |
| Triage.FirstRule | class_schedule_extractor.py:519-571 | the chosen group is the first, in source order, with a word occurring in the text, and no group is chosen only when none matches |
| Triage.Classify | class_schedule_extractor.py:515-582 | a page is skipped exactly when the contact group matches first. A page matching no group is ('general', 4). Otherwise the first matching group's (type, priority) is assigned. The page keeps its URL, its last path segment as title, and a priority in 1..5 |
| Triage.CategorizePageAsWritten | class_schedule_extractor.py:515-582 | `_categorize_page` decides by the first keyword group that occurs in the whole lowercased URL, host included: the contact group skips the page, no match gives general with priority 4, any other group gives its type and priority |
| Triage.CategorizePage | class_schedule_extractor.py:515-582 | the corrected categorization decides the same way by the first keyword group that occurs in the lowercased text after the host |
| Triage.StaffPageOnGymnasticsSite | class_schedule_extractor.py:515-537 | "http://gymnastics.com/staff" is typed 'programs' as written and 'staff' once the host is left out |
| Triage.NoEarlyRule | class_schedule_extractor.py:519-527 | neither schedule group matches a text without the letters e, l, r, u |
| Triage.NoProgramWord | class_schedule_extractor.py:529-532 | the program group does not match a text made of the letters of "/staff" |
| Triage.CategoryRules | class_schedule_extractor.py:519-566 | definition, no contract: the ten keyword groups of `_categorize_page` with their page types and priorities, in the order tried; `None` for the contact group |
| Triage.TypedBy | class_schedule_extractor.py:519-582 | definition, no contract: what the first matching group decides: skipped for the contact group, general with priority 4 for no match, otherwise the group's type and priority, with the URL, the last path segment as title, a priority in 1..5, and nothing visited |
| Discovery.PageUrls | class_schedule_extractor.py:194 | `[p.url for p in pages]` lists each page's URL in order |
| Discovery.CategorizePageWell | class_schedule_extractor.py:577-582 | every page `_categorize_page` returns, as written and corrected, is the page of its link, with a priority in 1..5, neither visited nor extracted |
| Discovery.CollectAsWritten | class_schedule_extractor.py:192-203 | as written, the loop collects at most one page per link |
| Discovery.Collect | class_schedule_extractor.py:192-203 | the corrected loop collects at most one page per link |
| Discovery.DuplicateLinkAsWritten | class_schedule_extractor.py:194 | as written, a link received twice is discovered twice |
| Discovery.DuplicateLinkOnce | class_schedule_extractor.py:194 | corrected, a link received twice is discovered once |
| Discovery.CollectShape | class_schedule_extractor.py:192-203 | in the loop as written and corrected, header pages carry priority 1 and a header URL. Other pages have a priority in 1..5 and a URL outside it. None is visited |
| Discovery.CollectMembers | class_schedule_extractor.py:192-203 | in the loop as written, a URL is discovered exactly when it is among the links, was not known before, and is not skipped by the categorizer |
| Discovery.CollectMembersIntended | class_schedule_extractor.py:192-203 | the same holds for the corrected loop |
| Discovery.CollectDistinct | class_schedule_extractor.py:194 | the corrected loop discovers no URL twice |
| Discovery.CollectAgree | class_schedule_extractor.py:192-203 | on links without repeats, the loop as written and the corrected loop collect the same pages |
| Discovery.HeaderSortKeepsOrder | class_schedule_extractor.py:199-209 | sorting the header pages by priority changes nothing, since all carry priority 1 |
| Discovery.SiteOrderShape | class_schedule_extractor.py:189-211 | as written, the discovered pages are every header page in link order, then the other pages by priority with ties in link order |
| Discovery.SiteOrderShapeIntended | class_schedule_extractor.py:189-211 | the corrected loop gives the same order, and no URL repeats |
| Discovery.SiteOrderOf | class_schedule_extractor.py:206-211 | `header_pages + other_pages` after the sorts keeps header pages first and in order, other pages sorted and stable |
| Discovery.SiteOrderDistinct | class_schedule_extractor.py:206-211 | the sorts add no repeated URL |
| Discovery.PagesToVisitOrder | class_schedule_extractor.py:589-594 | at most `max_pages` pages are visited, each an unvisited page of the list with priority at least 1, and no priority-1 page comes after a page of priority above 1 |
| Discovery.PagesToVisitAll | class_schedule_extractor.py:589-594 | with room for all, a page is visited exactly when it is listed, unvisited and of priority at least 1 |
| Discovery.FilterPartition | class_schedule_extractor.py:589-590 | the two waves together are no longer than the list |
| Discovery.SortedSplitsIntoWaves | class_schedule_extractor.py:589-593 | a priority-sorted list of unvisited pages is its first wave followed by its second |
| Discovery.VisitFollowsDiscovery | class_schedule_extractor.py:589-594 | browsing right after discovery, as written or corrected, visits the discovered pages in their stored order, cut to `max_pages` |
| Discovery.WavesOfSiteOrder | class_schedule_extractor.py:589-594 | the header-first discovery order is already the visiting order |
| Discovery.CollectPages | class_schedule_extractor.py:189-203 | the discovery loop's appends yield exactly `CollectAsWritten` |
| Discovery.Extractor.constructor | class_schedule_extractor.py:102-108 | a new extractor has the given `max_pages`, no discovered pages and no header URLs |
| Discovery.Extractor.DiscoverImportantLinks | class_schedule_extractor.py:297-318 | it stores the header and menu URLs of the sorted internal links, keeps the discovered pages, and returns the model's answer or the heuristic choice |
| Discovery.Extractor.DiscoverSiteStructure | class_schedule_extractor.py:174-211 | the discovered pages become the header-first site order of the important links as the as-written loop collects them with the as-written `_categorize_page` |
| Discovery.Extractor.PagesToVisitNow | class_schedule_extractor.py:589-594 | the pages chosen for browsing are at most `max_pages` discovered, unvisited pages |
| Discovery.ImportantLinks | class_schedule_extractor.py:404-453 | definition, no contract: the model's answer when there is one, the heuristic choice among the sorted internal links otherwise |
| Discovery.SiteOrder | class_schedule_extractor.py:209-211 | definition, no contract: `header_pages + other_pages` after both are sorted stably by priority |
| Discovery.FirstWave | class_schedule_extractor.py:589 | definition, no contract: an unvisited page of priority 1 |
| Discovery.SecondWave | class_schedule_extractor.py:590 | definition, no contract: an unvisited page of priority above 1 |
| Discovery.PagesToVisit | class_schedule_extractor.py:589-594 | definition, no contract: the first wave, then the second, cut to `max_pages` by a Python slice |
| Responses.BraceSlice | class_schedule_extractor.py:889-892 | a slice exists exactly when some '{' precedes some '}'. It then runs from the first '{' to the last '}', both included |
| Responses.NoBracePair | class_schedule_extractor.py:889-891 | when the guard fails there is no '{' before a '}' |
| Responses.ParseAIResponse | class_schedule_extractor.py:886-897 | the reply's slice is parsed, and a missing slice or a rejected parse yields `{}` |
| Responses.BraceSliceWrapped | class_schedule_extractor.py:889-893 | a JSON object wrapped in prose without braces comes back whole |
| MergeRules.TableFields | class_schedule_extractor.py:1042-1064 | the strategy table's fields, which exclude `instructor` and the `_source` keys |
| MergeRules.TableFieldsDistinct | class_schedule_extractor.py:1042-1064 | no field of the table is listed twice |
| MergeRules.PyLess | class_schedule_extractor.py:1188 | Python's `<`: two numbers or two strings compare in order, and any pair other than those and two lists raises |
| MergeRules.ListLess | class_schedule_extractor.py:1188 | an empty list is below exactly the non-empty lists |
| MergeRules.MergeNames | class_schedule_extractor.py:1072-1080 | a falsy side yields the other. Otherwise the result is the longer name, the first on a tie, and `len` of a non-sized value raises |
| MergeRules.JoinTexts | class_schedule_extractor.py:1082-1094 | two strings that differ beyond case are joined by the separator. Case-equal strings give one of the two. Non-strings raise |
| MergeRules.MergeDescriptions | class_schedule_extractor.py:1082-1094 | different descriptions become `a. b`, and case-equal ones keep the longer |
| MergeRules.MergeSchedules | class_schedule_extractor.py:1147-1158 | different schedules become `a; b`, and case-equal ones keep the first |
| MergeRules.MergeAgeRanges | class_schedule_extractor.py:1096-1117 | a falsy side yields the other. Two ranges merge into a two-element range, or raise when a bound cannot be indexed or compared |
| MergeRules.AgeRangeCovers | class_schedule_extractor.py:1104-1117 | for bounds in 0..999 or missing, the merge succeeds and runs from the lower of the two low bounds to the higher of the two high bounds, a missing bound counting as 0 or 999 |
| MergeRules.PreferSpecific | class_schedule_extractor.py:1119-1179 | a generic value gives way to a specific one; otherwise the first, or the join of both |
| MergeRules.MergeLevels | class_schedule_extractor.py:1119-1134 | a generic level gives way to a specific one, otherwise the first stays |
| MergeRules.MergePrices | class_schedule_extractor.py:1160-1179 | a generic price gives way to a specific one, and two different specific prices are joined, the first at the start and the second at the end |
| MergeRules.MergeNumbersMax | class_schedule_extractor.py:1181-1188 | returns one of the two, no smaller than either for two numbers or two strings, and raises exactly when Python's `<` does |
| MergeRules.LexMax | class_schedule_extractor.py:1188 | the larger of two strings is below neither of them |
| MergeRules.MergeCategories | class_schedule_extractor.py:1190-1203 | "general" gives way to any other category, otherwise the first stays |
| MergeRules.MergeSessionInfo | class_schedule_extractor.py:1224-1234 | the second only when strictly longer, and `len` of a non-sized value raises |
| MergeRules.AnyDigit | class_schedule_extractor.py:1244-1246 | strings answer whether a digit occurs and dicts scan their keys, while numbers and `None` raise |
| MergeRules.AnyDigitItem | class_schedule_extractor.py:1244 | a list scan answers false exactly when every item is a string that is not all digits |
| MergeRules.MergeDates | class_schedule_extractor.py:1236-1250 | the side with digits beats the side without, otherwise the second only when strictly longer |
| MergeRules.MergeAvailability | class_schedule_extractor.py:1252-1280 | never raises, and keeps the first exactly when it alone holds a number or both are equal |
| MergeRules.StatusPriority | class_schedule_extractor.py:1290-1303 | ranks lie in 0..5, and 0 exactly for an unknown status |
| MergeRules.MergeStatus | class_schedule_extractor.py:1282-1306 | the status of higher rank, the first on a tie |
| MergeRules.Concatenation | class_schedule_extractor.py:1144 | `list1 + list2` concatenates two lists or two strings, and raises for any other pair |
| MergeRules.NormalizeItems | class_schedule_extractor.py:1145 | raises exactly when a truthy item is not a string |
| MergeRules.NormalizeItemsMembers | class_schedule_extractor.py:1145 | the normalized items are exactly the lowercased, stripped truthy items |
| MergeRules.MergeLists | class_schedule_extractor.py:1136-1145 | falsy sides follow the `or []` fallbacks. Otherwise the result is the distinct lowercased, stripped truthy items of both lists, all strings |
| MergeRules.MergeScheduleDetails | class_schedule_extractor.py:1205-1222 | key-wise merge: a missing or falsy old value is replaced and two lists are united. It raises exactly on an unhashable union. The keys are those of both dicts |
| MergeRules.MergeEntryStep | class_schedule_extractor.py:1215-1220 | what the partly merged dict holds under a key decides that key's merged value and whether it raises |
| MergeRules.MergeEntry | class_schedule_extractor.py:1216-1220 | one entry of the loop raises exactly on an unhashable union, and otherwise extends the partial merge by that key |
| MergeRules.MergeScheduleDetailsInPlace | class_schedule_extractor.py:1205-1222 | the copy-then-update loop computes `MergeScheduleDetails` |
| MergeRules.MergeDetailEntries | class_schedule_extractor.py:1213-1220 | the entry loop raises exactly when some key's union is unhashable, and otherwise yields the key-wise merge |
| MergeRules.Merge | class_schedule_extractor.py:1066-1068 | every rule but the list rule passes a falsy side through |
| MergeRules.MergeKeepsTruthy | class_schedule_extractor.py:1066-1068 | outside the list and schedule-detail rules, a truthy incoming value never leaves a falsy field behind |
| MergeRules.MergeSelf | class_schedule_extractor.py:1066-1068 | merging a string with itself gives it back under every rule except the list, schedule-detail and age-range rules |
| MergeRules.StrategyTable | class_schedule_extractor.py:1042-1064 | definition, no contract: the 21 (field, strategy) pairs of `merge_strategies`, in dict order |
| MergeRules.PyEq | class_schedule_extractor.py:1188 | definition, no contract: Python `==` on parsed values, which decides list comparison inside `max` |
| MergeRules.GenericLevels | class_schedule_extractor.py:1127 | definition, no contract: the generic levels that give way to a specific one |
| MergeRules.GenericPrices | class_schedule_extractor.py:1168 | definition, no contract: the generic prices that give way to a specific one |
| MergeRules.DetailAt | class_schedule_extractor.py:1213-1220 | definition, no contract: the value under one key after `_merge_schedule_details`: a missing or falsy old value is replaced, two lists are united, anything else keeps the old value |
| Names.RulesFollowVariations | class_schedule_extractor.py:1003-1015 | the rewrite rules are exactly the variants of the table, in iteration order |
| Names.DropPrefixes | class_schedule_extractor.py:994-996 | dropping labels keeps a lowercase name lowercase |
| Names.DropSuffixes | class_schedule_extractor.py:998-1000 | dropping trailing words keeps a lowercase name lowercase |
| Names.RewriteAsWritten | class_schedule_extractor.py:1012-1015 | the as-written variation loop keeps a lowercase name lowercase |
| Names.Rewrite | class_schedule_extractor.py:1012-1015 | the corrected variation loop keeps a lowercase name lowercase |
| Names.Folded | class_schedule_extractor.py:988 | `name.lower().strip()` has no capital |
| Names.NormalizeProgramNameAsWritten | class_schedule_extractor.py:985-1017 | the as-written normalization yields a lowercase key |
| Names.NormalizeProgramName | class_schedule_extractor.py:985-1017 | the corrected normalization yields a lowercase key |
| Names.NormalizeIgnoresCase | class_schedule_extractor.py:988 | names differing only in case get the same key, under either normalization |
| Names.NoVariantLeft | class_schedule_extractor.py:1012-1015 | once no later variant occurs, neither rewrite changes the name |
| Names.NothingToDrop | class_schedule_extractor.py:994-1000 | a name with no label and no trailing word keeps its folded form |
| Names.RewriteGym | class_schedule_extractor.py:1004-1015 | "gym" becomes "gymnastics" under both rewrites |
| Names.RewriteGymnasticsAsWritten | class_schedule_extractor.py:1012-1015 | as written, "gymnastics" becomes "gymnasticsnasticss" |
| Names.RewriteGymnastics | class_schedule_extractor.py:1012-1015 | corrected, "gymnastics" is left alone |
| Names.GymnasticsSplitAsWritten | class_schedule_extractor.py:985-1017 | as written, "Gym" and "Gymnastics" get different keys |
| Names.GymnasticsJoined | class_schedule_extractor.py:985-1017 | corrected, "Gym" and "Gymnastics" share the key "gymnastics" |
| Names.NamePrefixes | class_schedule_extractor.py:991 | definition, no contract: the labels `class:`, `program:`, `course:`, `lesson:`, in the order tried |
| Names.NameSuffixes | class_schedule_extractor.py:992 | definition, no contract: the trailing words, in the order tried |
| Names.Variations | class_schedule_extractor.py:1003-1010 | definition, no contract: each standard word with its variants, in dict order |
| Names.LabelIgnored | class_schedule_extractor.py:985-1017 | a name written with a leading label, such as "Class: Tumbling", gets the key of the bare name under both normalizations, when no earlier label matches and the bare name starts with no label |
| Programs.FieldsFrom | class_schedule_extractor.py:1066 | the fields of the table from a row on |
| Programs.MergeFieldsRaises | class_schedule_extractor.py:1066-1068 | the strategy loop raises exactly when the rule of some hit field raises on that field's starting value |
| Programs.MergeFieldsKeys | class_schedule_extractor.py:1066-1068 | the merged keys are the current keys plus the hit fields |
| Programs.MergeFieldsKeeps | class_schedule_extractor.py:1039-1068 | a key that is not a hit field keeps its value |
| Programs.MergeFieldsMerged | class_schedule_extractor.py:1066-1068 | each hit field holds its rule applied to its starting value and the incoming value |
| Programs.MergedProgramsFrame | class_schedule_extractor.py:1037-1070 | the result is `program1` with exactly the table fields that `program2` holds truthy replaced by their merge. Every other key is untouched. No other key of `program2` is copied |
| Programs.MergeTwoPrograms | class_schedule_extractor.py:1037-1070 | the copy-then-loop method computes `MergedPrograms` |
| Programs.SourcePageValues | class_schedule_extractor.py:1033 | each program's `_source_page`, or 'unknown' |
| Programs.SourcePages | class_schedule_extractor.py:1033 | the distinct source pages, each once, and raises on an unhashable one |
| Programs.MergedGroup | class_schedule_extractor.py:1019-1035 | `None` exactly for an empty group. Otherwise the fold of the group, with `_sources` its size and `_source_pages` its distinct pages |
| Programs.FoldGroupKeeps | class_schedule_extractor.py:1028-1029 | merging never drops a key |
| Programs.MergeProgramGroup | class_schedule_extractor.py:1019-1035 | the copy-then-merge loop computes `MergedGroup` |
| Programs.MergedName | class_schedule_extractor.py:1072-1080 | one merge keeps a string name, one of the two and no shorter than either |
| Programs.FoldKeepsLongestName | class_schedule_extractor.py:1028-1029 | the fold keeps the group's longest name, which is one of its names |
| Programs.GroupKeepsLongestName | class_schedule_extractor.py:1019-1029 | a merged group carries its longest name |
| Programs.NameKey | class_schedule_extractor.py:963-968 | raises exactly when the name is not a string, and drops exactly the names whose strip is empty; kept names are keyed by the as-written normalization |
| Programs.GroupsMergeToPrograms | class_schedule_extractor.py:976-980 | every group of a kept name merges to a program |
| Programs.ReadableNames | class_schedule_extractor.py:963 | the names can be read exactly when each is a string or missing |
| Programs.CrossPageMergeRaises | class_schedule_extractor.py:956-983 | the cross-page merge raises exactly when some name is not a string or some group fails to merge |
| Programs.CrossPageMergeGroups | class_schedule_extractor.py:960-983 | exactly one merged program per distinct name as the as-written normalization keys it, merged from that name's group, with `_sources` the group's size |
| Programs.CrossPageMergeOrder | class_schedule_extractor.py:960-977 | the group keys are keys of the programs and come in order of first appearance |
| Programs.CrossPageMembership | class_schedule_extractor.py:962-973 | a program with an empty stripped name is in no group. One with a non-empty name is in the group of its as-written normalized name |
| Programs.GymnasticsGroupsSplit | class_schedule_extractor.py:960-983 | as written, the programs "Gym" and "Gymnastics" get the keys "gymnastics" and "gymnasticsnasticss", fall into two groups of one, and merge to two records with `_sources` 1 each |
| Programs.TwoKeysTwoGroups | class_schedule_extractor.py:960-983 | two programs with different keys and no source page give two groups of one, in input order, and the merge returns exactly the record merged from each group, in that order |
| Programs.SingleMerges | class_schedule_extractor.py:1019-1035 | a group of one program without a source page merges to a record with `_sources` 1 |
| Programs.SingleSources | class_schedule_extractor.py:1019-1035 | two records merged from one-program groups each have `_sources` 1 |
| Programs.MergeCrossPagePrograms | class_schedule_extractor.py:956-983 | the grouping and merging loops compute `CrossPageMerge` |
| Programs.MergeFields | class_schedule_extractor.py:1066-1068 | definition, no contract: the strategy loop from row k on: each truthy field of `program2` is merged by its rule into the partial result, raising when a rule raises |
| Programs.MergedPrograms | class_schedule_extractor.py:1037-1070 | definition, no contract: `program1.copy()` followed by the strategy loop over the whole table |
| Programs.FoldGroup | class_schedule_extractor.py:1028-1029 | definition, no contract: `_merge_two_programs` folded over the rest of a group |
| Programs.CrossPageMerge | class_schedule_extractor.py:956-983 | definition, no contract: the programs grouped by `NameKey` in order of first appearance, each group merged by `MergedGroup`, raising when a name cannot be read or a merge raises |
| Grouping.KeySeqMembers | class_schedule_extractor.py:962-973 | a key is listed exactly when some element has it |
| Grouping.GroupKeys | class_schedule_extractor.py:970-971 | the dict's keys are distinct and are exactly the keys of the elements |
| Grouping.GroupOfMembers | class_schedule_extractor.py:970-973 | an element is in the group of `k` exactly when its key is `k` |
| Grouping.TwoKeys | class_schedule_extractor.py:962-973 | two elements with different keys make two one-element groups, in input order |
| Grouping.MergeTwo | class_schedule_extractor.py:976-983 | the merge loop over two keys whose groups both merge to a result gives exactly those two results, in key order |
| Grouping.GroupNonEmpty | class_schedule_extractor.py:970-973 | every listed key has a non-empty group |
| Grouping.GroupOfNone | class_schedule_extractor.py:970-973 | an unlisted key has an empty group |
| Grouping.GroupBy | class_schedule_extractor.py:960-973 | the in-place grouping loop fails exactly when a key cannot be read. Otherwise it lists exactly the keys of `GroupKeys`, each mapped to its group |
| Grouping.MergeGroupsOnePerKey | class_schedule_extractor.py:976-983 | the merge loop raises exactly when one group's merge does, and otherwise gives one result per key, merged from that key's group |
| Grouping.MergeEach | class_schedule_extractor.py:976-983 | the merge loop over the dict computes `MergeGroups` |
| Grouping.MergeGroupsRaised | class_schedule_extractor.py:976-983 | once merging raises on some group, the whole loop raises |
| Grouping.FirstOfEachStep | class_schedule_extractor.py:1313-1317 | an element is kept exactly when its key is new |
| Grouping.FirstOfEachGroups | class_schedule_extractor.py:1310-1319 | one element is kept per key, in the order of `GroupKeys`, and it is the head of that key's group |
| Grouping.FirstOfEachKeys | class_schedule_extractor.py:1310-1319 | no two kept elements share a key, and every key of the input is kept |
| Grouping.KeepFirstOfEach | class_schedule_extractor.py:1310-1319 | the `seen` loop fails exactly when a key cannot be read, and otherwise keeps the first element of each key |
| Grouping.KeySeq | class_schedule_extractor.py:962-973 | definition, no contract: the keys of the kept elements, one per element, in input order |
| Grouping.GroupOf | class_schedule_extractor.py:970-973 | definition, no contract: the group under key k: the elements with that key, in input order |
| Grouping.MergeGroups | class_schedule_extractor.py:976-981 | definition, no contract: the merge loop over the groups of the given keys, in order, dropping groups that merge to nothing and raising when one merge raises |
| Grouping.FirstOfEach | class_schedule_extractor.py:1310-1317 | definition, no contract: the elements that are the first with their key, in input order |
| Synthesis.InstructorKey | class_schedule_extractor.py:1314 | raises exactly when the name is not a string, and gives no key exactly when the folded name is empty |
| Synthesis.DeduplicateInstructors | class_schedule_extractor.py:1308-1319 | the `seen_names` loop computes `UniqueInstructors` |
| Synthesis.UniqueInstructorsFirst | class_schedule_extractor.py:1308-1319 | one instructor per distinct folded name, the first, in order of first appearance. No two kept instructors share a name. It raises exactly on a non-string name |
| Synthesis.HasName | class_schedule_extractor.py:1354 | passes exactly for a string name with a non-blank strip, and raises on a truthy non-string name |
| Synthesis.IsPolicy | class_schedule_extractor.py:1366 | passes exactly for a string longer than ten characters once stripped, and raises on a truthy non-string |
| Synthesis.SelectedFilters | class_schedule_extractor.py:1352-1356 | filtering raises exactly when the test raises on some element, and otherwise keeps exactly the passing elements in order |
| Synthesis.SelectWhere | class_schedule_extractor.py:1352-1356 | the append loop computes `Selected` |
| Synthesis.SelectedRaised | class_schedule_extractor.py:1352-1356 | once a prefix raises, the whole filter raises |
| Synthesis.ValidEntries | class_schedule_extractor.py:1351-1363 | validation keeps exactly the entries with a non-blank string name, and raises on a truthy non-string name |
| Synthesis.ValidPolicies | class_schedule_extractor.py:1366 | validation keeps exactly the policies longer than ten characters once stripped |
| Synthesis.GatherSlices | class_schedule_extractor.py:911-916 | each page's list is a slice of the gathered list, at the sum of the earlier lengths |
| Synthesis.GatherMembers | class_schedule_extractor.py:911-916 | an element is gathered exactly when some page yielded it |
| Synthesis.BusinessInfoKeys | class_schedule_extractor.py:918-920 | the combined business info holds a key exactly when some page reported it |
| Synthesis.BusinessInfoLastWins | class_schedule_extractor.py:918-920 | a key holds the value of the last page that reported it |
| Synthesis.PolicySet | class_schedule_extractor.py:925 | `list(set(...))` holds each policy once, and raises exactly on an unhashable one |
| Synthesis.ComprehensiveBusinessData.constructor | class_schedule_extractor.py:928-948 | each field is the business info's value or its fixed default, with category SPORTS and subcategory GYMNASTICS |
| Synthesis.PagesAnalyzed | class_schedule_extractor.py:946 | the analyzed URLs are the pages' URLs in order (bookkeeping for `pages_analyzed`, not a property) |
| Synthesis.SynthesizeAllData | class_schedule_extractor.py:899-950 | it raises exactly when a merge, de-duplication or `set` raises. Otherwise it concatenates each page's lists in page order, lets later business info override earlier, and merges programs across pages |
| Synthesis.ValidateAndCleanData | class_schedule_extractor.py:1347-1366 | replaces programs, instructors, then policies by the valid ones, stops at the first test that raises, and changes nothing else |
| Synthesis.UniqueInstructors | class_schedule_extractor.py:1308-1319 | definition, no contract: `FirstOfEach` over the folded instructor names, raising when a name cannot be read |
| Synthesis.Selected | class_schedule_extractor.py:1352-1363 | definition, no contract: the elements that pass a test, in order, raising when the test raises |
| Synthesis.Gather | class_schedule_extractor.py:911-916 | definition, no contract: the pages' lists joined by `extend`, in page order |
| Synthesis.BusinessInfo | class_schedule_extractor.py:919-920 | definition, no contract: `business_info.update(...)` over the pages whose business info is not empty |
| Seqs.Filter | class_schedule_extractor.py:312-315 | a comprehension with a condition is no longer than its input |
| Seqs.FilterMembers | class_schedule_extractor.py:312-315 | an element is kept exactly when it is in the input and passes |
| Seqs.MapFilterMembers | class_schedule_extractor.py:494-495 | a mapped comprehension holds exactly the images of passing elements |
| Seqs.Prefix | class_schedule_extractor.py:498 | Python's `s[:n]` is the first `n` elements, counting from the end for a negative `n` |
| Seqs.Dedupe | class_schedule_extractor.py:503 | `list(dict.fromkeys(s))` has no repeats and the same elements |
| Seqs.DedupeOrder | class_schedule_extractor.py:503 | it lists elements in order of first occurrence |
| Seqs.SortBy | class_schedule_extractor.py:309 | `sort` is a permutation |
| Seqs.SortBySorted | class_schedule_extractor.py:309 | `sort` leaves no key above a later one |
| Seqs.SortByStable | class_schedule_extractor.py:491 | `sort` keeps elements with equal keys in order |
| Seqs.SortByMembers | class_schedule_extractor.py:209-210 | sorting neither adds nor drops an element |
| Seqs.DedupeConcatRest | class_schedule_extractor.py:503 | what `dict.fromkeys(a + b)` lists after the first occurrences from `a` comes from `b`, is not in `a`, and has at most `len(b)` entries |
| Text.Lower | class_schedule_extractor.py:515 | `lower()` keeps the length |
| Text.LowerChars | class_schedule_extractor.py:515 | `lower()` maps each character and leaves no capital |
| Text.Strip | class_schedule_extractor.py:963 | `strip()` is no longer than its input, neither starts nor ends with white space, and is empty exactly for an all-blank string |
| Text.Find | class_schedule_extractor.py:889 | `find` gives the first index of the character, or -1 when it is absent |
| Text.RFind | class_schedule_extractor.py:890 | `rfind` gives the last index of the character, or -1 when it is absent |
| Text.Replace | class_schedule_extractor.py:1015 | `replace` leaves a string without the pattern alone |
| Urls.Netloc | class_schedule_extractor.py:297 | the host holds no '/', '?' or '#', and is empty without a scheme |
| Urls.UrlSplits | class_schedule_extractor.py:297 | a URL is its scheme part, its host and the rest, glued |
| Urls.LastSegment | class_schedule_extractor.py:579 | `url.split('/')[-1]` is the '/'-free tail of the URL |
| Values.Get | class_schedule_extractor.py:1068 | `dict.get(k)` is the value or `None` |
| Values.GetOr | class_schedule_extractor.py:963 | `dict.get(k, d)` is the value or the default |
| Values.Len | class_schedule_extractor.py:1080 | `len` raises exactly on `None`, booleans and numbers, and is positive exactly for truthy values |
| Values.Truthy | class_schedule_extractor.py:1067 | definition, no contract: Python `bool(v)` on parsed values |

## Left out

- Playwright. `goto`, `screenshot`, `wait_for_timeout`, the locators and
  `page.evaluate` are replaced by the oracle fields of `Browser.Page`: heights,
  viewport, match counts, visibility and click outcomes. These are fixed in
  advance, so a DOM that changes in reaction to a click is captured only
  through the height sequence and the per-press oracles.
- The in-page script of `_discover_important_links`, which collects and
  locates links. Its output is the `links` parameter, and its `className` and
  `parentElement` fields are never read.
- The language model:
  - The OpenAI requests and prompt text are not modelled.
  - `_extract_page_content` is not modelled; its page results are the
    `contents` parameter.
  - The model's link answer is the `answer` parameter of
    `DiscoverImportantLinks` and `DiscoverSiteStructure`. `None` stands for a
    failed or unparsable answer.
  - `json.loads` is the `loads` parameter of `ParseAIResponse`.
- `extract_comprehensive_business_data`, `_setup_browser`,
  `_intelligent_scroll_and_expand` and `main`. They only sequence the modelled
  phases and open and close the browser.
- `_browse_and_extract_content` beyond its page selection. The visiting,
  extraction and `visited` bookkeeping are browser and model work.
- Timing and output: waits, asyncio and `print_status`. The awaits are
  strictly sequential, so there is no concurrency to model.
- Floating point. Each of these is modelled with integer division instead:
  - `int(viewport_height * 0.7)` is `(7 * vh) / 10`;
  - `int(i * page_height / num_sections)` is `(i * h) / n`;
  - `_calculate_confidence` and `extraction_confidence` are not modelled.
- Browser.SystematicPageScroll: the step is `(7 * vh) / 10` on naturals, which
  can differ from `int(vh * 0.7)` when the float product rounds down across an
  integer.
- The test in `_capture_comprehensive_screenshots` that decides whether the
  viewport screenshots are taken at all (a failed full-page shot or a page
  over 10000 pixels). Whether the full-page shot fails is browser I/O, so only
  the positions are modelled.
- Replies of the wrong shape for three containers. Each page's instructors are
  taken to be dicts, its business info a dict, and the URLs of the link answer
  strings. A reply with a non-dict instructor would raise `AttributeError` at
  the `.get` on line 1314. A truthy non-dict business info, such as a list of
  numbers, would raise at `update` on line 920. A non-string URL, appended at
  line 413, would raise at `url.lower()` on line 515. The model cannot express
  these inputs, so it has no error path for them. Programs are dicts in the
  source as well, because lines 697-698 assign to each of them.
- `_parse_operating_hours`, which returns a fixed table, and the
  `operating_hours` field.
- Set iteration order. The order `list(set(...))` produces depends on hashing
  and is not modelled, so the four contracts below state only membership and
  distinctness.
- MergeRules.MergeLists: states the distinct items of the union but not their
  order.
- MergeRules.MergeScheduleDetails: the union under a key is taken in first-seen
  order; the order `set` would give is not modelled.
- Programs.SourcePages: states the distinct pages but not the order of
  `_source_pages`.
- Synthesis.PolicySet: states the distinct policies but not their order.
- Urls.Netloc: `urlparse(...).netloc` is approximated by the text between the
  first "://" and the next '/', '?' or '#'. User info, ports and scheme-less
  URLs are not parsed as `urllib` does.
- Triage.Classify: the `.title()` casing of the page title is not modelled.
  The title is the last path segment with '-' and '_' turned into spaces.
- Python equality and hashing. `True == 1` and the hashing of floats are not
  modelled beyond `Num` (a boolean counts as 0 or 1 where numbers are
  compared). Floating-point JSON numbers are not modelled at all.
- `PageInfo.links_found` and `ExtractedContent.raw_content`. They are never
  read by the modelled code.
- Exceptions inside the loops. An `is_visible()` or `count()` that raises is
  folded into the oracle answering false. A load-more click that raises ends
  that selector's loop, and the press is not counted. This is what the
  surrounding `try` does.
- `_parse_ai_response` on a `None` reply is not modelled. The reply is always
  a string.
- `text.lower()` and `isdigit()` are modelled on ASCII: Unicode case mapping
  and non-ASCII digits are not. `strip()` drops the full white-space set of
  `str.isspace`.

## Findings

| source | as written | input that shows it | evidently intended | confidence | as-written member | corrected member |
|---|---|---|---|---|---|---|
| class_schedule_extractor.py:1012-1015 | a variant found anywhere is replaced by its standard word, even inside that standard word, so "gymnastics" is rewritten through "gymnastic" and "gym" | the names "Gym" and "Gymnastics" are keyed "gymnastics" and "gymnasticsnasticss", so two entries of one program are never merged | a variant is rewritten only while its standard word is absent, so both names share the key "gymnastics" | not executed | Programs.GymnasticsGroupsSplit | Names.GymnasticsJoined |
| class_schedule_extractor.py:194 | the duplicate check looks only at the pages discovered before this pass, not at the pages being collected | the same link returned twice by the model produces two identical pages | a URL already collected in this pass is skipped too, so no page is discovered twice | not executed | Discovery.DuplicateLinkAsWritten | Discovery.CollectDistinct |
| class_schedule_extractor.py:515 | the keywords are matched against the whole lowercased URL, host included | on "http://gymnastics.com/staff" the host matches the program group first, so the staff page is typed 'programs' | the keywords are matched against the path after the host, which types the page 'staff' | not executed | Triage.StaffPageOnGymnasticsSite | Triage.CategorizePage |
