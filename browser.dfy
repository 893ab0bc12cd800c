/**
  The page-discovery loops that run in the browser before the screenshots are
  taken: expanding collapsible elements, scrolling through the page step by
  step, pressing load-more buttons and probing infinite scroll, and the
  positions of the fallback viewport screenshots.

  The browser is a `Page` whose answers are fixed in advance: the successive
  values of `document.body.scrollHeight`, the viewport height, and for each
  selector how many elements match it and which of them are visible and can
  be clicked. The page records every scroll and every click it receives.
 */
module Browser {
  import opened Values

  function Min(a: int, b: int): int { if a <= b then a else b }
  function Max(a: int, b: int): int { if a >= b then a else b }

  /** A `window.scrollTo` the page received: to a position, or to the live bottom of the page. */
  datatype Scroll = To(y: int) | ToBottom

  /** A click the page received: on element `index` of a selector, or the `attempt`-th press of a load-more button. */
  datatype ClickAt = Element(selector: string, index: nat) | LoadMore(selector: string, attempt: nat)

  /** The selectors of `_expand_collapsible_content`, in the order they are tried. */
  const ExpandableSelectors: seq<string> := [
    "button[aria-expanded=\"false\"]", ".dropdown-toggle:not(.show)", "[data-toggle=\"dropdown\"]",
    ".accordion-header", ".collapse:not(.show)", "[data-toggle=\"collapse\"]",
    "button:has-text(\"Show more\")", "button:has-text(\"Read more\")", "button:has-text(\"View all\")",
    "a:has-text(\"See all\")", "button:has-text(\"More\")", "a:has-text(\"More\")",
    ".nav-tab:not(.active)", ".tab-button:not(.active)",
    ".menu-toggle", ".hamburger", ".mobile-menu-button",
    ".program-details-toggle", ".class-details-toggle", ".expand-details", ".show-details"
  ]

  /** The selectors of the load-more buttons of `_handle_dynamic_content_loading`. */
  const LoadMoreSelectors: seq<string> := [
    "button:has-text(\"Load more\")", "button:has-text(\"Show more\")", "button:has-text(\"View more\")",
    "a:has-text(\"Load more\")", "a:has-text(\"Show more\")",
    ".load-more-button", ".show-more-button", ".pagination-next", "[data-load-more]",
    "button:has-text(\"See all\")", "a:has-text(\"See all\")"
  ]

  /** `elements[:10]`: how many matches of one selector are tried. */
  const ExpandPerSelector: nat := 10
  /** `click_count < 8`: how often one load-more button is pressed at most. */
  const ClicksPerButton: nat := 8
  /** `scroll_count > 50`: the guard that ends the systematic scroll. */
  const ScrollGuard: nat := 50
  /** `range(5)`: how often the bottom of the page is probed at most. */
  const BottomProbes: nat := 5

  class Page {
    /** The successive values `document.body.scrollHeight` reports; after the last one the page keeps that height. */
    const heights: seq<nat>
    /** `window.innerHeight`. */
    const viewport: nat
    /** How many elements `locator(selector).all()` returns. */
    const matches: string -> nat
    /** Whether `locator(selector).all()` raises. */
    const listFails: string -> bool
    /** Whether element `i` of a selector is visible; a visibility check that raises counts as not visible. */
    const visible: (string, nat) -> bool
    /** Whether clicking element `i` of a selector succeeds. */
    const clickWorks: (string, nat) -> bool
    /** Whether the first match of a load-more selector still exists after `n` presses; a count that raises counts as absent. */
    const buttonPresent: (string, nat) -> bool
    /** Whether that button is visible after `n` presses. */
    const buttonVisible: (string, nat) -> bool
    /** Whether the press after `n` presses succeeds. */
    const buttonClickWorks: (string, nat) -> bool

    /** How many heights have been measured. */
    var measured: nat
    /** Every scroll received, in order. */
    var scrolls: seq<Scroll>
    /** Every click received, in order. */
    var clicks: seq<ClickAt>

    constructor (heights: seq<nat>, viewport: nat, matches: string -> nat, listFails: string -> bool,
                 visible: (string, nat) -> bool, clickWorks: (string, nat) -> bool,
                 buttonPresent: (string, nat) -> bool, buttonVisible: (string, nat) -> bool,
                 buttonClickWorks: (string, nat) -> bool)
      ensures this.heights == heights && this.viewport == viewport
      ensures this.matches == matches && this.listFails == listFails
      ensures this.visible == visible && this.clickWorks == clickWorks
      ensures this.buttonPresent == buttonPresent && this.buttonVisible == buttonVisible
      ensures this.buttonClickWorks == buttonClickWorks
      ensures measured == 0 && scrolls == [] && clicks == []
    {
      this.heights := heights;
      this.viewport := viewport;
      this.matches := matches;
      this.listFails := listFails;
      this.visible := visible;
      this.clickWorks := clickWorks;
      this.buttonPresent := buttonPresent;
      this.buttonVisible := buttonVisible;
      this.buttonClickWorks := buttonClickWorks;
      measured := 0;
      scrolls := [];
      clicks := [];
    }

    /** The `k`-th measured height (0 for a page with no heights at all). */
    function HeightAt(k: nat): nat
    {
      if k < |heights| then heights[k] else if heights == [] then 0 else heights[|heights| - 1]
    }

    /** `page.evaluate("document.body.scrollHeight")`. */
    method Measure() returns (h: nat)
      modifies this
      ensures h == HeightAt(old(measured))
      ensures measured == old(measured) + 1 && scrolls == old(scrolls) && clicks == old(clicks)
    {
      h := HeightAt(measured);
      measured := measured + 1;
    }

    /** `window.scrollTo(0, y)`. */
    method ScrollTo(y: int)
      modifies this
      ensures scrolls == old(scrolls) + [To(y)]
      ensures measured == old(measured) && clicks == old(clicks)
    {
      scrolls := scrolls + [To(y)];
    }

    /** `window.scrollTo(0, document.body.scrollHeight)`. */
    method ScrollToBottom()
      modifies this
      ensures scrolls == old(scrolls) + [ToBottom]
      ensures measured == old(measured) && clicks == old(clicks)
    {
      scrolls := scrolls + [ToBottom];
    }

    /** `locator(selector).all()`: whether it raises, and how many elements it returns. */
    method Elements(selector: string) returns (fails: bool, count: nat)
      ensures fails == listFails(selector) && count == matches(selector)
    {
      fails := listFails(selector);
      count := matches(selector);
    }

    /** `element.is_visible()`. */
    method IsVisible(selector: string, i: nat) returns (b: bool)
      ensures b == visible(selector, i)
    {
      b := visible(selector, i);
    }

    /** `element.click()`, which reports whether it succeeded. */
    method Click(selector: string, i: nat) returns (ok: bool)
      modifies this
      ensures ok == clickWorks(selector, i)
      ensures clicks == old(clicks) + [Element(selector, i)]
      ensures measured == old(measured) && scrolls == old(scrolls)
    {
      ok := clickWorks(selector, i);
      clicks := clicks + [Element(selector, i)];
    }

    /** `load_button.count() > 0` after `n` presses. */
    method ButtonPresent(selector: string, n: nat) returns (b: bool)
      ensures b == buttonPresent(selector, n)
    {
      b := buttonPresent(selector, n);
    }

    /** `load_button.is_visible()` after `n` presses. */
    method ButtonVisible(selector: string, n: nat) returns (b: bool)
      ensures b == buttonVisible(selector, n)
    {
      b := buttonVisible(selector, n);
    }

    /** `load_button.click()` after `n` presses, which reports whether it succeeded. */
    method PressButton(selector: string, n: nat) returns (ok: bool)
      modifies this
      ensures ok == buttonClickWorks(selector, n)
      ensures clicks == old(clicks) + [LoadMore(selector, n)]
      ensures measured == old(measured) && scrolls == old(scrolls)
    {
      ok := buttonClickWorks(selector, n);
      clicks := clicks + [LoadMore(selector, n)];
    }

    // ---- _expand_collapsible_content

    /** How many matches of a selector are tried: the first 10, or none when listing them raises. */
    function Tried(selector: string): (n: nat)
      ensures n <= ExpandPerSelector
      ensures listFails(selector) ==> n == 0
    {
      if listFails(selector) then 0 else Min(ExpandPerSelector, matches(selector))
    }

    /** For one selector, the clicks among its first `n` elements: one per visible element, in order. */
    function ElementClicks(selector: string, n: nat): (r: seq<ClickAt>)
      ensures |r| <= n
    {
      if n == 0 then []
      else ElementClicks(selector, n - 1) + (if visible(selector, n - 1) then [Element(selector, n - 1)] else [])
    }

    /** For one selector, how many of its first `n` elements are visible and clicked successfully. */
    function Expanded(selector: string, n: nat): (c: nat)
      ensures c <= n
    {
      if n == 0 then 0
      else Expanded(selector, n - 1) + (if visible(selector, n - 1) && clickWorks(selector, n - 1) then 1 else 0)
    }

    /** The expansions counted over the first `n` selectors, each trying its first 10 matches. */
    function ExpandTotal(selectors: seq<string>, n: nat): (c: nat)
      requires n <= |selectors|
    {
      if n == 0 then 0 else ExpandTotal(selectors, n - 1) + Expanded(selectors[n - 1], Tried(selectors[n - 1]))
    }

    /** The clicks made over the first `n` selectors. */
    function ExpandLog(selectors: seq<string>, n: nat): seq<ClickAt>
      requires n <= |selectors|
    {
      if n == 0 then [] else ExpandLog(selectors, n - 1) + ElementClicks(selectors[n - 1], Tried(selectors[n - 1]))
    }

    // ---- _systematic_page_scroll

    /** The largest of the heights measured at `m0`, …, `m0 + k`: the `page_height` recorded after `k` scroll steps. */
    function RunningMax(m0: nat, k: nat): (h: nat)
      ensures h >= HeightAt(m0 + k)
      ensures k == 0 ==> h == HeightAt(m0)
    {
      if k == 0 then HeightAt(m0)
      else
        var before := RunningMax(m0, k - 1);
        if HeightAt(m0 + k) > before then HeightAt(m0 + k) else before
    }

    /** The scroll loop run from step `k`, at `position` with recorded height `height`: the number of steps it ends after. */
    function ScrollRun(m0: nat, step: nat, k: nat, position: nat, height: nat): (n: nat)
      requires k <= ScrollGuard
      ensures k <= n <= ScrollGuard + 1
      decreases ScrollGuard - k, m0
    {
      if position >= height then k
      else if k + 1 > ScrollGuard then k + 1
      else
        var measuredHeight := HeightAt(m0 + k + 1);
        ScrollRun(m0, step, k + 1, position + step, if measuredHeight > height then measuredHeight else height)
    }

    /** Step `k` of the scroll loop starts above the recorded page height: the loop goes on. */
    predicate Above(m0: nat, step: nat, k: nat)
    {
      Position(step, k) < RunningMax(m0, k)
    }

    /** The number of steps the scroll loop takes from step `k` on, with heights measured from `m0`. */
    function ScrollCount(m0: nat, step: nat, k: nat): (n: nat)
      requires k <= ScrollGuard
      ensures k <= n <= ScrollGuard + 1
      decreases ScrollGuard - k, m0
    {
      if !Above(m0, step, k) then k
      else if k + 1 > ScrollGuard then k + 1
      else ScrollCount(m0, step, k + 1)
    }

    /** Whether round `n` of a load-more selector presses its button: fewer than 8 presses were made and the button is present and visible. */
    predicate Pressable(selector: string, n: nat)
    {
      n < ClicksPerButton && buttonPresent(selector, n) && buttonVisible(selector, n)
    }

    /** How often one load-more button is pressed successfully, from `n` presses on: while it is pressable and each press succeeds. */
    function LoadClicks(selector: string, n: nat): (r: nat)
      requires n <= ClicksPerButton
      ensures n <= r <= ClicksPerButton
      decreases ClicksPerButton - n, selector
    {
      if Pressable(selector, n) && buttonClickWorks(selector, n) then LoadClicks(selector, n + 1) else n
    }

    /** The rounds of one load-more selector that press its button: the successful presses, and the failing press that ends them, if any. */
    function LoadRounds(selector: string): (r: nat)
      ensures LoadClicks(selector, 0) <= r <= LoadClicks(selector, 0) + 1 && r <= ClicksPerButton
    {
      var k := LoadClicks(selector, 0);
      if Pressable(selector, k) then k + 1 else k
    }

    /** The presses one load-more selector receives, in order. */
    function LoadPresses(selector: string): (r: seq<ClickAt>)
      ensures |r| == LoadRounds(selector)
    {
      Attempts(selector, LoadRounds(selector))
    }

    /** The presses counted over a list of load-more selectors. */
    function LoadTotal(selectors: seq<string>, n: nat): (c: nat)
      requires n <= |selectors|
      ensures c <= ClicksPerButton * n
    {
      if n == 0 then 0 else LoadTotal(selectors, n - 1) + LoadClicks(selectors[n - 1], 0)
    }

    /** The presses made over a list of load-more selectors. */
    function LoadLog(selectors: seq<string>, n: nat): seq<ClickAt>
      requires n <= |selectors|
    {
      if n == 0 then [] else LoadLog(selectors, n - 1) + LoadPresses(selectors[n - 1])
    }

    /** The number of bottom probes made from probe `k` on, the height before the probes measured at `m`: probing goes on while the page grows, at most 5 times. */
    function Probes(m: nat, k: nat): (n: nat)
      requires 1 <= k <= BottomProbes
      ensures k <= n <= BottomProbes
      decreases BottomProbes - k, m
    {
      if k < BottomProbes && Grew(m, k) then Probes(m, k + 1) else k
    }

    /** Probe `j` found the page higher than the measurement before it. */
    predicate Grew(m: nat, j: nat)
      requires j >= 1
    {
      HeightAt(m + j) > HeightAt(m + j - 1)
    }
  }

  /** `int(viewport_height * 0.7)`, in integer arithmetic. */
  function StepFor(viewport: nat): nat
  {
    (7 * viewport) / 10
  }

  /** The scrolls of the first `n` steps: each step scrolls to its position and then half a step further. */
  function ScrollSteps(step: nat, n: nat): (r: seq<Scroll>)
    ensures |r| == 2 * n
  {
    if n == 0 then [] else ScrollSteps(step, n - 1) + StepScrolls(step, n - 1)
  }

  /** The two scrolls of step `i`. */
  function StepScrolls(step: nat, i: nat): (r: seq<Scroll>)
    ensures |r| == 2
  {
    [To(Position(step, i)), To(Position(step, i) + step / 2)]
  }

  /** Where step `k` of the scroll loop starts: `k` steps down. */
  function Position(step: nat, k: nat): nat
  {
    if k == 0 then 0 else Position(step, k - 1) + step
  }

  /** Step `k` starts at `k·step`. */
  lemma {:induction false} PositionIsMultiple(step: nat, k: nat)
    ensures Position(step, k) == k * step
  {
    if k > 0 {
      PositionIsMultiple(step, k - 1);
      assert k * step == (k - 1) * step + step;
    }
  }

  /** Step `i` scrolls to `i·step` and then to `i·step + step/2`: the targets are 0, step, 2·step, … */
  lemma {:induction false} ScrollTargets(step: nat, n: nat, i: nat)
    requires i < n
    ensures ScrollSteps(step, n)[2 * i] == To(i * step)
    ensures ScrollSteps(step, n)[2 * i + 1] == To(i * step + step / 2)
  {
    if i < n - 1 {
      ScrollTargets(step, n - 1, i);
      assert ScrollSteps(step, n)[2 * i] == ScrollSteps(step, n - 1)[2 * i];
      assert ScrollSteps(step, n)[2 * i + 1] == ScrollSteps(step, n - 1)[2 * i + 1];
    } else {
      PositionIsMultiple(step, i);
    }
  }

  /** `_expand_collapsible_content`: tries the first 10 matches of every selector, clicks the visible ones and counts the clicks that succeed; a selector or element that fails is skipped. */
  method ExpandCollapsibleContent(page: Page) returns (expandedCount: nat)
    modifies page
    ensures expandedCount == page.ExpandTotal(ExpandableSelectors, |ExpandableSelectors|)
    ensures expandedCount <= ExpandPerSelector * |ExpandableSelectors| == 210
    ensures page.clicks == old(page.clicks) + page.ExpandLog(ExpandableSelectors, |ExpandableSelectors|)
    ensures page.measured == old(page.measured) && page.scrolls == old(page.scrolls)
  {
    expandedCount := ExpandAll(page, ExpandableSelectors);
    ExpandTotalBound(page, ExpandableSelectors, |ExpandableSelectors|);
  }

  /** Each selector expands at most 10 elements. */
  lemma {:induction false} ExpandTotalBound(page: Page, selectors: seq<string>, n: nat)
    requires n <= |selectors|
    ensures page.ExpandTotal(selectors, n) <= ExpandPerSelector * n
  {
    if n > 0 {
      ExpandTotalBound(page, selectors, n - 1);
    }
  }

  /** The loop of `_expand_collapsible_content` over a list of selectors. */
  method ExpandAll(page: Page, selectors: seq<string>) returns (expandedCount: nat)
    modifies page
    ensures expandedCount == page.ExpandTotal(selectors, |selectors|)
    ensures page.clicks == old(page.clicks) + page.ExpandLog(selectors, |selectors|)
    ensures page.measured == old(page.measured) && page.scrolls == old(page.scrolls)
  {
    expandedCount := 0;
    for s := 0 to |selectors|
      invariant expandedCount == page.ExpandTotal(selectors, s)
      invariant page.clicks == old(page.clicks) + page.ExpandLog(selectors, s)
      invariant page.measured == old(page.measured) && page.scrolls == old(page.scrolls)
    {
      var expanded := ExpandSelector(page, selectors[s]);
      expandedCount := expandedCount + expanded;
    }
  }

  /** Every expansion counted among the first `n` elements is one of the clicks made on them. */
  lemma {:induction false} ExpandedClicked(page: Page, selector: string, n: nat)
    ensures page.Expanded(selector, n) <= |page.ElementClicks(selector, n)|
  {
    if n > 0 {
      ExpandedClicked(page, selector, n - 1);
    }
  }

  /** Only visible elements among the first `n` are clicked. */
  lemma {:induction false} ElementClicksVisible(page: Page, selector: string, n: nat)
    ensures forall c :: c in page.ElementClicks(selector, n) ==>
      c.Element? && c.selector == selector && c.index < n && page.visible(selector, c.index)
  {
    if n > 0 {
      ElementClicksVisible(page, selector, n - 1);
    }
  }

  /** Every click of `_expand_collapsible_content` is on a visible element among the first 10 matches of one of its selectors. */
  lemma {:induction false} ExpandLogVisible(page: Page, selectors: seq<string>, n: nat)
    requires n <= |selectors|
    ensures forall c :: c in page.ExpandLog(selectors, n) ==>
      c.Element? && c.selector in selectors[..n] && c.index < page.Tried(c.selector) && page.visible(c.selector, c.index)
  {
    if n > 0 {
      ExpandLogVisible(page, selectors, n - 1);
      ElementClicksVisible(page, selectors[n - 1], page.Tried(selectors[n - 1]));
      assert forall x :: x in selectors[..n - 1] ==> x in selectors[..n];
      assert selectors[n - 1] in selectors[..n];
    }
  }

  /** One selector of `_expand_collapsible_content`: its first 10 matches, unless listing them fails. */
  method ExpandSelector(page: Page, selector: string) returns (expanded: nat)
    modifies page
    ensures expanded == page.Expanded(selector, page.Tried(selector))
    ensures page.clicks == old(page.clicks) + page.ElementClicks(selector, page.Tried(selector))
    ensures page.measured == old(page.measured) && page.scrolls == old(page.scrolls)
  {
    expanded := 0;
    var fails, count := page.Elements(selector);
    if fails {
      return;
    }
    for i := 0 to Min(ExpandPerSelector, count)
      invariant expanded == page.Expanded(selector, i)
      invariant page.clicks == old(page.clicks) + page.ElementClicks(selector, i)
      invariant page.measured == old(page.measured) && page.scrolls == old(page.scrolls)
    {
      var shown := page.IsVisible(selector, i);
      if shown {
        var ok := page.Click(selector, i);
        if ok {
          expanded := expanded + 1;
        }
      }
    }
  }

  /** `_systematic_page_scroll`: steps through the page by 70% of the viewport, scrolling half a step further after each step,
      adopts a measured height only when it is larger, and stops at the end of the page or after step 51; then scrolls to the bottom
      and measures the final height. */
  method SystematicPageScroll(page: Page) returns (scrollCount: nat, pageHeight: nat, finalHeight: nat)
    modifies page
    ensures scrollCount == page.ScrollCount(old(page.measured), StepFor(page.viewport), 0)
    ensures scrollCount <= ScrollGuard + 1
    ensures pageHeight == page.RunningMax(old(page.measured), scrollCount)
    ensures finalHeight == page.HeightAt(old(page.measured) + scrollCount + 1)
    ensures page.scrolls == old(page.scrolls) + ScrollSteps(StepFor(page.viewport), scrollCount) + [ToBottom]
    ensures page.measured == old(page.measured) + scrollCount + 2 && page.clicks == old(page.clicks)
  {
    ghost var m0 := page.measured;
    pageHeight := page.Measure();
    var step := StepFor(page.viewport);
    scrollCount, pageHeight := ScrollThrough(page, m0, step, pageHeight);
    page.ScrollToBottom();
    finalHeight := page.Measure();
  }

  /** The loop of `_systematic_page_scroll`, after the first height `pageHeight` was measured at `m0`. */
  method ScrollThrough(page: Page, ghost m0: nat, step: nat, pageHeight: nat) returns (scrollCount: nat, height: nat)
    requires page.measured == m0 + 1 && pageHeight == page.HeightAt(m0)
    modifies page
    ensures scrollCount == page.ScrollCount(m0, step, 0)
    ensures height == page.RunningMax(m0, scrollCount)
    ensures page.scrolls == old(page.scrolls) + ScrollSteps(step, scrollCount)
    ensures page.measured == old(page.measured) + scrollCount && page.clicks == old(page.clicks)
  {
    height := pageHeight;
    var position := 0;
    scrollCount := 0;
    while position < height
      invariant scrollCount <= ScrollGuard
      invariant position == Position(step, scrollCount)
      invariant height == page.RunningMax(m0, scrollCount)
      invariant page.ScrollRun(m0, step, 0, 0, pageHeight) == page.ScrollRun(m0, step, scrollCount, position, height)
      invariant page.measured == m0 + scrollCount + 1
      invariant page.scrolls == old(page.scrolls) + ScrollSteps(step, scrollCount)
      invariant page.clicks == old(page.clicks)
      decreases ScrollGuard - scrollCount
    {
      height := ScrollStep(page, m0, step, scrollCount, position, height);
      scrollCount := scrollCount + 1;
      position := position + step;
      if scrollCount > ScrollGuard {
        break;
      }
    }
    ScrollRunCounts(page, m0, step, 0);
  }

  /** The body of the scroll loop for step `k`: scroll to the step's position, measure and keep the larger height, scroll half a step further. */
  method ScrollStep(page: Page, ghost m0: nat, step: nat, k: nat, position: nat, pageHeight: nat) returns (newPageHeight: nat)
    requires position == Position(step, k) && pageHeight == page.RunningMax(m0, k)
    requires page.measured == m0 + k + 1
    modifies page
    ensures newPageHeight == page.RunningMax(m0, k + 1)
    ensures page.scrolls == old(page.scrolls) + StepScrolls(step, k)
    ensures page.measured == old(page.measured) + 1 && page.clicks == old(page.clicks)
  {
    page.ScrollTo(position);
    var newHeight := page.Measure();
    newPageHeight := pageHeight;
    if newHeight > pageHeight {
      newPageHeight := newHeight;
    }
    page.ScrollTo(position + step / 2);
  }

  /** The scroll loop goes on exactly while a step starts above the recorded height, until the guard stops it after step 51. */
  lemma {:induction false} ScrollCountMeaning(page: Page, m0: nat, step: nat, k: nat)
    requires k <= ScrollGuard
    ensures forall j :: k <= j < page.ScrollCount(m0, step, k) ==> page.Above(m0, step, j)
    ensures page.ScrollCount(m0, step, k) == ScrollGuard + 1 || !page.Above(m0, step, page.ScrollCount(m0, step, k))
    decreases ScrollGuard - k
  {
    if page.Above(m0, step, k) && k + 1 <= ScrollGuard {
      ScrollCountMeaning(page, m0, step, k + 1);
    }
  }

  /** Run with the loop's own position and recorded height, the loop takes `ScrollCount` steps. */
  lemma {:induction false} ScrollRunCounts(page: Page, m0: nat, step: nat, k: nat)
    requires k <= ScrollGuard
    ensures page.ScrollRun(m0, step, k, Position(step, k), page.RunningMax(m0, k)) == page.ScrollCount(m0, step, k)
    decreases ScrollGuard - k
  {
    if page.Above(m0, step, k) && k + 1 <= ScrollGuard {
      ScrollRunCounts(page, m0, step, k + 1);
    }
  }

  /** A viewport too small for a step of scrolling still ends the scroll: the guard stops it after 51 steps. */
  lemma {:induction false} StandingStillHitsGuard(page: Page, m0: nat, k: nat)
    requires k <= ScrollGuard && page.HeightAt(m0) > 0
    ensures page.ScrollCount(m0, 0, k) == ScrollGuard + 1
    decreases ScrollGuard - k
  {
    RunningMaxGrows(page, m0, 0, k);
    PositionIsMultiple(0, k);
    if k < ScrollGuard {
      StandingStillHitsGuard(page, m0, k + 1);
    }
  }

  /** A scroll step changes the recorded page height only to the new measurement, and only when that is larger. */
  lemma RunningMaxStep(page: Page, m0: nat, k: nat)
    requires k > 0
    ensures page.RunningMax(m0, k) >= page.RunningMax(m0, k - 1)
    ensures page.RunningMax(m0, k) == page.RunningMax(m0, k - 1)
      || (page.RunningMax(m0, k) == page.HeightAt(m0 + k) > page.RunningMax(m0, k - 1))
  {
  }

  /** The recorded page height never decreases. */
  lemma {:induction false} RunningMaxGrows(page: Page, m0: nat, j: nat, k: nat)
    requires j <= k
    ensures page.RunningMax(m0, j) <= page.RunningMax(m0, k)
    decreases k - j
  {
    if j < k {
      RunningMaxGrows(page, m0, j, k - 1);
      RunningMaxStep(page, m0, k);
    }
  }

  // ---- _handle_dynamic_content_loading


  /** `n` scrolls to the bottom. */
  function Bottoms(n: nat): (r: seq<Scroll>)
    ensures |r| == n && forall s :: s in r ==> s == ToBottom
  {
    if n == 0 then [] else Bottoms(n - 1) + [ToBottom]
  }

  /** `_handle_dynamic_content_loading`: presses every load-more button up to 8 times, then scrolls to the bottom up to 5 times,
      stopping at the first probe after which the page is no higher than before. */
  method HandleDynamicContentLoading(page: Page) returns (totalClicks: nat, probes: nat, previousHeight: nat)
    modifies page
    ensures totalClicks == page.LoadTotal(LoadMoreSelectors, |LoadMoreSelectors|)
    ensures totalClicks <= ClicksPerButton * |LoadMoreSelectors| == 88
    ensures probes == page.Probes(old(page.measured), 1)
    ensures previousHeight == Max(page.HeightAt(old(page.measured) + probes - 1), page.HeightAt(old(page.measured) + probes))
    ensures page.clicks == old(page.clicks) + page.LoadLog(LoadMoreSelectors, |LoadMoreSelectors|)
    ensures page.scrolls == old(page.scrolls) + Bottoms(probes)
    ensures page.measured == old(page.measured) + probes + 1
  {
    totalClicks := PressLoadMore(page, LoadMoreSelectors);
    probes, previousHeight := ProbeBottom(page);
  }

  /** The load-more loop of `_handle_dynamic_content_loading` over a list of selectors. */
  method PressLoadMore(page: Page, selectors: seq<string>) returns (totalClicks: nat)
    modifies page
    ensures totalClicks == page.LoadTotal(selectors, |selectors|)
    ensures page.clicks == old(page.clicks) + page.LoadLog(selectors, |selectors|)
    ensures page.measured == old(page.measured) && page.scrolls == old(page.scrolls)
  {
    totalClicks := 0;
    for s := 0 to |selectors|
      invariant totalClicks == page.LoadTotal(selectors, s)
      invariant page.clicks == old(page.clicks) + page.LoadLog(selectors, s)
      invariant page.measured == old(page.measured) && page.scrolls == old(page.scrolls)
    {
      var pressed := PressButton(page, selectors[s]);
      totalClicks := totalClicks + pressed;
    }
  }

  /** One load-more selector: press its first match while it is present and visible, at most 8 times, until a press fails. */
  method PressButton(page: Page, selector: string) returns (clickCount: nat)
    modifies page
    ensures clickCount == page.LoadClicks(selector, 0)
    ensures page.clicks == old(page.clicks) + page.LoadPresses(selector)
    ensures page.measured == old(page.measured) && page.scrolls == old(page.scrolls)
  {
    clickCount := 0;
    while clickCount < ClicksPerButton
      invariant clickCount <= ClicksPerButton
      invariant page.LoadClicks(selector, 0) == page.LoadClicks(selector, clickCount)
      invariant page.clicks == old(page.clicks) + Attempts(selector, clickCount)
      invariant page.measured == old(page.measured) && page.scrolls == old(page.scrolls)
    {
      var present := page.ButtonPresent(selector, clickCount);
      if !present {
        break;
      }
      var shown := page.ButtonVisible(selector, clickCount);
      if !shown {
        break;
      }
      var ok := page.PressButton(selector, clickCount);
      if !ok {
        break;
      }
      clickCount := clickCount + 1;
    }
  }

  /** The presses `LoadMore(selector, 0)`, …, `LoadMore(selector, n - 1)`. */
  function Attempts(selector: string, n: nat): (r: seq<ClickAt>)
    ensures |r| == n
  {
    if n == 0 then [] else Attempts(selector, n - 1) + [LoadMore(selector, n - 1)]
  }

  /** `Attempts` holds the presses of its selector numbered below `n`. */
  lemma {:induction false} AttemptsNumbered(selector: string, n: nat)
    ensures forall c :: c in Attempts(selector, n) ==> c.LoadMore? && c == LoadMore(selector, c.attempt) && c.attempt < n
  {
    if n > 0 {
      AttemptsNumbered(selector, n - 1);
    }
  }

  /** The successful presses of a load-more selector are exactly those of the rounds before the first one that is not pressable or whose press fails. */
  lemma {:induction false} LoadClicksMeaning(page: Page, selector: string, n: nat)
    requires n <= ClicksPerButton
    ensures forall i :: n <= i < page.LoadClicks(selector, n) ==> page.Pressable(selector, i) && page.buttonClickWorks(selector, i)
    ensures !(page.Pressable(selector, page.LoadClicks(selector, n)) && page.buttonClickWorks(selector, page.LoadClicks(selector, n)))
    decreases ClicksPerButton - n
  {
    if page.Pressable(selector, n) && page.buttonClickWorks(selector, n) {
      LoadClicksMeaning(page, selector, n + 1);
    }
  }

  /** A load-more button is pressed only while it is present and visible, and never after 8 presses. */
  lemma LoadPressesShown(page: Page, selector: string)
    ensures forall c :: c in page.LoadPresses(selector) ==>
      c.LoadMore? && c.selector == selector && page.Pressable(selector, c.attempt)
  {
    AttemptsNumbered(selector, page.LoadRounds(selector));
    LoadClicksMeaning(page, selector, 0);
  }

  /** Every press of `_handle_dynamic_content_loading` is on a present, visible button of one of its selectors, before its 9th press. */
  lemma {:induction false} LoadLogShown(page: Page, selectors: seq<string>, n: nat)
    requires n <= |selectors|
    ensures forall c :: c in page.LoadLog(selectors, n) ==>
      c.LoadMore? && c.selector in selectors[..n] && page.Pressable(c.selector, c.attempt)
  {
    if n > 0 {
      LoadLogShown(page, selectors, n - 1);
      LoadPressesShown(page, selectors[n - 1]);
      assert forall x :: x in selectors[..n - 1] ==> x in selectors[..n];
      assert selectors[n - 1] in selectors[..n];
    }
  }

  /** The probes go on exactly while the page grows: every probe before the last found it higher, and the last one, unless it is the 5th, did not. */
  lemma {:induction false} ProbesMeaning(page: Page, m: nat, k: nat)
    requires 1 <= k <= BottomProbes
    ensures forall j :: k <= j < page.Probes(m, k) ==> page.Grew(m, j)
    ensures page.Probes(m, k) < BottomProbes ==> !page.Grew(m, page.Probes(m, k))
    decreases BottomProbes - k
  {
    if k < BottomProbes && page.Grew(m, k) {
      ProbesMeaning(page, m, k + 1);
    }
  }

  /** The infinite-scroll probes of `_handle_dynamic_content_loading`. */
  method ProbeBottom(page: Page) returns (probes: nat, previousHeight: nat)
    modifies page
    ensures probes == page.Probes(old(page.measured), 1)
    ensures previousHeight == Max(page.HeightAt(old(page.measured) + probes - 1), page.HeightAt(old(page.measured) + probes))
    ensures page.scrolls == old(page.scrolls) + Bottoms(probes)
    ensures page.measured == old(page.measured) + probes + 1 && page.clicks == old(page.clicks)
  {
    ghost var m := page.measured;
    previousHeight := page.Measure();
    probes := 0;
    while probes < BottomProbes
      invariant probes <= BottomProbes
      invariant probes < BottomProbes ==> page.Probes(m, 1) == page.Probes(m, probes + 1)
      invariant probes == BottomProbes ==> page.Probes(m, 1) == BottomProbes
      invariant previousHeight == page.HeightAt(m + probes)
      invariant probes >= 1 ==> page.Grew(m, probes)
      invariant page.measured == m + probes + 1
      invariant page.scrolls == old(page.scrolls) + Bottoms(probes)
      invariant page.clicks == old(page.clicks)
    {
      page.ScrollToBottom();
      var newHeight := page.Measure();
      probes := probes + 1;
      if newHeight <= previousHeight {
        break;
      }
      previousHeight := newHeight;
    }
  }

  // ---- _capture_comprehensive_screenshots

  /** `min(6, max(3, h // vh))`. */
  function SectionCount(h: nat, vh: nat): (n: nat)
    requires vh > 0
    ensures 3 <= n <= 6
    ensures 3 <= h / vh <= 6 ==> n == h / vh
  {
    Min(6, Max(3, h / vh))
  }

  /** The fallback screenshot positions for page height `h` and viewport height `vh`: the section starts `i·h/n`, then the
      bottom viewport `max(0, h − vh)`; a zero viewport raises `ZeroDivisionError`. */
  function ScreenshotPositions(h: nat, vh: nat): (r: Result<seq<int>>)
    ensures r.Raised? <==> vh == 0
    ensures r.Ok? ==> |r.value| == SectionCount(h, vh) + 1 && r.value[0] == 0
    ensures r.Ok? ==> forall i, j :: 0 <= i <= j < |r.value| - 1 ==> r.value[i] <= r.value[j]
    ensures r.Ok? && h > 0 ==> forall i :: 0 <= i < |r.value| - 1 ==> 0 <= r.value[i] < h
    ensures r.Ok? ==> r.value[|r.value| - 1] == Max(0, h - vh)
  {
    if vh == 0 then Raised
    else
      var n := SectionCount(h, vh);
      var starts := seq(n, i requires 0 <= i < n => (i * h) / n);
      assert forall i, j :: 0 <= i <= j < n ==> starts[i] <= starts[j] by {
        forall i, j | 0 <= i <= j < n
          ensures starts[i] <= starts[j]
        {
          SectionStartsGrow(i, j, h, n);
        }
      }
      assert h > 0 ==> forall i :: 0 <= i < n ==> starts[i] < h by {
        forall i | 0 <= i < n && h > 0
          ensures starts[i] < h
        {
          SectionStartBelow(i, h, n);
        }
      }
      Ok(starts + [Max(0, h - vh)])
  }

  /** Later sections start no earlier. */
  lemma SectionStartsGrow(i: nat, j: nat, h: nat, n: nat)
    requires i <= j && n > 0
    ensures (i * h) / n <= (j * h) / n
  {
    assert i * h <= j * h by {
      assert (j - i) * h >= 0;
    }
    DivMonotone(i * h, j * h, n);
  }

  /** Every section starts inside the page. */
  lemma SectionStartBelow(i: nat, h: nat, n: nat)
    requires i < n && h > 0
    ensures (i * h) / n < h
  {
    assert i * h < n * h by {
      assert (n - i) * h > 0;
    }
    var q := (i * h) / n;
    assert i * h >= n * q;
  }

  /** A positive factor can be cancelled from a strict inequality. */
  lemma MulCancel(n: nat, x: nat, y: nat)
    requires n > 0 && n * x < n * y
    ensures x < y
    decreases x
  {
    if x > 0 {
      assert n * x == n * (x - 1) + n;
      assert n * y == n * (y - 1) + n;
      MulCancel(n, x - 1, y - 1);
    }
  }

  /** Integer division keeps order. */
  lemma DivMonotone(a: nat, b: nat, n: nat)
    requires a <= b && n > 0
    ensures a / n <= b / n
  {
    var qa, qb := a / n, b / n;
    assert a == n * qa + a % n && 0 <= a % n < n;
    assert b == n * qb + b % n && 0 <= b % n < n;
    assert n * (qb + 1) == n * qb + n;
    MulCancel(n, qa, qb + 1);
  }
}
