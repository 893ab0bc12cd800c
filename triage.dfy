/**
  Page triage: `_categorize_page` sorts a discovered URL into a page type
  and a visiting priority by the first keyword group that occurs in it, and
  skips contact pages.
 */
module Triage {
  import opened Values
  import opened Text
  import opened Urls

  /** `PageInfo`; the `links_found` list is never filled and is not modelled. */
  datatype PageInfo = PageInfo(
    url: string,
    title: string,
    pageType: string,
    priority: int,
    visited: bool,
    contentExtracted: bool)

  /** One keyword group of `_categorize_page`: its words, and the page type and priority it assigns, or none for the pages it skips. */
  datatype Rule = Rule(words: seq<string>, category: Option<(string, int)>)

  /** The keyword groups, in the order `_categorize_page` tries them. */
  const CategoryRules: seq<Rule> := [
    Rule(["/portal/class", "/portal/schedule", "/classes/", "/class-schedule", "/sessions", "/register"],
         Some(("schedule", 1))),
    Rule(["schedule", "calendar", "timetable", "hours", "time"], Some(("schedule", 1))),
    Rule(["program", "class", "course", "lesson", "academy", "gymnastics", "tumbling", "ninja", "preschool",
          "camp", "adaptive", "boys", "girls", "xcel", "team"], Some(("programs", 2))),
    Rule(["staff", "instructor", "coach", "teacher", "employee"], Some(("staff", 3))),
    Rule(["pricing", "price", "fee", "cost", "tuition", "payment", "rate"], Some(("pricing", 2))),
    Rule(["about", "story", "mission", "history", "us"], Some(("about", 4))),
    Rule(["policy", "rule", "requirement", "waiver", "faq", "policies"], Some(("policies", 4))),
    Rule(["contact", "location", "address", "direction"], None),
    Rule(["event", "open-gym", "field-trip", "special", "play-group"], Some(("programs", 2))),
    Rule(["job", "career", "employment", "application"], Some(("about", 5)))
  ]

  /** The position of the contact group, whose pages are skipped. */
  const ContactRule: nat := 7

  /** The contact group is the only group without a category, and every priority of the table lies in 1..5. */
  lemma RulesShape()
    ensures |CategoryRules| == 10
    ensures forall g :: 0 <= g < |CategoryRules| ==> (CategoryRules[g].category.None? <==> g == ContactRule)
    ensures forall g :: 0 <= g < |CategoryRules| && CategoryRules[g].category.Some? ==>
      1 <= CategoryRules[g].category.value.1 <= 5
  {
  }

  /** `any(word in text for word in words)`. */
  predicate AnyIn(text: string, words: seq<string>)
  {
    exists j :: 0 <= j < |words| && Contains(text, words[j])
  }

  /** The first group from `g` on with a word occurring in `text`. */
  function FirstRule(text: string, g: nat): (r: Option<nat>)
    requires g <= |CategoryRules|
    ensures r.Some? ==>
      g <= r.value < |CategoryRules| && AnyIn(text, CategoryRules[r.value].words)
      && forall h :: g <= h < r.value ==> !AnyIn(text, CategoryRules[h].words)
    ensures r.None? ==> forall h :: g <= h < |CategoryRules| ==> !AnyIn(text, CategoryRules[h].words)
    decreases |CategoryRules| - g
  {
    if g == |CategoryRules| then None
    else if AnyIn(text, CategoryRules[g].words) then Some(g)
    else FirstRule(text, g + 1)
  }

  /** The body of `_categorize_page` once the text to match is chosen: the first matching group decides, the contact group skips the page, and a page matching no group is general with priority 4. */
  function Classify(url: string, text: string): (r: Option<PageInfo>)
    ensures r.None? <==> FirstRule(text, 0) == Some(ContactRule)
    ensures r.Some? ==>
      r.value.url == url && r.value.title == Unhyphenate(LastSegment(url))
      && 1 <= r.value.priority <= 5 && !r.value.visited && !r.value.contentExtracted
    ensures FirstRule(text, 0).None? ==> r.Some? && r.value.pageType == "general" && r.value.priority == 4
    ensures FirstRule(text, 0).Some? && CategoryRules[FirstRule(text, 0).value].category.Some? ==>
      r.Some? && (r.value.pageType, r.value.priority) == CategoryRules[FirstRule(text, 0).value].category.value
  {
    RulesShape();
    var title := Unhyphenate(LastSegment(url));
    match FirstRule(text, 0)
    case None => Some(PageInfo(url, title, "general", 4, false, false))
    case Some(g) =>
      match CategoryRules[g].category
      case None => None
      case Some((pageType, priority)) =>
        if priority > 5 then None
        else Some(PageInfo(url, title, pageType, priority, false, false))
  }

  /** What the first keyword group matching `text` decides for the page at `url`: skipped for the contact group, general with priority 4 when no group matches, otherwise the group's type and priority, always with the title from the last path segment, a priority in 1..5 and nothing visited or extracted yet. */
  predicate TypedBy(url: string, text: string, r: Option<PageInfo>)
  {
    (r.None? <==> FirstRule(text, 0) == Some(ContactRule))
    && (r.Some? ==>
      r.value.url == url && r.value.title == Unhyphenate(LastSegment(url))
      && 1 <= r.value.priority <= 5 && !r.value.visited && !r.value.contentExtracted)
    && (FirstRule(text, 0).None? ==> r.Some? && r.value.pageType == "general" && r.value.priority == 4)
    && (FirstRule(text, 0).Some? && CategoryRules[FirstRule(text, 0).value].category.Some? ==>
      r.Some? && (r.value.pageType, r.value.priority) == CategoryRules[FirstRule(text, 0).value].category.value)
  }

  /** `_categorize_page`, which matches the keywords against the whole lowercased URL, host included. */
  function CategorizePageAsWritten(url: string): (r: Option<PageInfo>)
    ensures TypedBy(url, Lower(url), r)
  {
    Classify(url, Lower(url))
  }

  /** `_categorize_page` matching the keywords against the lowercased text after the host only, so that the site's own name does not decide every page's type. */
  function CategorizePage(url: string): (r: Option<PageInfo>)
    ensures TypedBy(url, Lower(AfterHost(url)), r)
  {
    Classify(url, Lower(AfterHost(url)))
  }

  /** A staff page on a site whose host holds a program word is typed "programs" as written, and "staff" once the host is left out. */
  lemma StaffPageOnGymnasticsSite(url: string)
    requires url == "http://gymnastics.com/staff"
    ensures CategorizePageAsWritten(url).Some? && CategorizePageAsWritten(url).value.pageType == "programs"
    ensures CategorizePage(url).Some? && CategorizePage(url).value.pageType == "staff"
  {
    StaffUrlRule(url);
    TypedAsWritten(url);
    StaffPathRule(url);
    TypedByPath(url);
  }

  /** The categories of the program group and the staff group. */
  lemma ProgramAndStaffRules()
    ensures CategoryRules[2].category == Some(("programs", 2))
    ensures CategoryRules[3].category == Some(("staff", 3))
  {
  }

  /** As written, a URL whose text first matches the program group is a programs page. */
  lemma TypedAsWritten(url: string)
    requires FirstRule(Lower(url), 0) == Some(2)
    ensures CategorizePageAsWritten(url).Some? && CategorizePageAsWritten(url).value.pageType == "programs"
  {
    ProgramAndStaffRules();
    var r := Classify(url, Lower(url));
    assert r.Some? && (r.value.pageType, r.value.priority) == ("programs", 2);
  }

  /** A URL whose text after the host first matches the staff group is a staff page. */
  lemma TypedByPath(url: string)
    requires FirstRule(Lower(AfterHost(url)), 0) == Some(3)
    ensures CategorizePage(url).Some? && CategorizePage(url).value.pageType == "staff"
  {
    ProgramAndStaffRules();
    var r := Classify(url, Lower(AfterHost(url)));
    assert r.Some? && (r.value.pageType, r.value.priority) == ("staff", 3);
  }

  /** The whole example URL first matches the program group, through its host. */
  lemma StaffUrlRule(url: string)
    requires url == "http://gymnastics.com/staff"
    ensures FirstRule(Lower(url), 0) == Some(2)
  {
    StaffUrlChars(url);
    StaffUrlHost(url);
    StaffUrlLower(url);
    ProgramRuleFirst(url, 7);
  }

  /** The example URL holds none of 'e', 'l', 'r' and 'u'. */
  lemma StaffUrlChars(url: string)
    requires url == "http://gymnastics.com/staff"
    ensures 'e' !in url && 'l' !in url && 'r' !in url && 'u' !in url
  {
    forall i | 0 <= i < |url| ensures url[i] != 'e' && url[i] != 'l' && url[i] != 'r' && url[i] != 'u' {
      assert url[i] in "htp:/gymnasic.of";
    }
  }

  /** The host of the example URL names the sport. */
  lemma StaffUrlHost(url: string)
    requires url == "http://gymnastics.com/staff"
    ensures MatchAt(url, "gymnastics", 7)
  {
    assert url[7..17] == "gymnastics";
  }

  /** The example URL is already lowercase. */
  lemma StaffUrlLower(url: string)
    requires url == "http://gymnastics.com/staff"
    ensures Lower(url) == url
  {
    LowerUnchanged(url);
  }

  /** A text without 'e', 'l', 'r' and 'u' that holds "gymnastics" first matches the program group. */
  lemma ProgramRuleFirst(text: string, k: nat)
    requires 'e' !in text && 'l' !in text && 'r' !in text && 'u' !in text
    requires MatchAt(text, "gymnastics", k)
    ensures FirstRule(text, 0) == Some(2)
  {
    NoEarlyRule(text);
    OccursAt(text, "gymnastics", 0, k);
    assert CategoryRules[2].words[5] == "gymnastics";
  }

  /** The text after the host of the example URL first matches the staff group. */
  lemma StaffPathRule(url: string)
    requires url == "http://gymnastics.com/staff"
    ensures FirstRule(Lower(AfterHost(url)), 0) == Some(3)
  {
    var path := AfterHost(url);
    PathOfStaffPage(url);
    LowerUnchanged(path);
    assert MatchAt(path, "staff", 1);
    StaffRuleFirst(path, 1);
  }

  /** A text made of the characters of "/staff" that holds "staff" first matches the staff group. */
  lemma StaffRuleFirst(text: string, k: nat)
    requires forall c :: c in text ==> c in "/staff"
    requires MatchAt(text, "staff", k)
    ensures FirstRule(text, 0) == Some(3)
  {
    NoEarlyRule(text);
    NoProgramWord(text);
    OccursAt(text, "staff", 0, k);
    assert CategoryRules[3].words[0] == "staff";
  }

  /** The text after the host of the example URL. */
  lemma PathOfStaffPage(url: string)
    requires url == "http://gymnastics.com/staff"
    ensures AfterHost(url) == "/staff"
  {
    assert MatchAt(url, "://", 4);
    assert !MatchAt(url, "://", 0) && !MatchAt(url, "://", 1) && !MatchAt(url, "://", 2) && !MatchAt(url, "://", 3);
    assert forall j :: 7 <= j < 21 ==> !EndsHost(url[j]);
    AfterHostAt(url, 4, 21);
    assert url[21..] == "/staff";
  }

  /** Neither of the two schedule groups matches a text without 'e', 'l', 'r' and 'u'. */
  lemma NoEarlyRule(text: string)
    requires 'e' !in text && 'l' !in text && 'r' !in text && 'u' !in text
    ensures !AnyIn(text, CategoryRules[0].words) && !AnyIn(text, CategoryRules[1].words)
  {
    MissingCharFrom(text, "/portal/class", 0, 3);
    MissingCharFrom(text, "/portal/schedule", 0, 3);
    MissingCharFrom(text, "/classes/", 0, 2);
    MissingCharFrom(text, "/class-schedule", 0, 2);
    MissingCharFrom(text, "/sessions", 0, 2);
    MissingCharFrom(text, "/register", 0, 1);
    MissingCharFrom(text, "schedule", 0, 5);
    MissingCharFrom(text, "calendar", 0, 2);
    MissingCharFrom(text, "timetable", 0, 3);
    MissingCharFrom(text, "hours", 0, 2);
    MissingCharFrom(text, "time", 0, 3);
  }

  /** The program group does not match "/staff". */
  lemma NoProgramWord(text: string)
    requires forall c :: c in text ==> c in "/staff"
    ensures !AnyIn(text, CategoryRules[2].words)
  {
    MissingCharFrom(text, "program", 0, 0);
    MissingCharFrom(text, "class", 0, 0);
    MissingCharFrom(text, "course", 0, 0);
    MissingCharFrom(text, "lesson", 0, 0);
    MissingCharFrom(text, "academy", 0, 1);
    MissingCharFrom(text, "gymnastics", 0, 0);
    MissingCharFrom(text, "tumbling", 0, 1);
    MissingCharFrom(text, "ninja", 0, 0);
    MissingCharFrom(text, "preschool", 0, 0);
    MissingCharFrom(text, "camp", 0, 0);
    MissingCharFrom(text, "adaptive", 0, 1);
    MissingCharFrom(text, "boys", 0, 0);
    MissingCharFrom(text, "girls", 0, 0);
    MissingCharFrom(text, "xcel", 0, 0);
    MissingCharFrom(text, "team", 0, 1);
  }
}
