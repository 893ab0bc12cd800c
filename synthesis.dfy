/**
  Phases 4 and 5 of the extractor: combining what every page yielded into
  one business record (`_synthesize_all_data`, with `_deduplicate_programs`
  and `_deduplicate_instructors`), and the validation pass that drops
  nameless programs and instructors and too-short policies
  (`_validate_and_clean_data`).
 */
module Synthesis {
  import opened Values
  import opened Text
  import opened Seqs
  import opened Grouping
  import opened Programs

  /** What one page yielded (`ExtractedContent`); the raw page text is not used here. */
  datatype ExtractedContent = ExtractedContent(
    url: string,
    pageType: string,
    businessInfo: Record,
    programs: seq<Record>,
    instructors: seq<Record>,
    policies: seq<Value>,
    schedules: seq<Record>,
    pricing: seq<Record>)

  // ---------------------------------------------------------------- instructors

  /** The key of `_deduplicate_instructors`: `instructor.get('name', '').lower().strip()`, none when empty; a name that is not a string raises. */
  function InstructorKey(r: Record): (k: Result<Option<string>>)
    ensures k.Raised? <==> !GetOr(r, "name", Str("")).Str?
    ensures k.Ok? && k.value.Some? ==>
      "name" in r && k.value.value == Strip(Lower(r["name"].s)) && k.value.value != []
    ensures k == Ok(None) <==> GetOr(r, "name", Str("")).Str? && Strip(Lower(GetOr(r, "name", Str("")).s)) == []
  {
    var name := GetOr(r, "name", Str(""));
    if !name.Str? then Raised
    else
      var t := Strip(Lower(name.s));
      if t == [] then Ok(None) else Ok(Some(t))
  }

  /** The folded name of an instructor whose name could be read. */
  const InstructorName: Record -> Option<string> := Known(InstructorKey)

  /** `_deduplicate_instructors`. */
  function UniqueInstructors(instructors: seq<Record>): Result<seq<Record>>
  {
    if !AllRead(instructors, InstructorKey) then Raised
    else Ok(FirstOfEach(instructors, InstructorName))
  }

  /** `_deduplicate_instructors`: the `seen_names` loop. */
  method DeduplicateInstructors(instructors: seq<Record>) returns (r: Result<seq<Record>>)
    ensures r == UniqueInstructors(instructors)
  {
    var kept := KeepFirstOfEach(instructors, InstructorKey);
    if kept.None? {
      return Raised;
    }
    return Ok(kept.value);
  }

  /** `_deduplicate_instructors` keeps exactly one instructor per distinct folded name, the first one, in order of first appearance; no two kept instructors share a folded name, and every non-empty folded name is kept. */
  lemma UniqueInstructorsFirst(instructors: seq<Record>)
    ensures UniqueInstructors(instructors).Raised? <==>
      exists i :: 0 <= i < |instructors| && !GetOr(instructors[i], "name", Str("")).Str?
    ensures UniqueInstructors(instructors).Ok? ==>
      var out := UniqueInstructors(instructors).value;
      var names := GroupKeys(instructors, InstructorName);
      |out| == |names|
      && (forall j :: 0 <= j < |names| ==>
            GroupOf(instructors, InstructorName, names[j]) != []
            && out[j] == GroupOf(instructors, InstructorName, names[j])[0]
            && InstructorName(out[j]) == Some(names[j]))
      && (forall j1, j2 :: 0 <= j1 < j2 < |out| ==> InstructorName(out[j1]) != InstructorName(out[j2]))
      && (forall i :: 0 <= i < |instructors| && InstructorName(instructors[i]).Some? ==>
            exists j :: 0 <= j < |out| && InstructorName(out[j]) == InstructorName(instructors[i]))
  {
    FirstOfEachGroups(instructors, InstructorName);
    FirstOfEachKeys(instructors, InstructorName);
  }

  // ---------------------------------------------------------------- validation

  /** The test of `_validate_and_clean_data` for a program or an instructor: `entry.get('name') and len(entry['name'].strip()) > 0`. */
  function HasName(r: Record): (b: Result<bool>)
    ensures b == Ok(true) <==> "name" in r && r["name"].Str? && Strip(r["name"].s) != []
    ensures b.Raised? <==> "name" in r && Truthy(r["name"]) && !r["name"].Str?
  {
    var name := Get(r, "name");
    if !Truthy(name) then Ok(false)
    else if !name.Str? then Raised
    else Ok(|Strip(name.s)| > 0)
  }

  /** The test of `_validate_and_clean_data` for a policy: `p and len(p.strip()) > 10`. */
  function IsPolicy(p: Value): (b: Result<bool>)
    ensures b == Ok(true) <==> p.Str? && |Strip(p.s)| > 10
    ensures b.Raised? <==> Truthy(p) && !p.Str?
  {
    if !Truthy(p) then Ok(false)
    else if !p.Str? then Raised
    else Ok(|Strip(p.s)| > 10)
  }

  /** The elements that pass `test`. */
  function Passes<T>(test: T -> Result<bool>): T -> bool
  {
    x => test(x) == Ok(true)
  }

  /** A filtering loop or comprehension: the elements that pass `test`, in order; raises when `test` raises on any element. */
  function Selected<T>(xs: seq<T>, test: T -> Result<bool>): Result<seq<T>>
  {
    if xs == [] then Ok([])
    else
      var n := |xs| - 1;
      match Selected(xs[..n], test)
      case Raised => Raised
      case Ok(front) =>
        match test(xs[n])
        case Raised => Raised
        case Ok(keep) => Ok(if keep then front + [xs[n]] else front)
  }

  /** Filtering raises exactly when the test raises on some element, and otherwise keeps, in order, exactly the elements that pass. */
  lemma {:induction false} SelectedFilters<T>(xs: seq<T>, test: T -> Result<bool>)
    ensures Selected(xs, test).Raised? <==> exists i :: 0 <= i < |xs| && test(xs[i]).Raised?
    ensures Selected(xs, test).Ok? ==> Selected(xs, test).value == Filter(xs, Passes(test))
  {
    if xs != [] {
      var n := |xs| - 1;
      SelectedFilters(xs[..n], test);
      assert forall i :: 0 <= i < n ==> xs[..n][i] == xs[i];
    }
  }

  /** The loop `for x in xs: if test(x): kept.append(x)`. */
  method SelectWhere<T>(xs: seq<T>, test: T -> Result<bool>) returns (r: Result<seq<T>>)
    ensures r == Selected(xs, test)
  {
    var kept: seq<T> := [];
    var i := 0;
    while i < |xs|
      invariant 0 <= i <= |xs|
      invariant Selected(xs[..i], test) == Ok(kept)
    {
      assert xs[..i + 1][..i] == xs[..i];
      var t := test(xs[i]);
      if t.Raised? {
        SelectedRaised(xs, test, i + 1);
        return Raised;
      }
      if t.value {
        kept := kept + [xs[i]];
      }
      i := i + 1;
    }
    assert xs[..i] == xs;
    return Ok(kept);
  }

  /** Once filtering a prefix has raised, filtering the whole sequence raises. */
  lemma {:induction false} SelectedRaised<T>(xs: seq<T>, test: T -> Result<bool>, n: nat)
    requires n <= |xs| && Selected(xs[..n], test).Raised?
    ensures Selected(xs, test).Raised?
    decreases |xs| - n
  {
    if n < |xs| {
      assert xs[..n + 1][..n] == xs[..n];
      SelectedRaised(xs, test, n + 1);
    } else {
      assert xs[..n] == xs;
    }
  }

  /** Validation keeps exactly the entries whose name is a string with something besides white space, in order, and raises on a truthy name that is not a string. */
  lemma ValidEntries(entries: seq<Record>)
    ensures Selected(entries, HasName).Raised? <==>
      exists i :: 0 <= i < |entries| && "name" in entries[i] && Truthy(entries[i]["name"]) && !entries[i]["name"].Str?
    ensures Selected(entries, HasName).Ok? ==>
      forall r: Record :: r in Selected(entries, HasName).value <==>
        r in entries && "name" in r && r["name"].Str? && Strip(r["name"].s) != []
  {
    SelectedFilters(entries, HasName);
    if Selected(entries, HasName).Ok? {
      forall r: Record { FilterMembers(entries, Passes(HasName), r); }
    }
  }

  /** Validation keeps exactly the policies that are strings longer than ten characters once stripped, in order, and raises on a truthy policy that is not a string. */
  lemma ValidPolicies(policies: seq<Value>)
    ensures Selected(policies, IsPolicy).Raised? <==>
      exists i :: 0 <= i < |policies| && Truthy(policies[i]) && !policies[i].Str?
    ensures Selected(policies, IsPolicy).Ok? ==>
      forall p :: p in Selected(policies, IsPolicy).value <==> p in policies && p.Str? && |Strip(p.s)| > 10
  {
    SelectedFilters(policies, IsPolicy);
    if Selected(policies, IsPolicy).Ok? {
      forall p { FilterMembers(policies, Passes(IsPolicy), p); }
    }
  }

  // ---------------------------------------------------------------- synthesis

  function ProgramsOf(c: ExtractedContent): seq<Record> { c.programs }
  function InstructorsOf(c: ExtractedContent): seq<Record> { c.instructors }
  function PoliciesOf(c: ExtractedContent): seq<Value> { c.policies }
  function SchedulesOf(c: ExtractedContent): seq<Record> { c.schedules }
  function PricingOf(c: ExtractedContent): seq<Record> { c.pricing }

  /** `all_x.extend(content.x)` over the pages, in page order. */
  function Gather<T>(contents: seq<ExtractedContent>, part: ExtractedContent -> seq<T>): seq<T>
  {
    if contents == [] then []
    else Gather(contents[..|contents| - 1], part) + part(contents[|contents| - 1])
  }

  /** The gathered list holds the pages' lists one after the other: each page's list is a slice of it, at the sum of the earlier lengths. */
  lemma {:induction false} GatherSlices<T>(contents: seq<ExtractedContent>, part: ExtractedContent -> seq<T>, i: nat)
    requires i < |contents|
    ensures |Gather(contents[..i], part)| + |part(contents[i])| <= |Gather(contents, part)|
    ensures Gather(contents, part)[|Gather(contents[..i], part)|..|Gather(contents[..i], part)| + |part(contents[i])|]
         == part(contents[i])
    decreases |contents|
  {
    var n := |contents| - 1;
    assert contents[..n + 1] == contents;
    if i < n {
      GatherSlices(contents[..n], part, i);
      assert contents[..n][..i] == contents[..i];
      assert contents[..n][i] == contents[i];
    }
  }

  /** An element is gathered exactly when some page yielded it. */
  lemma {:induction false} GatherMembers<T>(contents: seq<ExtractedContent>, part: ExtractedContent -> seq<T>, x: T)
    ensures x in Gather(contents, part) <==> exists i :: 0 <= i < |contents| && x in part(contents[i])
  {
    if contents != [] {
      var n := |contents| - 1;
      GatherMembers(contents[..n], part, x);
      if exists i :: 0 <= i < |contents| && x in part(contents[i]) {
        var i :| 0 <= i < |contents| && x in part(contents[i]);
        if i < n { assert contents[..n][i] == contents[i]; }
      }
      if exists i :: 0 <= i < n && x in part(contents[..n][i]) {
        var i :| 0 <= i < n && x in part(contents[..n][i]);
        assert contents[..n][i] == contents[i];
      }
    }
  }

  /** `business_info.update(content.business_info)` for each page whose business info is not empty. */
  function BusinessInfo(contents: seq<ExtractedContent>): Record
  {
    if contents == [] then map[]
    else
      var n := |contents| - 1;
      if contents[n].businessInfo != map[] then BusinessInfo(contents[..n]) + contents[n].businessInfo
      else BusinessInfo(contents[..n])
  }

  /** The combined business info holds a key exactly when some page reported it. */
  lemma {:induction false} BusinessInfoKeys(contents: seq<ExtractedContent>, k: string)
    ensures k in BusinessInfo(contents) <==> exists i :: 0 <= i < |contents| && k in contents[i].businessInfo
  {
    if contents != [] {
      var n := |contents| - 1;
      var front := contents[..n];
      assert forall i :: 0 <= i < n ==> front[i] == contents[i];
      BusinessInfoKeys(front, k);
    }
  }

  /** A key of the combined business info holds the value from the last page that reported it. */
  lemma {:induction false} BusinessInfoLastWins(contents: seq<ExtractedContent>, k: string, i: nat)
    requires i < |contents| && k in contents[i].businessInfo
    requires forall j :: i < j < |contents| ==> k !in contents[j].businessInfo
    ensures k in BusinessInfo(contents) && BusinessInfo(contents)[k] == contents[i].businessInfo[k]
  {
    var n := |contents| - 1;
    var front := contents[..n];
    if i < n {
      assert front[i] == contents[i];
      assert forall j :: i < j < n ==> front[j] == contents[j];
      BusinessInfoLastWins(front, k, i);
    }
  }

  /** `list(set(all_policies))`: the distinct policies; raises when one is a list or a dict. */
  function PolicySet(policies: seq<Value>): (r: Result<seq<Value>>)
    ensures r.Raised? <==> exists i :: 0 <= i < |policies| && !Hashable(policies[i])
    ensures r.Ok? ==> Distinct(r.value) && forall p :: p in r.value <==> p in policies
  {
    if exists i :: 0 <= i < |policies| && !Hashable(policies[i]) then Raised
    else Ok(Dedupe(policies))
  }

  /** `ComprehensiveBusinessData`; the operating hours and the confidence are not modelled. */
  class ComprehensiveBusinessData {
    var name: Value
    var description: Value
    var category: string
    var subcategory: string
    var address: Value
    var city: Value
    var state: Value
    var zipCode: Value
    var phone: Value
    var email: Value
    var website: string
    var programs: seq<Record>
    var instructors: seq<Record>
    var policies: seq<Value>
    var schedules: seq<Record>
    var pricing: seq<Record>
    var pagesAnalyzed: seq<string>

    /** The record `_synthesize_all_data` builds from the combined business info and lists. */
    constructor (info: Record, businessName: string, baseUrl: string,
                 programs: seq<Record>, instructors: seq<Record>, policies: seq<Value>,
                 schedules: seq<Record>, pricing: seq<Record>, pagesAnalyzed: seq<string>)
      ensures name == GetOr(info, "name", Str(businessName))
      ensures description == GetOr(info, "description", Str("Quality gymnastics programs at " + businessName))
      ensures category == "SPORTS" && subcategory == "GYMNASTICS"
      ensures address == GetOr(info, "address", Str("Address not available"))
      ensures city == GetOr(info, "city", Str("City not available"))
      ensures state == GetOr(info, "state", Str("State not available"))
      ensures zipCode == GetOr(info, "zip_code", Str("00000"))
      ensures phone == GetOr(info, "phone", Str("Phone not available"))
      ensures email == GetOr(info, "email", Str("Email not available"))
      ensures website == baseUrl
      ensures this.programs == programs && this.instructors == instructors && this.policies == policies
      ensures this.schedules == schedules && this.pricing == pricing && this.pagesAnalyzed == pagesAnalyzed
    {
      name := GetOr(info, "name", Str(businessName));
      description := GetOr(info, "description", Str("Quality gymnastics programs at " + businessName));
      category := "SPORTS";
      subcategory := "GYMNASTICS";
      address := GetOr(info, "address", Str("Address not available"));
      city := GetOr(info, "city", Str("City not available"));
      state := GetOr(info, "state", Str("State not available"));
      zipCode := GetOr(info, "zip_code", Str("00000"));
      phone := GetOr(info, "phone", Str("Phone not available"));
      email := GetOr(info, "email", Str("Email not available"));
      website := baseUrl;
      this.programs := programs;
      this.instructors := instructors;
      this.policies := policies;
      this.schedules := schedules;
      this.pricing := pricing;
      this.pagesAnalyzed := pagesAnalyzed;
    }
  }

  /** The URLs of the analyzed pages, in page order. */
  function PagesAnalyzed(contents: seq<ExtractedContent>): (urls: seq<string>)
    ensures |urls| == |contents| && forall i :: 0 <= i < |contents| ==> urls[i] == contents[i].url
  {
    seq(|contents|, i requires 0 <= i < |contents| => contents[i].url)
  }

  /** `_synthesize_all_data`: concatenates every page's lists in page order, lets later pages' business info override earlier ones, merges programs across pages, drops repeated instructors and policies, and fills in the defaults; raises when one of the three deduplications raises. */
  method SynthesizeAllData(contents: seq<ExtractedContent>, businessName: string, baseUrl: string)
    returns (r: Result<ComprehensiveBusinessData>)
    ensures r.Raised? <==>
      CrossPageMerge(Gather(contents, ProgramsOf)).Raised?
      || UniqueInstructors(Gather(contents, InstructorsOf)).Raised?
      || PolicySet(Gather(contents, PoliciesOf)).Raised?
    ensures r.Ok? ==>
      var data := r.value;
      var info := BusinessInfo(contents);
      fresh(data)
      && data.name == GetOr(info, "name", Str(businessName))
      && data.description == GetOr(info, "description", Str("Quality gymnastics programs at " + businessName))
      && data.category == "SPORTS" && data.subcategory == "GYMNASTICS"
      && data.address == GetOr(info, "address", Str("Address not available"))
      && data.city == GetOr(info, "city", Str("City not available"))
      && data.state == GetOr(info, "state", Str("State not available"))
      && data.zipCode == GetOr(info, "zip_code", Str("00000"))
      && data.phone == GetOr(info, "phone", Str("Phone not available"))
      && data.email == GetOr(info, "email", Str("Email not available"))
      && data.website == baseUrl
      && data.programs == CrossPageMerge(Gather(contents, ProgramsOf)).value
      && data.instructors == UniqueInstructors(Gather(contents, InstructorsOf)).value
      && data.policies == PolicySet(Gather(contents, PoliciesOf)).value
      && data.schedules == Gather(contents, SchedulesOf)
      && data.pricing == Gather(contents, PricingOf)
      && data.pagesAnalyzed == PagesAnalyzed(contents)
  {
    var allPrograms: seq<Record> := [];
    var allInstructors: seq<Record> := [];
    var allPolicies: seq<Value> := [];
    var allSchedules: seq<Record> := [];
    var allPricing: seq<Record> := [];
    var businessInfo: Record := map[];
    for i := 0 to |contents|
      invariant allPrograms == Gather(contents[..i], ProgramsOf)
      invariant allInstructors == Gather(contents[..i], InstructorsOf)
      invariant allPolicies == Gather(contents[..i], PoliciesOf)
      invariant allSchedules == Gather(contents[..i], SchedulesOf)
      invariant allPricing == Gather(contents[..i], PricingOf)
      invariant businessInfo == BusinessInfo(contents[..i])
    {
      assert contents[..i + 1][..i] == contents[..i];
      var content := contents[i];
      allPrograms := allPrograms + content.programs;
      allInstructors := allInstructors + content.instructors;
      allPolicies := allPolicies + content.policies;
      allSchedules := allSchedules + content.schedules;
      allPricing := allPricing + content.pricing;
      if content.businessInfo != map[] {
        businessInfo := businessInfo + content.businessInfo;
      }
    }
    assert contents[..|contents|] == contents;

    var programs := MergeCrossPagePrograms(allPrograms);
    if programs.Raised? {
      return Raised;
    }
    var instructors := DeduplicateInstructors(allInstructors);
    if instructors.Raised? {
      return Raised;
    }
    var policies := PolicySet(allPolicies);
    if policies.Raised? {
      return Raised;
    }
    var pages := seq(|contents|, i requires 0 <= i < |contents| => contents[i].url);
    var data := new ComprehensiveBusinessData(businessInfo, businessName, baseUrl,
      programs.value, instructors.value, policies.value, allSchedules, allPricing, pages);
    return Ok(data);
  }

  /** `_validate_and_clean_data`: replaces the programs, then the instructors, then the policies by the valid ones; `false` when a test raises, after the lists already replaced. */
  method ValidateAndCleanData(data: ComprehensiveBusinessData) returns (ok: bool)
    modifies data
    ensures var progs := Selected(old(data.programs), HasName);
      var insts := Selected(old(data.instructors), HasName);
      var pols := Selected(old(data.policies), IsPolicy);
      (ok <==> progs.Ok? && insts.Ok? && pols.Ok?)
      && data.programs == (if progs.Ok? then progs.value else old(data.programs))
      && data.instructors == (if progs.Ok? && insts.Ok? then insts.value else old(data.instructors))
      && data.policies == (if ok then pols.value else old(data.policies))
    ensures data.name == old(data.name) && data.description == old(data.description)
    ensures data.category == old(data.category) && data.subcategory == old(data.subcategory)
    ensures data.address == old(data.address) && data.city == old(data.city) && data.state == old(data.state)
    ensures data.zipCode == old(data.zipCode) && data.phone == old(data.phone) && data.email == old(data.email)
    ensures data.website == old(data.website) && data.schedules == old(data.schedules)
    ensures data.pricing == old(data.pricing) && data.pagesAnalyzed == old(data.pagesAnalyzed)
  {
    var programs := SelectWhere(data.programs, HasName);
    if programs.Raised? {
      return false;
    }
    data.programs := programs.value;
    var instructors := SelectWhere(data.instructors, HasName);
    if instructors.Raised? {
      return false;
    }
    data.instructors := instructors.value;
    var policies := SelectWhere(data.policies, IsPolicy);
    if policies.Raised? {
      return false;
    }
    data.policies := policies.value;
    return true;
  }
}
