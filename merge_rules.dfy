/**
  The per-field rules that combine two sightings of the same program found on
  different pages: every rule first passes a falsy side through, then applies
  its own preference (longer name, specific level over a generic one, highest
  status, ...). A rule applied to a value of a type its Python code cannot
  handle raises, which is modelled as `Raised`.
 */
module MergeRules {
  import opened Values
  import opened Text
  import opened Seqs

  /** The merge rule a field of the strategy table uses. */
  datatype Strategy =
    | Names | Descriptions | AgeRanges | Levels | Lists | Schedules | ScheduleDetails
    | Prices | NumbersMax | Categories | SessionInfo | Dates | Availability | Status

  /** The strategy table of `_merge_two_programs`, in its order. */
  const StrategyTable: seq<(string, Strategy)> := [
    ("name", Names), ("description", Descriptions), ("age_range", AgeRanges),
    ("level", Levels), ("instructors", Lists), ("skills", Lists),
    ("schedule", Schedules), ("schedule_details", ScheduleDetails), ("price", Prices),
    ("duration", NumbersMax), ("max_participants", NumbersMax), ("prerequisites", Descriptions),
    ("category", Categories), ("session_name", SessionInfo), ("start_date", Dates),
    ("end_date", Dates), ("spots_available", Availability), ("total_spots", NumbersMax),
    ("status", Status), ("registration_deadline", Dates), ("additional_info", Descriptions)
  ]

  /** The fields the table names. */
  function TableFields(): (fs: set<string>)
    ensures forall f :: f in fs <==> exists i :: 0 <= i < |StrategyTable| && StrategyTable[i].0 == f
    ensures "instructor" !in fs && "_source_page" !in fs && "_sources" !in fs && "_source_pages" !in fs
  {
    set i | 0 <= i < |StrategyTable| :: StrategyTable[i].0
  }

  /** No field is listed twice, so each field is merged at most once. */
  lemma TableFieldsDistinct()
    ensures forall i, j :: 0 <= i < j < |StrategyTable| ==> StrategyTable[i].0 != StrategyTable[j].0
  {
  }

  /** The shared opening of every rule: a falsy first value yields the second, a falsy second value the first. */
  predicate PassesThrough(a: Value, b: Value, r: Result<Value>)
  {
    (!Truthy(a) ==> r == Ok(b)) && (Truthy(a) && !Truthy(b) ==> r == Ok(a))
  }

  // ---------------------------------------------------------------- Python comparisons

  predicate Numeric(v: Value)
  {
    v.Int? || v.Bool?
  }

  /** The integer a number stands for (`True` is 1). */
  function Num(v: Value): int
    requires Numeric(v)
  {
    if v.Int? then v.i else if v.b then 1 else 0
  }

  /** Python's `==` on parsed values: numbers compare by value, containers element-wise, other type pairs are unequal. */
  predicate PyEq(a: Value, b: Value)
    decreases a
  {
    match a
    case Null => b.Null?
    case Bool(_) => Numeric(b) && Num(a) == Num(b)
    case Int(_) => Numeric(b) && Num(a) == Num(b)
    case Str(s) => b.Str? && s == b.s
    case List(xs) => b.List? && |xs| == |b.items| && forall i :: 0 <= i < |xs| ==> PyEq(xs[i], b.items[i])
    case Dict(f) => b.Dict? && f.Keys == b.fields.Keys && forall k :: k in f ==> PyEq(f[k], b.fields[k])
  }

  /** Python's `a < b`: numbers and strings in their order, lists lexicographically; any other pair raises `TypeError`. */
  function PyLess(a: Value, b: Value): (r: Result<bool>)
    ensures Numeric(a) && Numeric(b) ==> r == Ok(Num(a) < Num(b))
    ensures a.Str? && b.Str? ==> r == Ok(LexLess(a.s, b.s))
    ensures !(a.List? && b.List?) && !(Numeric(a) && Numeric(b)) && !(a.Str? && b.Str?) ==> r.Raised?
    decreases a, 1
  {
    if Numeric(a) && Numeric(b) then Ok(Num(a) < Num(b))
    else if a.Str? && b.Str? then Ok(LexLess(a.s, b.s))
    else if a.List? && b.List? then ListLess(a.items, b.items)
    else Raised
  }

  /** `xs < ys` on lists: the first unequal position decides, otherwise the shorter list is smaller. */
  function ListLess(xs: seq<Value>, ys: seq<Value>): (r: Result<bool>)
    ensures xs == [] ==> r == Ok(ys != [])
    decreases xs, 0
  {
    if xs == [] || ys == [] then Ok(|xs| < |ys|)
    else if PyEq(xs[0], ys[0]) then ListLess(xs[1..], ys[1..])
    else PyLess(xs[0], ys[0])
  }

  // ---------------------------------------------------------------- the rules

  /** `_merge_names`: the longer name, the first one on a tie; `len` of a number raises. */
  function MergeNames(a: Value, b: Value): (r: Result<Value>)
    ensures PassesThrough(a, b, r)
    ensures r.Ok? ==> r.value == a || r.value == b
    ensures Truthy(a) && Truthy(b) ==> (r.Raised? <==> Len(a).Raised? || Len(b).Raised?)
    ensures Truthy(a) && Truthy(b) && r.Ok? ==>
      Len(r.value).Ok? && Len(a).Ok? && Len(b).Ok?
      && Len(r.value).value >= Len(a).value && Len(r.value).value >= Len(b).value
      && (Len(a).value >= Len(b).value ==> r.value == a)
  {
    if !Truthy(a) then Ok(b)
    else if !Truthy(b) then Ok(a)
    else match (Len(a), Len(b))
      case (Ok(n1), Ok(n2)) => Ok(if n1 >= n2 then a else b)
      case _ => Raised
  }

  /** The body shared by `_merge_descriptions` and `_merge_schedules`: texts that differ beyond case are joined by `sep`, otherwise `longer` picks. */
  function JoinTexts(a: Value, b: Value, sep: string, longer: bool): (r: Result<Value>)
    ensures PassesThrough(a, b, r)
    ensures Truthy(a) && Truthy(b) ==> (r.Ok? <==> a.Str? && b.Str?)
    ensures Truthy(a) && Truthy(b) && r.Ok? && Lower(a.s) != Lower(b.s) ==>
      r.value.Str? && StartsWith(r.value.s, a.s + sep) && EndsWith(r.value.s, sep + b.s)
      && |r.value.s| == |a.s| + |sep| + |b.s|
    ensures Truthy(a) && Truthy(b) && r.Ok? && Lower(a.s) == Lower(b.s) ==>
      (r.value == a || r.value == b) && (longer ==> |r.value.s| >= |a.s| && |r.value.s| >= |b.s|)
      && (!longer ==> r.value == a)
  {
    if !Truthy(a) then Ok(b)
    else if !Truthy(b) then Ok(a)
    else if !a.Str? || !b.Str? then Raised
    else if Lower(a.s) != Lower(b.s) then JoinEnds(a.s, sep, b.s); Ok(Str(a.s + sep + b.s))
    else if longer && |a.s| < |b.s| then Ok(b)
    else Ok(a)
  }

  /** `_merge_descriptions`: different texts are kept both, `a. b`; case-equal texts keep the longer. */
  function MergeDescriptions(a: Value, b: Value): (r: Result<Value>)
    ensures PassesThrough(a, b, r)
    ensures Truthy(a) && Truthy(b) ==> (r.Ok? <==> a.Str? && b.Str?)
    ensures Truthy(a) && Truthy(b) && r.Ok? && Lower(a.s) != Lower(b.s) ==>
      r.value.Str? && StartsWith(r.value.s, a.s + ". ") && EndsWith(r.value.s, ". " + b.s)
    ensures Truthy(a) && Truthy(b) && r.Ok? && Lower(a.s) == Lower(b.s) ==>
      (r.value == a || r.value == b) && |r.value.s| >= |a.s| && |r.value.s| >= |b.s|
  {
    JoinTexts(a, b, ". ", true)
  }

  /** `_merge_schedules`: different schedules are kept both, `a; b`; case-equal ones keep the first. */
  function MergeSchedules(a: Value, b: Value): (r: Result<Value>)
    ensures PassesThrough(a, b, r)
    ensures Truthy(a) && Truthy(b) ==> (r.Ok? <==> a.Str? && b.Str?)
    ensures Truthy(a) && Truthy(b) && r.Ok? && Lower(a.s) != Lower(b.s) ==>
      r.value.Str? && StartsWith(r.value.s, a.s + "; ") && EndsWith(r.value.s, "; " + b.s)
    ensures Truthy(a) && Truthy(b) && r.Ok? && Lower(a.s) == Lower(b.s) ==> r.value == a
  {
    JoinTexts(a, b, "; ", false)
  }

  /** An age bound as `_merge_age_ranges` reads it: `None` becomes `dflt`, a number stays; anything else cannot be compared with an int. */
  function AgeBound(v: Value, dflt: int): Result<Value>
  {
    if v.Null? then Ok(Int(dflt)) else if Numeric(v) then Ok(v) else Raised
  }

  /** Python's `min(x, y)` on numbers: the first unless the second is smaller. */
  function MinNum(x: Value, y: Value): Value
    requires Numeric(x) && Numeric(y)
  {
    if Num(y) < Num(x) then y else x
  }

  /** Python's `max(x, y)` on numbers: the first unless the second is larger. */
  function MaxNum(x: Value, y: Value): Value
    requires Numeric(x) && Numeric(y)
  {
    if Num(y) > Num(x) then y else x
  }

  /** `_merge_age_ranges`: the broader of two `[min, max]` ranges, `None` meaning open (0 and 999 internally). */
  function MergeAgeRanges(a: Value, b: Value): (r: Result<Value>)
    ensures PassesThrough(a, b, r)
    ensures Truthy(a) && Truthy(b) ==>
      (r.Ok? <==> (a.List? && b.List? && |a.items| >= 2 && |b.items| >= 2
                   && AgeBound(a.items[0], 0).Ok? && AgeBound(b.items[0], 0).Ok?
                   && AgeBound(a.items[1], 999).Ok? && AgeBound(b.items[1], 999).Ok?))
    ensures Truthy(a) && Truthy(b) && r.Ok? ==> r.value.List? && |r.value.items| == 2
  {
    if !Truthy(a) then Ok(b)
    else if !Truthy(b) then Ok(a)
    else if !a.List? || !b.List? || |a.items| < 2 || |b.items| < 2 then Raised
    else match (AgeBound(a.items[0], 0), AgeBound(b.items[0], 0), AgeBound(a.items[1], 999), AgeBound(b.items[1], 999))
      case (Ok(lo1), Ok(lo2), Ok(hi1), Ok(hi2)) =>
        var lo := MinNum(lo1, lo2);
        var hi := MaxNum(hi1, hi2);
        Ok(List([if Num(lo) > 0 then lo else Null, if Num(hi) < 999 then hi else Null]))
      case _ => Raised
  }

  /** The lower end of a merged range as an age: `None` is 0. */
  function LowAge(v: Value): int
  {
    if Numeric(v) then Num(v) else 0
  }

  /** The upper end of a merged range as an age: `None` is 999. */
  function HighAge(v: Value): int
  {
    if Numeric(v) then Num(v) else 999
  }

  /** For ages within 0..999 the merged range covers both ranges and is no broader than needed. */
  lemma {:induction false} AgeRangeCovers(a: Value, b: Value)
    requires a.List? && b.List? && |a.items| >= 2 && |b.items| >= 2
    requires forall i :: 0 <= i < 2 ==> a.items[i].Null? || (Numeric(a.items[i]) && 0 <= Num(a.items[i]) <= 999)
    requires forall i :: 0 <= i < 2 ==> b.items[i].Null? || (Numeric(b.items[i]) && 0 <= Num(b.items[i]) <= 999)
    ensures MergeAgeRanges(a, b).Ok?
    ensures var m := MergeAgeRanges(a, b).value.items;
      LowAge(m[0]) == (if LowAge(a.items[0]) <= LowAge(b.items[0]) then LowAge(a.items[0]) else LowAge(b.items[0]))
      && HighAge(m[1]) == (if HighAge(a.items[1]) >= HighAge(b.items[1]) then HighAge(a.items[1]) else HighAge(b.items[1]))
  {
    assert 0 <= 0 < 2 && 0 <= 1 < 2;
    assert Truthy(a) && Truthy(b);
  }

  /** `x.lower() in options`. */
  predicate LowerIn(x: string, options: seq<string>)
  {
    Lower(x) in options
  }

  /** The body shared by `_merge_levels` and `_merge_prices`: a generic value gives way to a specific one. */
  function PreferSpecific(a: Value, b: Value, generic: seq<string>, join: bool): (r: Result<Value>)
    ensures PassesThrough(a, b, r)
    ensures Truthy(a) && Truthy(b) ==> (r.Ok? <==> a.Str? && b.Str?)
    ensures Truthy(a) && Truthy(b) && r.Ok? ==>
      (LowerIn(a.s, generic) && !LowerIn(b.s, generic) ==> r.value == b)
      && (!LowerIn(a.s, generic) && LowerIn(b.s, generic) ==> r.value == a)
      && (LowerIn(a.s, generic) == LowerIn(b.s, generic) && (!join || Lower(a.s) == Lower(b.s)) ==> r.value == a)
      && (LowerIn(a.s, generic) == LowerIn(b.s, generic) && join && Lower(a.s) != Lower(b.s) ==>
            r.value == Str(a.s + " / " + b.s))
  {
    if !Truthy(a) then Ok(b)
    else if !Truthy(b) then Ok(a)
    else if !a.Str? || !b.Str? then Raised
    else if LowerIn(a.s, generic) && !LowerIn(b.s, generic) then Ok(b)
    else if LowerIn(b.s, generic) && !LowerIn(a.s, generic) then Ok(a)
    else if join && Lower(a.s) != Lower(b.s) then Ok(Str(a.s + " / " + b.s))
    else Ok(a)
  }

  const GenericLevels: seq<string> := ["all levels", "various", "mixed"]
  const GenericPrices: seq<string> := ["contact for pricing", "varies", "call for rates"]

  /** `_merge_levels`: a generic level ("all levels", "various", "mixed") gives way to a specific one; otherwise the first stays. */
  function MergeLevels(a: Value, b: Value): (r: Result<Value>)
    ensures PassesThrough(a, b, r)
    ensures r.Ok? ==> r.value == a || r.value == b
    ensures Truthy(a) && Truthy(b) ==> (r.Ok? <==> a.Str? && b.Str?)
    ensures Truthy(a) && Truthy(b) && r.Ok? ==>
      (r.value == b && b != a <==> LowerIn(a.s, GenericLevels) && !LowerIn(b.s, GenericLevels) && b != a)
  {
    PreferSpecific(a, b, GenericLevels, false)
  }

  /** `_merge_prices`: a generic price gives way to a specific one; two different specific prices are kept both, `a / b`. */
  function MergePrices(a: Value, b: Value): (r: Result<Value>)
    ensures PassesThrough(a, b, r)
    ensures Truthy(a) && Truthy(b) ==> (r.Ok? <==> a.Str? && b.Str?)
    ensures Truthy(a) && Truthy(b) && r.Ok? ==>
      (LowerIn(a.s, GenericPrices) && !LowerIn(b.s, GenericPrices) ==> r.value == b)
      && (!LowerIn(a.s, GenericPrices) && LowerIn(b.s, GenericPrices) ==> r.value == a)
      && (!LowerIn(a.s, GenericPrices) && !LowerIn(b.s, GenericPrices) && Lower(a.s) != Lower(b.s) ==>
            r.value.Str? && StartsWith(r.value.s, a.s) && EndsWith(r.value.s, b.s))
  {
    var r := PreferSpecific(a, b, GenericPrices, true);
    if a.Str? && b.Str? then JoinEnds(a.s, " / ", b.s); r else r
  }

  /** `_merge_numbers_max`: Python's `max(a, b)`, the first unless `b > a`; incomparable values raise. */
  function MergeNumbersMax(a: Value, b: Value): (r: Result<Value>)
    ensures PassesThrough(a, b, r)
    ensures r.Ok? ==> r.value == a || r.value == b
    ensures Truthy(a) && Truthy(b) ==> (r.Raised? <==> PyLess(a, b).Raised?)
    ensures Truthy(a) && Truthy(b) && Numeric(a) && Numeric(b) ==>
      r.Ok? && Num(r.value) >= Num(a) && Num(r.value) >= Num(b)
    ensures Truthy(a) && Truthy(b) && a.Str? && b.Str? ==>
      r.Ok? && r.value.Str? && !LexLess(r.value.s, a.s) && !LexLess(r.value.s, b.s)
  {
    if !Truthy(a) then Ok(b)
    else if !Truthy(b) then Ok(a)
    else match PyLess(a, b)
      case Ok(lt) => LexMax(a, b); Ok(if lt then b else a)
      case Raised => Raised
  }

  /** The larger of two strings under `<` is not below either. */
  lemma LexMax(a: Value, b: Value)
    ensures a.Str? && b.Str? ==>
      var m := if LexLess(a.s, b.s) then b.s else a.s;
      !LexLess(m, a.s) && !LexLess(m, b.s)
  {
    if a.Str? && b.Str? {
      LexLessIrreflexive(a.s);
      LexLessIrreflexive(b.s);
      LexLessTotal(a.s, b.s);
      if LexLess(a.s, b.s) && LexLess(b.s, a.s) { LexLessTransitive(a.s, b.s, a.s); }
    }
  }

  /** `_merge_categories`: "general" gives way to any other category; otherwise the first stays. */
  function MergeCategories(a: Value, b: Value): (r: Result<Value>)
    ensures PassesThrough(a, b, r)
    ensures r.Ok? ==> r.value == a || r.value == b
    ensures Truthy(a) && Truthy(b) ==> (r.Ok? <==> a.Str? && b.Str?)
    ensures Truthy(a) && Truthy(b) && r.Ok? ==>
      (r.value == b && b != a <==> Lower(a.s) == "general" && Lower(b.s) != "general" && b != a)
  {
    PreferSpecific(a, b, ["general"], false)
  }

  /** `_merge_session_info`: the second only when strictly longer. */
  function MergeSessionInfo(a: Value, b: Value): (r: Result<Value>)
    ensures PassesThrough(a, b, r)
    ensures r.Ok? ==> r.value == a || r.value == b
    ensures Truthy(a) && Truthy(b) ==> (r.Raised? <==> Len(a).Raised? || Len(b).Raised?)
    ensures Truthy(a) && Truthy(b) && r.Ok? ==>
      Len(a).Ok? && Len(b).Ok? && (r.value == b && b != a <==> Len(b).value > Len(a).value && b != a)
  {
    if !Truthy(a) then Ok(b)
    else if !Truthy(b) then Ok(a)
    else match (Len(b), Len(a))
      case (Ok(n2), Ok(n1)) => Ok(if n2 > n1 then b else a)
      case _ => Raised
  }

  /** `char.isdigit()` for one element of an iteration: a non-empty string of digits. */
  predicate DigitString(s: string)
  {
    s != [] && forall i :: 0 <= i < |s| ==> IsDigit(s[i])
  }

  /** `any(char.isdigit() for char in v)`: strings yield characters, lists their items (a non-string item raises), dicts their keys. */
  function AnyDigit(v: Value): (r: Result<bool>)
    ensures v.Str? ==> r == Ok(HasDigit(v.s))
    ensures v.Dict? ==> r == Ok(exists k :: k in v.fields && DigitString(k))
    ensures Numeric(v) || v.Null? ==> r.Raised?
  {
    match v
    case Str(s) => Ok(HasDigit(s))
    case List(items) => AnyDigitItem(items)
    case Dict(fields) => Ok(exists k :: k in fields && DigitString(k))
    case _ => Raised
  }

  /** The `any` scan over a list, stopping at the first digit string. */
  function AnyDigitItem(items: seq<Value>): (r: Result<bool>)
    ensures r == Ok(false) <==> forall i :: 0 <= i < |items| ==> items[i].Str? && !DigitString(items[i].s)
  {
    if items == [] then Ok(false)
    else if !items[0].Str? then Raised
    else if DigitString(items[0].s) then Ok(true)
    else AnyDigitItem(items[1..])
  }

  /** `_merge_dates`: a value with digits beats one without; otherwise the second only when strictly longer. */
  function MergeDates(a: Value, b: Value): (r: Result<Value>)
    ensures PassesThrough(a, b, r)
    ensures r.Ok? ==> r.value == a || r.value == b
    ensures Truthy(a) && Truthy(b) ==> (r.Raised? <==> AnyDigit(a).Raised? || AnyDigit(b).Raised?)
    ensures Truthy(a) && Truthy(b) && a.Str? && b.Str? ==>
      r.Ok? && (HasDigit(b.s) && !HasDigit(a.s) ==> r.value == b)
      && (HasDigit(a.s) && !HasDigit(b.s) ==> r.value == a)
      && (HasDigit(a.s) == HasDigit(b.s) ==> r.value == (if |b.s| > |a.s| then b else a))
  {
    if !Truthy(a) then Ok(b)
    else if !Truthy(b) then Ok(a)
    else match (AnyDigit(b), AnyDigit(a))
      case (Ok(d2), Ok(d1)) =>
        if d2 && !d1 then Ok(b)
        else if d1 && !d2 then Ok(a)
        else (match (Len(b), Len(a))
          case (Ok(n2), Ok(n1)) => Ok(if n2 > n1 then b else a)
          case _ => Ok(a))
      case _ => Raised
  }

  /** `extract_number(val) is not None`: a number, or a string holding a digit. */
  predicate HasNumber(v: Value)
  {
    Numeric(v) || (v.Str? && HasDigit(v.s))
  }

  /** `_merge_availability`: never raises; keeps the first only when it alone is numeric, otherwise takes the second. */
  function MergeAvailability(a: Value, b: Value): (r: Result<Value>)
    ensures PassesThrough(a, b, r)
    ensures r.Ok?
    ensures Truthy(a) && Truthy(b) ==> (r.value == a <==> (HasNumber(a) && !HasNumber(b)) || a == b)
    ensures Truthy(a) && Truthy(b) ==> r.value == a || r.value == b
  {
    if !Truthy(a) then Ok(b)
    else if !Truthy(b) then Ok(a)
    else if HasNumber(b) && !HasNumber(a) then Ok(b)
    else if HasNumber(a) && !HasNumber(b) then Ok(a)
    else Ok(b)
  }

  /** The rank `_merge_status` gives a lower-cased status; unknown ones rank 0. */
  function StatusPriority(s: string): (p: nat)
    ensures p <= 5
    ensures p == 0 <==> s !in ["closed", "full", "waitlist", "open", "upcoming"]
  {
    if s == "closed" then 5
    else if s == "full" then 4
    else if s == "waitlist" then 3
    else if s == "open" then 2
    else if s == "upcoming" then 1
    else 0
  }

  /** `_merge_status`: the status of higher rank, the first on a tie. */
  function MergeStatus(a: Value, b: Value): (r: Result<Value>)
    ensures PassesThrough(a, b, r)
    ensures r.Ok? ==> r.value == a || r.value == b
    ensures Truthy(a) && Truthy(b) ==> (r.Ok? <==> a.Str? && b.Str?)
    ensures Truthy(a) && Truthy(b) && r.Ok? ==>
      r.value.Str?
      && StatusPriority(Lower(r.value.s)) >= StatusPriority(Lower(a.s))
      && StatusPriority(Lower(r.value.s)) >= StatusPriority(Lower(b.s))
      && (StatusPriority(Lower(a.s)) >= StatusPriority(Lower(b.s)) ==> r.value == a)
  {
    if !Truthy(a) then Ok(b)
    else if !Truthy(b) then Ok(a)
    else if !a.Str? || !b.Str? then Raised
    else if StatusPriority(Lower(a.s)) >= StatusPriority(Lower(b.s)) then Ok(a)
    else Ok(b)
  }

  // ---------------------------------------------------------------- list-valued fields

  /** The items of `list1 + list2`: two lists concatenate, two strings concatenate into characters; other pairs raise. */
  function Concatenation(a: Value, b: Value): (r: Result<seq<Value>>)
    ensures r.Ok? <==> (a.List? && b.List?) || (a.Str? && b.Str?)
    ensures a.List? && b.List? ==> r == Ok(a.items + b.items)
    ensures a.Str? && b.Str? ==>
      (r.Ok? && |r.value| == |a.s| + |b.s|
       && forall i :: 0 <= i < |r.value| ==> r.value[i] == Str([(a.s + b.s)[i]]))
  {
    if a.List? && b.List? then Ok(a.items + b.items)
    else if a.Str? && b.Str? then Ok(seq(|a.s| + |b.s|, i requires 0 <= i < |a.s| + |b.s| => Str([(a.s + b.s)[i]])))
    else Raised
  }

  /** `item.lower().strip() for item in items if item`: raises when a truthy item is not a string. */
  function NormalizeItems(items: seq<Value>): (r: Result<seq<string>>)
    ensures r.Ok? <==> forall i :: 0 <= i < |items| && Truthy(items[i]) ==> items[i].Str?
  {
    if items == [] then Ok([])
    else match NormalizeItems(items[1..])
      case Raised => Raised
      case Ok(rest) =>
        if !Truthy(items[0]) then Ok(rest)
        else if !items[0].Str? then Raised
        else Ok([Strip(Lower(items[0].s))] + rest)
  }

  /** The normalized items are exactly the lower-cased, stripped truthy items. */
  lemma {:induction false} NormalizeItemsMembers(items: seq<Value>, t: string)
    requires NormalizeItems(items).Ok?
    ensures t in NormalizeItems(items).value <==>
      exists i :: 0 <= i < |items| && Truthy(items[i]) && items[i].Str? && t == Strip(Lower(items[i].s))
  {
    if items != [] {
      NormalizeItemsMembers(items[1..], t);
      if exists i :: 0 <= i < |items[1..]| && Truthy(items[1..][i]) && items[1..][i].Str? && t == Strip(Lower(items[1..][i].s)) {
        var i :| 0 <= i < |items[1..]| && Truthy(items[1..][i]) && items[1..][i].Str? && t == Strip(Lower(items[1..][i].s));
        assert items[i + 1] == items[1..][i];
      }
      if exists i :: 0 <= i < |items| && Truthy(items[i]) && items[i].Str? && t == Strip(Lower(items[i].s)) {
        var i :| 0 <= i < |items| && Truthy(items[i]) && items[i].Str? && t == Strip(Lower(items[i].s));
        if i > 0 { assert items[1..][i - 1] == items[i]; }
      }
    }
  }

  /** Wraps strings as values. */
  function Strs(ts: seq<string>): (r: seq<Value>)
    ensures |r| == |ts| && forall i :: 0 <= i < |ts| ==> r[i] == Str(ts[i])
  {
    seq(|ts|, i requires 0 <= i < |ts| => Str(ts[i]))
  }

  /** `_merge_lists`: the lower-cased, stripped, de-duplicated union of both lists' truthy items (the order of `list(set(...))` is not modelled). */
  function MergeLists(a: Value, b: Value): (r: Result<Value>)
    ensures !Truthy(a) ==> r == Ok(if Truthy(b) then b else List([]))
    ensures Truthy(a) && !Truthy(b) ==> r == Ok(a)
    ensures Truthy(a) && Truthy(b) ==>
      (r.Ok? <==> Concatenation(a, b).Ok? && NormalizeItems(Concatenation(a, b).value).Ok?)
    ensures Truthy(a) && Truthy(b) && r.Ok? ==>
      r.value.List? && Distinct(r.value.items)
      && (forall t :: Str(t) in r.value.items <==> t in NormalizeItems(Concatenation(a, b).value).value)
    ensures Truthy(a) && Truthy(b) && r.Ok? ==> forall i :: 0 <= i < |r.value.items| ==> r.value.items[i].Str?
  {
    if !Truthy(a) then Ok(if Truthy(b) then b else List([]))
    else if !Truthy(b) then Ok(a)
    else match Concatenation(a, b)
      case Raised => Raised
      case Ok(items) =>
        match NormalizeItems(items)
        case Raised => Raised
        case Ok(ts) =>
          var us := Dedupe(ts);
          var vs := Strs(us);
          assert forall t :: Str(t) in vs <==> t in us;
          DistinctStrs(us);
          Ok(List(vs))
  }

  lemma DistinctStrs(us: seq<string>)
    requires Distinct(us)
    ensures Distinct(Strs(us))
  {
  }

  /** Items Python can put into a `set`. */
  predicate AllHashable(items: seq<Value>)
  {
    forall i :: 0 <= i < |items| ==> Hashable(items[i])
  }

  /** What `_merge_schedule_details` leaves under key `k`: a missing or falsy old value is replaced, two lists are united, anything else keeps the old value. */
  function DetailAt(base: Record, extra: Record, k: string): Value
    requires k in base || k in extra
  {
    if k in extra && (k !in base || !Truthy(base[k])) then extra[k]
    else if k in extra && base[k].List? && extra[k].List? then List(Dedupe(base[k].items + extra[k].items))
    else base[k]
  }

  /** A key whose two lists cannot be put into a `set`. */
  predicate Unhashable(base: Record, extra: Record, k: string)
  {
    k in base && k in extra && Truthy(base[k]) && base[k].List? && extra[k].List?
    && !AllHashable(base[k].items + extra[k].items)
  }

  /** `_merge_schedule_details`: key-wise merge of two dicts; a non-dict first side starts from `{}`, a non-dict second side adds nothing. */
  function MergeScheduleDetails(a: Value, b: Value): (r: Result<Value>)
    ensures PassesThrough(a, b, r)
    ensures Truthy(a) && Truthy(b) && !b.Dict? ==> r == Ok(Dict(if a.Dict? then a.fields else map[]))
    ensures Truthy(a) && Truthy(b) && b.Dict? ==>
      var base := if a.Dict? then a.fields else map[];
      (r.Raised? <==> exists k :: k in b.fields && Unhashable(base, b.fields, k))
      && (r.Ok? ==> r.value.Dict? && r.value.fields.Keys == base.Keys + b.fields.Keys
                    && forall k :: k in r.value.fields ==> r.value.fields[k] == DetailAt(base, b.fields, k))
  {
    if !Truthy(a) then Ok(b)
    else if !Truthy(b) then Ok(a)
    else
      var base := if a.Dict? then a.fields else map[];
      if !b.Dict? then Ok(Dict(base))
      else if exists k :: k in b.fields && Unhashable(base, b.fields, k) then Raised
      else Ok(Dict(map k | k in base.Keys + b.fields.Keys :: DetailAt(base, b.fields, k)))
  }

  /** The first dict after the entries of `extra` under the keys `done` have been merged in. */
  ghost function PartlyMerged(base: Record, extra: Record, done: set<string>): map<string, Value>
    requires done <= extra.Keys
  {
    map k | k in base.Keys + done :: if k in done then DetailAt(base, extra, k) else base[k]
  }

  lemma PartlyMergedStep(base: Record, extra: Record, done: set<string>, k: string)
    requires done <= extra.Keys && k in extra && k !in done
    ensures PartlyMerged(base, extra, done + {k}) == PartlyMerged(base, extra, done)[k := DetailAt(base, extra, k)]
    ensures k in PartlyMerged(base, extra, done) <==> k in base
    ensures k in base ==> PartlyMerged(base, extra, done)[k] == base[k]
  {
  }

  /** One entry of the loop: what the partly merged dict holds under `k` decides the entry's merged value and whether it raises. */
  lemma MergeEntryStep(base: Record, extra: Record, done: set<string>, k: string, merged: map<string, Value>)
    requires done <= extra.Keys && k in extra && k !in done && merged == PartlyMerged(base, extra, done)
    ensures PartlyMerged(base, extra, done + {k}) == merged[k := DetailAt(base, extra, k)]
    ensures k !in merged || !Truthy(merged[k]) ==> DetailAt(base, extra, k) == extra[k] && !Unhashable(base, extra, k)
    ensures k in merged && Truthy(merged[k]) && merged[k].List? && extra[k].List? ==>
      DetailAt(base, extra, k) == List(Dedupe(merged[k].items + extra[k].items))
      && (Unhashable(base, extra, k) <==> !AllHashable(merged[k].items + extra[k].items))
    ensures k in merged && Truthy(merged[k]) && !(merged[k].List? && extra[k].List?) ==>
      DetailAt(base, extra, k) == merged[k] && !Unhashable(base, extra, k)
  {
    PartlyMergedStep(base, extra, done, k);
  }

  lemma PartlyMergedAll(base: Record, extra: Record)
    ensures PartlyMerged(base, extra, extra.Keys) == map k | k in base.Keys + extra.Keys :: DetailAt(base, extra, k)
  {
  }

  /** One entry of the loop of `_merge_schedule_details`: a missing or falsy old value is replaced, two lists are united through a `set`, which raises on an unhashable item, anything else is left alone. */
  method MergeEntry(base: Record, extra: Record, ghost done: set<string>, k: string, merged: map<string, Value>)
    returns (r: Result<map<string, Value>>)
    requires done <= extra.Keys && k in extra && k !in done && merged == PartlyMerged(base, extra, done)
    ensures r.Raised? <==> Unhashable(base, extra, k)
    ensures r.Ok? ==> r.value == PartlyMerged(base, extra, done + {k})
  {
    MergeEntryStep(base, extra, done, k, merged);
    var value := extra[k];
    if k !in merged || !Truthy(merged[k]) {
      return Ok(merged[k := value]);
    } else if value.List? && merged[k].List? {
      if !AllHashable(merged[k].items + value.items) {
        return Raised;
      }
      return Ok(merged[k := List(Dedupe(merged[k].items + value.items))]);
    } else {
      return Ok(merged[k := merged[k]]);
    }
  }

  /** `_merge_schedule_details` as the source runs it: copy the first dict, then walk the second dict's entries. */
  method MergeScheduleDetailsInPlace(a: Value, b: Value) returns (r: Result<Value>)
    ensures r == MergeScheduleDetails(a, b)
  {
    if !Truthy(a) { return Ok(b); }
    if !Truthy(b) { return Ok(a); }
    var base := if a.Dict? then a.fields else map[];
    if !b.Dict? { return Ok(Dict(base)); }
    var merged := MergeDetailEntries(base, b.fields);
    if merged.Raised? { return Raised; }
    return Ok(Dict(merged.value));
  }

  /** The entry loop of `_merge_schedule_details`: merge each entry of `extra` into a copy of `base`, raising when two lists cannot be put into a `set`. */
  method MergeDetailEntries(base: Record, extra: Record) returns (r: Result<Record>)
    ensures r.Raised? <==> exists k :: k in extra && Unhashable(base, extra, k)
    ensures r.Ok? ==> r.value == map k | k in base.Keys + extra.Keys :: DetailAt(base, extra, k)
  {
    var merged := base;
    var left := extra.Keys;
    ghost var done: set<string> := {};
    while left != {}
      invariant done == extra.Keys - left && left <= extra.Keys
      invariant merged == PartlyMerged(base, extra, done)
      invariant forall k :: k in done ==> !Unhashable(base, extra, k)
      decreases left
    {
      var k :| k in left;
      var next := MergeEntry(base, extra, done, k, merged);
      if next.Raised? { return Raised; }
      merged := next.value;
      left := left - {k};
      done := done + {k};
    }
    PartlyMergedAll(base, extra);
    return Ok(merged);
  }

  // ---------------------------------------------------------------- dispatch

  /** One strategy applied to the current value and the incoming one. */
  function Merge(s: Strategy, a: Value, b: Value): (r: Result<Value>)
    ensures s != Lists ==> PassesThrough(a, b, r)
  {
    match s
    case Names => MergeNames(a, b)
    case Descriptions => MergeDescriptions(a, b)
    case AgeRanges => MergeAgeRanges(a, b)
    case Levels => MergeLevels(a, b)
    case Lists => MergeLists(a, b)
    case Schedules => MergeSchedules(a, b)
    case ScheduleDetails => MergeScheduleDetails(a, b)
    case Prices => MergePrices(a, b)
    case NumbersMax => MergeNumbersMax(a, b)
    case Categories => MergeCategories(a, b)
    case SessionInfo => MergeSessionInfo(a, b)
    case Dates => MergeDates(a, b)
    case Availability => MergeAvailability(a, b)
    case Status => MergeStatus(a, b)
  }

  /** A truthy incoming value never leaves a falsy field behind, except through the list and dict rules that may filter everything out. */
  lemma {:induction false} MergeKeepsTruthy(s: Strategy, a: Value, b: Value)
    requires s != Lists && s != ScheduleDetails
    requires Truthy(b) && Merge(s, a, b).Ok?
    ensures Truthy(Merge(s, a, b).value)
  {
    if Truthy(a) {
      match s
      case Descriptions =>
        var r := MergeDescriptions(a, b).value;
        if Lower(a.s) != Lower(b.s) { assert |r.s| == |a.s| + 2 + |b.s|; }
      case Schedules =>
        var r := MergeSchedules(a, b).value;
        if Lower(a.s) != Lower(b.s) { assert |r.s| == |a.s| + 2 + |b.s|; }
      case Prices =>
        var r := MergePrices(a, b).value;
        assert r == a || r == b || r == Str(a.s + " / " + b.s);
      case _ =>
    }
  }

  /** Merging a string with itself gives it back under every rule that works on scalars. */
  lemma {:induction false} MergeSelf(s: Strategy, a: Value)
    requires s != Lists && s != ScheduleDetails && s != AgeRanges
    requires a.Str?
    ensures Merge(s, a, a) == Ok(a)
  {
    if s == NumbersMax && Truthy(a) {
      LexLessIrreflexive(a.s);
    }
  }
}
