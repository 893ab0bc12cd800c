/**
  Cross-page program merging: sightings of one program are grouped by the
  normalized name, and each group is folded field by field with the strategy
  table into one program that records how many sightings it came from.
 */
module Programs {
  import opened Values
  import opened Text
  import opened Seqs
  import opened MergeRules
  import opened Names
  import opened Grouping

  /** `field in program2 and program2[field]`: the incoming program has something to contribute. */
  predicate Hit(p2: Record, f: string)
  {
    f in p2 && Truthy(p2[f])
  }

  /** No field is listed twice in a strategy table. */
  predicate DistinctFields(table: seq<(string, Strategy)>)
  {
    forall i, j :: 0 <= i < j < |table| ==> table[i].0 != table[j].0
  }

  /** The fields of a strategy table from row `k` on. */
  function FieldsFrom(table: seq<(string, Strategy)>, k: nat): (fs: set<string>)
    ensures forall f :: f in fs <==> exists j :: k <= j < |table| && table[j].0 == f
  {
    set j | k <= j < |table| :: table[j].0
  }

  /** The strategy loop of `_merge_two_programs` over `table` from row `k` on, applied to the partly merged `m`. */
  function MergeFields(table: seq<(string, Strategy)>, m: Record, p2: Record, k: nat): Result<Record>
    decreases |table| - k
  {
    if k >= |table| then Ok(m)
    else
      var (f, s) := table[k];
      if Hit(p2, f) then
        match Merge(s, Get(m, f), p2[f])
        case Ok(v) => MergeFields(table, m[f := v], p2, k + 1)
        case Raised => Raised
      else MergeFields(table, m, p2, k + 1)
  }

  /** `_merge_two_programs(program1, program2)`. */
  function MergedPrograms(p1: Record, p2: Record): Result<Record>
  {
    MergeFields(StrategyTable, p1, p2, 0)
  }

  /** The loop from row `k` raises exactly when the rule of one of its hit fields does, applied to the value that field had at the start. */
  lemma {:induction false} MergeFieldsRaises(table: seq<(string, Strategy)>, m: Record, p2: Record, k: nat)
    requires DistinctFields(table) && k <= |table|
    ensures MergeFields(table, m, p2, k).Raised? <==> exists j ::
      k <= j < |table| && Hit(p2, table[j].0) && Merge(table[j].1, Get(m, table[j].0), p2[table[j].0]).Raised?
    decreases |table| - k
  {
    if k < |table| {
      var (f, s) := table[k];
      if Hit(p2, f) {
        var v := Merge(s, Get(m, f), p2[f]);
        if v.Ok? {
          MergeFieldsRaises(table, m[f := v.value], p2, k + 1);
          LaterFieldsUntouched(table, m, v.value, k);
        }
      } else {
        MergeFieldsRaises(table, m, p2, k + 1);
      }
    }
  }

  /** Setting row `k`'s field leaves the fields of the later rows as they were. */
  lemma LaterFieldsUntouched(table: seq<(string, Strategy)>, m: Record, v: Value, k: nat)
    requires DistinctFields(table) && k < |table|
    ensures forall j :: k < j < |table| ==> Get(m[table[k].0 := v], table[j].0) == Get(m, table[j].0)
    ensures table[k].0 !in FieldsFrom(table, k + 1)
  {
  }

  /** When the loop from row `k` does not raise, its keys are those of `m` and the hit fields of the later rows. */
  lemma {:induction false} MergeFieldsKeys(table: seq<(string, Strategy)>, m: Record, p2: Record, k: nat)
    requires k <= |table|
    ensures MergeFields(table, m, p2, k).Ok? ==>
      forall f :: f in MergeFields(table, m, p2, k).value <==> f in m || (f in FieldsFrom(table, k) && Hit(p2, f))
    decreases |table| - k
  {
    if k < |table| {
      var (f, s) := table[k];
      assert FieldsFrom(table, k) == {f} + FieldsFrom(table, k + 1);
      if Hit(p2, f) {
        var v := Merge(s, Get(m, f), p2[f]);
        if v.Ok? {
          MergeFieldsKeys(table, m[f := v.value], p2, k + 1);
        }
      } else {
        MergeFieldsKeys(table, m, p2, k + 1);
      }
    }
  }

  /** When the loop from row `k` does not raise, a key of `m` that is not a hit field of the later rows keeps its value. */
  lemma {:induction false} MergeFieldsKeeps(table: seq<(string, Strategy)>, m: Record, p2: Record, k: nat)
    requires k <= |table|
    ensures MergeFields(table, m, p2, k).Ok? ==>
      forall f :: f in m && !(f in FieldsFrom(table, k) && Hit(p2, f)) ==>
        f in MergeFields(table, m, p2, k).value && MergeFields(table, m, p2, k).value[f] == m[f]
    decreases |table| - k
  {
    if k < |table| {
      var (f, s) := table[k];
      assert FieldsFrom(table, k) == {f} + FieldsFrom(table, k + 1);
      MergeFieldsKeys(table, m, p2, k);
      if Hit(p2, f) {
        var v := Merge(s, Get(m, f), p2[f]);
        if v.Ok? {
          MergeFieldsKeeps(table, m[f := v.value], p2, k + 1);
        }
      } else {
        MergeFieldsKeeps(table, m, p2, k + 1);
      }
    }
  }

  /** When the loop from row `k` does not raise, each hit field of the later rows holds its rule applied to the value it had at the start. */
  lemma {:induction false} MergeFieldsMerged(table: seq<(string, Strategy)>, m: Record, p2: Record, k: nat)
    requires DistinctFields(table) && k <= |table|
    ensures MergeFields(table, m, p2, k).Ok? ==>
      forall j :: k <= j < |table| && Hit(p2, table[j].0) ==>
        table[j].0 in MergeFields(table, m, p2, k).value
        && Merge(table[j].1, Get(m, table[j].0), p2[table[j].0]) == Ok(MergeFields(table, m, p2, k).value[table[j].0])
    decreases |table| - k
  {
    if k < |table| {
      var (f, s) := table[k];
      if Hit(p2, f) {
        var v := Merge(s, Get(m, f), p2[f]);
        if v.Ok? {
          var m' := m[f := v.value];
          MergeFieldsMerged(table, m', p2, k + 1);
          LaterFieldsUntouched(table, m, v.value, k);
          MergeFieldsKeys(table, m', p2, k + 1);
          MergeFieldsKeeps(table, m', p2, k + 1);
        }
      } else {
        MergeFieldsMerged(table, m, p2, k + 1);
      }
    }
  }

  /** `_merge_two_programs`: the result is `program1` with exactly the table fields that `program2` holds a truthy value for replaced by their merge; every other key of `program1` is untouched and no other key of `program2` is copied. */
  lemma MergedProgramsFrame(p1: Record, p2: Record)
    ensures var r := MergedPrograms(p1, p2);
      (r.Raised? <==> exists j :: 0 <= j < |StrategyTable| && Hit(p2, StrategyTable[j].0)
                                  && Merge(StrategyTable[j].1, Get(p1, StrategyTable[j].0), p2[StrategyTable[j].0]).Raised?)
      && (r.Ok? ==>
        (forall f :: f in r.value <==> f in p1 || (f in TableFields() && Hit(p2, f)))
        && (forall f :: f in p1 && !(f in TableFields() && Hit(p2, f)) ==> r.value[f] == p1[f])
        && (forall j :: 0 <= j < |StrategyTable| && Hit(p2, StrategyTable[j].0) ==>
              Merge(StrategyTable[j].1, Get(p1, StrategyTable[j].0), p2[StrategyTable[j].0]) == Ok(r.value[StrategyTable[j].0])))
  {
    TableFieldsDistinct();
    MergeFieldsRaises(StrategyTable, p1, p2, 0);
    MergeFieldsKeys(StrategyTable, p1, p2, 0);
    MergeFieldsKeeps(StrategyTable, p1, p2, 0);
    MergeFieldsMerged(StrategyTable, p1, p2, 0);
    assert FieldsFrom(StrategyTable, 0) == TableFields();
  }

  /** `_merge_two_programs` as the source runs it: copy `program1`, then walk the strategy table. */
  method MergeTwoPrograms(p1: Record, p2: Record) returns (r: Result<Record>)
    ensures r == MergedPrograms(p1, p2)
  {
    var merged := p1;
    for k := 0 to |StrategyTable|
      invariant MergeFields(StrategyTable, merged, p2, k) == MergedPrograms(p1, p2)
    {
      var (f, s) := StrategyTable[k];
      if f in p2 && Truthy(p2[f]) {
        var v;
        if s == ScheduleDetails {
          v := MergeScheduleDetailsInPlace(Get(merged, f), p2[f]);
        } else {
          v := Merge(s, Get(merged, f), p2[f]);
        }
        if v.Raised? {
          return Raised;
        }
        merged := merged[f := v.value];
      }
    }
    return Ok(merged);
  }

  // ---------------------------------------------------------------- one group

  /** Folding `_merge_two_programs` over the rest of a group. */
  function FoldGroup(m: Record, rest: seq<Record>): Result<Record>
    decreases |rest|
  {
    if rest == [] then Ok(m)
    else match MergedPrograms(m, rest[0])
      case Ok(m') => FoldGroup(m', rest[1..])
      case Raised => Raised
  }

  /** `p.get('_source_page', 'unknown')` for every program of the group. */
  function SourcePageValues(group: seq<Record>): (vs: seq<Value>)
    ensures |vs| == |group| && forall i :: 0 <= i < |group| ==> vs[i] == GetOr(group[i], "_source_page", Str("unknown"))
  {
    seq(|group|, i requires 0 <= i < |group| => GetOr(group[i], "_source_page", Str("unknown")))
  }

  /** `list(set(...))` of the source pages: each page once (order not modelled); an unhashable page raises. */
  function SourcePages(group: seq<Record>): (r: Result<seq<Value>>)
    ensures r.Ok? <==> AllHashable(SourcePageValues(group))
    ensures r.Ok? ==> Distinct(r.value) && forall v :: v in r.value <==> v in SourcePageValues(group)
  {
    var vs := SourcePageValues(group);
    if AllHashable(vs) then Ok(Dedupe(vs)) else Raised
  }

  /** `_merge_program_group`: `None` for an empty group; otherwise the fold of the group with `_sources` set to its size and `_source_pages` to its distinct pages. */
  function MergedGroup(group: seq<Record>): (r: Result<Option<Record>>)
    ensures r == Ok(None) <==> group == []
    ensures r.Ok? && r.value.Some? ==>
      var g := r.value.value;
      "_sources" in g && g["_sources"] == Int(|group|)
      && "_source_pages" in g && g["_source_pages"].List? && Distinct(g["_source_pages"].items)
      && (forall v :: v in g["_source_pages"].items <==> v in SourcePageValues(group))
      && group[0].Keys <= g.Keys
  {
    if group == [] then Ok(None)
    else match FoldGroup(group[0], group[1..])
      case Raised => Raised
      case Ok(m) =>
        FoldGroupKeeps(group[0], group[1..]);
        match SourcePages(group)
        case Raised => Raised
        case Ok(pages) => Ok(Some(m["_sources" := Int(|group|)]["_source_pages" := List(pages)]))
  }

  /** Merging never drops a key. */
  lemma {:induction false} FoldGroupKeeps(m: Record, rest: seq<Record>)
    ensures FoldGroup(m, rest).Ok? ==> m.Keys <= FoldGroup(m, rest).value.Keys
    decreases |rest|
  {
    if rest != [] {
      MergedProgramsFrame(m, rest[0]);
      if MergedPrograms(m, rest[0]).Ok? {
        FoldGroupKeeps(MergedPrograms(m, rest[0]).value, rest[1..]);
      }
    }
  }

  /** `_merge_program_group` as the source runs it: start from a copy of the first program and merge the others in turn. */
  method MergeProgramGroup(group: seq<Record>) returns (r: Result<Option<Record>>)
    ensures r == MergedGroup(group)
  {
    if group == [] {
      return Ok(None);
    }
    var merged := group[0];
    for i := 1 to |group|
      invariant FoldGroup(merged, group[i..]) == FoldGroup(group[0], group[1..])
    {
      assert group[i..][1..] == group[i + 1..];
      var next := MergeTwoPrograms(merged, group[i]);
      if next.Raised? {
        return Raised;
      }
      merged := next.value;
    }
    assert group[|group|..] == [];
    var pages := SourcePages(group);
    if pages.Raised? {
      return Raised;
    }
    merged := merged["_sources" := Int(|group|)];
    merged := merged["_source_pages" := List(pages.value)];
    return Ok(Some(merged));
  }

  /** A program whose name is a string. */
  predicate StrName(p: Record)
  {
    "name" in p && p["name"].Str?
  }

  /** One merge keeps the longer of the two names, the current one on a tie. */
  lemma MergedName(m: Record, p2: Record)
    requires StrName(m) && StrName(p2) && MergedPrograms(m, p2).Ok?
    ensures var r := MergedPrograms(m, p2).value;
      StrName(r) && (r["name"] == m["name"] || r["name"] == p2["name"])
      && |r["name"].s| >= |m["name"].s| && |r["name"].s| >= |p2["name"].s|
  {
    MergedProgramsFrame(m, p2);
    assert StrategyTable[0] == ("name", Names);
  }

  /** The merged group carries the longest name of the group, and that name is one of the group's names. */
  lemma {:induction false} FoldKeepsLongestName(m: Record, rest: seq<Record>)
    requires StrName(m) && forall i :: 0 <= i < |rest| ==> StrName(rest[i])
    requires FoldGroup(m, rest).Ok?
    ensures var g := FoldGroup(m, rest).value;
      StrName(g) && |g["name"].s| >= |m["name"].s|
      && (forall i :: 0 <= i < |rest| ==> StrName(rest[i]) && |g["name"].s| >= |rest[i]["name"].s|)
      && (g["name"] == m["name"] || exists i :: 0 <= i < |rest| && StrName(rest[i]) && g["name"] == rest[i]["name"])
    decreases |rest|
  {
    if rest != [] {
      MergedName(m, rest[0]);
      var m' := MergedPrograms(m, rest[0]).value;
      FoldKeepsLongestName(m', rest[1..]);
      var g := FoldGroup(m, rest).value;
      forall i | 0 <= i < |rest| ensures |g["name"].s| >= |rest[i]["name"].s| {
        if i > 0 { assert rest[1..][i - 1] == rest[i]; }
      }
      if g["name"] != m["name"] && g["name"] != m'["name"] {
        var i :| 0 <= i < |rest[1..]| && StrName(rest[1..][i]) && g["name"] == rest[1..][i]["name"];
        assert g["name"] == rest[i + 1]["name"];
      }
    }
  }

  /** The merged program of a group of string-named programs carries the group's longest name. */
  lemma GroupKeepsLongestName(group: seq<Record>)
    requires forall i :: 0 <= i < |group| ==> StrName(group[i])
    requires MergedGroup(group).Ok? && MergedGroup(group).value.Some?
    ensures var g := MergedGroup(group).value.value;
      StrName(g)
      && (forall i :: 0 <= i < |group| ==> StrName(group[i]) && |g["name"].s| >= |group[i]["name"].s|)
      && (exists i :: 0 <= i < |group| && StrName(group[i]) && g["name"] == group[i]["name"])
  {
    assert forall i :: 0 <= i < |group[1..]| ==> group[1..][i] == group[i + 1];
    FoldKeepsLongestName(group[0], group[1..]);
    var m := FoldGroup(group[0], group[1..]).value;
    var g := MergedGroup(group).value.value;
    assert g["name"] == m["name"];
    forall i | 0 <= i < |group| ensures |g["name"].s| >= |group[i]["name"].s| {
      if i > 0 { assert group[1..][i - 1] == group[i]; }
    }
    if m["name"] != group[0]["name"] {
      var i :| 0 <= i < |group[1..]| && StrName(group[1..][i]) && m["name"] == group[1..][i]["name"];
      assert g["name"] == group[i + 1]["name"];
    }
  }

  // ---------------------------------------------------------------- all groups

  /** The grouping key of `_merge_cross_page_programs`: `program.get('name', '').strip()`, dropped when empty, else normalized by `_normalize_program_name` as written; a non-string name raises. */
  function NameKey(p: Record): (r: Result<Option<string>>)
    ensures r.Raised? <==> !GetOr(p, "name", Str("")).Str?
    ensures r == Ok(None) <==> GetOr(p, "name", Str("")).Str? && Strip(GetOr(p, "name", Str("")).s) == []
  {
    var name := GetOr(p, "name", Str(""));
    if !name.Str? then Raised
    else
      var t := Strip(name.s);
      if t == [] then Ok(None) else Ok(Some(NormalizeProgramNameAsWritten(t)))
  }

  /** The key of a program whose name could be read; `None` for a dropped program. */
  const ProgramKey: Record -> Option<string> := Known(NameKey)

  /** `_merge_cross_page_programs`: programs grouped by normalized name in order of first appearance, each group merged. */
  function CrossPageMerge(programs: seq<Record>): Result<seq<Record>>
  {
    if !AllRead(programs, NameKey) then Raised
    else MergeGroups(programs, ProgramKey, GroupKeys(programs, ProgramKey), MergedGroup)
  }

  /** Every group of a kept name merges to a program, so the merge loop meets the condition of `MergeGroupsOnePerKey`. */
  lemma GroupsMergeToPrograms(programs: seq<Record>)
    ensures forall j :: 0 <= j < |GroupKeys(programs, ProgramKey)| ==>
      GroupOf(programs, ProgramKey, GroupKeys(programs, ProgramKey)[j]) != []
      && MergedGroup(GroupOf(programs, ProgramKey, GroupKeys(programs, ProgramKey)[j])) != Ok(None)
  {
    var keys := GroupKeys(programs, ProgramKey);
    forall j | 0 <= j < |keys|
      ensures GroupOf(programs, ProgramKey, keys[j]) != []
    {
      GroupNonEmpty(programs, ProgramKey, keys[j]);
    }
  }

  /** The names can all be read exactly when each is a string or missing: `.strip()` raises on anything else. */
  lemma ReadableNames(programs: seq<Record>)
    ensures AllRead(programs, NameKey) <==> forall i :: 0 <= i < |programs| ==> GetOr(programs[i], "name", Str("")).Str?
  {
  }

  /** `_merge_cross_page_programs` raises exactly when some name is not a string or some group fails to merge. */
  lemma CrossPageMergeRaises(programs: seq<Record>)
    ensures CrossPageMerge(programs).Raised? <==>
      (exists i :: 0 <= i < |programs| && !GetOr(programs[i], "name", Str("")).Str?)
      || exists j :: 0 <= j < |GroupKeys(programs, ProgramKey)|
                     && MergedGroup(GroupOf(programs, ProgramKey, GroupKeys(programs, ProgramKey)[j])).Raised?
  {
    ReadableNames(programs);
    GroupsMergeToPrograms(programs);
    MergeGroupsOnePerKey(programs, ProgramKey, GroupKeys(programs, ProgramKey), MergedGroup);
  }

  /** `_merge_cross_page_programs`: exactly one merged program per distinct normalized name, merged from that name's group and counting it in `_sources`. */
  lemma CrossPageMergeGroups(programs: seq<Record>)
    ensures CrossPageMerge(programs).Ok? ==>
      var out := CrossPageMerge(programs).value;
      var keys := GroupKeys(programs, ProgramKey);
      |out| == |keys|
      && forall j :: 0 <= j < |keys| ==>
           GroupOf(programs, ProgramKey, keys[j]) != []
           && MergedGroup(GroupOf(programs, ProgramKey, keys[j])) == Ok(Some(out[j]))
           && "_sources" in out[j]
           && out[j]["_sources"] == Int(|GroupOf(programs, ProgramKey, keys[j])|)
  {
    var keys := GroupKeys(programs, ProgramKey);
    GroupsMergeToPrograms(programs);
    MergeGroupsOnePerKey(programs, ProgramKey, keys, MergedGroup);
    if CrossPageMerge(programs).Ok? {
      var out := CrossPageMerge(programs).value;
      assert out == MergeGroups(programs, ProgramKey, keys, MergedGroup).value;
      forall j | 0 <= j < |keys|
        ensures "_sources" in out[j] && out[j]["_sources"] == Int(|GroupOf(programs, ProgramKey, keys[j])|)
      {
        var g := GroupOf(programs, ProgramKey, keys[j]);
        assert MergedGroup(g) == Ok(Some(out[j]));
      }
    }
  }

  /** The groups are merged in the order in which their normalized names first appear, and each program with a non-empty name belongs to the group of its own normalized name. */
  lemma CrossPageMergeOrder(programs: seq<Record>)
    ensures var keys := GroupKeys(programs, ProgramKey);
      forall j :: 0 <= j < |keys| ==> keys[j] in KeySeq(programs, ProgramKey)
    ensures var keys := GroupKeys(programs, ProgramKey);
      forall j1, j2 :: 0 <= j1 < j2 < |keys| ==>
        FirstIndex(KeySeq(programs, ProgramKey), keys[j1]) < FirstIndex(KeySeq(programs, ProgramKey), keys[j2])
  {
    DedupeOrder(KeySeq(programs, ProgramKey));
  }

  /** A program whose stripped name is empty is in no group; one with a non-empty name is in the group of its normalized name. */
  lemma CrossPageMembership(programs: seq<Record>, i: nat, k: string)
    requires i < |programs| && NameKey(programs[i]).Ok?
    ensures NameKey(programs[i]) == Ok(None) ==> programs[i] !in GroupOf(programs, ProgramKey, k)
    ensures NameKey(programs[i]) == Ok(Some(k)) ==>
      programs[i] in GroupOf(programs, ProgramKey, k) && k in GroupKeys(programs, ProgramKey)
  {
    GroupOfMembers(programs, ProgramKey, k, programs[i]);
  }

  /** As written, "Gym" and "Gymnastics" are keyed apart, so two entries of one program stay two records, each from a group of one. */
  lemma GymnasticsGroupsSplit(p0: Record, p1: Record)
    requires p0 == map["name" := Str("Gym")] && p1 == map["name" := Str("Gymnastics")]
    ensures GroupKeys([p0, p1], ProgramKey) == ["gymnastics", "gymnasticsnasticss"]
    ensures GroupOf([p0, p1], ProgramKey, "gymnastics") == [p0]
    ensures GroupOf([p0, p1], ProgramKey, "gymnasticsnasticss") == [p1]
    ensures CrossPageMerge([p0, p1]).Ok? && |CrossPageMerge([p0, p1]).value| == 2
    ensures var out := CrossPageMerge([p0, p1]).value;
      forall j :: 0 <= j < 2 ==> "_sources" in out[j] && out[j]["_sources"] == Int(1)
  {
    GymnasticsKeys(p0, p1);
    TwoKeysTwoGroups(p0, p1, "gymnastics", "gymnasticsnasticss");
    SingleSources(CrossPageMerge([p0, p1]).value, p0, p1);
  }

  /** The as-written keys of the programs "Gym" and "Gymnastics", neither of which names a source page. */
  lemma GymnasticsKeys(p0: Record, p1: Record)
    requires p0 == map["name" := Str("Gym")] && p1 == map["name" := Str("Gymnastics")]
    ensures NameKey(p0) == Ok(Some("gymnastics")) && NameKey(p1) == Ok(Some("gymnasticsnasticss"))
    ensures "_source_page" !in p0 && "_source_page" !in p1
  {
    StripUnspaced("Gym");
    StripUnspaced("Gymnastics");
    GymnasticsSplitAsWritten();
    NamedKey(p0, "Gym", "gymnastics");
    NamedKey(p1, "Gymnastics", "gymnasticsnasticss");
  }

  /** A program whose only field is a name without surrounding white space is keyed by that name's as-written normal form. */
  lemma NamedKey(p: Record, name: string, key: string)
    requires p == map["name" := Str(name)] && name != [] && Strip(name) == name
    requires NormalizeProgramNameAsWritten(name) == key
    ensures NameKey(p) == Ok(Some(key)) && "_source_page" !in p
  {
  }

  /** A program whose name can be read and is kept is grouped under its key. */
  lemma ProgramKeyOf(p: Record, k: string)
    requires NameKey(p) == Ok(Some(k))
    ensures ProgramKey(p) == Some(k)
  {
  }

  /** The names of two programs with kept names can be read. */
  lemma TwoRead(p0: Record, p1: Record)
    requires NameKey(p0).Ok? && NameKey(p1).Ok?
    ensures AllRead([p0, p1], NameKey)
  {
    assert [p0, p1][0] == p0 && [p0, p1][1] == p1;
  }

  /** Two programs with different keys and no source page give two groups of one, and the merge gives the record of each, in input order. */
  lemma TwoKeysTwoGroups(p0: Record, p1: Record, a: string, b: string)
    requires NameKey(p0) == Ok(Some(a)) && NameKey(p1) == Ok(Some(b)) && a != b
    requires "_source_page" !in p0 && "_source_page" !in p1
    ensures GroupKeys([p0, p1], ProgramKey) == [a, b]
    ensures GroupOf([p0, p1], ProgramKey, a) == [p0] && GroupOf([p0, p1], ProgramKey, b) == [p1]
    ensures CrossPageMerge([p0, p1]).Ok? && |CrossPageMerge([p0, p1]).value| == 2
    ensures MergedGroup([p0]) == Ok(Some(CrossPageMerge([p0, p1]).value[0]))
    ensures MergedGroup([p1]) == Ok(Some(CrossPageMerge([p0, p1]).value[1]))
  {
    ProgramKeyOf(p0, a);
    ProgramKeyOf(p1, b);
    TwoKeys(p0, p1, ProgramKey, a, b);
    TwoRead(p0, p1);
    SingleMerges(p0);
    SingleMerges(p1);
    MergeTwo([p0, p1], ProgramKey, [a, b], MergedGroup);
  }

  /** Two records merged each from a group of one program record one source page each. */
  lemma SingleSources(out: seq<Record>, p0: Record, p1: Record)
    requires |out| == 2 && "_source_page" !in p0 && "_source_page" !in p1
    requires MergedGroup([p0]) == Ok(Some(out[0])) && MergedGroup([p1]) == Ok(Some(out[1]))
    ensures forall j :: 0 <= j < 2 ==> "_sources" in out[j] && out[j]["_sources"] == Int(1)
  {
    SingleMerges(p0);
    SingleMerges(p1);
  }

  /** A group of one program without a source page merges to a record with `_sources` 1. */
  lemma SingleMerges(p: Record)
    requires "_source_page" !in p
    ensures MergedGroup([p]).Ok? && MergedGroup([p]).value.Some?
    ensures var m := MergedGroup([p]).value.value; "_sources" in m && m["_sources"] == Int(1)
  {
    assert SourcePageValues([p]) == [Str("unknown")];
  }

  /** `_merge_cross_page_programs`: the loop that fills `program_groups`, then the loop that merges each group in key order. */
  method MergeCrossPagePrograms(programs: seq<Record>) returns (r: Result<seq<Record>>)
    ensures r == CrossPageMerge(programs)
  {
    var grouped := GroupBy(programs, NameKey);
    if grouped.None? {
      return Raised;
    }
    var (order, groups) := grouped.value;
    // `MergedGroup` is what `MergeProgramGroup` computes.
    r := MergeEach(programs, ProgramKey, order, groups, MergedGroup);
  }
}
