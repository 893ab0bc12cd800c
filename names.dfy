/**
  The key under which a program name is grouped across pages: lower-cased,
  stripped, with a leading "class:"-style label and a trailing "class"-style
  word removed, and common variant words rewritten to a standard word.
 */
module Names {
  import opened Text

  const NamePrefixes: seq<string> := ["class:", "program:", "course:", "lesson:"]
  const NameSuffixes: seq<string> := ["class", "program", "course", "lesson", "classes", "programs"]

  /** Each standard word with the variants rewritten to it, in table order. */
  const Variations: seq<(string, seq<string>)> := [
    ("gymnastics", ["gymnastic", "gym"]),
    ("tumbling", ["tumble"]),
    ("beginner", ["begin", "starter", "intro", "basic"]),
    ("intermediate", ["inter", "middle"]),
    ("advanced", ["adv", "expert"]),
    ("preschool", ["pre-school", "pre school", "toddler"])
  ]

  /** The rewrite rules of `Variations` flattened to (variant, standard) pairs, in the order they are tried. */
  const Rules: seq<(string, string)> := [
    ("gymnastic", "gymnastics"), ("gym", "gymnastics"),
    ("tumble", "tumbling"),
    ("begin", "beginner"), ("starter", "beginner"), ("intro", "beginner"), ("basic", "beginner"),
    ("inter", "intermediate"), ("middle", "intermediate"),
    ("adv", "advanced"), ("expert", "advanced"),
    ("pre-school", "preschool"), ("pre school", "preschool"), ("toddler", "preschool")
  ]

  /** `Rules` lists exactly the variants of `Variations`, in the same order. */
  lemma RulesFollowVariations()
    ensures forall i :: 0 <= i < |Rules| ==>
      exists g, v :: 0 <= g < |Variations| && 0 <= v < |Variations[g].1|
        && Rules[i] == (Variations[g].1[v], Variations[g].0)
  {
    assert Rules[0] == (Variations[0].1[0], Variations[0].0);
    assert Rules[1] == (Variations[0].1[1], Variations[0].0);
    assert Rules[2] == (Variations[1].1[0], Variations[1].0);
    assert Rules[3] == (Variations[2].1[0], Variations[2].0);
    assert Rules[4] == (Variations[2].1[1], Variations[2].0);
    assert Rules[5] == (Variations[2].1[2], Variations[2].0);
    assert Rules[6] == (Variations[2].1[3], Variations[2].0);
    assert Rules[7] == (Variations[3].1[0], Variations[3].0);
    assert Rules[8] == (Variations[3].1[1], Variations[3].0);
    assert Rules[9] == (Variations[4].1[0], Variations[4].0);
    assert Rules[10] == (Variations[4].1[1], Variations[4].0);
    assert Rules[11] == (Variations[5].1[0], Variations[5].0);
    assert Rules[12] == (Variations[5].1[1], Variations[5].0);
    assert Rules[13] == (Variations[5].1[2], Variations[5].0);
  }

  predicate NoUpper(s: string)
  {
    forall i :: 0 <= i < |s| ==> !('A' <= s[i] <= 'Z')
  }

  lemma {:induction false} ReplaceNoUpper(s: string, pattern: string, replacement: string, i: nat)
    requires pattern != [] && i <= |s| && NoUpper(s) && NoUpper(replacement)
    ensures NoUpper(ReplaceFrom(s, pattern, replacement, i))
    decreases |s| - i
  {
    if i + |pattern| <= |s| {
      if MatchFrom(s, pattern, i, 0) {
        ReplaceNoUpper(s, pattern, replacement, i + |pattern|);
      } else {
        ReplaceNoUpper(s, pattern, replacement, i + 1);
      }
    }
  }

  /** The label loop: from the `k`-th prefix on, a name starting with it loses it and is stripped again. */
  function DropPrefixes(s: string, k: nat): (r: string)
    requires NoUpper(s)
    ensures NoUpper(r)
    decreases |NamePrefixes| - k
  {
    if k >= |NamePrefixes| then s
    else if StartsWith(s, NamePrefixes[k]) then DropPrefixes(Strip(s[|NamePrefixes[k]|..]), k + 1)
    else DropPrefixes(s, k + 1)
  }

  /** The trailing-word loop: from the `k`-th suffix on, `s[:-len(suffix)].strip()` when `s` ends with it. */
  function DropSuffixes(s: string, k: nat): (r: string)
    requires NoUpper(s)
    ensures NoUpper(r)
    decreases |NameSuffixes| - k
  {
    if k >= |NameSuffixes| then s
    else if EndsWith(s, NameSuffixes[k]) then DropSuffixes(Strip(s[..|s| - |NameSuffixes[k]|]), k + 1)
    else DropSuffixes(s, k + 1)
  }

  /** The variation loop exactly as the source writes it: a variant found anywhere is replaced by its standard word, even inside that standard word. */
  function RewriteAsWritten(s: string, k: nat): (r: string)
    requires NoUpper(s)
    ensures NoUpper(r)
    decreases |Rules| - k
  {
    if k >= |Rules| then s
    else
      var (variant, standard) := Rules[k];
      if Contains(s, variant) then
        ReplaceNoUpper(s, variant, standard, 0);
        RewriteAsWritten(Replace(s, variant, standard), k + 1)
      else RewriteAsWritten(s, k + 1)
  }

  /** The variation loop as intended: a variant is rewritten only while its standard word is absent, so the standard word is never rewritten into itself. */
  function Rewrite(s: string, k: nat): (r: string)
    requires NoUpper(s)
    ensures NoUpper(r)
    decreases |Rules| - k
  {
    if k >= |Rules| then s
    else
      var (variant, standard) := Rules[k];
      if Contains(s, variant) && !Contains(s, standard) then
        ReplaceNoUpper(s, variant, standard, 0);
        Rewrite(Replace(s, variant, standard), k + 1)
      else Rewrite(s, k + 1)
  }

  /** Lower-cased and stripped, the first step of both normalizations. */
  function Folded(name: string): (r: string)
    ensures NoUpper(r)
  {
    LowerChars(name);
    Strip(Lower(name))
  }

  /** `_normalize_program_name` as written. */
  function NormalizeProgramNameAsWritten(name: string): (r: string)
    ensures NoUpper(r)
  {
    RewriteAsWritten(DropSuffixes(DropPrefixes(Folded(name), 0), 0), 0)
  }

  /** `_normalize_program_name` with the variation rewrite corrected, so that every variation maps to its canonical name. */
  function NormalizeProgramName(name: string): (r: string)
    ensures NoUpper(r)
  {
    Rewrite(DropSuffixes(DropPrefixes(Folded(name), 0), 0), 0)
  }

  lemma LowerTwice(s: string)
    ensures Lower(Lower(s)) == Lower(s)
  {
    assert forall i :: 0 <= i < |s| ==> LowerChar(LowerChar(s[i])) == LowerChar(s[i]);
  }

  /** Names that differ only in letter case get the same key, under either normalization. */
  lemma {:induction false} NormalizeIgnoresCase(name: string)
    ensures NormalizeProgramName(Lower(name)) == NormalizeProgramName(name)
    ensures NormalizeProgramNameAsWritten(Lower(name)) == NormalizeProgramNameAsWritten(name)
  {
    LowerTwice(name);
  }

  /** Once no later variant occurs, neither rewrite changes anything. */
  lemma {:induction false} NoVariantLeft(s: string, k: nat)
    requires NoUpper(s)
    requires forall j :: k <= j < |Rules| ==> !Contains(s, Rules[j].0)
    ensures RewriteAsWritten(s, k) == s && Rewrite(s, k) == s
    decreases |Rules| - k
  {
    if k < |Rules| {
      NoVariantLeft(s, k + 1);
    }
  }

  /** A name that starts with no label and ends with no trailing word keeps its folded form. */
  lemma {:induction false} NothingToDrop(s: string)
    requires NoUpper(s)
    requires forall k :: 0 <= k < |NamePrefixes| ==> !StartsWith(s, NamePrefixes[k])
    requires forall k :: 0 <= k < |NameSuffixes| ==> !EndsWith(s, NameSuffixes[k])
    ensures DropSuffixes(DropPrefixes(s, 0), 0) == s
  {
    DropPrefixesNone(s, 0);
    DropSuffixesNone(s, 0);
  }

  /** A name written with a leading label, such as "Class: Tumbling", gets the key of the name without it ("Tumbling"), under either normalization, when no earlier label matches and the bare name starts with no label. */
  lemma LabelIgnored(name: string, plain: string, j: nat)
    requires j < |NamePrefixes| && StartsWith(Folded(name), NamePrefixes[j])
    requires Strip(Folded(name)[|NamePrefixes[j]|..]) == Folded(plain)
    requires forall k :: 0 <= k < j ==> !StartsWith(Folded(name), NamePrefixes[k])
    requires forall k :: 0 <= k < |NamePrefixes| ==> !StartsWith(Folded(plain), NamePrefixes[k])
    ensures DropPrefixes(Folded(name), 0) == Folded(plain)
    ensures NormalizeProgramNameAsWritten(name) == NormalizeProgramNameAsWritten(plain)
    ensures NormalizeProgramName(name) == NormalizeProgramName(plain)
  {
    DropPrefixesSkip(Folded(name), 0, j);
    DropPrefixesNone(Folded(plain), j + 1);
    DropPrefixesNone(Folded(plain), 0);
  }

  /** Labels from `k` up to `j` that the name does not start with are passed over. */
  lemma {:induction false} DropPrefixesSkip(s: string, k: nat, j: nat)
    requires NoUpper(s) && k <= j <= |NamePrefixes|
    requires forall i :: k <= i < j ==> !StartsWith(s, NamePrefixes[i])
    ensures DropPrefixes(s, k) == DropPrefixes(s, j)
    decreases j - k
  {
    if k < j { DropPrefixesSkip(s, k + 1, j); }
  }

  lemma {:induction false} DropPrefixesNone(s: string, k: nat)
    requires NoUpper(s)
    requires forall j :: k <= j < |NamePrefixes| ==> !StartsWith(s, NamePrefixes[j])
    ensures DropPrefixes(s, k) == s
    decreases |NamePrefixes| - k
  {
    if k < |NamePrefixes| { DropPrefixesNone(s, k + 1); }
  }

  lemma {:induction false} DropSuffixesNone(s: string, k: nat)
    requires NoUpper(s)
    requires forall j :: k <= j < |NameSuffixes| ==> !EndsWith(s, NameSuffixes[j])
    ensures DropSuffixes(s, k) == s
    decreases |NameSuffixes| - k
  {
    if k < |NameSuffixes| { DropSuffixesNone(s, k + 1); }
  }

  lemma FoldedGym()
    ensures Folded("Gym") == "gym"
    ensures DropSuffixes(DropPrefixes("gym", 0), 0) == "gym"
  {
    assert Lower("Gym") == "gym";
    StripUnspaced("gym");
    NothingToDrop("gym");
  }

  /** A string with whitespace at neither end is its own strip. */
  lemma StripUnspaced(s: string)
    requires s != [] && !IsSpace(s[0]) && !IsSpace(s[|s| - 1])
    ensures Strip(s) == s
  {
  }

  lemma LowerGymnastics(s: string)
    requires s == "Gymnastics"
    ensures Lower(s) == "gymnastics"
  {
    LowerChars(s);
    assert forall i | 0 <= i < |s| :: Lower(s)[i] == "gymnastics"[i];
  }

  lemma FoldedGymnastics(s: string)
    requires s == "Gymnastics"
    ensures Folded(s) == "gymnastics"
  {
    LowerGymnastics(s);
    StripUnspaced("gymnastics");
  }

  lemma KeptGymnastics()
    ensures DropSuffixes(DropPrefixes("gymnastics", 0), 0) == "gymnastics"
  {
    assert !MatchAt("gymnastics", "class", 5);
    assert !MatchAt("gymnastics", "program", 3);
    assert !MatchAt("gymnastics", "course", 4);
    assert !MatchAt("gymnastics", "lesson", 4);
    assert !MatchAt("gymnastics", "classes", 3);
    assert !MatchAt("gymnastics", "programs", 2);
    NothingToDrop("gymnastics");
  }

  /** None of the variants after the two gymnastics ones occurs in "gymnastics". */
  lemma OtherVariantsAbsent()
    ensures forall j :: 2 <= j < |Rules| ==> !Contains("gymnastics", Rules[j].0)
  {
    VariantsAbsent("gymnastics");
  }

  /** None of them occurs in the as-written key of "Gymnastics" either. */
  lemma OtherVariantsAbsentLong()
    ensures forall j :: 2 <= j < |Rules| ==> !Contains("gymnasticsnasticss", Rules[j].0)
  {
    VariantsAbsent("gymnasticsnasticss");
  }

  /** None of the later variants occurs in a string built from the letters of "gymnastics". */
  lemma VariantsAbsent(s: string)
    requires forall c :: c in s ==> c in "gymnastic"
    ensures forall j :: 2 <= j < |Rules| ==> !Contains(s, Rules[j].0)
  {
    MissingCharFrom(s, "tumble", 0, 1);
    MissingCharFrom(s, "begin", 0, 0);
    MissingCharFrom(s, "starter", 0, 6);
    MissingCharFrom(s, "intro", 0, 4);
    MissingCharFrom(s, "basic", 0, 0);
    MissingCharFrom(s, "inter", 0, 3);
    MissingCharFrom(s, "middle", 0, 2);
    MissingCharFrom(s, "adv", 0, 1);
    MissingCharFrom(s, "expert", 0, 0);
    MissingCharFrom(s, "pre-school", 0, 0);
    MissingCharFrom(s, "pre school", 0, 0);
    MissingCharFrom(s, "toddler", 0, 1);
  }

  /** "gym" is rewritten to the standard word by both versions. */
  lemma RewriteGym()
    ensures RewriteAsWritten("gym", 0) == "gymnastics"
    ensures Rewrite("gym", 0) == "gymnastics"
  {
    assert !Contains("gym", "gymnastic");
    assert !Contains("gym", "gymnastics");
    assert Contains("gym", "gym");
    assert Replace("gym", "gym", "gymnastics") == "gymnastics";
    OtherVariantsAbsent();
    NoVariantLeft("gymnastics", 2);
  }

  /** The first rule turns "gymnastics" into "gymnasticss". */
  lemma ReplaceGymnastic()
    ensures Contains("gymnastics", "gymnastic")
    ensures Replace("gymnastics", "gymnastic", "gymnastics") == "gymnasticss"
  {
    assert MatchAt("gymnastics", "gymnastic", 0);
  }

  /** The second rule then rewrites the "gym" at its front. */
  lemma ReplaceGymInside()
    ensures Contains("gymnasticss", "gym")
    ensures Replace("gymnasticss", "gym", "gymnastics") == "gymnasticsnasticss"
  {
    assert MatchAt("gymnasticss", "gym", 0);
  }

  /** As written, "gymnastics" is rewritten twice, once per variant it contains. */
  lemma RewriteGymnasticsAsWritten()
    ensures RewriteAsWritten("gymnastics", 0) == "gymnasticsnasticss"
  {
    RewriteGymnasticFirst();
    RewriteGymSecond();
    OtherVariantsAbsentLong();
    NoVariantLeft("gymnasticsnasticss", 2);
  }

  /** The first rule applies to "gymnastics" as written. */
  lemma RewriteGymnasticFirst()
    ensures RewriteAsWritten("gymnastics", 0) == RewriteAsWritten("gymnasticss", 1)
  {
    ReplaceGymnastic();
  }

  /** The second rule applies to the result. */
  lemma RewriteGymSecond()
    ensures RewriteAsWritten("gymnasticss", 1) == RewriteAsWritten("gymnasticsnasticss", 2)
  {
    ReplaceGymInside();
  }

  /** Corrected, "gymnastics" already holds its standard word and is left alone. */
  lemma RewriteGymnastics()
    ensures Rewrite("gymnastics", 0) == "gymnastics"
  {
    assert MatchAt("gymnastics", "gymnastics", 0);
    OtherVariantsAbsent();
    NoVariantLeft("gymnastics", 2);
  }

  /** As written, the standard word itself is rewritten: "Gymnastics" is keyed "gymnasticsnasticss" while "Gym" is keyed "gymnastics", so the two spellings are never grouped. */
  lemma GymnasticsSplitAsWritten()
    ensures NormalizeProgramNameAsWritten("Gym") == "gymnastics"
    ensures NormalizeProgramNameAsWritten("Gymnastics") == "gymnasticsnasticss"
  {
    FoldedGym();
    RewriteGym();
    FoldedGymnastics("Gymnastics");
    KeptGymnastics();
    RewriteGymnasticsAsWritten();
  }

  /** Corrected, the variant and the standard spelling share one key. */
  lemma GymnasticsJoined()
    ensures NormalizeProgramName("Gym") == "gymnastics"
    ensures NormalizeProgramName("Gymnastics") == "gymnastics"
  {
    FoldedGym();
    RewriteGym();
    FoldedGymnastics("Gymnastics");
    KeptGymnastics();
    RewriteGymnastics();
  }
}
