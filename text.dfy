/**
  The handful of Python `str` operations the extractor relies on, written out
  over `seq<char>`: `lower`, `strip`, `in`, `startswith`, `endswith`,
  `replace`, `find`, `rfind`, `isdigit` and the `<` order of strings.
  Case mapping and digit classes are the ASCII ones; whitespace is the set
  Python's `str.isspace` accepts.
 */
module Text {

  /** `c.lower()` for one character: only A-Z change. */
  function LowerChar(c: char): char
  {
    if 'A' <= c <= 'Z' then (c as int + 32) as char else c
  }

  /** `s.lower()`. */
  function Lower(s: string): (r: string)
    ensures |r| == |s|
  {
    if s == [] then [] else [LowerChar(s[0])] + Lower(s[1..])
  }

  /** `s.lower()` lowercases each character in place and leaves no capital. */
  lemma {:induction false} LowerChars(s: string)
    ensures forall i :: 0 <= i < |s| ==> Lower(s)[i] == LowerChar(s[i])
    ensures forall i :: 0 <= i < |s| ==> !('A' <= Lower(s)[i] <= 'Z')
  {
    if s != [] {
      LowerChars(s[1..]);
      assert forall i :: 1 <= i < |s| ==> Lower(s)[i] == Lower(s[1..])[i - 1];
    }
  }

  /** Lowercasing leaves a string without capitals unchanged. */
  lemma LowerUnchanged(s: string)
    requires forall i :: 0 <= i < |s| ==> !('A' <= s[i] <= 'Z')
    ensures Lower(s) == s
  {
  }

  /** The characters `str.strip()` removes. */
  predicate IsSpace(c: char)
  {
    c == ' ' || ('\t' <= c <= '\r') || ('\U{1C}' <= c <= '\U{1F}')
    || c == '\U{85}' || c == '\U{A0}' || c == '\U{1680}' || ('\U{2000}' <= c <= '\U{200A}')
    || c == '\U{2028}' || c == '\U{2029}' || c == '\U{202F}' || c == '\U{205F}' || c == '\U{3000}'
  }

  /** The first index from `i` on that does not hold whitespace. */
  function SkipSpaces(s: string, i: nat): (r: nat)
    requires i <= |s|
    ensures i <= r <= |s|
    ensures forall k :: i <= k < r ==> IsSpace(s[k])
    ensures r < |s| ==> !IsSpace(s[r])
    decreases |s| - i
  {
    if i < |s| && IsSpace(s[i]) then SkipSpaces(s, i + 1) else i
  }

  /** The end of `s[lo..j]` once trailing whitespace is dropped. */
  function SkipSpacesBack(s: string, lo: nat, j: nat): (r: nat)
    requires lo <= j <= |s|
    ensures lo <= r <= j
    ensures forall k :: r <= k < j ==> IsSpace(s[k])
    ensures r > lo ==> !IsSpace(s[r - 1])
    decreases j
  {
    if j > lo && IsSpace(s[j - 1]) then SkipSpacesBack(s, lo, j - 1) else j
  }

  /** `s.strip()`: drops leading and trailing whitespace, so it is empty exactly when `s` is all whitespace. */
  function Strip(s: string): (r: string)
    ensures |r| <= |s|
    ensures r != [] ==> !IsSpace(r[0]) && !IsSpace(r[|r| - 1])
    ensures r == [] <==> forall i :: 0 <= i < |s| ==> IsSpace(s[i])
  {
    var a := SkipSpaces(s, 0);
    var b := SkipSpacesBack(s, a, |s|);
    s[a..b]
  }

  /** `p` matches `s` from position `i + j` on, character by character from `p[j]`. */
  predicate MatchFrom(s: string, p: string, i: nat, j: nat)
    requires i + |p| <= |s| && j <= |p|
    decreases |p| - j
  {
    j == |p| || (s[i + j] == p[j] && MatchFrom(s, p, i, j + 1))
  }

  /** An occurrence of `p` in `s` starts at `i`. */
  predicate MatchAt(s: string, p: string, i: nat)
  {
    i + |p| <= |s| && MatchFrom(s, p, i, 0)
  }

  lemma {:induction false} MatchFromSlice(s: string, p: string, i: nat, j: nat)
    requires i + |p| <= |s| && j <= |p|
    ensures MatchFrom(s, p, i, j) <==> s[i + j..i + |p|] == p[j..]
    decreases |p| - j
  {
    if j < |p| {
      MatchFromSlice(s, p, i, j + 1);
      assert s[i + j..i + |p|] == [s[i + j]] + s[i + j + 1..i + |p|];
      assert p[j..] == [p[j]] + p[j + 1..];
    }
  }

  /** `MatchAt` is the slice comparison `s[i:i+len(p)] == p`. */
  lemma MatchAtSlice(s: string, p: string, i: nat)
    ensures MatchAt(s, p, i) <==> i + |p| <= |s| && s[i..i + |p|] == p
  {
    if i + |p| <= |s| {
      MatchFromSlice(s, p, i, 0);
    }
  }

  /** `s.startswith(p)`. */
  predicate StartsWith(s: string, p: string)
  {
    MatchAt(s, p, 0)
  }

  /** `s.endswith(p)`. */
  predicate EndsWith(s: string, p: string)
  {
    |p| <= |s| && MatchAt(s, p, |s| - |p|)
  }

  /** A string begins and ends with the parts it was glued from. */
  lemma ConcatEnds(a: string, b: string)
    ensures StartsWith(a + b, a) && EndsWith(a + b, b)
  {
    MatchAtSlice(a + b, a, 0);
    MatchAtSlice(a + b, b, |a|);
  }

  /** Text joined around a separator begins with the first part and ends with the last. */
  lemma JoinEnds(a: string, sep: string, b: string)
    ensures StartsWith(a + sep + b, a + sep) && EndsWith(a + sep + b, sep + b)
    ensures StartsWith(a + sep + b, a) && EndsWith(a + sep + b, b)
  {
    ConcatEnds(a + sep, b);
    assert a + sep + b == a + (sep + b);
    ConcatEnds(a, sep + b);
  }

  /** Some occurrence of `p` starts at `i` or later. */
  predicate ContainsFrom(s: string, p: string, i: nat)
    decreases |s| - i
  {
    MatchAt(s, p, i) || (i < |s| && ContainsFrom(s, p, i + 1))
  }

  /** Every character of a pattern occurring at `i` is a character of the string. */
  lemma MatchAtChars(s: string, p: string, i: nat, j: nat)
    requires j < |p|
    ensures MatchAt(s, p, i) ==> i + j < |s| && s[i + j] == p[j] && p[j] in s
  {
    MatchAtSlice(s, p, i);
    if i + |p| <= |s| {
      assert s[i..i + |p|][j] == s[i + j];
    }
  }

  /** A pattern holding a character the string lacks occurs nowhere in it. */
  lemma {:induction false} MissingCharFrom(s: string, p: string, i: nat, j: nat)
    requires j < |p| && p[j] !in s
    ensures !ContainsFrom(s, p, i)
    decreases |s| - i
  {
    MatchAtChars(s, p, i, j);
    if i < |s| { MissingCharFrom(s, p, i + 1, j); }
  }

  /** An occurrence at `k` is an occurrence from any earlier position on. */
  lemma {:induction false} OccursAt(s: string, p: string, i: nat, k: nat)
    requires i <= k && MatchAt(s, p, k)
    ensures ContainsFrom(s, p, i)
    decreases k - i
  {
    if i < k {
      MatchAtSlice(s, p, k);
      OccursAt(s, p, i + 1, k);
    }
  }

  /** `p in s`. */
  predicate Contains(s: string, p: string)
  {
    ContainsFrom(s, p, 0)
  }

  /** The rest of `s.replace(pattern, replacement)` from position `i`, left to right without overlaps. */
  function ReplaceFrom(s: string, pattern: string, replacement: string, i: nat): (r: string)
    requires pattern != [] && i <= |s|
    ensures !ContainsFrom(s, pattern, i) ==> r == s[i..]
    decreases |s| - i
  {
    if i + |pattern| > |s| then s[i..]
    else if MatchFrom(s, pattern, i, 0) then replacement + ReplaceFrom(s, pattern, replacement, i + |pattern|)
    else
      var rest := ReplaceFrom(s, pattern, replacement, i + 1);
      assert s[i..] == [s[i]] + s[i + 1..];
      [s[i]] + rest
  }

  /** `s.replace(pattern, replacement)`: a string without the pattern is left alone. */
  function Replace(s: string, pattern: string, replacement: string): (r: string)
    requires pattern != []
    ensures !Contains(s, pattern) ==> r == s
  {
    ReplaceFrom(s, pattern, replacement, 0)
  }

  /** `s.find(c)`: the first index holding `c`, or -1. */
  function Find(s: string, c: char): (r: int)
    ensures r == -1 <==> c !in s
    ensures r != -1 ==> 0 <= r < |s| && s[r] == c && c !in s[..r]
  {
    if s == [] then -1
    else if s[0] == c then 0
    else var k := Find(s[1..], c); (if k == -1 then -1 else k + 1)
  }

  /** `s.rfind(c)`: the last index holding `c`, or -1. */
  function RFind(s: string, c: char): (r: int)
    ensures r == -1 <==> c !in s
    ensures r != -1 ==> 0 <= r < |s| && s[r] == c && c !in s[r + 1..]
  {
    if s == [] then -1
    else if s[|s| - 1] == c then |s| - 1
    else RFind(s[..|s| - 1], c)
  }

  predicate IsDigit(c: char)
  {
    '0' <= c <= '9'
  }

  /** `any(ch.isdigit() for ch in s)`. */
  predicate HasDigit(s: string)
  {
    exists i :: 0 <= i < |s| && IsDigit(s[i])
  }

  /** Python's `a < b` on strings: lexicographic by code point, a proper prefix first. */
  predicate LexLess(a: string, b: string)
  {
    if a == [] then b != []
    else if b == [] then false
    else if a[0] != b[0] then a[0] < b[0]
    else LexLess(a[1..], b[1..])
  }

  lemma {:induction false} LexLessIrreflexive(a: string)
    ensures !LexLess(a, a)
  {
    if a != [] { LexLessIrreflexive(a[1..]); }
  }

  lemma {:induction false} LexLessTransitive(a: string, b: string, c: string)
    requires LexLess(a, b) && LexLess(b, c)
    ensures LexLess(a, c)
  {
    if a != [] && b != [] && c != [] && a[0] == b[0] && b[0] == c[0] {
      LexLessTransitive(a[1..], b[1..], c[1..]);
    }
  }

  lemma {:induction false} LexLessTotal(a: string, b: string)
    ensures a == b || LexLess(a, b) || LexLess(b, a)
  {
    if a != [] && b != [] && a[0] == b[0] {
      LexLessTotal(a[1..], b[1..]);
      if a[1..] == b[1..] { assert a == [a[0]] + a[1..]; assert b == [b[0]] + b[1..]; }
    }
  }
}
