/**
  Sequence operations that Python code gets from list comprehensions,
  slicing, `dict.fromkeys` and the stable `list.sort`.
 */
module Seqs {

  /** `[x for x in s if keep(x)]`, defined element by element from the back so
      that it follows a loop that appends. */
  function Filter<T>(s: seq<T>, keep: T -> bool): (r: seq<T>)
    ensures |r| <= |s|
  {
    if s == [] then []
    else Filter(s[..|s| - 1], keep) + (if keep(s[|s| - 1]) then [s[|s| - 1]] else [])
  }

  lemma {:induction false} FilterMembers<T>(s: seq<T>, keep: T -> bool, x: T)
    ensures x in Filter(s, keep) <==> x in s && keep(x)
  {
    if s != [] {
      FilterMembers(s[..|s| - 1], keep, x);
      assert s == s[..|s| - 1] + [s[|s| - 1]];
    }
  }

  /** Every element of a filtered sequence comes from it and passes the test. */
  lemma FilterElements<T>(s: seq<T>, keep: T -> bool)
    ensures forall i :: 0 <= i < |Filter(s, keep)| ==> Filter(s, keep)[i] in s && keep(Filter(s, keep)[i])
  {
    forall i | 0 <= i < |Filter(s, keep)| ensures Filter(s, keep)[i] in s && keep(Filter(s, keep)[i]) {
      FilterMembers(s, keep, Filter(s, keep)[i]);
    }
  }

  lemma {:induction false} FilterConcat<T>(a: seq<T>, b: seq<T>, keep: T -> bool)
    ensures Filter(a + b, keep) == Filter(a, keep) + Filter(b, keep)
    decreases |b|
  {
    if b == [] {
      assert a + b == a;
    } else {
      assert (a + b)[..|a + b| - 1] == a + b[..|b| - 1];
      FilterConcat(a, b[..|b| - 1], keep);
    }
  }

  /** `[f(x) for x in s if keep(x)]`, from the back like `Filter`. */
  function MapFilter<T, U>(s: seq<T>, keep: T -> bool, f: T -> U): (r: seq<U>)
    ensures |r| <= |s|
  {
    if s == [] then []
    else MapFilter(s[..|s| - 1], keep, f) + (if keep(s[|s| - 1]) then [f(s[|s| - 1])] else [])
  }

  lemma {:induction false} MapFilterMembers<T, U>(s: seq<T>, keep: T -> bool, f: T -> U, y: U)
    ensures y in MapFilter(s, keep, f) <==> exists i :: 0 <= i < |s| && keep(s[i]) && y == f(s[i])
  {
    if s != [] {
      var n := |s| - 1;
      MapFilterMembers(s[..n], keep, f, y);
      if exists i :: 0 <= i < |s| && keep(s[i]) && y == f(s[i]) {
        var i :| 0 <= i < |s| && keep(s[i]) && y == f(s[i]);
        if i < n { assert s[..n][i] == s[i]; }
      }
    }
  }

  /** Python's `s[:n]`: a negative `n` counts from the end. */
  function Prefix<T>(s: seq<T>, n: int): (r: seq<T>)
    ensures n >= 0 ==> |r| == if n < |s| then n else |s|
    ensures n < 0 ==> |r| == if |s| + n > 0 then |s| + n else 0
    ensures r == s[..|r|]
  {
    if n >= 0 then (if n < |s| then s[..n] else s)
    else (if |s| + n > 0 then s[..|s| + n] else [])
  }

  predicate Distinct<T(==)>(s: seq<T>)
  {
    forall i, j :: 0 <= i < j < |s| ==> s[i] != s[j]
  }

  /** `list(dict.fromkeys(s))`: the first occurrence of each element, in order. */
  function Dedupe<T(==)>(s: seq<T>): (r: seq<T>)
    ensures Distinct(r)
    ensures forall i :: 0 <= i < |r| ==> r[i] in s
    ensures forall i :: 0 <= i < |s| ==> s[i] in r
    ensures |r| <= |s|
  {
    if s == [] then []
    else
      var d := Dedupe(s[..|s| - 1]);
      assert forall i :: 0 <= i < |s| - 1 ==> s[i] == s[..|s| - 1][i];
      if s[|s| - 1] in d then d else d + [s[|s| - 1]]
  }

  /** The position of the first occurrence of `x`. */
  function FirstIndex<T(==)>(s: seq<T>, x: T): (i: nat)
    requires x in s
    ensures i < |s| && s[i] == x && x !in s[..i]
  {
    if s[0] == x then 0
    else
      var k := FirstIndex(s[1..], x);
      assert s[..k + 1] == [s[0]] + s[1..][..k];
      k + 1
  }

  lemma FirstIndexPrefix<T>(s: seq<T>, n: nat, x: T)
    requires n <= |s| && x in s[..n]
    ensures FirstIndex(s, x) == FirstIndex(s[..n], x)
  {
    var i := FirstIndex(s, x);
    var j := FirstIndex(s[..n], x);
    assert s[..n][..j] == s[..j];
  }

  /** `Dedupe` lists elements in the order of their first occurrence. */
  lemma {:induction false} DedupeOrder<T>(s: seq<T>)
    ensures forall i, j :: 0 <= i < j < |Dedupe(s)| ==>
      FirstIndex(s, Dedupe(s)[i]) < FirstIndex(s, Dedupe(s)[j])
  {
    if s != [] {
      var n := |s| - 1;
      var d := Dedupe(s[..n]);
      DedupeOrder(s[..n]);
      forall x | x in d ensures FirstIndex(s, x) == FirstIndex(s[..n], x) < n {
        FirstIndexPrefix(s, n, x);
      }
      if s[n] !in d {
        assert Dedupe(s) == d + [s[n]];
        assert s[n] !in s[..n];
        assert FirstIndex(s, s[n]) == n;
      }
    }
  }

  /** What extra elements `b` adds, by first occurrence, once `a` has been seen. */
  lemma {:induction false} DedupeConcatPrefix<T>(a: seq<T>, b: seq<T>)
    ensures |Dedupe(a)| <= |Dedupe(a + b)|
    ensures Dedupe(a + b)[..|Dedupe(a)|] == Dedupe(a)
    decreases |b|
  {
    if b == [] {
      assert a + b == a;
    } else {
      assert (a + b)[..|a + b| - 1] == a + b[..|b| - 1];
      DedupeConcatPrefix(a, b[..|b| - 1]);
    }
  }

  /** What `Dedupe(a + b)` lists after `Dedupe(a)` comes from `b`, is not in `a`, and is no longer than `b`. */
  lemma {:induction false} DedupeConcatRest<T>(a: seq<T>, b: seq<T>)
    ensures |Dedupe(a)| <= |Dedupe(a + b)| <= |Dedupe(a)| + |b|
    ensures forall x :: x in Dedupe(a + b)[|Dedupe(a)|..] ==> x in b && x !in a
    decreases |b|
  {
    DedupeConcatPrefix(a, b);
    if b == [] {
      assert a + b == a;
    } else {
      var b' := b[..|b| - 1];
      var y := b[|b| - 1];
      assert (a + b)[..|a + b| - 1] == a + b' && (a + b)[|a + b| - 1] == y;
      DedupeConcatRest(a, b');
      var d' := Dedupe(a + b');
      var n := |Dedupe(a)|;
      forall x | x in Dedupe(a + b)[n..] ensures x in b && x !in a {
        if x in d'[n..] {
          assert x in b';
        } else {
          assert Dedupe(a + b) == d' + [y] && x == y;
          assert forall i :: 0 <= i < |a| ==> a[i] == (a + b')[i];
        }
      }
    }
  }

  // ---- Stable sorting by a key, as `list.sort(key=...)` does ----

  ghost predicate StrictOrder<K(!new)>(less: (K, K) -> bool)
  {
    && (forall a :: !less(a, a))
    && (forall a, b, c :: less(a, b) && less(b, c) ==> less(a, c))
  }

  /** No element is strictly smaller than one before it. */
  ghost predicate SortedBy<T, K>(s: seq<T>, key: T -> K, less: (K, K) -> bool)
  {
    forall i, j :: 0 <= i < j < |s| ==> !less(key(s[j]), key(s[i]))
  }

  /** Puts `x` in front of the first element whose key is strictly larger than its own. */
  function Insert<T, K>(x: T, s: seq<T>, key: T -> K, less: (K, K) -> bool): (r: seq<T>)
    ensures multiset(r) == multiset(s) + multiset{x}
    ensures |r| == |s| + 1
  {
    if s == [] then [x]
    else if less(key(x), key(s[0])) then [x] + s
    else
      assert s == [s[0]] + s[1..];
      [s[0]] + Insert(x, s[1..], key, less)
  }

  lemma {:induction false} InsertElements<T, K>(x: T, s: seq<T>, key: T -> K, less: (K, K) -> bool)
    ensures forall j :: 0 <= j < |Insert(x, s, key, less)| ==>
      Insert(x, s, key, less)[j] == x || Insert(x, s, key, less)[j] in s
  {
    if s != [] && !less(key(x), key(s[0])) {
      InsertElements(x, s[1..], key, less);
      var r := Insert(x, s, key, less);
      forall j | 0 < j < |r| ensures r[j] == x || r[j] in s {
        assert r[j] == Insert(x, s[1..], key, less)[j - 1];
      }
    }
  }

  /** The stable insertion sort: each element goes after the ones before it with an equal key. */
  function SortBy<T, K>(s: seq<T>, key: T -> K, less: (K, K) -> bool): (r: seq<T>)
    ensures multiset(r) == multiset(s)
    ensures |r| == |s|
  {
    if s == [] then []
    else
      assert s == s[..|s| - 1] + [s[|s| - 1]];
      Insert(s[|s| - 1], SortBy(s[..|s| - 1], key, less), key, less)
  }

  lemma {:induction false} InsertSorted<T, K(!new)>(x: T, s: seq<T>, key: T -> K, less: (K, K) -> bool)
    requires StrictOrder(less) && SortedBy(s, key, less)
    ensures SortedBy(Insert(x, s, key, less), key, less)
  {
    var r := Insert(x, s, key, less);
    if s == [] {
    } else if less(key(x), key(s[0])) {
      assert r == [x] + s;
      forall i, j | 0 <= i < j < |r| ensures !less(key(r[j]), key(r[i])) {
        if i == 0 {
          assert r[j] == s[j - 1];
        } else {
          assert r[i] == s[i - 1] && r[j] == s[j - 1];
        }
      }
    } else {
      var t := Insert(x, s[1..], key, less);
      assert SortedBy(s[1..], key, less) by {
        forall i, j | 0 <= i < j < |s[1..]| ensures !less(key(s[1..][j]), key(s[1..][i])) {
          assert s[1..][i] == s[i + 1] && s[1..][j] == s[j + 1];
        }
      }
      InsertSorted(x, s[1..], key, less);
      InsertElements(x, s[1..], key, less);
      assert r == [s[0]] + t;
      forall i, j | 0 <= i < j < |r| ensures !less(key(r[j]), key(r[i])) {
        if i == 0 {
          assert r[j] == t[j - 1];
          if t[j - 1] != x {
            var k :| 0 <= k < |s[1..]| && s[1..][k] == t[j - 1];
            assert s[k + 1] == r[j];
          }
        } else {
          assert r[i] == t[i - 1] && r[j] == t[j - 1];
        }
      }
    }
  }

  lemma {:induction false} SortBySorted<T, K(!new)>(s: seq<T>, key: T -> K, less: (K, K) -> bool)
    requires StrictOrder(less)
    ensures SortedBy(SortBy(s, key, less), key, less)
  {
    if s != [] {
      SortBySorted(s[..|s| - 1], key, less);
      InsertSorted(s[|s| - 1], SortBy(s[..|s| - 1], key, less), key, less);
    }
  }

  /** The elements with key `k`, in order. */
  function WithKey<T, K(==)>(s: seq<T>, key: T -> K, k: K): seq<T>
  {
    Filter(s, x => key(x) == k)
  }

  lemma {:induction false} WithKeyCons<T, K>(x: T, s: seq<T>, key: T -> K, k: K)
    ensures WithKey([x] + s, key, k) == (if key(x) == k then [x] else []) + WithKey(s, key, k)
  {
    FilterConcat([x], s, y => key(y) == k);
    assert [x][..0] == [];
  }

  lemma {:induction false} InsertWithKey<T, K(!new)>(x: T, s: seq<T>, key: T -> K, less: (K, K) -> bool, k: K)
    requires StrictOrder(less) && SortedBy(s, key, less)
    ensures WithKey(Insert(x, s, key, less), key, k)
         == WithKey(s, key, k) + (if key(x) == k then [x] else [])
  {
    if s == [] {
      WithKeyCons(x, [], key, k);
      assert [x] + [] == [x];
    } else if less(key(x), key(s[0])) {
      InsertInFront(x, s, key, less, k);
    } else {
      assert SortedBy(s[1..], key, less) by {
        forall i, j | 0 <= i < j < |s[1..]| ensures !less(key(s[1..][j]), key(s[1..][i])) {
          assert s[1..][i] == s[i + 1] && s[1..][j] == s[j + 1];
        }
      }
      InsertWithKey(x, s[1..], key, less, k);
      InsertBehind(x, s, key, less, k);
    }
  }

  lemma InsertInFront<T, K(!new)>(x: T, s: seq<T>, key: T -> K, less: (K, K) -> bool, k: K)
    requires StrictOrder(less) && SortedBy(s, key, less)
    requires s != [] && less(key(x), key(s[0]))
    ensures WithKey(Insert(x, s, key, less), key, k)
         == WithKey(s, key, k) + (if key(x) == k then [x] else [])
  {
    WithKeyCons(x, s, key, k);
    if key(x) == k {
      NoneWithKey(s, key, less, k);
    }
  }

  lemma InsertBehind<T, K>(x: T, s: seq<T>, key: T -> K, less: (K, K) -> bool, k: K)
    requires s != [] && !less(key(x), key(s[0]))
    requires WithKey(Insert(x, s[1..], key, less), key, k)
          == WithKey(s[1..], key, k) + (if key(x) == k then [x] else [])
    ensures WithKey(Insert(x, s, key, less), key, k)
         == WithKey(s, key, k) + (if key(x) == k then [x] else [])
  {
    var t := Insert(x, s[1..], key, less);
    assert Insert(x, s, key, less) == [s[0]] + t;
    WithKeyCons(s[0], t, key, k);
    WithKeyCons(s[0], s[1..], key, k);
    assert [s[0]] + s[1..] == s;
    ConsStep(s[0], t, s[1..], if key(x) == k then [x] else [], key, k);
  }

  lemma ConsStep<T, K>(y: T, t: seq<T>, u: seq<T>, b: seq<T>, key: T -> K, k: K)
    requires WithKey([y] + t, key, k) == (if key(y) == k then [y] else []) + WithKey(t, key, k)
    requires WithKey([y] + u, key, k) == (if key(y) == k then [y] else []) + WithKey(u, key, k)
    requires WithKey(t, key, k) == WithKey(u, key, k) + b
    ensures WithKey([y] + t, key, k) == WithKey([y] + u, key, k) + b
  {
  }

  /** In a sorted sequence whose head is strictly above `k`, nothing has key `k`. */
  lemma NoneWithKey<T, K(!new)>(s: seq<T>, key: T -> K, less: (K, K) -> bool, k: K)
    requires StrictOrder(less) && SortedBy(s, key, less)
    requires s != [] && less(k, key(s[0]))
    ensures WithKey(s, key, k) == []
  {
    forall y | y in s ensures key(y) != k {
      var j :| 0 <= j < |s| && s[j] == y;
      if j > 0 { assert !less(key(s[j]), key(s[0])); }
    }
    FilterMembers(s, y => key(y) == k, if WithKey(s, key, k) == [] then s[0] else WithKey(s, key, k)[0]);
  }

  /** Stability: for every key, the elements carrying it keep their relative order. */
  lemma {:induction false} SortByStable<T, K(!new)>(s: seq<T>, key: T -> K, less: (K, K) -> bool, k: K)
    requires StrictOrder(less)
    ensures WithKey(SortBy(s, key, less), key, k) == WithKey(s, key, k)
  {
    if s != [] {
      var n := |s| - 1;
      SortByStable(s[..n], key, less, k);
      SortBySorted(s[..n], key, less);
      InsertWithKey(s[n], SortBy(s[..n], key, less), key, less, k);
    }
  }

  /** No two elements share a value of `f`. */
  ghost predicate DistinctBy<T, K>(s: seq<T>, f: T -> K)
  {
    forall i, j :: 0 <= i < j < |s| ==> f(s[i]) != f(s[j])
  }

  lemma {:induction false} InsertDistinctBy<T, K, V>(x: T, s: seq<T>, key: T -> K, less: (K, K) -> bool, f: T -> V)
    requires DistinctBy(s, f) && forall y :: y in s ==> f(y) != f(x)
    ensures DistinctBy(Insert(x, s, key, less), f)
  {
    var r := Insert(x, s, key, less);
    if s == [] {
    } else if less(key(x), key(s[0])) {
      forall i, j | 0 <= i < j < |r| ensures f(r[i]) != f(r[j]) {
        assert r[j] == s[j - 1];
        if i > 0 { assert r[i] == s[i - 1]; }
      }
    } else {
      var t := Insert(x, s[1..], key, less);
      assert DistinctBy(s[1..], f) by {
        forall i, j | 0 <= i < j < |s[1..]| ensures f(s[1..][i]) != f(s[1..][j]) {
          assert s[1..][i] == s[i + 1] && s[1..][j] == s[j + 1];
        }
      }
      InsertDistinctBy(x, s[1..], key, less, f);
      InsertElements(x, s[1..], key, less);
      assert r == [s[0]] + t;
      forall i, j | 0 <= i < j < |r| ensures f(r[i]) != f(r[j]) {
        if i == 0 {
          assert r[j] == t[j - 1];
          if t[j - 1] != x {
            var k :| 0 <= k < |s[1..]| && s[1..][k] == t[j - 1];
            assert s[k + 1] == r[j];
          }
        } else {
          assert r[i] == t[i - 1] && r[j] == t[j - 1];
        }
      }
    }
  }

  /** Sorting keeps apart elements that some function tells apart. */
  lemma {:induction false} SortByDistinctBy<T, K, V>(s: seq<T>, key: T -> K, less: (K, K) -> bool, f: T -> V)
    requires DistinctBy(s, f)
    ensures DistinctBy(SortBy(s, key, less), f)
  {
    if s != [] {
      var n := |s| - 1;
      var t := SortBy(s[..n], key, less);
      assert DistinctBy(s[..n], f) by {
        forall i, j | 0 <= i < j < n ensures f(s[..n][i]) != f(s[..n][j]) {
          assert s[..n][i] == s[i] && s[..n][j] == s[j];
        }
      }
      SortByDistinctBy(s[..n], key, less, f);
      forall y | y in t ensures f(y) != f(s[n]) {
        assert y in multiset(s[..n]);
        var k :| 0 <= k < n && s[..n][k] == y;
        assert s[k] == y;
      }
      InsertDistinctBy(s[n], t, key, less, f);
      assert SortBy(s, key, less) == Insert(s[n], t, key, less);
    }
  }

  /** Sorting neither adds nor drops an element. */
  lemma SortByMembers<T, K>(s: seq<T>, key: T -> K, less: (K, K) -> bool, x: T)
    ensures x in SortBy(s, key, less) <==> x in s
  {
    assert x in SortBy(s, key, less) <==> x in multiset(SortBy(s, key, less));
    assert x in s <==> x in multiset(s);
  }

  /** Filtering by a test every element passes keeps the sequence. */
  lemma {:induction false} FilterAll<T>(s: seq<T>, keep: T -> bool)
    requires forall i :: 0 <= i < |s| ==> keep(s[i])
    ensures Filter(s, keep) == s
  {
    if s != [] {
      FilterAll(s[..|s| - 1], keep);
    }
  }

  /** Sorting changes nothing when every element carries the same key. */
  lemma SortByConstantKey<T, K(!new)>(s: seq<T>, key: T -> K, less: (K, K) -> bool, k: K)
    requires StrictOrder(less)
    requires forall i :: 0 <= i < |s| ==> key(s[i]) == k
    ensures SortBy(s, key, less) == s
  {
    var sorted := SortBy(s, key, less);
    SortByStable(s, key, less, k);
    FilterAll(s, x => key(x) == k);
    forall i | 0 <= i < |sorted| ensures key(sorted[i]) == k {
      SortByMembers(s, key, less, sorted[i]);
    }
    FilterAll(sorted, x => key(x) == k);
  }

  /** Sorting the second part of a sequence keeps its elements told apart by `f`. */
  lemma SortSecondDistinctBy<T, K, V>(a: seq<T>, b: seq<T>, key: T -> K, less: (K, K) -> bool, f: T -> V)
    requires DistinctBy(a + b, f)
    ensures DistinctBy(a + SortBy(b, key, less), f)
  {
    var sorted := SortBy(b, key, less);
    var t := a + sorted;
    assert DistinctBy(b, f) by {
      forall i, j | 0 <= i < j < |b| ensures f(b[i]) != f(b[j]) {
        assert (a + b)[|a| + i] == b[i] && (a + b)[|a| + j] == b[j];
      }
    }
    SortByDistinctBy(b, key, less, f);
    forall i, j | 0 <= i < j < |t| ensures f(t[i]) != f(t[j]) {
      if j < |a| {
        assert (a + b)[i] == t[i] && (a + b)[j] == t[j];
      } else if i >= |a| {
        assert sorted[i - |a|] == t[i] && sorted[j - |a|] == t[j];
      } else {
        var q := sorted[j - |a|];
        SortByMembers(b, key, less, q);
        var m :| 0 <= m < |b| && b[m] == q;
        assert (a + b)[i] == t[i] && (a + b)[|a| + m] == q;
      }
    }
  }

  /** The first position from `i` on whose element passes `test`, or the length. */
  function FirstWhere<T>(s: seq<T>, test: T -> bool, i: nat): (n: nat)
    requires i <= |s|
    ensures i <= n <= |s|
    ensures forall j :: i <= j < n ==> !test(s[j])
    ensures n < |s| ==> test(s[n])
    decreases |s| - i
  {
    if i == |s| || test(s[i]) then i else FirstWhere(s, test, i + 1)
  }

  /** Filtering by a test no element passes leaves nothing. */
  lemma FilterNone<T>(s: seq<T>, keep: T -> bool)
    requires forall i :: 0 <= i < |s| ==> !keep(s[i])
    ensures Filter(s, keep) == []
  {
    if Filter(s, keep) != [] {
      FilterMembers(s, keep, Filter(s, keep)[0]);
    }
  }

  /** Filtering `a + b` keeps `a` when all of `a` and none of `b` passes. */
  lemma FilterKeepsFront<T>(a: seq<T>, b: seq<T>, p: T -> bool)
    requires forall i :: 0 <= i < |a| ==> p(a[i])
    requires forall i :: 0 <= i < |b| ==> !p(b[i])
    ensures Filter(a + b, p) == a
  {
    FilterAll(a, p);
    FilterNone(b, p);
    FilterConcat(a, b, p);
    assert a + [] == a;
  }

  /** Filtering `a + b` keeps `b` when none of `a` and all of `b` passes. */
  lemma FilterKeepsBack<T>(a: seq<T>, b: seq<T>, p: T -> bool)
    requires forall i :: 0 <= i < |a| ==> !p(a[i])
    requires forall i :: 0 <= i < |b| ==> p(b[i])
    ensures Filter(a + b, p) == b
  {
    FilterNone(a, p);
    FilterAll(b, p);
    FilterConcat(a, b, p);
    assert [] + b == b;
  }

  /** A sequence whose elements up to `n` pass only `p` and whose later elements pass only `q` is its `p`-filtered part followed by its `q`-filtered part. */
  lemma SplitFilters<T>(s: seq<T>, p: T -> bool, q: T -> bool, n: nat)
    requires n <= |s|
    requires forall i :: 0 <= i < n ==> p(s[i]) && !q(s[i])
    requires forall i :: n <= i < |s| ==> q(s[i]) && !p(s[i])
    ensures Filter(s, p) + Filter(s, q) == s
  {
    var a, b := s[..n], s[n..];
    assert s == a + b;
    forall i | 0 <= i < |a| ensures p(a[i]) && !q(a[i]) {
      assert a[i] == s[i];
    }
    forall i | 0 <= i < |b| ensures q(b[i]) && !p(b[i]) {
      assert b[i] == s[n + i];
    }
    FilterKeepsFront(a, b, p);
    FilterKeepsBack(a, b, q);
  }

  /** Putting elements that pass only `p` in front keeps a sequence its `p` part followed by its `q` part. */
  lemma SplitFiltersFront<T>(a: seq<T>, rest: seq<T>, p: T -> bool, q: T -> bool)
    requires forall i :: 0 <= i < |a| ==> p(a[i]) && !q(a[i])
    requires Filter(rest, p) + Filter(rest, q) == rest
    ensures Filter(a + rest, p) + Filter(a + rest, q) == a + rest
  {
    var fp, fq := Filter(rest, p), Filter(rest, q);
    assert Filter(a + rest, p) == a + fp by {
      FilterAll(a, p);
      FilterConcat(a, rest, p);
    }
    assert Filter(a + rest, q) == fq by {
      FilterNone(a, q);
      FilterConcat(a, rest, q);
      assert [] + fq == fq;
    }
    assert a + fp + fq == a + (fp + fq);
  }
}
