/**
  Grouping a sequence by a key, as `_merge_cross_page_programs` fills its
  `program_groups` dict: a dict keeps its keys in insertion order, so the
  groups come out in the order in which their keys first appear, and each
  group keeps its elements in input order. Reading an element's key may
  fail (`Raised`) or give no key (`None`: the element is skipped).
 */
module Grouping {
  import opened Values
  import opened Seqs

  /** The key of an element whose key could be read; a failed read counts as no key. */
  function Known<T, K>(read: T -> Result<Option<K>>): T -> Option<K>
  {
    x => match read(x) case Ok(o) => o case Raised => None
  }

  /** Every element's key can be read. */
  predicate AllRead<T, K>(xs: seq<T>, read: T -> Result<Option<K>>)
  {
    forall i :: 0 <= i < |xs| ==> read(xs[i]).Ok?
  }

  /** The keys of the kept elements, one per element, in input order. */
  function KeySeq<T, K>(xs: seq<T>, key: T -> Option<K>): seq<K>
  {
    if xs == [] then []
    else
      var n := |xs| - 1;
      match key(xs[n])
      case Some(k) => KeySeq(xs[..n], key) + [k]
      case None => KeySeq(xs[..n], key)
  }

  /** A key is listed exactly when some element has it. */
  lemma {:induction false} KeySeqMembers<T, K>(xs: seq<T>, key: T -> Option<K>, k: K)
    ensures k in KeySeq(xs, key) <==> exists i :: 0 <= i < |xs| && key(xs[i]) == Some(k)
  {
    if xs != [] {
      var n := |xs| - 1;
      KeySeqMembers(xs[..n], key, k);
      if exists i :: 0 <= i < |xs| && key(xs[i]) == Some(k) {
        var i :| 0 <= i < |xs| && key(xs[i]) == Some(k);
        if i < n { assert xs[..n][i] == xs[i]; }
      }
      if exists i :: 0 <= i < n && key(xs[..n][i]) == Some(k) {
        var i :| 0 <= i < n && key(xs[..n][i]) == Some(k);
        assert xs[..n][i] == xs[i];
      }
    }
  }

  /** The distinct keys in order of first appearance: the key order of the dict. */
  function GroupKeys<T, K(==, !new)>(xs: seq<T>, key: T -> Option<K>): (ks: seq<K>)
    ensures Distinct(ks)
    ensures forall k :: k in ks <==> exists i :: 0 <= i < |xs| && key(xs[i]) == Some(k)
  {
    var ks := KeySeq(xs, key);
    forall k { KeySeqMembers(xs, key, k); }
    Dedupe(ks)
  }

  /** The group of key `k`: the elements with that key, in input order. */
  function GroupOf<T, K(==)>(xs: seq<T>, key: T -> Option<K>, k: K): seq<T>
  {
    Filter(xs, (x: T) => key(x) == Some(k))
  }

  /** Two elements with different keys make two groups of one element each, in input order. */
  lemma TwoKeys<T, K(!new)>(x0: T, x1: T, key: T -> Option<K>, a: K, b: K)
    requires key(x0) == Some(a) && key(x1) == Some(b) && a != b
    ensures GroupKeys([x0, x1], key) == [a, b]
    ensures GroupOf([x0, x1], key, a) == [x0] && GroupOf([x0, x1], key, b) == [x1]
  {
    var xs := [x0, x1];
    assert xs[..1] == [x0] && xs[..1][..0] == [];
    assert KeySeq([x0], key) == KeySeq([], key) + [a];
    assert KeySeq(xs, key) == KeySeq([x0], key) + [b];
    assert [a, b][..1] == [a] && [a][..0] == [];
    var inA := (x: T) => key(x) == Some(a);
    var inB := (x: T) => key(x) == Some(b);
    assert Filter([x0], inA) == [x0] && Filter([x0], inB) == [];
    assert Filter(xs, inA) == Filter([x0], inA) + [];
    assert Filter(xs, inB) == Filter([x0], inB) + [x1];
  }

  /** An element is in the group of `k` exactly when it has key `k`. */
  lemma GroupOfMembers<T, K>(xs: seq<T>, key: T -> Option<K>, k: K, x: T)
    ensures x in GroupOf(xs, key, k) <==> x in xs && key(x) == Some(k)
  {
    FilterMembers(xs, (x: T) => key(x) == Some(k), x);
  }

  /** Every listed key has a non-empty group. */
  lemma GroupNonEmpty<T, K(!new)>(xs: seq<T>, key: T -> Option<K>, k: K)
    requires k in GroupKeys(xs, key)
    ensures GroupOf(xs, key, k) != []
  {
    var i :| 0 <= i < |xs| && key(xs[i]) == Some(k);
    GroupOfMembers(xs, key, k, xs[i]);
  }

  /** A key that is not listed has an empty group. */
  lemma GroupOfNone<T, K(!new)>(xs: seq<T>, key: T -> Option<K>, k: K)
    requires k !in GroupKeys(xs, key)
    ensures GroupOf(xs, key, k) == []
  {
    if GroupOf(xs, key, k) != [] {
      var x := GroupOf(xs, key, k)[0];
      GroupOfMembers(xs, key, k, x);
    }
  }

  /** One more element extends the key order by its key, if that key is new. */
  lemma GroupKeysStep<T, K(!new)>(xs: seq<T>, key: T -> Option<K>, i: nat)
    requires i < |xs|
    ensures GroupKeys(xs[..i + 1], key)
        == match key(xs[i])
           case None => GroupKeys(xs[..i], key)
           case Some(k) =>
             if k in GroupKeys(xs[..i], key) then GroupKeys(xs[..i], key)
             else GroupKeys(xs[..i], key) + [k]
  {
    var front := xs[..i + 1];
    assert front[..i] == xs[..i];
    var ks := KeySeq(front, key);
    if key(xs[i]).Some? {
      assert ks[..|ks| - 1] == KeySeq(xs[..i], key);
    }
  }

  /** One more element is appended to the group of its own key and to no other. */
  lemma GroupOfStep<T, K>(xs: seq<T>, key: T -> Option<K>, i: nat, k: K)
    requires i < |xs|
    ensures GroupOf(xs[..i + 1], key, k)
      == GroupOf(xs[..i], key, k) + (if key(xs[i]) == Some(k) then [xs[i]] else [])
  {
    assert xs[..i + 1][..i] == xs[..i];
  }

  /** After the first `i` elements, `order` lists their keys in order of first appearance and `groups` maps each listed key to its group. */
  ghost predicate Grouped<T, K(!new)>(xs: seq<T>, key: T -> Option<K>, i: nat, order: seq<K>, groups: map<K, seq<T>>)
    requires i <= |xs|
  {
    order == GroupKeys(xs[..i], key)
    && (forall k :: k in groups <==> k in order)
    && (forall k :: k in groups ==> groups[k] == GroupOf(xs[..i], key, k))
  }

  /** Appending element `i` to the group of its key, creating that group and listing the key when it is new, keeps the grouping. */
  lemma GroupedStep<T, K(!new)>(xs: seq<T>, key: T -> Option<K>, i: nat, order: seq<K>, groups: map<K, seq<T>>,
                                order': seq<K>, groups': map<K, seq<T>>)
    requires i < |xs| && Grouped(xs, key, i, order, groups)
    requires order' == match key(xs[i])
      case None => order
      case Some(k) => if k in groups then order else order + [k]
    requires groups' == match key(xs[i])
      case None => groups
      case Some(k) => groups[k := (if k in groups then groups[k] else []) + [xs[i]]]
    ensures Grouped(xs, key, i + 1, order', groups')
  {
    OrderStep(xs, key, i, order, groups, order', groups');
    GroupsStep(xs, key, i, order, groups, groups');
  }

  /** The key part of `GroupedStep`: the updated order lists the keys one element further, and the updated map has exactly those keys. */
  lemma OrderStep<T, K(!new)>(xs: seq<T>, key: T -> Option<K>, i: nat, order: seq<K>, groups: map<K, seq<T>>,
                              order': seq<K>, groups': map<K, seq<T>>)
    requires i < |xs| && order == GroupKeys(xs[..i], key) && (forall k :: k in groups <==> k in order)
    requires order' == match key(xs[i])
      case None => order
      case Some(k) => if k in groups then order else order + [k]
    requires groups' == match key(xs[i])
      case None => groups
      case Some(k) => groups[k := (if k in groups then groups[k] else []) + [xs[i]]]
    ensures order' == GroupKeys(xs[..i + 1], key)
    ensures forall k :: k in groups' <==> k in order'
  {
    GroupKeysStep(xs, key, i);
  }

  /** The groups part of `GroupedStep`: each group of the updated map is the group of its key one element further. */
  lemma GroupsStep<T, K(!new)>(xs: seq<T>, key: T -> Option<K>, i: nat, order: seq<K>, groups: map<K, seq<T>>,
                               groups': map<K, seq<T>>)
    requires i < |xs| && Grouped(xs, key, i, order, groups)
    requires groups' == match key(xs[i])
      case None => groups
      case Some(k) => groups[k := (if k in groups then groups[k] else []) + [xs[i]]]
    ensures forall k :: k in groups' ==> groups'[k] == GroupOf(xs[..i + 1], key, k)
  {
    forall k | k in groups'
      ensures groups'[k] == GroupOf(xs[..i + 1], key, k)
    {
      GroupOfStep(xs, key, i, k);
      if key(xs[i]) == Some(k) && k !in groups {
        GroupOfNone(xs[..i], key, k);
      }
    }
  }

  /** One more readable key keeps every key read. */
  lemma AllReadStep<T, K>(xs: seq<T>, read: T -> Result<Option<K>>, i: nat)
    requires i < |xs| && AllRead(xs[..i], read) && read(xs[i]).Ok?
    ensures AllRead(xs[..i + 1], read)
  {
    assert forall j :: 0 <= j < i ==> xs[..i + 1][j] == xs[..i][j];
  }

  /** The grouping loop: one pass that appends each element to the group of its key, creating the group when the key is new; `None` as soon as a key cannot be read. */
  method GroupBy<T, K(==, !new)>(xs: seq<T>, read: T -> Result<Option<K>>)
    returns (r: Option<(seq<K>, map<K, seq<T>>)>)
    ensures r.None? <==> !AllRead(xs, read)
    ensures r.Some? ==>
      var (order, groups) := r.value;
      order == GroupKeys(xs, Known(read))
      && (forall k :: k in groups <==> k in order)
      && (forall k :: k in groups ==> groups[k] == GroupOf(xs, Known(read), k))
  {
    ghost var key := Known(read);
    var order: seq<K> := [];
    var groups: map<K, seq<T>> := map[];
    var i := 0;
    while i < |xs|
      invariant 0 <= i <= |xs|
      invariant AllRead(xs[..i], read)
      invariant Grouped(xs, key, i, order, groups)
    {
      var x := xs[i];
      var read_x := read(x);
      if read_x.Raised? {
        assert xs[..i + 1][i] == x;
        return None;
      }
      assert key(x) == read_x.value;
      ghost var (order0, groups0) := (order, groups);
      if read_x.value.Some? {
        var k := read_x.value.value;
        if k !in groups {
          groups := groups[k := []];
          order := order + [k];
        }
        groups := groups[k := groups[k] + [x]];
        assert groups == groups0[k := (if k in groups0 then groups0[k] else []) + [x]];
      }
      GroupedStep(xs, key, i, order0, groups0, order, groups);
      AllReadStep(xs, read, i);
      i := i + 1;
    }
    assert xs[..i] == xs;
    return Some((order, groups));
  }

  /** The merge loop over the groups of `keys`, in order, where `merge` merges one group and may give nothing or raise. */
  function MergeGroups<T, K(==), U>(xs: seq<T>, key: T -> Option<K>, keys: seq<K>,
                                merge: seq<T> -> Result<Option<U>>): Result<seq<U>>
  {
    if keys == [] then Ok([])
    else match MergeGroups(xs, key, keys[..|keys| - 1], merge)
      case Raised => Raised
      case Ok(front) =>
        match merge(GroupOf(xs, key, keys[|keys| - 1]))
        case Raised => Raised
        case Ok(None) => Ok(front)
        case Ok(Some(m)) => Ok(front + [m])
  }

  /** The merge loop over two keys whose groups both merge to a result gives those two results, in key order. */
  lemma MergeTwo<T, K, U>(xs: seq<T>, key: T -> Option<K>, keys: seq<K>, merge: seq<T> -> Result<Option<U>>)
    requires |keys| == 2
    requires merge(GroupOf(xs, key, keys[0])).Ok? && merge(GroupOf(xs, key, keys[0])).value.Some?
    requires merge(GroupOf(xs, key, keys[1])).Ok? && merge(GroupOf(xs, key, keys[1])).value.Some?
    ensures MergeGroups(xs, key, keys, merge).Ok? && |MergeGroups(xs, key, keys, merge).value| == 2
    ensures merge(GroupOf(xs, key, keys[0])) == Ok(Some(MergeGroups(xs, key, keys, merge).value[0]))
    ensures merge(GroupOf(xs, key, keys[1])) == Ok(Some(MergeGroups(xs, key, keys, merge).value[1]))
  {
    assert forall j :: 0 <= j < |keys| ==> keys[j] == keys[0] || keys[j] == keys[1];
    MergeGroupsOnePerKey(xs, key, keys, merge);
  }

  /** When `merge` gives a result for every group, the merge loop raises exactly when one group does, and otherwise gives one result per key, each merged from its own group. */
  lemma {:induction false} MergeGroupsOnePerKey<T, K, U>(xs: seq<T>, key: T -> Option<K>, keys: seq<K>,
                                                         merge: seq<T> -> Result<Option<U>>)
    requires forall j :: 0 <= j < |keys| ==> merge(GroupOf(xs, key, keys[j])) != Ok(None)
    ensures var r := MergeGroups(xs, key, keys, merge);
      (r.Raised? <==> exists j :: 0 <= j < |keys| && merge(GroupOf(xs, key, keys[j])).Raised?)
      && (r.Ok? ==>
            |r.value| == |keys|
            && forall j :: 0 <= j < |keys| ==> merge(GroupOf(xs, key, keys[j])) == Ok(Some(r.value[j])))
  {
    if keys != [] {
      var n := |keys| - 1;
      var front := keys[..n];
      assert forall j :: 0 <= j < n ==> front[j] == keys[j];
      MergeGroupsOnePerKey(xs, key, front, merge);
    }
  }

  /** The merge loop: merges the group of each key of `order` in turn, keeping the results that are present and stopping at the first group whose merge raises. */
  method MergeEach<T, K(==), U>(ghost xs: seq<T>, ghost key: T -> Option<K>, order: seq<K>, groups: map<K, seq<T>>,
                                merge: seq<T> -> Result<Option<U>>) returns (r: Result<seq<U>>)
    requires forall k :: k in order ==> k in groups && groups[k] == GroupOf(xs, key, k)
    ensures r == MergeGroups(xs, key, order, merge)
  {
    var merged: seq<U> := [];
    var j := 0;
    while j < |order|
      invariant 0 <= j <= |order|
      invariant MergeGroups(xs, key, order[..j], merge) == Ok(merged)
    {
      assert order[..j + 1][..j] == order[..j];
      var m := merge(groups[order[j]]);
      if m.Raised? {
        MergeGroupsRaised(xs, key, order, merge, j + 1);
        return Raised;
      }
      if m.value.Some? {
        merged := merged + [m.value.value];
      }
      j := j + 1;
    }
    assert order[..j] == order;
    r := Ok(merged);
  }

  /** Once the merge loop has raised on a prefix of the keys, it raises on all of them. */
  lemma {:induction false} MergeGroupsRaised<T, K, U>(xs: seq<T>, key: T -> Option<K>, keys: seq<K>,
                                                      merge: seq<T> -> Result<Option<U>>, n: nat)
    requires n <= |keys| && MergeGroups(xs, key, keys[..n], merge).Raised?
    ensures MergeGroups(xs, key, keys, merge).Raised?
    decreases |keys| - n
  {
    if n < |keys| {
      assert keys[..n + 1][..n] == keys[..n];
      MergeGroupsRaised(xs, key, keys, merge, n + 1);
    } else {
      assert keys[..n] == keys;
    }
  }

  /** The elements that are the first with their key, in input order: the `seen` set loop of `_deduplicate_instructors`. */
  function FirstOfEach<T, K(==)>(xs: seq<T>, key: T -> Option<K>): seq<T>
  {
    if xs == [] then []
    else
      var n := |xs| - 1;
      var front := FirstOfEach(xs[..n], key);
      match key(xs[n])
      case None => front
      case Some(k) => if k in KeySeq(xs[..n], key) then front else front + [xs[n]]
  }

  /** One more element is kept exactly when its key is new. */
  lemma FirstOfEachStep<T, K(!new)>(xs: seq<T>, key: T -> Option<K>, i: nat)
    requires i < |xs|
    ensures FirstOfEach(xs[..i + 1], key)
        == match key(xs[i])
           case None => FirstOfEach(xs[..i], key)
           case Some(k) =>
             if k in GroupKeys(xs[..i], key) then FirstOfEach(xs[..i], key)
             else FirstOfEach(xs[..i], key) + [xs[i]]
  {
    assert xs[..i + 1][..i] == xs[..i];
    if key(xs[i]).Some? {
      KeySeqMembers(xs[..i], key, key(xs[i]).value);
    }
  }

  /** Keeping the first element of each key gives, for each key in order of first appearance, the head of its group. */
  lemma {:induction false} FirstOfEachGroups<T, K(!new)>(xs: seq<T>, key: T -> Option<K>)
    ensures var keys := GroupKeys(xs, key);
      |FirstOfEach(xs, key)| == |keys|
      && forall j :: 0 <= j < |keys| ==>
           GroupOf(xs, key, keys[j]) != [] && FirstOfEach(xs, key)[j] == GroupOf(xs, key, keys[j])[0]
  {
    if xs != [] {
      var n := |xs| - 1;
      FirstOfEachGroupsPrefix(xs, key, n);
      assert xs[..n + 1] == xs;
    }
  }

  /** The step of `FirstOfEachGroups`, stated on the prefix of length `n + 1`. */
  lemma {:induction false} FirstOfEachGroupsPrefix<T, K(!new)>(xs: seq<T>, key: T -> Option<K>, n: nat)
    requires n < |xs|
    ensures var keys := GroupKeys(xs[..n + 1], key);
      |FirstOfEach(xs[..n + 1], key)| == |keys|
      && forall j :: 0 <= j < |keys| ==>
           GroupOf(xs[..n + 1], key, keys[j]) != []
           && FirstOfEach(xs[..n + 1], key)[j] == GroupOf(xs[..n + 1], key, keys[j])[0]
    decreases n
  {
    var before := GroupKeys(xs[..n], key);
    var front := FirstOfEach(xs[..n], key);
    if n > 0 {
      FirstOfEachGroupsPrefix(xs, key, n - 1);
      assert xs[..n - 1 + 1] == xs[..n];
    }
    assert |front| == |before|;
    assert forall j :: 0 <= j < |before| ==>
      GroupOf(xs[..n], key, before[j]) != [] && front[j] == GroupOf(xs[..n], key, before[j])[0];
    GroupKeysStep(xs, key, n);
    FirstOfEachStep(xs, key, n);
    var keys := GroupKeys(xs[..n + 1], key);
    var kept := FirstOfEach(xs[..n + 1], key);
    forall j | 0 <= j < |keys|
      ensures GroupOf(xs[..n + 1], key, keys[j]) != [] && kept[j] == GroupOf(xs[..n + 1], key, keys[j])[0]
    {
      GroupOfStep(xs, key, n, keys[j]);
      if j < |before| {
        assert keys[j] == before[j] && kept[j] == front[j];
      } else {
        GroupOfNone(xs[..n], key, keys[j]);
      }
    }
  }

  /** The kept elements carry the keys in order of first appearance: no two share a key, and every key of the input is kept. */
  lemma FirstOfEachKeys<T, K(!new)>(xs: seq<T>, key: T -> Option<K>)
    ensures var out := FirstOfEach(xs, key);
      var keys := GroupKeys(xs, key);
      |out| == |keys|
      && (forall j :: 0 <= j < |keys| ==> key(out[j]) == Some(keys[j]))
      && (forall j1, j2 :: 0 <= j1 < j2 < |out| ==> key(out[j1]) != key(out[j2]))
      && (forall i :: 0 <= i < |xs| && key(xs[i]).Some? ==>
            exists j :: 0 <= j < |out| && key(out[j]) == key(xs[i]))
  {
    var out := FirstOfEach(xs, key);
    var keys := GroupKeys(xs, key);
    FirstOfEachGroups(xs, key);
    forall j | 0 <= j < |keys|
      ensures key(out[j]) == Some(keys[j])
    {
      GroupOfMembers(xs, key, keys[j], out[j]);
    }
    forall i | 0 <= i < |xs| && key(xs[i]).Some?
      ensures exists j :: 0 <= j < |out| && key(out[j]) == key(xs[i])
    {
      var j :| 0 <= j < |keys| && keys[j] == key(xs[i]).value;
      assert key(out[j]) == Some(keys[j]);
    }
  }

  /** The `seen` set loop: keeps an element when its key is new, and records the key; `None` as soon as a key cannot be read. */
  method KeepFirstOfEach<T, K(==, !new)>(xs: seq<T>, read: T -> Result<Option<K>>) returns (r: Option<seq<T>>)
    ensures r.None? <==> !AllRead(xs, read)
    ensures r.Some? ==> r.value == FirstOfEach(xs, Known(read))
  {
    ghost var key := Known(read);
    var unique: seq<T> := [];
    var seen: set<K> := {};
    var i := 0;
    while i < |xs|
      invariant 0 <= i <= |xs|
      invariant AllRead(xs[..i], read)
      invariant unique == FirstOfEach(xs[..i], key)
      invariant forall k :: k in seen <==> k in KeySeq(xs[..i], key)
    {
      var x := xs[i];
      var read_x := read(x);
      if read_x.Raised? {
        return None;
      }
      assert key(x) == read_x.value;
      assert xs[..i + 1][..i] == xs[..i];
      assert forall j :: 0 <= j < i ==> xs[..i + 1][j] == xs[..i][j];
      if read_x.value.Some? && read_x.value.value !in seen {
        seen := seen + {read_x.value.value};
        unique := unique + [x];
      }
      i := i + 1;
    }
    assert xs[..i] == xs;
    return Some(unique);
  }
}
