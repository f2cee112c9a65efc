/** The shuffle/sort step shared by every engine: a `defaultdict(list)` filled
    in input order, then `dict(sorted(grouped_data.items()))`. A Python dict
    with ordered items is modelled as a sequence of (key, values) entries. */
module Grouper {
  import opened Seqs
  import opened Order

  /** The values emitted for key `k`, in emission order. */
  function ValuesOf<K(==), V>(pairs: seq<(K, V)>, k: K): (r: seq<V>)
  {
    if pairs == [] then []
    else ValuesOf(pairs[..|pairs| - 1], k)
         + (if pairs[|pairs| - 1].0 == k then [pairs[|pairs| - 1].1] else [])
  }

  /** The pairs whose key is `k`, in input order. */
  function WithKey<K(==), V>(pairs: seq<(K, V)>, k: K): (r: seq<(K, V)>)
  {
    if pairs == [] then []
    else WithKey(pairs[..|pairs| - 1], k)
         + (if pairs[|pairs| - 1].0 == k then [pairs[|pairs| - 1]] else [])
  }

  /** The pairs whose key is one of `keys`, in input order. */
  function Restrict<K(==), V>(pairs: seq<(K, V)>, keys: seq<K>): (r: seq<(K, V)>)
  {
    if pairs == [] then []
    else Restrict(pairs[..|pairs| - 1], keys)
         + (if pairs[|pairs| - 1].0 in keys then [pairs[|pairs| - 1]] else [])
  }

  /** The keys in the order a Python dict first sees them. */
  function KeyOrder<K(==,!new), V>(pairs: seq<(K, V)>): (keys: seq<K>)
    ensures Distinct(keys)
    ensures forall k :: k in keys <==> ValuesOf(pairs, k) != []
  {
    if pairs == [] then []
    else
      var keys := KeyOrder(pairs[..|pairs| - 1]);
      var k := pairs[|pairs| - 1].0;
      if k in keys then keys else keys + [k]
  }

  /** One entry per key of `keys`, holding that key's values. */
  function Entries<K(==), V>(pairs: seq<(K, V)>, keys: seq<K>): (r: seq<(K, seq<V>)>)
  {
    seq(|keys|, i requires 0 <= i < |keys| => (keys[i], ValuesOf(pairs, keys[i])))
  }

  /** The grouped mapping the shuffle phase returns. */
  function Group<K(==,!new), V>(lt: (K, K) -> bool, pairs: seq<(K, V)>): (r: seq<(K, seq<V>)>)
  {
    Entries(pairs, Sort(lt, KeyOrder(pairs)))
  }

  function Keys<K, V>(groups: seq<(K, seq<V>)>): (r: seq<K>)
  {
    seq(|groups|, i requires 0 <= i < |groups| => groups[i].0)
  }

  function Emit<K, V>(k: K, vs: seq<V>): (r: seq<(K, V)>)
  {
    seq(|vs|, i requires 0 <= i < |vs| => (k, vs[i]))
  }

  /** `[(k, v) for k, v_list in groups.items() for v in v_list]`. */
  function Flatten<K, V>(groups: seq<(K, seq<V>)>): (r: seq<(K, V)>)
  {
    if groups == [] then []
    else Flatten(groups[..|groups| - 1]) + Emit(groups[|groups| - 1].0, groups[|groups| - 1].1)
  }

  /** The shape of a shuffle result: strictly ascending keys, each with at
      least one value. */
  predicate WellFormed<K, V>(lt: (K, K) -> bool, groups: seq<(K, seq<V>)>)
  {
    Ascending(lt, Keys(groups)) && forall i :: 0 <= i < |groups| ==> groups[i].1 != []
  }

  /** One more pair: its value joins its key's list, and its key joins the
      key order when it is new. */
  lemma GroupingStep<K(!new), V>(pairs: seq<(K, V)>, i: nat)
    requires i < |pairs|
    ensures forall k :: ValuesOf(pairs[..i + 1], k)
                     == ValuesOf(pairs[..i], k) + (if pairs[i].0 == k then [pairs[i].1] else [])
    ensures KeyOrder(pairs[..i + 1])
         == if pairs[i].0 in KeyOrder(pairs[..i]) then KeyOrder(pairs[..i]) else KeyOrder(pairs[..i]) + [pairs[i].0]
  {
    assert pairs[..i + 1][..i] == pairs[..i];
  }

  lemma EntriesStep<K, V>(pairs: seq<(K, V)>, keys: seq<K>, j: nat)
    requires j < |keys|
    ensures Entries(pairs, keys[..j + 1]) == Entries(pairs, keys[..j]) + [(keys[j], ValuesOf(pairs, keys[j]))]
  {
  }

  /** The grouping loop and the sort, as the engines run them. */
  method Shuffle<K(==,!new), V>(lt: (K, K) -> bool, pairs: seq<(K, V)>) returns (groups: seq<(K, seq<V>)>)
    ensures groups == Group(lt, pairs)
  {
    var grouped: map<K, seq<V>> := map[];
    var order: seq<K> := [];
    var i := 0;
    while i < |pairs|
      invariant 0 <= i <= |pairs|
      invariant order == KeyOrder(pairs[..i])
      invariant forall k :: k in grouped <==> k in order
      invariant forall k :: k in grouped ==> grouped[k] == ValuesOf(pairs[..i], k)
    {
      var (key, value) := pairs[i];
      GroupingStep(pairs, i);
      if key in grouped {
        grouped := grouped[key := grouped[key] + [value]];
      } else {
        grouped := grouped[key := [value]];
        order := order + [key];
      }
      i := i + 1;
    }
    assert pairs[..i] == pairs;
    var keys := Sort(lt, order);
    groups := [];
    var j := 0;
    while j < |keys|
      invariant 0 <= j <= |keys|
      invariant groups == Entries(pairs, keys[..j])
    {
      assert keys[j] in multiset(order);
      EntriesStep(pairs, keys, j);
      groups := groups + [(keys[j], grouped[keys[j]])];
      j := j + 1;
    }
    assert keys[..j] == keys;
  }

  lemma {:induction false} ValuesOfAppend<K, V>(a: seq<(K, V)>, b: seq<(K, V)>, k: K)
    ensures ValuesOf(a + b, k) == ValuesOf(a, k) + ValuesOf(b, k)
  {
    if b == [] {
      assert a + b == a;
    } else {
      assert (a + b)[..|a + b| - 1] == a + b[..|b| - 1];
      ValuesOfAppend(a, b[..|b| - 1], k);
    }
  }

  lemma {:induction false} ValuesOfEmit<K, V>(k': K, vs: seq<V>, k: K)
    ensures ValuesOf(Emit(k', vs), k) == if k == k' then vs else []
  {
    if vs != [] {
      var vs' := vs[..|vs| - 1];
      assert Emit(k', vs)[..|vs| - 1] == Emit(k', vs');
      ValuesOfEmit(k', vs', k);
    }
  }

  /** Every key that occurs somewhere has a non-empty value list. */
  lemma {:induction false} ValuesOfOccurring<K, V>(pairs: seq<(K, V)>, i: nat)
    requires i < |pairs|
    ensures ValuesOf(pairs, pairs[i].0) != []
  {
    if i < |pairs| - 1 {
      assert pairs[..|pairs| - 1][i] == pairs[i];
      ValuesOfOccurring(pairs[..|pairs| - 1], i);
    }
  }

  /** The values of `k` are the in-order subsequence of the pairs carrying `k`. */
  lemma {:induction false} ValuesOfIsSubsequence<K, V>(pairs: seq<(K, V)>, k: K)
    ensures Emit(k, ValuesOf(pairs, k)) == WithKey(pairs, k)
  {
    if pairs != [] {
      var p := pairs[..|pairs| - 1];
      ValuesOfIsSubsequence(p, k);
      var last := if pairs[|pairs| - 1].0 == k then [pairs[|pairs| - 1].1] else [];
      assert Emit(k, ValuesOf(p, k) + last) == Emit(k, ValuesOf(p, k)) + Emit(k, last);
    }
  }

  /** Taking the pair at `i` out of `b` takes its value out of its key's list. */
  lemma ValuesOfRemove<K, V>(b: seq<(K, V)>, i: nat, k: K)
    requires i < |b|
    ensures multiset(ValuesOf(b, k))
         == multiset(ValuesOf(b[..i] + b[i + 1..], k)) + multiset(if b[i].0 == k then [b[i].1] else [])
  {
    var x := b[i];
    assert b == b[..i] + [x] + b[i + 1..];
    ValuesOfAppend(b[..i] + [x], b[i + 1..], k);
    ValuesOfAppend(b[..i], [x], k);
    ValuesOfAppend(b[..i], b[i + 1..], k);
    assert [x][..0] == [];
  }

  /** Equal multisets of pairs give equal multisets of values per key. */
  lemma {:induction false} ValuesOfMultiset<K, V>(a: seq<(K, V)>, b: seq<(K, V)>, k: K)
    requires multiset(a) == multiset(b)
    ensures multiset(ValuesOf(a, k)) == multiset(ValuesOf(b, k))
    decreases |a|
  {
    if a == [] {
      assert |b| == |multiset(b)| == 0;
    } else {
      var x := a[|a| - 1];
      var a' := a[..|a| - 1];
      assert a == a' + [x];
      assert x in multiset(b);
      var i :| 0 <= i < |b| && b[i] == x;
      var b' := b[..i] + b[i + 1..];
      assert multiset(a') == multiset(a) - multiset{x};
      MultisetRemove(b, i);
      ValuesOfMultiset(a', b', k);
      ValuesOfRemove(b, i, k);
    }
  }

  lemma {:induction false} RestrictAddKey<K, V>(pairs: seq<(K, V)>, keys: seq<K>, k: K)
    requires k !in keys
    ensures multiset(Restrict(pairs, keys + [k]))
         == multiset(Restrict(pairs, keys)) + multiset(WithKey(pairs, k))
  {
    if pairs != [] {
      RestrictAddKey(pairs[..|pairs| - 1], keys, k);
    }
  }

  lemma {:induction false} RestrictAll<K, V>(pairs: seq<(K, V)>, keys: seq<K>)
    requires forall i :: 0 <= i < |pairs| ==> pairs[i].0 in keys
    ensures Restrict(pairs, keys) == pairs
  {
    if pairs != [] {
      RestrictAll(pairs[..|pairs| - 1], keys);
    }
  }

  lemma {:induction false} FlattenEntries<K, V>(pairs: seq<(K, V)>, keys: seq<K>)
    requires Distinct(keys)
    ensures multiset(Flatten(Entries(pairs, keys))) == multiset(Restrict(pairs, keys))
  {
    if keys == [] {
      RestrictNone(pairs, keys);
    } else {
      var keys' := keys[..|keys| - 1];
      var k := keys[|keys| - 1];
      assert keys == keys' + [k];
      assert Entries(pairs, keys)[..|keys| - 1] == Entries(pairs, keys');
      FlattenEntries(pairs, keys');
      ValuesOfIsSubsequence(pairs, k);
      RestrictAddKey(pairs, keys', k);
    }
  }

  lemma {:induction false} RestrictNone<K, V>(pairs: seq<(K, V)>, keys: seq<K>)
    requires keys == []
    ensures Restrict(pairs, keys) == []
  {
    if pairs != [] {
      RestrictNone(pairs[..|pairs| - 1], keys);
    }
  }

  /** The shuffle result: keys strictly ascending and exactly the keys that
      occur, each with its full in-order value list. */
  lemma GroupIsSortedByKey<K(!new), V>(lt: (K, K) -> bool, pairs: seq<(K, V)>)
    requires StrictTotalOrder(lt)
    ensures WellFormed(lt, Group(lt, pairs))
    ensures forall k :: k in Keys(Group(lt, pairs)) <==> ValuesOf(pairs, k) != []
    ensures forall i :: 0 <= i < |Group(lt, pairs)| ==>
              Group(lt, pairs)[i].1 == ValuesOf(pairs, Group(lt, pairs)[i].0)
  {
    SortAscending(lt, KeyOrder(pairs));
    GroupKeys(lt, pairs);
    SortedKeysOccur(lt, pairs);
    GroupValuesNonEmpty(lt, pairs);
  }

  /** The keys of the grouped mapping are the sorted key order. */
  lemma GroupKeys<K(!new), V>(lt: (K, K) -> bool, pairs: seq<(K, V)>)
    ensures Keys(Group(lt, pairs)) == Sort(lt, KeyOrder(pairs))
  {
  }

  /** Every entry of the grouped mapping has at least one value. */
  lemma GroupValuesNonEmpty<K(!new), V>(lt: (K, K) -> bool, pairs: seq<(K, V)>)
    ensures forall i :: 0 <= i < |Group(lt, pairs)| ==> Group(lt, pairs)[i].1 != []
  {
    var keys := Sort(lt, KeyOrder(pairs));
    var g := Group(lt, pairs);
    SortedKeysOccur(lt, pairs);
    forall i | 0 <= i < |g| ensures g[i].1 != [] {
      assert g[i] == (keys[i], ValuesOf(pairs, keys[i]));
      assert keys[i] in keys;
    }
  }

  /** The sorted keys are exactly the keys that occur. */
  lemma SortedKeysOccur<K(!new), V>(lt: (K, K) -> bool, pairs: seq<(K, V)>)
    ensures forall k :: k in Sort(lt, KeyOrder(pairs)) <==> ValuesOf(pairs, k) != []
  {
    var keys := Sort(lt, KeyOrder(pairs));
    forall k ensures k in keys <==> k in KeyOrder(pairs) {
      assert k in keys <==> k in multiset(keys);
    }
  }

  /** Grouping is complete: flattening the groups gives back exactly the
      input pairs, as a multiset (no value dropped or duplicated). */
  lemma GroupIsComplete<K(!new), V>(lt: (K, K) -> bool, pairs: seq<(K, V)>)
    requires StrictTotalOrder(lt)
    ensures multiset(Flatten(Group(lt, pairs))) == multiset(pairs)
    ensures |Flatten(Group(lt, pairs))| == |pairs|
  {
    var keys := Sort(lt, KeyOrder(pairs));
    GroupIsSortedByKey(lt, pairs);
    assert Keys(Group(lt, pairs)) == keys;
    AscendingIsDistinct(lt, keys);
    FlattenEntries(pairs, keys);
    forall i | 0 <= i < |pairs| ensures pairs[i].0 in keys {
      ValuesOfOccurring(pairs, i);
    }
    RestrictAll(pairs, keys);
    assert |multiset(Flatten(Group(lt, pairs)))| == |multiset(pairs)|;
  }

  lemma {:induction false} ValuesOfFlattenAbsent<K, V>(groups: seq<(K, seq<V>)>, k: K)
    requires k !in Keys(groups)
    ensures ValuesOf(Flatten(groups), k) == []
  {
    if groups != [] {
      var g' := groups[..|groups| - 1];
      var last := groups[|groups| - 1];
      assert Keys(g') == Keys(groups)[..|groups| - 1];
      assert Keys(groups)[|groups| - 1] == last.0;
      ValuesOfFlattenAbsent(g', k);
      ValuesOfAppend(Flatten(g'), Emit(last.0, last.1), k);
      ValuesOfEmit(last.0, last.1, k);
    }
  }

  lemma {:induction false} ValuesOfFlattenAt<K, V>(groups: seq<(K, seq<V>)>, i: nat)
    requires Distinct(Keys(groups)) && i < |groups|
    ensures ValuesOf(Flatten(groups), groups[i].0) == groups[i].1
  {
    var g' := groups[..|groups| - 1];
    var last := groups[|groups| - 1];
    var k := groups[i].0;
    assert Keys(g') == Keys(groups)[..|groups| - 1];
    ValuesOfAppend(Flatten(g'), Emit(last.0, last.1), k);
    ValuesOfEmit(last.0, last.1, k);
    if i == |groups| - 1 {
      assert k !in Keys(g') by {
        assert forall j :: 0 <= j < |g'| ==> Keys(groups)[j] != Keys(groups)[|groups| - 1];
      }
      ValuesOfFlattenAbsent(g', k);
    } else {
      assert Keys(groups)[i] != Keys(groups)[|groups| - 1];
      assert g'[i] == groups[i];
      ValuesOfFlattenAt(g', i);
    }
  }

  /** Regrouping a flattened shuffle result gives it back unchanged. */
  lemma RegroupWellFormed<K(!new), V>(lt: (K, K) -> bool, groups: seq<(K, seq<V>)>)
    requires StrictTotalOrder(lt)
    requires WellFormed(lt, groups)
    ensures Group(lt, Flatten(groups)) == groups
  {
    var pairs := Flatten(groups);
    AscendingIsDistinct(lt, Keys(groups));
    forall k ensures ValuesOf(pairs, k) != [] <==> k in Keys(groups) {
      if k in Keys(groups) {
        var i :| 0 <= i < |groups| && Keys(groups)[i] == k;
        ValuesOfFlattenAt(groups, i);
      } else {
        ValuesOfFlattenAbsent(groups, k);
      }
    }
    GroupIsSortedByKey(lt, pairs);
    AscendingUnique(lt, Keys(Group(lt, pairs)), Keys(groups));
    forall i | 0 <= i < |groups| ensures Group(lt, pairs)[i] == groups[i] {
      assert Keys(Group(lt, pairs))[i] == Keys(groups)[i];
      ValuesOfFlattenAt(groups, i);
    }
  }

  /** Grouping is idempotent: grouping the flattened grouping changes nothing. */
  lemma GroupIdempotent<K(!new), V>(lt: (K, K) -> bool, pairs: seq<(K, V)>)
    requires StrictTotalOrder(lt)
    ensures Group(lt, Flatten(Group(lt, pairs))) == Group(lt, pairs)
  {
    GroupIsSortedByKey(lt, pairs);
    RegroupWellFormed(lt, Group(lt, pairs));
  }

  /** Reordering the input pairs leaves the grouped keys unchanged and
      changes each key's values only up to order. */
  lemma GroupPermutation<K(!new), V>(lt: (K, K) -> bool, a: seq<(K, V)>, b: seq<(K, V)>)
    requires StrictTotalOrder(lt)
    requires multiset(a) == multiset(b)
    ensures Keys(Group(lt, a)) == Keys(Group(lt, b))
    ensures |Group(lt, a)| == |Group(lt, b)|
    ensures forall i :: 0 <= i < |Group(lt, a)| ==>
              multiset(Group(lt, a)[i].1) == multiset(Group(lt, b)[i].1)
  {
    GroupIsSortedByKey(lt, a);
    GroupIsSortedByKey(lt, b);
    forall k ensures ValuesOf(a, k) != [] <==> ValuesOf(b, k) != [] {
      ValuesOfMultiset(a, b, k);
      assert |multiset(ValuesOf(a, k))| == |ValuesOf(a, k)|;
      assert |multiset(ValuesOf(b, k))| == |ValuesOf(b, k)|;
    }
    AscendingUnique(lt, Keys(Group(lt, a)), Keys(Group(lt, b)));
    assert |Group(lt, a)| == |Keys(Group(lt, a))|;
    forall i | 0 <= i < |Group(lt, a)|
      ensures multiset(Group(lt, a)[i].1) == multiset(Group(lt, b)[i].1)
    {
      assert Keys(Group(lt, a))[i] == Keys(Group(lt, b))[i];
      ValuesOfMultiset(a, b, Group(lt, a)[i].0);
    }
  }

  /** The keys of a pair list, in order. */
  function PairKeys<K, V>(pairs: seq<(K, V)>): (r: seq<K>)
  {
    seq(|pairs|, i requires 0 <= i < |pairs| => pairs[i].0)
  }

  /** Two orderings of the same pairs have the same keys. */
  lemma PairKeysPermutation<K, V>(a: seq<(K, V)>, b: seq<(K, V)>)
    requires multiset(a) == multiset(b)
    ensures forall k :: k in PairKeys(a) <==> k in PairKeys(b)
  {
    forall k | k in PairKeys(a) ensures k in PairKeys(b) {
      PairKeysMember(a, b, k);
    }
    forall k | k in PairKeys(b) ensures k in PairKeys(a) {
      PairKeysMember(b, a, k);
    }
  }

  lemma PairKeysMember<K, V>(a: seq<(K, V)>, b: seq<(K, V)>, k: K)
    requires multiset(a) == multiset(b) && k in PairKeys(a)
    ensures k in PairKeys(b)
  {
    var i :| 0 <= i < |a| && PairKeys(a)[i] == k;
    assert a[i] in multiset(b);
    var m :| 0 <= m < |b| && b[m] == a[i];
    assert PairKeys(b)[m] == k;
  }

  /** A key's value list holds one value per occurrence of the key. */
  lemma {:induction false} ValuesOfCount<K, V>(pairs: seq<(K, V)>, k: K)
    ensures |ValuesOf(pairs, k)| == multiset(PairKeys(pairs))[k]
  {
    if pairs != [] {
      var p := pairs[..|pairs| - 1];
      ValuesOfCount(p, k);
      assert PairKeys(pairs) == PairKeys(p) + [pairs[|pairs| - 1].0];
    }
  }

  /** When every pair carries the value `v`, so does every value list. */
  lemma {:induction false} ValuesOfConstant<K, V>(pairs: seq<(K, V)>, k: K, v: V)
    requires forall i :: 0 <= i < |pairs| ==> pairs[i].1 == v
    ensures forall j :: 0 <= j < |ValuesOf(pairs, k)| ==> ValuesOf(pairs, k)[j] == v
  {
    if pairs != [] {
      ValuesOfConstant(pairs[..|pairs| - 1], k, v);
    }
  }

  /** A contiguous run of a shuffle result is itself a shuffle result. */
  lemma WellFormedSlice<K, V>(lt: (K, K) -> bool, groups: seq<(K, seq<V>)>, a: nat, b: nat)
    requires WellFormed(lt, groups) && a <= b <= |groups|
    ensures WellFormed(lt, groups[a..b])
  {
    var s := groups[a..b];
    forall i, j | 0 <= i < j < |s| ensures lt(Keys(s)[i], Keys(s)[j]) {
      assert Keys(s)[i] == Keys(groups)[a + i];
      assert Keys(s)[j] == Keys(groups)[a + j];
    }
  }

  /** Cutting a shuffle result into consecutive parts leaves every part a
      shuffle result. */
  lemma WellFormedParts<K, V>(lt: (K, K) -> bool, parts: seq<seq<(K, seq<V>)>>, j: nat)
    requires WellFormed(lt, Concat(parts)) && j < |parts|
    ensures WellFormed(lt, parts[j])
  {
    ConcatSplit(parts, j);
    var a := |Concat(parts[..j])|;
    assert parts[j] == Concat(parts)[a..a + |parts[j]|];
    WellFormedSlice(lt, Concat(parts), a, a + |parts[j]|);
  }

  lemma {:induction false} FlattenAppend<K, V>(a: seq<(K, seq<V>)>, b: seq<(K, seq<V>)>)
    ensures Flatten(a + b) == Flatten(a) + Flatten(b)
  {
    if b == [] {
      assert a + b == a;
    } else {
      var p := b[..|b| - 1];
      var last := b[|b| - 1];
      assert (a + b)[..|a + b| - 1] == a + p;
      assert (a + b)[|a + b| - 1] == last;
      FlattenAppend(a, p);
      assert Flatten(a + b) == Flatten(a + p) + Emit(last.0, last.1);
      assert Flatten(b) == Flatten(p) + Emit(last.0, last.1);
    }
  }

  /** A single pair groups into a single entry. */
  lemma GroupSingle<K(!new), V>(lt: (K, K) -> bool, k: K, v: V)
    ensures Group(lt, [(k, v)]) == [(k, [v])]
  {
    var pairs := [(k, v)];
    assert pairs[..0] == [];
    assert KeyOrder(pairs) == [k];
    assert ValuesOf(pairs, k) == [v];
    assert Sort(lt, [k]) == [k] by {
      assert [k][..0] == [];
    }
  }
}
