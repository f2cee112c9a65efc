/** The sum reducer every word-count job uses:
    `reduce_function(key, values)` returns `[(key, sum(values))]`. */
module Counting {
  import opened Seqs
  import opened Order
  import opened Grouper
  import opened Phases

  function SumReduce<K>(key: K, values: seq<int>): (r: seq<(K, int)>)
  {
    [(key, Sum(values))]
  }

  /** On a list of ones the reducer counts the list. */
  lemma SumReduceCounts<K>(key: K, values: seq<int>)
    requires AllOnes(values)
    ensures SumReduce(key, values) == [(key, |values|)]
  {
    SumOfOnes(values);
  }

  /** The reducer's result does not depend on the order of the values. */
  lemma SumReduceOrderIndependent<K>(key: K, a: seq<int>, b: seq<int>)
    requires multiset(a) == multiset(b)
    ensures SumReduce(key, a) == SumReduce(key, b)
  {
    SumPermutation(a, b);
  }

  /** Reducing with the sum reducer gives exactly one (key, total) pair per
      group, in group order. */
  lemma {:induction false} SumReduceAll<K>(groups: seq<(K, seq<int>)>)
    ensures |ReduceAll(SumReduce, groups)| == |groups|
    ensures forall i :: 0 <= i < |groups| ==> ReduceAll(SumReduce, groups)[i] == (groups[i].0, Sum(groups[i].1))
  {
    if groups != [] {
      var n := |groups| - 1;
      SumReduceAll(groups[..n]);
      ReduceAllStep(SumReduce, groups, n);
      assert groups[..n + 1] == groups;
    }
  }

  /** Grouping and summing each group totals every key: the keys come out
      strictly ascending, they are exactly the keys that occur, and each
      total is the sum of that key's values. */
  lemma SummingShuffle<K(!new)>(lt: (K, K) -> bool, pairs: seq<(K, int)>)
    requires StrictTotalOrder(lt)
    ensures Ascending(lt, PairKeys(ReduceAll(SumReduce, Group(lt, pairs))))
    ensures forall k :: k in PairKeys(ReduceAll(SumReduce, Group(lt, pairs))) <==> k in PairKeys(pairs)
    ensures forall i :: 0 <= i < |ReduceAll(SumReduce, Group(lt, pairs))| ==>
              ReduceAll(SumReduce, Group(lt, pairs))[i].1 == Sum(ValuesOf(pairs, ReduceAll(SumReduce, Group(lt, pairs))[i].0))
  {
    var g := Group(lt, pairs);
    var r := ReduceAll(SumReduce, g);
    SumReduceKeys(g);
    GroupIsSortedByKey(lt, pairs);
    KeysOccur(pairs);
    SumReduceAll(g);
    forall i | 0 <= i < |r| ensures r[i].1 == Sum(ValuesOf(pairs, r[i].0)) {
      assert r[i] == (g[i].0, Sum(g[i].1));
    }
  }

  /** The sum reducer keeps the keys of the groups, in order. */
  lemma SumReduceKeys<K>(groups: seq<(K, seq<int>)>)
    ensures PairKeys(ReduceAll(SumReduce, groups)) == Keys(groups)
  {
    SumReduceAll(groups);
  }

  /** A key has values exactly when it occurs among the pairs. */
  lemma KeysOccur<K, V>(pairs: seq<(K, V)>)
    ensures forall k :: ValuesOf(pairs, k) != [] <==> k in PairKeys(pairs)
  {
    forall k ensures ValuesOf(pairs, k) != [] <==> k in PairKeys(pairs) {
      ValuesOfCount(pairs, k);
    }
  }

  /** Grouping pairs that all carry the count 1 and summing each group
      counts every key: the keys come out strictly ascending, they are
      exactly the keys that occur, and each total is the number of times
      its key occurs. */
  lemma CountingShuffle<K(!new)>(lt: (K, K) -> bool, pairs: seq<(K, int)>)
    requires StrictTotalOrder(lt)
    requires forall i :: 0 <= i < |pairs| ==> pairs[i].1 == 1
    ensures Ascending(lt, PairKeys(ReduceAll(SumReduce, Group(lt, pairs))))
    ensures forall k :: k in PairKeys(ReduceAll(SumReduce, Group(lt, pairs))) <==> k in PairKeys(pairs)
    ensures forall i :: 0 <= i < |ReduceAll(SumReduce, Group(lt, pairs))| ==>
              ReduceAll(SumReduce, Group(lt, pairs))[i].1 == multiset(PairKeys(pairs))[ReduceAll(SumReduce, Group(lt, pairs))[i].0]
  {
    var r := ReduceAll(SumReduce, Group(lt, pairs));
    SummingShuffle(lt, pairs);
    forall i | 0 <= i < |r| ensures r[i].1 == multiset(PairKeys(pairs))[r[i].0] {
      var k := r[i].0;
      ValuesOfConstant(pairs, k, 1);
      SumOfOnes(ValuesOf(pairs, k));
      ValuesOfCount(pairs, k);
    }
  }

  /** Summing every group does not depend on the order of the pairs that
      were grouped: any permutation of them yields the same (key, total)
      lists, group by group. */
  lemma SumReduceGroupPermutation<K(!new)>(lt: (K, K) -> bool, a: seq<(K, int)>, b: seq<(K, int)>)
    requires StrictTotalOrder(lt)
    requires multiset(a) == multiset(b)
    ensures ReduceOutputs(SumReduce, Group(lt, a)) == ReduceOutputs(SumReduce, Group(lt, b))
  {
    var ga := Group(lt, a);
    var gb := Group(lt, b);
    GroupPermutation(lt, a, b);
    forall i | 0 <= i < |ga| ensures SumReduce(ga[i].0, ga[i].1) == SumReduce(gb[i].0, gb[i].1) {
      assert ga[i].0 == Keys(ga)[i] && gb[i].0 == Keys(gb)[i];
      SumPermutation(ga[i].1, gb[i].1);
    }
  }
}
