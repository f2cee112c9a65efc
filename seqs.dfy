/** Sequence helpers shared by every phase: list concatenation (Python's
    repeated `list.extend`) and `sum` over a list of integers. */
module Seqs {

  /** The in-order concatenation of a list of lists. */
  function Concat<T>(ss: seq<seq<T>>): (r: seq<T>)
  {
    if ss == [] then [] else Concat(ss[..|ss| - 1]) + ss[|ss| - 1]
  }

  lemma {:induction false} ConcatAppend<T>(a: seq<seq<T>>, b: seq<seq<T>>)
    ensures Concat(a + b) == Concat(a) + Concat(b)
  {
    if b == [] {
      assert a + b == a;
    } else {
      assert (a + b)[..|a + b| - 1] == a + b[..|b| - 1];
      ConcatAppend(a, b[..|b| - 1]);
    }
  }

  lemma ConcatCons<T>(x: seq<T>, rest: seq<seq<T>>)
    ensures Concat([x] + rest) == x + Concat(rest)
  {
    ConcatAppend([x], rest);
    assert [x][..0] == [];
  }

  /** Concatenation around one chosen element. */
  lemma {:induction false} ConcatSplit<T>(ss: seq<seq<T>>, t: nat)
    requires t < |ss|
    ensures Concat(ss) == Concat(ss[..t]) + ss[t] + Concat(ss[t + 1..])
  {
    var front := ss[..t + 1];
    assert ss == front + ss[t + 1..];
    ConcatAppend(front, ss[t + 1..]);
    assert front[..|front| - 1] == ss[..t];
  }

  /** Python's `sum(values)`. */
  function Sum(s: seq<int>): (r: int)
  {
    if s == [] then 0 else Sum(s[..|s| - 1]) + s[|s| - 1]
  }

  lemma {:induction false} SumAppend(a: seq<int>, b: seq<int>)
    ensures Sum(a + b) == Sum(a) + Sum(b)
  {
    if b == [] {
      assert a + b == a;
    } else {
      assert (a + b)[..|a + b| - 1] == a + b[..|b| - 1];
      SumAppend(a, b[..|b| - 1]);
    }
  }

  /** A sum does not depend on the order of its terms. */
  lemma {:induction false} SumPermutation(a: seq<int>, b: seq<int>)
    requires multiset(a) == multiset(b)
    ensures Sum(a) == Sum(b)
    decreases |a|
  {
    if a == [] {
      assert |b| == |multiset(b)| == 0;
    } else {
      var x := a[|a| - 1];
      var a' := a[..|a| - 1];
      assert a == a' + [x];
      assert x in multiset(b);
      var i :| 0 <= i < |b| && b[i] == x;
      var b' := b[..i] + b[i + 1..];
      assert multiset(a') == multiset(a) - multiset{x};
      MultisetRemove(b, i);
      SumPermutation(a', b');
      SumAppend(a', [x]);
      SumRemove(b, i);
    }
  }

  /** Taking the term at `i` out of a sum. */
  lemma SumRemove(b: seq<int>, i: nat)
    requires i < |b|
    ensures Sum(b) == Sum(b[..i] + b[i + 1..]) + b[i]
  {
    assert b == b[..i] + [b[i]] + b[i + 1..];
    SumAppend(b[..i] + [b[i]], b[i + 1..]);
    SumAppend(b[..i], [b[i]]);
    SumAppend(b[..i], b[i + 1..]);
  }

  predicate AllOnes(s: seq<int>)
  {
    forall i :: 0 <= i < |s| ==> s[i] == 1
  }

  /** Summing a list of ones counts its elements. */
  lemma {:induction false} SumOfOnes(s: seq<int>)
    requires AllOnes(s)
    ensures Sum(s) == |s|
  {
    if s != [] {
      SumOfOnes(s[..|s| - 1]);
    }
  }

  /** A slice grown by the next element. */
  lemma SliceExtend<T>(s: seq<T>, a: nat, b: nat)
    requires a <= b < |s|
    ensures s[a..b + 1] == s[a..b] + [s[b]]
  {
  }

  /** A common part can be taken off both sides of a multiset equation. */
  lemma MultisetCancel<T>(a: multiset<T>, b: multiset<T>, c: multiset<T>)
    requires a + c == b + c
    ensures a == b
  {
    assert a == (a + c) - c;
    assert b == (b + c) - c;
  }

  /** Taking the element at `i` out of a sequence takes one occurrence of
      it out of the multiset. */
  lemma MultisetRemove<T>(s: seq<T>, i: nat)
    requires i < |s|
    ensures multiset(s[..i] + s[i + 1..]) == multiset(s) - multiset{s[i]}
  {
    assert s == s[..i] + [s[i]] + s[i + 1..];
  }
}
