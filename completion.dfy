/** Result aggregation of the thread-pool phases without the threads. The
    pool runs one task per record (map) or per group (reduce); `as_completed`
    hands the finished tasks back in some order, and a task whose
    `future.result()` raises is logged and skipped. Here that order is an
    explicit permutation `order` of the task indices, and the raising tasks
    are an explicit set `failed`. */
module Completion {
  import opened Seqs

  /** The task indices 0, 1, ..., n - 1 in submission order. */
  function Tasks(n: nat): seq<nat>
  {
    seq(n, i requires 0 <= i < n => i)
  }

  /** `order` hands back every one of the `n` submitted tasks exactly once. */
  predicate IsCompletionOrder(order: seq<nat>, n: nat)
  {
    multiset(order) == multiset(Tasks(n))
  }

  predicate InRange(order: seq<nat>, n: nat)
  {
    forall j :: 0 <= j < |order| ==> order[j] < n
  }

  /** What task `t` adds to the gathered list when it completes. */
  function Contribution<T>(outputs: seq<seq<T>>, t: nat, failed: set<nat>): seq<T>
    requires t < |outputs|
  {
    if t in failed then [] else outputs[t]
  }

  /** What the aggregation loop has gathered once the tasks of `order` have
      completed: each successful task's whole output, in completion order. */
  function Completed<T>(outputs: seq<seq<T>>, order: seq<nat>, failed: set<nat>): seq<T>
    requires InRange(order, |outputs|)
  {
    if order == [] then []
    else Completed(outputs, order[..|order| - 1], failed) + Contribution(outputs, order[|order| - 1], failed)
  }

  /** The task outputs in submission order, with a failed task's output
      replaced by nothing. */
  function Surviving<T>(outputs: seq<seq<T>>, failed: set<nat>): seq<seq<T>>
  {
    seq(|outputs|, i requires 0 <= i < |outputs| => if i in failed then [] else outputs[i])
  }

  lemma CompletionOrderInRange(order: seq<nat>, n: nat)
    requires IsCompletionOrder(order, n)
    ensures InRange(order, n) && |order| == n
  {
    forall j | 0 <= j < |order| ensures order[j] < n {
      assert order[j] in multiset(order);
      assert order[j] in multiset(Tasks(n));
    }
    assert |order| == |multiset(order)| == |multiset(Tasks(n))| == n;
  }

  lemma {:induction false} CompletedAppend<T>(outputs: seq<seq<T>>, a: seq<nat>, b: seq<nat>, failed: set<nat>)
    requires InRange(a, |outputs|) && InRange(b, |outputs|)
    ensures InRange(a + b, |outputs|)
    ensures Completed(outputs, a + b, failed) == Completed(outputs, a, failed) + Completed(outputs, b, failed)
  {
    InRangeAppend(a, b, |outputs|);
    if b == [] {
      assert a + b == a;
    } else {
      assert (a + b)[..|a + b| - 1] == a + b[..|b| - 1];
      CompletedAppend(outputs, a, b[..|b| - 1], failed);
    }
  }

  lemma InRangeAppend(a: seq<nat>, b: seq<nat>, n: nat)
    requires InRange(a, n) && InRange(b, n)
    ensures InRange(a + b, n)
  {
  }

  /** One more completed task adds its contribution at the end. */
  lemma CompletedStep<T>(outputs: seq<seq<T>>, order: seq<nat>, failed: set<nat>, j: nat)
    requires InRange(order, |outputs|) && j < |order|
    ensures InRange(order[..j], |outputs|) && InRange(order[..j + 1], |outputs|)
    ensures Completed(outputs, order[..j + 1], failed)
         == Completed(outputs, order[..j], failed) + Contribution(outputs, order[j], failed)
  {
    assert order[..j + 1][..j] == order[..j];
  }

  /** The aggregation loop `for future in as_completed(...)`: the result of
      each task is taken in completion order; a task whose result raises is
      skipped, one that returns has its whole list appended. */
  method Gather<T>(outputs: seq<seq<T>>, order: seq<nat>, failed: set<nat>) returns (gathered: seq<T>)
    requires InRange(order, |outputs|)
    ensures gathered == Completed(outputs, order, failed)
  {
    gathered := [];
    var j := 0;
    while j < |order|
      invariant 0 <= j <= |order|
      invariant InRange(order[..j], |outputs|)
      invariant gathered == Completed(outputs, order[..j], failed)
    {
      var t := order[j];
      CompletedStep(outputs, order, failed, j);
      if t !in failed {
        gathered := gathered + outputs[t];
      }
      j := j + 1;
    }
    assert order[..j] == order;
  }

  /** Each task's output lands in one contiguous block, at the point where
      the task completes. */
  lemma CompletedContiguous<T>(outputs: seq<seq<T>>, order: seq<nat>, failed: set<nat>, j: nat)
    requires InRange(order, |outputs|) && j < |order|
    ensures Completed(outputs, order, failed)
         == Completed(outputs, order[..j], failed)
            + Contribution(outputs, order[j], failed)
            + Completed(outputs, order[j + 1..], failed)
  {
    assert order == order[..j] + [order[j]] + order[j + 1..];
    CompletedAppend(outputs, order[..j] + [order[j]], order[j + 1..], failed);
    CompletedAppend(outputs, order[..j], [order[j]], failed);
    assert [order[j]][..0] == [];
  }

  /** Failed tasks contribute nothing: the result is what it would be had
      they returned an empty list. */
  lemma {:induction false} FailedContributeNothing<T>(outputs: seq<seq<T>>, order: seq<nat>, failed: set<nat>)
    requires InRange(order, |outputs|)
    ensures Completed(outputs, order, failed) == Completed(Surviving(outputs, failed), order, {})
  {
    if order != [] {
      FailedContributeNothing(outputs, order[..|order| - 1], failed);
    }
  }

  /** Taking task `q[i]` out of the order takes exactly its contribution
      out of the gathered pairs. */
  lemma CompletedRemove<T>(outputs: seq<seq<T>>, q: seq<nat>, i: nat, failed: set<nat>)
    requires InRange(q, |outputs|) && i < |q|
    ensures InRange(q[..i] + q[i + 1..], |outputs|)
    ensures multiset(Completed(outputs, q, failed))
         == multiset(Completed(outputs, q[..i] + q[i + 1..], failed)) + multiset(Contribution(outputs, q[i], failed))
  {
    CompletedContiguous(outputs, q, failed, i);
    CompletedAppend(outputs, q[..i], q[i + 1..], failed);
  }

  /** The gathered pairs, as a multiset, depend only on which tasks
      completed, not on the order in which they did. */
  lemma {:induction false} CompletedMultiset<T>(outputs: seq<seq<T>>, p: seq<nat>, q: seq<nat>, failed: set<nat>)
    requires InRange(p, |outputs|) && InRange(q, |outputs|)
    requires multiset(p) == multiset(q)
    ensures multiset(Completed(outputs, p, failed)) == multiset(Completed(outputs, q, failed))
    decreases |p|
  {
    if p == [] {
      assert |q| == |multiset(q)| == 0;
    } else {
      var x := p[|p| - 1];
      var p' := p[..|p| - 1];
      assert p == p' + [x];
      assert x in multiset(q);
      var i :| 0 <= i < |q| && q[i] == x;
      var q' := q[..i] + q[i + 1..];
      assert multiset(p') == multiset(p) - multiset{x};
      MultisetRemove(q, i);
      CompletedRemove(outputs, q, i, failed);
      CompletedMultiset(outputs, p', q', failed);
    }
  }

  lemma {:induction false} CompletedTasks<T>(outputs: seq<seq<T>>, n: nat, failed: set<nat>)
    requires n <= |outputs|
    ensures InRange(Tasks(n), |outputs|)
    ensures Completed(outputs, Tasks(n), failed) == Concat(Surviving(outputs[..n], failed))
  {
    if n > 0 {
      assert Tasks(n)[..n - 1] == Tasks(n - 1);
      assert Surviving(outputs[..n], failed)[..n - 1] == Surviving(outputs[..n - 1], failed);
      CompletedTasks(outputs, n - 1, failed);
    }
  }

  /** Whatever the completion order, the gathered pairs are a permutation of
      the surviving tasks' outputs concatenated in submission order. */
  lemma CompletionOrderIrrelevant<T>(outputs: seq<seq<T>>, order: seq<nat>, failed: set<nat>)
    requires IsCompletionOrder(order, |outputs|)
    ensures InRange(order, |outputs|)
    ensures multiset(Completed(outputs, order, failed)) == multiset(Concat(Surviving(outputs, failed)))
  {
    CompletionOrderInRange(order, |outputs|);
    CompletedTasks(outputs, |outputs|, failed);
    assert outputs[..|outputs|] == outputs;
    CompletedMultiset(outputs, order, Tasks(|outputs|), failed);
  }

  /** With no failures the gathered pairs are a permutation of the
      sequential concatenation. */
  lemma NoFailurePermutation<T>(outputs: seq<seq<T>>, order: seq<nat>)
    requires IsCompletionOrder(order, |outputs|)
    ensures InRange(order, |outputs|)
    ensures multiset(Completed(outputs, order, {})) == multiset(Concat(outputs))
  {
    CompletionOrderIrrelevant(outputs, order, {});
    assert Surviving(outputs, {}) == outputs;
  }

  lemma {:induction false} SurvivingOne<T>(outputs: seq<seq<T>>, t: nat)
    requires t < |outputs|
    ensures Concat(outputs) == Concat(Surviving(outputs, {t})[..t]) + outputs[t] + Concat(Surviving(outputs, {t})[t + 1..])
    ensures Concat(Surviving(outputs, {t})) == Concat(Surviving(outputs, {t})[..t]) + Concat(Surviving(outputs, {t})[t + 1..])
  {
    var s := Surviving(outputs, {t});
    assert s[..t] == outputs[..t];
    assert s[t + 1..] == outputs[t + 1..];
    ConcatSplit(outputs, t);
    ConcatSplit(s, t);
  }

  /** A single failing task drops exactly its own output and nothing else. */
  lemma {:induction false} SingleFailure<T>(outputs: seq<seq<T>>, order: seq<nat>, t: nat)
    requires IsCompletionOrder(order, |outputs|) && t < |outputs|
    ensures InRange(order, |outputs|)
    ensures multiset(Completed(outputs, order, {t})) + multiset(outputs[t]) == multiset(Concat(outputs))
  {
    CompletionOrderIrrelevant(outputs, order, {t});
    SurvivingOne(outputs, t);
  }
}
