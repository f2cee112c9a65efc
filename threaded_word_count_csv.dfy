/** The thread-pool engine `ThreadedWordCountMapReduce`. The map phase runs
    one task per record on a pool and the reduce phase one task per group;
    both gather the task results as they complete. The shuffle between them
    is the shared grouper (Grouper.Shuffle). Its `map_function` is the
    column-6 counter (WordClaseCsv.MapFunction; the lock only guards a
    `print`), and its `reduce_function` is the sum reducer
    (Counting.SumReduce). Each pool's completion order and the set of tasks
    whose `future.result()` raises are parameters. */
module ThreadedWordCountCsv {
  import opened Seqs
  import opened Order
  import opened Grouper
  import opened Phases
  import opened Counting
  import opened Completion
  import opened Csv
  import WordClaseCsv

  /** What `_threaded_map_phase` returns when the map tasks complete in
      `order` and the tasks in `failed` raise. */
  function ThreadedMap<K0, V0, K, V>(mapFn: (K0, V0) -> seq<(K, V)>, input: seq<(K0, V0)>,
                                     order: seq<nat>, failed: set<nat>): seq<(K, V)>
    requires IsCompletionOrder(order, |input|)
  {
    CompletionOrderInRange(order, |input|);
    Completed(MapOutputs(mapFn, input), order, failed)
  }

  /** What `_threaded_reduce_phase` returns when the reduce tasks complete
      in `order` and the tasks in `failed` raise. */
  function ThreadedReduce<K, V, K2, V2>(reduceFn: (K, seq<V>) -> seq<(K2, V2)>, groups: seq<(K, seq<V>)>,
                                        order: seq<nat>, failed: set<nat>): seq<(K2, V2)>
    requires IsCompletionOrder(order, |groups|)
  {
    CompletionOrderInRange(order, |groups|);
    Completed(ReduceOutputs(reduceFn, groups), order, failed)
  }

  /** What `execute` returns: the threaded map, the shuffle, the threaded
      reduce. */
  function ThreadedJob<K0, V0, K(==,!new), V, K2, V2>(lt: (K, K) -> bool, mapFn: (K0, V0) -> seq<(K, V)>,
                                                       reduceFn: (K, seq<V>) -> seq<(K2, V2)>, input: seq<(K0, V0)>,
                                                       mapOrder: seq<nat>, mapFailed: set<nat>,
                                                       reduceOrder: seq<nat>, reduceFailed: set<nat>): seq<(K2, V2)>
    requires IsCompletionOrder(mapOrder, |input|)
    requires IsCompletionOrder(reduceOrder, |Group(lt, ThreadedMap(mapFn, input, mapOrder, mapFailed))|)
  {
    ThreadedReduce(reduceFn, Group(lt, ThreadedMap(mapFn, input, mapOrder, mapFailed)), reduceOrder, reduceFailed)
  }

  /** `_threaded_map_phase`: submit `map_function(key, value)` for every
      record, then gather the results as they complete. */
  method ThreadedMapPhase<K0, V0, K, V>(mapFn: (K0, V0) -> seq<(K, V)>, input: seq<(K0, V0)>,
                                        order: seq<nat>, failed: set<nat>)
    returns (intermediate: seq<(K, V)>)
    requires IsCompletionOrder(order, |input|)
    ensures intermediate == ThreadedMap(mapFn, input, order, failed)
  {
    var results := MapOutputs(mapFn, input);
    CompletionOrderInRange(order, |input|);
    intermediate := Gather(results, order, failed);
  }

  /** `_threaded_reduce_phase`: submit `reduce_function(key, values)` for
      every group, then gather the results as they complete. */
  method ThreadedReducePhase<K, V, K2, V2>(reduceFn: (K, seq<V>) -> seq<(K2, V2)>, groups: seq<(K, seq<V>)>,
                                           order: seq<nat>, failed: set<nat>)
    returns (final: seq<(K2, V2)>)
    requires IsCompletionOrder(order, |groups|)
    ensures final == ThreadedReduce(reduceFn, groups, order, failed)
  {
    var results := ReduceOutputs(reduceFn, groups);
    CompletionOrderInRange(order, |groups|);
    final := Gather(results, order, failed);
  }

  /** `execute` of the column-6 counter: with no failing task the result
      holds exactly the pairs of the sequential job, in some order. */
  method Execute(parse: string -> FirstRow, input: seq<(int, string)>,
                 mapOrder: seq<nat>, mapFailed: set<nat>, reduceOrder: seq<nat>, reduceFailed: set<nat>)
    returns (final: seq<(string, int)>)
    requires IsCompletionOrder(mapOrder, |input|)
    requires IsCompletionOrder(reduceOrder, |Group(StrLess, ThreadedMap(WordClaseCsv.ColumnSixMap(parse), input, mapOrder, mapFailed))|)
    ensures final == ThreadedJob(StrLess, WordClaseCsv.ColumnSixMap(parse), SumReduce, input,
                                 mapOrder, mapFailed, reduceOrder, reduceFailed)
    ensures mapFailed == {} && reduceFailed == {} ==>
              multiset(final) == multiset(Job(StrLess, WordClaseCsv.ColumnSixMap(parse), SumReduce, input))
  {
    var intermediate := ThreadedMapPhase(WordClaseCsv.ColumnSixMap(parse), input, mapOrder, mapFailed);
    var groups := Shuffle(StrLess, intermediate);
    final := ThreadedReducePhase(SumReduce, groups, reduceOrder, reduceFailed);
    if mapFailed == {} && reduceFailed == {} {
      StrLessIsStrictTotalOrder();
      ThreadedMatchesSequential(StrLess, WordClaseCsv.ColumnSixMap(parse), input, mapOrder, reduceOrder);
    }
  }

  /** Whatever the completion order, the map phase gathers a permutation
      of the surviving records' outputs taken in record order. */
  lemma ThreadedMapPermutation<K0, V0, K, V>(mapFn: (K0, V0) -> seq<(K, V)>, input: seq<(K0, V0)>,
                                             order: seq<nat>, failed: set<nat>)
    requires IsCompletionOrder(order, |input|)
    ensures multiset(ThreadedMap(mapFn, input, order, failed))
         == multiset(Concat(Surviving(MapOutputs(mapFn, input), failed)))
  {
    CompletionOrderIrrelevant(MapOutputs(mapFn, input), order, failed);
  }

  /** With no failing task the map phase gathers a permutation of the
      sequential map phase's pairs. */
  lemma ThreadedMapNoFailure<K0, V0, K, V>(mapFn: (K0, V0) -> seq<(K, V)>, input: seq<(K0, V0)>, order: seq<nat>)
    requires IsCompletionOrder(order, |input|)
    ensures multiset(ThreadedMap(mapFn, input, order, {})) == multiset(MapAll(mapFn, input))
  {
    NoFailurePermutation(MapOutputs(mapFn, input), order);
  }

  /** A single raising map task loses exactly that record's pairs. */
  lemma ThreadedMapSingleFailure<K0, V0, K, V>(mapFn: (K0, V0) -> seq<(K, V)>, input: seq<(K0, V0)>,
                                               order: seq<nat>, t: nat)
    requires IsCompletionOrder(order, |input|) && t < |input|
    ensures multiset(ThreadedMap(mapFn, input, order, {t})) + multiset(mapFn(input[t].0, input[t].1))
         == multiset(MapAll(mapFn, input))
  {
    SingleFailure(MapOutputs(mapFn, input), order, t);
  }

  /** A single raising reduce task loses exactly the total of its group. */
  lemma ThreadedReduceSingleFailure<K>(groups: seq<(K, seq<int>)>, order: seq<nat>, t: nat)
    requires IsCompletionOrder(order, |groups|) && t < |groups|
    ensures multiset(ThreadedReduce(SumReduce, groups, order, {t})) + multiset{(groups[t].0, Sum(groups[t].1))}
         == multiset(ReduceAll(SumReduce, groups))
  {
    SingleFailure(ReduceOutputs(SumReduce, groups), order, t);
  }

  /** With the sum reducer, a single raising map task makes the whole job
      return, up to order, what the sequential job returns on the other
      records: the lost pairs never reach the shuffle, and every group's
      total is taken over the surviving records only. */
  lemma ThreadedJobSingleFailure<K0, V0, K(!new)>(lt: (K, K) -> bool, mapFn: (K0, V0) -> seq<(K, int)>,
                                                  input: seq<(K0, V0)>, order: seq<nat>, t: nat, reduceOrder: seq<nat>)
    requires StrictTotalOrder(lt)
    requires IsCompletionOrder(order, |input|) && t < |input|
    requires IsCompletionOrder(reduceOrder, |Group(lt, ThreadedMap(mapFn, input, order, {t}))|)
    ensures multiset(ThreadedJob(lt, mapFn, SumReduce, input, order, {t}, reduceOrder, {}))
         == multiset(Job(lt, mapFn, SumReduce, input[..t] + input[t + 1..]))
  {
    var a := ThreadedMap(mapFn, input, order, {t});
    var rest := input[..t] + input[t + 1..];
    ThreadedMapSingleFailure(mapFn, input, order, t);
    MapAllWithout(mapFn, input, t);
    MultisetCancel(multiset(a), multiset(MapAll(mapFn, rest)), multiset(mapFn(input[t].0, input[t].1)));
    SumReduceGroupPermutation(lt, a, MapAll(mapFn, rest));
    NoFailurePermutation(ReduceOutputs(SumReduce, Group(lt, a)), reduceOrder);
  }

  /** The sequential map output, less one record's pairs, is the map output
      of the other records. */
  lemma MapAllWithout<K0, V0, K, V>(mapFn: (K0, V0) -> seq<(K, V)>, input: seq<(K0, V0)>, t: nat)
    requires t < |input|
    ensures multiset(MapAll(mapFn, input))
         == multiset(MapAll(mapFn, input[..t] + input[t + 1..])) + multiset(mapFn(input[t].0, input[t].1))
  {
    var front := input[..t];
    var back := input[t + 1..];
    assert input == front + [input[t]] + back;
    MapAllAppend(mapFn, front + [input[t]], back);
    MapAllAppend(mapFn, front, [input[t]]);
    MapAllAppend(mapFn, front, back);
    MapAllStep(mapFn, [input[t]], 0);
    assert [input[t]][..1] == [input[t]];
    assert [input[t]][..0] == [];
  }

  /** With the sum reducer the result, as a multiset, does not depend on
      the order in which either pool completes its tasks, only on which
      tasks fail. */
  lemma ThreadedJobOrderIndependent<K0, V0, K(!new)>(lt: (K, K) -> bool, mapFn: (K0, V0) -> seq<(K, int)>,
                                                     input: seq<(K0, V0)>, mapFailed: set<nat>, reduceFailed: set<nat>,
                                                     mapOrder1: seq<nat>, reduceOrder1: seq<nat>,
                                                     mapOrder2: seq<nat>, reduceOrder2: seq<nat>)
    requires StrictTotalOrder(lt)
    requires IsCompletionOrder(mapOrder1, |input|) && IsCompletionOrder(mapOrder2, |input|)
    requires IsCompletionOrder(reduceOrder1, |Group(lt, ThreadedMap(mapFn, input, mapOrder1, mapFailed))|)
    requires IsCompletionOrder(reduceOrder2, |Group(lt, ThreadedMap(mapFn, input, mapOrder2, mapFailed))|)
    ensures multiset(ThreadedJob(lt, mapFn, SumReduce, input, mapOrder1, mapFailed, reduceOrder1, reduceFailed))
         == multiset(ThreadedJob(lt, mapFn, SumReduce, input, mapOrder2, mapFailed, reduceOrder2, reduceFailed))
  {
    var a := ThreadedMap(mapFn, input, mapOrder1, mapFailed);
    var b := ThreadedMap(mapFn, input, mapOrder2, mapFailed);
    ThreadedMapPermutation(mapFn, input, mapOrder1, mapFailed);
    ThreadedMapPermutation(mapFn, input, mapOrder2, mapFailed);
    SumReduceGroupPermutation(lt, a, b);
    var r := ReduceOutputs(SumReduce, Group(lt, a));
    CompletionOrderIrrelevant(r, reduceOrder1, reduceFailed);
    CompletionOrderIrrelevant(r, reduceOrder2, reduceFailed);
  }

  /** With the sum reducer and no failing task the threaded engine returns
      a permutation of what the sequential engine returns. */
  lemma ThreadedMatchesSequential<K0, V0, K(!new)>(lt: (K, K) -> bool, mapFn: (K0, V0) -> seq<(K, int)>,
                                                   input: seq<(K0, V0)>, mapOrder: seq<nat>, reduceOrder: seq<nat>)
    requires StrictTotalOrder(lt)
    requires IsCompletionOrder(mapOrder, |input|)
    requires IsCompletionOrder(reduceOrder, |Group(lt, ThreadedMap(mapFn, input, mapOrder, {}))|)
    ensures multiset(ThreadedJob(lt, mapFn, SumReduce, input, mapOrder, {}, reduceOrder, {}))
         == multiset(Job(lt, mapFn, SumReduce, input))
  {
    var a := ThreadedMap(mapFn, input, mapOrder, {});
    ThreadedMapNoFailure(mapFn, input, mapOrder);
    SumReduceGroupPermutation(lt, a, MapAll(mapFn, input));
    NoFailurePermutation(ReduceOutputs(SumReduce, Group(lt, a)), reduceOrder);
  }

  /** With no failing task the column-6 counter counts correctly whatever
      the completion orders: its keys are exactly the seventh-column values
      emitted, and each key's total is the number of lines that carry it. */
  lemma ThreadedColumnSixCounts(parse: string -> FirstRow, input: seq<(int, string)>,
                                mapOrder: seq<nat>, reduceOrder: seq<nat>)
    requires IsCompletionOrder(mapOrder, |input|)
    requires IsCompletionOrder(reduceOrder, |Group(StrLess, ThreadedMap(WordClaseCsv.ColumnSixMap(parse), input, mapOrder, {}))|)
    ensures forall c :: c in PairKeys(ThreadedJob(StrLess, WordClaseCsv.ColumnSixMap(parse), SumReduce, input,
                                                  mapOrder, {}, reduceOrder, {}))
                        <==> c in PairKeys(MapAll(WordClaseCsv.ColumnSixMap(parse), input))
    ensures forall p :: p in ThreadedJob(StrLess, WordClaseCsv.ColumnSixMap(parse), SumReduce, input,
                                         mapOrder, {}, reduceOrder, {}) ==>
              p.1 == multiset(PairKeys(MapAll(WordClaseCsv.ColumnSixMap(parse), input)))[p.0]
  {
    var m := WordClaseCsv.ColumnSixMap(parse);
    var t := ThreadedJob(StrLess, m, SumReduce, input, mapOrder, {}, reduceOrder, {});
    var j := Job(StrLess, m, SumReduce, input);
    StrLessIsStrictTotalOrder();
    ThreadedMatchesSequential(StrLess, m, input, mapOrder, reduceOrder);
    JobTotals(parse, input);
    PermutedJob(t, j, MapAll(m, input));
  }

  /** Each pair of `r` carries its key's count in `counts`. */
  predicate TotalsMatch<K>(r: seq<(K, int)>, counts: multiset<K>)
  {
    forall i :: 0 <= i < |r| ==> r[i].1 == counts[r[i].0]
  }

  lemma JobTotals(parse: string -> FirstRow, input: seq<(int, string)>)
    ensures forall c :: c in PairKeys(Job(StrLess, WordClaseCsv.ColumnSixMap(parse), SumReduce, input))
                        <==> c in PairKeys(MapAll(WordClaseCsv.ColumnSixMap(parse), input))
    ensures TotalsMatch(Job(StrLess, WordClaseCsv.ColumnSixMap(parse), SumReduce, input),
                        multiset(PairKeys(MapAll(WordClaseCsv.ColumnSixMap(parse), input))))
  {
    WordClaseCsv.ColumnSixJobCounts(parse, input);
  }

  /** A permutation of a correct count is a correct count. */
  lemma PermutedJob<K>(t: seq<(K, int)>, j: seq<(K, int)>, w: seq<(K, int)>)
    requires multiset(t) == multiset(j)
    requires forall c :: c in PairKeys(j) <==> c in PairKeys(w)
    requires TotalsMatch(j, multiset(PairKeys(w)))
    ensures forall c :: c in PairKeys(t) <==> c in PairKeys(w)
    ensures forall p :: p in t ==> p.1 == multiset(PairKeys(w))[p.0]
  {
    PairKeysPermutation(t, j);
    forall p | p in t ensures p.1 == multiset(PairKeys(w))[p.0] {
      assert p in multiset(j);
      var i :| 0 <= i < |j| && j[i] == p;
    }
  }
}
