/** The meaning of the sequential map and reduce phases: one user-function
    call per record (per group), outputs concatenated in call order. The
    engines' loops are proved against these functions, and `Job` is what
    `execute` computes: map, then shuffle, then reduce. */
module Phases {
  import opened Seqs
  import opened Grouper

  /** The output of each `map_function(key, value)` call, record by record. */
  function MapOutputs<K0, V0, K, V>(mapFn: (K0, V0) -> seq<(K, V)>, records: seq<(K0, V0)>): seq<seq<(K, V)>>
  {
    seq(|records|, i requires 0 <= i < |records| => mapFn(records[i].0, records[i].1))
  }

  /** The output of each `reduce_function(key, values)` call, group by group. */
  function ReduceOutputs<K, V, K2, V2>(reduceFn: (K, seq<V>) -> seq<(K2, V2)>, groups: seq<(K, seq<V>)>): seq<seq<(K2, V2)>>
  {
    seq(|groups|, i requires 0 <= i < |groups| => reduceFn(groups[i].0, groups[i].1))
  }

  /** The intermediate list of the sequential map phase. */
  function MapAll<K0, V0, K, V>(mapFn: (K0, V0) -> seq<(K, V)>, records: seq<(K0, V0)>): seq<(K, V)>
  {
    Concat(MapOutputs(mapFn, records))
  }

  /** The final list of the sequential reduce phase. */
  function ReduceAll<K, V, K2, V2>(reduceFn: (K, seq<V>) -> seq<(K2, V2)>, groups: seq<(K, seq<V>)>): seq<(K2, V2)>
  {
    Concat(ReduceOutputs(reduceFn, groups))
  }

  /** `execute(input)`: reduce over the shuffle of the map output. */
  function Job<K0, V0, K(==,!new), V, K2, V2>(lt: (K, K) -> bool, mapFn: (K0, V0) -> seq<(K, V)>,
                                               reduceFn: (K, seq<V>) -> seq<(K2, V2)>, input: seq<(K0, V0)>): seq<(K2, V2)>
  {
    ReduceAll(reduceFn, Group(lt, MapAll(mapFn, input)))
  }

  lemma MapAllStep<K0, V0, K, V>(mapFn: (K0, V0) -> seq<(K, V)>, records: seq<(K0, V0)>, i: nat)
    requires i < |records|
    ensures MapAll(mapFn, records[..i + 1]) == MapAll(mapFn, records[..i]) + mapFn(records[i].0, records[i].1)
  {
    assert MapOutputs(mapFn, records[..i + 1])[..i] == MapOutputs(mapFn, records[..i]);
  }

  lemma ReduceAllStep<K, V, K2, V2>(reduceFn: (K, seq<V>) -> seq<(K2, V2)>, groups: seq<(K, seq<V>)>, i: nat)
    requires i < |groups|
    ensures ReduceAll(reduceFn, groups[..i + 1]) == ReduceAll(reduceFn, groups[..i]) + reduceFn(groups[i].0, groups[i].1)
  {
    assert ReduceOutputs(reduceFn, groups[..i + 1])[..i] == ReduceOutputs(reduceFn, groups[..i]);
  }

  lemma MapAllAppend<K0, V0, K, V>(mapFn: (K0, V0) -> seq<(K, V)>, a: seq<(K0, V0)>, b: seq<(K0, V0)>)
    ensures MapAll(mapFn, a + b) == MapAll(mapFn, a) + MapAll(mapFn, b)
  {
    assert MapOutputs(mapFn, a + b) == MapOutputs(mapFn, a) + MapOutputs(mapFn, b);
    ConcatAppend(MapOutputs(mapFn, a), MapOutputs(mapFn, b));
  }

  lemma ReduceAllAppend<K, V, K2, V2>(reduceFn: (K, seq<V>) -> seq<(K2, V2)>, a: seq<(K, seq<V>)>, b: seq<(K, seq<V>)>)
    ensures ReduceAll(reduceFn, a + b) == ReduceAll(reduceFn, a) + ReduceAll(reduceFn, b)
  {
    assert ReduceOutputs(reduceFn, a + b) == ReduceOutputs(reduceFn, a) + ReduceOutputs(reduceFn, b);
    ConcatAppend(ReduceOutputs(reduceFn, a), ReduceOutputs(reduceFn, b));
  }

  /** The default `map_function` of both sequential engines: the record
      itself, as a one-pair list. */
  function Echo<K, V>(key: K, value: V): seq<(K, V)>
  {
    [(key, value)]
  }

  /** Mapping with the default function hands the input on unchanged. */
  lemma {:induction false} MapAllEcho<K, V>(input: seq<(K, V)>)
    ensures MapAll(Echo, input) == input
  {
    if input != [] {
      var n := |input| - 1;
      MapAllEcho(input[..n]);
      MapAllStep(Echo, input, n);
      assert input[..n + 1] == input;
    }
  }
}
