/** The engine with simulated HDFS output. Its phases compute what the
    sequential engine computes, and on the way they cut the work into
    pieces: map chunks of two records, shuffle partitions of
    max(1, n // 3) groups and reducer batches of max(1, n // 2) groups.
    Each piece whose result is non-empty becomes one file. The files are
    returned as the payloads the engine would write. */
module SimpleMapReduceHdfs {
  import opened Seqs
  import opened Order
  import opened Grouper
  import opened Phases
  import opened Chunking

  /** Records per map chunk. */
  const ChunkSize: nat := 2

  /** Python's `max(a, b)`. */
  function Max(a: int, b: int): int
  {
    if a >= b then a else b
  }

  /** The job metadata file: the number of final pairs, the number of
      reducer batches run, and the reducers that wrote an output file. */
  datatype JobMetadata = JobMetadata(totalResults: nat, reducersUsed: nat, reducerOutputs: seq<nat>, status: string)

  // The default `map_function` is Phases.Echo.

  /** The default `reduce_function` hands each group back unreduced. */
  function ReduceFunction<K, V>(key: K, values: seq<V>): seq<(K, seq<V>)>
  {
    [(key, values)]
  }

  lemma {:induction false} ReduceAllIdentity<K, V>(groups: seq<(K, seq<V>)>)
    ensures ReduceAll(ReduceFunction, groups) == groups
  {
    if groups != [] {
      var n := |groups| - 1;
      ReduceAllIdentity(groups[..n]);
      ReduceAllStep(ReduceFunction, groups, n);
      assert groups[..n + 1] == groups;
    }
  }

  /** With both default functions the job returns the shuffle itself. */
  lemma DefaultJobIsGrouping<K(!new), V>(lt: (K, K) -> bool, input: seq<(K, V)>)
    ensures Job(lt, Echo, ReduceFunction, input) == Group(lt, input)
  {
    MapAllEcho(input);
    ReduceAllIdentity(Group(lt, input));
  }

  /** The map output of each chunk. */
  function MapEach<K0, V0, K, V>(mapFn: (K0, V0) -> seq<(K, V)>, chunks: seq<seq<(K0, V0)>>): seq<seq<(K, V)>>
  {
    seq(|chunks|, c requires 0 <= c < |chunks| => MapAll(mapFn, chunks[c]))
  }

  /** The reduce output of each batch. */
  function ReduceEach<K, V, K2, V2>(reduceFn: (K, seq<V>) -> seq<(K2, V2)>, batches: seq<seq<(K, seq<V>)>>): seq<seq<(K2, V2)>>
  {
    seq(|batches|, c requires 0 <= c < |batches| => ReduceAll(reduceFn, batches[c]))
  }

  /** The partition files' contents: each partition's groups flattened
      back to pairs. */
  function FlattenEach<K, V>(partitions: seq<seq<(K, seq<V>)>>): seq<seq<(K, V)>>
  {
    seq(|partitions|, j requires 0 <= j < |partitions| => Flatten(partitions[j]))
  }

  /** Mapping chunk by chunk gives the same pairs as mapping the whole list. */
  lemma {:induction false} MapEachConcat<K0, V0, K, V>(mapFn: (K0, V0) -> seq<(K, V)>, chunks: seq<seq<(K0, V0)>>)
    ensures Concat(MapEach(mapFn, chunks)) == MapAll(mapFn, Concat(chunks))
  {
    if chunks != [] {
      var n := |chunks| - 1;
      MapEachConcat(mapFn, chunks[..n]);
      assert MapEach(mapFn, chunks)[..n] == MapEach(mapFn, chunks[..n]);
      MapAllAppend(mapFn, Concat(chunks[..n]), chunks[n]);
    }
  }

  /** Reducing batch by batch gives the same pairs as reducing the whole
      mapping. */
  lemma {:induction false} ReduceEachConcat<K, V, K2, V2>(reduceFn: (K, seq<V>) -> seq<(K2, V2)>, batches: seq<seq<(K, seq<V>)>>)
    ensures Concat(ReduceEach(reduceFn, batches)) == ReduceAll(reduceFn, Concat(batches))
  {
    if batches != [] {
      var n := |batches| - 1;
      ReduceEachConcat(reduceFn, batches[..n]);
      assert ReduceEach(reduceFn, batches)[..n] == ReduceEach(reduceFn, batches[..n]);
      ReduceAllAppend(reduceFn, Concat(batches[..n]), batches[n]);
    }
  }

  /** The partition files together hold the flattened groups. */
  lemma {:induction false} FlattenEachConcat<K, V>(partitions: seq<seq<(K, seq<V>)>>)
    ensures Concat(FlattenEach(partitions)) == Flatten(Concat(partitions))
  {
    if partitions != [] {
      var n := |partitions| - 1;
      FlattenEachConcat(partitions[..n]);
      assert FlattenEach(partitions)[..n] == FlattenEach(partitions[..n]);
      FlattenAppend(Concat(partitions[..n]), partitions[n]);
    }
  }

  /** Multiplication by a natural number keeps the order. */
  lemma MulMonotonic(a: nat, b: nat, q: nat)
    requires a <= b
    ensures a * q <= b * q
  {
  }

  /** The partition size `max(1, n // 3)` makes one partition per group
      below six groups and at most four from six on: not always the three
      partitions the code's comment speaks of. */
  lemma PartitionCount<T>(groups: seq<T>)
    ensures |groups| < 6 ==> |Chunks(groups, Max(1, |groups| / 3))| == |groups|
    ensures |groups| >= 6 ==> |Chunks(groups, Max(1, |groups| / 3))| <= 4
  {
    var n := |groups|;
    var size := Max(1, n / 3);
    var c := |Chunks(groups, size)|;
    ChunksCount(groups, size);
    if n >= 6 && c > 4 {
      assert size == n / 3 && size >= 2 && n < 3 * size + 3;
      MulMonotonic(4, c - 1, size);
      assert false;
    }
  }

  /** The batch size `max(1, n // 2)` makes at most three reducers, and one
      per group for up to three groups. */
  lemma ReducerCount<T>(groups: seq<T>)
    ensures |Chunks(groups, Max(1, |groups| / 2))| <= 3
    ensures |groups| <= 3 ==> |Chunks(groups, Max(1, |groups| / 2))| == |groups|
  {
    var n := |groups|;
    var size := Max(1, n / 2);
    var c := |Chunks(groups, size)|;
    ChunksCount(groups, size);
    if n >= 2 && c > 3 {
      assert size == n / 2 && size >= 1 && n < 2 * size + 2;
      MulMonotonic(3, c - 1, size);
      assert false;
    }
  }

  /** The inner loop of `_map_phase`: `map_function` on each record of
      one chunk, results in record order. */
  method RunMapper<K0, V0, K, V>(mapFn: (K0, V0) -> seq<(K, V)>, chunk: seq<(K0, V0)>) returns (chunkResults: seq<(K, V)>)
    ensures chunkResults == MapAll(mapFn, chunk)
  {
    chunkResults := [];
    var j := 0;
    while j < |chunk|
      invariant 0 <= j <= |chunk|
      invariant chunkResults == MapAll(mapFn, chunk[..j])
    {
      var (key, value) := chunk[j];
      var mapped := mapFn(key, value);
      MapAllStep(mapFn, chunk, j);
      chunkResults := chunkResults + mapped;
      j := j + 1;
    }
    assert chunk[..j] == chunk;
  }

  /** The inner loop of `_reduce_phase`: `reduce_function` on each key of
      one batch with the values the grouped mapping holds for it. */
  method RunReducer<K, V, K2, V2>(reduceFn: (K, seq<V>) -> seq<(K2, V2)>, batch: seq<K>, batchGroups: seq<(K, seq<V>)>)
    returns (reducerResults: seq<(K2, V2)>)
    requires batch == Keys(batchGroups)
    ensures reducerResults == ReduceAll(reduceFn, batchGroups)
  {
    reducerResults := [];
    var j := 0;
    while j < |batch|
      invariant 0 <= j <= |batch|
      invariant reducerResults == ReduceAll(reduceFn, batchGroups[..j])
    {
      var key := batch[j];
      // `grouped_data[key]`: the keys are distinct, so it is the entry at this position
      var values := batchGroups[j].1;
      var reduced := reduceFn(key, values);
      ReduceAllStep(reduceFn, batchGroups, j);
      reducerResults := reducerResults + reduced;
      j := j + 1;
    }
    assert batchGroups[..j] == batchGroups;
  }

  /** The chunk files hold, in order, all the map output, none of them is
      empty, and there are at most ceil(n / 2) of them. */
  lemma ChunkFiles<K0, V0, K, V>(mapFn: (K0, V0) -> seq<(K, V)>, input: seq<(K0, V0)>)
    ensures Concat(NonEmpty(MapEach(mapFn, Chunks(input, ChunkSize)))) == MapAll(mapFn, input)
    ensures forall j :: 0 <= j < |NonEmpty(MapEach(mapFn, Chunks(input, ChunkSize)))| ==>
              NonEmpty(MapEach(mapFn, Chunks(input, ChunkSize)))[j] != []
    ensures |NonEmpty(MapEach(mapFn, Chunks(input, ChunkSize)))| <= (|input| + 1) / 2
  {
    var chunks := Chunks(input, ChunkSize);
    ChunksCover(input, ChunkSize);
    MapEachConcat(mapFn, chunks);
    NonEmptyConcat(MapEach(mapFn, chunks));
    NonEmptyPositions(MapEach(mapFn, chunks));
  }

  /** `_map_phase`: the records in chunks of two, `map_function` on each
      record; a chunk with a non-empty result is written as one file and
      counted in `chunkNum`. */
  method MapPhase<K0, V0, K, V>(mapFn: (K0, V0) -> seq<(K, V)>, input: seq<(K0, V0)>)
    returns (intermediate: seq<(K, V)>, chunkFiles: seq<seq<(K, V)>>, chunkNum: nat)
    ensures intermediate == MapAll(mapFn, input)
    ensures chunkFiles == NonEmpty(MapEach(mapFn, Chunks(input, ChunkSize)))
    ensures chunkNum == |chunkFiles|
  {
    intermediate := [];
    chunkFiles := [];
    chunkNum := 0;
    var i := 0;
    ghost var k := 0;
    while i < |input|
      invariant 0 <= i <= |input|
      invariant i == k * ChunkSize || i == |input|
      invariant intermediate == MapAll(mapFn, input[..i])
      invariant chunkFiles == NonEmpty(MapEach(mapFn, Chunks(input[..i], ChunkSize)))
      invariant chunkNum == |chunkFiles|
    {
      // `range(0, len(input_data), 2)` and the slice `input_data[i:i + 2]`
      var end := if i + ChunkSize <= |input| then i + ChunkSize else |input|;
      var chunk := input[i..end];
      // `intermediate_results` is extended record by record alongside
      // `chunk_results`; extending it by the chunk's results at the end
      // gives the same list
      var chunkResults := RunMapper(mapFn, chunk);
      intermediate := intermediate + chunkResults;
      MapChunkStep(mapFn, input, k, i, end, chunkResults);
      if chunkResults != [] {
        chunkFiles := chunkFiles + [chunkResults];
        chunkNum := chunkNum + 1;
      }
      i := end;
      k := k + 1;
    }
    assert input[..i] == input;
  }

  /** Each partition file, grouped again, gives back its partition, and
      the files together hold every intermediate pair. */
  lemma PartitionFilesRegroup<K(!new), V>(lt: (K, K) -> bool, intermediate: seq<(K, V)>, size: nat)
    requires StrictTotalOrder(lt) && size >= 1
    ensures forall j :: 0 <= j < |Chunks(Group(lt, intermediate), size)| ==>
              Group(lt, FlattenEach(Chunks(Group(lt, intermediate), size))[j]) == Chunks(Group(lt, intermediate), size)[j]
    ensures multiset(Concat(FlattenEach(Chunks(Group(lt, intermediate), size)))) == multiset(intermediate)
  {
    var groups := Group(lt, intermediate);
    var partitions := Chunks(groups, size);
    ChunksConcat(groups, size);
    GroupIsSortedByKey(lt, intermediate);
    forall j | 0 <= j < |partitions| ensures Group(lt, FlattenEach(partitions)[j]) == partitions[j] {
      WellFormedParts(lt, partitions, j);
      RegroupWellFormed(lt, partitions[j]);
    }
    FlattenEachConcat(partitions);
    GroupIsComplete(lt, intermediate);
  }

  /** One partition of `_shuffle_phase`: a partition closed at `end` is
      the next chunk, its file the flattening of it, and a full one ends a
      whole number of chunks. */
  lemma PartitionStep<K, V>(groups: seq<(K, seq<V>)>, size: nat, partitions: seq<seq<(K, seq<V>)>>,
                            current: seq<(K, seq<V>)>, start: nat, end: nat)
    requires size >= 1 && start == |partitions| * size && start < end <= |groups| && end - start <= size
    requires partitions == Chunks(groups[..start], size) && current == groups[start..end]
    ensures partitions + [current] == Chunks(groups[..end], size)
    ensures FlattenEach(partitions) + [Flatten(current)] == FlattenEach(partitions + [current])
    ensures end - start == size ==> end == (|partitions| + 1) * size
  {
    ChunksStep(groups, size, |partitions|, start, end);
  }

  /** `_shuffle_phase`: the shared grouper, then the sorted groups cut into
      partitions of `max(1, n // 3)` groups, each written as the flat list
      of its pairs. */
  method ShufflePhase<K(==,!new), V>(lt: (K, K) -> bool, intermediate: seq<(K, V)>)
    returns (groups: seq<(K, seq<V>)>, partitionSize: nat, partitions: seq<seq<(K, seq<V>)>>, partitionFiles: seq<seq<(K, V)>>)
    ensures groups == Group(lt, intermediate)
    ensures partitionSize == Max(1, |groups| / 3)
    ensures partitions == Chunks(groups, partitionSize)
    ensures partitionFiles == FlattenEach(partitions)
  {
    groups := Shuffle(lt, intermediate);
    partitionSize := Max(1, |groups| / 3);
    partitions, partitionFiles := WritePartitions(groups, partitionSize);
  }

  /** The partition loop of `_shuffle_phase`: groups are added to the
      current partition, which is written out once it holds `size` groups
      or the last group has been added. */
  method WritePartitions<K, V>(groups: seq<(K, seq<V>)>, size: nat)
    returns (partitions: seq<seq<(K, seq<V>)>>, partitionFiles: seq<seq<(K, V)>>)
    requires size >= 1
    ensures partitions == Chunks(groups, size)
    ensures partitionFiles == FlattenEach(partitions)
  {
    var n := |groups|;
    partitions := [];
    partitionFiles := [];
    var current := [];
    ghost var start := 0;
    var i := 0;
    while i < n
      invariant 0 <= start <= i <= n && i == start + |current|
      invariant |current| < size
      invariant start == |partitions| * size || (start == n && current == [])
      invariant current == groups[start..i]
      invariant i == n ==> current == []
      invariant partitions == Chunks(groups[..start], size)
      invariant partitionFiles == FlattenEach(partitions)
    {
      SliceExtend(groups, start, i);
      current := current + [groups[i]];
      if |current| >= size || i == n - 1 {
        PartitionStep(groups, size, partitions, current, start, i + 1);
        partitions := partitions + [current];
        partitionFiles := partitionFiles + [Flatten(current)];
        current := [];
        start := i + 1;
      }
      i := i + 1;
    }
    assert groups[..n] == groups;
  }

  /** The pieces whose output is written hold, in order, all the output,
      and each is written under a distinct, increasing piece number. */
  lemma ReducerFiles<K, V, K2, V2>(reduceFn: (K, seq<V>) -> seq<(K2, V2)>, batches: seq<seq<(K, seq<V>)>>)
    ensures Concat(NonEmpty(ReduceEach(reduceFn, batches))) == ReduceAll(reduceFn, Concat(batches))
    ensures forall j :: 0 <= j < |NonEmpty(ReduceEach(reduceFn, batches))| ==> NonEmpty(ReduceEach(reduceFn, batches))[j] != []
    ensures |NonEmptyIndices(ReduceEach(reduceFn, batches))| == |NonEmpty(ReduceEach(reduceFn, batches))|
    ensures forall j :: 0 <= j < |NonEmptyIndices(ReduceEach(reduceFn, batches))| ==> NonEmptyIndices(ReduceEach(reduceFn, batches))[j] < |batches|
    ensures forall j, l :: 0 <= j < l < |NonEmptyIndices(ReduceEach(reduceFn, batches))| ==>
              NonEmptyIndices(ReduceEach(reduceFn, batches))[j] < NonEmptyIndices(ReduceEach(reduceFn, batches))[l]
  {
    ReduceEachConcat(reduceFn, batches);
    NonEmptyConcat(ReduceEach(reduceFn, batches));
    NonEmptyPositions(ReduceEach(reduceFn, batches));
  }

  /** One batch of `_reduce_phase`: the batch is the next chunk, its
      output the next entry of ReduceEach, and its number the next one. */
  lemma ReduceBatchStep<K, V, K2, V2>(reduceFn: (K, seq<V>) -> seq<(K2, V2)>, groups: seq<(K, seq<V>)>,
                                      size: nat, k: nat, i: nat, end: nat, results: seq<(K2, V2)>)
    requires size >= 1 && i == k * size && i < |groups|
    requires end == (if i + size <= |groups| then i + size else |groups|)
    requires k == |Chunks(groups[..i], size)|
    requires results == ReduceAll(reduceFn, groups[i..end])
    ensures |Chunks(groups[..end], size)| == k + 1
    ensures end == (k + 1) * size || end == |groups|
    ensures ReduceAll(reduceFn, groups[..end]) == ReduceAll(reduceFn, groups[..i]) + results
    ensures NonEmpty(ReduceEach(reduceFn, Chunks(groups[..end], size)))
         == NonEmpty(ReduceEach(reduceFn, Chunks(groups[..i], size))) + (if results != [] then [results] else [])
    ensures NonEmptyIndices(ReduceEach(reduceFn, Chunks(groups[..end], size)))
         == NonEmptyIndices(ReduceEach(reduceFn, Chunks(groups[..i], size))) + (if results != [] then [k] else [])
  {
    assert (k + 1) * size == i + size;
    assert groups[..end] == groups[..i] + groups[i..end];
    ReduceAllAppend(reduceFn, groups[..i], groups[i..end]);
    ChunksStep(groups, size, k, i, end);
    ReduceEachSnoc(reduceFn, Chunks(groups[..i], size), groups[i..end]);
    NonEmptySnoc(ReduceEach(reduceFn, Chunks(groups[..i], size)), results);
  }

  lemma ReduceEachSnoc<K, V, K2, V2>(reduceFn: (K, seq<V>) -> seq<(K2, V2)>, batches: seq<seq<(K, seq<V>)>>, batch: seq<(K, seq<V>)>)
    ensures ReduceEach(reduceFn, batches + [batch]) == ReduceEach(reduceFn, batches) + [ReduceAll(reduceFn, batch)]
  {
  }

  lemma MapEachSnoc<K0, V0, K, V>(mapFn: (K0, V0) -> seq<(K, V)>, chunks: seq<seq<(K0, V0)>>, chunk: seq<(K0, V0)>)
    ensures MapEach(mapFn, chunks + [chunk]) == MapEach(mapFn, chunks) + [MapAll(mapFn, chunk)]
  {
  }

  /** One chunk of `_map_phase`, in the same terms. */
  lemma MapChunkStep<K0, V0, K, V>(mapFn: (K0, V0) -> seq<(K, V)>, input: seq<(K0, V0)>,
                                   k: nat, i: nat, end: nat, results: seq<(K, V)>)
    requires i == k * ChunkSize && i < |input|
    requires end == (if i + ChunkSize <= |input| then i + ChunkSize else |input|)
    requires results == MapAll(mapFn, input[i..end])
    ensures end == (k + 1) * ChunkSize || end == |input|
    ensures MapAll(mapFn, input[..end]) == MapAll(mapFn, input[..i]) + results
    ensures NonEmpty(MapEach(mapFn, Chunks(input[..end], ChunkSize)))
         == NonEmpty(MapEach(mapFn, Chunks(input[..i], ChunkSize))) + (if results != [] then [results] else [])
  {
    assert (k + 1) * ChunkSize == i + ChunkSize;
    assert input[..end] == input[..i] + input[i..end];
    MapAllAppend(mapFn, input[..i], input[i..end]);
    ChunksStep(input, ChunkSize, k, i, end);
    MapEachSnoc(mapFn, Chunks(input[..i], ChunkSize), input[i..end]);
    NonEmptySnoc(MapEach(mapFn, Chunks(input[..i], ChunkSize)), results);
  }

  /** `_reduce_phase`: the groups in batches of `max(1, n // 2)`,
      `reduce_function` on each group; a batch with a non-empty result is
      written as one reducer file; every batch counts in `reducerNum`; the
      metadata records the totals. */
  method ReducePhase<K, V, K2, V2>(reduceFn: (K, seq<V>) -> seq<(K2, V2)>, groups: seq<(K, seq<V>)>)
    returns (final: seq<(K2, V2)>, batchSize: nat, reducerNum: nat, reducerFiles: seq<seq<(K2, V2)>>, metadata: JobMetadata)
    ensures final == ReduceAll(reduceFn, groups)
    ensures batchSize == Max(1, |groups| / 2)
    ensures reducerNum == |Chunks(groups, batchSize)|
    ensures reducerFiles == NonEmpty(ReduceEach(reduceFn, Chunks(groups, batchSize)))
    ensures metadata == JobMetadata(|final|, reducerNum, NonEmptyIndices(ReduceEach(reduceFn, Chunks(groups, batchSize))), "COMPLETED")
  {
    var keys := Keys(groups);
    batchSize := Max(1, |keys| / 2);
    var reducerOutputs;
    final, reducerNum, reducerFiles, reducerOutputs := RunReducers(reduceFn, groups, keys, batchSize);
    metadata := JobMetadata(|final|, reducerNum, reducerOutputs, "COMPLETED");
  }

  /** The batch loop of `_reduce_phase`. */
  method RunReducers<K, V, K2, V2>(reduceFn: (K, seq<V>) -> seq<(K2, V2)>, groups: seq<(K, seq<V>)>, keys: seq<K>, batchSize: nat)
    returns (final: seq<(K2, V2)>, reducerNum: nat, reducerFiles: seq<seq<(K2, V2)>>, reducerOutputs: seq<nat>)
    requires keys == Keys(groups) && batchSize >= 1
    ensures final == ReduceAll(reduceFn, groups)
    ensures reducerNum == |Chunks(groups, batchSize)|
    ensures reducerFiles == NonEmpty(ReduceEach(reduceFn, Chunks(groups, batchSize)))
    ensures reducerOutputs == NonEmptyIndices(ReduceEach(reduceFn, Chunks(groups, batchSize)))
  {
    final := [];
    reducerNum := 0;
    reducerFiles := [];
    reducerOutputs := [];
    var i := 0;
    while i < |keys|
      invariant 0 <= i <= |keys|
      invariant reducerNum == |Chunks(groups[..i], batchSize)|
      invariant i == reducerNum * batchSize || i == |keys|
      invariant final == ReduceAll(reduceFn, groups[..i])
      invariant reducerFiles == NonEmpty(ReduceEach(reduceFn, Chunks(groups[..i], batchSize)))
      invariant reducerOutputs == NonEmptyIndices(ReduceEach(reduceFn, Chunks(groups[..i], batchSize)))
    {
      var end := if i + batchSize <= |keys| then i + batchSize else |keys|;
      var batch := keys[i..end];
      // `final_results` is extended key by key alongside `reducer_results`;
      // extending it by the batch's results at the end gives the same list
      assert batch == Keys(groups[i..end]);
      var reducerResults := RunReducer(reduceFn, batch, groups[i..end]);
      final := final + reducerResults;
      ReduceBatchStep(reduceFn, groups, batchSize, reducerNum, i, end, reducerResults);
      if reducerResults != [] {
        reducerFiles := reducerFiles + [reducerResults];
        reducerOutputs := reducerOutputs + [reducerNum];
      }
      reducerNum := reducerNum + 1;
      i := end;
    }
    assert groups[..i] == groups;
  }

  /** `execute`: map, shuffle and reduce, in that order. */
  method Execute<K0, V0, K(==,!new), V, K2, V2>(lt: (K, K) -> bool, mapFn: (K0, V0) -> seq<(K, V)>,
                                                reduceFn: (K, seq<V>) -> seq<(K2, V2)>, input: seq<(K0, V0)>)
    returns (final: seq<(K2, V2)>)
    requires StrictTotalOrder(lt)
    ensures final == Job(lt, mapFn, reduceFn, input)
  {
    var intermediate, chunkFiles, chunkNum := MapPhase(mapFn, input);
    var groups, partitionSize, partitions, partitionFiles := ShufflePhase(lt, intermediate);
    var result, batchSize, reducerNum, reducerFiles, metadata := ReducePhase(reduceFn, groups);
    final := result;
  }
}
