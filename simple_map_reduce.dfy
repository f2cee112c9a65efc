/** The pure-Python sequential engine. Its map phase does not call
    `map_function`: it runs the word tokenizer inline. Its reduce phase does
    not call `reduce_function`: it sums inline. `execute` is therefore a
    word count whatever a subclass overrides; `ExecuteWith` is the engine
    with the two user functions actually called. */
module SimpleMapReduce {
  import opened Seqs
  import opened Order
  import opened PyStr
  import opened Grouper
  import opened Phases
  import opened Counting
  import opened Csv
  import WordCountHdfs
  import WordClaseCsv

  // The default `map_function` is Phases.Echo.
  // The default `reduce_function` is the sum reducer, Counting.SumReduce.

  /** With the default functions the engine totals the values of each key,
      keys in ascending order. */
  lemma DefaultJobTotalsKeys<K(!new)>(lt: (K, K) -> bool, input: seq<(K, int)>)
    requires StrictTotalOrder(lt)
    ensures Ascending(lt, PairKeys(Job(lt, Echo, SumReduce, input)))
    ensures forall k :: k in PairKeys(Job(lt, Echo, SumReduce, input)) <==> k in PairKeys(input)
    ensures forall i :: 0 <= i < |Job(lt, Echo, SumReduce, input)| ==>
              Job(lt, Echo, SumReduce, input)[i].1
              == Sum(ValuesOf(input, Job(lt, Echo, SumReduce, input)[i].0))
  {
    MapAllEcho(input);
    SummingShuffle(lt, input);
  }

  /** `_map_phase`: every line through the inlined tokenizer, pairs
      appended in record order, then token order. */
  method MapPhase<K0>(input: seq<(K0, string)>) returns (intermediate: seq<(string, int)>)
    ensures intermediate == MapAll(WordCountHdfs.MapFunction, input)
    ensures PairKeys(intermediate) == WordCountHdfs.InputWords(input)
    ensures forall i :: 0 <= i < |intermediate| ==> intermediate[i].1 == 1
  {
    intermediate := [];
    var i := 0;
    while i < |input|
      invariant 0 <= i <= |input|
      invariant intermediate == MapAll(WordCountHdfs.MapFunction, input[..i])
    {
      var value := input[i].1;
      var words := Split(Lower(value));
      var mapped := [];
      var j := 0;
      while j < |words|
        invariant 0 <= j <= |words|
        invariant mapped == WordCountHdfs.CountOnes(WordCountHdfs.CleanWords(words[..j]))
      {
        var key := Strip(words[j]);
        WordCountHdfs.CleanWordsStep(words, j);
        if key != [] {
          mapped := mapped + [(key, 1)];
        }
        j := j + 1;
      }
      assert words[..j] == words;
      MapAllStep(WordCountHdfs.MapFunction, input, i);
      intermediate := intermediate + mapped;
      i := i + 1;
    }
    assert input[..i] == input;
    WordCountHdfs.MapAllWords(input);
    WordCountHdfs.MapAllOnes(input);
  }

  /** `_shuffle_phase`: the shared grouper with Python's `<` on `str`. */
  method ShufflePhase(intermediate: seq<(string, int)>) returns (groups: seq<(string, seq<int>)>)
    ensures groups == Group(StrLess, intermediate)
    ensures WellFormed(StrLess, groups)
    ensures forall k :: k in Keys(groups) <==> ValuesOf(intermediate, k) != []
    ensures forall i :: 0 <= i < |groups| ==> groups[i].1 == ValuesOf(intermediate, groups[i].0)
  {
    StrLessIsStrictTotalOrder();
    groups := Shuffle(StrLess, intermediate);
    GroupIsSortedByKey(StrLess, intermediate);
  }

  /** `_reduce_phase`: one `(key, sum(values))` per group, in group order. */
  method ReducePhase(groups: seq<(string, seq<int>)>) returns (final: seq<(string, int)>)
    ensures final == ReduceAll(SumReduce, groups)
    ensures |final| == |groups|
    ensures forall i :: 0 <= i < |groups| ==> final[i] == (groups[i].0, Sum(groups[i].1))
  {
    final := [];
    var i := 0;
    while i < |groups|
      invariant 0 <= i <= |groups|
      invariant final == ReduceAll(SumReduce, groups[..i])
    {
      var (key, values) := groups[i];
      var reduced := [(key, Sum(values))];
      ReduceAllStep(SumReduce, groups, i);
      final := final + reduced;
      i := i + 1;
    }
    assert groups[..i] == groups;
    SumReduceAll(groups);
  }

  /** The word count of an input: its keys come out strictly ascending,
      they are exactly the words that occur, and each total is the number
      of occurrences of its word. */
  lemma WordCountCounts<K0>(input: seq<(K0, string)>)
    ensures Ascending(StrLess, PairKeys(Job(StrLess, WordCountHdfs.MapFunction, SumReduce, input)))
    ensures forall w :: w in PairKeys(Job(StrLess, WordCountHdfs.MapFunction, SumReduce, input))
                        <==> w in WordCountHdfs.InputWords(input)
    ensures forall i :: 0 <= i < |Job(StrLess, WordCountHdfs.MapFunction, SumReduce, input)| ==>
              Job(StrLess, WordCountHdfs.MapFunction, SumReduce, input)[i].1
              == multiset(WordCountHdfs.InputWords(input))[Job(StrLess, WordCountHdfs.MapFunction, SumReduce, input)[i].0]
  {
    StrLessIsStrictTotalOrder();
    WordCountHdfs.MapAllOnes(input);
    WordCountHdfs.MapAllWords(input);
    CountingShuffle(StrLess, MapAll(WordCountHdfs.MapFunction, input));
  }

  /** `execute`: the word count of the input, whatever the subclass. */
  method Execute<K0>(input: seq<(K0, string)>) returns (final: seq<(string, int)>)
    ensures final == Job(StrLess, WordCountHdfs.MapFunction, SumReduce, input)
    ensures Ascending(StrLess, PairKeys(final))
    ensures forall w :: w in PairKeys(final) <==> w in WordCountHdfs.InputWords(input)
    ensures forall i :: 0 <= i < |final| ==> final[i].1 == multiset(WordCountHdfs.InputWords(input))[final[i].0]
    ensures input == [] ==> final == []
  {
    var intermediate := MapPhase(input);
    var groups := ShufflePhase(intermediate);
    final := ReducePhase(groups);
    WordCountCounts(input);
  }

  /** Every key of the word count is a clean word: in particular it has no
      upper-case letter. */
  lemma WordCountKeysAreClean<K0>(input: seq<(K0, string)>)
    ensures forall i :: 0 <= i < |Job(StrLess, WordCountHdfs.MapFunction, SumReduce, input)| ==>
              WordCountHdfs.IsCleanWord(Job(StrLess, WordCountHdfs.MapFunction, SumReduce, input)[i].0)
  {
    var final := Job(StrLess, WordCountHdfs.MapFunction, SumReduce, input);
    var words := WordCountHdfs.InputWords(input);
    WordCountCounts(input);
    WordCountHdfs.InputWordsAreClean(input);
    forall i | 0 <= i < |final| ensures WordCountHdfs.IsCleanWord(final[i].0) {
      assert final[i].0 == PairKeys(final)[i];
      assert final[i].0 in words;
      var m :| 0 <= m < |words| && words[m] == final[i].0;
    }
  }

  // ---------------------------------------------------------------------
  // The engine with the user functions called.

  /** `execute` with `_map_phase` calling `map_function` and `_reduce_phase`
      calling `reduce_function`, as the commented-out calls in the source
      intend. */
  method ExecuteWith<K0, V0, K(==,!new), V, K2, V2>(lt: (K, K) -> bool, mapFn: (K0, V0) -> seq<(K, V)>,
                                                    reduceFn: (K, seq<V>) -> seq<(K2, V2)>, input: seq<(K0, V0)>)
    returns (final: seq<(K2, V2)>)
    requires StrictTotalOrder(lt)
    ensures final == Job(lt, mapFn, reduceFn, input)
  {
    var intermediate := [];
    var i := 0;
    while i < |input|
      invariant 0 <= i <= |input|
      invariant intermediate == MapAll(mapFn, input[..i])
    {
      var (key, value) := input[i];
      var mapped := mapFn(key, value);
      MapAllStep(mapFn, input, i);
      intermediate := intermediate + mapped;
      i := i + 1;
    }
    assert input[..i] == input;
    var groups := Shuffle(lt, intermediate);
    final := [];
    var j := 0;
    while j < |groups|
      invariant 0 <= j <= |groups|
      invariant final == ReduceAll(reduceFn, groups[..j])
    {
      var (key, values) := groups[j];
      var reduced := reduceFn(key, values);
      ReduceAllStep(reduceFn, groups, j);
      final := final + reduced;
      j := j + 1;
    }
    assert groups[..j] == groups;
  }

  /** A one-line CSV input whose seventh column is `Chile`. */
  const ChileLine: string := "1,a,b,c,d,e,Chile"

  /** As written, `execute` counts the words of its input, which are
      lower-cased, so `Chile` (with its capital letter) is a key of the
      result for no input at all, ChileLine included... */
  lemma ExecuteIgnoresOverride<K0>(input: seq<(K0, string)>)
    ensures forall i :: 0 <= i < |Job(StrLess, WordCountHdfs.MapFunction, SumReduce, input)| ==>
              Job(StrLess, WordCountHdfs.MapFunction, SumReduce, input)[i].0 != "Chile"
  {
    WordCountKeysAreClean(input);
    assert IsUpper("Chile"[0]);
  }

  /** ...while the engine that calls the overriding `map_function` counts
      `Chile` once. */
  lemma ExecuteWithUsesOverride(parse: string -> FirstRow)
    requires parse(ChileLine) == Columns(["1", "a", "b", "c", "d", "e", "Chile"])
    ensures Job(StrLess, WordClaseCsv.ColumnSixMap(parse), SumReduce, [(0, ChileLine)]) == [("Chile", 1)]
  {
    ChileLineMapped(parse);
    GroupSingle(StrLess, "Chile", 1);
    SumReduceAll([("Chile", [1])]);
    assert Sum([1]) == 1 by {
      assert [1][..0] == [];
    }
  }

  lemma ChileLineMapped(parse: string -> FirstRow)
    requires parse(ChileLine) == Columns(["1", "a", "b", "c", "d", "e", "Chile"])
    ensures MapAll(WordClaseCsv.ColumnSixMap(parse), [(0, ChileLine)]) == [("Chile", 1)]
  {
    var input := [(0, ChileLine)];
    assert !IsBlank(ChileLine) by {
      assert !IsSpace(ChileLine[0]);
    }
    MapAllStep(WordClaseCsv.ColumnSixMap(parse), input, 0);
    assert input[..1] == input;
    assert input[..0] == [];
  }
}
