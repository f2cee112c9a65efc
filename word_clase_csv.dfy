/** Counting by column 6 of a CSV line: a blank line is skipped before any
    parsing; otherwise the first row is parsed and a row of at least seven
    columns counts its seventh column once. A parse error or a missing row
    is logged and counts nothing. The reducer is the sum reducer
    (Counting.SumReduce). The map function of the threaded engine is the
    same code and uses this definition. */
module WordClaseCsv {
  import opened PyStr
  import opened Csv
  import opened Order
  import opened Grouper
  import opened Phases
  import opened Counting

  /** `map_function(key, value)` with `csv.reader` as `parse`. */
  function MapFunction<K0>(parse: string -> FirstRow, key: K0, value: string): seq<(string, int)>
  {
    if IsBlank(value) then [] else ColumnSix(parse(value))
  }

  /** A blank line yields nothing, whatever the parser would have said. */
  lemma BlankLineIsSkipped<K0>(parse: string -> FirstRow, key: K0, value: string)
    requires IsBlank(value)
    ensures forall other: string -> FirstRow :: MapFunction(other, key, value) == []
  {
  }

  /** A non-blank line whose first row has at least seven columns yields
      exactly `(columns[6], 1)`; any other non-blank line yields nothing;
      so there is never more than one pair, and its count is 1. */
  lemma MapFunctionCases<K0>(parse: string -> FirstRow, key: K0, value: string)
    ensures !IsBlank(value) && parse(value).Columns? && |parse(value).cols| >= 7 ==>
              MapFunction(parse, key, value) == [(parse(value).cols[6], 1)]
    ensures !(parse(value).Columns? && |parse(value).cols| >= 7) ==> MapFunction(parse, key, value) == []
    ensures |MapFunction(parse, key, value)| <= 1
    ensures forall i :: 0 <= i < |MapFunction(parse, key, value)| ==> MapFunction(parse, key, value)[i].1 == 1
  {
  }

  /** `map_function` as the function value the engines call, on records
      keyed by their line number. */
  function ColumnSixMap(parse: string -> FirstRow): (int, string) -> seq<(string, int)>
  {
    (key: int, value: string) => MapFunction(parse, key, value)
  }

  /** Every pair the map phase emits over a whole input carries the count 1. */
  lemma {:induction false} ColumnSixOnes(parse: string -> FirstRow, input: seq<(int, string)>)
    ensures forall i :: 0 <= i < |MapAll(ColumnSixMap(parse), input)| ==> MapAll(ColumnSixMap(parse), input)[i].1 == 1
  {
    if input != [] {
      var n := |input| - 1;
      ColumnSixOnes(parse, input[..n]);
      MapAllStep(ColumnSixMap(parse), input, n);
      assert input[..n + 1] == input;
      var out := ColumnSixMap(parse)(input[n].0, input[n].1);
      assert out == MapFunction(parse, input[n].0, input[n].1);
      MapFunctionCases(parse, input[n].0, input[n].1);
    }
  }

  /** The job that calls this `map_function` and the sum reducer counts,
      for every seventh-column value, the lines that carry it: keys come
      out strictly ascending and are exactly the values emitted. */
  lemma ColumnSixJobCounts(parse: string -> FirstRow, input: seq<(int, string)>)
    ensures Ascending(StrLess, PairKeys(Job(StrLess, ColumnSixMap(parse), SumReduce, input)))
    ensures forall c :: c in PairKeys(Job(StrLess, ColumnSixMap(parse), SumReduce, input))
                        <==> c in PairKeys(MapAll(ColumnSixMap(parse), input))
    ensures forall i :: 0 <= i < |Job(StrLess, ColumnSixMap(parse), SumReduce, input)| ==>
              Job(StrLess, ColumnSixMap(parse), SumReduce, input)[i].1
              == multiset(PairKeys(MapAll(ColumnSixMap(parse), input)))[Job(StrLess, ColumnSixMap(parse), SumReduce, input)[i].0]
  {
    StrLessIsStrictTotalOrder();
    ColumnSixOnes(parse, input);
    CountingShuffle(StrLess, MapAll(ColumnSixMap(parse), input));
  }
}
