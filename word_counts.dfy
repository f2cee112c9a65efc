/** The other column-6 counter: it parses every line, blank or not, and
    reads `columns[6]` unguarded; the `IndexError` of a short row and any
    parse failure are caught by one `except Exception` and yield nothing.
    The reducer is the sum reducer (Counting.SumReduce). */
module WordCounts {
  import opened PyStr
  import opened Csv
  import WordClaseCsv

  /** `map_function(key, value)` with `csv.reader` as `parse`. */
  function MapFunction<K0>(parse: string -> FirstRow, key: K0, value: string): seq<(string, int)>
  {
    match parse(value)
    case Columns(cols) => if |cols| >= 7 then [(cols[6], 1)] else []
    case ParseError => []
    case NoRow => []
  }

  /** A row of at least seven columns yields exactly `(columns[6], 1)`;
      a short row, a parse error or a missing row yields nothing; there is
      at most one pair and its count is 1. */
  lemma MapFunctionCases<K0>(parse: string -> FirstRow, key: K0, value: string)
    ensures parse(value).Columns? && |parse(value).cols| >= 7 ==>
              MapFunction(parse, key, value) == [(parse(value).cols[6], 1)]
    ensures !(parse(value).Columns? && |parse(value).cols| >= 7) ==> MapFunction(parse, key, value) == []
    ensures |MapFunction(parse, key, value)| <= 1
    ensures forall i :: 0 <= i < |MapFunction(parse, key, value)| ==> MapFunction(parse, key, value)[i].1 == 1
  {
  }

  /** On every non-blank line the two column-6 counters agree. */
  lemma AgreesOnNonBlankLines<K0>(parse: string -> FirstRow, key: K0, value: string)
    requires !IsBlank(value)
    ensures MapFunction(parse, key, value) == WordClaseCsv.MapFunction(parse, key, value)
  {
  }

  /** The parser never finds a seventh column on a blank line (`csv.reader`
      reads no row from "", and a single column from white space). */
  ghost predicate BlankLinesAreShort(parse: string -> FirstRow)
  {
    forall s :: IsBlank(s) ==> !(parse(s).Columns? && |parse(s).cols| >= 7)
  }

  /** With such a parser the two counters agree on every line. */
  lemma AgreesEverywhere<K0>(parse: string -> FirstRow, key: K0, value: string)
    requires BlankLinesAreShort(parse)
    ensures MapFunction(parse, key, value) == WordClaseCsv.MapFunction(parse, key, value)
  {
  }
}
