/** The one thing the column extractors ask of `csv.reader`: the first row
    of a single-line string. The reader itself (quoting, escapes, dialects)
    is a parameter `parse` of the map functions that use it. */
module Csv {

  /** `next(csv.reader(io.StringIO(value)))`: the first row's columns,
      `csv.Error`, or `StopIteration` when there is no row at all. */
  datatype FirstRow = Columns(cols: seq<string>) | ParseError | NoRow

  /** What a row contributes to a column-6 count: `(columns[6], 1)` when
      the row has at least seven columns, nothing otherwise. */
  function ColumnSix(row: FirstRow): (r: seq<(string, int)>)
    ensures |r| <= 1
    ensures forall i :: 0 <= i < |r| ==> r[i].1 == 1
    ensures row.Columns? && |row.cols| >= 7 ==> r == [(row.cols[6], 1)]
    ensures r != [] ==> row.Columns? && |row.cols| >= 7
  {
    if row.Columns? && |row.cols| >= 7 then [(row.cols[6], 1)] else []
  }
}
