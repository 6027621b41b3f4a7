/**
 * A CSV file as `pd.read_csv` hands it over: the header's column names and
 * one row per record. A cell that pandas reads as NaN (empty in the file) is
 * absent from its row's map, as is every cell of a column the file lacks.
 */
module Tables {
  import opened Common

  type Row = map<string, string>

  datatype Table = Table(columns: set<string>, rows: seq<Row>)

  /** The text of one cell, or `None` when it is NaN or the column does not exist. */
  function Cell(row: Row, column: string): (c: Option<string>)
    ensures c.Some? <==> column in row
    ensures c.Some? ==> c.value == row[column]
  {
    if column in row then Some(row[column]) else None
  }
}
