/**
 * Rows as `csv.DictReader` yields them: each header field mapped to its
 * cell, or to nothing when the line is shorter than the header.
 */
module CsvRows {
  import opened Wrappers

  type CsvRow = map<string, Option<string>>

  /** `row.get(f)`: the cell of field `f`, nothing when the field is absent or the cell missing. */
  function Get(row: CsvRow, f: string): (r: Option<string>)
    ensures f !in row ==> r.None?
    ensures f in row ==> r == row[f]
  {
    if f in row then row[f] else None
  }

  /** `row.get(f, d)`: the cell of field `f`, the default `d` when the field is absent. */
  function GetOr(row: CsvRow, f: string, d: string): (r: Option<string>)
    ensures f !in row ==> r == Some(d)
    ensures f in row ==> r == row[f]
  {
    if f in row then row[f] else Some(d)
  }

  /** A row dictionary is truthy when it has at least one field. */
  predicate Present(rows: map<string, CsvRow>, code: string) {
    code in rows && |rows[code]| != 0
  }
}
