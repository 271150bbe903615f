/** The tabular form of a BioMart "datasets" listing, as the client reads it:
    a headerless, tab-separated table whose nine columns are named by
    position (pybiomart/database.py, `Database.RESULT_COLNAMES`). Splitting
    the response text into rows and cells is not modelled; a table is given
    as a sequence of nine-cell rows. */
module Table {
  import opened Wrappers

  /** The labels given to the nine columns of the listing, in wire order. */
  const ResultColNames: seq<string> :=
    ["type", "name", "display_name", "unknown", "unknown2",
     "unknown3", "unknown4", "virtual_schema", "unknown5"]

  /** The number of columns of the listing. */
  const ColumnCount := 9

  /** One row of the listing: exactly one cell per column. */
  type Row = cells: seq<string> | |cells| == ColumnCount
    witness ["", "", "", "", "", "", "", "", ""]

  /** True iff no label occurs twice, so that a label names one column. */
  predicate DistinctLabels(labels: seq<string>) {
    forall i, j :: 0 <= i < j < |labels| ==> labels[i] != labels[j]
  }

  /** Position of the first occurrence of `column` in `labels`, if any. */
  function IndexOf(labels: seq<string>, column: string): (r: Option<nat>)
    ensures r.None? <==> column !in labels
    ensures r.Some? ==> r.value < |labels| && labels[r.value] == column
    ensures r.Some? ==> forall j :: 0 <= j < r.value ==> labels[j] != column
  {
    if |labels| == 0 then None
    else if labels[0] == column then Some(0)
    else match IndexOf(labels[1..], column)
      case None => None
      case Some(i) => Some(i + 1)
  }

  /** There is one label per column, and no label is used twice. */
  lemma ResultColNamesWellFormed()
    ensures |ResultColNames| == ColumnCount
    ensures DistinctLabels(ResultColNames)
  {
  }

  /** The cell of `row` in the column labelled `column` (the source's `row[column]`).
      Since the labels are distinct, it is the cell at every position that
      carries `column`. */
  function Cell(row: Row, column: string): (v: string)
    requires column in ResultColNames
    ensures forall i :: 0 <= i < ColumnCount && ResultColNames[i] == column ==> v == row[i]
  {
    ResultColNamesWellFormed();
    row[IndexOf(ResultColNames, column).value]
  }

  /** Positions of the three columns the client interprets. */
  const NameColumn := 1
  const DisplayNameColumn := 2
  const VirtualSchemaColumn := 7

  /** The interpreted columns sit where their labels say: reading a row by
      position gives the cell its label names. */
  lemma InterpretedColumns(row: Row)
    ensures Cell(row, "name") == row[NameColumn]
    ensures Cell(row, "display_name") == row[DisplayNameColumn]
    ensures Cell(row, "virtual_schema") == row[VirtualSchemaColumn]
  {
  }
}
