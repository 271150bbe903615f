/** Conversion of a datasets listing into the name-keyed mapping of
    `Dataset` records a mart holds (pybiomart/database.py,
    `Database._fetch_datasets` after parsing, and `Database._dataset_from_row`). */
module Catalog {
  import opened Table

  /** The transport configuration a mart shares with its datasets: the
      already-resolved `host`, `path`, `port` and `use_cache` of the mart. */
  datatype Connection = Connection(host: string, path: string, port: int, useCache: bool)

  /** A dataset as the mart constructs it: the seven values passed to the
      `Dataset` constructor. Query building lives elsewhere. */
  datatype Dataset = Dataset(
    name: string,
    displayName: string,
    host: string,
    path: string,
    port: int,
    useCache: bool,
    virtualSchema: string)

  /** The mapping a mart exposes as `datasets`, keyed by dataset name. */
  type Catalog = map<string, Dataset>

  /** True iff `d` carries the transport configuration `conn`. */
  predicate InheritsConnection(d: Dataset, conn: Connection) {
    d.host == conn.host && d.path == conn.path && d.port == conn.port && d.useCache == conn.useCache
  }

  /** Builds the dataset described by one row: identity from the row's
      `name`, `display_name` and `virtual_schema` columns, transport
      configuration from the owning mart whatever the row holds. */
  function DatasetFromRow(conn: Connection, row: Row): (d: Dataset)
    ensures d.name == row[NameColumn]
    ensures InheritsConnection(d, conn)
  {
    Dataset(
      name := row[NameColumn],
      displayName := row[DisplayNameColumn],
      host := conn.host,
      path := conn.path,
      port := conn.port,
      useCache := conn.useCache,
      virtualSchema := row[VirtualSchemaColumn])
  }

  /** A row's dataset takes exactly the cells the source reads by label:
      `row['name']`, `row['display_name']` and `row['virtual_schema']`. */
  lemma DatasetFromRowByLabel(conn: Connection, row: Row)
    ensures DatasetFromRow(conn, row).name == Cell(row, "name")
    ensures DatasetFromRow(conn, row).displayName == Cell(row, "display_name")
    ensures DatasetFromRow(conn, row).virtualSchema == Cell(row, "virtual_schema")
  {
    InterpretedColumns(row);
  }

  /** The dataset names listed in `rows` (the `name` column of each row). */
  function Names(rows: seq<Row>): set<string> {
    set i | 0 <= i < |rows| :: rows[i][NameColumn]
  }

  /** True iff no row after row `i` lists the same dataset name. */
  predicate LastWithName(rows: seq<Row>, i: int)
    requires 0 <= i < |rows|
  {
    forall j :: i < j < |rows| ==> rows[j][NameColumn] != rows[i][NameColumn]
  }

  /** The meaning of the mapping built from `rows`: exactly the listed names
      are keys, and each name maps to the dataset built from the last row
      that lists it. */
  predicate IsCatalogOf(conn: Connection, rows: seq<Row>, m: Catalog) {
    && m.Keys == Names(rows)
    && forall i :: 0 <= i < |rows| && LastWithName(rows, i) ==> m[rows[i][NameColumn]] == DatasetFromRow(conn, rows[i])
  }

  /** The dict comprehension `{d.name: d for d in datasets}`: the datasets
      of the rows are inserted in row order, so a later row replaces an
      earlier one with the same name. */
  function BuildCatalog(conn: Connection, rows: seq<Row>): (m: Catalog)
    ensures m.Keys == Names(rows)
    ensures forall k :: k in m ==> m[k].name == k && InheritsConnection(m[k], conn)
    decreases |rows|
  {
    if |rows| == 0 then map[]
    else
      var prefix := rows[..|rows| - 1];
      var d := DatasetFromRow(conn, rows[|rows| - 1]);
      var m := BuildCatalog(conn, prefix)[d.name := d];
      assert Names(rows) == Names(prefix) + {d.name} by {
        forall k | k in Names(rows) ensures k in Names(prefix) + {d.name} {
          var i :| 0 <= i < |rows| && rows[i][NameColumn] == k;
          if i < |prefix| { assert prefix[i] == rows[i]; }
        }
        forall k | k in Names(prefix) ensures k in Names(rows) {
          var i :| 0 <= i < |prefix| && prefix[i][NameColumn] == k;
          assert rows[i] == prefix[i];
        }
      }
      m
  }

  /** Last write wins: the name of a row no later row repeats maps to the
      dataset built from that row. */
  lemma {:induction false} BuildCatalogLastWins(conn: Connection, rows: seq<Row>, i: int)
    requires 0 <= i < |rows| && LastWithName(rows, i)
    ensures BuildCatalog(conn, rows)[rows[i][NameColumn]] == DatasetFromRow(conn, rows[i])
    decreases |rows|
  {
    var prefix := rows[..|rows| - 1];
    if i < |prefix| {
      assert rows[i] == prefix[i];
      assert LastWithName(prefix, i);
      BuildCatalogLastWins(conn, prefix, i);
    }
  }

  /** The fold meets its reference definition. */
  lemma BuildCatalogMeetsReference(conn: Connection, rows: seq<Row>)
    ensures IsCatalogOf(conn, rows, BuildCatalog(conn, rows))
  {
    forall i | 0 <= i < |rows| && LastWithName(rows, i)
      ensures BuildCatalog(conn, rows)[rows[i][NameColumn]] == DatasetFromRow(conn, rows[i])
    {
      BuildCatalogLastWins(conn, rows, i);
    }
  }

  /** Every row index has a last row at or after it listing the same name. */
  lemma {:induction false} LastOccurrence(rows: seq<Row>, i: int) returns (j: int)
    requires 0 <= i < |rows|
    ensures i <= j < |rows| && rows[j][NameColumn] == rows[i][NameColumn] && LastWithName(rows, j)
    decreases |rows| - i
  {
    if LastWithName(rows, i) {
      j := i;
    } else {
      var k :| i < k < |rows| && rows[k][NameColumn] == rows[i][NameColumn];
      j := LastOccurrence(rows, k);
    }
  }

  /** `IsCatalogOf` pins the mapping down: it is a reference definition of
      the fold, not just a property of it. */
  lemma {:induction false} CatalogIsUnique(conn: Connection, rows: seq<Row>, m1: Catalog, m2: Catalog)
    requires IsCatalogOf(conn, rows, m1) && IsCatalogOf(conn, rows, m2)
    ensures m1 == m2
  {
    forall k | k in m1 ensures m1[k] == m2[k] {
      var i :| 0 <= i < |rows| && rows[i][NameColumn] == k;
      var j := LastOccurrence(rows, i);
    }
  }

  /** The fold meets its reference definition and nothing else does. */
  lemma {:induction false} BuildCatalogCharacterised(conn: Connection, rows: seq<Row>, m: Catalog)
    ensures IsCatalogOf(conn, rows, m) <==> m == BuildCatalog(conn, rows)
  {
    BuildCatalogMeetsReference(conn, rows);
    if IsCatalogOf(conn, rows, m) {
      CatalogIsUnique(conn, rows, m, BuildCatalog(conn, rows));
    }
  }

  /** A mapping never holds more datasets than there are rows, and holds
      exactly one per row when the listed names are distinct. */
  lemma {:induction false} CatalogSize(conn: Connection, rows: seq<Row>)
    ensures |BuildCatalog(conn, rows)| <= |rows|
    ensures (forall i, j :: 0 <= i < j < |rows| ==> rows[i][NameColumn] != rows[j][NameColumn]) ==> |BuildCatalog(conn, rows)| == |rows|
    decreases |rows|
  {
    if |rows| > 0 {
      var prefix := rows[..|rows| - 1];
      CatalogSize(conn, prefix);
      var last := rows[|rows| - 1];
      if forall i, j :: 0 <= i < j < |rows| ==> rows[i][NameColumn] != rows[j][NameColumn] {
        assert forall i, j :: 0 <= i < j < |prefix| ==> prefix[i][NameColumn] != prefix[j][NameColumn];
        assert last[NameColumn] !in Names(prefix);
      }
    }
  }

  /** Two rows listing `ds1` yield one entry, built from the later row. */
  lemma DuplicateNameExample(conn: Connection)
    ensures var first: Row := ["TableSet", "ds1", "Display One", "", "", "", "", "schema_x", ""];
      var second: Row := ["TableSet", "ds1", "Display Two", "", "", "", "", "schema_x", ""];
      var m := BuildCatalog(conn, [first, second]);
      m.Keys == {"ds1"} && m["ds1"].displayName == "Display Two"
  {
    var first: Row := ["TableSet", "ds1", "Display One", "", "", "", "", "schema_x", ""];
    var second: Row := ["TableSet", "ds1", "Display Two", "", "", "", "", "schema_x", ""];
    var rows := [first, second];
    BuildCatalogMeetsReference(conn, rows);
    assert Names(rows) == {"ds1"} by {
      assert rows[0][NameColumn] == "ds1" && rows[1][NameColumn] == "ds1";
    }
    assert LastWithName(rows, 1);
  }

  /** A loop-form cross-check of `BuildCatalog`: the comprehension of
      `_fetch_datasets` written as one pass over the parsed rows, each row's
      dataset stored under its name, overwriting any earlier entry. Its
      contract is the reference definition, not `BuildCatalog` itself;
      `Datasets` uses `BuildCatalog`. */
  method CollectDatasets(conn: Connection, rows: seq<Row>) returns (m: Catalog)
    ensures m.Keys == Names(rows)
    ensures forall i :: 0 <= i < |rows| && LastWithName(rows, i) ==> m[rows[i][NameColumn]] == DatasetFromRow(conn, rows[i])
  {
    m := map[];
    var i := 0;
    while i < |rows|
      invariant 0 <= i <= |rows|
      invariant m == BuildCatalog(conn, rows[..i])
    {
      var d := DatasetFromRow(conn, rows[i]);
      assert rows[..i + 1][..i] == rows[..i];
      m := m[d.name := d];
      i := i + 1;
    }
    assert rows[..i] == rows;
    BuildCatalogMeetsReference(conn, rows);
  }
}
