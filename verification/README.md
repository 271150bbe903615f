# pybiomart `Database` in Dafny

A model of the `Database` class of pybiomart, a client for BioMart query
servers. A `Database` stands for one mart on a server. It keeps the mart's
identity (`name`, `database_name`, `display_name`) and the transport
configuration it shares with its datasets (`host`, `path`, `port`,
`use_cache`). It fetches the mart's dataset listing lazily, on the first read
of `datasets`, and memoises it. The listing is a headerless table with nine
columns named by position. Each row becomes a `Dataset` record, and the
records are collected into a mapping keyed by dataset name, where a later row
overwrites an earlier row with the same name. Indexing, `db[name]`, looks a
name up in that mapping.

Files:

- `wrappers.dfy`: `Option` (the source's `None` sentinel) and `Result` (its raised exceptions).
- `table.dfy`: the column labels `RESULT_COLNAMES`, nine-cell rows, and reading a cell by its label.
- `catalog.dfy`: `Connection`, `Dataset`, building a dataset from a row, and folding rows into the name-keyed mapping. It also gives a reference definition of that mapping (`IsCatalogOf`) and proves the fold is the only mapping that meets it.
- `database.dfy`: the mart as an immutable state record with an `Option` cache. It models the `datasets` access, indexing, and runs of successive accesses (`Session`).

The HTTP request and the parsing of its answer are abstract. Each access to
`datasets` receives a `Response`: either the parsed rows, or a
`TransportError` / `ParseError`. This is what the request would produce if
the access issued it. An access that finds the mapping cached ignores the
response. Every access reports the requests it issued, so the number of
requests sent to the server can be stated.

## Model

| member | source | states |
|---|---|---|
| `Table.ResultColNamesWellFormed` | pybiomart/database.py:29-30 | the listing has nine column labels, and no label is used twice, so a label names one column |
| `Table.IndexOf` | pybiomart/database.py:110-113 | label lookup finds a position exactly when the label is present; the label sits at that position and at no earlier one |
| `Table.Cell` | pybiomart/database.py:110-113 | `row[label]` is the cell at the position the label names in `RESULT_COLNAMES` |
| `Table.InterpretedColumns` | pybiomart/database.py:29-30 | the `name`, `display_name` and `virtual_schema` cells are positional columns 1, 2 and 7 |
| `Catalog.DatasetFromRow` | pybiomart/database.py:109-113 | a row's dataset is named by the row's column 1; its host, path, port and cache flag are the mart's, whatever the row holds |
| `Catalog.DatasetFromRowByLabel` | pybiomart/database.py:109-113 | a dataset's name, display name and virtual schema are the cells labelled `name`, `display_name` and `virtual_schema` |
| `Catalog.BuildCatalog` | pybiomart/database.py:104-107 | the mapping's keys are exactly the names in column 1 of the rows; each entry is filed under its own name and carries the mart's transport configuration |
| `Catalog.BuildCatalogLastWins` | pybiomart/database.py:104-107 | when no later row repeats a row's name, that name maps to the dataset built from that row (last write wins) |
| `Catalog.BuildCatalogMeetsReference` | pybiomart/database.py:104-107 | the fold meets the reference definition: listed names as keys, each mapped to its last row's dataset |
| `Catalog.CatalogIsUnique` | pybiomart/database.py:104-107 | key set plus last-write-wins determine the mapping completely |
| `Catalog.BuildCatalogCharacterised` | pybiomart/database.py:104-107 | a mapping meets the reference definition if and only if it is the one the comprehension builds |
| `Catalog.CatalogSize` | pybiomart/database.py:104-107 | the mapping has at most one entry per row, and exactly one per row when the names are distinct |
| `Catalog.DuplicateNameExample` | pybiomart/database.py:104-107 | two rows naming `ds1` give one entry, with the later row's display name |
| `Catalog.CollectDatasets` | pybiomart/database.py:103-107 | the loop over the rows yields the listed names as keys, each mapped to its last row's dataset |
| `Databases.NewDatabase` | pybiomart/database.py:58-68 | a new mart starts unfetched, so its first access will fetch, and satisfies the state invariant; the accessors return the constructor arguments |
| `Databases.Datasets` | pybiomart/database.py:88-93 | unfetched: one request with exactly `type=datasets` and `mart=name`; on success the result is cached and meets the reference definition; on failure nothing is cached and the fetch error is returned; fetched: the cached mapping, no request, no change; the identity never changes and the state invariant is kept |
| `Databases.RequestDependsOnNameOnly` | pybiomart/database.py:95-97 | the request depends on the mart name alone; the virtual schema and extra parameters are never sent |
| `Databases.GetItem` | pybiomart/database.py:70-71 | indexing leaves the same state and sends the same requests as reading `datasets`; it succeeds exactly when the name is a key of the fetched mapping, and returns that entry; a missing name gives `KeyNotFound`, which happens only after a successful fetch; a fetch failure is returned as such |
| `Databases.Session` | pybiomart/database.py:88-93 | any run of accesses keeps the mart's identity and its state invariant |
| `Databases.FetchedSessionIsSilent` | pybiomart/database.py:89-93 | once fetched, every later access returns the same mapping, sends no request and changes nothing |
| `Databases.SessionFetchesOnce` | pybiomart/database.py:88-97 | from an unfetched mart, each access up to and including the first success sends one listing request and no later access does; failures return their error and leave the mart unfetched; the first success's mapping is cached and returned from then on |
| `Databases.FailedFetchIsRetried` | pybiomart/database.py:91-92 | after a failed fetch, the next access issues the request again |
| `Databases.IdentityIsStable` | pybiomart/database.py:73-86 | after any accesses, `name`, `database_name` and `display_name` still return the constructor arguments |

## Left out

- The HTTP request through `ServerBase.get` and its request cache. `ServerBase` is not part of this model. Its answer, after parsing, is the `Response` input of each access.
- `pandas.read_csv` tokenisation: splitting on tabs and newlines, quoting, turning empty fields into NaN, and dtype inference. A parsed listing is a sequence of nine-cell string rows. Which bodies fail to parse is decided by the abstract `Response`. Pandas pads short rows with NaN rather than failing; the model does not represent that case.
- Defaulting of `host`, `path` and `port`, and the value of `DEFAULT_SCHEMA`. Both belong to `ServerBase` and its module, which are not part of this model. `Connection` holds the resolved values, and the virtual schema is a constructor argument.
- `Dataset` internals (query building and execution). A dataset is the record of the seven values passed to its constructor.
- `__repr__`. It is cosmetic. Its format arguments are misordered: the `database_name=` slot receives the display name.
- The defaults in the constructor's own signature, `use_cache=True` and `extra_params=None`. `NewDatabase` takes every argument explicitly: the cache flag inside the resolved `Connection`, and the extra parameters as an explicit `Option`.
- The insertion order of the dict that `_fetch_datasets` returns. Iterating it lists names in the order of their first row; a Dafny `map` has no order, so the model says nothing about iteration order.
- Object identity and aliasing. `datasets` hands the caller the cached dict object itself. A caller who mutates that dict changes what every later `datasets` or `db[name]` returns. The model has value semantics and no caller mutation. So when `FetchedSessionIsSilent` and `SessionFetchesOnce` say every later access returns "the same mapping", this means an equal value, and it holds only while no caller mutates the dict.
- Thread-safety of the lazy fetch. The source has no lock, and the model is sequential.
- Validation of the constructor arguments. The code does not check that `name` is non-empty, and neither does the model.
