/** One mart on a BioMart server (pybiomart/database.py, `Database`): its
    identity, the transport configuration it shares with its datasets, and
    the lazily fetched, memoised mapping of its datasets.

    The HTTP request and the parsing of its tab-separated answer are not
    modelled; each access to `datasets` is given, as `response`, what that
    request and parse would produce if the access issued it. An access
    reports the requests it issued in `sent`, so that how often the server
    is asked can be stated. */
module Databases {
  import opened Wrappers
  import opened Table
  import opened Catalog

  /** Why the request or the parse of its answer failed. */
  datatype FetchError = TransportError(reason: string) | ParseError(reason: string)

  /** What an access can fail with. A missing dataset is told apart from a
      failed fetch. */
  datatype Error = FetchFailed(cause: FetchError) | KeyNotFound(key: string)

  /** What the request for the datasets listing yields: the parsed rows, or
      the failure. */
  type Response = Result<seq<Row>, FetchError>

  /** A GET request to the server, by its query parameters. */
  datatype Request = Request(params: map<string, string>)

  /** The request that lists the datasets of mart `mart`. */
  function DatasetsRequest(mart: string): Request {
    Request(map["type" := "datasets", "mart" := mart])
  }

  /** A mart. `datasets` is `None` until the listing has been fetched, which
      is distinct from a fetched, empty listing. */
  datatype Database = Database(
    name: string,
    databaseName: string,
    displayName: string,
    conn: Connection,
    virtualSchema: string,
    extraParams: Option<map<string, string>>,
    datasets: Option<Catalog>)
  {
    /** The mart name used in queries. */
    function Name(): string { name }

    /** The display name of the mart. */
    function DisplayName(): string { displayName }

    /** The ID of the mart on the host. */
    function DatabaseName(): string { databaseName }

    /** The state invariant: a cached mapping files every dataset under its
        own name and gives it this mart's transport configuration. */
    predicate Valid() {
      datasets.Some? ==>
        forall k :: k in datasets.value ==>
          datasets.value[k].name == k && InheritsConnection(datasets.value[k], conn)
    }

    /** True iff `other` is this mart, whatever either has cached. */
    predicate SameMart(other: Database) {
      other.(datasets := datasets) == this
    }
  }

  /** The state after an access and what it returned, with the requests the
      access issued. */
  datatype Access<T> = Access(db: Database, sent: seq<Request>, result: Result<T, Error>)

  /** Constructs a mart. No request is made and nothing is cached; the
      accessors give back the identity it was built with. */
  function NewDatabase(
    name: string,
    databaseName: string,
    displayName: string,
    conn: Connection,
    virtualSchema: string,
    extraParams: Option<map<string, string>>): (db: Database)
    ensures db.datasets.None? && db.Valid()
    ensures db.Name() == name && db.DatabaseName() == databaseName && db.DisplayName() == displayName
    ensures db.conn == conn && db.virtualSchema == virtualSchema && db.extraParams == extraParams
  {
    Database(name, databaseName, displayName, conn, virtualSchema, extraParams, None)
  }

  /** The `datasets` property. Unfetched, it issues the listing request and,
      on success, caches and returns the mapping built from the rows; on
      failure it caches nothing and passes the failure on. Fetched, it returns
      the cached mapping and issues nothing. */
  function Datasets(db: Database, response: Response): (a: Access<Catalog>)
    ensures a.db.SameMart(db)
    ensures db.datasets.Some? ==> a.db == db && a.sent == [] && a.result == Success(db.datasets.value)
    ensures db.datasets.None? ==> a.sent == [DatasetsRequest(db.name)]
    ensures a.sent != [] ==> a.sent[0].params.Keys == {"type", "mart"}
    ensures a.sent != [] ==> a.sent[0].params["type"] == "datasets" && a.sent[0].params["mart"] == db.name
    ensures a.result.Success? <==> a.db.datasets.Some?
    ensures a.result.Success? ==> a.db.datasets == Some(a.result.value)
    ensures db.Valid() ==> a.db.Valid()
    ensures a.result.Success? && db.datasets.None? ==> response.Success? && IsCatalogOf(db.conn, response.value, a.result.value)
    ensures a.result.Failure? ==> a.db == db && response.Failure? && a.result.error == FetchFailed(response.error)
  {
    match db.datasets
    case Some(m) => Access(db, [], Success(m))
    case None =>
      var req := DatasetsRequest(db.name);
      match response
      case Failure(e) => Access(db, [req], Failure(FetchFailed(e)))
      case Success(rows) =>
        var m := BuildCatalog(db.conn, rows);
        BuildCatalogMeetsReference(db.conn, rows);
        Access(db.(datasets := Some(m)), [req], Success(m))
  }

  /** The listing request depends on the mart name alone: the virtual
      schema, the extra parameters and the rest of the identity are never
      sent. */
  lemma RequestDependsOnNameOnly(db1: Database, db2: Database, r1: Response, r2: Response)
    requires db1.name == db2.name && db1.datasets.None? && db2.datasets.None?
    ensures Datasets(db1, r1).sent == Datasets(db2, r2).sent
  {
  }

  /** Indexing, `db[key]`: the lookup of `key` in the `datasets` mapping,
      fetching it first if need be. The mapping stays cached even when the
      key is missing. */
  function GetItem(db: Database, key: string, response: Response): (a: Access<Dataset>)
    ensures a.db == Datasets(db, response).db && a.sent == Datasets(db, response).sent
    ensures a.result.Success? <==> a.db.datasets.Some? && key in a.db.datasets.value
    ensures a.result.Success? ==> a.result.value == a.db.datasets.value[key]
    ensures a.result.Success? && db.Valid() ==> a.result.value.name == key
    ensures a.result.Failure? ==>
      (a.result.error == KeyNotFound(key) <==> a.db.datasets.Some?)
    ensures a.result.Failure? && a.db.datasets.None? ==>
      response.Failure? && a.result.error == FetchFailed(response.error)
  {
    var fetched := Datasets(db, response);
    match fetched.result
    case Failure(e) => Access(fetched.db, fetched.sent, Failure(e))
    case Success(m) =>
      if key in m then Access(fetched.db, fetched.sent, Success(m[key]))
      else Access(fetched.db, fetched.sent, Failure(KeyNotFound(key)))
  }

  /** A run of successive accesses to `datasets`: the final state, every
      request issued, and what each access returned. */
  datatype Trace = Trace(db: Database, sent: seq<Request>, results: seq<Result<Catalog, Error>>)

  /** Accesses `datasets` once per element of `responses`, access `i` being
      answered by `responses[i]` if it issues a request. */
  function Session(db: Database, responses: seq<Response>): (t: Trace)
    ensures |t.results| == |responses|
    ensures t.db.SameMart(db)
    ensures db.Valid() ==> t.db.Valid()
    decreases |responses|
  {
    if |responses| == 0 then Trace(db, [], [])
    else
      var a := Datasets(db, responses[0]);
      var rest := Session(a.db, responses[1..]);
      Trace(rest.db, a.sent + rest.sent, [a.result] + rest.results)
  }

  /** The index of the first successful response, if any. */
  function FirstSuccess(responses: seq<Response>): (r: Option<nat>)
    ensures r.None? <==> forall i :: 0 <= i < |responses| ==> responses[i].Failure?
    ensures r.Some? ==> r.value < |responses| && responses[r.value].Success?
    ensures r.Some? ==> forall i :: 0 <= i < r.value ==> responses[i].Failure?
  {
    if |responses| == 0 then None
    else if responses[0].Success? then Some(0)
    else match FirstSuccess(responses[1..])
      case None => None
      case Some(i) => Some(i + 1)
  }

  /** Once fetched, a mart never asks the server again: every access returns
      the same cached mapping and the state does not change. */
  lemma {:induction false} FetchedSessionIsSilent(db: Database, responses: seq<Response>)
    requires db.datasets.Some?
    ensures Session(db, responses).db == db
    ensures Session(db, responses).sent == []
    ensures forall i :: 0 <= i < |responses| ==> Session(db, responses).results[i] == Success(db.datasets.value)
    decreases |responses|
  {
    if |responses| > 0 {
      FetchedSessionIsSilent(db, responses[1..]);
    }
  }

  /** From an unfetched mart, every access up to and including the first
      successful one issues exactly one listing request, and none after it
      does. Failed accesses leave the mart unfetched and return their
      failure; the first success caches the mapping built from its rows,
      which every later access returns. */
  lemma {:induction false} SessionFetchesOnce(db: Database, responses: seq<Response>)
    requires db.datasets.None?
    ensures forall j :: 0 <= j < |Session(db, responses).sent| ==>
      Session(db, responses).sent[j] == DatasetsRequest(db.name)
    ensures FirstSuccess(responses).None? ==>
      && |Session(db, responses).sent| == |responses|
      && Session(db, responses).db == db
      && forall i :: 0 <= i < |responses| ==>
           Session(db, responses).results[i] == Failure(FetchFailed(responses[i].error))
    ensures FirstSuccess(responses).Some? ==>
      var k := FirstSuccess(responses).value;
      var m := BuildCatalog(db.conn, responses[k].value);
      && |Session(db, responses).sent| == k + 1
      && Session(db, responses).db == db.(datasets := Some(m))
      && (forall i :: 0 <= i < k ==>
           Session(db, responses).results[i] == Failure(FetchFailed(responses[i].error)))
      && (forall i :: k <= i < |responses| ==> Session(db, responses).results[i] == Success(m))
    decreases |responses|
  {
    if |responses| > 0 {
      var a := Datasets(db, responses[0]);
      var tail := responses[1..];
      var t := Session(db, responses);
      var rest := Session(a.db, tail);
      assert t == Trace(rest.db, a.sent + rest.sent, [a.result] + rest.results);
      if responses[0].Success? {
        FetchedSessionIsSilent(a.db, tail);
        assert FirstSuccess(responses) == Some(0);
      } else {
        SessionFetchesOnce(db, tail);
        forall i | 0 < i < |responses| ensures tail[i - 1] == responses[i] {}
      }
    }
  }

  /** A failed fetch leaves the mart unfetched, so the next access retries
      the request. */
  lemma FailedFetchIsRetried(db: Database, e: FetchError, next: Response)
    requires db.datasets.None?
    ensures Datasets(Datasets(db, Failure(e)).db, next).sent == [DatasetsRequest(db.name)]
  {
  }

  /** Whatever the accesses do, the mart keeps the identity it was
      constructed with. */
  lemma {:induction false} IdentityIsStable(
    name: string, databaseName: string, displayName: string, conn: Connection,
    virtualSchema: string, extraParams: Option<map<string, string>>, responses: seq<Response>)
    ensures var t := Session(NewDatabase(name, databaseName, displayName, conn, virtualSchema, extraParams), responses);
      t.db.Name() == name && t.db.DatabaseName() == databaseName && t.db.DisplayName() == displayName
      && t.db.conn == conn
  {
  }
}
