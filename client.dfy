/** The `MetabaseClient` object: a session token, a per-database schema
    cache, and the operations that consult them. The network is replaced by
    a reply parameter on each operation (what the server would answer if
    asked), and a ghost log records which requests the client actually sends. */
module Client {
  import opened Values
  import opened Schema
  import opened Export
  import opened Validation

  /** The payload of a native query (lines 210-216). */
  datatype NativeQuery = NativeQuery(database: int, queryType: string, query: string)

  function Payload(databaseId: int, sql: string): NativeQuery {
    NativeQuery(databaseId, "native", sql)
  }

  /** The requests the client sends. */
  datatype Request =
    | SessionPost(username: string, password: string)
    | DatabaseGet
    | MetadataGet(databaseId: int)
    | DatasetPost(payload: NativeQuery)

  /** `POST /api/session`: status 200 with a body whose `id` is the token,
      another status, or a transport error. */
  datatype AuthReply = AuthOk(id: Slot<string>) | AuthRejected | AuthUnreachable

  /** One entry of `GET /api/database`. */
  datatype Database = Database(id: Slot<int>, name: Slot<string>, engine: Slot<string>)

  /** `GET /api/database`: status 200 with a body whose `data` is the list, or
      a failure (another status, a transport error, a body that is not JSON). */
  datatype DatabasesReply = DatabasesOk(data: Slot<seq<Database>>) | DatabasesFailed

  /** `GET /api/database/{id}/metadata`: status 200 with the metadata, or a
      failure (another status, a transport error, a body that is not JSON). */
  datatype MetadataReply = MetadataOk(metadata: Metadata) | MetadataFailed

  /** A JSON object body, as its top-level keys and their serialised values. */
  type Body = map<string, string>

  /** `POST /api/dataset`: status 202 (running), 200 (finished), or a failure. */
  datatype QueryReply = QueryAccepted(body: Body) | QueryCompleted(body: Body) | QueryFailed

  /** `url.rstrip('/')`. */
  function StripTrailingSlashes(url: string): (r: string)
    ensures |r| <= |url| && r == url[..|r|]
    ensures r == [] || r[|r| - 1] != '/'
    ensures forall k :: |r| <= k < |url| ==> url[k] == '/'
    decreases |url|
  {
    if url != [] && url[|url| - 1] == '/' then StripTrailingSlashes(url[..|url| - 1]) else url
  }

  /** `not self.session_token`: no token, or the empty one. */
  predicate Authenticated(token: Option<string>) {
    token.Some? && token.value != ""
  }

  /** The listing loop prints `db['id']`, `db['name']` and `db['engine']`; a
      missing key raises `KeyError`, which the handler turns into `[]`. */
  predicate Printable(db: Database) {
    !db.id.Absent? && !db.name.Absent? && !db.engine.Absent?
  }

  /** What `list_databases` returns for a reply, once authenticated. A `null`
      `data` list makes `len(None)` raise, which also yields `[]`. */
  function DatabasesFrom(reply: DatabasesReply): (r: seq<Database>)
    ensures r != [] ==> reply.DatabasesOk? && reply.data.Has? && r == reply.data.value
    ensures reply.DatabasesOk? && reply.data.Has? && (forall db | db in reply.data.value :: Printable(db)) ==>
              r == reply.data.value
    ensures reply.DatabasesOk? && reply.data.Has? && (exists db | db in reply.data.value :: !Printable(db)) ==>
              r == []
  {
    match reply
    case DatabasesOk(Has(dbs)) => if forall db | db in dbs :: Printable(db) then dbs else []
    case _ => []
  }

  /** What `execute_sql` returns for a reply, once authenticated: the body of
      either success status as it is, `{}` on failure. */
  function QueryResult(reply: QueryReply): Body {
    match reply
    case QueryAccepted(body) => body
    case QueryCompleted(body) => body
    case QueryFailed => map[]
  }

  /** One call of `get_database_metadata`: what it returns, the cache after
      it, and whether it sent a request. */
  datatype CacheStep = CacheStep(result: Metadata, cache: map<int, Metadata>, fetched: bool)

  /** Lines 80-115. A 200 reply is cached before the summary is printed; if
      the summary then raises (`null` tables or fields), the handler returns
      `{}` but the entry stays cached. */
  function MetadataCall(token: Option<string>, cache: map<int, Metadata>, databaseId: int,
                        forceRefresh: bool, reply: MetadataReply): CacheStep
  {
    if !Authenticated(token) then CacheStep(EmptyMetadata, cache, false)
    else if databaseId in cache && !forceRefresh then CacheStep(cache[databaseId], cache, false)
    else match reply
      case MetadataFailed => CacheStep(EmptyMetadata, cache, true)
      case MetadataOk(md) =>
        CacheStep(if SummaryRaises(md) then EmptyMetadata else md, cache[databaseId := md], true)
  }

  /** Without a token nothing is fetched, the result is `{}` and the cache is
      left as it was. */
  lemma NoTokenNoFetch(token: Option<string>, cache: map<int, Metadata>, databaseId: int,
                       forceRefresh: bool, reply: MetadataReply)
    requires !Authenticated(token)
    ensures MetadataCall(token, cache, databaseId, forceRefresh, reply)
         == CacheStep(EmptyMetadata, cache, false)
  {
  }

  /** A cached entry is returned as it is, with no fetch and no change to the
      cache, whatever the server would have answered. */
  lemma CacheHit(token: Option<string>, cache: map<int, Metadata>, databaseId: int, reply: MetadataReply)
    requires Authenticated(token) && databaseId in cache
    ensures MetadataCall(token, cache, databaseId, false, reply) == CacheStep(cache[databaseId], cache, false)
  {
  }

  /** A fetch happens exactly when there is a token and either the entry is
      missing or a refresh is forced. */
  lemma FetchesWhen(token: Option<string>, cache: map<int, Metadata>, databaseId: int,
                    forceRefresh: bool, reply: MetadataReply)
    ensures MetadataCall(token, cache, databaseId, forceRefresh, reply).fetched
        <==> Authenticated(token) && (databaseId !in cache || forceRefresh)
  {
  }

  /** A successful fetch stores the reply under the id (replacing any earlier
      entry when forced) and changes no other entry; it returns the reply
      unless the summary raises. */
  lemma SuccessfulFetch(token: Option<string>, cache: map<int, Metadata>, databaseId: int,
                        forceRefresh: bool, md: Metadata)
    requires Authenticated(token) && (databaseId !in cache || forceRefresh)
    ensures var step := MetadataCall(token, cache, databaseId, forceRefresh, MetadataOk(md));
      && step.fetched
      && databaseId in step.cache && step.cache[databaseId] == md
      && (forall other :: other != databaseId ==>
            (other in step.cache <==> other in cache) &&
            (other in cache ==> step.cache[other] == cache[other]))
      && step.result == (if SummaryRaises(md) then EmptyMetadata else md)
  {
  }

  /** A failed fetch returns `{}` and leaves the cache exactly as it was, so a
      failed forced refresh keeps the earlier good entry. */
  lemma FailedFetchKeepsCache(token: Option<string>, cache: map<int, Metadata>, databaseId: int,
                              forceRefresh: bool)
    requires databaseId !in cache || forceRefresh
    ensures var step := MetadataCall(token, cache, databaseId, forceRefresh, MetadataFailed);
      step.result == EmptyMetadata && step.cache == cache
  {
  }

  /** Two calls in a row without a forced refresh: once the first has fetched
      successfully, the second fetches nothing and returns the cached reply,
      which is what the first returned unless its summary raised. */
  lemma RepeatedCallFetchesOnce(token: Option<string>, cache: map<int, Metadata>, databaseId: int,
                                forceRefresh: bool, md: Metadata, second: MetadataReply)
    requires Authenticated(token)
    ensures var first := MetadataCall(token, cache, databaseId, forceRefresh, MetadataOk(md));
      var again := MetadataCall(token, first.cache, databaseId, false, second);
      && !again.fetched && again.cache == first.cache
      && (first.fetched ==> again.result == md)
      && (!first.fetched || !SummaryRaises(md) ==> again.result == first.result)
  {
  }

  /** A 200 reply whose tables list is `null`: the first call returns `{}`,
      yet the reply is cached and the next call returns it. */
  lemma RaisingSummaryStillCaches(token: Option<string>, databaseId: int)
    requires Authenticated(token)
    ensures var md := Metadata(Has("db"), Null, 0);
      var first := MetadataCall(token, map[], databaseId, false, MetadataOk(md));
      var again := MetadataCall(token, first.cache, databaseId, false, MetadataFailed);
      first.result == EmptyMetadata && again.result == md && !IsEmpty(again.result)
  {
  }

  /** The metadata call as evidently intended: the printed summary does not
      decide the result, so a 200 reply is returned exactly as it is cached. */
  function MetadataCallCorrected(token: Option<string>, cache: map<int, Metadata>, databaseId: int,
                                 forceRefresh: bool, reply: MetadataReply): CacheStep
  {
    if !Authenticated(token) then CacheStep(EmptyMetadata, cache, false)
    else if databaseId in cache && !forceRefresh then CacheStep(cache[databaseId], cache, false)
    else match reply
      case MetadataFailed => CacheStep(EmptyMetadata, cache, true)
      case MetadataOk(md) => CacheStep(md, cache[databaseId := md], true)
  }

  /** With the correction, a call after a successful fetch or a cache hit
      returns what that call returned, whatever the reply; and the correction
      changes nothing when the summary does not raise. */
  lemma CorrectedCallIsRepeatable(token: Option<string>, cache: map<int, Metadata>, databaseId: int,
                                  forceRefresh: bool, reply: MetadataReply, second: MetadataReply)
    requires Authenticated(token)
    ensures var first := MetadataCallCorrected(token, cache, databaseId, forceRefresh, reply);
      var again := MetadataCallCorrected(token, first.cache, databaseId, false, second);
      (reply.MetadataOk? || !first.fetched) ==> again.result == first.result && !again.fetched
    ensures reply.MetadataFailed? || !SummaryRaises(reply.metadata) ==>
      MetadataCallCorrected(token, cache, databaseId, forceRefresh, reply)
        == MetadataCall(token, cache, databaseId, forceRefresh, reply)
  {
  }

  /** A 200 reply with the empty body `{}` is cached; every later validation
      of that database then passes without a fetch. */
  lemma EmptyBodyIsCachedAndFailsOpen(token: Option<string>, databaseId: int, sql: string,
                                      later: MetadataReply)
    requires Authenticated(token)
    ensures var first := MetadataCall(token, map[], databaseId, false, MetadataOk(EmptyMetadata));
      var again := MetadataCall(token, first.cache, databaseId, false, later);
      && first.cache == map[databaseId := EmptyMetadata]
      && !again.fetched
      && Validate(again.result, sql) == Returned(Verdict(true, []))
  {
    assert !SummaryRaises(EmptyMetadata);
  }

  /** What `export_schema_to_json` produces: nothing for falsy metadata,
      otherwise the document it writes. */
  datatype ExportResult = NothingToExport | Exported(doc: SchemaDoc)

  function ExportFrom(databaseId: int, md: Metadata): Outcome<ExportResult> {
    if IsEmpty(md) then Returned(NothingToExport)
    else match BuildExport(databaseId, md)
      case Returned(doc) => Returned(Exported(doc))
      case Raised => Raised
  }

  /** Falsy metadata exports nothing; otherwise the export raises exactly
      when the summary would, and else writes the document `BuildExport`
      describes. */
  lemma ExportCases(databaseId: int, md: Metadata)
    ensures ExportFrom(databaseId, md) == Returned(NothingToExport) <==> IsEmpty(md)
    ensures ExportFrom(databaseId, md).Raised? <==> !IsEmpty(md) && SummaryRaises(md)
    ensures ExportFrom(databaseId, md).Returned? && !IsEmpty(md) ==>
      ExportFrom(databaseId, md).value == Exported(BuildExport(databaseId, md).value)
  {
    ExportStructure(databaseId, md);
  }

  /** An export that fetches never raises: a reply whose tables cannot be read
      has already been turned into `{}`. */
  lemma FetchedExportNeverRaises(token: Option<string>, cache: map<int, Metadata>, databaseId: int,
                                 reply: MetadataReply)
    requires databaseId !in cache
    ensures !ExportFrom(databaseId, MetadataCall(token, cache, databaseId, false, reply).result).Raised?
  {
    ExportCases(databaseId, MetadataCall(token, cache, databaseId, false, reply).result);
  }

  /** After a 200 reply whose tables list is `null`, the first export finds
      nothing to export, and the second, served from the cache, raises. */
  lemma SecondExportRaises(token: Option<string>, databaseId: int, later: MetadataReply)
    requires Authenticated(token)
    ensures var md := Metadata(Has("db"), Null, 0);
      var first := MetadataCall(token, map[], databaseId, false, MetadataOk(md));
      var again := MetadataCall(token, first.cache, databaseId, false, later);
      && ExportFrom(databaseId, first.result) == Returned(NothingToExport)
      && ExportFrom(databaseId, again.result) == Raised
  {
    var md := Metadata(Has("db"), Null, 0);
    ExportCases(databaseId, md);
  }

  class MetabaseClient {
    const baseUrl: string
    const username: string
    const password: string
    var sessionToken: Option<string>
    var schemaCache: map<int, Metadata>
    /** Every request sent so far, in order. */
    ghost var requests: seq<Request>

    constructor (url: string, username: string, password: string)
      ensures baseUrl == StripTrailingSlashes(url)
      ensures this.username == username && this.password == password
      ensures sessionToken == None && schemaCache == map[] && requests == []
    {
      baseUrl := StripTrailingSlashes(url);
      this.username := username;
      this.password := password;
      sessionToken := None;
      schemaCache := map[];
      requests := [];
    }

    /** Lines 21-42. A 200 reply stores `data.get('id')`; printing its first
        ten characters raises on `None`, so the call then reports failure
        with the token cleared. Any other reply leaves the token alone. */
    method Authenticate(reply: AuthReply) returns (ok: bool)
      modifies this`sessionToken, this`requests
      ensures requests == old(requests) + [SessionPost(username, password)]
      ensures reply.AuthOk? ==> sessionToken == Get(reply.id) && ok == reply.id.Has?
      ensures !reply.AuthOk? ==> sessionToken == old(sessionToken) && !ok
    {
      requests := requests + [SessionPost(username, password)];
      match reply {
        case AuthOk(id) =>
          sessionToken := Get(id);
          ok := sessionToken.Some?;
        case _ =>
          ok := false;
      }
    }

    /** Lines 51-76. */
    method ListDatabases(reply: DatabasesReply) returns (dbs: seq<Database>)
      modifies this`requests
      ensures !Authenticated(sessionToken) ==> dbs == [] && requests == old(requests)
      ensures Authenticated(sessionToken) ==>
        dbs == DatabasesFrom(reply) && requests == old(requests) + [DatabaseGet]
    {
      if !Authenticated(sessionToken) {
        return [];
      }
      requests := requests + [DatabaseGet];
      dbs := DatabasesFrom(reply);
    }

    /** Lines 78-115: cache first, then one fetch. */
    method GetDatabaseMetadata(databaseId: int, forceRefresh: bool, reply: MetadataReply)
      returns (md: Metadata)
      modifies this`schemaCache, this`requests
      ensures var step := MetadataCall(old(sessionToken), old(schemaCache), databaseId, forceRefresh, reply);
        && md == step.result && schemaCache == step.cache
        && requests == old(requests) + (if step.fetched then [MetadataGet(databaseId)] else [])
    {
      if !Authenticated(sessionToken) {
        return EmptyMetadata;
      }
      if databaseId in schemaCache && !forceRefresh {
        return schemaCache[databaseId];
      }
      requests := requests + [MetadataGet(databaseId)];
      match reply {
        case MetadataFailed =>
          md := EmptyMetadata;
        case MetadataOk(fetched) =>
          schemaCache := schemaCache[databaseId := fetched];
          var total := CountColumns(fetched);
          md := if total.Raised? then EmptyMetadata else fetched;
      }
    }

    /** Lines 117-152; the file write is not modelled. */
    method ExportSchemaToJson(databaseId: int, reply: MetadataReply) returns (r: Outcome<ExportResult>)
      modifies this`schemaCache, this`requests
      ensures var step := MetadataCall(old(sessionToken), old(schemaCache), databaseId, false, reply);
        && r == ExportFrom(databaseId, step.result) && schemaCache == step.cache
        && requests == old(requests) + (if step.fetched then [MetadataGet(databaseId)] else [])
    {
      var md := GetDatabaseMetadata(databaseId, false, reply);
      r := ExportFrom(databaseId, md);
    }

    /** Lines 252-291. */
    method ValidateSqlAgainstSchema(databaseId: int, sql: string, reply: MetadataReply)
      returns (v: Outcome<Verdict>)
      modifies this`schemaCache, this`requests
      ensures var step := MetadataCall(old(sessionToken), old(schemaCache), databaseId, false, reply);
        && v == Validate(step.result, sql) && schemaCache == step.cache
        && requests == old(requests) + (if step.fetched then [MetadataGet(databaseId)] else [])
    {
      var md := GetDatabaseMetadata(databaseId, false, reply);
      v := CheckSql(md, sql);
    }

    /** Lines 203-250: the token guard, the payload, and the body passed back. */
    method ExecuteSql(databaseId: int, sql: string, reply: QueryReply) returns (body: Body)
      modifies this`requests
      ensures !Authenticated(sessionToken) ==> body == map[] && requests == old(requests)
      ensures Authenticated(sessionToken) ==>
        && requests == old(requests) + [DatasetPost(NativeQuery(databaseId, "native", sql))]
        && (reply.QueryAccepted? || reply.QueryCompleted? ==> body == reply.body)
        && (reply.QueryFailed? ==> body == map[])
    {
      if !Authenticated(sessionToken) {
        return map[];
      }
      requests := requests + [DatasetPost(Payload(databaseId, sql))];
      body := QueryResult(reply);
    }
  }

  /** A client whose authentication was rejected sends nothing more: listing,
      metadata and queries all come back empty and the cache stays empty. */
  method RejectedSessionSendsNothing(url: string, user: string, pass: string, id: int, sql: string,
                                     dbReply: DatabasesReply, mdReply: MetadataReply, qReply: QueryReply)
    returns (c: MetabaseClient)
    ensures c.requests == [SessionPost(user, pass)] && c.schemaCache == map[]
  {
    c := new MetabaseClient(url, user, pass);
    var ok := c.Authenticate(AuthRejected);
    assert !ok;
    var dbs := c.ListDatabases(dbReply);
    var md := c.GetDatabaseMetadata(id, true, mdReply);
    var body := c.ExecuteSql(id, sql, qReply);
    assert dbs == [] && md == EmptyMetadata && body == map[];
  }

  /** Two metadata requests for one database send one fetch and return the
      same value. */
  method CachedTwice(c: MetabaseClient, id: int, md: Metadata, second: MetadataReply)
    returns (first: Metadata, again: Metadata)
    requires Authenticated(c.sessionToken) && id !in c.schemaCache && !SummaryRaises(md)
    modifies c`schemaCache, c`requests
    ensures first == md && again == md
    ensures c.schemaCache == old(c.schemaCache)[id := md]
    ensures c.requests == old(c.requests) + [MetadataGet(id)]
  {
    first := c.GetDatabaseMetadata(id, false, MetadataOk(md));
    again := c.GetDatabaseMetadata(id, false, second);
  }
}
