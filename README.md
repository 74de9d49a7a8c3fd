# Metabase client: a Dafny model

This project models the core of a small Metabase API client
(`metabase_client.py`). The client logs in to a Metabase server, keeps one
session token, and caches each database's schema metadata by id. It uses that
metadata in three ways:

- it exports a simplified JSON schema document;
- it prints a type descriptor for each column;
- it checks the table names that follow `FROM` and `JOIN` in a SQL text
  against the tables the schema knows.

The model has seven modules:

- `Values`: the three states of a JSON key, and `Outcome` for an exception
  that escapes.
  - A key is `Absent`, `Null` or `Has` a value.
  - Python's `.get(k, d)` uses its default only for a missing key.
  - A `null` value reaches `.lower()`, `.replace()`, `len` or a `for` loop and
    raises.
- `Schema`: the metadata a server returns.
  - Metadata is "falsy" when its body is `{}`.
  - The summary in `get_database_metadata` raises on `null` tables or fields.
    `CountColumns` is that summary as a loop.
- `TypeInfo`: the type descriptor built for each column.
  - It includes Python's single left-to-right `str.replace`.
- `Export`: the document `export_schema_to_json` builds.
- `SqlScan`: the regular expression
  `\b(?:from|join)\s+([a-z_][a-z0-9_]*(?:\.[a-z_][a-z0-9_]*)?)\b`, written as an
  explicit scanner.
  - The scanner follows backtracking semantics: the whitespace run is taken
    whole, and the dotted part is tried before the plain name.
  - `re.findall` resumes at the end of each match.
- `Validation`: the lookup table of valid names and the issue list.
  - `CheckSql` is the loop procedure.
  - `Validate` is its specification.
- `Client`: the `MetabaseClient` class.
  - It holds a session token and a schema cache.
  - A ghost log records every request sent.
  - Each network call becomes a reply parameter: the answer the server would
    give if asked.
  - `MetadataCall` is the cache logic as a function, and
    `MetabaseClient.GetDatabaseMetadata` is proved against it.

Two details of the code, as written, are modelled faithfully:

- `get_database_metadata` stores a 200 reply in the cache *before* it prints
  the summary (line 99, then lines 102-106). When the summary raises, the
  method returns `{}`, but the reply stays cached. The next call then returns
  it (`Client.RaisingSummaryStillCaches`). An export served from that cache
  entry raises (`Client.SecondExportRaises`).
- A 200 reply whose body is `{}` is cached as well. Every later validation of
  that database then passes without a fetch
  (`Client.EmptyBodyIsCachedAndFailsOpen`).

## Model

| member | source | states |
|---|---|---|
| Values.GetOr | metabase_client.py:128 | definition of `.get(k, d)` on the three key states, used for `name` (line 128), `description` (line 148) and the type keys (lines 187-188); specified through Export.ExportStructure, Export.TablesDocPointwise and TypeInfo.TypeDescriptorAsWritten |
| Values.Get | metabase_client.py:32 | definition of `.get(k)`; specified through Client.MetabaseClient.Authenticate |
| Schema.EmptyIsFalsy | metabase_client.py:121 | metadata is falsy exactly when it is the empty object `{}` |
| Schema.IsEmpty | metabase_client.py:121 | definition of falsy metadata; specified by Schema.EmptyIsFalsy |
| Schema.FieldsOf | metabase_client.py:105 | definition of `t.get('fields', [])` read as a list; specified through Schema.CountColumns and Export.TablesDocPointwise |
| Schema.TablesOf | metabase_client.py:102 | definition of `metadata.get('tables', [])` read as a list; specified through Schema.CountColumns and Export.ExportStructure |
| Schema.FieldsUnreadable | metabase_client.py:105 | definition of a table whose `fields` is `null`, on which `len` at line 105 and the loop at line 141 raise; specified through Schema.CountColumns and Export.TablesDocPointwise |
| Schema.SummaryRaises | metabase_client.py:102-106 | definition of when the summary raises; specified by Schema.CountColumns |
| Schema.FieldCount | metabase_client.py:105 | definition of the column total of a run of tables; specified by Schema.FieldCountAppend and Schema.CountColumns |
| Schema.TotalColumns | metabase_client.py:105 | definition of the summary's column total; specified by Schema.CountColumns and Export.ExportColumnTotal |
| Schema.FieldCountAppend | metabase_client.py:105 | the column total over two runs of tables is the sum of their totals |
| Schema.CountColumns | metabase_client.py:102-106 | the summary loop raises exactly when tables or some table's fields are `null`, and otherwise computes the total column count |
| TypeInfo.RemoveAll | metabase_client.py:187-188 | `str.replace(pat, '')` never lengthens the string; its meaning is specified by TypeInfo.RemoveAllNoOccurrence, TypeInfo.RemoveAllLeading, TypeInfo.RemoveAllFirst and TypeInfo.RemoveAllKeepsCharacters |
| TypeInfo.RemoveAllNoOccurrence | metabase_client.py:187-188 | a string without the pattern comes back unchanged |
| TypeInfo.NoSlashNoTypePrefix | metabase_client.py:187-188 | a string without `/` cannot contain `type/` |
| TypeInfo.RemoveAllLeading | metabase_client.py:187-188 | a leading occurrence of the pattern is removed and the scan continues after it |
| TypeInfo.RemoveAllFirst | metabase_client.py:187-188 | the first occurrence, wherever it stands, is removed, the text before it is kept, and the scan goes on after it |
| TypeInfo.RemoveAllKeepsCharacters | metabase_client.py:187-188 | replacing adds no character that was not already there |
| TypeInfo.StripTypeIsSinglePass | metabase_client.py:187-188 | one pass over `typetype//` leaves `type/`, which still contains the prefix |
| TypeInfo.StripType | metabase_client.py:187-188 | definition of `.replace('type/', '')`; specified by TypeInfo.StripTypeIsSinglePass and TypeInfo.StripSlot |
| TypeInfo.StripSlot | metabase_client.py:187-188 | a key holding `type/x`, or missing with default `x`, strips to `x` when `x` has no `type/` |
| TypeInfo.SemanticSuffix | metabase_client.py:191-193 | definition of the ` [semantic]` suffix; specified by TypeInfo.DescriptorOfTypeNames |
| TypeInfo.TypeDescriptorAsWritten | metabase_client.py:187-193 | the descriptor as written raises exactly when `base_type` or `semantic_type` is `null` |
| TypeInfo.TypeDescriptor | metabase_client.py:187-193 | the corrected descriptor agrees with the one as written wherever that one does not raise |
| TypeInfo.NullSemanticTypeRaises | metabase_client.py:188 | a field with `semantic_type: null` makes the code as written raise, while the corrected descriptor gives `Integer` |
| TypeInfo.DescriptorOfTypeNames | metabase_client.py:187-193 | for `type/B` and `type/C` (or missing keys) the descriptor is `B`, or `B [C]` when there is a semantic type |
| Export.ColumnOf | metabase_client.py:142-149 | definition of one column entry; specified by Export.ColumnsOfPointwise |
| Export.ColumnsOf | metabase_client.py:141-150 | definition of the column loop; specified by Export.ColumnsOfPointwise |
| Export.TableOf | metabase_client.py:133-152 | definition of one table entry; specified by Export.TablesDocPointwise |
| Export.TablesDoc | metabase_client.py:132-152 | definition of the table loop; specified by Export.TablesDocPointwise and Export.TablesDocTotal |
| Export.BuildExport | metabase_client.py:126-152 | definition of the export document; specified by Export.ExportStructure and Export.ExportColumnTotal |
| Export.ColumnsOfPointwise | metabase_client.py:141-150 | one column entry per field, in order, each copying the field's keys, with `description` defaulting to `""` |
| Export.TablesDocPointwise | metabase_client.py:132-152 | the table loop raises exactly when some table's `fields` is `null`; otherwise there is one entry per table, in order, mirroring its keys and columns |
| Export.ExportStructure | metabase_client.py:126-152 | the export raises exactly when the summary would; otherwise the document has the id, the name (default `Unknown`) and one mirrored entry per table |
| Export.ExportColumnTotal | metabase_client.py:160 | the document's column total equals the metadata's field total |
| Export.TablesDocTotal | metabase_client.py:141-152 | the column entries of the built tables number as many as their fields |
| SqlScan.IsWordChar | metabase_client.py:277 | definition of `\w`, restricted to ASCII; specified through SqlScan.LoweredWordAt and, by way of SqlScan.Boundary, SqlScan.MatchAt |
| SqlScan.IsSpace | metabase_client.py:277 | definition of `\s`, restricted to ASCII (code points 9-13 and 28-32); specified through SqlScan.SkipSpaces and SqlScan.SkipSpacesOver |
| SqlScan.IdentStart | metabase_client.py:277 | definition of `[a-z_]`; specified through SqlScan.MatchAtLowered and SqlScan.FindAllNames |
| SqlScan.IdentChar | metabase_client.py:277 | definition of `[a-z0-9_]`; specified through SqlScan.SkipIdent and SqlScan.SkipIdentOver |
| SqlScan.Boundary | metabase_client.py:277 | definition of `\b`: a word character on exactly one side; specified through SqlScan.MatchAt and SqlScan.LoweredBoundaryAfterIdent |
| SqlScan.KeywordAt | metabase_client.py:277 | definition of `(?:from\|join)` at a position; specified through SqlScan.MatchAt, SqlScan.MatchAtLowered and SqlScan.NoKeywordNoTables |
| SqlScan.LowerChar | metabase_client.py:272 | definition of lowering one character; specified by SqlScan.LowerIsLowered |
| SqlScan.Lower | metabase_client.py:272 | definition of `sql.lower()`; specified by SqlScan.LowerIsLowered, SqlScan.LowerAppend and SqlScan.FindTablesIgnoresCase |
| SqlScan.LowerIsLowered | metabase_client.py:272 | `sql.lower()` leaves no capital letter and is idempotent |
| SqlScan.SkipSpaces | metabase_client.py:277 | `\s+` takes the whole whitespace run |
| SqlScan.SkipIdent | metabase_client.py:277 | `[a-z0-9_]*` takes the whole identifier run |
| SqlScan.CaptureEnd | metabase_client.py:277 | the captured group is a name or `schema.name` followed by a word boundary; the dotted form is tried first |
| SqlScan.MatchAt | metabase_client.py:277 | a match has the keyword at a word boundary, at least one whitespace, a captured name or `schema.name`, and a word boundary after it |
| SqlScan.LoweredWordAt | metabase_client.py:272-277 | on lowered text `\w` and the identifier class agree |
| SqlScan.LoweredBoundaryAfterIdent | metabase_client.py:277 | on lowered text, a word boundary always follows a maximal identifier |
| SqlScan.CaptureEndLowered | metabase_client.py:272-277 | on lowered text a group that starts with `[a-z_]` always finds its closing boundary |
| SqlScan.MatchAtLowered | metabase_client.py:277 | on lowered text the pattern matches at a position exactly when a keyword at a boundary is followed by whitespace and an identifier start |
| SqlScan.CaptureEndMaximal | metabase_client.py:277 | on lowered text the group is maximal: no identifier character follows it, nor a `.name` it left out |
| SqlScan.MatchAtMaximal | metabase_client.py:277 | on lowered text the capture is maximal: no identifier character follows it, nor a `.name` it left out |
| SqlScan.SkipSpacesOver | metabase_client.py:277 | a whitespace run ending at a non-space is skipped to its end |
| SqlScan.SkipIdentOver | metabase_client.py:277 | an identifier run ending at a non-identifier character is skipped to its end |
| SqlScan.CapturesPlainName | metabase_client.py:277 | a name with no word character and no `.name` after it is the whole group |
| SqlScan.CapturesQualifiedName | metabase_client.py:277 | `schema.name` with no word character after it is the whole group |
| SqlScan.MatchesPlainName | metabase_client.py:277 | a keyword, whitespace and a name with no `.name` after it is captured as that name |
| SqlScan.MatchesQualifiedName | metabase_client.py:277 | a keyword, whitespace and `schema.name` is captured whole |
| SqlScan.FindAll | metabase_client.py:278 | definition of `re.findall` from a position; specified by SqlScan.FindAllNames, SqlScan.FindAllSound, SqlScan.FindAllLeftmost, SqlScan.FindAllPass, SqlScan.FindAllTake and SqlScan.FindAllBound |
| SqlScan.FindAllSkip | metabase_client.py:278 | text with no `f` and no `j` yields no match |
| SqlScan.FindAllNames | metabase_client.py:278 | every name found is an identifier or `schema.identifier` |
| SqlScan.FindAllPass | metabase_client.py:278 | `findall` moves on by one character where the pattern fails |
| SqlScan.FindAllTake | metabase_client.py:278 | a match contributes its captured group and the search resumes at its end |
| SqlScan.FindTables | metabase_client.py:272-278 | every name found in the lowered SQL is an identifier or `schema.identifier` |
| SqlScan.FindAllSound | metabase_client.py:278 | every name found is captured by a match at some position of the text |
| SqlScan.FindAllLeftmost | metabase_client.py:278 | `findall` takes the leftmost match and resumes at its end |
| SqlScan.NoKeywordNoTables | metabase_client.py:278 | text with no `from` or `join` yields no names |
| SqlScan.FindAllBound | metabase_client.py:278 | each name found uses at least six characters of the text |
| SqlScan.FindTablesIgnoresCase | metabase_client.py:272-278 | lowering the SQL first changes nothing |
| SqlScan.LowerAppend | metabase_client.py:272 | lowering distributes over concatenation |
| SqlScan.ConsumedKeywordIsNotRescanned | metabase_client.py:278 | in `from join x` the name `join` is consumed, so `x` is not found |
| SqlScan.JoinExampleFirstMatch | metabase_client.py:277 | in the lowered join example the `from` at position 9 captures `orders` |
| SqlScan.JoinExampleSecondMatch | metabase_client.py:277 | in the lowered join example the `join` at position 21 captures `missing_table` |
| SqlScan.JoinExampleRest | metabase_client.py:278 | from the end of the first clause the lowered join example yields only `missing_table` |
| SqlScan.JoinExampleScan | metabase_client.py:278 | the lowered join example yields `orders`, then `missing_table` |
| SqlScan.JoinExampleLowered | metabase_client.py:272 | lowering the join example changes only its keywords |
| SqlScan.JoinExampleTables | metabase_client.py:272-278 | `SELECT * FROM orders JOIN missing_table ON 1=1` yields `orders`, then `missing_table` |
| SqlScan.QualifiedExampleMatch | metabase_client.py:277 | the qualified example's `from` captures `public.orders` |
| SqlScan.QualifiedExampleScan | metabase_client.py:278 | the lowered qualified example yields `public.orders` only |
| SqlScan.QualifiedExampleLowered | metabase_client.py:272 | lowering the qualified example changes only its keywords |
| SqlScan.QualifiedExampleTables | metabase_client.py:272-278 | `SELECT * FROM public.orders o` yields `public.orders` only |
| Validation.LowerSlot | metabase_client.py:263-264 | `.get(k, d).lower()` raises exactly when the value is `null` |
| Validation.ColumnNames | metabase_client.py:267 | definition of the lowered column list; specified by Validation.ColumnNamesRaises and Validation.LowerColumnNames |
| Validation.TableUnreadable | metabase_client.py:263-267 | definition of a table on which lines 263-267 raise (`null` name, schema, fields or field name); specified through Validation.EntryOfRaises and Validation.LookupRaises |
| Validation.BareName | metabase_client.py:263 | definition of the bare lookup key; specified by Validation.EntryOfRaises and Validation.LookupKeys |
| Validation.QualifiedName | metabase_client.py:264-265 | definition of the `schema.name` lookup key; specified by Validation.EntryOfRaises and Validation.LookupKeys |
| Validation.EntryOf | metabase_client.py:263-269 | definition of one table's lookup entry; specified by Validation.EntryOfRaises |
| Validation.LookupOf | metabase_client.py:261-269 | definition of the lookup dictionary; specified by Validation.LookupRaises, Validation.LookupKeys and Validation.BuildLookup |
| Validation.Issues | metabase_client.py:280-282 | definition of the issue list; specified by Validation.IssuesAppend, Validation.IssuesSingle, Validation.IssuesEmpty and Validation.CollectIssues |
| Validation.Validate | metabase_client.py:252-291 | definition of the validation verdict; specified by Validation.FailOpen, Validation.ValidateSpec and Validation.CheckSql |
| Validation.ColumnNamesRaises | metabase_client.py:267 | the column list raises exactly when some field name is `null`, and otherwise has one name per field |
| Validation.EntryOfRaises | metabase_client.py:263-269 | a table's entry raises exactly when its name, schema, fields or a field name is `null`; otherwise it is `name` and `schema.name` (schema default `public`), both lowered |
| Validation.LookupRaises | metabase_client.py:261-269 | building the lookup raises exactly when some table is unreadable |
| Validation.LookupStep | metabase_client.py:262-269 | one iteration adds exactly the table's bare and qualified keys |
| Validation.LookupKeySet | metabase_client.py:261-269 | the lookup's keys are the names of its tables |
| Validation.NamesOfContains | metabase_client.py:263-269 | every table's bare and qualified name is among the names |
| Validation.NamesOfOnly | metabase_client.py:263-269 | every name is some table's bare or qualified name |
| Validation.LookupKeys | metabase_client.py:261-269 | the lookup's keys are exactly the bare and qualified names of the tables |
| Validation.IssuesAppend | metabase_client.py:280-282 | the issue list of two runs of names is the concatenation of theirs |
| Validation.IssuesSingle | metabase_client.py:281-282 | one name gives `Table not found: <name>` exactly when it is not a key |
| Validation.IssuesEmpty | metabase_client.py:280-288 | there are no issues exactly when every found name is valid, and never more issues than names |
| Validation.FailOpen | metabase_client.py:256-258 | with no schema the SQL passes with no issues |
| Validation.ValidateSpec | metabase_client.py:252-291 | validation raises exactly when tables or some table are unreadable; otherwise it passes exactly when every found name is some table's bare or qualified name, and the issues are those of the found names |
| Validation.LowerColumnNames | metabase_client.py:267 | the comprehension's loop computes the lowered column names, raising on a `null` name |
| Validation.BuildLookup | metabase_client.py:261-269 | the loop computes the lookup `LookupOf` specifies, raising on an unreadable table |
| Validation.CollectIssues | metabase_client.py:280-282 | the loop computes the issue list `Issues` specifies |
| Validation.CheckSql | metabase_client.py:256-291 | the loops compute the verdict `Validate` specifies |
| Validation.SampleLookup | metabase_client.py:261-269 | tables `orders` and `customers` give the keys `orders`, `public.orders`, `customers`, `public.customers` |
| Validation.MissingTableReported | metabase_client.py:252-291 | joining an unknown table fails with the single issue `Table not found: missing_table` |
| Validation.QualifiedTableAccepted | metabase_client.py:252-291 | `public.orders` passes against a schema holding `orders` |
| Validation.NoTablesRejectsEveryName | metabase_client.py:256-288 | with an empty tables list every found name is an issue; the SQL passes only when no name is found |
| Validation.AllUnknown | metabase_client.py:280-282 | against no valid names each found name gives one issue |
| Client.StripTrailingSlashes | metabase_client.py:15 | `rstrip('/')` gives a prefix of the url, not ending in `/`, with only slashes removed |
| Client.Authenticated | metabase_client.py:53 | definition of the token guard `not self.session_token` (also lines 80 and 205); specified through Client.NoTokenNoFetch and the class methods |
| Client.Printable | metabase_client.py:68 | definition of an entry the listing loop can print; specified through Client.DatabasesFrom |
| Client.DatabasesFrom | metabase_client.py:64-76 | a non-empty listing is the server's `data` list; a list whose entries all have `id`, `name` and `engine` comes back whole; a list with an entry lacking one of them gives `[]` |
| Client.Payload | metabase_client.py:210-216 | definition of the native-query body; specified through Client.MetabaseClient.ExecuteSql |
| Client.QueryResult | metabase_client.py:226-250 | definition of the result of a query reply; specified through Client.MetabaseClient.ExecuteSql |
| Client.MetadataCall | metabase_client.py:80-115 | definition of the cache logic; specified by Client.NoTokenNoFetch, Client.CacheHit, Client.FetchesWhen, Client.SuccessfulFetch, Client.FailedFetchKeepsCache and Client.RepeatedCallFetchesOnce |
| Client.NoTokenNoFetch | metabase_client.py:80-82 | without a token nothing is fetched, the result is `{}` and the cache is unchanged |
| Client.CacheHit | metabase_client.py:85-87 | a cached entry is returned without a fetch when no refresh is forced |
| Client.FetchesWhen | metabase_client.py:80-95 | a fetch happens exactly when there is a token and the entry is missing or a refresh is forced |
| Client.SuccessfulFetch | metabase_client.py:97-108 | a 200 reply is stored under the id, replacing any earlier entry, no other entry changes, and it is returned unless the summary raises |
| Client.FailedFetchKeepsCache | metabase_client.py:109-115 | a failed fetch returns `{}` and keeps the cache, including an earlier good entry |
| Client.RepeatedCallFetchesOnce | metabase_client.py:85-108 | after a successful fetch the next call is served from the cache, and returns the same value unless that fetch's summary raised |
| Client.RaisingSummaryStillCaches | metabase_client.py:97-115 | a reply with `null` tables gives `{}` first and is returned from the cache next time |
| Client.EmptyBodyIsCachedAndFailsOpen | metabase_client.py:97-108 | a `{}` reply is cached, and later validations pass without a fetch |
| Client.MetadataCallCorrected | metabase_client.py:97-108 | definition of the metadata call with the summary no longer deciding the result; specified by Client.CorrectedCallIsRepeatable |
| Client.CorrectedCallIsRepeatable | metabase_client.py:85-108 | with the correction, a call after a successful fetch or a cache hit returns the same value, and the correction changes nothing when the summary does not raise |
| Client.ExportFrom | metabase_client.py:119-152 | definition of the export on the metadata returned; specified by Client.ExportCases |
| Client.ExportCases | metabase_client.py:121-152 | falsy metadata exports nothing; otherwise the export raises exactly when the summary would, and else writes the built document |
| Client.FetchedExportNeverRaises | metabase_client.py:97-152 | an export that fetches never raises |
| Client.SecondExportRaises | metabase_client.py:97-152 | after a reply with `null` tables the first export has nothing to export and the second raises |
| Client.MetabaseClient.constructor | metabase_client.py:14-19 | the base url without its trailing slashes, the credentials, no token, an empty cache |
| Client.MetabaseClient.Authenticate | metabase_client.py:21-42 | a 200 reply sets the token to the body's `id` and succeeds exactly when there is one; any other reply changes nothing and fails |
| Client.MetabaseClient.ListDatabases | metabase_client.py:51-76 | without a token no request is sent and the result is empty; otherwise one request and the listing |
| Client.MetabaseClient.GetDatabaseMetadata | metabase_client.py:78-115 | the result, the new cache and the requests sent are those `MetadataCall` describes |
| Client.MetabaseClient.ExportSchemaToJson | metabase_client.py:117-152 | the export of what the metadata call returns, with that call's cache and requests |
| Client.MetabaseClient.ValidateSqlAgainstSchema | metabase_client.py:252-291 | the validation verdict on what the metadata call returns, with that call's cache and requests |
| Client.MetabaseClient.ExecuteSql | metabase_client.py:203-250 | without a token no request is sent and the result is `{}`; otherwise one native-query request with the id and SQL, the body of a 202 or 200 reply as it is, and `{}` for a failed reply |
| Client.RejectedSessionSendsNothing | metabase_client.py:21-115 | after a rejected login the client sends nothing more and caches nothing |
| Client.CachedTwice | metabase_client.py:85-108 | two metadata calls for one database send one request, return the same metadata and leave it cached under the id |

## Left out

- HTTP is not modelled: the URLs, headers, timeouts and status codes are left out. Each request is one reply parameter, and the ghost request log stands in for the traffic.
- Console output is left out: the summaries, the printed issues and `print_schema_summary`'s layout. Of `print_schema_summary`, only the type descriptor of lines 187-193 is modelled.
- `export_schema_to_json` does not write a file. The model returns the document that would be written; the file's name and its JSON text are not modelled.
- `execute_sql`'s inspection of a 200 body (lines 236-240) only prints, so it is left out. A body whose `data` entry has the wrong shape could raise there and give `{}`; the model does not capture this.
- `main`, environment variables and `.env` loading are not part of this model.
- JSON values of the wrong type, such as a number where a string is expected, are not modelled. Each key is missing, `null`, or holds a value of the expected type.
- A body that is not JSON is folded into the failure replies (`AuthUnreachable`, `DatabasesFailed`, `MetadataFailed`, `QueryFailed`).
- Metadata keys other than `name` and `tables` are kept only as a count. That count decides whether the body is falsy.
- Client.MetabaseClient.ValidateSqlAgainstSchema: returns a `Verdict` (the boolean plus the printed issue list) rather than the bare boolean.
- SqlScan.Lower: ASCII only. `str.lower()` also lowers non-ASCII letters, and `\s`/`\w` in Python's Unicode mode accept more characters. The model uses ASCII `\w` (`[A-Za-z0-9_]`), and `\s` as code points 9-13 and 28-32.
- Client.DatabasesFrom: when some entry lacks `id`, `name` or `engine`, the print at line 68 raises and the handler returns `[]`; the entries printed before it are not modelled.

## Findings

| source | as written | input that shows it | evidently intended | confidence | as-written member | corrected member |
|---|---|---|---|---|---|---|
| metabase_client.py:188 | `field.get('semantic_type', '').replace('type/', '')` calls `replace` on `None` when the key is present with value `null` | a field `{"id": 1, "name": "id", "display_name": "ID", "base_type": "type/Integer", "semantic_type": null}` | a `null` semantic type is treated like a missing one, giving the descriptor `Integer` | not executed | TypeInfo.TypeDescriptorAsWritten (shown by TypeInfo.NullSemanticTypeRaises) | TypeInfo.TypeDescriptor (with TypeInfo.DescriptorOfTypeNames) |
| metabase_client.py:99-108 | the reply is cached at line 99 before the summary at lines 102-106; when the summary raises, the handler returns `{}` although the reply is now cached | a 200 reply `{"name": "db", "tables": null}`: the first call returns `{}`, the next call returns the cached reply | the value returned for a 200 reply is the value cached, so a repeated call returns what the first returned | not executed | Client.MetadataCall (shown by Client.RaisingSummaryStillCaches and Client.SecondExportRaises) | Client.MetadataCallCorrected (with Client.CorrectedCallIsRepeatable) |
