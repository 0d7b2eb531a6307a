# dbt-databricks metadata parsing and connection settings, in Dafny

This project models the pure core of the dbt-databricks adapter:

- the transforms that turn the engine's semi-structured catalog output into column records;
- the checks that turn a connection profile into validated connection settings.

Each operation is a Dafny function over strings, sequences and insertion-ordered dicts. Python's `dict` becomes `OrderedDict.Dict`, a sequence of entries. The behaviour modelled is the behaviour the adapter's unit tests pin down. The modules are:

- `DescribeExtended`: `parse_describe_extended`.
  - The rows of `DESCRIBE TABLE EXTENDED` up to the first section marker (a name starting with `#`, or a row without a name) become columns.
  - The rows after that marker become the table metadata. The marker row itself is not part of it.
  - Owner and statistics come from the metadata and are attached to every column.
- `TableStatistics`: decomposition of the `"<n> bytes[, <m> rows]"` statistics string into metrics. Also the flattened `stats:<metric>:{label,value,description,include}` entries of a column dict.
- `InformationBlob`: `parse_columns_from_information`.
  - Top-level ` |-- name: type (nullable = …)` lines of the schema tree become columns. They are read with the semantics of the pattern `^ \|-- (.*): (.*) \(nullable = (.*)\b`.
  - Nested ` |    |-- ` lines are ignored.
  - Owner and statistics come from the first `Owner: ` and `Statistics: ` lines.
- `InformationExamples`: the three sample blobs (a delta table, a view, a parquet table), each read to its full column list.
- `IdentifierList`: `get_identifier_list_string`. It gives the `|`-join of the names, or `*` when the `DBT_DESCRIBE_TABLE_2048_CHAR_BYPASS` setting is `"true"` and the join is too long.
- `NotFound`: `check_not_found_error`. It is true when the message contains `[SCHEMA_NOT_FOUND]`, or `Database` followed anywhere later by `not found`.
- `PersistDocs`: `get_persist_doc_columns`. It keeps the documented columns whose description is not already the comment of the existing column of the same name.
- `Credentials`:
  - profile validation: the duplicate catalog settings, reserved connection parameters, and the shape of `http_headers`;
  - the user agent with its invocation-environment tag;
  - merging the environment's HTTP headers with the user's.
- Shared modules: `Wrappers` (`Option`, `Result`), `Strings` (search, split/join, decimal conversion), `OrderedDict`, `Columns` (the column record).

Every source location below is in `tests/unit/test_adapter.py`. That file is the behavioural contract of these functions. The adapter's implementation modules (`impl.py`, `connections.py`, `column.py`) are not part of this model.

## Model

| member | source | states |
|---|---|---|
| DescribeExtended.ParseDescribeExtended | tests/unit/test_adapter.py:359-491 | The columns are exactly the rows before the first section-marker row, in order, with `column_index` 0..n-1 and the type copied verbatim. Precision, scale and char size are unset. Database, schema, name and type come from the relation. Owner and statistics come from the metadata's `Owner` and `Statistics` entries. |
| DescribeExtended.MetadataIsRowsAfterSeparator | tests/unit/test_adapter.py:377-421 | The metadata holds exactly the names of the rows after the separator row, each with the value of the last such row. The separator row and the column rows contribute nothing. Output without a separator has no metadata. |
| DescribeExtended.MetadataValueOfLastRow | tests/unit/test_adapter.py:403-421 | A row after the separator, with no later row of the same name, gives its name its metadata value. |
| DescribeExtended.ParseOfSections | tests/unit/test_adapter.py:369-421 | Column rows, one marker row and further rows parse into the columns of the leading rows and the metadata of the further rows. |
| DescribeExtended.NoSeparatorAllColumns | tests/unit/test_adapter.py:369-424 | Output with no marker row is all columns, in order, and empty metadata. |
| DescribeExtended.StatisticsOnEveryColumn | tests/unit/test_adapter.py:535-597 | A rendered statistics value in the metadata is parsed once, and the same statistics are attached to every column. |
| DescribeExtended.NoStatisticsRowNoStatistics | tests/unit/test_adapter.py:425-491 | Without a textual `Statistics` row the columns carry no statistics. |
| DescribeExtended.ParseRelationColumnsExample | tests/unit/test_adapter.py:359-491 | The sample output gives exactly four columns, col1, col2, dt and struct_col. Each has its verbatim type, owner `root`, no precision, scale or size, and no statistics. |
| DescribeExtended.ParseRelationMetadataExample | tests/unit/test_adapter.py:377-421 | The sample metadata maps `# col_name`, `dt`, the null name and `Owner` to their values. It has no entry for `# Partition Information` or `col1`. |
| DescribeExtended.OwnerString | tests/unit/test_adapter.py:493-514 | An owner is reported exactly when the metadata holds a non-null `Owner` value. A textual owner is kept verbatim; a numeric owner becomes a decimal string that reads back as that number. |
| DescribeExtended.StatisticsRelationExample | tests/unit/test_adapter.py:516-597 | The table reporting `1109049927 bytes, 14093476 rows` gives exactly one column, `col1` of type `decimal(22,0)`, owned by `root`, with both metrics. Its `stats:` entries are the eight at :588-595. The metadata keeps the raw statistics string. |
| DescribeExtended.IntegerOwnerExample | tests/unit/test_adapter.py:493-514 | An integer owner `1234` is reported as the string `"1234"`. |
| TableStatistics.ParseStatistics | tests/unit/test_adapter.py:535-597 | An empty value means no statistics. A value fails exactly when one of its `, `-separated pieces is not `<n> <metric>`. Otherwise every piece's metric is a key, the last piece naming a metric gives its value, no other key appears, and no key appears twice. ParseRenderStatistics is its round trip. |
| TableStatistics.ParseRenderStatistics | tests/unit/test_adapter.py:535 | Parsing the engine's rendering of any non-empty list of metrics gives back those metrics as a dict; a repeated metric keeps its last value. |
| TableStatistics.TwoMetricStatistics | tests/unit/test_adapter.py:774 | `"<a> <m1>, <b> <m2>"` parses to the two metrics in order. |
| TableStatistics.BytesAndRowsStatistics | tests/unit/test_adapter.py:535 | `"<b> bytes, <r> rows"` is `bytes` then `rows`. |
| TableStatistics.BytesOnlyStatistics | tests/unit/test_adapter.py:621 | `"<b> bytes"` is the single `bytes` metric. |
| TableStatistics.SampleStatistics | tests/unit/test_adapter.py:535 | The three statistics strings of the sample tables parse to their byte and row counts. |
| TableStatistics.StatKeyInjective | tests/unit/test_adapter.py:588-595 | A `stats:<metric>:<field>` key names exactly one metric and one field. |
| TableStatistics.StatsColumnDict | tests/unit/test_adapter.py:588-595 | The `stats:` part of the column dict has exactly the keys `stats:<metric>:<field>` for each reported metric and each of `label`, `value`, `description` and `include`, each once. StatsColumnDictLookup gives their values. |
| TableStatistics.StatsColumnDictLookup | tests/unit/test_adapter.py:588-595 | For every metric and each of its four fields, the flattened dict holds the entry the metric's last value determines. A metric not reported has no entry. |
| TableStatistics.BytesAndRowsColumnDict | tests/unit/test_adapter.py:588-595 | A table reporting bytes then rows flattens to exactly the four `bytes` entries followed by the four `rows` entries. |
| TableStatistics.BytesAndRowsEntries | tests/unit/test_adapter.py:807-814 | Bytes and rows each flatten to their label, integer value, empty description and `include = true`. |
| TableStatistics.BytesOnlyEntries | tests/unit/test_adapter.py:656-659 | A table reporting only bytes has the four `bytes` entries and no `rows` entries. |
| TableStatistics.NoStatisticsNoEntries | tests/unit/test_adapter.py:727-759 | No statistics, no `stats:` entries. |
| InformationBlob.ParseFieldLine | tests/unit/test_adapter.py:629-633 | Only a line starting with ` \|-- ` is read as a field. ParseFieldLineMatches states exactly which lines match and how they split. |
| InformationBlob.ParseFieldLineMatches | tests/unit/test_adapter.py:629-633 | A line declares a field exactly when it starts with ` \|-- ` and the rest splits as `<name>: <type> (nullable = <word>`. Of all such splits, the longest name and then the longest type are read. |
| InformationBlob.ParseRenderFieldLine | tests/unit/test_adapter.py:629-632 | A field line reads back as the name and type it was written from. This needs a type without `:` and a nullability flag that is a word. |
| InformationBlob.NestedFieldLineIgnored | tests/unit/test_adapter.py:633 | A nested ` \|    \|-- ` line never produces a column. |
| InformationBlob.NotIndentedIgnored | tests/unit/test_adapter.py:612-628 | A line not starting with ` \|` (the header lines) never produces a column. |
| InformationBlob.FieldsOfMembers | tests/unit/test_adapter.py:641 | A field is among the fields of a blob exactly when some line declares it. |
| InformationBlob.ReadRenderedFields | tests/unit/test_adapter.py:629-632 | The rendered schema tree of any field list reads back as that list, in order. |
| InformationBlob.FirstValueAfter | tests/unit/test_adapter.py:615 | The value is the rest of the first line that starts with the prefix, and is absent exactly when no line does. |
| InformationBlob.ColumnsOfLines | tests/unit/test_adapter.py:607-682 | One column per top-level field line, numbered among those lines only, with the field's name and type. Every column carries the relation, the first `Owner:` value and the statistics of the first `Statistics:` line. |
| InformationBlob.ParseColumnsFromInformation | tests/unit/test_adapter.py:607-682 | The blob is cut into newline-free lines that join back into it. There is one column per top-level field line, numbered among those lines only, with the field's name and type. Every column carries the relation, the first `Owner:` value and the statistics of the first `Statistics:` line. |
| InformationBlob.ParseJoinedLines | tests/unit/test_adapter.py:607-640 | A blob built from newline-free lines is read line by line. |
| InformationExamples.ReadHeaderAndTree | tests/unit/test_adapter.py:607-640 | A header of non-field lines followed by a schema tree gives one column per top-level field of the tree, with the header's owner and statistics. |
| InformationExamples.DeltaTableColumns | tests/unit/test_adapter.py:607-682 | The delta table blob gives four columns: col1, col2, dt and struct_col of type `struct`. They have owner `root` and statistics `bytes = 123456789`. |
| InformationExamples.ViewColumns | tests/unit/test_adapter.py:684-759 | The view blob, with its multi-line view text, gives the same four columns, with owner `root` and no statistics. |
| InformationExamples.ParquetTableColumns | tests/unit/test_adapter.py:761-841 | The parquet table blob gives the four columns, with `bytes = 1234567890` and `rows = 12345678`. |
| IdentifierList.GetIdentifierListString | tests/unit/test_adapter.py:843-901 | The result is the `\|`-join or `*`, nothing else. Without the bypass setting it is always the join; a join under the limit is always kept; with the setting and a join at the limit it is `*`. |
| IdentifierList.IdentifierListReadsBack | tests/unit/test_adapter.py:852 | A list that is not replaced by `*` splits back into the names. |
| IdentifierList.ManyCustomersCapped | tests/unit/test_adapter.py:849-886 | Two hundred `customers_<i>` names, in any order, become `*` with the setting `"true"` and stay the full join without it. |
| IdentifierList.FewCustomersKept | tests/unit/test_adapter.py:888-901 | Five such names are kept with the setting on. |
| NotFound.FindLegacyNotFound | tests/unit/test_adapter.py:905-915 | True exactly when `Database` occurs and `not found` occurs at or after its end. |
| NotFound.LaterDatabaseNoHelp | tests/unit/test_adapter.py:905-915 | Searching from the first `Database` finds the legacy phrasing whenever any `Database` would. |
| NotFound.CheckNotFoundError | tests/unit/test_adapter.py:904-923 | True exactly when the message contains `[SCHEMA_NOT_FOUND]` or the legacy phrasing. |
| NotFound.ErrorWithPrefix | tests/unit/test_adapter.py:905-906 | A message with text before the phrasing, across a newline, is recognised. |
| NotFound.BareError | tests/unit/test_adapter.py:908-909 | `Database not found` is recognised. |
| NotFound.QuotedName | tests/unit/test_adapter.py:911-912 | A quoted database name is recognised. |
| NotFound.ErrorWithSuffix | tests/unit/test_adapter.py:914-915 | Text after the phrasing, across a newline, does not matter. |
| NotFound.SchemaErrorClass | tests/unit/test_adapter.py:917-918 | `[SCHEMA_NOT_FOUND]` is recognised. |
| NotFound.DatabaseErrorClass | tests/unit/test_adapter.py:921 | `[DATABASE_NOT_FOUND]` is not. |
| NotFound.SchemaPhrasing | tests/unit/test_adapter.py:922 | `Schema foo not found` is not. |
| NotFound.NotTherePhrasing | tests/unit/test_adapter.py:923 | `Database 'foo' not there` is not. |
| PersistDocs.CommentOf | tests/unit/test_adapter.py:926-937 | The comment of the existing column of a name is absent exactly when no column has the name. Otherwise it is the comment of the last column with that name. |
| PersistDocs.GetPersistDocColumns | tests/unit/test_adapter.py:939-966 | The result is a sub-dict of the input. It keeps an entry exactly when no existing column has its name, or that column's comment differs from its description. Distinct keys stay distinct. |
| PersistDocs.GetPersistDocColumnsIdempotent | tests/unit/test_adapter.py:939-966 | Filtering the result again changes nothing. |
| PersistDocs.NothingNeeded | tests/unit/test_adapter.py:947-950 | When every description is already the comment, nothing is kept. |
| PersistDocs.PersistedNeedsNothing | tests/unit/test_adapter.py:947-950 | After every description has been written as its column's comment, nothing is left to persist. |
| PersistDocs.NothingDocumented | tests/unit/test_adapter.py:939-940 | No columns and no docs give `{}`. |
| PersistDocs.NoMatch | tests/unit/test_adapter.py:942-945 | A doc for a column not yet existing is kept. |
| PersistDocs.FullMatch | tests/unit/test_adapter.py:947-950 | A doc equal to the existing comment is dropped. |
| PersistDocs.PartialMatch | tests/unit/test_adapter.py:952-955 | A doc differing from the existing comment is kept. |
| PersistDocs.Mixed | tests/unit/test_adapter.py:957-966 | Of two docs, only the one that differs from its comment is kept. |
| Credentials.AliasedDatabase | tests/unit/test_adapter.py:85-90 | `catalog` and `database` together are rejected, whatever their values; otherwise the set one is the database. |
| Credentials.ResolveCredentials | tests/unit/test_adapter.py:72-109 | The checks run in order, and each error is stated by the exact condition under which it is raised. The order is: `catalog` with `database`; a `databricks.catalog` session property with a database already set; a reserved connection parameter, naming one that is set; `http_headers` that is not a dict of strings. Success holds exactly when none applies. On success: the database is the catalog, the database or the session property; that property is removed from the session properties; the headers are the user's dict. |
| Credentials.ResolveCredentialsIdempotent | tests/unit/test_adapter.py:72-109 | Resolving the settings of resolved credentials again gives the same credentials. |
| Credentials.FirstReserved | tests/unit/test_adapter.py:92-97 | A reserved name is reported only when it is set, and none is reported exactly when no reserved name is set. |
| Credentials.StringMap | tests/unit/test_adapter.py:99-109 | A value is accepted as headers exactly when it is a dict whose values are all strings, and it keeps its entries in order. |
| Credentials.UserHeaders | tests/unit/test_adapter.py:99-109 | `http_headers` fails exactly when it is set and not a dict of strings; unset gives no headers. |
| Credentials.UserAgent | tests/unit/test_adapter.py:111-134 | Fails exactly when a non-empty tag is invalid, naming the tag. Otherwise the user agent starts with `dbt-databricks/<version>`. An empty tag counts as unset. |
| Credentials.UserAgentReadsBack | tests/unit/test_adapter.py:259-265 | A non-empty tag, or its absence, can be read back from the user agent. |
| Credentials.TagsJoin | tests/unit/test_adapter.py:122-134 | Two valid tags joined by `-` make a valid tag. |
| Credentials.SharedKeys | tests/unit/test_adapter.py:151-160 | The reported keys are exactly those set both by the environment and by the user. |
| Credentials.GetAppend | tests/unit/test_adapter.py:162-171 | A key of the environment's headers keeps its value in the merge; any other key takes the user's value. |
| Credentials.MergeHttpHeaders | tests/unit/test_adapter.py:136-198 | Fails exactly when a key is set by both, naming exactly the shared keys. Gives `None` exactly when there are no headers. Otherwise the keys are the environment's then the user's, each key has its value, and keys stay distinct. |
| Credentials.MergeDisjointHeaders | tests/unit/test_adapter.py:162-171 | Headers on distinct keys merge into the environment's followed by the user's. |
| Credentials.ConnectionArguments | tests/unit/test_adapter.py:226-269 | The connector gets the credentials' database as catalog and their session properties, the user agent and the merged headers; it fails exactly when the tag is invalid or the headers collide. |
| Credentials.TwoCatalogSettings | tests/unit/test_adapter.py:72-83 | `catalog` with a `databricks.catalog` session property is a duplicate-key error. |
| Credentials.DatabaseAndCatalogSettings | tests/unit/test_adapter.py:85-90 | `catalog` with `database` is a duplicate-key error with the documented message. |
| Credentials.ReservedConnectionParameters | tests/unit/test_adapter.py:92-97 | `server_hostname` in the connection parameters is rejected. |
| Credentials.InvalidHttpHeadersRejected | tests/unit/test_adapter.py:99-109 | A string, a list, and a dict of integers are all rejected as headers. |
| Credentials.PlainConnection | tests/unit/test_adapter.py:273-296 | A plain profile connects to catalog `main` with the plain user agent and no headers. |
| Credentials.UserHttpHeaders | tests/unit/test_adapter.py:321-328 | The user's headers `aaa`, `bbb` are kept in order. |
| Credentials.UserHttpHeadersSent | tests/unit/test_adapter.py:321-328 | Without environment headers, the user's headers are sent unchanged. |
| Credentials.EmptyInvocationEnvironment | tests/unit/test_adapter.py:259-265 | An empty tag gives the plain `dbt-databricks/<version>` user agent, as no tag does. |
| Credentials.InvalidCustomUserAgent | tests/unit/test_adapter.py:111-120 | The tag `(Some-thing)` is rejected. |
| Credentials.CustomUserAgent | tests/unit/test_adapter.py:122-134 | The tag `databricks-workflows` gives `dbt-databricks/<version>; databricks-workflows`. |
| Credentials.EnvironmentHeadersOnly | tests/unit/test_adapter.py:136-150 | Environment headers alone are sent as they are. |
| Credentials.EnvironmentHeaders | tests/unit/test_adapter.py:136-179 | One header, two headers in order, and a plain string header, from the environment. |
| Credentials.EnvironmentAndUserHeaders | tests/unit/test_adapter.py:162-171 | `t`, `d` from the environment and `nothing` from the user merge in that order. |
| Credentials.HeaderIntersectionError | tests/unit/test_adapter.py:151-160 | A user `t` next to an environment `t` is an error naming `{'t'}`. |
| Credentials.NoHeaders | tests/unit/test_adapter.py:266-267 | No headers at all give `None`. |

## Left out

- Connection plumbing is not modelled: `acquire_connection`, the connector call, lazy handle loading and connection state. Only the arguments the connector is given are computed.
- The environment variables are parameters. This covers the bypass setting, the invocation tag and the environment headers. The environment headers arrive already parsed into `(key, string)` pairs, so JSON parsing and re-serialisation are not modelled.
- The OAuth and client-credential paths are skipped in the tests and have no asserted behaviour.
- `DatabricksRelation.create`, the agate `Row` wrapper and `to_column_dict` are replaced by plain datatypes. Only the `stats:` part of the column dict is computed.
- `Credentials.ReservedParameters` lists only `server_hostname`, the one reserved name the tests pin. The adapter reserves further transport parameters, which are not visible here.
- `Credentials.TagChar` allows ASCII letters, digits, `-` and `_`. It rejects parentheses as the tests require. The adapter's exact allow-list is not visible.
- `Credentials.HeaderIntersection` lists the shared keys in the environment's order, while Python prints a `set` in hash order. The two agree for a single key, which is the only case the tests show.
- `Credentials.Message`: only the fixed error texts are modelled. Python exception types are not.
- `Credentials.ResolveCredentials`: the `_socket_timeout` default, schema checks and stripping of the database name are not modelled, since no visible test covers them. The resolved database stays unset when nothing names it.
- `IdentifierList.GetIdentifierListString` caps at a join length of 2048 or more. The tests show only 200 names (at least 2399 characters) and 5 names (at most 69), so the exact boundary is a modelling choice.
- The identifier names arrive as a sequence. Python `set` iteration order is not modelled. The examples hold for every order.
- `InformationBlob.ParseFieldLineMatches`: the `\b` after the nullability marker is modelled as "an ASCII letter, digit or `_` follows". Python's Unicode word characters are not modelled.
- `TableStatistics.ParseStatistics` reads each count as an optional leading `+` or `-` followed by ASCII decimal digits (`Strings.ParseInt`). Python `int()` also accepts surrounding spaces, `_` separators and non-ASCII decimal digits, which are not modelled. A malformed statistics value gives no statistics instead of raising.
- `DescribeExtended.StatisticsText`: a numeric `Statistics` metadata value gives no statistics. In Python, splitting a number raises, except for `0`, which is falsy and gives no statistics.
- `DescribeExtended.OwnerString`: an absent or null owner gives no owner, not the string `"None"`.
- Besides `#` markers, `DescribeExtended.EndsColumns` also ends the columns at a row with an empty or null name. The tests only show `#` markers.
- `Credentials.AliasedDatabase` rejects `catalog` with `database` whatever their values. The test at tests/unit/test_adapter.py:85-90 only shows differing values, so agreeing values are a modelling choice.
- `NotFound.CheckNotFoundError` needs `Database` before `not found`. The tests at tests/unit/test_adapter.py:905-923 only show messages of that shape and the ones rejected at :921-923.
- `Credentials.MergeHttpHeaders` rejects any key set by both the environment and the user. The test at tests/unit/test_adapter.py:151-160 shows one shared key.
- `InformationBlob.ParseColumnsFromInformation` reads the field lines whether or not a `Schema: root` line precedes them. Every blob in the tests has that line.
- `InformationBlob.ParseFieldLine`: its own contract states only the required prefix. The exact match is stated by ParseFieldLineMatches.
- The catalog relation test (tests/unit/test_adapter.py:599-605) only checks `Relation.create` defaults and is not modelled.
