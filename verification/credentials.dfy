/** Resolving a connection profile into validated credentials, and the two
    values computed from them when a connection is opened: the user agent,
    which may carry an invocation-environment tag, and the HTTP headers,
    which merge headers injected by the environment with the user's own. */
module Credentials {
  import opened Wrappers
  import opened OrderedDict

  /** A configuration value as it is loaded from a profile. */
  datatype ConfigValue =
    | Str(s: string)
    | Num(n: int)
    | List(items: seq<ConfigValue>)
    | Obj(entries: Dict<string, ConfigValue>)

  /** The settings of a profile target that the resolver checks. */
  datatype Profile = Profile(
    catalog: Option<string>,
    database: Option<string>,
    sessionProperties: Dict<string, string>,
    connectionParameters: Dict<string, ConfigValue>
  )

  /** Validated credentials: `database` is the catalog to use. */
  datatype Creds = Creds(
    database: Option<string>,
    sessionProperties: Dict<string, string>,
    httpHeaders: Dict<string, string>,
    connectionParameters: Dict<string, ConfigValue>
  )

  datatype ConfigError =
    | DuplicateKeys(sources: string)
    | ReservedParameter(name: string)
    | InvalidHttpHeaders
    | InvalidInvocationEnvironment(tag: string)
    | HeaderIntersection(keys: seq<string>)

  /** The session property that names the catalog. */
  const CatalogKeyInSessionProperties: string := "databricks.catalog"
  /** How each duplicate source of the catalog is named in the error. */
  const CatalogAlias: string := "catalog"
  const SessionCatalogSource: string := "`databricks.catalog` in session_properties"
  /** Connection parameters the adapter sets itself. */
  const ReservedParameters: seq<string> := ["server_hostname"]
  const HttpHeadersKey: string := "http_headers"
  const ProductName: string := "dbt-databricks"

  function Message(e: ConfigError): string {
    match e
    case DuplicateKeys(sources) => "Got duplicate keys: (" + sources + ") all map to \"database\""
    case ReservedParameter(name) => "The connection parameter `" + name + "` is reserved."
    case InvalidHttpHeaders => "The connection parameter `http_headers` should be dict of strings."
    case InvalidInvocationEnvironment(tag) => "Invalid invocation environment: " + tag
    case HeaderIntersection(keys) => "Intersection with reserved http_headers in keys: {" + QuotedList(keys) + "}"
  }

  /** Python's rendering of the elements of a collection of strings. */
  function QuotedList(keys: seq<string>): string {
    if |keys| == 0 then ""
    else if |keys| == 1 then "'" + keys[0] + "'"
    else QuotedList(keys[..|keys| - 1]) + ", '" + keys[|keys| - 1] + "'"
  }

  // ---------------------------------------------------------------------
  // Profile validation

  /** The first reserved name set among the connection parameters. */
  function FirstReserved(params: Dict<string, ConfigValue>, names: seq<string>): (r: Option<string>)
    ensures r.Some? ==> r.value in names && r.value in KeySet(params)
    ensures r.None? <==> forall i :: 0 <= i < |names| ==> names[i] !in KeySet(params)
  {
    if |names| == 0 then None
    else if names[0] in KeySet(params) then Some(names[0])
    else
      var r := FirstReserved(params, names[1..]);
      assert forall i :: 1 <= i < |names| ==> names[i] == names[1..][i - 1];
      r
  }

  /** A dict whose values are all strings, as that dict. */
  function StringMap(v: ConfigValue): (r: Option<Dict<string, string>>)
    ensures r.Some? <==> v.Obj? && forall i :: 0 <= i < |v.entries| ==> v.entries[i].1.Str?
    ensures r.Some? ==> |r.value| == |v.entries|
                        && forall i :: 0 <= i < |r.value| ==> v.entries[i] == (r.value[i].0, Str(r.value[i].1))
  {
    match v
    case Obj(entries) =>
      if forall i :: 0 <= i < |entries| ==> entries[i].1.Str? then
        Some(seq(|entries|, i requires 0 <= i < |entries| && entries[i].1.Str? => (entries[i].0, entries[i].1.s)))
      else None
    case _ => None
  }

  /** `http_headers` is unset, or a dict of strings. */
  predicate HttpHeadersWellFormed(params: Dict<string, ConfigValue>) {
    match Get(params, HttpHeadersKey)
    case None => true
    case Some(v) => v.Obj? && forall i :: 0 <= i < |v.entries| ==> v.entries[i].1.Str?
  }

  /** The user's own headers, from the connection parameters. */
  function UserHeaders(params: Dict<string, ConfigValue>): (r: Result<Dict<string, string>, ConfigError>)
    ensures r.Failure? <==> !HttpHeadersWellFormed(params)
    ensures r.Failure? ==> r.error == InvalidHttpHeaders
    ensures HttpHeadersKey !in KeySet(params) ==> r == Success([])
    ensures r.Success? && HttpHeadersKey in KeySet(params) ==>
      var v := Get(params, HttpHeadersKey).value;
      |r.value| == |v.entries| && forall i :: 0 <= i < |r.value| ==> v.entries[i] == (r.value[i].0, Str(r.value[i].1))
  {
    match Get(params, HttpHeadersKey)
    case None => Success([])
    case Some(v) =>
      match StringMap(v)
      case None => Failure(InvalidHttpHeaders)
      case Some(h) => Success(h)
  }

  /** The catalog settings once the `catalog` alias is merged into
      `database`; both at once is an error whatever their values. */
  function AliasedDatabase(p: Profile): (r: Result<Option<string>, ConfigError>)
    ensures r.Failure? <==> p.catalog.Some? && p.database.Some?
    ensures r.Failure? ==> r.error == DuplicateKeys(CatalogAlias)
    ensures r.Success? ==> r.value == if p.catalog.Some? then p.catalog else p.database
  {
    if p.catalog.Some? && p.database.Some? then Failure(DuplicateKeys(CatalogAlias))
    else if p.catalog.Some? then Success(p.catalog)
    else Success(p.database)
  }

  /** Neither duplicate-catalog check fires: `catalog` and `database` are
      not both set, and the catalog session property is not set next to
      either of them. */
  predicate CatalogSettled(p: Profile) {
    && !(p.catalog.Some? && p.database.Some?)
    && !((p.catalog.Some? || p.database.Some?) && CatalogKeyInSessionProperties in KeySet(p.sessionProperties))
  }

  /** Some reserved connection parameter is set. */
  predicate SetsReservedParameter(params: Dict<string, ConfigValue>) {
    exists i :: 0 <= i < |ReservedParameters| && ReservedParameters[i] in KeySet(params)
  }

  /** Validate a profile. The checks run in order: the `catalog` alias
      against `database`; the catalog session property against a database
      already set (moving the property into `database` otherwise); reserved
      connection parameters; the shape of `http_headers`. */
  function ResolveCredentials(p: Profile): (r: Result<Creds, ConfigError>)
    ensures (r.Failure? && r.error == DuplicateKeys(CatalogAlias)) <==> p.catalog.Some? && p.database.Some?
    ensures (r.Failure? && r.error == DuplicateKeys(SessionCatalogSource)) <==>
      (p.catalog.Some? != p.database.Some?) && CatalogKeyInSessionProperties in KeySet(p.sessionProperties)
    ensures (r.Failure? && r.error.ReservedParameter?) <==>
      CatalogSettled(p) && SetsReservedParameter(p.connectionParameters)
    ensures r.Failure? && r.error.ReservedParameter? ==>
      r.error.name in ReservedParameters && r.error.name in KeySet(p.connectionParameters)
    ensures r == Failure(InvalidHttpHeaders) <==>
      CatalogSettled(p) && !SetsReservedParameter(p.connectionParameters) && !HttpHeadersWellFormed(p.connectionParameters)
    ensures r.Success? <==>
      CatalogSettled(p) && !SetsReservedParameter(p.connectionParameters) && HttpHeadersWellFormed(p.connectionParameters)
    ensures r.Success? ==>
      r.value.database == (if p.catalog.Some? then p.catalog
                           else if p.database.Some? then p.database
                           else Get(p.sessionProperties, CatalogKeyInSessionProperties))
    ensures r.Success? ==>
      && CatalogKeyInSessionProperties !in KeySet(r.value.sessionProperties)
      && forall e :: e in r.value.sessionProperties <==> e in p.sessionProperties && e.0 != CatalogKeyInSessionProperties
    ensures r.Success? ==> r.value.httpHeaders == UserHeaders(p.connectionParameters).value
    ensures r.Success? ==> r.value.connectionParameters == p.connectionParameters
  {
    var aliased :- AliasedDatabase(p);
    var database :- match Get(p.sessionProperties, CatalogKeyInSessionProperties)
      case None => Success(aliased)
      case Some(c) => if aliased.Some? then Failure(DuplicateKeys(SessionCatalogSource)) else Success(Some(c));
    var sessionProperties := Remove(p.sessionProperties, CatalogKeyInSessionProperties);
    var _ :- match FirstReserved(p.connectionParameters, ReservedParameters)
      case Some(name) => Failure(ReservedParameter(name))
      case None => Success(());
    var headers :- UserHeaders(p.connectionParameters);
    Success(Creds(database, sessionProperties, headers, p.connectionParameters))
  }

  /** Resolving the settings of resolved credentials again gives them back. */
  lemma ResolveCredentialsIdempotent(p: Profile)
    requires ResolveCredentials(p).Success?
    ensures var c := ResolveCredentials(p).value;
            ResolveCredentials(Profile(None, c.database, c.sessionProperties, c.connectionParameters)) == Success(c)
  {
    var c := ResolveCredentials(p).value;
    var q := Profile(None, c.database, c.sessionProperties, c.connectionParameters);
    assert Get(q.sessionProperties, CatalogKeyInSessionProperties).None?;
    assert Remove(q.sessionProperties, CatalogKeyInSessionProperties) == c.sessionProperties;
  }

  // ---------------------------------------------------------------------
  // Opening a connection

  /** Characters an invocation-environment tag may use: ASCII letters,
      digits, `-` and `_`; parentheses in particular are refused. */
  predicate TagChar(c: char) {
    ('a' <= c <= 'z') || ('A' <= c <= 'Z') || ('0' <= c <= '9') || c == '-' || c == '_'
  }

  predicate ValidInvocationTag(tag: string) {
    |tag| > 0 && forall i :: 0 <= i < |tag| ==> TagChar(tag[i])
  }

  /** The invocation-environment variable carries a tag: it is set and not
      empty (an empty value is falsy, and treated as unset). */
  predicate TagSet(tag: Option<string>) {
    tag.Some? && tag.value != ""
  }

  /** The user agent the connector is given: the product and version, then
      the invocation-environment tag when one is set. */
  function UserAgent(version: string, tag: Option<string>): (r: Result<string, ConfigError>)
    ensures r.Failure? <==> TagSet(tag) && !ValidInvocationTag(tag.value)
    ensures r.Failure? ==> r.error == InvalidInvocationEnvironment(tag.value)
    ensures r.Success? ==> |r.value| >= |ProductName| + 1 + |version|
                           && r.value[..|ProductName| + 1 + |version|] == ProductName + "/" + version
  {
    var base := ProductName + "/" + version;
    if !TagSet(tag) then Success(base)
    else if ValidInvocationTag(tag.value) then Success(base + "; " + tag.value)
    else Failure(InvalidInvocationEnvironment(tag.value))
  }

  /** The tag a user agent of the given version carries, if any. */
  function TagOfUserAgent(version: string, userAgent: string): (r: Option<string>)
    ensures r.Some? ==> |userAgent| == |ProductName| + 3 + |version| + |r.value|
  {
    var n := |ProductName| + 1 + |version|;
    if |userAgent| >= n + 2 && userAgent[n..n + 2] == "; " then Some(userAgent[n + 2..])
    else None
  }

  /** The tag can be read back from the user agent it was put into; an
      empty tag leaves no trace. */
  lemma UserAgentReadsBack(version: string, tag: Option<string>)
    requires UserAgent(version, tag).Success?
    ensures TagOfUserAgent(version, UserAgent(version, tag).value) == if TagSet(tag) then tag else None
  {
    var base := ProductName + "/" + version;
    if TagSet(tag) {
      var ua := base + "; " + tag.value;
      assert ua[|base|..|base| + 2] == "; ";
      assert ua[|base| + 2..] == tag.value;
    }
  }

  /** The keys of `env` also set in `user`, in the order of `env`. */
  function SharedKeys(env: Dict<string, string>, user: Dict<string, string>): (r: seq<string>)
    ensures forall k :: k in r <==> k in KeySet(env) && k in KeySet(user)
  {
    if |env| == 0 then []
    else
      var rest := SharedKeys(env[1..], user);
      KeySetTail(env);
      if env[0].0 in KeySet(user) then [env[0].0] + rest else rest
  }

  lemma {:induction false} GetAppend(a: Dict<string, string>, b: Dict<string, string>, k: string)
    ensures Get(a + b, k) == if k in KeySet(a) then Get(a, k) else Get(b, k)
  {
    var ab := a + b;
    match IndexOfKey(a, k)
    case Some(i) =>
      assert ab[i].0 == k;
      assert k in KeySet(ab);
      var j := IndexOfKey(ab, k).value;
      assert forall x :: 0 <= x < |a| ==> ab[x] == a[x];
      assert j == i;
    case None =>
      match IndexOfKey(b, k)
      case Some(i) =>
        assert ab[|a| + i].0 == k;
        assert k in KeySet(ab);
        var j := IndexOfKey(ab, k).value;
        assert forall x :: 0 <= x < |ab| ==> ab[x] == if x < |a| then a[x] else b[x - |a|];
        assert j == |a| + i;
      case None =>
        assert forall x :: 0 <= x < |ab| ==> ab[x] == if x < |a| then a[x] else b[x - |a|];
        assert k !in KeySet(ab);
  }

  /** The headers sent with every request: the environment's headers in
      their order, then the user's. A user header the environment also sets
      is an error naming the shared keys; no headers at all is `None`. */
  function MergeHttpHeaders(env: Dict<string, string>, user: Dict<string, string>): (r: Result<Option<Dict<string, string>>, ConfigError>)
    ensures r.Failure? <==> KeySet(env) * KeySet(user) != {}
    ensures r.Failure? ==> r.error.HeaderIntersection? && forall k :: k in r.error.keys <==> k in KeySet(env) * KeySet(user)
    ensures r == Success(None) <==> |env| == 0 && |user| == 0
    ensures r.Success? && r.value.Some? ==>
      var h := r.value.value;
      && Keys(h) == Keys(env) + Keys(user)
      && KeySet(h) == KeySet(env) + KeySet(user)
      && (forall k :: Get(h, k) == if k in KeySet(env) then Get(env, k) else Get(user, k))
      && (DistinctKeys(env) && DistinctKeys(user) ==> DistinctKeys(h))
  {
    var shared := SharedKeys(env, user);
    if |shared| > 0 then
      assert shared[0] in KeySet(env) * KeySet(user);
      Failure(HeaderIntersection(shared))
    else
      var h := env + user;
      if |h| == 0 then Success(None)
      else
        forall k ensures Get(h, k) == if k in KeySet(env) then Get(env, k) else Get(user, k) {
          GetAppend(env, user, k);
        }
        assert Keys(h) == Keys(env) + Keys(user);
        assert KeySet(h) == KeySet(env) + KeySet(user) by {
          forall k | k in KeySet(h) ensures k in KeySet(env) + KeySet(user) {
            var i :| 0 <= i < |h| && h[i].0 == k;
            if i >= |env| {
              assert user[i - |env|].0 == k;
            }
          }
          forall k | k in KeySet(user) ensures k in KeySet(h) {
            var i :| 0 <= i < |user| && user[i].0 == k;
            assert h[|env| + i].0 == k;
          }
        }
        assert DistinctKeys(env) && DistinctKeys(user) ==> DistinctKeys(h) by {
          if DistinctKeys(env) && DistinctKeys(user) {
            forall i, j | 0 <= i < j < |h| ensures h[i].0 != h[j].0 {
              if i < |env| && j >= |env| {
                assert h[i].0 in KeySet(env);
                assert h[j] == user[j - |env|];
                assert h[j].0 in KeySet(user);
                assert h[i].0 !in shared;
              }
            }
          }
        }
        Success(Some(h))
  }

  /** Headers on distinct keys merge into the environment's followed by
      the user's. */
  lemma MergeDisjointHeaders(env: Dict<string, string>, user: Dict<string, string>)
    requires KeySet(env) * KeySet(user) == {}
    requires |env| + |user| > 0
    ensures MergeHttpHeaders(env, user) == Success(Some(env + user))
  {
    var shared := SharedKeys(env, user);
    if |shared| > 0 {
      assert shared[0] in KeySet(env) * KeySet(user);
    }
  }

  /** What the connector is called with. */
  datatype ConnectArguments = ConnectArguments(
    catalog: Option<string>,
    userAgent: string,
    httpHeaders: Option<Dict<string, string>>,
    sessionConfiguration: Dict<string, string>
  )

  /** The arguments of a new connection, given the adapter version, the
      invocation-environment tag and the already-parsed headers injected
      through the environment. */
  function ConnectionArguments(c: Creds, version: string, tag: Option<string>, envHeaders: Dict<string, string>): (r: Result<ConnectArguments, ConfigError>)
    ensures r.Failure? <==> (TagSet(tag) && !ValidInvocationTag(tag.value)) || KeySet(envHeaders) * KeySet(c.httpHeaders) != {}
    ensures r.Failure? && TagSet(tag) && !ValidInvocationTag(tag.value) ==> r.error == InvalidInvocationEnvironment(tag.value)
    ensures r.Success? ==> r.value.catalog == c.database && r.value.sessionConfiguration == c.sessionProperties
    ensures r.Success? ==> Success(r.value.userAgent) == UserAgent(version, tag)
                           && Success(r.value.httpHeaders) == MergeHttpHeaders(envHeaders, c.httpHeaders)
  {
    var userAgent :- UserAgent(version, tag);
    var headers :- MergeHttpHeaders(envHeaders, c.httpHeaders);
    Success(ConnectArguments(c.database, userAgent, headers, c.sessionProperties))
  }

  // ---------------------------------------------------------------------
  // Examples

  const AnsiOn: Dict<string, string> := [("spark.sql.ansi.enabled", "true")]
  /** A job's identifiers, as the environment injects them. */
  const JobRun: string := "{\"jobId\": 1, \"runId\": 12123}"

  function MainProfile(params: Dict<string, ConfigValue>): Profile {
    Profile(Some("main"), None, AnsiOn, params)
  }

  lemma TwoCatalogSettings()
    ensures ResolveCredentials(Profile(Some("main"), None, [(CatalogKeyInSessionProperties, "catalog")] + AnsiOn, []))
         == Failure(DuplicateKeys(SessionCatalogSource))
  {
  }

  lemma DatabaseAndCatalogSettings()
    ensures var r := ResolveCredentials(Profile(Some("main"), Some("database"), AnsiOn, []));
            r == Failure(DuplicateKeys(CatalogAlias))
            && Message(r.error) == "Got duplicate keys: (" + "catalog" + ") all map to \"database\""
  {
    var p := Profile(Some("main"), Some("database"), AnsiOn, []);
    assert ResolveCredentials(p).Failure? && ResolveCredentials(p).error == DuplicateKeys(CatalogAlias);
    CatalogAliasMessage();
  }

  lemma CatalogAliasMessage()
    ensures Message(DuplicateKeys(CatalogAlias)) == "Got duplicate keys: (" + "catalog" + ") all map to \"database\""
  {
  }

  lemma ReservedConnectionParameters()
    ensures ResolveCredentials(MainProfile([("server_hostname", Str("theirorg.databricks.com"))]))
         == Failure(ReservedParameter("server_hostname"))
  {
  }

  lemma InvalidHttpHeadersRejected()
    ensures ResolveCredentials(MainProfile([(HttpHeadersKey, Str("a"))])) == Failure(InvalidHttpHeaders)
    ensures ResolveCredentials(MainProfile([(HttpHeadersKey, List([Str("a"), Str("b")]))])) == Failure(InvalidHttpHeaders)
    ensures ResolveCredentials(MainProfile([(HttpHeadersKey, Obj([("a", Num(1)), ("b", Num(2))]))])) == Failure(InvalidHttpHeaders)
  {
    var v := Obj([("a", Num(1)), ("b", Num(2))]);
    assert !v.entries[0].1.Str?;
  }

  /** A profile without extra settings connects to its catalog with the
      plain user agent and no headers. */
  lemma PlainConnection(version: string)
    ensures var c := ResolveCredentials(MainProfile([]));
            c == Success(Creds(Some("main"), AnsiOn, [], []))
            && ConnectionArguments(c.value, version, None, [])
               == Success(ConnectArguments(Some("main"), ProductName + "/" + version, None, AnsiOn))
  {
  }

  /** Headers the user sets in the profile are kept in their order. */
  lemma UserHttpHeaders()
    ensures ResolveCredentials(MainProfile([(HttpHeadersKey, Obj([("aaa", Str("xxx"))]))])).value.httpHeaders
         == [("aaa", "xxx")]
    ensures ResolveCredentials(MainProfile([(HttpHeadersKey, Obj([("aaa", Str("xxx")), ("bbb", Str("yyy"))]))])).value.httpHeaders
         == [("aaa", "xxx"), ("bbb", "yyy")]
  {
  }

  /** Without environment headers, the user's headers are sent as they are. */
  lemma UserHttpHeadersSent(c: Creds, version: string)
    requires |c.httpHeaders| > 0
    ensures ConnectionArguments(c, version, None, [])
         == Success(ConnectArguments(c.database, ProductName + "/" + version, Some(c.httpHeaders), c.sessionProperties))
  {
    var none: Dict<string, string> := [];
    assert KeySet(none) == {};
    MergeDisjointHeaders([], c.httpHeaders);
    assert [] + c.httpHeaders == c.httpHeaders;
  }

  /** An empty invocation environment gives the plain user agent. */
  lemma EmptyInvocationEnvironment(version: string)
    ensures UserAgent(version, Some("")) == UserAgent(version, None) == Success(ProductName + "/" + version)
  {
  }

  lemma InvalidCustomUserAgent(version: string)
    ensures UserAgent(version, Some("(Some-thing)")) == Failure(InvalidInvocationEnvironment("(Some-thing)"))
  {
    assert !TagChar("(Some-thing)"[0]);
  }

  /** Two tags joined by a hyphen make a tag. */
  lemma TagsJoin(a: string, b: string)
    requires ValidInvocationTag(a) && ValidInvocationTag(b)
    ensures ValidInvocationTag(a + "-" + b)
  {
    var t := a + "-" + b;
    forall i | 0 <= i < |t| ensures TagChar(t[i]) {
      if i < |a| {
        assert t[i] == a[i];
      } else if i > |a| {
        assert t[i] == b[i - |a| - 1];
      }
    }
  }

  lemma CustomUserAgent(version: string)
    ensures UserAgent(version, Some("databricks-workflows")) == Success(ProductName + "/" + version + "; " + "databricks-workflows")
  {
    TagsJoin("databricks", "workflows");
    assert "databricks" + "-" + "workflows" == "databricks-workflows";
  }

  /** Headers injected through the environment alone are sent as they are. */
  lemma EnvironmentHeadersOnly(env: Dict<string, string>)
    requires |env| > 0
    ensures MergeHttpHeaders(env, []) == Success(Some(env))
  {
    var none: Dict<string, string> := [];
    assert KeySet(none) == {};
    MergeDisjointHeaders(env, []);
    assert env + [] == env;
  }

  lemma EnvironmentHeaders()
    ensures MergeHttpHeaders([("test", JobRun)], []) == Success(Some([("test", JobRun)]))
    ensures MergeHttpHeaders([("test", JobRun), ("dummy", JobRun)], []) == Success(Some([("test", JobRun), ("dummy", JobRun)]))
    ensures MergeHttpHeaders([("string", "some-string")], []) == Success(Some([("string", "some-string")]))
  {
    EnvironmentHeadersOnly([("test", JobRun)]);
    EnvironmentHeadersOnly([("test", JobRun), ("dummy", JobRun)]);
    EnvironmentHeadersOnly([("string", "some-string")]);
  }

  lemma EnvironmentAndUserHeaders()
    ensures MergeHttpHeaders([("t", JobRun), ("d", JobRun)], [("nothing", "nothing")])
         == Success(Some([("t", JobRun), ("d", JobRun), ("nothing", "nothing")]))
  {
    var env, user := [("t", JobRun), ("d", JobRun)], [("nothing", "nothing")];
    KeySetTail(env);
    KeySetTail(env[1..]);
    KeySetTail(user);
    MergeDisjointHeaders(env, user);
    assert env + user == [("t", JobRun), ("d", JobRun), ("nothing", "nothing")];
  }

  lemma HeaderIntersectionError()
    ensures var r := MergeHttpHeaders([("t", JobRun), ("d", JobRun)], [("t", "test"), ("nothing", "nothing")]);
            r == Failure(HeaderIntersection(["t"]))
            && Message(r.error) == "Intersection with reserved http_headers in keys: {'t'}"
  {
    var env, user := [("t", JobRun), ("d", JobRun)], [("t", "test"), ("nothing", "nothing")];
    KeySetTail(user);
    KeySetTail(user[1..]);
    assert SharedKeys(env[1..][1..], user) == [];
    assert SharedKeys(env[1..], user) == [];
    assert SharedKeys(env, user) == ["t"];
  }

  lemma NoHeaders()
    ensures MergeHttpHeaders([], []) == Success(None)
  {
  }
}
