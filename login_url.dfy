/**
  The broker's login redirect URL (`BuildLoginURL`): a fixed HTTPS endpoint
  whose query carries the API version, the API key and, when given, the
  redirect parameters.  The redirect key is spelled `redirenct_params`, as the
  code writes it.
 */
module LoginUrl {
  import opened Optional
  import opened GoStrings
  import UrlValues

  const LoginScheme: GoString := "https"
  const LoginHost: GoString := "kite.zerodha.com"
  const LoginPath: GoString := "/connect/login"

  /** The URL up to its query, `https://kite.zerodha.com/connect/login`: what `url.URL.String` writes for the three fields above. */
  const LoginEndpoint: GoString := LoginScheme + "://" + LoginHost + LoginPath

  const VersionKey: GoString := "v"
  const ApiKeyKey: GoString := "api_key"
  const RedirectKey: GoString := "redirenct_params"

  const BlankKeyError: GoString := "apiKey required"

  /** The parts of a `url.URL` the builder sets. */
  datatype URL = URL(scheme: GoString, host: GoString, path: GoString, rawQuery: GoString)

  /** The URL up to its query: `scheme://host/path`. */
  function Origin(u: URL): GoString
  {
    u.scheme + "://" + u.host + u.path
  }

  /**
    `url.URL.String` for a URL with a scheme, a host and an absolute path that
    need no escaping: `scheme://host/path`, then `?` and the raw query when
    there is one.  Split at its first `?`, as `url.Parse` splits off
    `RawQuery`, the text gives back that prefix and the raw query.
   */
  function URLString(u: URL): (r: GoString)
    ensures |r| > |u.scheme| && r[..|u.scheme|] == u.scheme
    ensures '?' !in Origin(u) ==> UrlValues.Cut(r, '?') == (Origin(u), u.rawQuery)
  {
    var r := Origin(u) + (if u.rawQuery == [] then [] else "?" + u.rawQuery);
    if '?' !in Origin(u) then URLStringQuery(u); r else r
  }

  /** Reading the text back: the part before the first `?` is the origin and the rest is the raw query. */
  lemma URLStringQuery(u: URL)
    requires '?' !in Origin(u)
    ensures UrlValues.Cut(Origin(u) + (if u.rawQuery == [] then [] else "?" + u.rawQuery), '?') == (Origin(u), u.rawQuery)
  {
    if u.rawQuery != [] {
      assert Origin(u) + ("?" + u.rawQuery) == Origin(u) + ['?'] + u.rawQuery;
      UrlValues.CutFirst(Origin(u), '?', u.rawQuery);
    } else {
      assert Origin(u) + [] == Origin(u);
    }
  }

  /** The query the builder encodes: version 3, the key as given, and the redirect parameters only when non-empty. */
  function LoginQuery(apiKey: GoString, redirectParams: GoString): (q: UrlValues.Values)
    ensures q == map[VersionKey := "3", ApiKeyKey := apiKey]
                 + if redirectParams != [] then map[RedirectKey := redirectParams] else map[]
  {
    var q := UrlValues.Set(UrlValues.Set(map[], VersionKey, "3"), ApiKeyKey, apiKey);
    if redirectParams != [] then UrlValues.Set(q, RedirectKey, redirectParams) else q
  }

  /**
    `BuildLoginURL`: fails exactly when the key is empty or all white space;
    otherwise the URL is the login endpoint followed by `?` and a query that
    decodes to `v=3`, `api_key` with the key as given (untrimmed) and, only
    when `redirectParams` is non-empty, `redirenct_params` with that value;
    no other key appears.
   */
  function BuildLoginURL(apiKey: GoString, redirectParams: GoString): (r: Result<GoString, GoString>)
    ensures r.Failure? <==> forall i :: 0 <= i < |apiKey| ==> IsSpace(apiKey[i])
    ensures r.Failure? ==> r.error == BlankKeyError
    ensures r.Success? ==>
      && |r.value| > |LoginEndpoint|
      && r.value[..|LoginEndpoint|] == LoginEndpoint
      && r.value[|LoginEndpoint|] == '?'
      && UrlValues.ParseQuery(r.value[|LoginEndpoint| + 1..]) == Success(
           map[VersionKey := "3", ApiKeyKey := apiKey]
           + if redirectParams != [] then map[RedirectKey := redirectParams] else map[])
    ensures r.Success? ==>
      && UrlValues.Cut(r.value, '?').0 == LoginEndpoint
      && UrlValues.ParseQuery(UrlValues.Cut(r.value, '?').1) == Success(
           map[VersionKey := "3", ApiKeyKey := apiKey]
           + if redirectParams != [] then map[RedirectKey := redirectParams] else map[])
  {
    if TrimSpace(apiKey) == [] then Failure(BlankKeyError)
    else
      var u := URL(LoginScheme, LoginHost, LoginPath, []);
      var q := LoginQuery(apiKey, redirectParams);
      var query := UrlValues.Encode(q);
      UrlValues.ParseEncode(q);
      EndpointPrefix(query);
      Success(URLString(u.(rawQuery := query)))
  }

  lemma EndpointPrefix(query: GoString)
    requires query != []
    ensures '?' !in Origin(URL(LoginScheme, LoginHost, LoginPath, query))
    ensures Origin(URL(LoginScheme, LoginHost, LoginPath, query)) == LoginEndpoint
    ensures URLString(URL(LoginScheme, LoginHost, LoginPath, query)) == LoginEndpoint + "?" + query
    ensures var s := LoginEndpoint + "?" + query;
            |s| > |LoginEndpoint| && s[..|LoginEndpoint|] == LoginEndpoint
            && s[|LoginEndpoint|] == '?' && s[|LoginEndpoint| + 1..] == query
  {
    var s := LoginEndpoint + "?" + query;
    assert forall i :: 0 <= i < |LoginEndpoint| ==> LoginEndpoint[i] != '?';
    assert s[..|LoginEndpoint|] == LoginEndpoint;
    assert s[|LoginEndpoint| + 1..] == query;
  }

  /** The keys in the order `Values.Encode` writes them. */
  function LoginKeys(redirectParams: GoString): seq<GoString>
  {
    if redirectParams != [] then [ApiKeyKey, RedirectKey, VersionKey] else [ApiKeyKey, VersionKey]
  }

  lemma LoginKeysSorted(redirectParams: GoString)
    ensures UrlValues.StrictlySorted(LoginKeys(redirectParams))
  {
    assert Less(ApiKeyKey, RedirectKey);
    assert Less(RedirectKey, VersionKey);
    assert Less(ApiKeyKey, VersionKey);
  }

  lemma LoginQuerySortedKeys(apiKey: GoString, redirectParams: GoString)
    ensures UrlValues.SortedKeys(LoginQuery(apiKey, redirectParams).Keys) == LoginKeys(redirectParams)
  {
    var keys := LoginKeys(redirectParams);
    assert LoginQuery(apiKey, redirectParams).Keys == set k | k in keys;
    LoginKeysSorted(redirectParams);
    UrlValues.SortedKeysOf(keys);
  }

  /**
    The exact text of a successful result: the login endpoint, `?`, then one
    `key=value` item per key in the order `api_key`, `redirenct_params` (only
    when present), `v`, joined by `&`.
   */
  lemma LoginURLText(apiKey: GoString, redirectParams: GoString)
    requires exists i :: 0 <= i < |apiKey| && !IsSpace(apiKey[i])
    ensures var q := LoginQuery(apiKey, redirectParams);
            BuildLoginURL(apiKey, redirectParams) == Success(LoginEndpoint + "?" + UrlValues.EncodeKeys(LoginKeys(redirectParams), q))
  {
    LoginQuerySortedKeys(apiKey, redirectParams);
    EndpointPrefix(UrlValues.Encode(LoginQuery(apiKey, redirectParams)));
  }
}
