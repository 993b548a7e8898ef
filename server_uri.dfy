/** Rebuilding the request URI from the server variables PHP provides. */
module ServerUri {
  import opened Wrappers
  import opened Text
  import opened Decimal

  /** The server variables. A key that is missing and a key set to null are
      both unset. */
  type Env = map<string, Option<string>>

  /** A set, non-empty server variable. */
  function Var(env: Env, key: string): (v: Option<string>)
    ensures v.Some? ==> key in env && env[key] == v && v.value != ""
    ensures v.None? ==> key !in env || env[key].None? || env[key].value == ""
  {
    if key in env && env[key].Some? && env[key].value != "" then env[key] else None
  }

  /** The parts of the rebuilt URI; the port is absent when it is the
      scheme's default. */
  datatype Uri = Uri(scheme: string, host: string, port: Option<int>, path: string, query: Option<string>)

  /** `scheme://host[:port]path[?query]`, with no re-encoding. */
  function UriString(u: Uri): string {
    u.scheme + "://" + u.host
      + (if u.port.Some? then ":" + IntToString(u.port.value) else "")
      + u.path
      + (if u.query.Some? then "?" + u.query.value else "")
  }

  /** Only the value `on` selects https; any other value, `1` included,
      leaves http. */
  function Scheme(env: Env): (s: string)
    ensures s == "https" <==> Var(env, "HTTPS") == Some("on")
    ensures s == "https" || s == "http"
  {
    if Var(env, "HTTPS") == Some("on") then "https" else "http"
  }

  function DefaultPort(scheme: string): int {
    if scheme == "https" then 443 else 80
  }

  /** The host and the port text: from the Host header, split at its first
      colon, when its host part is non-empty; otherwise the server name with
      no port; none when neither is set. */
  function HostAndPort(env: Env): (r: Option<(string, Option<string>)>)
    ensures r.Some? ==> r.value.0 != ""
    ensures r.None? <==> (Var(env, "SERVER_NAME").None?
      && (Var(env, "HTTP_HOST").None? || Var(env, "HTTP_HOST").value[0] == ':'))
  {
    var header := Var(env, "HTTP_HOST");
    var split := if header.Some? then SplitAtFirst(header.value, ':') else ("", None);
    if split.0 != "" then Some(split)
    else if Var(env, "SERVER_NAME").Some? then Some((Var(env, "SERVER_NAME").value, None))
    else None
  }

  /** The port: the Host header's, else SERVER_PORT's, read as PHP's (int)
      cast; absent when it is the scheme's default. */
  function Port(env: Env, headerPort: Option<string>, scheme: string): (p: Option<int>)
    ensures p.Some? ==> p.value != DefaultPort(scheme)
    ensures headerPort.Some? && headerPort.value != "" ==>
      (p.None? <==> ParseInt(headerPort.value) == DefaultPort(scheme))
    ensures (headerPort.None? || headerPort.value == "") && Var(env, "SERVER_PORT").Some? ==>
      (p.None? <==> ParseInt(Var(env, "SERVER_PORT").value) == DefaultPort(scheme))
    ensures (headerPort.None? || headerPort.value == "") && Var(env, "SERVER_PORT").None? ==> p.None?
  {
    var text := if headerPort.Some? && headerPort.value != "" then headerPort else Var(env, "SERVER_PORT");
    if text.None? || ParseInt(text.value) == DefaultPort(scheme) then None
    else Some(ParseInt(text.value))
  }

  /** REQUEST_URI up to its first `?`, else PHP_SELF, else `/`. */
  function Path(env: Env): (p: string)
    ensures Var(env, "REQUEST_URI").Some? ==> '?' !in p && p <= Var(env, "REQUEST_URI").value
    ensures Var(env, "REQUEST_URI").Some? ==>
      var u := Var(env, "REQUEST_URI").value;
      p == u || (|p| < |u| && u[|p|] == '?')
    ensures Var(env, "REQUEST_URI").None? ==>
      p == if Var(env, "PHP_SELF").Some? then Var(env, "PHP_SELF").value else "/"
  {
    var requestUri := Var(env, "REQUEST_URI");
    if requestUri.Some? then SplitAtFirst(requestUri.value, '?').0
    else if Var(env, "PHP_SELF").Some? then Var(env, "PHP_SELF").value
    else "/"
  }

  /** QUERY_STRING when set and non-empty, else what follows the first `?`
      of REQUEST_URI when that is non-empty; otherwise no query. */
  function Query(env: Env): (q: Option<string>)
    ensures q.Some? ==> q.value != ""
    ensures Var(env, "QUERY_STRING").Some? ==> q == Var(env, "QUERY_STRING")
  {
    var queryString := Var(env, "QUERY_STRING");
    if queryString.Some? then queryString
    else
      var requestUri := Var(env, "REQUEST_URI");
      if requestUri.Some? then
        var rest := SplitAtFirst(requestUri.value, '?').1;
        if rest.Some? && rest.value != "" then rest else None
      else None
  }

  /** The URI of the current request, or none when no host can be found. */
  function UriFromGlobals(env: Env): Option<Uri> {
    var hostPort := HostAndPort(env);
    if hostPort.None? then None
    else
      var scheme := Scheme(env);
      Some(Uri(scheme, hostPort.value.0, Port(env, hostPort.value.1, scheme), Path(env), Query(env)))
  }

  /** The URI as text: empty when no host can be found. */
  function GetUriFromGlobals(env: Env): string {
    var u := UriFromGlobals(env);
    if u.Some? then UriString(u.value) else ""
  }

  /** A rebuilt URI is never empty: it holds at least the `://`. */
  lemma UriStringNonEmpty(u: Uri)
    ensures |UriString(u)| >= |u.scheme| + 3 + |u.host| + |u.path|
  {
  }

  /** The string is empty exactly when no host can be found. */
  lemma EmptyWithoutHost(env: Env)
    ensures GetUriFromGlobals(env) == "" <==> UriFromGlobals(env).None?
  {
    var u := UriFromGlobals(env);
    if u.Some? {
      UriStringNonEmpty(u.value);
    }
  }

  /** No server variables, no URI. */
  lemma EmptyEnv()
    ensures GetUriFromGlobals(map[]) == ""
  {
  }

  /** The port texts the scenarios use. */
  lemma PortTexts()
    ensures ParseInt("80") == 80 && ParseInt("443") == 443 && ParseInt("8324") == 8324
  {
    assert IntToString(80) == "80" && IntToString(443) == "443" && IntToString(8324) == "8324";
    ParseIntOfIntToString(80);
    ParseIntOfIntToString(443);
    ParseIntOfIntToString(8324);
  }

  /** A Host header without a colon is the host, with no port of its own. */
  lemma HostFromHeader(env: Env, host: string)
    requires Var(env, "HTTP_HOST") == Some(host) && ':' !in host
    ensures HostAndPort(env) == Some((host, None))
  {
    assert SplitAtFirst(host, ':') == (host, None);
  }

  /** A Host header `host:port` gives both the host and the port, and the
      port is dropped when it is the scheme's default. */
  lemma HostHeaderWithPort(env: Env, host: string, p: int)
    requires Var(env, "HTTP_HOST") == Some(host + ":" + IntToString(p)) && host != "" && ':' !in host
    ensures HostAndPort(env) == Some((host, Some(IntToString(p))))
    ensures UriFromGlobals(env).Some? && UriFromGlobals(env).value.host == host
    ensures UriFromGlobals(env).value.port == if p == DefaultPort(Scheme(env)) then None else Some(p)
  {
    SplitAtFirstAt(host, IntToString(p), ':');
    ParseIntOfIntToString(p);
  }

  /** Without a Host header the server name is the host. */
  lemma HostFromServerName(env: Env, name: string)
    requires Var(env, "HTTP_HOST").None? && Var(env, "SERVER_NAME") == Some(name)
    ensures HostAndPort(env) == Some((name, None))
  {
  }

  /** The path stops before the first `?` of the request URI. */
  lemma PathBeforeQuery(env: Env, path: string, query: string)
    requires Var(env, "REQUEST_URI") == Some(path + "?" + query) && '?' !in path
    ensures Path(env) == path
  {
    SplitAtFirstAt(path, query, '?');
  }

  /** A request URI without `?` is the whole path. */
  lemma WholePath(env: Env, path: string)
    requires Var(env, "REQUEST_URI") == Some(path) && '?' !in path
    ensures Path(env) == path
  {
    var split := SplitAtFirst(path, '?');
    assert split.1 == None;
    assert split.0 == path;
  }

  /** Without a query string and without `?` in the request URI there is no
      query. */
  lemma NoQueryWithoutMark(env: Env, path: string)
    requires Var(env, "QUERY_STRING").None?
    requires Var(env, "REQUEST_URI") == Some(path) && '?' !in path
    ensures Query(env) == None
  {
    assert SplitAtFirst(path, '?').1 == None;
  }

  /** Without a query string, the query is what follows the first `?` of
      the request URI, and there is none when nothing follows it. */
  lemma QueryFromRequestUri(env: Env, path: string, query: string)
    requires Var(env, "QUERY_STRING").None?
    requires Var(env, "REQUEST_URI") == Some(path + "?" + query) && '?' !in path
    ensures Query(env) == if query == "" then None else Some(query)
  {
    SplitAtFirstAt(path, query, '?');
  }

  /** Server variables as the tests set them: `HTTPS`, the Host header (null
      when absent), the server name, the port, the request URI and the query
      string. */
  predicate ServerVars(env: Env, https: string, hostHeader: Option<string>, name: string,
                       port: string, requestUri: string, queryString: string) {
    && "HTTPS" in env && env["HTTPS"] == Some(https)
    && "HTTP_HOST" in env && env["HTTP_HOST"] == hostHeader
    && "SERVER_NAME" in env && env["SERVER_NAME"] == Some(name)
    && "SERVER_PORT" in env && env["SERVER_PORT"] == Some(port)
    && "REQUEST_URI" in env && env["REQUEST_URI"] == Some(requestUri)
    && "QUERY_STRING" in env && env["QUERY_STRING"] == Some(queryString)
  }

  /** A host name without port and an absolute path without `?`, as the
      scenarios use them. */
  predicate Plain(host: string, path: string) {
    host != "" && ':' !in host && path != [] && path[0] == '/' && '?' !in path
  }

  /** `HTTPS=1` is not `on`: an ordinary request on port 80 gives an http
      URI without port. */
  lemma OrdinaryUri(env: Env, host: string, path: string, query: string)
    requires ServerVars(env, "1", Some(host), host, "80", path + "?" + query, query) && Plain(host, path) && query != ""
    ensures UriFromGlobals(env) == Some(Uri("http", host, None, path, Some(query)))
  {
    assert Scheme(env) == "http";
    HostFromHeader(env, host);
    PortTexts();
    assert Port(env, None, "http") == None;
    PathBeforeQuery(env, path, query);
  }

  /** `HTTPS=on` selects https, and port 443 is then omitted. */
  lemma SecureUri(env: Env, host: string, path: string, query: string)
    requires ServerVars(env, "on", Some(host), host, "443", path + "?" + query, query) && Plain(host, path) && query != ""
    ensures UriFromGlobals(env) == Some(Uri("https", host, None, path, Some(query)))
  {
    assert Scheme(env) == "https";
    HostFromHeader(env, host);
    PortTexts();
    assert Port(env, None, "https") == None;
    PathBeforeQuery(env, path, query);
  }

  /** A null Host header falls back to the server name. */
  lemma HostMissingUri(env: Env, host: string, path: string, query: string)
    requires ServerVars(env, "1", None, host, "80", path + "?" + query, query) && Plain(host, path) && query != ""
    ensures UriFromGlobals(env) == Some(Uri("http", host, None, path, Some(query)))
  {
    assert Scheme(env) == "http";
    HostFromServerName(env, host);
    PortTexts();
    assert Port(env, None, "http") == None;
    PathBeforeQuery(env, path, query);
  }

  /** A request URI without `?` and an empty query string give no query. */
  lemma NoQueryUri(env: Env, host: string, path: string)
    requires ServerVars(env, "1", Some(host), host, "80", path, "") && Plain(host, path)
    ensures UriFromGlobals(env) == Some(Uri("http", host, None, path, None))
  {
    assert Scheme(env) == "http";
    HostFromHeader(env, host);
    PortTexts();
    assert Port(env, None, "http") == None;
    NoQueryParts(env, host, path);
  }

  /** The path and query of the request without a query: an empty query
      string counts as unset. */
  lemma NoQueryParts(env: Env, host: string, path: string)
    requires ServerVars(env, "1", Some(host), host, "80", path, "") && path != "" && '?' !in path
    ensures Path(env) == path && Query(env) == None
  {
    WholePath(env, path);
    assert Var(env, "QUERY_STRING").None?;
    NoQueryWithoutMark(env, path);
  }

  /** A port other than the scheme's default is kept. */
  lemma DifferentPortUri(env: Env, host: string, path: string, query: string)
    requires ServerVars(env, "1", Some(host), host, "8324", path + "?" + query, query) && Plain(host, path) && query != ""
    ensures UriFromGlobals(env) == Some(Uri("http", host, Some(8324), path, Some(query)))
  {
    assert Scheme(env) == "http";
    HostFromHeader(env, host);
    PortTexts();
    assert Port(env, None, "http") == Some(8324);
    PathBeforeQuery(env, path, query);
  }

  /** The texts of the rebuilt URIs of the scenarios. */
  lemma UriTexts(host: string, path: string, query: string)
    ensures UriString(Uri("http", host, None, path, Some(query))) == "http://" + host + path + "?" + query
    ensures UriString(Uri("https", host, None, path, Some(query))) == "https://" + host + path + "?" + query
    ensures UriString(Uri("http", host, None, path, None)) == "http://" + host + path
    ensures UriString(Uri("http", host, Some(8324), path, Some(query))) == "http://" + host + ":8324" + path + "?" + query
  {
    assert "http" + "://" == "http://";
    assert "https" + "://" == "https://";
    assert IntToString(8324) == "8324";
  }

  /** The ordinary request renders as `http://host/path?query`. */
  lemma OrdinaryRequest(env: Env, host: string, path: string, query: string)
    requires ServerVars(env, "1", Some(host), host, "80", path + "?" + query, query) && Plain(host, path) && query != ""
    ensures GetUriFromGlobals(env) == "http://" + host + path + "?" + query
  {
    OrdinaryUri(env, host, path, query);
    UriTexts(host, path, query);
  }

  /** The secure request renders as `https://host/path?query`. */
  lemma SecureRequest(env: Env, host: string, path: string, query: string)
    requires ServerVars(env, "on", Some(host), host, "443", path + "?" + query, query) && Plain(host, path) && query != ""
    ensures GetUriFromGlobals(env) == "https://" + host + path + "?" + query
  {
    SecureUri(env, host, path, query);
    UriTexts(host, path, query);
  }

  /** Without a Host header the server name supplies the host. */
  lemma HostMissingRequest(env: Env, host: string, path: string, query: string)
    requires ServerVars(env, "1", None, host, "80", path + "?" + query, query) && Plain(host, path) && query != ""
    ensures GetUriFromGlobals(env) == "http://" + host + path + "?" + query
  {
    HostMissingUri(env, host, path, query);
    UriTexts(host, path, query);
  }

  /** An empty query string leaves no `?` in the rendered URI. */
  lemma NoQueryRequest(env: Env, host: string, path: string)
    requires ServerVars(env, "1", Some(host), host, "80", path, "") && Plain(host, path)
    ensures GetUriFromGlobals(env) == "http://" + host + path
  {
    NoQueryUri(env, host, path);
    UriTexts(host, path, "");
  }

  /** A non-default server port is written after the host. */
  lemma DifferentPortRequest(env: Env, host: string, path: string, query: string)
    requires ServerVars(env, "1", Some(host), host, "8324", path + "?" + query, query) && Plain(host, path) && query != ""
    ensures GetUriFromGlobals(env) == "http://" + host + ":8324" + path + "?" + query
  {
    DifferentPortUri(env, host, path, query);
    UriTexts(host, path, query);
  }
}
