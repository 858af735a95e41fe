/**
 * The imperative half of guidelight/client.py: the `Client` object with its
 * lazily cached host and prefix, its credentials slot and the header dict
 * that every pre-flight rebinds, over a transport that stands in for the
 * HTTP session.
 */
module Clients {
  import opened Wrappers
  import opened Strings
  import opened OrderedMaps
  import opened UrlLib
  import opened PosixPath
  import opened Urls
  import opened Errors
  import opened Responses

  /** The token pair the server hands out. Whether a pair is still usable is decided elsewhere. */
  datatype Credentials = Credentials(accessToken: string, refreshToken: string)

  /** A `requests` timeout: one number of seconds, or a (connect, read) pair. */
  datatype Timeout = Seconds(seconds: real) | Pair(connect: real, read: real)

  const DefaultTimeout: Timeout := Pair(10.0, 30.0)

  datatype Verb = GET | POST | PUT | DELETE

  /** A JSON request body, reduced to a flat object of strings. */
  type Payload = Assoc<string, string>

  /** What the client hands the session for one call. */
  datatype Request = Request(verb: Verb, url: string, headers: Assoc<string, string>, data: Option<Payload>, timeout: Timeout)

  const NoUrl: Error := Raised(ClientError, "no Endeavor URL has been configured")
  const NoHost: Error := ValueError("cannot compute prefix without host")
  const NoApiKey: Error := Raised(AuthenticationError, "no client id or secret specified")
  const NoRefreshToken: Error := Raised(AuthenticationError, "no refresh token available")

  /** The five headers of every request, in the order the client writes them. */
  function DefaultHeaders(userAgent: string): Assoc<string, string> {
    [ ("Accept", "application/json"),
      ("Accept-Language", "en-US,en"),
      ("Accept-Encoding", "gzip, deflate, br"),
      ("Content-Type", "application/json; charset=utf-8"),
      ("User-Agent", userAgent) ]
  }

  /** The default headers name five distinct keys, none of them "Authorization". */
  lemma DefaultHeadersKeys(userAgent: string)
    ensures Keys(DefaultHeaders(userAgent)) == ["Accept", "Accept-Language", "Accept-Encoding", "Content-Type", "User-Agent"]
    ensures DistinctKeys(DefaultHeaders(userAgent)) && "Authorization" !in Keys(DefaultHeaders(userAgent))
  {
  }

  /** The header `_authentication_headers` returns. */
  function Bearer(c: Credentials): Assoc<string, string> {
    [("Authorization", "Bearer " + c.accessToken)]
  }

  /** The host of a parsed URL, as the `host` property computes it. */
  function HostOf(u: URL): string {
    if u.netloc != "" then u.netloc else Split(u.path, '/')[0]
  }

  /** The scheme `prefix` picks for a host. */
  function Scheme(host: string): string {
    if IsLocal(host) then "http" else "https"
  }

  /**
   * `Credentials(rep["access_token"], rep["refresh_token"])` over the outcome
   * of the exchange: indexing `None` or bytes by a string raises TypeError,
   * a missing member raises KeyError, first for the access token.
   */
  function TokenPair(r: Result<Value, Error>): (c: Result<Credentials, Error>)
    ensures c.Success? <==> r.Success? && r.value.JsonValue? && r.value.doc.accessToken.Some? && r.value.doc.refreshToken.Some?
    ensures c.Success? ==> c.value == Credentials(r.value.doc.accessToken.value, r.value.doc.refreshToken.value)
    ensures r.Failure? ==> c == Failure(r.error)
  {
    match r
    case Failure(e) => Failure(e)
    case Success(Nothing) => Failure(TypeError("'NoneType' object is not subscriptable"))
    case Success(Bytes(_)) => Failure(TypeError("byte indices must be integers or slices, not str"))
    case Success(JsonValue(d)) =>
      if d.accessToken.None? then Failure(KeyError("access_token"))
      else if d.refreshToken.None? then Failure(KeyError("refresh_token"))
      else Success(Credentials(d.accessToken.value, d.refreshToken.value))
  }

  /** What a call comes back with when the transport holds `script` and the host cache is `cached`. */
  function Reply(url: URL, script: seq<Response>, cached: Option<string>): Result<Value, Error>
    requires script != [] ==> InScope(script[0])
  {
    if script == [] then Failure(TransportError) else Responses.Handle(script[0], Some(HostOf(url)), cached)
  }

  /** The script after one call has consumed its response. */
  function Rest(script: seq<Response>): seq<Response> {
    if script == [] then [] else script[1..]
  }

  /** `session.request`, reduced to a log of the requests made and a script of the responses they get. */
  class Transport {
    var script: seq<Response>
    var sent: seq<Request>

    ghost predicate Valid()
      reads this`script
    {
      forall i :: 0 <= i < |script| ==> InScope(script[i])
    }

    constructor(script: seq<Response>)
      requires forall i :: 0 <= i < |script| ==> InScope(script[i])
      ensures Valid() && this.script == script && sent == []
    {
      this.script := script;
      sent := [];
    }

    /** Records the request and hands back the next response; with none left the connection fails. */
    method Send(req: Request) returns (r: Result<Response, Error>)
      requires Valid()
      modifies this`sent, this`script
      ensures Valid()
      ensures sent == old(sent) + [req]
      ensures script == Rest(old(script))
      ensures old(script) == [] ==> r == Failure(TransportError)
      ensures old(script) != [] ==> r == Success(old(script)[0]) && InScope(r.value)
    {
      sent := sent + [req];
      if script == [] {
        r := Failure(TransportError);
      } else {
        r := Success(script[0]);
        script := script[1..];
      }
    }
  }

  /** A Python dict of headers. It is an object, so an update through one name shows through every other. */
  class HeaderDict {
    var entries: Assoc<string, string>

    constructor()
      ensures entries == []
    {
      entries := [];
    }

    /** `d.update(u)`. */
    method Update(u: Assoc<string, string>)
      modifies this
      ensures entries == OrderedMaps.Update(old(entries), u)
    {
      entries := OrderedMaps.Update(entries, u);
    }
  }

  class Client {
    var url: Option<URL>
    /** `_host`: the cache behind the `host` property. */
    var host: Option<string>
    /** `_prefix`: the cache behind the `prefix` property. */
    var prefix: Option<string>
    var timeout: Timeout
    var creds: Option<Credentials>
    /** `_request_headers`: the dict the last pre-flight built; null before the first. */
    var requestHeaders: HeaderDict?
    const clientId: Option<string>
    const clientSecret: Option<string>
    /** `_headers`: the default headers. */
    const headers: Assoc<string, string>
    const transport: Transport
    /** `Credentials.is_authenticated`, which is not part of this model. */
    const isAuthenticated: Credentials -> bool
    /** `Credentials.is_refreshable`, which is not part of this model. */
    const isRefreshable: Credentials -> bool

    ghost predicate Valid()
      reads this`url, this`host, this`prefix, transport`script
    {
      && transport.Valid()
      && (host.Some? ==> url.Some? && host.value == HostOf(url.value))
      && (prefix.Some? ==> host.Some? && host.value != "" && prefix.value == Scheme(host.value))
      && DistinctKeys(headers) && "Authorization" !in Keys(headers)
    }

    /** What the `host` property gives now: the cache is either empty or agrees with this. */
    function CurrentHost(): Option<string>
      reads this`url
    {
      if url.Some? then Some(HostOf(url.value)) else None
    }

    /** `is_authenticated()`. */
    predicate IsAuthenticated()
      reads this`creds
    {
      creds.Some? && isAuthenticated(creds.value)
    }

    /** `is_refreshable()`. */
    predicate IsRefreshable()
      reads this`creds
    {
      creds.Some? && isRefreshable(creds.value)
    }

    /** Both halves of the API key are present and non-empty. */
    predicate HasApiKey()
    {
      clientId.Some? && clientId.value != "" && clientSecret.Some? && clientSecret.value != ""
    }

    /**
     * `Client(url, client_id, client_secret, timeout)` up to, but not
     * including, the `prefix` lookup that ends `__init__`; `Create` adds it.
     */
    constructor(url: string, clientId: Option<string>, clientSecret: Option<string>, timeout: Option<Timeout>,
                userAgent: string, transport: Transport, isAuthenticated: Credentials -> bool, isRefreshable: Credentials -> bool)
      requires transport.Valid()
      ensures Valid()
      ensures this.url == (if url != "" then Some(Parse(url, "", true)) else None)
      ensures host == None && prefix == None && creds == None && requestHeaders == null
      ensures this.timeout == timeout.GetOr(DefaultTimeout)
      ensures this.clientId == clientId && this.clientSecret == clientSecret && headers == DefaultHeaders(userAgent)
      ensures this.transport == transport && this.isAuthenticated == isAuthenticated && this.isRefreshable == isRefreshable
    {
      host := None;
      creds := None;
      prefix := None;
      this.url := if url != "" then Some(Parse(url, "", true)) else None;
      this.clientId := clientId;
      this.clientSecret := clientSecret;
      DefaultHeadersKeys(userAgent);
      headers := DefaultHeaders(userAgent);
      this.timeout := timeout.GetOr(DefaultTimeout);
      this.transport := transport;
      this.isAuthenticated := isAuthenticated;
      this.isRefreshable := isRefreshable;
      requestHeaders := null;
    }

    /** `Client(...)`: the constructor followed by `self.prefix`, which raises when the URL gives no host. */
    static method Create(url: string, clientId: Option<string>, clientSecret: Option<string>, timeout: Option<Timeout>,
                         userAgent: string, transport: Transport, isAuthenticated: Credentials -> bool, isRefreshable: Credentials -> bool)
      returns (r: Result<Client, Error>)
      requires transport.Valid()
      ensures r.Failure? <==> url == "" || HostOf(Parse(url, "", true)) == ""
      ensures r.Failure? ==> r.error == NoHost
      ensures r.Success? ==> fresh(r.value) && r.value.Valid() && r.value.transport == transport
      ensures r.Success? ==> r.value.url == Some(Parse(url, "", true)) && r.value.creds == None && r.value.requestHeaders == null
      ensures r.Success? ==> r.value.host == Some(HostOf(Parse(url, "", true))) && r.value.prefix == Some(Scheme(r.value.host.value))
      ensures r.Success? ==> r.value.timeout == timeout.GetOr(DefaultTimeout) && r.value.headers == DefaultHeaders(userAgent)
      ensures r.Success? ==> r.value.clientId == clientId && r.value.clientSecret == clientSecret
      ensures r.Success? ==> r.value.isAuthenticated == isAuthenticated && r.value.isRefreshable == isRefreshable
    {
      var c := new Client(url, clientId, clientSecret, timeout, userAgent, transport, isAuthenticated, isRefreshable);
      var p := c.Prefix();
      if p.Failure? {
        return Failure(p.error);
      }
      return Success(c);
    }

    /** The `timeout` setter: `None` means (10.0, 30.0). */
    method SetTimeout(value: Option<Timeout>)
      requires Valid()
      modifies this`timeout
      ensures Valid()
      ensures timeout == value.GetOr(DefaultTimeout)
      ensures url == old(url) && host == old(host) && prefix == old(prefix) && creds == old(creds) && requestHeaders == old(requestHeaders)
    {
      timeout := if value.None? then DefaultTimeout else value.value;
    }

    /** The `url` setter: parses a non-empty string and empties both caches. */
    method SetUrl(value: string)
      requires Valid()
      modifies this`host, this`prefix, this`url
      ensures Valid()
      ensures url == (if value != "" then Some(Parse(value, "", true)) else None)
      ensures host == None && prefix == None
      ensures timeout == old(timeout) && creds == old(creds) && requestHeaders == old(requestHeaders)
    {
      host := None;
      prefix := None;
      url := if value != "" then Some(Parse(value, "", true)) else None;
    }

    /** The `host` property: fills the cache from the URL on first use. */
    method Host() returns (h: Option<string>)
      requires Valid()
      modifies this`host
      ensures Valid()
      ensures h == CurrentHost() && host == CurrentHost()
      ensures url == old(url) && prefix == old(prefix) && timeout == old(timeout) && creds == old(creds)
      ensures requestHeaders == old(requestHeaders)
    {
      if host.None? && url.Some? {
        var parsed := url.value;
        if parsed.netloc != "" {
          host := Some(parsed.netloc);
        } else {
          host := Some(Split(parsed.path, '/')[0]);
        }
      }
      h := host;
    }

    /** `is_localhost()`: looking for ':' in a missing host raises TypeError. */
    method IsLocalhost() returns (r: Result<bool, Error>)
      requires Valid()
      modifies this`host
      ensures Valid()
      ensures CurrentHost().None? ==> r == Failure(TypeError("argument of type 'NoneType' is not iterable"))
      ensures CurrentHost().Some? ==> r == Success(IsLocal(CurrentHost().value))
      ensures host == CurrentHost()
      ensures url == old(url) && prefix == old(prefix) && timeout == old(timeout) && creds == old(creds)
      ensures requestHeaders == old(requestHeaders)
    {
      var h := Host();
      if h.None? {
        return Failure(TypeError("argument of type 'NoneType' is not iterable"));
      }
      var name := h.value;
      if ':' in name {
        name := Split(name, ':')[0];
      }
      return Success(name == "localhost" || EndsWith(name, ".local"));
    }

    /** The `prefix` property: "http" for a local host, "https" otherwise, cached; no host raises ValueError. */
    method Prefix() returns (r: Result<string, Error>)
      requires Valid()
      modifies this`host, this`prefix
      ensures Valid()
      ensures r == if CurrentHost().None? || CurrentHost().value == "" then Failure(NoHost) else Success(Scheme(CurrentHost().value))
      ensures prefix == if r.Success? then Some(r.value) else old(prefix)
      ensures old(prefix).Some? ==> host == old(host)
      ensures old(prefix).None? ==> host == CurrentHost()
      ensures url == old(url) && timeout == old(timeout) && creds == old(creds) && requestHeaders == old(requestHeaders)
    {
      if prefix.None? {
        var h := Host();
        if h.None? || h.value == "" {
          return Failure(NoHost);
        }
        var local := IsLocalhost();
        prefix := Some(if local.value then "http" else "https");
      }
      r := Success(prefix.value);
    }

    /** `_make_endpoint(*endpoint, query=query)`: always below "/v1", whatever the base path. */
    function MakeEndpoint(endpoint: seq<string>, query: QueryMap): (u: URL)
      reads this`url
      requires url.Some?
      ensures u.path == PathJoin("/v1", endpoint)
      ensures u.scheme == url.value.scheme && u.netloc == url.value.netloc
      ensures u.params == url.value.params && u.fragment == url.value.fragment
    {
      ResolveUnderV1(url.value, endpoint, query);
      Resolve(url.value, ["/", "v1"] + endpoint, query)
    }

    /** `client.handle(rep)`: only the 4xx branch consults the `host` property, and so fills its cache. */
    method Handle(rep: Response) returns (r: Result<Value, Error>)
      requires Valid() && InScope(rep)
      modifies this`host
      ensures Valid()
      ensures r == Responses.Handle(rep, CurrentHost(), old(host))
      ensures host == if IsClientError(rep.status) && rep.status !in {401, 403} then CurrentHost() else old(host)
      ensures r.Success? ==> IsSuccess(rep.status) && host == old(host)
      ensures url == old(url) && prefix == old(prefix) && timeout == old(timeout) && creds == old(creds)
      ensures requestHeaders == old(requestHeaders)
    {
      var cached := host;
      HandleSuccess(rep, CurrentHost(), cached);
      if IsClientError(rep.status) && rep.status != 401 && rep.status != 403 {
        var h := Host();
        r := Responses.Handle(rep, h, cached);
      } else {
        r := Responses.Handle(rep, None, cached);
      }
    }

    // -------------------------------------------------------------------
    // Authentication
    // -------------------------------------------------------------------

    /** The body of the exchange: the API key for "authenticate", the refresh token for "reauthenticate". */
    function ExchangeBody(): Payload
      reads this`creds
    {
      if IsRefreshable() then [("refresh_token", creds.value.refreshToken)]
      else [("client_id", clientId.GetOr("")), ("client_secret", clientSecret.GetOr(""))]
    }

    /** The endpoint of the exchange `_authentication_headers` would make now. */
    function ExchangePath(): string
      reads this`creds
    {
      if IsRefreshable() then "reauthenticate" else "authenticate"
    }

    /** Whether that exchange gets as far as a request. */
    predicate ExchangeSends()
      reads this`url, this`creds
    {
      url.Some? && (if IsRefreshable() then creds.value.refreshToken != "" else HasApiKey())
    }

    /** The request that exchange sends. */
    function ExchangeRequest(): Request
      reads this`url, this`creds, this`timeout
      requires url.Some?
    {
      Request(POST, Serialize(MakeEndpoint([ExchangePath()], [])), headers, Some(ExchangeBody()), timeout)
    }

    /** What that exchange yields: the new credentials, or the error it raises. */
    ghost function Exchange(): (r: Result<Credentials, Error>)
      reads this`url, this`host, this`creds, transport`script
      requires transport.Valid()
      ensures r.Success? ==> ExchangeSends() && transport.script != []
    {
      if IsRefreshable() && creds.value.refreshToken == "" then Failure(NoRefreshToken)
      else if !IsRefreshable() && !HasApiKey() then Failure(NoApiKey)
      else if url.None? then Failure(NoUrl)
      else TokenPair(Reply(url.value, transport.script, host))
    }

    /**
     * `_authenticate()`: with both halves of the API key, POST them to
     * "authenticate" without authentication and read the token pair from
     * the reply.
     */
    method Authenticate() returns (r: Result<Credentials, Error>)
      requires Valid() && !IsRefreshable()
      modifies this, transport
      decreases 1, 0
      ensures Valid()
      ensures r == old(Exchange())
      ensures r.Success? ==> host == old(host)
      ensures url == old(url) && prefix == old(prefix) && timeout == old(timeout) && creds == old(creds)
      ensures old(ExchangeSends()) ==>
        && transport.sent == old(transport.sent) + [old(ExchangeRequest())]
        && transport.script == Rest(old(transport.script))
        && fresh(requestHeaders) && requestHeaders.entries == headers
      ensures !old(ExchangeSends()) ==>
        && transport.sent == old(transport.sent) && transport.script == old(transport.script)
        && requestHeaders == old(requestHeaders) && host == old(host)
    {
      if clientId.None? || clientId.value == "" || clientSecret.None? || clientSecret.value == "" {
        return Failure(NoApiKey);
      }
      var apikey := [("client_id", clientId.value), ("client_secret", clientSecret.value)];
      var rep := PerformAsWritten(POST, Some(apikey), ["authenticate"], [], false);
      assert headers + [] == headers;
      r := TokenPair(rep);
    }

    /** `_reauthenticate()`: POST the refresh token to "reauthenticate"; an empty one raises first. */
    method Reauthenticate() returns (r: Result<Credentials, Error>)
      requires Valid() && IsRefreshable()
      modifies this, transport
      decreases 1, 0
      ensures Valid()
      ensures r == old(Exchange())
      ensures r.Success? ==> host == old(host)
      ensures url == old(url) && prefix == old(prefix) && timeout == old(timeout) && creds == old(creds)
      ensures old(ExchangeSends()) ==>
        && transport.sent == old(transport.sent) + [old(ExchangeRequest())]
        && transport.script == Rest(old(transport.script))
        && fresh(requestHeaders) && requestHeaders.entries == headers
      ensures !old(ExchangeSends()) ==>
        && transport.sent == old(transport.sent) && transport.script == old(transport.script)
        && requestHeaders == old(requestHeaders) && host == old(host)
    {
      if creds.value.refreshToken == "" {
        return Failure(NoRefreshToken);
      }
      var refresh := [("refresh_token", creds.value.refreshToken)];
      var rep := PerformAsWritten(POST, Some(refresh), ["reauthenticate"], [], false);
      assert headers + [] == headers;
      r := TokenPair(rep);
    }

    /**
     * `_authentication_headers()`: held, authenticated credentials are
     * reused without a request; otherwise they are refreshed when
     * refreshable and obtained from the API key when not, and replace the
     * held ones only when the exchange succeeds.
     */
    method AuthenticationHeaders() returns (r: Result<Assoc<string, string>, Error>)
      requires Valid()
      modifies this, transport
      decreases 1, 1
      ensures Valid()
      ensures url == old(url) && prefix == old(prefix) && timeout == old(timeout)
      ensures r.Success? ==> creds.Some? && r.value == Bearer(creds.value) && host == old(host)
      ensures old(IsAuthenticated()) ==>
        && r == Success(Bearer(old(creds).value)) && creds == old(creds)
        && transport.sent == old(transport.sent) && transport.script == old(transport.script)
        && requestHeaders == old(requestHeaders) && host == old(host)
      ensures !old(IsAuthenticated()) ==>
        && (r.Success? <==> old(Exchange()).Success?)
        && (r.Failure? ==> r.error == old(Exchange()).error)
        && creds == (if old(Exchange()).Success? then Some(old(Exchange()).value) else old(creds))
      ensures !old(IsAuthenticated()) && old(ExchangeSends()) ==>
        && transport.sent == old(transport.sent) + [old(ExchangeRequest())]
        && transport.script == Rest(old(transport.script))
        && fresh(requestHeaders) && requestHeaders.entries == headers
      ensures !old(IsAuthenticated()) && !old(ExchangeSends()) ==>
        && transport.sent == old(transport.sent) && transport.script == old(transport.script)
        && requestHeaders == old(requestHeaders) && host == old(host)
    {
      if !IsAuthenticated() {
        var next: Result<Credentials, Error>;
        if IsRefreshable() {
          next := Reauthenticate();
        } else {
          next := Authenticate();
        }
        if next.Failure? {
          return Failure(next.error);
        }
        creds := Some(next.value);
      }
      r := Success(Bearer(creds.value));
    }

    /** `self._request_headers = {}` followed by `.update(self._headers)`. */
    method ResetHeaders()
      requires DistinctKeys(headers)
      modifies this`requestHeaders
      ensures fresh(requestHeaders) && requestHeaders.entries == headers
    {
      var d := new HeaderDict();
      requestHeaders := d;
      d.Update(headers);
      UpdateAppend([], headers);
      assert [] + headers == headers;
    }

    /**
     * `_pre_flight(require_authentication)` with the header dict built after
     * the authentication headers are known, so that the dict the request
     * reads is the one that holds them.
     */
    method PreFlight(requireAuth: bool) returns (r: Result<(), Error>)
      requires Valid()
      modifies this, transport
      decreases if requireAuth then 1 else 0, 2
      ensures Valid()
      ensures url == old(url) && prefix == old(prefix) && timeout == old(timeout)
      ensures r.Success? ==> host == old(host)
      ensures old(url).None? ==>
        && r == Failure(NoUrl) && creds == old(creds) && host == old(host) && requestHeaders == old(requestHeaders)
        && transport.sent == old(transport.sent) && transport.script == old(transport.script)
      ensures old(url).Some? && (!requireAuth || old(IsAuthenticated())) ==>
        && r == Success(()) && creds == old(creds) && host == old(host)
        && transport.sent == old(transport.sent) && transport.script == old(transport.script)
      ensures old(url).Some? && requireAuth && !old(IsAuthenticated()) ==>
        && (r.Success? <==> old(Exchange()).Success?)
        && (r.Failure? ==> r.error == old(Exchange()).error)
        && creds == (if old(Exchange()).Success? then Some(old(Exchange()).value) else old(creds))
        && transport.sent == old(transport.sent) + (if old(ExchangeSends()) then [old(ExchangeRequest())] else [])
        && transport.script == (if old(ExchangeSends()) then Rest(old(transport.script)) else old(transport.script))
      ensures r.Success? ==> fresh(requestHeaders)
      ensures r.Success? && !requireAuth ==> requestHeaders.entries == headers
      ensures r.Success? && requireAuth ==> creds.Some? && requestHeaders.entries == headers + Bearer(creds.value)
    {
      if url.None? {
        return Failure(NoUrl);
      }
      var auth := [];
      if requireAuth {
        var a := AuthenticationHeaders();
        if a.Failure? {
          return Failure(a.error);
        }
        auth := a.value;
      }
      ResetHeaders();
      requestHeaders.Update(auth);
      if requireAuth {
        AppendBearer(headers, creds.value);
      }
      r := Success(());
    }

    /**
     * `_pre_flight(require_authentication)` as written: the dict being
     * updated at the end is looked up before `_authentication_headers()`
     * runs, so when that call has to exchange tokens, the nested request
     * rebinds `_request_headers` and the bearer header lands in a dict no one
     * reads any more.
     */
    method PreFlightAsWritten(requireAuth: bool) returns (r: Result<(), Error>)
      requires Valid()
      modifies this, transport
      decreases if requireAuth then 1 else 0, 2
      ensures Valid()
      ensures url == old(url) && prefix == old(prefix) && timeout == old(timeout)
      ensures r.Success? ==> host == old(host)
      ensures old(url).None? ==>
        && r == Failure(NoUrl) && creds == old(creds) && host == old(host) && requestHeaders == old(requestHeaders)
        && transport.sent == old(transport.sent) && transport.script == old(transport.script)
      ensures old(url).Some? && (!requireAuth || old(IsAuthenticated())) ==>
        && r == Success(()) && creds == old(creds) && host == old(host)
        && transport.sent == old(transport.sent) && transport.script == old(transport.script)
      ensures old(url).Some? && requireAuth && !old(IsAuthenticated()) ==>
        && (r.Success? <==> old(Exchange()).Success?)
        && (r.Failure? ==> r.error == old(Exchange()).error)
        && creds == (if old(Exchange()).Success? then Some(old(Exchange()).value) else old(creds))
        && transport.sent == old(transport.sent) + (if old(ExchangeSends()) then [old(ExchangeRequest())] else [])
        && transport.script == (if old(ExchangeSends()) then Rest(old(transport.script)) else old(transport.script))
      ensures r.Success? ==> fresh(requestHeaders)
      ensures r.Success? && !requireAuth ==> requestHeaders.entries == headers
      ensures r.Success? && requireAuth && old(IsAuthenticated()) ==> requestHeaders.entries == headers + Bearer(old(creds).value)
      ensures r.Success? && requireAuth && !old(IsAuthenticated()) ==> requestHeaders.entries == headers
      ensures r.Success? && requireAuth && !old(IsAuthenticated()) ==> "Authorization" !in Keys(requestHeaders.entries)
    {
      if url.None? {
        return Failure(NoUrl);
      }
      ResetHeaders();
      if requireAuth {
        var target := requestHeaders;
        var a := AuthenticationHeaders();
        if a.Failure? {
          return Failure(a.error);
        }
        target.Update(a.value);
        if target == requestHeaders {
          AppendBearer(headers, creds.value);
        }
      }
      r := Success(());
    }

    /**
     * One call of `get`, `post`, `put` or `delete` as written: the
     * pre-flight of the code, then send the dict `_request_headers` names to
     * the resolved endpoint, then `handle` the reply. When the pre-flight had
     * to exchange tokens, the call goes out with the default headers only.
     */
    method PerformAsWritten(verb: Verb, data: Option<Payload>, endpoint: seq<string>, query: QueryMap, requireAuth: bool)
      returns (r: Result<Value, Error>)
      requires Valid()
      modifies this, transport
      decreases if requireAuth then 1 else 0, 3
      ensures Valid()
      ensures url == old(url) && prefix == old(prefix) && timeout == old(timeout)
      ensures !requireAuth ==> creds == old(creds)
      ensures r.Success? ==> host == old(host)
      ensures old(url).None? ==>
        && r == Failure(NoUrl) && creds == old(creds) && host == old(host) && requestHeaders == old(requestHeaders)
        && transport.sent == old(transport.sent) && transport.script == old(transport.script)
      ensures old(url).Some? && (!requireAuth || old(IsAuthenticated())) ==>
        && creds == old(creds)
        && fresh(requestHeaders)
        && requestHeaders.entries == headers + (if requireAuth then Bearer(creds.value) else [])
        && transport.sent == old(transport.sent) + [Request(verb, Serialize(MakeEndpoint(endpoint, query)), requestHeaders.entries, data, timeout)]
        && transport.script == Rest(old(transport.script))
        && r == Reply(url.value, old(transport.script), old(host))
      ensures old(url).Some? && requireAuth && !old(IsAuthenticated()) && !old(Exchange()).Success? ==>
        && r == Failure(old(Exchange()).error) && creds == old(creds)
        && transport.sent == old(transport.sent) + (if old(ExchangeSends()) then [old(ExchangeRequest())] else [])
        && transport.script == (if old(ExchangeSends()) then Rest(old(transport.script)) else old(transport.script))
      ensures old(url).Some? && requireAuth && !old(IsAuthenticated()) && old(Exchange()).Success? ==>
        && creds == Some(old(Exchange()).value)
        && transport.sent == old(transport.sent) + [old(ExchangeRequest()), Request(verb, Serialize(MakeEndpoint(endpoint, query)), headers, data, timeout)]
        && transport.script == Rest(Rest(old(transport.script)))
        && r == Reply(url.value, Rest(old(transport.script)), old(host))
    {
      var pre := PreFlightAsWritten(requireAuth);
      if pre.Failure? {
        return Failure(pre.error);
      }
      r := Dispatch(verb, data, endpoint, query);
    }

    /**
     * The same call on the corrected pre-flight: every authenticated call
     * carries the bearer header of the credentials held when it is sent.
     */
    method Perform(verb: Verb, data: Option<Payload>, endpoint: seq<string>, query: QueryMap, requireAuth: bool)
      returns (r: Result<Value, Error>)
      requires Valid()
      modifies this, transport
      decreases if requireAuth then 1 else 0, 3
      ensures Valid()
      ensures url == old(url) && prefix == old(prefix) && timeout == old(timeout)
      ensures !requireAuth ==> creds == old(creds)
      ensures r.Success? ==> host == old(host)
      ensures old(url).None? ==>
        && r == Failure(NoUrl) && creds == old(creds) && host == old(host) && requestHeaders == old(requestHeaders)
        && transport.sent == old(transport.sent) && transport.script == old(transport.script)
      ensures old(url).Some? && (!requireAuth || old(IsAuthenticated())) ==>
        && creds == old(creds)
        && fresh(requestHeaders)
        && requestHeaders.entries == headers + (if requireAuth then Bearer(creds.value) else [])
        && transport.sent == old(transport.sent) + [Request(verb, Serialize(MakeEndpoint(endpoint, query)), requestHeaders.entries, data, timeout)]
        && transport.script == Rest(old(transport.script))
        && r == Reply(url.value, old(transport.script), old(host))
      ensures old(url).Some? && requireAuth && !old(IsAuthenticated()) && !old(Exchange()).Success? ==>
        && r == Failure(old(Exchange()).error) && creds == old(creds)
        && transport.sent == old(transport.sent) + (if old(ExchangeSends()) then [old(ExchangeRequest())] else [])
        && transport.script == (if old(ExchangeSends()) then Rest(old(transport.script)) else old(transport.script))
      ensures old(url).Some? && requireAuth && !old(IsAuthenticated()) && old(Exchange()).Success? ==>
        && creds == Some(old(Exchange()).value)
        && transport.sent == old(transport.sent) + [old(ExchangeRequest()), Request(verb, Serialize(MakeEndpoint(endpoint, query)), headers + Bearer(old(Exchange()).value), data, timeout)]
        && transport.script == Rest(Rest(old(transport.script)))
        && r == Reply(url.value, Rest(old(transport.script)), old(host))
      ensures r.Success? && requireAuth ==> creds.Some? && |transport.sent| > 0
      ensures r.Success? && requireAuth ==> transport.sent[|transport.sent| - 1].headers == headers + Bearer(creds.value)
    {
      var pre := PreFlight(requireAuth);
      if pre.Failure? {
        return Failure(pre.error);
      }
      r := Dispatch(verb, data, endpoint, query);
    }

    /**
     * The part of a call after the pre-flight: read `_request_headers`,
     * resolve the endpoint, send, and `handle` the reply.
     */
    method Dispatch(verb: Verb, data: Option<Payload>, endpoint: seq<string>, query: QueryMap) returns (r: Result<Value, Error>)
      requires Valid() && url.Some? && requestHeaders != null
      modifies this, transport
      ensures Valid()
      ensures url == old(url) && prefix == old(prefix) && timeout == old(timeout) && creds == old(creds)
      ensures r.Success? ==> host == old(host)
      ensures requestHeaders == old(requestHeaders) && requestHeaders.entries == old(requestHeaders.entries)
      ensures transport.sent == old(transport.sent) + [Request(verb, Serialize(MakeEndpoint(endpoint, query)), requestHeaders.entries, data, timeout)]
      ensures transport.script == Rest(old(transport.script))
      ensures r == Reply(url.value, old(transport.script), old(host))
    {
      var sentHeaders := requestHeaders.entries;
      var target := MakeEndpoint(endpoint, query);
      var rep := transport.Send(Request(verb, Serialize(target), sentHeaders, data, timeout));
      if rep.Failure? {
        return Failure(rep.error);
      }
      r := Handle(rep.value);
    }

    /** `get(*endpoint, query=query, require_authentication=...)`. */
    method Get(endpoint: seq<string>, query: QueryMap, requireAuth: bool) returns (r: Result<Value, Error>)
      requires Valid()
      modifies this, transport
      ensures Valid()
      ensures url == old(url) && prefix == old(prefix) && timeout == old(timeout)
      ensures !requireAuth ==> creds == old(creds)
      ensures r.Success? ==> host == old(host)
      ensures old(url).None? ==>
        && r == Failure(NoUrl) && creds == old(creds) && host == old(host) && requestHeaders == old(requestHeaders)
        && transport.sent == old(transport.sent) && transport.script == old(transport.script)
      ensures old(url).Some? && (!requireAuth || old(IsAuthenticated())) ==>
        && creds == old(creds)
        && fresh(requestHeaders)
        && requestHeaders.entries == headers + (if requireAuth then Bearer(creds.value) else [])
        && transport.sent == old(transport.sent) + [Request(GET, Serialize(MakeEndpoint(endpoint, query)), requestHeaders.entries, None, timeout)]
        && transport.script == Rest(old(transport.script))
        && r == Reply(url.value, old(transport.script), old(host))
      ensures old(url).Some? && requireAuth && !old(IsAuthenticated()) && !old(Exchange()).Success? ==>
        && r == Failure(old(Exchange()).error) && creds == old(creds)
        && transport.sent == old(transport.sent) + (if old(ExchangeSends()) then [old(ExchangeRequest())] else [])
        && transport.script == (if old(ExchangeSends()) then Rest(old(transport.script)) else old(transport.script))
      ensures old(url).Some? && requireAuth && !old(IsAuthenticated()) && old(Exchange()).Success? ==>
        && creds == Some(old(Exchange()).value)
        && transport.sent == old(transport.sent) + [old(ExchangeRequest()), Request(GET, Serialize(MakeEndpoint(endpoint, query)), headers, None, timeout)]
        && transport.script == Rest(Rest(old(transport.script)))
        && r == Reply(url.value, Rest(old(transport.script)), old(host))
    {
      r := PerformAsWritten(GET, None, endpoint, query, requireAuth);
    }

    /** `post(data, *endpoint, query=query, require_authentication=...)`. */
    method Post(data: Payload, endpoint: seq<string>, query: QueryMap, requireAuth: bool) returns (r: Result<Value, Error>)
      requires Valid()
      modifies this, transport
      ensures Valid()
      ensures url == old(url) && prefix == old(prefix) && timeout == old(timeout)
      ensures !requireAuth ==> creds == old(creds)
      ensures r.Success? ==> host == old(host)
      ensures old(url).None? ==>
        && r == Failure(NoUrl) && creds == old(creds) && host == old(host) && requestHeaders == old(requestHeaders)
        && transport.sent == old(transport.sent) && transport.script == old(transport.script)
      ensures old(url).Some? && (!requireAuth || old(IsAuthenticated())) ==>
        && creds == old(creds)
        && fresh(requestHeaders)
        && requestHeaders.entries == headers + (if requireAuth then Bearer(creds.value) else [])
        && transport.sent == old(transport.sent) + [Request(POST, Serialize(MakeEndpoint(endpoint, query)), requestHeaders.entries, Some(data), timeout)]
        && transport.script == Rest(old(transport.script))
        && r == Reply(url.value, old(transport.script), old(host))
      ensures old(url).Some? && requireAuth && !old(IsAuthenticated()) && !old(Exchange()).Success? ==>
        && r == Failure(old(Exchange()).error) && creds == old(creds)
        && transport.sent == old(transport.sent) + (if old(ExchangeSends()) then [old(ExchangeRequest())] else [])
        && transport.script == (if old(ExchangeSends()) then Rest(old(transport.script)) else old(transport.script))
      ensures old(url).Some? && requireAuth && !old(IsAuthenticated()) && old(Exchange()).Success? ==>
        && creds == Some(old(Exchange()).value)
        && transport.sent == old(transport.sent) + [old(ExchangeRequest()), Request(POST, Serialize(MakeEndpoint(endpoint, query)), headers, Some(data), timeout)]
        && transport.script == Rest(Rest(old(transport.script)))
        && r == Reply(url.value, Rest(old(transport.script)), old(host))
    {
      r := PerformAsWritten(POST, Some(data), endpoint, query, requireAuth);
    }

    /** `put(data, *endpoint, query=query, require_authentication=...)`. */
    method Put(data: Payload, endpoint: seq<string>, query: QueryMap, requireAuth: bool) returns (r: Result<Value, Error>)
      requires Valid()
      modifies this, transport
      ensures Valid()
      ensures url == old(url) && prefix == old(prefix) && timeout == old(timeout)
      ensures !requireAuth ==> creds == old(creds)
      ensures r.Success? ==> host == old(host)
      ensures old(url).None? ==>
        && r == Failure(NoUrl) && creds == old(creds) && host == old(host) && requestHeaders == old(requestHeaders)
        && transport.sent == old(transport.sent) && transport.script == old(transport.script)
      ensures old(url).Some? && (!requireAuth || old(IsAuthenticated())) ==>
        && creds == old(creds)
        && fresh(requestHeaders)
        && requestHeaders.entries == headers + (if requireAuth then Bearer(creds.value) else [])
        && transport.sent == old(transport.sent) + [Request(PUT, Serialize(MakeEndpoint(endpoint, query)), requestHeaders.entries, Some(data), timeout)]
        && transport.script == Rest(old(transport.script))
        && r == Reply(url.value, old(transport.script), old(host))
      ensures old(url).Some? && requireAuth && !old(IsAuthenticated()) && !old(Exchange()).Success? ==>
        && r == Failure(old(Exchange()).error) && creds == old(creds)
        && transport.sent == old(transport.sent) + (if old(ExchangeSends()) then [old(ExchangeRequest())] else [])
        && transport.script == (if old(ExchangeSends()) then Rest(old(transport.script)) else old(transport.script))
      ensures old(url).Some? && requireAuth && !old(IsAuthenticated()) && old(Exchange()).Success? ==>
        && creds == Some(old(Exchange()).value)
        && transport.sent == old(transport.sent) + [old(ExchangeRequest()), Request(PUT, Serialize(MakeEndpoint(endpoint, query)), headers, Some(data), timeout)]
        && transport.script == Rest(Rest(old(transport.script)))
        && r == Reply(url.value, Rest(old(transport.script)), old(host))
    {
      r := PerformAsWritten(PUT, Some(data), endpoint, query, requireAuth);
    }

    /** `delete(*endpoint, query=query, require_authentication=...)`. */
    method Delete(endpoint: seq<string>, query: QueryMap, requireAuth: bool) returns (r: Result<Value, Error>)
      requires Valid()
      modifies this, transport
      ensures Valid()
      ensures url == old(url) && prefix == old(prefix) && timeout == old(timeout)
      ensures !requireAuth ==> creds == old(creds)
      ensures r.Success? ==> host == old(host)
      ensures old(url).None? ==>
        && r == Failure(NoUrl) && creds == old(creds) && host == old(host) && requestHeaders == old(requestHeaders)
        && transport.sent == old(transport.sent) && transport.script == old(transport.script)
      ensures old(url).Some? && (!requireAuth || old(IsAuthenticated())) ==>
        && creds == old(creds)
        && fresh(requestHeaders)
        && requestHeaders.entries == headers + (if requireAuth then Bearer(creds.value) else [])
        && transport.sent == old(transport.sent) + [Request(DELETE, Serialize(MakeEndpoint(endpoint, query)), requestHeaders.entries, None, timeout)]
        && transport.script == Rest(old(transport.script))
        && r == Reply(url.value, old(transport.script), old(host))
      ensures old(url).Some? && requireAuth && !old(IsAuthenticated()) && !old(Exchange()).Success? ==>
        && r == Failure(old(Exchange()).error) && creds == old(creds)
        && transport.sent == old(transport.sent) + (if old(ExchangeSends()) then [old(ExchangeRequest())] else [])
        && transport.script == (if old(ExchangeSends()) then Rest(old(transport.script)) else old(transport.script))
      ensures old(url).Some? && requireAuth && !old(IsAuthenticated()) && old(Exchange()).Success? ==>
        && creds == Some(old(Exchange()).value)
        && transport.sent == old(transport.sent) + [old(ExchangeRequest()), Request(DELETE, Serialize(MakeEndpoint(endpoint, query)), headers, None, timeout)]
        && transport.script == Rest(Rest(old(transport.script)))
        && r == Reply(url.value, Rest(old(transport.script)), old(host))
    {
      r := PerformAsWritten(DELETE, None, endpoint, query, requireAuth);
    }
  }

  /** Updating the defaults with the bearer header appends it. */
  lemma AppendBearer(headers: Assoc<string, string>, c: Credentials)
    requires DistinctKeys(headers) && "Authorization" !in Keys(headers)
    ensures OrderedMaps.Update(headers, Bearer(c)) == headers + Bearer(c)
  {
    PutAbsent(headers, "Authorization", "Bearer " + c.accessToken);
  }

  /** For a well-formed URL, the client's `host` and the module's `parse_host` agree: both give the authority. */
  lemma HostOfAgreesWithParseHost(u: URL)
    requires WellFormed(u)
    ensures HostOf(Parse(Serialize(u), "", true)) == ParseHost(Serialize(u)) == u.netloc
  {
    ParseSerialize(u);
    ParseHostAuthority(u);
  }

  /** "localhost" with any port, and any ".local" name without one, is served over plain "http". */
  lemma LocalSchemes(port: string, name: string)
    requires ':' !in name
    ensures Scheme("localhost:" + port) == "http"
    ensures Scheme(name + ".local") == "http"
    ensures name != "localhost" && !EndsWith(name, ".local") ==> Scheme(name) == "https"
  {
    assert "localhost:" + port == "localhost" + ":" + port;
    IsLocalPort("localhost", port);
    IsLocalName("localhost");
    var n := name + ".local";
    assert ':' !in n by {
      assert NoneOf(".local", {':'});
      NoneOfConcat(name, ".local", {':'});
    }
    assert n[|n| - 6..] == ".local";
    IsLocalName(n);
    IsLocalName(name);
  }

  /** A reply to "authenticate" that carries the token pair `access`, `refresh`. */
  function TokenReply(access: string, refresh: string): Response {
    Response(200, Some(JsonType), Json(Doc(None, None, Some(access), Some(refresh))), [])
  }

  lemma TokenReplyHandled(access: string, refresh: string)
    ensures InScope(TokenReply(access, refresh))
    ensures forall host, cached :: TokenPair(Responses.Handle(TokenReply(access, refresh), host, cached)) == Success(Credentials(access, refresh))
  {
    TokenReplyInScope(access, refresh);
    forall host, cached ensures TokenPair(Responses.Handle(TokenReply(access, refresh), host, cached)) == Success(Credentials(access, refresh)) {
      TokenReplyDecoded(access, refresh, host, cached);
    }
  }

  /** The Content-Type of a `TokenReply` is "application/json", which `handle` can parse. */
  lemma TokenReplyInScope(access: string, refresh: string)
    ensures ContentTypeText(TokenReply(access, refresh)) == JsonType
    ensures InScope(TokenReply(access, refresh))
  {
    JsonTypePlain();
  }

  /** `handle` gives back the decoded token document of a `TokenReply`, and so its token pair. */
  lemma TokenReplyDecoded(access: string, refresh: string, host: Option<string>, cached: Option<string>)
    requires InScope(TokenReply(access, refresh))
    ensures Responses.Handle(TokenReply(access, refresh), host, cached) == Success(JsonValue(Doc(None, None, Some(access), Some(refresh))))
    ensures TokenPair(Responses.Handle(TokenReply(access, refresh), host, cached)) == Success(Credentials(access, refresh))
  {
    var rep := TokenReply(access, refresh);
    TokenReplyInScope(access, refresh);
    JsonTypeBare();
    HandleJson(rep, host, cached);
  }

  /**
   * A fresh client for `url` with the API key `id`, `secret` and no
   * credentials, whose transport answers "authenticate" with the token
   * pair `access`, `refresh`: the set-up of tests/test_client.py.
   */
  method TestClient(url: string, id: string, secret: string, access: string, refresh: string) returns (c: Client)
    requires url != "" && id != "" && secret != ""
    ensures fresh(c) && fresh(c.transport) && c.Valid()
    ensures c.url.Some? && c.creds == None && c.HasApiKey() && !c.IsAuthenticated()
    ensures c.headers == DefaultHeaders("guidelight")
    ensures c.Exchange() == Success(Credentials(access, refresh))
    ensures c.transport.sent == []
  {
    TokenReplyHandled(access, refresh);
    var t := new Transport([TokenReply(access, refresh)]);
    c := new Client(url, Some(id), Some(secret), None, "guidelight", t,
                    (k: Credentials) => k.accessToken != "", (k: Credentials) => k.refreshToken != "");
  }

  /**
   * The first authenticated call of tests/test_client.py, as written:
   * `post({}, "/v1/authrequired")` exchanges the API key for the token pair,
   * and then goes out with the default headers only.
   */
  method FirstCallHeadersAsWritten(url: string, id: string, secret: string, access: string, refresh: string)
    returns (held: Option<Credentials>, sent: seq<Request>)
    requires url != "" && id != "" && secret != ""
    ensures held == Some(Credentials(access, refresh))
    ensures |sent| == 2 && sent[0].verb == POST && sent[1].verb == POST
    ensures sent[1].headers == DefaultHeaders("guidelight")
    ensures "Authorization" !in Keys(sent[1].headers)
  {
    var c := TestClient(url, id, secret, access, refresh);
    var r := c.Post([], ["/v1/authrequired"], [], true);
    held := c.creds;
    sent := c.transport.sent;
    DefaultHeadersKeys("guidelight");
  }

  /** The same call on the corrected pre-flight: it carries "Bearer " and the new access token. */
  method FirstCallHeaders(url: string, id: string, secret: string, access: string, refresh: string)
    returns (held: Option<Credentials>, sent: seq<Request>)
    requires url != "" && id != "" && secret != ""
    ensures held == Some(Credentials(access, refresh))
    ensures |sent| == 2 && sent[0].verb == POST && sent[1].verb == POST
    ensures sent[1].headers == DefaultHeaders("guidelight") + [("Authorization", "Bearer " + access)]
    ensures Get(sent[1].headers, "Authorization") == Some("Bearer " + access)
  {
    var c := TestClient(url, id, secret, access, refresh);
    var r := c.Perform(POST, Some([]), ["/v1/authrequired"], [], true);
    held := c.creds;
    sent := c.transport.sent;
    DefaultHeadersKeys("guidelight");
    PutLast(c.headers, "Authorization", "Bearer " + access, "Bearer " + access);
  }
}
