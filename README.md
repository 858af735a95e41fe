# guidelight in Dafny

guidelight is a Python client for the Endeavor API. This project models its core in Dafny and proves properties of the model. The core has three parts:

- **URLs**, from `guidelight/url.py`.
  - The `URL` record with `parse`, `resolve`, `parse_query` and `str()`.
  - The helpers `parse_host` and `parse_content_type`.
  - The pieces of `urllib.parse`, `posixpath.join` and `email.message` these rely on, modelled as far as the client uses them: modules `UrlLib`, `PosixPath` and `EmailParams`.
- **Errors**, from `guidelight/exceptions.py`.
  - The exception tree, modelled as a datatype of kinds with a parent function.
  - Proofs that "is a" is a partial order whose chains all end at `GuidelightError`.
- **The client**, from `guidelight/client.py`, in two parts.
  - Pure part, module `Responses`: `handle`, which maps a response to a value or a raised error, and the host test of `is_localhost`.
  - Imperative part, module `Clients`: a `Client` class. It holds the lazily cached `_host` and `_prefix`, the timeout and URL setters, the credentials slot, and pre-flight and authentication. It also models the four verbs over a `Transport` object, as the code behaves (`PerformAsWritten`). `Perform` is the same call on a corrected pre-flight; see Findings.
    - `Transport` stands in for the HTTP session. It logs every request it is given and answers from a script of responses.
    - `_request_headers` is a `HeaderDict` object on the heap, because the code relies on a Python dict being shared by reference.

The source's behaviour is stated as `ensures` clauses and lemmas. In `Clients` it is stated as the new state of the client and the transport after each call.

Where the code's behaviour is surprising, the model follows the code. The main case: a 2xx response with no Content-Type header. The code passes `None` to `parse_content_type`. `Message` stores the value `None`, and `get_params()` turns it into the text "None" with `str()` before splitting it. The model reads that header as "None" and returns the raw content (`Responses.ContentTypeText`). It does not raise, and it does not treat the header as absent.

## Model

| member | source | states |
|---|---|---|
| Urls.Parse | guidelight/url.py:18-21 | The scheme is the default or a well-formed scheme: a letter, then letters, digits, '+', '-' or '.', with no capitals. The authority holds no '/', '?' or '#'. Path and params hold no '?'. When fragments are allowed, path, params and query hold no '#'; otherwise the fragment is empty. |
| UrlLib.UrlParse | guidelight/url.py:18-21 | `urlparse` splits the string into six components. The scheme is the default or a well-formed, lower-case scheme. The authority holds no '/', '?' or '#'. Path and params hold no '?'. When fragments are allowed, path, params and query hold no '#'; otherwise the fragment is empty. |
| Urls.ParseSerialize | guidelight/url.py:18-63 | For every well-formed URL record, `URL.parse(str(u))` gives back `u`. So the string form of a parsed URL round-trips. |
| Urls.SerializeWellFormed | guidelight/url.py:62-63 | A well-formed URL prints as scheme, "://", authority, path, then ";params", "?query" and "#fragment" when those are present. |
| Urls.SerializeRelativePath | guidelight/url.py:62-63 | When there is an authority, `urlunparse` puts a '/' between it and a path that does not start with one. |
| Urls.ParseQuery | guidelight/url.py:54-60 | An empty query string gives the empty mapping. Every result has distinct keys and a non-empty value list for each key. Which values each key gets is stated by `UrlLib.ParseQsMeaning`. |
| UrlLib.ParseQsMeaning | guidelight/url.py:58-59 | `parse_qs` lists each key of the query once, in the order of its first appearance. Each key reads the list of all its values, in the order they appear; a key that does not appear reads nothing. The model decodes neither '+' nor percent-escapes, so this is Python's `parse_qs` for queries holding neither '+' nor '%'. |
| UrlLib.GroupKeys | guidelight/url.py:58-59 | Grouping name-value pairs into a dict of lists keeps the keys in the order of their first appearance. |
| UrlLib.GroupValues | guidelight/url.py:58-59 | After grouping, a key reads exactly the values paired with it, in order, and is absent when it has none. |
| UrlLib.ParseQsUrlEncode | guidelight/url.py:50-59 | `parse_qs(urlencode(m, doseq=True))` gives back `m` for every well-formed query mapping. So `resolve` never loses or reorders the parameters it encodes. |
| UrlLib.ParseQsWellFormed | guidelight/url.py:58-59 | `parse_qs` always yields distinct keys, each with a non-empty list of values. |
| Urls.Resolve | guidelight/url.py:31-52 | The resolved URL keeps the scheme, netloc, params and fragment of the base URL. |
| Urls.ResolveQuery | guidelight/url.py:42-50 | For a supplied query whose keys hold no '&' or '=' and whose keys each have a non-empty list of non-empty values without '&' (`WellFormedUpdate`), the resolved query parses back to the base query updated with the supplied one. It is empty exactly when that merge is empty. A blank value such as `{"a": [""]}` is outside the condition, because `parse_qs` drops it. |
| Urls.ResolveMergesQuery | guidelight/url.py:42-43 | For a supplied query with distinct keys that meets `WellFormedUpdate` (keys without '&' or '=', non-empty lists of non-empty values without '&'): the base keys come first, in their old order. New keys follow, in the order they were supplied. A supplied key reads its supplied values; any other key reads its old values. |
| Urls.ResolveWithoutQuery | guidelight/url.py:41-52 | Resolving a URL that has no query, with no query supplied, changes only the path, which is the `posixpath.join` of the old path and the segments. |
| Urls.ResolveAbsolute | guidelight/url.py:35-41 | A leading absolute segment discards the old path. |
| Urls.ResolveRelative | guidelight/url.py:41 | Plain segments are appended to the old path, with one '/' between each. |
| Urls.ResolveUnderV1 | guidelight/client.py:309-310 | Resolving under "/", "v1" gives the path `join("/v1", *endpoint)`, whatever the base path was. |
| Urls.ResolveBareHost | tests/test_url.py:26-31 | A bare scheme and host, resolved with plain segments, prints as "scheme://host/" followed by the segments joined with '/'. |
| PosixPath.PathJoinAppend | guidelight/url.py:41 | Joining in two steps is the same as joining once. |
| PosixPath.PathJoinAbsolute | guidelight/url.py:35-36 | An absolute segment discards the path and every segment before it. |
| PosixPath.PathJoinIgnoresBase | guidelight/url.py:35-36 | With an absolute segment anywhere in the list, the starting path does not affect the result. |
| PosixPath.PathJoinKeepsBase | guidelight/url.py:41 | Joining only relative segments keeps the starting path as a prefix. |
| PosixPath.PathJoinRelative | guidelight/url.py:41 | Non-empty segments without '/' are joined to the path with single slashes. |
| OrderedMaps.UpdateKeys | guidelight/url.py:43 | After `dict.update`, the old keys keep their order and the new keys are appended in the order they appear in the update. |
| OrderedMaps.UpdateGet | guidelight/url.py:43 | After `dict.update`, a key reads the last value the update gives it, or its old value when the update does not mention it. |
| Urls.ParseHost | guidelight/url.py:70-79 | The host that `parse_host` returns never contains '/'. |
| Urls.ParseHostAuthority | guidelight/url.py:70-76 | For a well-formed URL's string, `parse_host` gives the authority, port included. |
| Urls.ParseHostBare | guidelight/url.py:74-79 | A string with no ':', '?' or ';' that does not start with "//" gives the text before its first '/', or the whole string when there is no '/'. |
| Clients.HostOfAgreesWithParseHost | guidelight/client.py:136-146 | The client's `host` property and the module's `parse_host` agree on every well-formed URL: both give the authority. |
| Urls.ParseContentType | guidelight/url.py:82-89 | The main type is the text before the first ';', stripped. When that text holds '=', it is the stripped, lower-cased text before the '=', as `_parseparam` cuts it. The parameter mapping has distinct keys. |
| EmailParams.GetParams | guidelight/url.py:86-88 | `get_params()` never returns an empty list, so `params[0]` always exists. |
| Strings.Split | guidelight/url.py:79 | `str.split` gives at least one piece, and no piece holds the separator. |
| Urls.ContentTypeBare | guidelight/url.py:82-89 | A MIME string without parameters gives its stripped main value and no parameters. |
| Urls.ContentTypeParam | guidelight/url.py:88-89 | Each parameter name reads the value of its last occurrence, as `dict(params[1:])` does. |
| Urls.ContentTypeOneParam | tests/test_url.py:85 | "type; name=value" gives `(type, {name: value})`. |
| Responses.JsonTypeBare | tests/test_url.py:86 | "application/json" parses to itself with no parameters. |
| Responses.PlainTypeBare | guidelight/client.py:245-247 | A content type made only of lower-case letters and '/' parses to itself, so the JSON test compares it as written. |
| Errors.Parent | guidelight/exceptions.py:6-51 | Only `GuidelightError` has no parent. Every other kind is one level below its parent. |
| Errors.Ancestors | guidelight/exceptions.py:6-51 | The chain from a kind to the root starts at the kind and has one entry per level. |
| Errors.ChainEndsAtRoot | guidelight/exceptions.py:6-9 | Every chain ends at `GuidelightError`, so every kind is a `GuidelightError`. |
| Errors.ChainIsParentSteps | guidelight/exceptions.py:6-51 | Each entry of a chain is the parent of the entry before it. |
| Errors.EndeavorChildren | guidelight/exceptions.py:18-51 | The direct subclasses of `EndeavorError` are exactly `ServerError`, `ClientError` and `ReadOnlyEndpoint`. |
| Errors.ClientChildren | guidelight/exceptions.py:24-45 | The direct subclasses of `ClientError` are exactly `AuthenticationError`, `NotFound` and `ValidationError`, and each of them is an `EndeavorError`. |
| Errors.ServerAndClientDisjoint | guidelight/exceptions.py:18-27 | No kind is both a `ServerError` and a `ClientError`. |
| Errors.IsAReflexive | guidelight/exceptions.py:6-51 | Every kind is an instance of itself. |
| Errors.IsAStep | guidelight/exceptions.py:6-51 | `a` is a `b` exactly when `a` is `b` or `a`'s parent is a `b`. |
| Errors.IsATransitive | guidelight/exceptions.py:6-51 | "is a" is transitive. |
| Errors.IsADepth | guidelight/exceptions.py:6-51 | A superclass is never deeper than its subclass, and is at the same depth only when the two are the same kind. |
| Errors.IsAAntisymmetric | guidelight/exceptions.py:6-51 | Two kinds that are each an instance of the other are the same kind. |
| Errors.AncestorsAreChain | guidelight/exceptions.py:6-51 | Any two superclasses of one kind are ordered, so the hierarchy is a tree. |
| Responses.KindFacts | guidelight/exceptions.py:18-39 | `AuthenticationError` and `NotFound` are `ClientError`s. Both client and server errors are `EndeavorError`s. Neither branch is inside the other. |
| Responses.Handle | guidelight/client.py:235-286 | `handle` raises only `ValueError`, a JSON decoding error, `AuthenticationError`, `NotFound`, `ClientError` or `ServerError`. The decoding error comes only from a 2xx reply whose body is not JSON. |
| Responses.HandleUnauthorized | guidelight/client.py:239-240 | `handle` raises `AuthenticationError("authentication failed")` exactly when the status is 401 or 403. |
| Responses.HandleSuccess | guidelight/client.py:242-250 | Success happens only for a 2xx status. 204 gives `None`. Any other 2xx gives the decoded JSON when the content type is "application/json" (a body that does not decode raises), and the raw bytes otherwise. |
| Responses.HandleKinds | guidelight/client.py:235-286 | A `ClientError` is raised exactly for 4xx, `NotFound` exactly for 404, and a `ServerError` exactly for 5xx. Every library error raised is an `EndeavorError`. `ValueError` is raised exactly for statuses outside 2xx, 4xx and 5xx. |
| Responses.FieldLines | guidelight/client.py:261-262 | Each field error becomes the line "field: error", one line per entry, in order. |
| Responses.HandleClientMessage | guidelight/client.py:252-270 | A 4xx message is "STATUS response from HOST", replaced by the body's "error" when there is one. When the body has "errors", each field error is appended on its own indented line. |
| Responses.HandleOneFieldError | guidelight/client.py:254-262 | A 4xx body with a single field error gives "STATUS response from HOST:\n  field: error". |
| Responses.HandleServerMessage | guidelight/client.py:272-283 | A 5xx message is the body's "error" when there is one. Otherwise it is "STATUS response from CACHED-HOST]", with the stray ']' in the code and "None" when no host is cached. |
| Responses.HandleHostUse | guidelight/client.py:254-274 | 4xx messages use the `host` property. 5xx messages use only the cached `_host`. |
| Responses.HandleRedirect | guidelight/client.py:285-286 | A 302 raises `ValueError("unhandled status code 302")`. |
| Responses.IsLocalName | guidelight/client.py:300-307 | A host without a port is local exactly when it is "localhost" or ends in ".local". |
| Responses.IsLocalPort | guidelight/client.py:304-306 | A port after ':' does not change whether a host is local. |
| Clients.LocalSchemes | guidelight/client.py:148-159 | "localhost" with any port, and any ".local" name, get "http". Every other name without a port gets "https". |
| Clients.DefaultHeadersKeys | guidelight/client.py:96-103 | The default headers are Accept, Accept-Language, Accept-Encoding, Content-Type and User-Agent, in that order. The keys are distinct and none is "Authorization". |
| Clients.TokenPair | guidelight/client.py:332-346 | Credentials come out exactly when the reply is decoded JSON holding both tokens, and then they are those tokens. A failed reply passes its error on. |
| Clients.Transport.Send | guidelight/client.py:173-175 | The request is appended to the log. The next scripted response is returned and consumed; with none left, the call fails. |
| Clients.HeaderDict.Update | guidelight/client.py:316-320 | The dict becomes the `dict.update` of its old entries with the given ones. |
| Clients.Client.constructor | guidelight/client.py:78-107 | The client starts with no cached host or prefix, no credentials and no request headers. It has the default headers, the parsed URL (none for ""), and the given timeout or (10.0, 30.0). |
| Clients.Client.Create | guidelight/client.py:78-113 | Construction fails with "cannot compute prefix without host" exactly when the URL is empty or has no host. Otherwise the host and prefix are cached from the URL. |
| Clients.Client.SetTimeout | guidelight/client.py:119-124 | The timeout becomes the given value, or (10.0, 30.0) for `None`. Nothing else changes. |
| Clients.Client.SetUrl | guidelight/client.py:130-134 | The URL becomes the parse of the value, or none for "". Both caches are cleared. |
| Clients.Client.Host | guidelight/client.py:136-146 | The property returns the host of the current URL and leaves it cached. The cache never disagrees with the URL. |
| Clients.Client.IsLocalhost | guidelight/client.py:300-307 | With no URL it raises `TypeError`. Otherwise it gives the local-host test of the current host. |
| Clients.Client.Prefix | guidelight/client.py:148-159 | Without a host it raises "cannot compute prefix without host". Otherwise it gives "http" or "https" by the local test and caches the result. A cached prefix is returned as is. |
| Clients.Client.MakeEndpoint | guidelight/client.py:309-310 | Each endpoint's path is `join("/v1", *endpoint)`. It keeps the base URL's scheme, netloc, params and fragment. |
| Clients.Client.Handle | guidelight/client.py:235-286 | The result is `handle` applied to the current host and the old cache. Only a 4xx other than 401/403 fills the host cache. A success comes only from a 2xx and leaves the cache as it was. |
| Clients.Client.Exchange | guidelight/client.py:322-346 | A token exchange succeeds only when it sends a request and a reply is scripted for it. |
| Clients.Client.Authenticate | guidelight/client.py:332-338 | Without both halves of the API key it raises before sending anything. Otherwise it sends exactly one unauthenticated POST of the key to "/v1/authenticate", and the result is the token pair of the reply. A success leaves the host cache as it was. |
| Clients.Client.Reauthenticate | guidelight/client.py:340-346 | An empty refresh token raises before sending anything. Otherwise it sends exactly one POST of the token to "/v1/reauthenticate", and the result is the token pair of the reply. A success leaves the host cache as it was. |
| Clients.Client.AuthenticationHeaders | guidelight/client.py:322-330 | Authenticated credentials are reused without a request. Otherwise they are refreshed when refreshable and fetched with the API key when not. They are replaced only when the exchange succeeds. A success returns the bearer header of the held credentials. |
| Clients.Client.ResetHeaders | guidelight/client.py:316-317 | `_request_headers` becomes a fresh dict holding exactly the default headers. |
| Clients.Client.PreFlightAsWritten | guidelight/client.py:312-320 | Without a URL it raises `ClientError` and changes nothing. The URL, prefix and timeout never change. With no exchange needed, nothing is sent and the request headers are the defaults, plus the bearer header of the held credentials when authentication is required. When an exchange is needed, it succeeds exactly when the exchange does, the exchange request is the only one sent, and the credentials become the new pair; the request headers then hold only the defaults, with no "Authorization". |
| Clients.Client.PreFlight | guidelight/client.py:312-320 | The corrected pre-flight. Without a URL it raises `ClientError`. When an exchange is needed, it succeeds exactly when the exchange does. On success, the request headers are the defaults, plus the bearer header of the held credentials whenever authentication is required. |
| Clients.Client.Dispatch | guidelight/client.py:168-177 | It sends exactly one request to the resolved endpoint, carrying the current request headers and timeout, and returns `handle` of the scripted reply. |
| Clients.Client.PerformAsWritten | guidelight/client.py:161-233 | The body shared by the four verbs, as written. Without a URL it raises and sends nothing. With no exchange needed, one request goes out with the defaults, plus the bearer header of the held credentials when authentication is required, and the result is `handle` of its reply. When a needed exchange fails, its error is returned, the credentials stay as they were, and only the exchange request (if one was made) is sent and answered. When it succeeds, the exchange request and then the call go out, the call with the default headers only; the credentials become the new pair and the result is `handle` of the second scripted reply. The URL, prefix and timeout never change, and a success leaves the host cache as it was. |
| Clients.Client.Perform | guidelight/client.py:161-233 | The same call on the corrected pre-flight. Every successful authenticated call was sent with the defaults plus the bearer header of the credentials now held; after a successful exchange that is the new access token. When a needed exchange fails, its error is returned, the credentials stay as they were, and only the exchange request (if one was made) is sent and answered. |
| Clients.Client.Get | guidelight/client.py:161-177 | `get` sends one GET without a body and has the whole contract of `PerformAsWritten`: the same frame, error cases, request log, script and result. After a token exchange the call goes out with the default headers only, and the result is `handle` of the second scripted reply. |
| Clients.Client.Post | guidelight/client.py:179-196 | `post` sends one POST with the JSON body and has the whole contract of `PerformAsWritten`: the same frame, error cases, request log, script and result. After a token exchange the call goes out with the default headers only, and the result is `handle` of the second scripted reply. |
| Clients.Client.Put | guidelight/client.py:198-215 | `put` sends one PUT with the JSON body and has the whole contract of `PerformAsWritten`: the same frame, error cases, request log, script and result. After a token exchange the call goes out with the default headers only, and the result is `handle` of the second scripted reply. |
| Clients.Client.Delete | guidelight/client.py:217-233 | `delete` sends one DELETE without a body and has the whole contract of `PerformAsWritten`: the same frame, error cases, request log, script and result. After a token exchange the call goes out with the default headers only, and the result is `handle` of the second scripted reply. |
| Clients.AppendBearer | guidelight/client.py:320 | Updating the default headers with the bearer header appends it at the end. |
| Clients.TokenReplyHandled | tests/test_client.py:15-20 | A 200 JSON reply holding "access" and "refresh" is handled into exactly that credential pair, whatever the host. |
| Clients.TestClient | tests/test_client.py:10-25 | A client with an API key, no credentials, an empty request log and one scripted token reply. Its exchange yields that pair. |
| Clients.FirstCallHeadersAsWritten | tests/test_client.py:27-32 | As written, the first authenticated `post` exchanges tokens successfully and holds the new pair. Two POSTs go out, and the second carries only the default headers, with no "Authorization". |
| Clients.FirstCallHeaders | tests/test_client.py:27-32 | With the corrected pre-flight, the same call holds the same pair, and its second POST carries the defaults plus "Authorization: Bearer " followed by the new access token. |

## Left out

- The `requests` Session, the HTTPAdapter with its pool and retry options, and `session.mount`: I/O. `Transport` stands in for them. `Create` keeps the `prefix` lookup that the mount performs, and the error it can raise.
- The environment-variable fallbacks for the URL, client id and secret: I/O.
- Logging: no effect on results.
- The User-Agent string: `get_version()` and `python_version()` are outside the model, so the string is the `userAgent` parameter.
- `Credentials.is_authenticated` and `is_refreshable`, which judge whether the JWT claims hold a valid access token and a valid refresh token (client.py:288-298): `Credentials` is not part of this model. They are the function parameters `isAuthenticated` and `isRefreshable`.
- JSON bodies: JSON decoding is outside the model. A decoded body is reduced to the members the client reads ("error", "errors", "access_token", "refresh_token"). A JSON array or scalar body is not modelled, and request bodies are flat objects of strings.
- Percent-encoding is not modelled: the client's query values are plain text. In particular:
  - `parse_qs` turns '+' into a space and decodes `%XX` escapes; `UrlLib.ParsePiece` keeps both as written, so "a=x+y" reads "x+y" where Python gives "x y";
  - `urlencode` quotes with `quote_plus`, which writes a space as '+' and escapes reserved characters; `UrlLib.UrlEncode` writes values as they are.
- UrlLib.ParseQsMeaning: holds for Python's `parse_qs` only on queries without '+' or '%', for the reason above.
- Also left out of `urlparse`:
  - its stripping of leading spaces and C0 control characters, and its removal of '\t', '\r' and '\n' anywhere in the URL;
  - its bracket checks for IPv6 hosts;
  - the scheme lists `uses_relative`, `uses_query`, `uses_fragment` and `non_hierarchical`, which `urlparse` and `urlunparse` do not read. `uses_params` and `uses_netloc` are modelled.
- `email.message` quoting, escapes and RFC 2231 continuations are not modelled. `EmailParams.Untreated` restricts MIME strings to values without them.
- Responses.InScope: `handle` parses the Content-Type only of a 2xx reply other than 204, so only those replies must have a Content-Type without the characters of `EmailParams.Untreated`. Every other status is handled whatever its headers.
- Strings.Lower: lower-cases ASCII letters only. Python's `str.lower()` also folds non-ASCII capitals, so MIME text with non-ASCII characters is outside the model. `Strings.Strip` removes the full set of characters Python's `str.strip()` removes.
- EmailParams.GetParams: requires a header value free of `EmailParams.Untreated`, which includes every non-ASCII character, because `Lower` does not fold non-ASCII capitals.
- Urls.ParseContentType: stated only for ASCII MIME text without quoting, escapes or line breaks (`EmailParams.Untreated`), because `Lower` does not fold non-ASCII capitals.
- Urls.ContentTypeBare: stated only for ASCII MIME text, for the same reason as `Urls.ParseContentType`.
- Urls.ContentTypeOneParam: stated only for ASCII MIME text, for the same reason as `Urls.ParseContentType`.
- Timeouts are Python floats, modelled as `real`. Their rounding does not matter, because the client only passes them on.
- Concurrency: the client is not thread-safe, and the model has a single caller.
- `URL.__iter__` is modelled only through `Serialize`, which consumes the six fields in the same order.
- Clients.Client.Perform: is built on the corrected `PreFlight`, so it is the intended behaviour, not the code's. The verbs `Get`, `Post`, `Put` and `Delete` are built on `PerformAsWritten`, which follows the code.
- Responses.HandleSuccess: a 2xx response with no Content-Type is modelled as the code behaves: the header text is "None" and the raw content is returned. No separate "missing header" case is stated.
- Clients.Client.Dispatch: does not model an exception raised by the session other than a missing scripted response (`TransportError`).

## Findings

| source | as written | input that shows it | evidently intended | confidence | as-written member | corrected member |
|---|---|---|---|---|---|---|
| guidelight/client.py:316-320 | `self._request_headers.update(self._authentication_headers())` looks up the dict before the call runs. When no credentials are held, that call makes a nested `post`, whose own pre-flight rebinds `_request_headers` to a new dict. The bearer header is then written into the old dict, which nothing reads, so the request goes out without "Authorization". | `Client("http://localhost:PORT", client_id="id", client_secret="secret")` with no credentials, then `post({}, "/v1/authrequired")` (tests/test_client.py:23-32) | The first authenticated call carries "Authorization: Bearer access", as the test expects. | not executed | Clients.FirstCallHeadersAsWritten | Clients.FirstCallHeaders |
