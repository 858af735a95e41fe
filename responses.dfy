/**
 * The pure half of guidelight/client.py: `Client.handle`, which maps an HTTP
 * response to a value or a raised error, and the host test of
 * `Client.is_localhost`.
 */
module Responses {
  import opened Wrappers
  import opened Strings
  import opened Errors
  import Urls
  import EmailParams

  newtype byte = b: int | 0 <= b < 256

  /** One entry of the "errors" list of an error body. */
  datatype FieldError = FieldError(field: string, error: string)

  /**
   * A decoded JSON object, reduced to the members the client reads: "error"
   * and "errors" of an error body, "access_token" and "refresh_token" of an
   * authentication reply.
   */
  datatype Doc = Doc(error: Option<string>, errors: Option<seq<FieldError>>, accessToken: Option<string>, refreshToken: Option<string>)

  /** What `rep.json()` makes of the body. */
  datatype Body = NotJson | Json(doc: Doc)

  /** The response record the transport hands back. */
  datatype Response = Response(status: nat, contentType: Option<string>, body: Body, content: seq<byte>)

  /** What `handle` returns: `None`, the decoded JSON, or the raw bytes. */
  datatype Value = Nothing | JsonValue(doc: Doc) | Bytes(content: seq<byte>)

  /** A raised exception: one of the library's own kinds, or a Python built-in one. */
  datatype Error =
    | Raised(kind: Kind, message: string)
    | ValueError(message: string)
    | TypeError(message: string)
    | KeyError(key: string)
    | JSONDecodeError
    | TransportError

  const JsonType := "application/json"

  /** `str()` of an optional host: Python writes a missing one as "None". */
  function Render(h: Option<string>): string {
    match h
    case None => "None"
    case Some(s) => s
  }

  /**
   * The text `parse_content_type` receives: the header, or `str(None)` when
   * it is missing, which the email parser reads as the bare word "None".
   */
  function ContentTypeText(rep: Response): string {
    rep.contentType.GetOr("None")
  }

  /**
   * The responses this model can handle: `handle` parses the Content-Type
   * only of a 2xx reply other than 204, and there it must be ASCII text
   * without quoting, escapes or line breaks.
   */
  predicate InScope(rep: Response) {
    IsSuccess(rep.status) && rep.status != 204 ==> NoneOf(ContentTypeText(rep), EmailParams.Untreated)
  }

  predicate IsSuccess(status: nat) {
    200 <= status < 300
  }

  predicate IsClientError(status: nat) {
    400 <= status < 500
  }

  predicate IsServerError(status: nat) {
    500 <= status < 600
  }

  /** "field: error" for each entry of an "errors" list. */
  function FieldLines(errors: seq<FieldError>): (lines: seq<string>)
    ensures |lines| == |errors|
    ensures forall i :: 0 <= i < |errors| ==> lines[i] == errors[i].field + ": " + errors[i].error
  {
    if errors == [] then [] else [errors[0].field + ": " + errors[0].error] + FieldLines(errors[1..])
  }

  /** The message of a 4xx error: the default, replaced by "error", then followed by the "errors" lines. */
  function ClientMessage(status: nat, host: Option<string>, body: Body): string {
    var default := Decimal(status) + " response from " + Render(host);
    match body
    case NotJson => default
    case Json(doc) =>
      var message := doc.error.GetOr(default);
      match doc.errors
      case None => message
      case Some(es) => message + ":\n  " + Join(FieldLines(es), "\n  ")
  }

  /** The message of a 5xx error: "error", or else the default written with the cached host and a trailing ']'. */
  function ServerMessage(status: nat, cachedHost: Option<string>, body: Body): string {
    var default := Decimal(status) + " response from " + Render(cachedHost) + "]";
    if body.Json? && body.doc.error.Some? then body.doc.error.value else default
  }

  /**
   * `Client.handle(rep)`. `host` is what the `host` property gives at that
   * point and `cachedHost` the raw `_host` field, which the 5xx branch reads
   * without computing it.
   */
  function Handle(rep: Response, host: Option<string>, cachedHost: Option<string>): (r: Result<Value, Error>)
    requires InScope(rep)
    ensures r.Failure? ==>
      || r.error.ValueError? || r.error == JSONDecodeError
      || (r.error.Raised? && r.error.kind in {AuthenticationError, NotFound, ClientError, ServerError})
    ensures r == Failure(JSONDecodeError) ==> IsSuccess(rep.status) && rep.body.NotJson?
  {
    var status := rep.status;
    if status == 401 || status == 403 then
      Failure(Raised(AuthenticationError, "authentication failed"))
    else if status == 204 then
      Success(Nothing)
    else if IsSuccess(status) then
      if Urls.ParseContentType(ContentTypeText(rep)).0 == JsonType then
        match rep.body
        case NotJson => Failure(JSONDecodeError)
        case Json(doc) => Success(JsonValue(doc))
      else Success(Bytes(rep.content))
    else if IsClientError(status) then
      var message := ClientMessage(status, host, rep.body);
      if status == 404 then Failure(Raised(NotFound, message)) else Failure(Raised(ClientError, message))
    else if IsServerError(status) then
      Failure(Raised(ServerError, ServerMessage(status, cachedHost, rep.body)))
    else
      Failure(ValueError("unhandled status code " + Decimal(status)))
  }

  // ---------------------------------------------------------------------
  // Properties of handle
  // ---------------------------------------------------------------------

  /** 401 and 403 raise AuthenticationError whatever else the response holds. */
  lemma HandleUnauthorized(rep: Response, host: Option<string>, cachedHost: Option<string>)
    requires InScope(rep)
    ensures rep.status in {401, 403} <==> Handle(rep, host, cachedHost) == Failure(Raised(AuthenticationError, "authentication failed"))
  {
    if Handle(rep, host, cachedHost) == Failure(Raised(AuthenticationError, "authentication failed")) {
      assert rep.status in {401, 403} by {
        if rep.status == 404 {
        } else if IsClientError(rep.status) {
        }
      }
    }
  }

  /**
   * Success is exactly a 2xx status: 204 gives `None`, "application/json"
   * gives the decoded body (a body that does not decode raises), anything
   * else the raw bytes.
   */
  lemma HandleSuccess(rep: Response, host: Option<string>, cachedHost: Option<string>)
    requires InScope(rep)
    ensures Handle(rep, host, cachedHost).Success? ==> IsSuccess(rep.status)
    ensures rep.status == 204 ==> Handle(rep, host, cachedHost) == Success(Nothing)
    ensures IsSuccess(rep.status) && rep.status != 204 ==>
      Handle(rep, host, cachedHost) ==
        if Urls.ParseContentType(ContentTypeText(rep)).0 != JsonType then Success(Bytes(rep.content))
        else if rep.body.Json? then Success(JsonValue(rep.body.doc))
        else Failure(JSONDecodeError)
  {
  }

  /** A 2xx reply other than 204 whose type is "application/json" and whose body decodes gives that document. */
  lemma HandleJson(rep: Response, host: Option<string>, cachedHost: Option<string>)
    requires InScope(rep) && IsSuccess(rep.status) && rep.status != 204
    requires Urls.ParseContentType(ContentTypeText(rep)).0 == JsonType && rep.body.Json?
    ensures Handle(rep, host, cachedHost) == Success(JsonValue(rep.body.doc))
  {
    HandleSuccess(rep, host, cachedHost);
  }

  /**
   * The kind raised follows the status class: a ClientError exactly for
   * 4xx, NotFound exactly for 404, a ServerError exactly for 5xx, and
   * every kind raised is an EndeavorError. Any status outside 2xx, 4xx and
   * 5xx raises ValueError.
   */
  lemma HandleKinds(rep: Response, host: Option<string>, cachedHost: Option<string>)
    requires InScope(rep)
    ensures var r := Handle(rep, host, cachedHost);
      && (r.Failure? && r.error.Raised? ==> IsA(r.error.kind, EndeavorError))
      && (IsClientError(rep.status) <==> r.Failure? && r.error.Raised? && IsA(r.error.kind, ClientError))
      && (rep.status == 404 <==> r.Failure? && r.error.Raised? && r.error.kind == NotFound)
      && (IsServerError(rep.status) <==> r.Failure? && r.error.Raised? && IsA(r.error.kind, ServerError))
      && (r.Failure? && r.error.ValueError? <==> !IsSuccess(rep.status) && !IsClientError(rep.status) && !IsServerError(rep.status))
  {
    KindFacts();
    var status := rep.status;
    if status == 401 || status == 403 {
    } else if status == 204 {
    } else if IsSuccess(status) {
    } else if IsClientError(status) {
    } else if IsServerError(status) {
    } else {
    }
  }

  /** Where each kind that `handle` raises sits in the tree. */
  lemma KindFacts()
    ensures IsA(AuthenticationError, ClientError) && IsA(AuthenticationError, EndeavorError) && !IsA(AuthenticationError, ServerError)
    ensures IsA(NotFound, ClientError) && IsA(NotFound, EndeavorError) && !IsA(NotFound, ServerError)
    ensures IsA(ClientError, EndeavorError) && !IsA(ClientError, ServerError)
    ensures IsA(ServerError, EndeavorError) && !IsA(ServerError, ClientError)
  {
    assert Ancestors(AuthenticationError) == [AuthenticationError, ClientError, EndeavorError, GuidelightError];
    assert Ancestors(NotFound) == [NotFound, ClientError, EndeavorError, GuidelightError];
    assert Ancestors(ClientError) == [ClientError, EndeavorError, GuidelightError];
    assert Ancestors(ServerError) == [ServerError, EndeavorError, GuidelightError];
  }

  /** The message of a 4xx error, in the three steps of `handle`. */
  lemma HandleClientMessage(rep: Response, host: Option<string>, cachedHost: Option<string>)
    requires InScope(rep)
    requires IsClientError(rep.status) && rep.status !in {401, 403}
    ensures var default := Decimal(rep.status) + " response from " + Render(host);
      Handle(rep, host, cachedHost).error.message ==
        if rep.body.NotJson? then default
        else
          var base := if rep.body.doc.error.Some? then rep.body.doc.error.value else default;
          if rep.body.doc.errors.None? then base
          else base + ":\n  " + Join(FieldLines(rep.body.doc.errors.value), "\n  ")
  {
  }

  /** A lower-case letter or '/' is neither outside the model, nor a separator, nor whitespace. */
  lemma PlainChar(c: char)
    requires 'a' <= c <= 'z' || c == '/'
    ensures c !in EmailParams.Untreated + {';', '='} && c !in Whitespace
  {
  }

  /** A media type of lower-case letters and '/' is its own main type, with no parameters. */
  lemma PlainTypeBare(t: string)
    requires forall i :: 0 <= i < |t| ==> 'a' <= t[i] <= 'z' || t[i] == '/'
    ensures NoneOf(t, EmailParams.Untreated)
    ensures Urls.ParseContentType(t) == (t, [])
  {
    forall i | 0 <= i < |t| ensures t[i] !in EmailParams.Untreated + {';', '='} && t[i] !in Whitespace {
      PlainChar(t[i]);
    }
    Urls.ContentTypeBare(t);
    StripUnchanged(t);
  }

  /** "application/json" is made of characters `parse_content_type` treats plainly. */
  lemma JsonTypePlain()
    ensures NoneOf(JsonType, EmailParams.Untreated)
  {
    forall i | 0 <= i < |JsonType| ensures JsonType[i] !in EmailParams.Untreated {
      PlainChar(JsonType[i]);
    }
  }

  /** "application/json" is its own main type, with no parameters. */
  lemma JsonTypeBare()
    ensures NoneOf(JsonType, EmailParams.Untreated)
    ensures Urls.ParseContentType(JsonType) == (JsonType, [])
  {
    assert forall i :: 0 <= i < |JsonType| ==> 'a' <= JsonType[i] <= 'z' || JsonType[i] == '/';
    PlainTypeBare(JsonType);
  }

  /** One "errors" entry without an "error" message gives the default and that entry's line. */
  lemma HandleOneFieldError(status: nat, host: string, field: string, error: string)
    requires IsClientError(status) && status !in {401, 403, 404}
    ensures Handle(Response(status, None, Json(Doc(None, Some([FieldError(field, error)]), None, None)), []), Some(host), None)
      == Failure(Raised(ClientError, Decimal(status) + " response from " + host + ":\n  " + field + ": " + error))
  {
    assert NoneOf("None", EmailParams.Untreated) by {
      assert "None"[0] == 'N' && "None"[1] == 'o' && "None"[2] == 'n' && "None"[3] == 'e';
    }
    var line := field + ": " + error;
    assert FieldLines([FieldError(field, error)]) == [line];
    assert Join([line], "\n  ") == line;
    var default := Decimal(status) + " response from " + host;
    assert ClientMessage(status, Some(host), Json(Doc(None, Some([FieldError(field, error)]), None, None))) == default + ":\n  " + line;
    assert default + ":\n  " + line == Decimal(status) + " response from " + host + ":\n  " + field + ": " + error;
  }

  /** The message of a 5xx error is "error", or else the status and the cached host with a stray ']'. */
  lemma HandleServerMessage(rep: Response, host: Option<string>, cachedHost: Option<string>)
    requires InScope(rep)
    requires IsServerError(rep.status)
    ensures Handle(rep, host, cachedHost).error.message ==
      if rep.body.Json? && rep.body.doc.error.Some? then rep.body.doc.error.value
      else Decimal(rep.status) + " response from " + Render(cachedHost) + "]"
    ensures rep.body.NotJson? && cachedHost.None? ==>
      Handle(rep, host, cachedHost).error.message == Decimal(rep.status) + " response from None]"
  {
  }

  /** A 4xx message ignores the cached host and a 5xx message ignores the computed one. */
  lemma HandleHostUse(rep: Response, h1: Option<string>, h2: Option<string>, c1: Option<string>, c2: Option<string>)
    requires InScope(rep)
    ensures IsServerError(rep.status) ==> Handle(rep, h1, c1) == Handle(rep, h2, c1)
    ensures !IsServerError(rep.status) ==> Handle(rep, h1, c1) == Handle(rep, h1, c2)
  {
  }

  /** "unhandled status code 302" for a redirect. */
  lemma HandleRedirect(rep: Response, host: Option<string>, cachedHost: Option<string>)
    requires InScope(rep) && rep.status == 302
    ensures Handle(rep, host, cachedHost) == Failure(ValueError("unhandled status code 302"))
  {
    DecimalThreeDigits(302);
    assert Digit(3) == '3' && Digit(0) == '0' && Digit(2) == '2';
    assert Decimal(302) == "302";
    assert "unhandled status code " + "302" == "unhandled status code 302";
  }

  // ---------------------------------------------------------------------
  // is_localhost
  // ---------------------------------------------------------------------

  /** The host test of `is_localhost`: the name before any ':' is "localhost" or ends in ".local". */
  function IsLocal(host: string): bool {
    var name := if ':' in host then Split(host, ':')[0] else host;
    name == "localhost" || EndsWith(name, ".local")
  }

  /** A host without a port is local exactly when it is "localhost" or a ".local" name. */
  lemma IsLocalName(host: string)
    requires ':' !in host
    ensures IsLocal(host) <==> host == "localhost" || EndsWith(host, ".local")
  {
  }

  /** The port never changes the answer. */
  lemma IsLocalPort(name: string, port: string)
    requires ':' !in name
    ensures IsLocal(name + ":" + port) == IsLocal(name)
  {
    var h := name + ":" + port;
    assert h[|name|] == ':';
    assert forall i :: 0 <= i < |name| ==> h[i] == name[i];
    assert Find(h, ':', 0) == |name|;
    assert h[..|name|] == name;
  }
}
