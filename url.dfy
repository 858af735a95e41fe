/**
 * guidelight/url.py: the six-field `URL` record, its parser and serializer,
 * `resolve` (path join plus query merge), `parse_query`, and the helpers
 * `parse_host` and `parse_content_type`.
 */
module Urls {
  import opened Wrappers
  import opened Strings
  import opened OrderedMaps
  import opened UrlLib
  import opened PosixPath
  import EmailParams

  datatype URL = URL(scheme: string, netloc: string, path: string, params: string, query: string, fragment: string)

  /** `URL.parse(url, scheme, allow_fragments)`: `URL(*urlparse(...))`. */
  function Parse(url: string, scheme: string, allowFragments: bool): (u: URL)
    ensures u.scheme == scheme || IsScheme(u.scheme)
    ensures u.scheme == scheme || IsLowerCase(u.scheme)
    ensures NoneOf(u.netloc, {'/', '?', '#'})
    ensures '?' !in u.path && '?' !in u.params
    ensures allowFragments ==> '#' !in u.path && '#' !in u.params && '#' !in u.query
    ensures !allowFragments ==> u.fragment == ""
  {
    var (s, n, p, a, q, f) := UrlParse(url, scheme, allowFragments);
    URL(s, n, p, a, q, f)
  }

  /** `str(url)`: `urlunparse` over the six fields in order. */
  function Serialize(u: URL): string {
    UrlUnparse((u.scheme, u.netloc, u.path, u.params, u.query, u.fragment))
  }

  /** `URL.parse_query()`: an empty query gives the empty mapping, otherwise `parse_qs`. */
  function ParseQuery(u: URL): (m: QueryMap)
    ensures u.query == "" ==> m == []
    ensures WellFormedQuery(m)
  {
    if u.query != "" then
      ParseQsWellFormed(u.query);
      ParseQs(u.query)
    else []
  }

  /**
   * `URL.resolve(*endpoint, query=query)`: the path is `posixpath.join` of
   * the old path and the segments, the query is the old query updated with
   * `query` (a supplied string value stands for a one-element list) and
   * encoded, or "" when nothing is left. Everything else is copied.
   */
  function Resolve(u: URL, endpoint: seq<string>, query: QueryMap): (r: URL)
    ensures r.scheme == u.scheme && r.netloc == u.netloc && r.params == u.params && r.fragment == u.fragment
  {
    var qs := Update(ParseQuery(u), query);
    URL(u.scheme, u.netloc, PathJoin(u.path, endpoint), u.params, if qs != [] then UrlEncode(qs) else "", u.fragment)
  }

  /** `parse_host(url)`: the authority, or else the text of the path before its first '/'. */
  function ParseHost(url: string): (h: string)
    ensures '/' !in h
  {
    var parsed := Parse(url, "https", false);
    if parsed.netloc != "" then parsed.netloc else Split(parsed.path, '/')[0]
  }

  /**
   * `parse_content_type(mime)`: the main value, and the other parameters as
   * a dict. The main value is the text before the first ';', stripped; when
   * that text holds '=', `_parseparam` has already cut it to its lower-cased
   * name.
   */
  function ParseContentType(mime: string): (r: (string, Assoc<string, string>))
    requires NoneOf(mime, EmailParams.Untreated)
    ensures '=' !in Split(mime, ';')[0] ==> r.0 == Strip(Split(mime, ';')[0])
    ensures '=' in Split(mime, ';')[0] ==>
      var head := Split(mime, ';')[0];
      r.0 == Lower(Strip(head[..Find(head, '=', 0)]))
    ensures DistinctKeys(r.1)
  {
    var head := Split(mime, ';')[0];
    assert '=' !in head ==> Find(head, '=', 0) == -1;
    var params := EmailParams.GetParams(mime);
    UpdateDistinct([], params[1..]);
    (params[0].0, Update([], params[1..]))
  }

  // ---------------------------------------------------------------------
  // Parse and serialize
  // ---------------------------------------------------------------------

  /**
   * The URL shapes the parser and the serializer agree on: a lower-case
   * scheme, an authority, an absolute or empty path, optional parameters on
   * a path, and query and fragment, each free of the delimiters that would
   * end it early.
   */
  predicate WellFormed(u: URL) {
    && IsScheme(u.scheme) && IsLowerCase(u.scheme)
    && u.netloc != "" && NoneOf(u.netloc, {'/', '?', '#'})
    && (u.path == "" || u.path[0] == '/') && NoneOf(u.path, {';', '?', '#'})
    && NoneOf(u.params, {'/', ';', '?', '#'})
    && (u.params != "" ==> u.path != "" && u.scheme in UsesParams)
    && NoneOf(u.query, {'#'})
  }

  lemma SchemeStep(scheme: string, rest: string, default: string)
    requires IsScheme(scheme) && IsLowerCase(scheme)
    ensures SplitScheme(scheme + ":" + rest, default) == (scheme, rest)
  {
    var s := scheme + ":" + rest;
    assert s[|scheme|] == ':';
    assert forall i :: 0 <= i < |scheme| ==> s[i] == scheme[i] && s[i] != ':';
    assert Find(s, ':', 0) == |scheme|;
    assert s[..|scheme|] == scheme && s[|scheme| + 1..] == rest;
    LowerUnchanged(scheme);
  }

  lemma NetlocStep(netloc: string, rest: string)
    requires NoneOf(netloc, {'/', '?', '#'})
    requires rest == "" || rest[0] in {'/', '?', '#'}
    ensures SplitNetloc("//" + netloc + rest) == (netloc, rest)
  {
    var s := "//" + netloc + rest;
    assert forall i :: 2 <= i < 2 + |netloc| ==> s[i] == netloc[i - 2];
    assert rest != "" ==> s[2 + |netloc|] == rest[0];
    assert FirstOf(s, {'/', '?', '#'}, 2) == 2 + |netloc|;
    assert s[2..2 + |netloc|] == netloc && s[2 + |netloc|..] == rest;
  }

  lemma SplitOnceStep(a: string, c: char, b: string)
    requires c !in a
    ensures SplitOnce(a + [c] + b, c) == (a, b)
  {
    var s := a + [c] + b;
    assert s[|a|] == c;
    assert forall i :: 0 <= i < |a| ==> s[i] == a[i];
    assert Find(s, c, 0) == |a|;
    assert s[..|a|] == a && s[|a| + 1..] == b;
  }

  lemma ParamsStep(path: string, params: string)
    requires path != "" && path[0] == '/'
    requires NoneOf(path, {';'}) && NoneOf(params, {'/', ';'})
    ensures SplitParams(path + ";" + params) == (path, params)
  {
    var s := path + ";" + params;
    assert s[0] == '/';
    var j := RFind(s, '/');
    assert j < |path| by {
      assert forall i :: |path| <= i < |s| ==> s[i] != '/' by {
        assert s[|path|] == ';';
        assert forall i :: |path| < i < |s| ==> s[i] == params[i - |path| - 1];
      }
    }
    assert forall i :: 0 <= i < |path| ==> s[i] == path[i];
    assert s[|path|] == ';';
    assert Find(s, ';', j as nat) == |path|;
    assert s[..|path|] == path && s[|path| + 1..] == params;
  }

  // Steps of string concatenation, called by the serializer proofs below so
  // that the solver regroups one concatenation at a time.

  lemma ConcatAssoc(a: string, b: string, c: string)
    ensures a + b + c == a + (b + c)
  {
  }

  lemma AppendEmpty(a: string)
    ensures a + "" == a
  {
  }

  lemma PrependEmpty(a: string)
    ensures "" + a == a
  {
  }

  lemma NoneOfConcat(a: string, b: string, cs: set<char>)
    requires NoneOf(a, cs) && NoneOf(b, cs)
    ensures NoneOf(a + b, cs)
  {
    assert forall i :: |a| <= i < |a + b| ==> (a + b)[i] == b[i - |a|];
  }

  lemma NoneOfSubset(s: string, a: set<char>, b: set<char>)
    requires a <= b && NoneOf(s, b)
    ensures NoneOf(s, a)
  {
  }

  /** The path with its parameters, as `urlunparse` writes it. */
  function PathWithParams(u: URL): string {
    if u.params != "" then u.path + ";" + u.params else u.path
  }

  function QueryPart(u: URL): string {
    if u.query != "" then "?" + u.query else ""
  }

  function FragmentPart(u: URL): string {
    if u.fragment != "" then "#" + u.fragment else ""
  }

  lemma UnsplitWithAuthority(scheme: string, netloc: string, url: string, query: string, fragment: string)
    requires scheme != "" && netloc != "" && (url == "" || url[0] == '/')
    ensures var u2 := scheme + ":" + ("//" + netloc + url);
      var u3 := if query != "" then u2 + "?" + query else u2;
      UrlUnsplit(scheme, netloc, url, query, fragment) == if fragment != "" then u3 + "#" + fragment else u3
  {
  }

  /** A well-formed URL serializes to scheme "://" authority path [";" params] ["?" query] ["#" fragment]. */
  lemma SerializeWellFormed(u: URL)
    requires WellFormed(u)
    ensures Serialize(u) == u.scheme + ":" + ("//" + u.netloc + (PathWithParams(u) + QueryPart(u) + FragmentPart(u)))
  {
    assert PathWithParams(u) == "" || PathWithParams(u)[0] == '/';
    SerializeWithAuthority(u);
  }

  lemma SerializeWithAuthority(u: URL)
    requires u.scheme != "" && u.netloc != "" && (PathWithParams(u) == "" || PathWithParams(u)[0] == '/')
    ensures Serialize(u) == u.scheme + ":" + ("//" + u.netloc + (PathWithParams(u) + QueryPart(u) + FragmentPart(u)))
  {
    var pp, q, f := PathWithParams(u), QueryPart(u), FragmentPart(u);
    var a, b := u.scheme + ":", "//" + u.netloc;
    UnsplitWithAuthority(u.scheme, u.netloc, pp, u.query, u.fragment);
    assert Serialize(u) == UrlUnsplit(u.scheme, u.netloc, pp, u.query, u.fragment);
    var u3 := if u.query != "" then a + (b + pp) + "?" + u.query else a + (b + pp);
    assert u3 == a + (b + pp) + q by {
      if u.query != "" { ConcatAssoc(a + (b + pp), "?", u.query); }
    }
    var u4 := if u.fragment != "" then u3 + "#" + u.fragment else u3;
    assert u4 == a + (b + pp) + q + f by {
      if u.fragment != "" { ConcatAssoc(u3, "#", u.fragment); }
    }
    ConcatAssoc(a + (b + pp), q, f);
    ConcatAssoc(a, b + pp, q + f);
    ConcatAssoc(b, pp, q + f);
    ConcatAssoc(pp, q, f);
  }

  lemma RestStart(u: URL)
    requires WellFormed(u)
    ensures var rest := PathWithParams(u) + QueryPart(u) + FragmentPart(u); rest == "" || rest[0] in {'/', '?', '#'}
  {
  }

  lemma FragmentStep(u: URL)
    requires WellFormed(u)
    ensures SplitOnce(PathWithParams(u) + QueryPart(u) + FragmentPart(u), '#') == (PathWithParams(u) + QueryPart(u), u.fragment)
  {
    var pp, q := PathWithParams(u), QueryPart(u);
    assert NoneOf(pp, {'#'}) by {
      if u.params != "" {
        NoneOfConcat(u.path, ";", {'#'});
        NoneOfConcat(u.path + ";", u.params, {'#'});
      }
    }
    assert NoneOf(q, {'#'}) by {
      if u.query != "" {
        NoneOfConcat("?", u.query, {'#'});
      }
    }
    NoneOfConcat(pp, q, {'#'});
    if u.fragment != "" {
      assert pp + q + FragmentPart(u) == (pp + q) + ['#'] + u.fragment;
      SplitOnceStep(pp + q, '#', u.fragment);
    } else {
      assert pp + q + FragmentPart(u) == pp + q;
    }
  }

  lemma QueryStep(u: URL)
    requires WellFormed(u)
    ensures SplitOnce(PathWithParams(u) + QueryPart(u), '?') == (PathWithParams(u), u.query)
  {
    var pp := PathWithParams(u);
    assert NoneOf(pp, {'?'}) by {
      if u.params != "" {
        NoneOfConcat(u.path, ";", {'?'});
        NoneOfConcat(u.path + ";", u.params, {'?'});
      }
    }
    if u.query != "" {
      assert pp + QueryPart(u) == pp + ['?'] + u.query;
      SplitOnceStep(pp, '?', u.query);
    } else {
      assert pp + QueryPart(u) == pp;
    }
  }

  lemma PathStep(u: URL)
    requires WellFormed(u)
    ensures (if u.scheme in UsesParams && ';' in PathWithParams(u) then SplitParams(PathWithParams(u)) else (PathWithParams(u), "")) == (u.path, u.params)
  {
    if u.params != "" {
      var pp := PathWithParams(u);
      assert pp[|u.path|] == ';';
      ParamsStep(u.path, u.params);
    }
  }

  /** The parser undoes the serializer on well-formed URLs, so the string form round-trips too. */
  lemma ParseSerialize(u: URL)
    requires WellFormed(u)
    ensures Parse(Serialize(u), "", true) == u
    ensures Serialize(Parse(Serialize(u), "", true)) == Serialize(u)
  {
    var pp := PathWithParams(u);
    var rest := pp + QueryPart(u) + FragmentPart(u);
    var r1 := "//" + u.netloc + rest;
    SerializeWellFormed(u);
    SchemeStep(u.scheme, r1, "");
    RestStart(u);
    NetlocStep(u.netloc, rest);
    assert r1[..2] == "//";
    FragmentStep(u);
    QueryStep(u);
    PathStep(u);
    ParseFromSteps(Serialize(u), u.scheme, r1, u.netloc, rest, pp + QueryPart(u), u.fragment, pp, u.query, u.path, u.params);
  }

  /** `urlparse` read off the results of its steps. */
  lemma ParseFromSteps(s: string, scheme: string, r1: string, netloc: string, rest: string, r3: string, fragment: string,
                       r4: string, query: string, path: string, params: string)
    requires SplitScheme(s, "") == (scheme, r1)
    requires |r1| >= 2 && r1[..2] == "//" && SplitNetloc(r1) == (netloc, rest)
    requires SplitOnce(rest, '#') == (r3, fragment)
    requires SplitOnce(r3, '?') == (r4, query)
    requires (if scheme in UsesParams && ';' in r4 then SplitParams(r4) else (r4, "")) == (path, params)
    ensures Parse(s, "", true) == URL(scheme, netloc, path, params, query, fragment)
  {
  }

  /** The authority is inserted before a relative path with a separating '/'. */
  lemma SerializeRelativePath(u: URL)
    requires u.netloc != "" && u.path != "" && u.path[0] != '/' && u.params == ""
    ensures Serialize(u) == (if u.scheme != "" then u.scheme + ":" else "") + "//" + u.netloc + "/" + u.path + QueryPart(u) + FragmentPart(u)
  {
    var a := if u.scheme != "" then u.scheme + ":" else "";
    var b := "//" + u.netloc;
    var p := u.path;
    UnsplitRelative(u.scheme, u.netloc, p, u.query, u.fragment);
    assert Serialize(u) == UrlUnsplit(u.scheme, u.netloc, p, u.query, u.fragment);
    var u1 := b + ("/" + p);
    var u2 := if u.scheme != "" then u.scheme + ":" + u1 else u1;
    assert u2 == a + u1;
    ConcatAssoc(b, "/", p);
    ConcatAssoc(a, b + "/", p);
    ConcatAssoc(a, b, "/");
    ConcatAssoc(a, "//", u.netloc);
    assert u2 == a + "//" + u.netloc + "/" + p;
    var u3 := if u.query != "" then u2 + "?" + u.query else u2;
    assert u3 == u2 + QueryPart(u) by {
      if u.query != "" { ConcatAssoc(u2, "?", u.query); }
    }
    var u4 := if u.fragment != "" then u3 + "#" + u.fragment else u3;
    assert u4 == u3 + FragmentPart(u) by {
      if u.fragment != "" { ConcatAssoc(u3, "#", u.fragment); }
    }
  }

  lemma UnsplitRelative(scheme: string, netloc: string, url: string, query: string, fragment: string)
    requires netloc != "" && url != "" && url[0] != '/'
    ensures var u1 := "//" + netloc + ("/" + url);
      var u2 := if scheme != "" then scheme + ":" + u1 else u1;
      var u3 := if query != "" then u2 + "?" + query else u2;
      UrlUnsplit(scheme, netloc, url, query, fragment) == if fragment != "" then u3 + "#" + fragment else u3
  {
  }

  // ---------------------------------------------------------------------
  // resolve
  // ---------------------------------------------------------------------

  /** What a caller may pass as `query` and see again in the resolved URL: unreserved keys without '&' or '=', each with non-empty values. */
  predicate WellFormedUpdate(query: QueryMap) {
    forall i :: 0 <= i < |query| ==> WellFormedEntry(query[i])
  }

  lemma UrlEncodeNonEmpty(m: QueryMap)
    requires WellFormedQuery(m) && m != []
    ensures UrlEncode(m) != ""
  {
    var last := m[|m| - 1];
    assert WellFormedEntry(last);
    assert |Flatten(m)| > 0;
    var pieces := EncodePairs(Flatten(m));
    assert pieces[0] != "";
  }

  /**
   * The query of the resolved URL parses back to the old query updated with
   * `query`, and it is empty exactly when that merge is.
   */
  lemma ResolveQuery(u: URL, endpoint: seq<string>, query: QueryMap)
    requires WellFormedUpdate(query)
    ensures ParseQuery(Resolve(u, endpoint, query)) == Update(ParseQuery(u), query)
    ensures Resolve(u, endpoint, query).query == "" <==> Update(ParseQuery(u), query) == []
  {
    var prev := ParseQuery(u);
    var m := Update(prev, query);
    UpdateDistinct(prev, query);
    UpdateEntries(prev, query);
    assert WellFormedQuery(m) by {
      forall i | 0 <= i < |m| ensures WellFormedEntry(m[i]) {
        if m[i] in prev {
          var j :| 0 <= j < |prev| && prev[j] == m[i];
        } else {
          var j :| 0 <= j < |query| && query[j] == m[i];
        }
      }
    }
    if m != [] {
      UrlEncodeNonEmpty(m);
      ParseQsUrlEncode(m);
    }
  }

  /**
   * The merge of `resolve`: the old keys keep their order and come first, the
   * new keys follow in the order they were supplied; a supplied key reads its
   * supplied values, any other key its old ones.
   */
  lemma ResolveMergesQuery(u: URL, endpoint: seq<string>, query: QueryMap, k: string)
    requires WellFormedUpdate(query) && DistinctKeys(query)
    ensures Keys(ParseQuery(Resolve(u, endpoint, query))) == Keys(ParseQuery(u)) + NewKeys(Keys(ParseQuery(u)), Keys(query))
    ensures Get(ParseQuery(Resolve(u, endpoint, query)), k) == if k in Keys(query) then Get(query, k) else Get(ParseQuery(u), k)
  {
    ResolveQuery(u, endpoint, query);
    UpdateKeys(ParseQuery(u), query);
    UpdateGet(ParseQuery(u), query, k);
    LastGetDistinct(query, k);
  }

  /** The client's endpoints: "/" and "v1" in front of the segments discard the old path. */
  lemma ResolveUnderV1(u: URL, endpoint: seq<string>, query: QueryMap)
    ensures Resolve(u, ["/", "v1"] + endpoint, query).path == PathJoin("/v1", endpoint)
  {
    var segments := ["/", "v1"] + endpoint;
    PathJoinAbsolute(u.path, segments, 0);
    assert segments[1..] == ["v1"] + endpoint && (["v1"] + endpoint)[1..] == endpoint;
    assert !IsAbsolute("v1") by { assert "v1"[..1] == "v"; }
    assert EndsWith("/", "/") && "/" + "v1" == "/v1";
  }

  /** A leading absolute segment makes the resolved path independent of the old one. */
  lemma ResolveAbsolute(u: URL, segments: seq<string>, query: QueryMap)
    requires |segments| > 0 && IsAbsolute(segments[0])
    ensures Resolve(u, segments, query).path == PathJoin(segments[0], segments[1..])
  {
    PathJoinAbsolute(u.path, segments, 0);
  }

  /** Plain segments are appended to the old path, one '/' between each. */
  lemma ResolveRelative(u: URL, segments: seq<string>, query: QueryMap)
    requires |segments| > 0
    requires forall k :: 0 <= k < |segments| ==> segments[k] != "" && '/' !in segments[k]
    ensures Resolve(u, segments, query).path == Sep(u.path) + Join(segments, "/")
  {
    PathJoinRelative(u.path, segments);
  }

  /**
   * A URL that is only a scheme and a host, resolved with plain segments,
   * serializes with a '/' between the host and the joined segments (e.g.
   * "https://guidelight.dev" with "v1", "agents").
   */
  lemma ResolveBareHost(scheme: string, host: string, segments: seq<string>)
    requires scheme != "" && host != "" && |segments| > 0
    requires forall k :: 0 <= k < |segments| ==> segments[k] != "" && '/' !in segments[k]
    ensures Serialize(Resolve(URL(scheme, host, "", "", "", ""), segments, [])) == scheme + ":" + "//" + host + "/" + Join(segments, "/")
  {
    var p := Join(segments, "/");
    BareResolve(scheme, host, segments);
    JoinStart(segments);
    BareSerialize(scheme, host, p);
  }

  lemma BareResolve(scheme: string, host: string, segments: seq<string>)
    requires |segments| > 0
    requires forall k :: 0 <= k < |segments| ==> segments[k] != "" && '/' !in segments[k]
    ensures Resolve(URL(scheme, host, "", "", "", ""), segments, []) == URL(scheme, host, Join(segments, "/"), "", "", "")
  {
    var u := URL(scheme, host, "", "", "", "");
    PathJoinRelative("", segments);
    assert Sep("") == "";
    PrependEmpty(Join(segments, "/"));
    ResolveWithoutQuery(u, segments);
  }

  lemma BareSerialize(scheme: string, host: string, p: string)
    requires scheme != "" && host != "" && p != "" && p[0] != '/'
    ensures Serialize(URL(scheme, host, p, "", "", "")) == scheme + ":" + "//" + host + "/" + p
  {
    var r := URL(scheme, host, p, "", "", "");
    SerializeRelativePath(r);
    assert QueryPart(r) == "" && FragmentPart(r) == "";
    var t := scheme + ":" + "//" + host + "/" + p;
    assert Serialize(r) == t + "" + "";
    AppendEmpty(t);
    AppendEmpty(t + "");
  }

  /** Resolving without a query keeps the query empty. */
  lemma ResolveWithoutQuery(u: URL, segments: seq<string>)
    requires u.query == ""
    ensures Resolve(u, segments, []) == URL(u.scheme, u.netloc, PathJoin(u.path, segments), u.params, "", u.fragment)
  {
    assert ParseQuery(u) == [];
    assert Update(ParseQuery(u), []) == [];
  }

  lemma JoinStart(segments: seq<string>)
    requires |segments| > 0 && segments[0] != "" && '/' !in segments[0]
    ensures Join(segments, "/") != "" && Join(segments, "/")[0] != '/'
  {
    assert segments[0][0] in segments[0];
    if |segments| > 1 {
      assert Join(segments, "/") == segments[0] + "/" + Join(segments[1..], "/");
    }
  }

  // ---------------------------------------------------------------------
  // parse_host and parse_content_type
  // ---------------------------------------------------------------------

  /** The host of a well-formed URL's string is its authority. */
  lemma ParseHostAuthority(u: URL)
    requires WellFormed(u)
    ensures ParseHost(Serialize(u)) == u.netloc
  {
    var rest := PathWithParams(u) + QueryPart(u) + FragmentPart(u);
    var r1 := "//" + u.netloc + rest;
    SerializeWellFormed(u);
    SchemeStep(u.scheme, r1, "https");
    RestStart(u);
    NetlocStep(u.netloc, rest);
    assert r1[..2] == "//";
    HostFromSteps(Serialize(u), u.scheme, r1, u.netloc, rest);
  }

  /** `parse_host` read off the scheme and authority steps of `urlparse`. */
  lemma HostFromSteps(s: string, scheme: string, r1: string, netloc: string, rest: string)
    requires SplitScheme(s, "https") == (scheme, r1)
    requires |r1| >= 2 && r1[..2] == "//" && SplitNetloc(r1) == (netloc, rest)
    requires netloc != ""
    ensures ParseHost(s) == netloc
  {
  }

  /** Without a scheme or "//", the host is the text before the first '/'. */
  lemma ParseHostBare(s: string)
    requires NoneOf(s, {':', '?', ';'}) && !StartsWith(s, "//")
    ensures ParseHost(s) == Split(s, '/')[0]
    ensures ParseHost(s) == if '/' in s then s[..Find(s, '/', 0)] else s
  {
    assert Find(s, ':', 0) == -1;
    assert SplitOnce(s, '?') == (s, "");
    assert Parse(s, "https", false).path == s;
  }

  /** A content type without parameters is its main value alone, with no parameters. */
  lemma ContentTypeBare(t: string)
    requires NoneOf(t, EmailParams.Untreated + {';', '='})
    ensures ParseContentType(t) == (Strip(t), [])
  {
    assert Find(t, ';', 0) == -1;
    assert Find(t, '=', 0) == -1;
  }

  /** Each parameter reads the value of its last occurrence. */
  lemma ContentTypeParam(mime: string, name: string)
    requires NoneOf(mime, EmailParams.Untreated)
    ensures Get(ParseContentType(mime).1, name) == LastGet(EmailParams.GetParams(mime)[1..], name)
  {
    UpdateGet([], EmailParams.GetParams(mime)[1..], name);
  }

  lemma SplitTwo(a: string, c: char, b: string)
    requires c !in a && c !in b
    ensures Split(a + [c] + b, c) == [a, b]
  {
    SplitOnceStep(a, c, b);
    assert Find(b, c, 0) == -1;
  }

  lemma ParamPair(name: string, value: string)
    requires name != "" && IsLowerCase(name) && NoneOf(name, Whitespace) && '=' !in name
    requires value != "" && NoneOf(value, Whitespace)
    ensures EmailParams.Param(" " + name + "=" + value) == (name, value)
  {
    var piece := " " + name + "=" + value;
    assert piece == " " + name + ['='] + value;
    assert '=' !in " " + name;
    SplitOnceStep(" " + name, '=', value);
    assert Strip(" " + name) == name by {
      assert StripLeft(" " + name) == StripLeft(name);
      StripUnchanged(name);
    }
    LowerUnchanged(name);
    StripUnchanged(value);
  }

  lemma OneParamText(t: string, name: string, value: string)
    requires NoneOf(t, EmailParams.Untreated) && NoneOf(name, EmailParams.Untreated) && NoneOf(value, EmailParams.Untreated)
    ensures NoneOf(t + "; " + name + "=" + value, EmailParams.Untreated)
  {
    var U := EmailParams.Untreated;
    assert NoneOf("; ", U) by { assert "; "[0] == ';' && "; "[1] == ' '; }
    assert NoneOf("=", U) by { assert "="[0] == '='; }
    NoneOfConcat(t, "; ", U);
    NoneOfConcat(t + "; ", name, U);
    NoneOfConcat(t + "; " + name, "=", U);
    NoneOfConcat(t + "; " + name + "=", value, U);
  }

  lemma PieceFree(name: string, value: string, c: char)
    requires c != ' ' && c != '=' && c !in name && c !in value
    ensures c !in " " + name + "=" + value
  {
    var piece := " " + name + "=" + value;
    assert forall i :: 1 <= i < 1 + |name| ==> piece[i] == name[i - 1];
    assert forall i :: 2 + |name| <= i < |piece| ==> piece[i] == value[i - 2 - |name|];
  }

  lemma OneParamPieces(t: string, name: string, value: string)
    requires t != "" && NoneOf(t, Whitespace) && ';' !in t && '=' !in t
    requires name != "" && IsLowerCase(name) && NoneOf(name, Whitespace) && ';' !in name && '=' !in name
    requires value != "" && NoneOf(value, Whitespace) && ';' !in value
    requires NoneOf(t + "; " + name + "=" + value, EmailParams.Untreated)
    ensures EmailParams.GetParams(t + "; " + name + "=" + value) == [(t, ""), (name, value)]
  {
    var piece := " " + name + "=" + value;
    var mime := t + "; " + name + "=" + value;
    assert mime == t + [';'] + piece;
    PieceFree(name, value, ';');
    SplitTwo(t, ';', piece);
    assert Find(t, '=', 0) == -1;
    StripUnchanged(t);
    assert EmailParams.Param(t) == (t, "");
    ParamPair(name, value);
  }

  /** "type; name=value" gives the type and the one parameter. */
  lemma ContentTypeOneParam(t: string, name: string, value: string)
    requires t != "" && NoneOf(t, EmailParams.Untreated) && NoneOf(t, Whitespace) && ';' !in t && '=' !in t
    requires name != "" && IsLowerCase(name) && NoneOf(name, EmailParams.Untreated) && NoneOf(name, Whitespace)
    requires ';' !in name && '=' !in name
    requires value != "" && NoneOf(value, EmailParams.Untreated) && NoneOf(value, Whitespace) && ';' !in value
    ensures ParseContentType(t + "; " + name + "=" + value) == (t, [(name, value)])
  {
    OneParamText(t, name, value);
    OneParamPieces(t, name, value);
    var ps := EmailParams.GetParams(t + "; " + name + "=" + value);
    assert ps[1..] == [(name, value)];
    assert Update([], [(name, value)]) == [(name, value)];
  }
}
