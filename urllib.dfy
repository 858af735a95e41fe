/**
 * The parts of Python's `urllib.parse` that url.py calls: `urlparse`,
 * `urlunparse` (CPython 3.12 branch order), `parse_qs` with its defaults
 * (blank values dropped, `&` as the only separator) and `urlencode` with
 * `doseq=True`. Percent-encoding is not modelled, so the components are
 * meant to hold unreserved characters, which quoting leaves unchanged.
 */
module UrlLib {
  import opened Strings
  import opened OrderedMaps
  import opened Wrappers

  /** `(scheme, netloc, path, params, query, fragment)`, the shape `urlparse` returns. */
  type Parts = (string, string, string, string, string, string)

  const SchemeChars: set<char> :=
    set c: char | ('a' <= c <= 'z') || ('A' <= c <= 'Z') || ('0' <= c <= '9') || c in {'+', '-', '.'}

  /** `uses_netloc` of urllib.parse. */
  const UsesNetloc: set<string> := {
    "", "ftp", "http", "gopher", "nntp", "telnet", "imap", "wais", "file", "mms", "https", "shttp",
    "snews", "prospero", "rtsp", "rtsps", "rtspu", "rsync", "svn", "svn+ssh", "sftp", "nfs", "git",
    "git+ssh", "ws", "wss", "itms-services"}

  /** `uses_params` of urllib.parse. */
  const UsesParams: set<string> := {
    "", "ftp", "hdl", "prospero", "http", "imap", "https", "shttp", "rtsp", "rtsps", "rtspu", "sip",
    "sips", "mms", "sftp", "tel"}

  predicate IsAsciiLetter(c: char) {
    ('a' <= c <= 'z') || ('A' <= c <= 'Z')
  }

  /** A scheme as `urlsplit` recognises it before the first ':'. */
  predicate IsScheme(s: string) {
    |s| > 0 && IsAsciiLetter(s[0]) && forall i :: 0 <= i < |s| ==> s[i] in SchemeChars
  }

  /** The scheme step of `urlsplit`: the text before the first ':' when it is a scheme, lower-cased. */
  function SplitScheme(url: string, default: string): (r: (string, string))
    ensures r.0 == default || IsScheme(r.0)
    ensures r.0 == default || IsLowerCase(r.0)
  {
    var i := Find(url, ':', 0);
    if i > 0 && IsScheme(url[..i]) then
      assert forall j :: 0 <= j < i ==> LowerChar(url[j]) in SchemeChars;
      (Lower(url[..i]), url[i + 1..])
    else (default, url)
  }

  /** The first index at or after `from` holding one of `cs`, or `|s|`. */
  function FirstOf(s: string, cs: set<char>, from: nat): (r: nat)
    decreases |s| - from
    ensures from <= |s| ==> from <= r <= |s|
    ensures r < |s| ==> s[r] in cs
    ensures forall i :: from <= i < r && i < |s| ==> s[i] !in cs
  {
    if from >= |s| then |s|
    else if s[from] in cs then from
    else FirstOf(s, cs, from + 1)
  }

  /** `_splitnetloc(url, 2)`: the authority runs up to the first '/', '?' or '#'. */
  function SplitNetloc(url: string): (r: (string, string))
    requires |url| >= 2 && url[..2] == "//"
    ensures NoneOf(r.0, {'/', '?', '#'})
    ensures url == "//" + r.0 + r.1
    ensures |r.1| > 0 ==> r.1[0] in {'/', '?', '#'}
  {
    var d := FirstOf(url, {'/', '?', '#'}, 2);
    assert url == url[..2] + url[2..d] + url[d..];
    (url[2..d], url[d..])
  }

  /** `s.split(c, 1)` when `c` occurs, else `(s, "")`. */
  function SplitOnce(s: string, c: char): (r: (string, string))
    ensures c !in r.0
    ensures c in s ==> s == r.0 + [c] + r.1
    ensures c !in s ==> r == (s, "")
  {
    var i := Find(s, c, 0);
    if i == -1 then (s, "")
    else
      assert s == s[..i] + [c] + s[i + 1..];
      (s[..i], s[i + 1..])
  }

  /** `_splitparams`: the parameters start at the first ';' of the last segment. */
  function SplitParams(url: string): (r: (string, string))
    ensures r == (url, "") || url == r.0 + ";" + r.1
  {
    if '/' in url then
      var i := Find(url, ';', RFind(url, '/') as nat);
      if i < 0 then (url, "")
      else
        assert url == url[..i] + ";" + url[i + 1..];
        (url[..i], url[i + 1..])
    else
      var i := Find(url, ';', 0);
      if i < 0 then (url, "")
      else
        assert url == url[..i] + ";" + url[i + 1..];
        (url[..i], url[i + 1..])
  }

  /** A character missing from `a + sep + b` is missing from `a` and from `b`. */
  lemma PiecesExclude(s: string, a: string, sep: string, b: string, c: char)
    requires s == a + sep + b && c !in s
    ensures c !in a && c !in b
  {
    assert forall i :: 0 <= i < |a| ==> a[i] == s[i];
    assert forall i :: 0 <= i < |b| ==> b[i] == s[|a| + |sep| + i];
  }

  /**
   * `urlparse(url, scheme, allow_fragments)`. The leading-whitespace strip,
   * the removal of tab and newline characters and the IPv6 bracket checks of
   * `urlsplit` are not modelled.
   */
  function UrlParse(url: string, scheme: string, allowFragments: bool): (p: Parts)
    ensures p.0 == scheme || IsScheme(p.0)
    ensures p.0 == scheme || IsLowerCase(p.0)
    ensures NoneOf(p.1, {'/', '?', '#'})
    ensures '?' !in p.2 && '?' !in p.3
    ensures allowFragments ==> '#' !in p.2 && '#' !in p.3 && '#' !in p.4
    ensures !allowFragments ==> p.5 == ""
  {
    var (sch, r1) := SplitScheme(url, scheme);
    var (netloc, r2) := if |r1| >= 2 && r1[..2] == "//" then SplitNetloc(r1) else ("", r1);
    var (r3, fragment) := if allowFragments then SplitOnce(r2, '#') else (r2, "");
    var (r4, query) := SplitOnce(r3, '?');
    OnceExclude(r3, '?', '#');
    var (path, params) := if sch in UsesParams && ';' in r4 then SplitParams(r4) else (r4, "");
    PartsExclude(r4, path, params, '?');
    PartsExclude(r4, path, params, '#');
    (sch, netloc, path, params, query, fragment)
  }

  /** The pieces `SplitOnce` gives back are made of characters of its input. */
  lemma OnceExclude(s: string, c: char, d: char)
    ensures d !in s ==> d !in SplitOnce(s, c).0 && d !in SplitOnce(s, c).1
  {
    var r := SplitOnce(s, c);
    if d !in s && c in s {
      PiecesExclude(s, r.0, [c], r.1, d);
    }
  }

  /** The pieces of a `SplitParams` split are made of characters of its input. */
  lemma PartsExclude(r4: string, path: string, params: string, c: char)
    requires (path, params) == (r4, "") || r4 == path + ";" + params
    ensures c !in r4 ==> c !in path && c !in params
  {
    if c !in r4 && r4 == path + ";" + params {
      PiecesExclude(r4, path, ";", params, c);
    }
  }

  /** `urlunsplit`. */
  function UrlUnsplit(scheme: string, netloc: string, url: string, query: string, fragment: string): string {
    var u1 :=
      if netloc != "" then
        "//" + netloc + (if url != "" && url[0] != '/' then "/" + url else url)
      else if |url| >= 2 && url[..2] == "//" then "//" + url
      else if scheme != "" && scheme in UsesNetloc && (url == "" || url[0] == '/') then "//" + url
      else url;
    var u2 := if scheme != "" then scheme + ":" + u1 else u1;
    var u3 := if query != "" then u2 + "?" + query else u2;
    if fragment != "" then u3 + "#" + fragment else u3
  }

  /** `urlunparse`: the parameters go after a ';' at the end of the path. */
  function UrlUnparse(p: Parts): string {
    var (scheme, netloc, path, params, query, fragment) := p;
    UrlUnsplit(scheme, netloc, if params != "" then path + ";" + params else path, query, fragment)
  }

  // ---------------------------------------------------------------------
  // Query strings
  // ---------------------------------------------------------------------

  /** A multi-valued query mapping: each key with its values in order of appearance. */
  type QueryMap = Assoc<string, seq<string>>

  /** One `name=value` piece of `parse_qsl`: a piece without '=' or with an empty value is dropped. */
  function ParsePiece(piece: string): (r: seq<(string, string)>)
    ensures |r| <= 1
    ensures |r| == 1 ==> '=' !in r[0].0 && r[0].1 != "" && piece == r[0].0 + "=" + r[0].1
  {
    var i := Find(piece, '=', 0);
    if i == -1 || i + 1 == |piece| then []
    else
      assert piece == piece[..i] + "=" + piece[i + 1..];
      [(piece[..i], piece[i + 1..])]
  }

  function ParsePieces(pieces: seq<string>): seq<(string, string)> {
    if pieces == [] then [] else ParsePiece(pieces[0]) + ParsePieces(pieces[1..])
  }

  /** `parse_qsl(qs)`. */
  function ParseQsl(qs: string): seq<(string, string)> {
    ParsePieces(Split(qs, '&'))
  }

  /** The step of `parse_qs` that appends a value to its key's list, adding the key when it is new. */
  function AddValue(m: QueryMap, k: string, v: string): QueryMap {
    match Get(m, k)
    case None => Put(m, k, [v])
    case Some(vs) => Put(m, k, vs + [v])
  }

  /** The grouping loop of `parse_qs`, over the pairs in order. */
  function Group(ps: seq<(string, string)>): QueryMap {
    if ps == [] then [] else AddValue(Group(ps[..|ps| - 1]), ps[|ps| - 1].0, ps[|ps| - 1].1)
  }

  /** The values the pairs give key `k`, in order: the reference reading of `parse_qs`. */
  function ValuesOf(ps: seq<(string, string)>, k: string): seq<string> {
    if ps == [] then []
    else ValuesOf(ps[..|ps| - 1], k) + (if ps[|ps| - 1].0 == k then [ps[|ps| - 1].1] else [])
  }

  /** The keys of the pairs, each where it first appears. */
  function FirstKeys(ps: seq<(string, string)>): seq<string> {
    if ps == [] then []
    else if ps[|ps| - 1].0 in FirstKeys(ps[..|ps| - 1]) then FirstKeys(ps[..|ps| - 1])
    else FirstKeys(ps[..|ps| - 1]) + [ps[|ps| - 1].0]
  }

  /** `parse_qs(qs)`. */
  function ParseQs(qs: string): QueryMap {
    Group(ParseQsl(qs))
  }

  /** The `(key, value)` pairs `urlencode(..., doseq=True)` emits, key by key. */
  function Flatten(m: QueryMap): seq<(string, string)> {
    if m == [] then []
    else Flatten(m[..|m| - 1]) + Entries(m[|m| - 1].0, m[|m| - 1].1)
  }

  function Entries(k: string, vs: seq<string>): (r: seq<(string, string)>)
    ensures |r| == |vs|
    ensures forall i :: 0 <= i < |vs| ==> r[i] == (k, vs[i])
  {
    if vs == [] then [] else [(k, vs[0])] + Entries(k, vs[1..])
  }

  function EncodePairs(ps: seq<(string, string)>): (r: seq<string>)
    ensures |r| == |ps|
    ensures forall i :: 0 <= i < |ps| ==> r[i] == ps[i].0 + "=" + ps[i].1
  {
    if ps == [] then [] else [ps[0].0 + "=" + ps[0].1] + EncodePairs(ps[1..])
  }

  /** `urlencode(m, doseq=True)`. */
  function UrlEncode(m: QueryMap): string {
    Join(EncodePairs(Flatten(m)), "&")
  }

  /** What `parse_qs` can give back unchanged: distinct keys, each with a non-empty list of non-empty values, none holding '&' and no key holding '='. */
  predicate WellFormedQuery(m: QueryMap) {
    && DistinctKeys(m)
    && forall i :: 0 <= i < |m| ==> WellFormedEntry(m[i])
  }

  predicate WellFormedEntry(e: (string, seq<string>)) {
    && '&' !in e.0 && '=' !in e.0 && |e.1| > 0
    && forall j :: 0 <= j < |e.1| ==> e.1[j] != "" && '&' !in e.1[j]
  }

  /** `parse_qs` handles the pairs one at a time. */
  lemma GroupSnoc(ps: seq<(string, string)>, p: (string, string))
    ensures Group(ps + [p]) == AddValue(Group(ps), p.0, p.1)
  {
    assert (ps + [p])[..|ps|] == ps;
  }

  lemma EntriesSnoc(k: string, vs: seq<string>)
    requires |vs| > 0
    ensures Entries(k, vs) == Entries(k, vs[..|vs| - 1]) + [(k, vs[|vs| - 1])]
  {
  }

  /** Grouping the pairs of one new key adds that key, with its values in order, at the end. */
  lemma {:induction false} GroupEntries(ps: seq<(string, string)>, k: string, vs: seq<string>)
    requires |vs| > 0
    requires k !in Keys(Group(ps))
    decreases |vs|
    ensures Group(ps + Entries(k, vs)) == Group(ps) + [(k, vs)]
  {
    var n := |vs|;
    var init := vs[..n - 1];
    EntriesSnoc(k, vs);
    assert ps + Entries(k, vs) == (ps + Entries(k, init)) + [(k, vs[n - 1])];
    if n == 1 {
      assert Entries(k, init) == [];
      assert ps + Entries(k, init) == ps;
      GroupSnoc(ps, (k, vs[0]));
      PutAbsent(Group(ps), k, [vs[0]]);
      assert [vs[0]] == vs;
    } else {
      GroupEntries(ps, k, init);
      GroupEntriesStep(ps, k, init, vs[n - 1]);
      assert init + [vs[n - 1]] == vs;
    }
  }

  /** One more pair of the key last added appends its value to that key's list. */
  lemma GroupEntriesStep(ps: seq<(string, string)>, k: string, init: seq<string>, v: string)
    requires k !in Keys(Group(ps))
    requires Group(ps + Entries(k, init)) == Group(ps) + [(k, init)]
    ensures Group((ps + Entries(k, init)) + [(k, v)]) == Group(ps) + [(k, init + [v])]
  {
    GroupSnoc(ps + Entries(k, init), (k, v));
    PutLast(Group(ps), k, init, init + [v]);
  }

  lemma GroupFlattenSnoc(init: QueryMap, last: (string, seq<string>))
    requires Group(Flatten(init)) == init
    requires last.0 !in Keys(init) && |last.1| > 0
    ensures Group(Flatten(init + [last])) == init + [last]
  {
    var m := init + [last];
    assert m[..|m| - 1] == init;
    assert Flatten(m) == Flatten(init) + Entries(last.0, last.1);
    GroupEntries(Flatten(init), last.0, last.1);
  }

  /** Grouping the pairs `urlencode` emits gives back the mapping. */
  lemma {:induction false} GroupFlatten(m: QueryMap)
    requires WellFormedQuery(m)
    decreases |m|
    ensures Group(Flatten(m)) == m
  {
    if m != [] {
      var n := |m|;
      var init, last := m[..n - 1], m[n - 1];
      assert WellFormedQuery(init) && last.0 !in Keys(init) && |last.1| > 0 by {
        DistinctInit(m);
        assert forall i :: 0 <= i < |init| ==> init[i] == m[i];
        assert WellFormedEntry(m[n - 1]);
      }
      GroupFlatten(init);
      GroupFlattenSnoc(init, last);
      InitLast(m);
    }
  }

  lemma {:induction false} ParsePiecesEncode(ps: seq<(string, string)>)
    requires forall i :: 0 <= i < |ps| ==> '=' !in ps[i].0 && ps[i].1 != ""
    ensures ParsePieces(EncodePairs(ps)) == ps
  {
    if ps != [] {
      var piece := ps[0].0 + "=" + ps[0].1;
      assert Find(piece, '=', 0) == |ps[0].0| by {
        assert piece[|ps[0].0|] == '=';
        assert forall i :: 0 <= i < |ps[0].0| ==> piece[i] == ps[0].0[i];
      }
      assert piece[..|ps[0].0|] == ps[0].0 && piece[|ps[0].0| + 1..] == ps[0].1;
      assert EncodePairs(ps)[1..] == EncodePairs(ps[1..]);
      ParsePiecesEncode(ps[1..]);
    }
  }

  /** Every pair `urlencode` emits is a key and one of its values. */
  lemma {:induction false} FlattenFrom(m: QueryMap)
    requires forall i :: 0 <= i < |m| ==> WellFormedEntry(m[i])
    decreases |m|
    ensures forall i :: 0 <= i < |Flatten(m)| ==>
      '=' !in Flatten(m)[i].0 && '&' !in Flatten(m)[i].0 && Flatten(m)[i].1 != "" && '&' !in Flatten(m)[i].1
  {
    if m != [] {
      FlattenFrom(m[..|m| - 1]);
      assert WellFormedEntry(m[|m| - 1]);
    }
  }

  /** `parse_qs(urlencode(m, doseq=True)) == m` for a mapping of unreserved keys and non-empty values. */
  lemma ParseQsUrlEncode(m: QueryMap)
    requires WellFormedQuery(m)
    ensures ParseQs(UrlEncode(m)) == m
  {
    var ps := Flatten(m);
    FlattenFrom(m);
    var pieces := EncodePairs(ps);
    if |pieces| == 0 {
      assert Split("", '&') == [""];
      assert ParseQsl(UrlEncode(m)) == [];
    } else {
      forall k | 0 <= k < |pieces| ensures '&' !in pieces[k] {
        assert pieces[k] == ps[k].0 + "=" + ps[k].1;
      }
      SplitJoin(pieces, '&');
    }
    ParsePiecesEncode(ps);
    GroupFlatten(m);
  }

  lemma {:induction false} ParsePiecesShape(pieces: seq<string>)
    requires forall k :: 0 <= k < |pieces| ==> '&' !in pieces[k]
    ensures forall i :: 0 <= i < |ParsePieces(pieces)| ==> PairOk(ParsePieces(pieces)[i])
  {
    if pieces != [] {
      ParsePiecesShape(pieces[1..]);
      var r := ParsePiece(pieces[0]);
      if |r| == 1 {
        assert pieces[0] == r[0].0 + "=" + r[0].1;
        assert '&' !in r[0].0 by {
          assert forall j :: 0 <= j < |r[0].0| ==> r[0].0[j] == pieces[0][j];
        }
        assert '&' !in r[0].1 by {
          assert forall j :: 0 <= j < |r[0].1| ==> r[0].1[j] == pieces[0][|r[0].0| + 1 + j];
        }
      }
    }
  }

  predicate PairOk(p: (string, string)) {
    '=' !in p.0 && '&' !in p.0 && p.1 != "" && '&' !in p.1
  }

  lemma AddValueWellFormed(g: QueryMap, p: (string, string))
    requires WellFormedQuery(g) && PairOk(p)
    ensures WellFormedQuery(AddValue(g, p.0, p.1))
  {
    var vs := if Get(g, p.0).Some? then Get(g, p.0).value + [p.1] else [p.1];
    assert AddValue(g, p.0, p.1) == Put(g, p.0, vs);
    AddedEntry(g, p);
    PutWellFormed(g, p.0, vs);
  }

  /** The list `parse_qs` stores for a key after adding a value is well-formed. */
  lemma AddedEntry(g: QueryMap, p: (string, string))
    requires forall i :: 0 <= i < |g| ==> WellFormedEntry(g[i])
    requires PairOk(p)
    ensures WellFormedEntry((p.0, if Get(g, p.0).Some? then Get(g, p.0).value + [p.1] else [p.1]))
  {
    if Get(g, p.0).Some? {
      GetWellFormed(g, p.0);
      AppendEntry(p.0, Get(g, p.0).value, p.1);
    }
  }

  lemma {:induction false} GetWellFormed(g: QueryMap, k: string)
    requires forall i :: 0 <= i < |g| ==> WellFormedEntry(g[i])
    requires Get(g, k).Some?
    ensures WellFormedEntry((k, Get(g, k).value))
  {
    if g[0].0 != k {
      assert forall i :: 0 <= i < |g| - 1 ==> g[1..][i] == g[i + 1];
      GetWellFormed(g[1..], k);
    } else {
      assert WellFormedEntry(g[0]);
    }
  }

  lemma AppendEntry(k: string, vs: seq<string>, v: string)
    requires WellFormedEntry((k, vs)) && v != "" && '&' !in v
    ensures WellFormedEntry((k, vs + [v]))
  {
    var w := vs + [v];
    assert forall j :: 0 <= j < |w| ==> w[j] == if j < |vs| then vs[j] else v;
  }

  lemma PutWellFormed(g: QueryMap, k: string, vs: seq<string>)
    requires WellFormedQuery(g) && WellFormedEntry((k, vs))
    ensures WellFormedQuery(Put(g, k, vs))
  {
    PutDistinct(g, k, vs);
    PutEntries(g, k, vs);
    PutKeepsEntries(g, Put(g, k, vs), (k, vs));
  }

  /** A dict whose pairs are old well-formed pairs or one new well-formed pair has only well-formed pairs. */
  lemma PutKeepsEntries(g: QueryMap, h: QueryMap, e: (string, seq<string>))
    requires forall i :: 0 <= i < |g| ==> WellFormedEntry(g[i])
    requires WellFormedEntry(e)
    requires forall i :: 0 <= i < |h| ==> h[i] == e || h[i] in g
    ensures forall i :: 0 <= i < |h| ==> WellFormedEntry(h[i])
  {
  }

  lemma {:induction false} GroupWellFormed(ps: seq<(string, string)>)
    requires forall i :: 0 <= i < |ps| ==> PairOk(ps[i])
    decreases |ps|
    ensures WellFormedQuery(Group(ps))
  {
    if ps != [] {
      GroupWellFormed(ps[..|ps| - 1]);
      AddValueWellFormed(Group(ps[..|ps| - 1]), ps[|ps| - 1]);
    }
  }

  /** `parse_qs` always gives a mapping of the shape `urlencode` reproduces. */
  lemma ParseQsWellFormed(qs: string)
    ensures WellFormedQuery(ParseQs(qs))
  {
    JoinSplit(qs, '&');
    ParsePiecesShape(Split(qs, '&'));
    GroupWellFormed(ParseQsl(qs));
  }

  /** The grouping of `parse_qs` lists the keys in order of first appearance. */
  lemma {:induction false} GroupKeys(ps: seq<(string, string)>)
    decreases |ps|
    ensures Keys(Group(ps)) == FirstKeys(ps)
  {
    if ps != [] {
      var init, p := ps[..|ps| - 1], ps[|ps| - 1];
      GroupKeys(init);
      var g := Group(init);
      assert Group(ps) == AddValue(g, p.0, p.1);
      assert Keys(AddValue(g, p.0, p.1)) == if p.0 in Keys(g) then Keys(g) else Keys(g) + [p.0];
    }
  }

  /** After one step of `parse_qs`, the key stepped on reads its old values and the new one. */
  lemma AddValueGet(g: QueryMap, key: string, v: string, k: string)
    ensures Get(AddValue(g, key, v), k) ==
      if k != key then Get(g, k)
      else if Get(g, key).Some? then Some(Get(g, key).value + [v]) else Some([v])
  {
    match Get(g, key)
    case None => PutGet(g, key, [v], k);
    case Some(vs) => PutGet(g, key, vs + [v], k);
  }

  /** The grouping of `parse_qs` gives each key all its values, in order. */
  lemma {:induction false} GroupValues(ps: seq<(string, string)>, k: string)
    decreases |ps|
    ensures Get(Group(ps), k) == if ValuesOf(ps, k) == [] then None else Some(ValuesOf(ps, k))
  {
    if ps != [] {
      var init, p := ps[..|ps| - 1], ps[|ps| - 1];
      GroupValues(init, k);
      assert Group(ps) == AddValue(Group(init), p.0, p.1);
      AddValueGet(Group(init), p.0, p.1, k);
      if p.0 == k {
        assert ValuesOf(ps, k) == ValuesOf(init, k) + [p.1];
        if ValuesOf(init, k) == [] {
          assert ValuesOf(init, k) + [p.1] == [p.1];
        }
      } else {
        assert ValuesOf(ps, k) == ValuesOf(init, k) + [];
        assert ValuesOf(init, k) + [] == ValuesOf(init, k);
      }
    }
  }

  /**
   * `parse_qs(qs)` for every query string: a key is present exactly when some
   * pair of `parse_qsl(qs)` names it, the keys come in order of first
   * appearance, and each reads the values of its pairs in order.
   */
  lemma ParseQsMeaning(qs: string, k: string)
    ensures Keys(ParseQs(qs)) == FirstKeys(ParseQsl(qs))
    ensures Get(ParseQs(qs), k) == if ValuesOf(ParseQsl(qs), k) == [] then None else Some(ValuesOf(ParseQsl(qs), k))
  {
    GroupKeys(ParseQsl(qs));
    GroupValues(ParseQsl(qs), k);
  }
}
