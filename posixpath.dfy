/** `posixpath.join`, which `URL.resolve` uses to build the new path. */
module PosixPath {
  import opened Strings

  predicate IsAbsolute(segment: string) {
    StartsWith(segment, "/")
  }

  /** One step of `join`: an absolute segment replaces the path, any other is appended after a '/'. */
  function JoinOne(path: string, segment: string): string {
    if IsAbsolute(segment) then segment
    else if path == "" || EndsWith(path, "/") then path + segment
    else path + "/" + segment
  }

  /** `posixpath.join(path, *segments)`. */
  function PathJoin(path: string, segments: seq<string>): string
    decreases |segments|
  {
    if segments == [] then path else PathJoin(JoinOne(path, segments[0]), segments[1..])
  }

  /** Joining in two goes is joining once. */
  lemma {:induction false} PathJoinAppend(path: string, s1: seq<string>, s2: seq<string>)
    decreases |s1|
    ensures PathJoin(path, s1 + s2) == PathJoin(PathJoin(path, s1), s2)
  {
    if s1 != [] {
      assert (s1 + s2)[1..] == s1[1..] + s2;
      PathJoinAppend(JoinOne(path, s1[0]), s1[1..], s2);
    } else {
      assert s1 + s2 == s2;
    }
  }

  /** An absolute segment discards the path and every segment before it. */
  lemma {:induction false} PathJoinAbsolute(path: string, segments: seq<string>, i: nat)
    requires i < |segments| && IsAbsolute(segments[i])
    decreases i
    ensures PathJoin(path, segments) == PathJoin(segments[i], segments[i + 1..])
  {
    if i > 0 {
      PathJoinAbsolute(JoinOne(path, segments[0]), segments[1..], i - 1);
      assert segments[1..][i - 1 + 1..] == segments[i + 1..];
    }
  }

  /** With an absolute segment anywhere, the starting path does not matter. */
  lemma PathJoinIgnoresBase(p: string, q: string, segments: seq<string>, i: nat)
    requires i < |segments| && IsAbsolute(segments[i])
    ensures PathJoin(p, segments) == PathJoin(q, segments)
  {
    PathJoinAbsolute(p, segments, i);
    PathJoinAbsolute(q, segments, i);
  }

  /** Relative segments never lose the path they are joined to. */
  lemma {:induction false} PathJoinKeepsBase(path: string, segments: seq<string>)
    requires forall k :: 0 <= k < |segments| ==> !IsAbsolute(segments[k])
    decreases |segments|
    ensures StartsWith(PathJoin(path, segments), path)
  {
    if segments != [] {
      var next := JoinOne(path, segments[0]);
      PathJoinKeepsBase(next, segments[1..]);
      assert StartsWith(next, path);
      assert PathJoin(path, segments) == PathJoin(next, segments[1..]);
      assert PathJoin(path, segments)[..|next|][..|path|] == PathJoin(path, segments)[..|path|];
    }
  }

  /** The separator `join` puts after a path before a relative segment. */
  function Sep(path: string): string {
    if path == "" || EndsWith(path, "/") then path else path + "/"
  }

  /**
   * Plain segments (non-empty, without '/') are joined to the path with
   * single slashes between them.
   */
  lemma {:induction false} PathJoinRelative(path: string, segments: seq<string>)
    requires |segments| > 0
    requires forall k :: 0 <= k < |segments| ==> segments[k] != "" && '/' !in segments[k]
    decreases |segments|
    ensures PathJoin(path, segments) == Sep(path) + Join(segments, "/")
  {
    var s0 := segments[0];
    assert s0[0] != '/' && s0[0] == s0[..1][0];
    var next := JoinOne(path, s0);
    assert next == Sep(path) + s0;
    if |segments| > 1 {
      PathJoinRelative(next, segments[1..]);
      assert next != "" && !EndsWith(next, "/");
      assert Join(segments, "/") == s0 + "/" + Join(segments[1..], "/");
    }
  }
}
