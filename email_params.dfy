/**
 * `email.message.Message.get_params()` for a header value without quoting:
 * the value is cut at every ';', a piece `name=value` becomes the pair of its
 * stripped halves with the name lower-cased, and a piece without '=' becomes
 * `(piece, "")` stripped. Quoted strings, backslash escapes, angle-bracket
 * unquoting and RFC 2231 continuations (`name*`) are outside this model, and
 * so is non-ASCII text; the characters concerned are listed in `Untreated`.
 */
module EmailParams {
  import opened Strings

  /**
   * The characters outside this model: those that start quoting, escapes,
   * angle brackets, RFC 2231 continuations and header folding, and every
   * non-ASCII character (Python lower-cases non-ASCII capitals in names,
   * which `Lower` does not).
   */
  const Untreated: set<char> := {'"', '\\', '*', '<', '>', '\r', '\n'} + set c: char | '\U{0080}' <= c

  /** One piece of `_parseparam`, split the way `_get_params_preserve` splits it. */
  function Param(piece: string): (string, string) {
    var i := Find(piece, '=', 0);
    if i == -1 then (Strip(piece), "")
    else (Lower(Strip(piece[..i])), Strip(piece[i + 1..]))
  }

  function Params(pieces: seq<string>): (r: seq<(string, string)>)
    ensures |r| == |pieces|
    ensures forall k :: 0 <= k < |pieces| ==> r[k] == Param(pieces[k])
  {
    if pieces == [] then [] else [Param(pieces[0])] + Params(pieces[1..])
  }

  /** `get_params()` of a header whose value is `value`: never empty, the first pair is the main value. */
  function GetParams(value: string): (r: seq<(string, string)>)
    requires NoneOf(value, Untreated)
    ensures |r| >= 1
  {
    Params(Split(value, ';'))
  }
}
