/**
 * The library's exception classes as a datatype of error kinds, with the
 * single-inheritance parent of each and the "is a" relation that `except`
 * clauses test.
 *
 *   GuidelightError
 *   └── EndeavorError
 *       ├── ServerError
 *       ├── ClientError
 *       │   ├── AuthenticationError
 *       │   ├── NotFound
 *       │   └── ValidationError
 *       └── ReadOnlyEndpoint
 */
module Errors {
  import opened Wrappers

  datatype Kind =
    | GuidelightError
    | EndeavorError
    | ServerError
    | ClientError
    | AuthenticationError
    | NotFound
    | ValidationError
    | ReadOnlyEndpoint

  /** The class a kind derives from directly; the root derives from Python's own `Exception`. */
  function Parent(k: Kind): (p: Option<Kind>)
    ensures p.None? <==> Depth(k) == 0
    ensures p.Some? ==> Depth(k) == Depth(p.value) + 1
  {
    match k
    case GuidelightError => None
    case EndeavorError => Some(GuidelightError)
    case ServerError => Some(EndeavorError)
    case ClientError => Some(EndeavorError)
    case AuthenticationError => Some(ClientError)
    case NotFound => Some(ClientError)
    case ValidationError => Some(ClientError)
    case ReadOnlyEndpoint => Some(EndeavorError)
  }

  /** The number of classes between a kind and the root. */
  function Depth(k: Kind): nat {
    match k
    case GuidelightError => 0
    case EndeavorError => 1
    case ServerError | ClientError | ReadOnlyEndpoint => 2
    case AuthenticationError | NotFound | ValidationError => 3
  }

  /** The method resolution order: the kind itself, then each parent up to the root. */
  function Ancestors(k: Kind): (chain: seq<Kind>)
    decreases Depth(k)
    ensures |chain| == Depth(k) + 1
    ensures chain[0] == k
  {
    match Parent(k)
    case None => [k]
    case Some(p) => [k] + Ancestors(p)
  }

  /** `issubclass(a, b)`: `b` is on the chain of `a`. */
  predicate IsA(a: Kind, b: Kind) {
    b in Ancestors(a)
  }

  /** Every chain ends at GuidelightError, the root of the tree. */
  lemma {:induction false} ChainEndsAtRoot(k: Kind)
    decreases Depth(k)
    ensures Ancestors(k)[|Ancestors(k)| - 1] == GuidelightError
    ensures IsA(k, GuidelightError)
  {
    match Parent(k)
    case None =>
    case Some(p) =>
      ChainEndsAtRoot(p);
  }

  /** Each step along a chain goes from a kind to its parent. */
  lemma {:induction false} ChainIsParentSteps(k: Kind, i: nat)
    requires i + 1 < |Ancestors(k)|
    decreases Depth(k)
    ensures Parent(Ancestors(k)[i]) == Some(Ancestors(k)[i + 1])
  {
    var p := Parent(k).value;
    if i > 0 {
      ChainIsParentSteps(p, i - 1);
    }
  }

  /** ServerError, ClientError and ReadOnlyEndpoint derive directly from EndeavorError. */
  lemma EndeavorChildren()
    ensures forall k :: Parent(k) == Some(EndeavorError) <==> k in {ServerError, ClientError, ReadOnlyEndpoint}
  {
  }

  /** AuthenticationError, NotFound and ValidationError derive directly from ClientError, and so are EndeavorErrors. */
  lemma ClientChildren()
    ensures forall k :: Parent(k) == Some(ClientError) <==> k in {AuthenticationError, NotFound, ValidationError}
    ensures forall k :: Parent(k) == Some(ClientError) ==> IsA(k, EndeavorError)
  {
  }

  /** ServerError and ReadOnlyEndpoint are not ClientErrors, and no kind is both a ServerError and a ClientError. */
  lemma ServerAndClientDisjoint()
    ensures !IsA(ServerError, ClientError) && !IsA(ReadOnlyEndpoint, ClientError)
    ensures forall k :: !(IsA(k, ServerError) && IsA(k, ClientError))
  {
  }

  /** Every kind is itself. */
  lemma IsAReflexive(k: Kind)
    ensures IsA(k, k)
  {
  }

  /** A kind's ancestors are its parent's ancestors and itself. */
  lemma {:induction false} IsAStep(a: Kind, b: Kind)
    ensures IsA(a, b) <==> a == b || (Parent(a).Some? && IsA(Parent(a).value, b))
  {
    match Parent(a)
    case None =>
    case Some(p) =>
      assert Ancestors(a) == [a] + Ancestors(p);
  }

  /** An ancestor of an ancestor is an ancestor. */
  lemma {:induction false} IsATransitive(a: Kind, b: Kind, c: Kind)
    requires IsA(a, b) && IsA(b, c)
    decreases Depth(a)
    ensures IsA(a, c)
  {
    IsAStep(a, b);
    if a != b {
      var p := Parent(a).value;
      IsATransitive(p, b, c);
      IsAStep(a, c);
    }
  }

  /** An ancestor is never deeper than its descendant, and only the kind itself is as deep. */
  lemma {:induction false} IsADepth(a: Kind, b: Kind)
    requires IsA(a, b)
    decreases Depth(a)
    ensures Depth(b) <= Depth(a)
    ensures Depth(b) == Depth(a) ==> a == b
  {
    IsAStep(a, b);
    if a != b {
      IsADepth(Parent(a).value, b);
    }
  }

  /** Two kinds that are each other's ancestor are the same kind. */
  lemma IsAAntisymmetric(a: Kind, b: Kind)
    requires IsA(a, b) && IsA(b, a)
    ensures a == b
  {
    IsADepth(a, b);
    IsADepth(b, a);
  }

  /**
   * The ancestors of a kind form a chain: of two ancestors, one is an
   * ancestor of the other. With a single parent per kind this makes the
   * hierarchy a tree.
   */
  lemma {:induction false} AncestorsAreChain(a: Kind, b: Kind, c: Kind)
    requires IsA(a, b) && IsA(a, c)
    decreases Depth(a)
    ensures IsA(b, c) || IsA(c, b)
  {
    IsAStep(a, b);
    IsAStep(a, c);
    if a == b {
    } else if a == c {
    } else {
      AncestorsAreChain(Parent(a).value, b, c);
    }
  }
}
