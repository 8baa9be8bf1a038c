/** Optional values, results and the error values the caches hand to each other. */
module Prelude {
  type Key = string

  datatype Option<+T> = None | Some(value: T)

  datatype Result<+T> = Ok(value: T) | Err(error: Error)

  /** `Wrapped` is `fmt.Errorf("...%w", cause)`; `Joined` is `errors.Join`. */
  datatype Error =
    | NotFound
    | InvalidTTL
    | Malformed(length: nat)
    | Misconfigured
    | Failure(code: int)
    | Wrapped(cause: Error)
    | Joined(errs: seq<Error>)

  /** `errors.Is(e, ErrNotFound)`: the sentinel is looked for through every wrapper. */
  predicate IsNotFound(e: Error) {
    match e
    case NotFound => true
    case Wrapped(cause) => IsNotFound(cause)
    case Joined(errs) => exists x | x in errs :: IsNotFound(x)
    case _ => false
  }

  /** What the error unwraps to along `path`, which picks a member at each `Joined`. */
  function Unwrapped(e: Error, path: seq<nat>): Option<Error>
    decreases |path|
  {
    if path == [] then Some(e)
    else match e
      case Wrapped(cause) => Unwrapped(cause, path[1..])
      case Joined(errs) => if path[0] < |errs| then Unwrapped(errs[path[0]], path[1..]) else None
      case _ => None
  }

  /** The sentinel stands somewhere inside the error. */
  ghost predicate HasSentinel(e: Error) {
    exists path :: Unwrapped(e, path) == Some(NotFound)
  }

  lemma {:induction false} SentinelPath(e: Error) returns (path: seq<nat>)
    requires IsNotFound(e)
    ensures Unwrapped(e, path) == Some(NotFound)
  {
    match e
    case NotFound => path := [];
    case Wrapped(cause) =>
      var below := SentinelPath(cause);
      path := [0] + below;
      assert path[1..] == below;
    case Joined(errs) =>
      var x :| x in errs && IsNotFound(x);
      var j: nat :| j < |errs| && errs[j] == x;
      var below := SentinelPath(errs[j]);
      path := [j] + below;
      assert path[1..] == below;
  }

  lemma {:induction false} FoundAlong(e: Error, path: seq<nat>)
    requires Unwrapped(e, path) == Some(NotFound)
    ensures IsNotFound(e)
    decreases |path|
  {
    if path != [] {
      match e
      case Wrapped(cause) => FoundAlong(cause, path[1..]);
      case Joined(errs) => FoundAlong(errs[path[0]], path[1..]);
    }
  }

  /** An error is a miss exactly when the sentinel stands somewhere inside it, at any depth and in any place. */
  lemma IsNotFoundIff(e: Error)
    ensures IsNotFound(e) <==> HasSentinel(e)
  {
    if IsNotFound(e) {
      var path := SentinelPath(e);
    } else {
      forall path | Unwrapped(e, path) == Some(NotFound)
        ensures false
      {
        FoundAlong(e, path);
      }
    }
  }

  predicate Misses<T>(r: Result<T>) {
    r.Err? && IsNotFound(r.error)
  }

  /** Multiplication by a natural number is monotone. */
  lemma {:induction false} Scale(a: int, b: int, p: nat)
    requires a <= b
    ensures a * p <= b * p
    ensures a < b ==> a * p + p <= b * p
    decreases b - a
  {
    if a < b {
      Scale(a + 1, b, p);
      assert (a + 1) * p == a * p + p;
    }
  }

  lemma BeyondQuotient(k: int, p: nat, total: nat)
    requires p > 0 && k >= total / p + 1
    ensures k * p > total
  {
    Scale(total / p, k, p);
  }
}
