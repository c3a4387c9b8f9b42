/** What the other modules share: two result shapes, and small functions on numbers, maps and sequences. */
module Wrappers {

  /** A value that may be missing: a nullable column, an absent map entry, an omitted argument. */
  datatype Option<+T> = None | Some(value: T)

  /** The outcome of a request: a value, or the exception it threw. */
  datatype Result<+R, +E> = Success(value: R) | Failure(error: E) {

    predicate IsFailure() {
      Failure?
    }

    function PropagateFailure<U>(): Result<U, E>
      requires Failure?
    {
      Failure(error)
    }

    function Extract(): R
      requires Success?
    {
      value
    }
  }

  function Min(a: nat, b: nat): nat {
    if a <= b then a else b
  }

  function Max(a: nat, b: nat): nat {
    if a >= b then a else b
  }

  function Lookup<K, V>(m: map<K, V>, k: K): Option<V> {
    if k in m then Some(m[k]) else None
  }

  predicate NoRepeats<T(==)>(xs: seq<T>) {
    forall i, j :: 0 <= i < j < |xs| ==> xs[i] != xs[j]
  }

  /** `n` times the same. */
  function Repeat<T>(x: T, n: nat): seq<T> {
    seq(n, _ => x)
  }
}
