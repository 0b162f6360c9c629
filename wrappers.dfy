/**
 * Option values for the places where the Java code returns or stores null,
 * and Access values for calls that return or throw a run-time exception.
 */
module Wrappers {
  datatype Option<T> = None | Some(value: T)
  {
    predicate IsSome() { this.Some? }
  }

  /** A call's result, or the unchecked exception it throws (a null dereference, an index out of bounds, a division by zero). */
  datatype Access<T> = Value(value: T) | Thrown
}
