/** Result types and visiting orders, shared by the modules of the model. */
module Wrappers {

  datatype Option<+T> = None | Some(value: T)

  datatype Result<+T, +E> = Success(value: T) | Failure(error: E)

  ghost predicate Distinct<T(!new)>(order: seq<T>) {
    forall i, j | 0 <= i < j < |order| :: order[i] != order[j]
  }

  /** Visits each element of a set once. */
  ghost predicate Enumerates<T(!new)>(order: seq<T>, s: set<T>) {
    Distinct(order) && forall x :: x in order <==> x in s
  }
}
