/** Small definitions shared by the other modules. */
module Wrappers {

  /** Optional values, used for the timer handle and for values the host may leave undefined. */
  datatype Option<+T> = None | Some(value: T)

  /** No element occurs twice: the call log of a closure, the listeners of an element. */
  ghost predicate NoDup<T>(s: seq<T>) {
    forall i, j :: 0 <= i < j < |s| ==> s[i] != s[j]
  }
}
