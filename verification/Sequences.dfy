/** What sequences hold, order and repetition aside. */
module Sequences {

  function Elements<T>(q: seq<T>): set<T> {
    set x | x in q
  }

  ghost predicate NoDuplicates<T>(q: seq<T>) {
    forall i, j | 0 <= i < j < |q| :: q[i] != q[j]
  }
}
