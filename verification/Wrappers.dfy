/** Values that may be absent: the nullable columns and pointers of the source. */
module Wrappers {

  datatype Option<+T> = None | Some(value: T)

  // ---------------------------------------------------------------- small facts shared by several proofs

  /** One more visited, one fewer left. */
  lemma FewerLeft<T>(all: set<T>, visited: set<T>, x: T)
    requires x in all && x !in visited
    ensures |all - (visited + {x})| < |all - visited|
  {
    assert all - visited == (all - (visited + {x})) + {x};
  }

  lemma ProductOrder(a: int, b: int, c: nat)
    ensures a <= b ==> a * c <= b * c
  {
  }
}
