/** Values that may be missing, results that may be errors, and two facts about finite sets. */
module Wrappers {

  datatype Option<+T> = None | Some(value: T)

  datatype Result<+T, +E> = Ok(value: T) | Err(error: E)

  /** An id that is not taken. */
  lemma Unused(ids: set<nat>) returns (id: nat)
    ensures id !in ids
  {
    id := 0;
    var rest := ids;
    while exists i :: i in rest && i >= id
      invariant rest <= ids
      invariant forall i :: i in ids && i !in rest ==> i < id
      decreases rest
    {
      var i :| i in rest && i >= id;
      rest := rest - {i};
      id := i + 1;
    }
  }

  lemma SubsetSize<T>(a: set<T>, b: set<T>)
    requires a <= b
    ensures |a| <= |b|
  {
    assert b == a + (b - a);
  }

  /** What is left of `writes` that succeed before the first one fails after `n` of them, unless one of these failed. */
  function Spent(writes: nat, n: nat): Option<nat> {
    if writes >= n then Some(writes - n) else None
  }
}
