/** Types every component of the model shares. */
module Prelude {

  /** backend/core/config.py:27 */
  const MAX_VMS_PER_USER := 2

  datatype Option<+T> = None | Some(value: T)

  /** What one call to an external system did and what its caller learnt.
      - Done: it took effect and the caller was told so.
      - Refused: it had no effect and the caller saw an error.
      - Lost: it took effect, but the reply never arrived, so the caller saw an error. */
  datatype Call = Done | Refused | Lost {
    predicate Effective() { this != Refused }
  }

  lemma SubsetCount<T>(a: set<T>, b: set<T>)
    requires a <= b
    ensures |a| <= |b|
  {
    assert b == a + (b - a);
  }

  lemma DisjointMeans<T>(a: set<T>, b: set<T>)
    ensures a !! b <==> a * b == {}
  {
    assert forall x :: x in a && x in b <==> x in a * b;
  }
}
