// Picking an element of a set that is not empty.
module Sets {
  /** A set that is not empty has an element. */
  lemma Inhabited<T>(s: set<T>)
    ensures s != {} ==> exists x :: x in s
  {
    if forall x :: x !in s {
      assert s == {};
    }
  }

  /** Inhabited for sets of integers, whose elements the verifier sees unboxed. */
  lemma InhabitedInt(s: set<int>)
    ensures s != {} ==> exists x :: x in s
  {
    if forall x :: x !in s {
      assert s == {};
    }
  }
}
