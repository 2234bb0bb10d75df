// A collection of solution plan units with constant-time lookup by model plan
// unit and swap-with-last removal (solution_plan_unit_collection.go). A unit
// is known by the index of its model plan unit, given by `key`.
module SolutionPlanUnitCollection {
  import opened Wrappers

  /** No two units share a key. */
  predicate DistinctKeys<T>(units: seq<T>, key: T -> int)
  {
    forall i, j :: 0 <= i < j < |units| ==> key(units[i]) != key(units[j])
  }

  /** The map from keys to positions indexes the units exactly. */
  predicate Indexed<T>(units: seq<T>, indices: map<int, int>, key: T -> int)
  {
    (forall k :: k in indices ==> 0 <= indices[k] < |units| && key(units[indices[k]]) == k) &&
    (forall i :: 0 <= i < |units| ==> key(units[i]) in indices && indices[key(units[i])] == i)
  }

  lemma IndexedAt<T>(units: seq<T>, indices: map<int, int>, key: T -> int, k: int)
    requires Indexed(units, indices, key) && k in indices
    ensures 0 <= indices[k] < |units| && key(units[indices[k]]) == k
  {
  }

  lemma IndexedDistinct<T>(units: seq<T>, indices: map<int, int>, key: T -> int)
    requires Indexed(units, indices, key)
    ensures DistinctKeys(units, key)
  {
  }

  /** add (solution_plan_unit_collection.go:120-126): a unit whose key is known is ignored, otherwise it is appended. */
  function AddTo<T>(units: seq<T>, indices: map<int, int>, key: T -> int, u: T): (seq<T>, map<int, int>)
  {
    if key(u) in indices then (units, indices)
    else (units + [u], indices[key(u) := |units|])
  }

  /**
   * remove (solution_plan_unit_collection.go:128-140): the last unit moves into
   * the slot of the removed one and the sequence shrinks by one; an unknown
   * key is ignored.
   */
  function RemoveFrom<T>(units: seq<T>, indices: map<int, int>, key: T -> int, u: T): (seq<T>, map<int, int>)
    requires Indexed(units, indices, key)
  {
    if key(u) !in indices then (units, indices)
    else
      IndexedAt(units, indices, key, key(u));
      var index := indices[key(u)];
      var last := units[|units| - 1];
      ((units[index := last])[..|units| - 1], (indices[key(last) := index]) - {key(u)})
  }

  /** Adding keeps the index exact; a new unit goes at the end and the size grows by one. */
  lemma AddIndexed<T>(units: seq<T>, indices: map<int, int>, key: T -> int, u: T)
    requires Indexed(units, indices, key)
    ensures var (us, ix) := AddTo(units, indices, key, u);
      Indexed(us, ix, key) &&
      (key(u) in indices ==> us == units) &&
      (key(u) !in indices ==> us == units + [u] && |us| == |units| + 1) &&
      key(u) in ix
  {
  }

  /**
   * Removing keeps the index exact, drops the key, and removes exactly the
   * unit stored under it: the other units stay, as a multiset.
   */
  lemma RemoveIndexed<T>(units: seq<T>, indices: map<int, int>, key: T -> int, u: T)
    requires Indexed(units, indices, key)
    ensures key(u) in indices ==> 0 <= indices[key(u)] < |units|
    ensures var (us, ix) := RemoveFrom(units, indices, key, u);
      Indexed(us, ix, key) && key(u) !in ix &&
      (key(u) !in indices ==> us == units) &&
      (key(u) in indices ==>
        |us| == |units| - 1 && multiset(us) == multiset(units) - multiset{units[indices[key(u)]]})
  {
    if key(u) in indices {
      var index := indices[key(u)];
      assert 0 <= index < |units| && key(units[index]) == key(u);
      var n := |units| - 1;
      var last := units[n];
      var us := (units[index := last])[..n];
      var ix := (indices[key(last) := index]) - {key(u)};
      IndexedDistinct(units, indices, key);
      forall i | 0 <= i < |us| ensures key(us[i]) in ix && ix[key(us[i])] == i {
        if i == index {
          assert us[i] == last;
        } else {
          assert us[i] == units[i];
          assert key(units[i]) != key(last);
        }
      }
      forall k | k in ix ensures 0 <= ix[k] < |us| && key(us[ix[k]]) == k {
        if k == key(last) {
          assert ix[k] == index;
        }
      }
      MultisetAfterSwap(units, index);
    }
  }

  /** Overwriting slot i with the last element and dropping the last one removes the element at i. */
  lemma MultisetAfterSwap<T>(s: seq<T>, i: nat)
    requires i < |s|
    ensures multiset((s[i := s[|s| - 1]])[..|s| - 1]) == multiset(s) - multiset{s[i]}
  {
    var n := |s| - 1;
    var t := s[i := s[n]];
    assert s == s[..n] + [s[n]];
    assert t == t[..n] + [s[n]];
    assert multiset(t) == multiset(s) - multiset{s[i]} + multiset{s[n]};
    assert multiset(t) == multiset(t[..n]) + multiset{s[n]};
  }

  /** Removing a unit right after adding it, when its key was unknown, restores the collection. */
  lemma AddThenRemove<T>(units: seq<T>, indices: map<int, int>, key: T -> int, u: T)
    requires Indexed(units, indices, key) && key(u) !in indices
    ensures var (us, ix) := AddTo(units, indices, key, u);
      Indexed(us, ix, key) && RemoveFrom(us, ix, key, u) == (units, indices)
  {
    var (us, ix) := AddTo(units, indices, key, u);
    AddIndexed(units, indices, key, u);
    assert us[|units| := u][..|units|] == units;
    assert (ix[key(u) := |units|]) - {key(u)} == indices;
  }

  class Collection<T(==)> {
    /** The model plan unit index of a unit. */
    const key: T -> int
    var units: seq<T>
    var indices: map<int, int>

    predicate Valid()
      reads this
    {
      Indexed(units, indices, key)
    }

    /**
     * NewSolutionPlanUnitCollection (solution_plan_unit_collection.go:58-73):
     * a copy of the units, each indexed by its key in order, so that a later
     * unit with a repeated key wins the index.
     */
    constructor (key: T -> int, planUnits: seq<T>)
      ensures this.key == key && units == planUnits
      ensures forall k :: k in indices <==> exists i :: 0 <= i < |planUnits| && key(planUnits[i]) == k
      ensures forall k :: k in indices ==> 0 <= indices[k] < |planUnits| && key(planUnits[indices[k]]) == k
      ensures DistinctKeys(planUnits, key) ==> Valid()
    {
      this.key := key;
      units := planUnits;
      var m: map<int, int> := map[];
      var i := 0;
      while i < |planUnits|
        invariant 0 <= i <= |planUnits|
        invariant forall k :: k in m <==> exists j :: 0 <= j < i && key(planUnits[j]) == k
        invariant forall k :: k in m ==> 0 <= m[k] < i && key(planUnits[m[k]]) == k
        invariant DistinctKeys(planUnits, key) ==> forall j :: 0 <= j < i ==> m[key(planUnits[j])] == j
      {
        m := m[key(planUnits[i]) := i];
        i := i + 1;
      }
      indices := m;
    }

    /** Size: the number of units. */
    function Size(): (r: nat)
      reads this
      requires Valid()
      ensures r == |indices|
    {
      KeysCounted(units, indices, key);
      |units|
    }

    /** SolutionPlanUnits: the units; a Dafny sequence is a value, so the caller cannot alter the collection through it. */
    function SolutionPlanUnits(): (r: seq<T>)
      reads this
      requires Valid()
      ensures multiset(r) == multiset(units) && |r| == Size()
    {
      units
    }

    /** SolutionPlanUnit: the unit stored for a model plan unit, or none when there is no such unit. */
    function SolutionPlanUnit(modelPlanUnit: int): (r: Option<T>)
      reads this
      requires Valid()
      ensures r.None? <==> forall u :: u in units ==> key(u) != modelPlanUnit
      ensures r.Some? ==> r.value in units && key(r.value) == modelPlanUnit
    {
      if modelPlanUnit in indices then Some(units[indices[modelPlanUnit]]) else None
    }

    method Add(u: T)
      requires Valid()
      modifies this
      ensures (units, indices) == AddTo(old(units), old(indices), key, u)
      ensures Valid()
    {
      AddIndexed(units, indices, key, u);
      if key(u) in indices {
        return;
      }
      indices := indices[key(u) := |units|];
      units := units + [u];
    }

    method Remove(u: T)
      requires Valid()
      modifies this
      ensures (units, indices) == RemoveFrom(old(units), old(indices), key, u)
      ensures Valid()
    {
      RemoveIndexed(units, indices, key, u);
      if key(u) !in indices {
        return;
      }
      var index := indices[key(u)];
      assert 0 <= index < |units| && key(units[index]) == key(u);
      var lastIndex := |units| - 1;
      var lastElement := units[lastIndex];
      units := units[index := lastElement];
      indices := indices[key(lastElement) := index];
      indices := indices - {key(u)};
      units := units[..lastIndex];
    }
  }

  /** In an exact index there are as many keys as units. */
  lemma {:induction false} KeysCounted<T>(units: seq<T>, indices: map<int, int>, key: T -> int)
    requires Indexed(units, indices, key)
    ensures |indices| == |units|
    decreases |units|
  {
    forall k | k in indices ensures k in (set i | 0 <= i < |units| :: key(units[i])) {
      IndexedAt(units, indices, key, k);
    }
    if |units| > 0 {
      var n := |units| - 1;
      var last := key(units[n]);
      var rest := indices - {last};
      IndexedDistinct(units, indices, key);
      forall k | k in rest ensures 0 <= rest[k] < n && key(units[..n][rest[k]]) == k {
        assert indices[k] != n;
      }
      assert Indexed(units[..n], rest, key);
      KeysCounted(units[..n], rest, key);
      assert indices.Keys == rest.Keys + {last};
    }
  }
}
