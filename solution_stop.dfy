// The doubly-linked stop lists of a solution (solution_stop.go): for every
// solution stop the index of the next and of the previous stop on its
// vehicle, and the vehicle it is on. A stop that is not planned links to
// itself both ways.
module SolutionStop {

  /** The three index arrays of the solution, as values. */
  datatype Links = Links(next: seq<int>, previous: seq<int>, inVehicle: seq<int>)

  /** Three arrays over the same stops, every link pointing at one of them. */
  predicate WellFormed(s: Links)
  {
    |s.previous| == |s.next| && |s.inVehicle| == |s.next| &&
    (forall i :: 0 <= i < |s.next| ==> 0 <= s.next[i] < |s.next|) &&
    (forall i :: 0 <= i < |s.previous| ==> 0 <= s.previous[i] < |s.next|)
  }

  /** Every link has its partner back: the lists are consistent doubly-linked chains. */
  predicate Linked(s: Links)
    requires WellFormed(s)
  {
    (forall i :: 0 <= i < |s.next| && s.next[i] != i ==> s.previous[s.next[i]] == i) &&
    (forall i :: 0 <= i < |s.previous| && s.previous[i] != i ==> s.next[s.previous[i]] == i)
  }

  predicate Stop(s: Links, v: int)
  {
    0 <= v < |s.next|
  }

  /** IsPlanned (solution_stop.go:132-134): the next and the previous stop differ. */
  predicate IsPlanned(s: Links, v: int)
    requires WellFormed(s) && Stop(s, v)
  {
    s.next[v] != s.previous[v]
  }

  /** IsFirst (solution_stop.go:323-326): the stop is its own previous stop but not its own next one. */
  predicate IsFirst(s: Links, v: int)
    requires WellFormed(s) && Stop(s, v)
  {
    s.previous[v] == v && s.next[v] != v
  }

  /** IsLast (solution_stop.go:317-320): the mirror of IsFirst. */
  predicate IsLast(s: Links, v: int)
    requires WellFormed(s) && Stop(s, v)
  {
    s.next[v] == v && s.previous[v] != v
  }

  /** The first and the last stop of a vehicle are planned, and no stop is both. */
  lemma FirstLastPlanned(s: Links, v: int)
    requires WellFormed(s) && Stop(s, v)
    ensures IsFirst(s, v) ==> IsPlanned(s, v) && !IsLast(s, v)
    ensures IsLast(s, v) ==> IsPlanned(s, v) && !IsFirst(s, v)
  {
  }

  /**
   * detach (solution_stop.go:347-356), the writes in their order: the
   * neighbours are joined, the stop links to itself and is on no vehicle.
   */
  function Detached(s: Links, v: int): (r: Links)
    requires WellFormed(s) && Stop(s, v)
    ensures WellFormed(r)
  {
    var p, n := s.previous[v], s.next[v];
    var next := s.next[p := n];
    var previous := s.previous[n := p];
    Links(next[v := v], previous[v := v], s.inVehicle[v := -1])
  }

  /**
   * attach (solution_stop.go:358-368), the writes in their order: the stop
   * goes between `after` and the stop that followed it, on `after`'s vehicle.
   */
  function Attached(s: Links, v: int, after: int): (r: Links)
    requires WellFormed(s) && Stop(s, v) && Stop(s, after)
    ensures WellFormed(r)
  {
    var previous := s.previous[v := after];
    var next := s.next[v := s.next[after]];
    var previous2 := previous[next[after] := v];
    Links(next[after := v], previous2, s.inVehicle[v := s.inVehicle[after]])
  }

  /** A detached stop is unplanned, on no vehicle, and neither first nor last. */
  lemma DetachedUnplanned(s: Links, v: int)
    requires WellFormed(s) && Stop(s, v)
    ensures var r := Detached(s, v);
      r.next[v] == v && r.previous[v] == v && r.inVehicle[v] == -1 &&
      !IsPlanned(r, v) && !IsFirst(r, v) && !IsLast(r, v)
  {
  }

  /** Detaching a stop from the middle of a chain joins its two neighbours and touches no other link. */
  lemma DetachJoins(s: Links, v: int)
    requires WellFormed(s) && Stop(s, v)
    requires s.previous[v] != v && s.next[v] != v
    ensures var r := Detached(s, v); var p, n := s.previous[v], s.next[v];
      r.next[p] == n && r.previous[n] == p &&
      (forall i :: 0 <= i < |s.next| && i != p && i != v ==> r.next[i] == s.next[i]) &&
      (forall i :: 0 <= i < |s.next| && i != n && i != v ==> r.previous[i] == s.previous[i])
  {
  }

  /** Attaching a stop puts it right after `after` and right before `after`'s old next stop, on `after`'s vehicle. */
  lemma AttachSplices(s: Links, v: int, after: int)
    requires WellFormed(s) && Stop(s, v) && Stop(s, after)
    requires v != after && s.next[after] != v
    ensures var r := Attached(s, v, after); var n := s.next[after];
      r.previous[v] == after && r.next[v] == n && r.next[after] == v && r.previous[n] == v &&
      r.inVehicle[v] == s.inVehicle[after] &&
      (forall i :: 0 <= i < |s.next| && i != after && i != v ==> r.next[i] == s.next[i]) &&
      (forall i :: 0 <= i < |s.next| && i != n && i != v ==> r.previous[i] == s.previous[i])
  {
  }

  /**
   * Detaching an unplanned stop right after attaching it after a stop that
   * is not the last one restores every link; the stop ends on no vehicle.
   */
  lemma AttachThenDetach(s: Links, v: int, after: int)
    requires WellFormed(s) && Linked(s) && Stop(s, v) && Stop(s, after)
    requires v != after && s.next[v] == v && s.previous[v] == v && s.next[after] != after
    ensures Detached(Attached(s, v, after), v) == s.(inVehicle := s.inVehicle[v := -1])
  {
    var t := Attached(s, v, after);
    var n := s.next[after];
    assert s.previous[n] == after;
    var r := Detached(t, v);
    assert r.next == s.next;
    assert r.previous == s.previous;
  }

  /** Attaching a stop back after its old previous stop undoes a detach from a consistent chain. */
  lemma DetachThenAttach(s: Links, v: int)
    requires WellFormed(s) && Linked(s) && Stop(s, v)
    requires s.previous[v] != v && s.next[v] != v && s.previous[v] != s.next[v]
    ensures var p := s.previous[v];
      Attached(Detached(s, v), v, p) == s.(inVehicle := s.inVehicle[v := s.inVehicle[p]])
  {
    var p, n := s.previous[v], s.next[v];
    var t := Detached(s, v);
    assert t.next[p] == n;
    var r := Attached(t, v, p);
    assert r.next == s.next;
    assert r.previous == s.previous;
  }

  /** Detaching a planned stop from the middle of a chain keeps the chains consistent. */
  lemma DetachKeepsLinked(s: Links, v: int)
    requires WellFormed(s) && Linked(s) && Stop(s, v)
    requires s.previous[v] != v && s.next[v] != v
    ensures Linked(Detached(s, v))
  {
    DetachJoins(s, v);
  }

  /** Attaching an unplanned stop after a stop that is not the last one keeps the chains consistent. */
  lemma AttachKeepsLinked(s: Links, v: int, after: int)
    requires WellFormed(s) && Linked(s) && Stop(s, v) && Stop(s, after)
    requires s.next[v] == v && s.previous[v] == v && v != after && s.next[after] != after
    ensures Linked(Attached(s, v, after))
  {
    AttachSplices(s, v, after);
  }

  /** The solution's arrays; detach and attach overwrite them in place. */
  class Solution {
    const next: array<int>
    const previous: array<int>
    const inVehicle: array<int>

    function State(): Links
      reads next, previous, inVehicle
    {
      Links(next[..], previous[..], inVehicle[..])
    }

    predicate Valid()
      reads this, next, previous, inVehicle
    {
      next != previous && next != inVehicle && previous != inVehicle && WellFormed(State())
    }

    constructor (next: array<int>, previous: array<int>, inVehicle: array<int>)
      requires next != previous && next != inVehicle && previous != inVehicle
      requires WellFormed(Links(next[..], previous[..], inVehicle[..]))
      ensures this.next == next && this.previous == previous && this.inVehicle == inVehicle && Valid()
    {
      this.next := next;
      this.previous := previous;
      this.inVehicle := inVehicle;
    }

    method Detach(v: int)
      requires Valid() && Stop(State(), v)
      modifies next, previous, inVehicle
      ensures Valid() && State() == Detached(old(State()), v)
    {
      var previousIndex := previous[v];
      var nextIndex := next[v];
      next[previousIndex] := nextIndex;
      previous[nextIndex] := previousIndex;
      next[v] := v;
      previous[v] := v;
      inVehicle[v] := -1;
    }

    method Attach(v: int, after: int) returns (r: int)
      requires Valid() && Stop(State(), v) && Stop(State(), after)
      modifies next, previous, inVehicle
      ensures Valid() && State() == Attached(old(State()), v, after) && r == after
    {
      previous[v] := after;
      next[v] := next[after];
      previous[next[after]] := v;
      next[after] := v;
      inVehicle[v] := inVehicle[after];
      return after;
    }
  }
}
