// The graphs of model_directed_acyclic_graph_test.go, on graph states.
module DirectedAcyclicGraphTest {
  import opened Wrappers
  import opened Reachability
  import opened DirectedAcyclicGraph

  /** The stop indices climb along every edge, so the edges close no cycle and addArc records the arc. */
  lemma Climbing(g: Graph, o: int, d: int, isDirect: bool)
    requires forall e :: e in g.adjacency ==> e.0 < e.1
    requires o < d && !isDirect
    ensures AddArcTo(g, o, d, isDirect) == (Recorded(g, o, d, isDirect), Pass)
    ensures forall e :: e in Recorded(g, o, d, isDirect).adjacency ==> e.0 < e.1
  {
    RankedIsAcyclic(g.adjacency + [(o, d)], x => x);
    CyclicIff(g.adjacency + [(o, d)]);
    AddArcRecords(g, o, d, isDirect);
  }

  /** TestNewArcCyclic1: arcs 1 -> 2, 1 -> 3 and 3 -> 4 are recorded, then 4 -> 1 closes a cycle and is refused. */
  lemma NewArcCyclic()
    ensures var g1 := AddArcTo(EmptyGraph, 1, 2, false);
      var g2 := AddArcTo(g1.0, 1, 3, false);
      var g3 := AddArcTo(g2.0, 3, 4, false);
      g1.1 == Pass && g2.1 == Pass && g3.1 == Pass &&
      g3.0.arcs == [Arc(1, 2, false), Arc(1, 3, false), Arc(3, 4, false)] &&
      AddArcTo(g3.0, 4, 1, false).1 == Fail(WouldCreateCycle) &&
      AddArcTo(g3.0, 4, 1, false).0.arcs == g3.0.arcs
  {
    Climbing(EmptyGraph, 1, 2, false);
    var g1 := Recorded(EmptyGraph, 1, 2, false);
    Climbing(g1, 1, 3, false);
    var g2 := Recorded(g1, 1, 3, false);
    Climbing(g2, 3, 4, false);
    var g3 := Recorded(g2, 3, 4, false);
    var edges := g3.adjacency + [(4, 1)];
    assert edges == [(1, 2), (1, 3), (3, 4), (4, 1)];
    assert Path(edges, [1, 3, 4, 1]);
    CyclicIff(edges);
    CycleRefused(g3, 4, 1, false);
  }

  /** TestNewArcDuplicate: the same arc added twice succeeds both times. */
  lemma NewArcDuplicate()
    ensures var g1 := AddArcTo(EmptyGraph, 1, 2, false);
      g1.1 == Pass && AddArcTo(g1.0, 1, 2, false).1 == Pass
  {
    Climbing(EmptyGraph, 1, 2, false);
    var g1 := Recorded(EmptyGraph, 1, 2, false);
    Climbing(g1, 1, 2, false);
  }

  /** TestIsAllowed: with arcs 1 -> 2 and 2 -> 3, the sequences 1, 2 and 1, 3 are allowed. */
  lemma IsAllowedPlainForward()
    ensures Allowed([Arc(1, 2, false), Arc(2, 3, false)], [1, 2])
    ensures Allowed([Arc(1, 2, false), Arc(2, 3, false)], [1, 3])
  {
    var arcs := [Arc(1, 2, false), Arc(2, 3, false)];
    assert Edges(arcs) == [(1, 2), (2, 3)];
    RankedIsAcyclic(Edges(arcs) + Pairs([1, 2]), x => x);
    RankedIsAcyclic(Edges(arcs) + Pairs([1, 3]), x => x);
  }

  /** TestIsAllowed: the reversed sequences 2, 1 and 3, 1 close a cycle with the arcs. */
  lemma IsAllowedPlainBackward()
    ensures !Allowed([Arc(1, 2, false), Arc(2, 3, false)], [2, 1])
    ensures !Allowed([Arc(1, 2, false), Arc(2, 3, false)], [3, 1])
  {
    var arcs := [Arc(1, 2, false), Arc(2, 3, false)];
    assert Edges(arcs) + Pairs([2, 1]) == [(1, 2), (2, 3), (2, 1)];
    TwoCycle(Edges(arcs) + Pairs([2, 1]), 1, 2);
    assert Edges(arcs) + Pairs([3, 1]) == [(1, 2), (2, 3), (3, 1)];
    assert Path(Edges(arcs) + Pairs([3, 1]), [3, 1, 2, 3]);
  }

  /** TestIsAllowedDirectArcs: with direct arcs 1 -> 2 and 2 -> 3, the sequence 1, 2 is allowed. */
  lemma IsAllowedDirect()
    ensures Allowed([Arc(1, 2, true), Arc(2, 3, true)], [1, 2])
  {
    var arcs := [Arc(1, 2, true), Arc(2, 3, true)];
    assert Edges(arcs) == [(1, 2), (2, 3)];
    RankedIsAcyclic(Edges(arcs) + Pairs([1, 2]), x => x);
  }

  /** TestIsAllowedDirectArcs: 2, 1 and 1, 3 break a direct arc, and 3, 1 closes a cycle. */
  lemma IsAllowedDirectRejects()
    ensures !Allowed([Arc(1, 2, true), Arc(2, 3, true)], [2, 1])
    ensures !Allowed([Arc(1, 2, true), Arc(2, 3, true)], [1, 3])
    ensures !Allowed([Arc(1, 2, true), Arc(2, 3, true)], [3, 1])
  {
    var arcs := [Arc(1, 2, true), Arc(2, 3, true)];
    DirectArcForcesSuccessor(arcs, [2, 1], 0, arcs[1]);
    DirectArcForcesSuccessor(arcs, [1, 3], 0, arcs[0]);
    assert Edges(arcs) + Pairs([3, 1]) == [(1, 2), (2, 3), (3, 1)];
    assert Path(Edges(arcs) + Pairs([3, 1]), [3, 1, 2, 3]);
  }

  /** TestIsAllowedDirectArcsThreeStops: direct arcs 1 -> 2 -> 3 -> 4 allow 1, 2, 3. */
  lemma IsAllowedDirectThree()
    ensures Allowed([Arc(1, 2, true), Arc(2, 3, true), Arc(3, 4, true)], [1, 2, 3])
  {
    var arcs := [Arc(1, 2, true), Arc(2, 3, true), Arc(3, 4, true)];
    assert Edges(arcs) == [(1, 2), (2, 3), (3, 4)];
    RankedIsAcyclic(Edges(arcs) + Pairs([1, 2, 3]), x => x);
  }

  /** TestIsAllowedDirectArcsThreeStops: each shuffle of 1, 2, 3 breaks a direct arc in its first step. */
  lemma IsAllowedDirectThreeShuffled()
    ensures !Allowed([Arc(1, 2, true), Arc(2, 3, true), Arc(3, 4, true)], [2, 1, 3])
    ensures !Allowed([Arc(1, 2, true), Arc(2, 3, true), Arc(3, 4, true)], [1, 3, 2])
    ensures !Allowed([Arc(1, 2, true), Arc(2, 3, true), Arc(3, 4, true)], [3, 1, 2])
  {
    var arcs := [Arc(1, 2, true), Arc(2, 3, true), Arc(3, 4, true)];
    DirectArcForcesSuccessor(arcs, [2, 1, 3], 0, arcs[1]);
    DirectArcForcesSuccessor(arcs, [1, 3, 2], 0, arcs[0]);
    DirectArcForcesSuccessor(arcs, [3, 1, 2], 0, arcs[2]);
  }

  /**
   * A plain arc 1 -> 2 and then a direct arc 1 -> 3 are both recorded, in
   * that order; the step 1 -> 2 breaks the direct arc, so 1, 2 is not
   * allowed, yet the scan as written stops at the plain arc and counts the
   * step as covered.
   */
  lemma PlainBeforeDirect()
    ensures var g1 := AddArcTo(EmptyGraph, 1, 2, false);
      var g2 := AddArcTo(g1.0, 1, 3, true);
      g1.1 == Pass && g2.1 == Pass && g2.0.arcs == [Arc(1, 2, false), Arc(1, 3, true)] &&
      ScanAsWritten(g2.0.arcs, 1, 2, 0) == Covered && !Allowed(g2.0.arcs, [1, 2])
  {
    Climbing(EmptyGraph, 1, 2, false);
    var g1 := Recorded(EmptyGraph, 1, 2, false);
    RankedIsAcyclic(g1.adjacency + [(1, 3)], x => x);
    CyclicIff(g1.adjacency + [(1, 3)]);
    AddArcRecords(g1, 1, 3, true);
    var arcs := [Arc(1, 2, false), Arc(1, 3, true)];
    ScanAsWrittenDependsOnArcOrder();
    DirectArcForcesSuccessor(arcs, [1, 2], 0, arcs[1]);
  }
}
