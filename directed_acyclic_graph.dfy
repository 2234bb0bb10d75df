// The precedence graph of a plan unit (model_directed_acyclic_graph.go):
// arcs between stops, direct arcs, cycle refusal and the admissibility of a
// sequence of stops. Stops are identified by their index.
module DirectedAcyclicGraph {
  import opened Wrappers
  import opened Reachability
  import opened ModelStop

  datatype Arc = Arc(origin: int, destination: int, isDirect: bool)

  datatype DagError =
    | NilOrigin
    | NilDestination
    | DagLocked
    | OriginHasDirectArc(destination: int)
    | DestinationHasDirectArc(origin: int)
    | WouldCreateCycle
    | StopsNotUnique

  function Edges(arcs: seq<Arc>): (r: seq<Edge>)
    ensures |r| == |arcs|
    ensures forall i :: 0 <= i < |arcs| ==> r[i] == (arcs[i].origin, arcs[i].destination)
  {
    seq(|arcs|, i requires 0 <= i < |arcs| => (arcs[i].origin, arcs[i].destination))
  }

  /** The arcs leaving o, in the order they were added. */
  function ArcsFrom(arcs: seq<Arc>, o: int): (r: seq<Arc>)
    ensures forall a :: a in r <==> a in arcs && a.origin == o
  {
    if |arcs| == 0 then []
    else ArcsFrom(arcs[..|arcs| - 1], o) + (if arcs[|arcs| - 1].origin == o then [arcs[|arcs| - 1]] else [])
  }

  lemma {:induction false} ArcsFromNone(arcs: seq<Arc>, o: int)
    requires forall a :: a in arcs ==> a.origin != o
    ensures ArcsFrom(arcs, o) == []
    decreases |arcs|
  {
    if |arcs| > 0 {
      assert arcs[|arcs| - 1] in arcs;
      ArcsFromNone(arcs[..|arcs| - 1], o);
    }
  }

  lemma ArcsFromAppend(arcs: seq<Arc>, a: Arc, o: int)
    ensures ArcsFrom(arcs + [a], o) == ArcsFrom(arcs, o) + (if a.origin == o then [a] else [])
  {
    assert (arcs + [a])[..|arcs|] == arcs;
  }

  /** Direct arcs: at most one leaves a stop and at most one enters a stop. */
  predicate DirectUnique(arcs: seq<Arc>)
  {
    forall i, j :: 0 <= i < j < |arcs| && arcs[i].isDirect && arcs[j].isDirect ==>
      arcs[i].origin != arcs[j].origin && arcs[i].destination != arcs[j].destination
  }

  /** A direct arc that the step from o to d breaks: o must be followed by another stop, or d preceded by another. */
  predicate Violates(a: Arc, o: int, d: int)
  {
    a.isDirect && ((a.origin == o && a.destination != d) || (a.destination == d && a.origin != o))
  }

  /** The consecutive pairs of a sequence. */
  function Pairs(ids: seq<int>): (r: seq<Edge>)
    ensures |r| == if |ids| < 2 then 0 else |ids| - 1
    ensures forall i :: 0 <= i < |r| ==> r[i] == (ids[i], ids[i + 1])
  {
    if |ids| < 2 then [] else seq(|ids| - 1, i requires 0 <= i < |ids| - 1 => (ids[i], ids[i + 1]))
  }

  /**
   * A sequence is admissible when no step breaks a direct arc and following
   * the sequence together with the arcs closes no cycle.
   */
  ghost predicate Allowed(arcs: seq<Arc>, ids: seq<int>)
  {
    (forall i, a :: 0 <= i < |ids| - 1 && a in arcs ==> !Violates(a, ids[i], ids[i + 1])) &&
    !HasCycle(Edges(arcs) + Pairs(ids))
  }

  function Indices(stops: seq<Stop>): (r: seq<int>)
    ensures |r| == |stops|
    ensures forall i :: 0 <= i < |stops| ==> r[i] == stops[i].index
  {
    seq(|stops|, i requires 0 <= i < |stops| => stops[i].index)
  }

  predicate DistinctIndices(stops: seq<Stop>)
  {
    forall i, j :: 0 <= i < j < |stops| ==> stops[i].index != stops[j].index
  }

  /** What the inner loop of IsAllowed decides for one step. */
  datatype Verdict = Reject | Covered | NewEdge

  /**
   * The inner loop of IsAllowed as written (model_directed_acyclic_graph.go:254-270):
   * the first arc that is broken rejects, the first arc equal to the step ends the scan.
   */
  function ScanAsWritten(arcs: seq<Arc>, o: int, d: int, k: nat): (r: Verdict)
    ensures r == Reject ==> exists a :: a in arcs && Violates(a, o, d)
    ensures r == Covered ==> exists a :: a in arcs && a.origin == o && a.destination == d
    decreases |arcs| - k
  {
    if k >= |arcs| then NewEdge
    else if Violates(arcs[k], o, d) then Reject
    else if arcs[k].origin == o && arcs[k].destination == d then Covered
    else ScanAsWritten(arcs, o, d, k + 1)
  }

  /** The scan with every arc consulted before a step counts as covered. */
  function Scan(arcs: seq<Arc>, o: int, d: int): (r: Verdict)
    ensures r == Reject <==> exists a :: a in arcs && Violates(a, o, d)
    ensures r == Covered <==>
      (forall a :: a in arcs ==> !Violates(a, o, d)) && exists a :: a in arcs && a.origin == o && a.destination == d
  {
    if exists a :: a in arcs && Violates(a, o, d) then Reject
    else if exists a :: a in arcs && a.origin == o && a.destination == d then Covered
    else NewEdge
  }

  /** When no arc is broken the scan as written decides as the corrected one. */
  lemma {:induction false} ScanAsWrittenAgrees(arcs: seq<Arc>, o: int, d: int, k: nat)
    requires k <= |arcs|
    requires forall a :: a in arcs ==> !Violates(a, o, d)
    ensures ScanAsWritten(arcs, o, d, k) == Covered <==>
      exists j :: k <= j < |arcs| && arcs[j].origin == o && arcs[j].destination == d
    decreases |arcs| - k
  {
    if k < |arcs| {
      if !(arcs[k].origin == o && arcs[k].destination == d) {
        ScanAsWrittenAgrees(arcs, o, d, k + 1);
      }
    }
  }

  /**
   * The scan as written lets a plain arc equal to the step hide a later
   * direct arc that the step breaks: with a plain arc 1 -> 2 added before a
   * direct arc 1 -> 3, the step 1 -> 2 counts as covered, while with the
   * two arcs added the other way round it is rejected.
   */
  lemma ScanAsWrittenDependsOnArcOrder()
    ensures ScanAsWritten([Arc(1, 2, false), Arc(1, 3, true)], 1, 2, 0) == Covered
    ensures ScanAsWritten([Arc(1, 3, true), Arc(1, 2, false)], 1, 2, 0) == Reject
    ensures Scan([Arc(1, 2, false), Arc(1, 3, true)], 1, 2) == Reject
  {
    assert Violates(Arc(1, 3, true), 1, 2);
    assert Arc(1, 3, true) in [Arc(1, 2, false), Arc(1, 3, true)];
  }

  /** The state of a graph: the fields of directedAcyclicGraphImpl. */
  datatype Graph = Graph(
    arcs: seq<Arc>,
    /** The adjacency lists, as the edges in the order they were added. */
    adjacency: seq<Edge>,
    outboundArcs: map<int, seq<Arc>>,
    outboundDirectArcs: map<int, Arc>,
    inboundDirectArcs: map<int, Arc>)

  const EmptyGraph := Graph([], [], map[], map[], map[])

  predicate OutboundIndexed(g: Graph)
  {
    (forall o :: o in g.outboundArcs ==> g.outboundArcs[o] == ArcsFrom(g.arcs, o)) &&
    (forall a :: a in g.arcs ==> a.origin in g.outboundArcs)
  }

  predicate DirectIndexed(g: Graph)
  {
    (forall o :: o in g.outboundDirectArcs ==>
      g.outboundDirectArcs[o] in g.arcs && g.outboundDirectArcs[o].isDirect && g.outboundDirectArcs[o].origin == o) &&
    (forall a :: a in g.arcs && a.isDirect ==> a.origin in g.outboundDirectArcs && g.outboundDirectArcs[a.origin] == a) &&
    (forall d :: d in g.inboundDirectArcs ==>
      g.inboundDirectArcs[d] in g.arcs && g.inboundDirectArcs[d].isDirect && g.inboundDirectArcs[d].destination == d) &&
    (forall a :: a in g.arcs && a.isDirect ==>
      a.destination in g.inboundDirectArcs && g.inboundDirectArcs[a.destination] == a)
  }

  /**
   * Every arc is an edge of the adjacency, the arcs form no cycle, direct
   * arcs never share an origin or a destination, and the lookup maps index
   * the arcs by origin and the direct arcs by both ends.
   */
  ghost predicate GraphValid(g: Graph)
  {
    Indexed(g) && !HasCycle(Edges(g.arcs))
  }

  /** Every part of GraphValid but the absence of cycles. */
  predicate Indexed(g: Graph)
  {
    (forall a :: a in g.arcs ==> (a.origin, a.destination) in g.adjacency) &&
    DirectUnique(g.arcs) && OutboundIndexed(g) && DirectIndexed(g)
  }

  lemma EmptyGraphValid()
    ensures GraphValid(EmptyGraph)
  {
    RankedIsAcyclic([], x => x);
  }

  /** The arcs of g leaving o. */
  function OutboundOf(g: Graph, o: int): seq<Arc>
  {
    if o in g.outboundArcs then g.outboundArcs[o] else []
  }

  /** In a valid graph the lookup by origin lists exactly the arcs leaving it, in order. */
  lemma OutboundOfMeaning(g: Graph, o: int)
    requires OutboundIndexed(g)
    ensures OutboundOf(g, o) == ArcsFrom(g.arcs, o)
  {
    if o !in g.outboundArcs {
      ArcsFromNone(g.arcs, o);
    }
  }

  /** addArc (model_directed_acyclic_graph.go:84-126) on a graph state: the new state and the outcome. */
  function AddArcTo(g: Graph, o: int, d: int, isDirect: bool): (Graph, Outcome<DagError>)
  {
    if isDirect && o in g.outboundDirectArcs then
      var existing := g.outboundDirectArcs[o];
      (g, if existing.destination != d then Fail(OriginHasDirectArc(existing.destination)) else Pass)
    else if isDirect && d in g.inboundDirectArcs then
      (g, Fail(DestinationHasDirectArc(g.inboundDirectArcs[d].origin)))
    else
      var adjacency := g.adjacency + [(o, d)];
      if Cyclic(adjacency) then (g.(adjacency := adjacency), Fail(WouldCreateCycle))
      else (Recorded(g, o, d, isDirect), Pass)
  }

  /** The graph after a recorded arc. */
  function Recorded(g: Graph, o: int, d: int, isDirect: bool): Graph
  {
    var arc := Arc(o, d, isDirect);
    Graph(
      g.arcs + [arc],
      g.adjacency + [(o, d)],
      g.outboundArcs[o := OutboundOf(g, o) + [arc]],
      if isDirect then g.outboundDirectArcs[o := arc] else g.outboundDirectArcs,
      if isDirect then g.inboundDirectArcs[d := arc] else g.inboundDirectArcs)
  }

  lemma RecordedOutbound(g: Graph, o: int, d: int, isDirect: bool)
    requires OutboundIndexed(g)
    ensures OutboundIndexed(Recorded(g, o, d, isDirect))
  {
    var h := Recorded(g, o, d, isDirect);
    OutboundOfMeaning(g, o);
    forall p | p in h.outboundArcs ensures h.outboundArcs[p] == ArcsFrom(h.arcs, p) {
      ArcsFromAppend(g.arcs, Arc(o, d, isDirect), p);
    }
  }

  lemma RecordedDirect(g: Graph, o: int, d: int, isDirect: bool)
    requires DirectUnique(g.arcs) && DirectIndexed(g)
    requires !isDirect || (o !in g.outboundDirectArcs && d !in g.inboundDirectArcs)
    ensures DirectIndexed(Recorded(g, o, d, isDirect)) && DirectUnique(Recorded(g, o, d, isDirect).arcs)
  {
    var h := Recorded(g, o, d, isDirect);
    assert h.arcs == g.arcs + [Arc(o, d, isDirect)];
    if isDirect {
      forall a | a in g.arcs && a.isDirect ensures a.origin != o && a.destination != d {
      }
    }
  }

  lemma RecordedAcyclic(g: Graph, o: int, d: int, isDirect: bool)
    requires (forall a :: a in g.arcs ==> (a.origin, a.destination) in g.adjacency) && !Cyclic(g.adjacency + [(o, d)])
    ensures !HasCycle(Edges(Recorded(g, o, d, isDirect).arcs))
    ensures forall a :: a in Recorded(g, o, d, isDirect).arcs ==> (a.origin, a.destination) in g.adjacency + [(o, d)]
  {
    var h := Recorded(g, o, d, isDirect);
    assert h.arcs == g.arcs + [Arc(o, d, isDirect)];
    CyclicIff(h.adjacency);
    HasCycleGrows(Edges(h.arcs), h.adjacency);
  }

  /** Recording an arc that addArc accepts keeps the graph valid. */
  lemma RecordedValid(g: Graph, o: int, d: int, isDirect: bool)
    requires GraphValid(g)
    requires !isDirect || (o !in g.outboundDirectArcs && d !in g.inboundDirectArcs)
    requires !Cyclic(g.adjacency + [(o, d)])
    ensures GraphValid(Recorded(g, o, d, isDirect))
  {
    RecordedOutbound(g, o, d, isDirect);
    RecordedDirect(g, o, d, isDirect);
    RecordedAcyclic(g, o, d, isDirect);
  }

  /** addArc keeps the graph valid, whatever its outcome. */
  lemma AddArcKeepsValid(g: Graph, o: int, d: int, isDirect: bool)
    requires GraphValid(g)
    ensures GraphValid(AddArcTo(g, o, d, isDirect).0)
  {
    if !(isDirect && (o in g.outboundDirectArcs || d in g.inboundDirectArcs)) && !Cyclic(g.adjacency + [(o, d)]) {
      assert AddArcTo(g, o, d, isDirect).0 == Recorded(g, o, d, isDirect);
      RecordedValid(g, o, d, isDirect);
    }
  }

  /** An arc whose edge closes a cycle with the adjacency is refused and not recorded. */
  lemma CycleRefused(g: Graph, o: int, d: int, isDirect: bool)
    requires !isDirect || (o !in g.outboundDirectArcs && d !in g.inboundDirectArcs)
    requires Cyclic(g.adjacency + [(o, d)])
    ensures AddArcTo(g, o, d, isDirect).1 == Fail(WouldCreateCycle)
    ensures AddArcTo(g, o, d, isDirect).0.arcs == g.arcs
    ensures AddArcTo(g, o, d, isDirect).0.outboundArcs == g.outboundArcs
  {
  }

  /**
   * Once the adjacency has a cycle no arc is recorded any more: the refused
   * edge stays behind. Every addition is refused, except a direct arc the
   * origin already has, which passes without a change.
   */
  lemma StuckOnceCyclic(g: Graph, o: int, d: int, isDirect: bool)
    requires Cyclic(g.adjacency)
    ensures AddArcTo(g, o, d, isDirect).0.arcs == g.arcs
    ensures Cyclic(AddArcTo(g, o, d, isDirect).0.adjacency)
    ensures AddArcTo(g, o, d, isDirect).1.Pass? <==>
              isDirect && o in g.outboundDirectArcs && g.outboundDirectArcs[o].destination == d
  {
    CyclicGrows(g.adjacency, g.adjacency + [(o, d)]);
  }

  /** Adding an arc that is already there succeeds (with an acyclic adjacency for a plain arc). */
  lemma ReAddSucceeds(g: Graph, a: Arc)
    requires Indexed(g) && a in g.arcs
    requires !a.isDirect ==> !Cyclic(g.adjacency)
    ensures AddArcTo(g, a.origin, a.destination, a.isDirect).1 == Pass
    ensures a.isDirect ==> AddArcTo(g, a.origin, a.destination, a.isDirect).0 == g
  {
    if !a.isDirect {
      assert (a.origin, a.destination) in g.adjacency;
      CyclicIff(g.adjacency);
      CyclicIff(g.adjacency + [(a.origin, a.destination)]);
      HasCycleSameEdges(g.adjacency, g.adjacency + [(a.origin, a.destination)]);
    }
  }

  /** A second direct arc out of a stop, to another stop, is refused and changes nothing. */
  lemma SecondDirectArcRefused(g: Graph, a: Arc, d: int)
    requires DirectIndexed(g) && a in g.arcs && a.isDirect && d != a.destination
    ensures AddArcTo(g, a.origin, d, true) == (g, Fail(OriginHasDirectArc(a.destination)))
  {
  }

  /** A second direct arc into a stop, from a stop without one, is refused and changes nothing. */
  lemma SecondInboundDirectArcRefused(g: Graph, a: Arc, o: int)
    requires DirectIndexed(g) && a in g.arcs && a.isDirect && o !in g.outboundDirectArcs
    ensures AddArcTo(g, o, a.destination, true) == (g, Fail(DestinationHasDirectArc(a.origin)))
  {
  }

  /** A successful addArc records exactly the new arc, at the end. */
  lemma AddArcRecords(g: Graph, o: int, d: int, isDirect: bool)
    requires !isDirect || (o !in g.outboundDirectArcs && d !in g.inboundDirectArcs)
    requires !Cyclic(g.adjacency + [(o, d)])
    ensures AddArcTo(g, o, d, isDirect) == (Recorded(g, o, d, isDirect), Pass)
    ensures AddArcTo(g, o, d, isDirect).0.arcs == g.arcs + [Arc(o, d, isDirect)]
    ensures AddArcTo(g, o, d, isDirect).0.adjacency == g.adjacency + [(o, d)]
    ensures OutboundOf(AddArcTo(g, o, d, isDirect).0, o) == OutboundOf(g, o) + [Arc(o, d, isDirect)]
    ensures isDirect ==> AddArcTo(g, o, d, isDirect).0.outboundDirectArcs[o] == Arc(o, d, isDirect)
  {
  }

  /** The graph built from arcs alone, one arc after another, as IsAllowed's copy is. */
  lemma RebuildNoConflict(arcs: seq<Arc>, c: Graph, k: nat)
    requires DirectUnique(arcs) && DirectIndexed(c) && k < |arcs| && c.arcs == arcs[..k]
    ensures arcs[k].isDirect ==>
      arcs[k].origin !in c.outboundDirectArcs && arcs[k].destination !in c.inboundDirectArcs
  {
    var a := arcs[k];
    forall j | 0 <= j < k && arcs[j].isDirect && a.isDirect
      ensures arcs[j].origin != a.origin && arcs[j].destination != a.destination
    {
    }
  }

  lemma RebuildAcyclic(arcs: seq<Arc>, k: nat)
    requires !HasCycle(Edges(arcs)) && k < |arcs|
    ensures Edges(arcs[..k]) + [(arcs[k].origin, arcs[k].destination)] == Edges(arcs[..k + 1])
    ensures !Cyclic(Edges(arcs[..k + 1]))
  {
    assert Edges(arcs[..k]) + [(arcs[k].origin, arcs[k].destination)] == Edges(arcs[..k + 1]);
    HasCycleGrows(Edges(arcs[..k + 1]), Edges(arcs));
    CyclicIff(Edges(arcs[..k + 1]));
  }

  /** Replaying the arcs of a valid graph into a copy never fails (IsAllowed's copy). */
  lemma RebuildStep(arcs: seq<Arc>, c: Graph, k: nat)
    requires DirectUnique(arcs) && !HasCycle(Edges(arcs)) && GraphValid(c) && k < |arcs|
    requires c.arcs == arcs[..k] && c.adjacency == Edges(arcs[..k])
    ensures var a := arcs[k];
      AddArcTo(c, a.origin, a.destination, a.isDirect) == (Recorded(c, a.origin, a.destination, a.isDirect), Pass)
    ensures var a := arcs[k]; var h := Recorded(c, a.origin, a.destination, a.isDirect);
      GraphValid(h) && h.arcs == arcs[..k + 1] && h.adjacency == Edges(arcs[..k + 1])
  {
    var a := arcs[k];
    RebuildNoConflict(arcs, c, k);
    RebuildAcyclic(arcs, k);
    AddArcRecords(c, a.origin, a.destination, a.isDirect);
    assert arcs[..k] + [a] == arcs[..k + 1];
    RecordedValid(c, a.origin, a.destination, a.isDirect);
  }

  class Dag {
    var arcs: seq<Arc>
    var adjacency: seq<Edge>
    var outboundArcs: map<int, seq<Arc>>
    var outboundDirectArcs: map<int, Arc>
    var inboundDirectArcs: map<int, Arc>

    function State(): Graph
      reads this
    {
      Graph(arcs, adjacency, outboundArcs, outboundDirectArcs, inboundDirectArcs)
    }

    ghost predicate Valid()
      reads this
    {
      GraphValid(State())
    }

    constructor ()
      ensures State() == EmptyGraph && Valid()
    {
      arcs := [];
      adjacency := [];
      outboundArcs := map[];
      outboundDirectArcs := map[];
      inboundDirectArcs := map[];
      new;
      EmptyGraphValid();
    }

    /** The arcs leaving o. */
    function OutboundArcs(o: int): seq<Arc>
      reads this
    {
      OutboundOf(State(), o)
    }

    /** There is a direct arc from o to d. */
    function HasDirectArc(o: int, d: int): (r: bool)
      reads this
      ensures Valid() ==> (r <==> Arc(o, d, true) in arcs)
    {
      o in outboundDirectArcs && outboundDirectArcs[o].destination == d
    }

    /** Whether the adjacency has a cycle (isCyclic). */
    function IsCyclic(): (r: bool)
      reads this
      ensures r <==> HasCycle(adjacency)
    {
      CyclicIff(adjacency);
      Cyclic(adjacency)
    }

    method AddEdge(u: int, v: int)
      modifies this
      ensures State() == old(State()).(adjacency := old(adjacency) + [(u, v)])
    {
      adjacency := adjacency + [(u, v)];
    }

    /** addArc, in place; AddArcKeepsValid says it keeps the graph valid. */
    method AddArcBetween(o: int, d: int, isDirect: bool) returns (r: Outcome<DagError>)
      modifies this
      ensures (State(), r) == AddArcTo(old(State()), o, d, isDirect)
    {
      ghost var g := State();
      if isDirect {
        if o in outboundDirectArcs {
          var existing := outboundDirectArcs[o];
          if existing.destination != d {
            return Fail(OriginHasDirectArc(existing.destination));
          }
          return Pass;
        }
        if d in inboundDirectArcs {
          return Fail(DestinationHasDirectArc(inboundDirectArcs[d].origin));
        }
      }
      var from := OutboundArcs(o);
      AddEdge(o, d);
      if IsCyclic() {
        CyclicIff(adjacency);
        assert AddArcTo(g, o, d, isDirect) == (g.(adjacency := adjacency), Fail(WouldCreateCycle));
        return Fail(WouldCreateCycle);
      }
      CyclicIff(adjacency);
      AddArcRecords(g, o, d, isDirect);
      var arc := Arc(o, d, isDirect);
      arcs := arcs + [arc];
      outboundArcs := outboundArcs[o := from + [arc]];
      if isDirect {
        outboundDirectArcs := outboundDirectArcs[o := arc];
        inboundDirectArcs := inboundDirectArcs[d := arc];
      }
      assert State() == Recorded(g, o, d, isDirect);
      return Pass;
    }

    /** AddArc: a nil stop or a locked model is refused, otherwise addArc of a plain arc. */
    method AddArc(origin: Stop?, destination: Stop?) returns (r: Outcome<DagError>)
      requires Valid()
      modifies this
      ensures Valid()
      ensures origin == null ==> r == Fail(NilOrigin) && unchanged(this)
      ensures origin != null && destination == null ==> r == Fail(NilDestination) && unchanged(this)
      ensures origin != null && destination != null && origin.model.isLocked ==> r == Fail(DagLocked) && unchanged(this)
      ensures origin != null && destination != null && !origin.model.isLocked ==>
        (State(), r) == AddArcTo(old(State()), origin.index, destination.index, false)
    {
      if origin == null {
        return Fail(NilOrigin);
      }
      if destination == null {
        return Fail(NilDestination);
      }
      if origin.model.isLocked {
        return Fail(DagLocked);
      }
      AddArcKeepsValid(State(), origin.index, destination.index, false);
      r := AddArcBetween(origin.index, destination.index, false);
    }

    /** AddDirectArc: as AddArc, for a direct arc. */
    method AddDirectArc(origin: Stop?, destination: Stop?) returns (r: Outcome<DagError>)
      requires Valid()
      modifies this
      ensures Valid()
      ensures origin == null ==> r == Fail(NilOrigin) && unchanged(this)
      ensures origin != null && destination == null ==> r == Fail(NilDestination) && unchanged(this)
      ensures origin != null && destination != null && origin.model.isLocked ==> r == Fail(DagLocked) && unchanged(this)
      ensures origin != null && destination != null && !origin.model.isLocked ==>
        (State(), r) == AddArcTo(old(State()), origin.index, destination.index, true)
    {
      if origin == null {
        return Fail(NilOrigin);
      }
      if destination == null {
        return Fail(NilDestination);
      }
      if origin.model.isLocked {
        return Fail(DagLocked);
      }
      AddArcKeepsValid(State(), origin.index, destination.index, true);
      r := AddArcBetween(origin.index, destination.index, true);
    }

    /** A fresh graph holding the same arcs, rebuilt arc by arc; it never fails on a valid graph. */
    method Rebuilt() returns (c: Dag)
      requires Valid()
      ensures fresh(c) && c.Valid() && c.arcs == arcs && c.adjacency == Edges(arcs)
    {
      c := new Dag();
      var k := 0;
      while k < |arcs|
        invariant 0 <= k <= |arcs|
        invariant fresh(c) && c.Valid()
        invariant c.arcs == arcs[..k] && c.adjacency == Edges(arcs[..k])
      {
        var a := arcs[k];
        RebuildStep(arcs, c.State(), k);
        AddArcKeepsValid(c.State(), a.origin, a.destination, a.isDirect);
        var added := c.AddArcBetween(a.origin, a.destination, a.isDirect);
        k := k + 1;
      }
      assert arcs[..k] == arcs;
    }

    /**
     * IsAllowed, with every arc consulted before a step counts as covered:
     * fewer than two stops are allowed, repeated stops are an error, and
     * otherwise the answer is Allowed. The graph itself is not changed.
     */
    method IsAllowed(stops: seq<Stop>) returns (r: Result<bool, DagError>)
      requires Valid()
      ensures |stops| < 2 ==> r == Ok(true)
      ensures |stops| >= 2 && !DistinctIndices(stops) ==> r == Err(StopsNotUnique)
      ensures |stops| >= 2 && DistinctIndices(stops) ==> r == Ok(Allowed(arcs, Indices(stops)))
    {
      if |stops| < 2 {
        return Ok(true);
      }
      if !DistinctIndices(stops) {
        return Err(StopsNotUnique);
      }
      var c := Rebuilt();
      var allowed := c.FollowStops(stops);
      return Ok(allowed);
    }

    /**
     * The loop over the steps of IsAllowed, on the rebuilt copy: each step is
     * rejected when it breaks a direct arc, and a step no arc covers becomes
     * an edge of the copy's adjacency, which must stay acyclic.
     */
    method FollowStops(stops: seq<Stop>) returns (r: bool)
      requires |stops| >= 2 && adjacency == Edges(arcs) && !HasCycle(adjacency)
      modifies this
      ensures r == Allowed(old(arcs), Indices(stops))
      ensures arcs == old(arcs)
    {
      ghost var ids := Indices(stops);
      var idx := 1;
      while idx < |stops|
        invariant 1 <= idx <= |stops| && arcs == old(arcs)
        invariant forall i, a :: 0 <= i < idx - 1 && a in arcs ==> !Violates(a, ids[i], ids[i + 1])
        invariant forall e :: e in adjacency <==> e in Edges(arcs) + Pairs(ids)[..idx - 1]
        invariant !HasCycle(adjacency)
      {
        var origin, destination := stops[idx - 1].index, stops[idx].index;
        var step := StepVerdict(arcs, origin, destination);
        if step == Reject {
          assert ids[idx - 1] == origin && ids[idx] == destination;
          return false;
        }
        assert ids[idx - 1] == origin && ids[idx] == destination;
        EdgesStep(arcs, ids, adjacency, idx, step);
        if step == NewEdge {
          AddEdge(origin, destination);
          if IsCyclic() {
            PrefixEdgesWithin(Edges(arcs), Pairs(ids), adjacency, idx);
            AllowedNeedsAcyclic(arcs, ids, adjacency);
            return false;
          }
        }
        idx := idx + 1;
      }
      assert Pairs(ids)[..idx - 1] == Pairs(ids);
      HasCycleSameEdges(adjacency, Edges(arcs) + Pairs(ids));
      return true;
    }
  }

  /** With a direct arc o -> d, a sequence in which o is followed by a stop other than d is not allowed. */
  lemma DirectArcForcesSuccessor(arcs: seq<Arc>, ids: seq<int>, i: nat, a: Arc)
    requires a in arcs && a.isDirect && i < |ids| - 1 && ids[i] == a.origin && ids[i + 1] != a.destination
    ensures !Allowed(arcs, ids)
  {
    assert Violates(a, ids[i], ids[i + 1]);
  }

  /** With a direct arc o -> d, a sequence in which d follows a stop other than o is not allowed. */
  lemma DirectArcForcesPredecessor(arcs: seq<Arc>, ids: seq<int>, i: nat, a: Arc)
    requires a in arcs && a.isDirect && i < |ids| - 1 && ids[i + 1] == a.destination && ids[i] != a.origin
    ensures !Allowed(arcs, ids)
  {
    assert Violates(a, ids[i], ids[i + 1]);
  }

  lemma PairsPrefix(ids: seq<int>, idx: nat)
    requires 1 <= idx < |ids|
    ensures Pairs(ids)[..idx] == Pairs(ids)[..idx - 1] + [(ids[idx - 1], ids[idx])]
  {
  }

  /** After a step that is not rejected the edges are the arcs' and the pairs one step further on. */
  lemma EdgesStep(arcs: seq<Arc>, ids: seq<int>, adjacency: seq<Edge>, idx: nat, step: Verdict)
    requires 1 <= idx < |ids| && step == Scan(arcs, ids[idx - 1], ids[idx]) && step != Reject
    requires forall e :: e in adjacency <==> e in Edges(arcs) + Pairs(ids)[..idx - 1]
    ensures var next := if step == NewEdge then adjacency + [(ids[idx - 1], ids[idx])] else adjacency;
      forall e :: e in next <==> e in Edges(arcs) + Pairs(ids)[..idx]
  {
    PairsPrefix(ids, idx);
    if step == Covered {
      var a :| a in arcs && a.origin == ids[idx - 1] && a.destination == ids[idx];
      var j :| 0 <= j < |arcs| && arcs[j] == a;
      CoveredEdge(arcs, ids[idx - 1], ids[idx]);
    }
  }

  /** A step some arc covers is already an edge of the arcs. */
  lemma CoveredEdge(arcs: seq<Arc>, o: int, d: int)
    requires exists j :: 0 <= j < |arcs| && arcs[j].origin == o && arcs[j].destination == d
    ensures (o, d) in Edges(arcs)
  {
    var j :| 0 <= j < |arcs| && arcs[j].origin == o && arcs[j].destination == d;
    assert Edges(arcs)[j] == (o, d);
  }

  /** Edges among the base edges and a prefix of the pairs are among the base edges and all pairs. */
  lemma PrefixEdgesWithin(base: seq<Edge>, pairs: seq<Edge>, edges: seq<Edge>, k: nat)
    requires k <= |pairs|
    requires forall e :: e in edges <==> e in base + pairs[..k]
    ensures forall e :: e in edges ==> e in base + pairs
  {
    forall e | e in edges ensures e in base + pairs {
      if e !in base {
        var j :| 0 <= j < k && pairs[..k][j] == e;
        assert pairs[j] == e;
      }
    }
  }

  lemma AllowedNeedsAcyclic(arcs: seq<Arc>, ids: seq<int>, edges: seq<Edge>)
    requires forall e :: e in edges ==> e in Edges(arcs) + Pairs(ids)
    requires HasCycle(edges)
    ensures !Allowed(arcs, ids)
  {
    HasCycleGrows(edges, Edges(arcs) + Pairs(ids));
  }

  /**
   * The inner loop of IsAllowed, corrected: every arc is consulted for a
   * broken direct arc before the step counts as covered.
   */
  method StepVerdict(arcs: seq<Arc>, o: int, d: int) returns (v: Verdict)
    ensures v == Scan(arcs, o, d)
    ensures v == Covered ==> exists j :: 0 <= j < |arcs| && arcs[j].origin == o && arcs[j].destination == d
  {
    var covered := false;
    var k := 0;
    while k < |arcs|
      invariant 0 <= k <= |arcs|
      invariant forall j :: 0 <= j < k ==> !Violates(arcs[j], o, d)
      invariant covered <==> exists j :: 0 <= j < k && arcs[j].origin == o && arcs[j].destination == d
    {
      if Violates(arcs[k], o, d) {
        return Reject;
      }
      if arcs[k].origin == o && arcs[k].destination == d {
        covered := true;
      }
      k := k + 1;
    }
    return if covered then Covered else NewEdge;
  }

  /** Ranked vertices: every edge climbs in rank, so no walk can come back. */
  lemma RankedIsAcyclic(edges: seq<Edge>, rank: int -> int)
    requires forall e :: e in edges ==> rank(e.0) < rank(e.1)
    ensures !HasCycle(edges)
  {
    if HasCycle(edges) {
      var p :| Path(edges, p) && |p| >= 2 && p[0] == p[|p| - 1];
      RankClimbs(edges, rank, p, |p| - 1);
    }
  }

  lemma {:induction false} RankClimbs(edges: seq<Edge>, rank: int -> int, p: seq<int>, n: nat)
    requires forall e :: e in edges ==> rank(e.0) < rank(e.1)
    requires Path(edges, p) && 1 <= n < |p|
    ensures rank(p[0]) < rank(p[n])
    decreases n
  {
    assert (p[n - 1], p[n]) in edges;
    if n > 1 {
      RankClimbs(edges, rank, p, n - 1);
    }
  }
}
