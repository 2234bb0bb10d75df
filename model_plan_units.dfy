// Plan units of the model: units of stops that are planned together on one
// vehicle (model_plan_stops_unit.go) and units of plan units of which all or
// exactly one are planned (model_plan_units_unit.go). The two kinds share one
// module because a unit of either kind can be a member of a unit of plan units.
module ModelPlanUnits {
  import opened Wrappers
  import opened Unique
  import opened ModelStop
  import opened DirectedAcyclicGraph

  datatype PlanUnitError =
    | NilStop
    | StopHasPlanUnit(stop: int)
    | StopIsFirstOrLast(stop: int)
    | TooFewStops
    | DuplicateStop(stop: int)
    | ArcOriginNotInUnit(origin: int)
    | ArcDestinationNotInUnit(destination: int)
    | NoPlanUnits
    | DuplicatePlanUnits
    | InTwoPlanUnitsUnits(planUnit: int)
    | AlreadyHasPlanUnitsUnit(planUnit: int)

  /** A plan unit of either kind (ModelPlanUnit). */
  datatype PlanUnit = OfStops(stopsUnit: StopsUnit) | OfUnits(unitsUnit: UnitsUnit)
  {
    /** Index: the unit's index among the model's plan units. */
    function Index(): int
    {
      match this
      case OfStops(s) => s.index
      case OfUnits(u) => u.index
    }

    /** The object behind the plan unit. */
    function Object(): object
    {
      match this
      case OfStops(s) => s
      case OfUnits(u) => u
    }

    /** PlanUnitsUnit: the unit of plan units this unit is a member of, or null. */
    function Parent(): UnitsUnit?
      reads Object()
    {
      match this
      case OfStops(s) => s.planUnitsUnit
      case OfUnits(u) => u.planUnitsUnit
    }
  }

  function IndexOf(p: PlanUnit): int
  {
    p.Index()
  }

  /** The objects behind a list of plan units. */
  function Objects(ps: seq<PlanUnit>): set<object>
  {
    set i | 0 <= i < |ps| :: ps[i].Object()
  }

  /** Plan units with different indices are different objects. */
  lemma DistinctObjects(ps: seq<PlanUnit>, i: nat, j: nat)
    requires i < |ps| && j < |ps| && ps[i].Index() != ps[j].Index()
    ensures ps[i].Object() != ps[j].Object()
  {
  }

  class StopsUnit {
    const index: int
    const stops: seq<Stop>
    /** The order the stops must be visited in. */
    const dag: Dag
    var planUnitsUnit: UnitsUnit?

    constructor (index: int, stops: seq<Stop>, dag: Dag)
      ensures this.index == index && this.stops == stops && this.dag == dag && planUnitsUnit == null
    {
      this.index := index;
      this.stops := stops;
      this.dag := dag;
      planUnitsUnit := null;
    }

    /** NumberOfStops (model_plan_stops_unit.go:186-188). */
    function NumberOfStops(): (r: nat)
      ensures r == |Stops()|
    {
      |stops|
    }

    /** Stops (model_plan_stops_unit.go:190-192): a Dafny sequence is a value, so it is a copy. */
    function Stops(): seq<Stop>
    {
      stops
    }

    /** setPlanUnitsUnit (model_plan_stops_unit.go:153-160): succeeds only once. */
    method SetPlanUnitsUnit(unit: UnitsUnit) returns (r: Outcome<PlanUnitError>)
      modifies this
      ensures r.Pass? <==> old(planUnitsUnit) == null
      ensures r.Pass? ==> planUnitsUnit == unit
      ensures r.Fail? ==> r.error == AlreadyHasPlanUnitsUnit(index) && planUnitsUnit == old(planUnitsUnit)
    {
      if planUnitsUnit != null {
        return Fail(AlreadyHasPlanUnitsUnit(index));
      }
      planUnitsUnit := unit;
      return Pass;
    }
  }

  class UnitsUnit {
    const index: int
    const planUnits: seq<PlanUnit>
    const planOneOf: bool
    const sameVehicle: bool
    var planUnitsUnit: UnitsUnit?
    /** One more than the deepest nesting of the members. */
    ghost const height: nat
    /** The stops of every unit nested in this one. */
    ghost const below: set<Stop>

    constructor (index: int, planUnits: seq<PlanUnit>, planOneOf: bool, sameVehicle: bool)
      requires forall i :: 0 <= i < |planUnits| ==> Nested(planUnits[i])
      ensures this.index == index && this.planUnits == planUnits && this.planOneOf == planOneOf
      ensures this.sameVehicle == sameVehicle && planUnitsUnit == null
      ensures Nested(OfUnits(this))
    {
      this.index := index;
      this.planUnits := planUnits;
      this.planOneOf := planOneOf;
      this.sameVehicle := sameVehicle;
      planUnitsUnit := null;
      height := MaxHeight(planUnits) + 1;
      below := StopsBelow(planUnits);
    }

    /** PlanAll (model_plan_units_unit.go:138-140): all members are planned, the opposite of PlanOneOf. */
    predicate PlanAll()
    {
      !planOneOf
    }

    /** setPlanUnitsUnit (model_plan_units_unit.go:113-120): succeeds only once. */
    method SetPlanUnitsUnit(unit: UnitsUnit) returns (r: Outcome<PlanUnitError>)
      modifies this
      ensures r.Pass? <==> old(planUnitsUnit) == null
      ensures r.Pass? ==> planUnitsUnit == unit
      ensures r.Fail? ==> r.error == AlreadyHasPlanUnitsUnit(index) && planUnitsUnit == old(planUnitsUnit)
    {
      if planUnitsUnit != null {
        return Fail(AlreadyHasPlanUnitsUnit(index));
      }
      planUnitsUnit := unit;
      return Pass;
    }
  }

  ghost function Height(p: PlanUnit): nat
  {
    match p
    case OfStops(_) => 0
    case OfUnits(u) => u.height
  }

  ghost function StopsOf(p: PlanUnit): set<Stop>
  {
    match p
    case OfStops(s) => set st | st in s.stops
    case OfUnits(u) => u.below
  }

  ghost function MaxHeight(ps: seq<PlanUnit>): (r: nat)
    ensures forall i :: 0 <= i < |ps| ==> Height(ps[i]) <= r
    decreases |ps|
  {
    if ps == [] then 0
    else
      var m := MaxHeight(ps[..|ps| - 1]);
      assert forall i :: 0 <= i < |ps| - 1 ==> ps[i] == ps[..|ps| - 1][i];
      if Height(ps[|ps| - 1]) > m then Height(ps[|ps| - 1]) else m
  }

  ghost function StopsBelow(ps: seq<PlanUnit>): (r: set<Stop>)
    ensures forall i :: 0 <= i < |ps| ==> StopsOf(ps[i]) <= r
    decreases |ps|
  {
    if ps == [] then {}
    else
      assert forall i :: 0 <= i < |ps| - 1 ==> ps[i] == ps[..|ps| - 1][i];
      StopsBelow(ps[..|ps| - 1]) + StopsOf(ps[|ps| - 1])
  }

  /**
   * A unit of stops has a stop, and a unit of plan units is nested deeper
   * than its members and covers their stops: what the constructors build.
   */
  ghost predicate Nested(p: PlanUnit)
    decreases Height(p)
  {
    match p
    case OfStops(s) => |s.stops| >= 1
    case OfUnits(u) =>
      forall i :: 0 <= i < |u.planUnits| ==>
        Height(u.planUnits[i]) < u.height && StopsOf(u.planUnits[i]) <= u.below && Nested(u.planUnits[i])
  }

  /** Some stop of the unit, or of a unit nested in it, is fixed. */
  ghost predicate Fixed(p: PlanUnit)
    requires Nested(p)
    reads StopsOf(p)
    decreases Height(p)
  {
    match p
    case OfStops(s) => exists i :: 0 <= i < |s.stops| && s.stops[i].fixed
    case OfUnits(u) => exists i :: 0 <= i < |u.planUnits| && Fixed(u.planUnits[i])
  }

  /**
   * IsFixed (model_plan_stops_unit.go:177-184 and model_plan_units_unit.go:141-148):
   * a unit of stops is fixed when one of its stops is, a unit of plan units
   * when one of its members is.
   */
  method IsFixed(p: PlanUnit) returns (r: bool)
    requires Nested(p)
    ensures r == Fixed(p)
    decreases Height(p)
  {
    match p
    case OfStops(s) =>
      var i := 0;
      while i < |s.stops|
        invariant 0 <= i <= |s.stops|
        invariant forall j :: 0 <= j < i ==> !s.stops[j].fixed
      {
        if s.stops[i].fixed {
          return true;
        }
        i := i + 1;
      }
      return false;
    case OfUnits(u) =>
      var i := 0;
      while i < |u.planUnits|
        invariant 0 <= i <= |u.planUnits|
        invariant forall j :: 0 <= j < i ==> !Fixed(u.planUnits[j])
      {
        var fixed := IsFixed(u.planUnits[i]);
        if fixed {
          return true;
        }
        i := i + 1;
      }
      return false;
  }

  /**
   * newPlanUnitsUnit (model_plan_units_unit.go:41-93): refuses no members
   * and members sharing an index; then makes every member point to the new
   * unit, in order, and fails at the first member that already belongs to a
   * unit of plan units, leaving the members before it pointing to the
   * unit that is not returned.
   */
  method NewPlanUnitsUnit(index: int, planUnits: seq<PlanUnit>, planOneOf: bool, sameVehicle: bool)
    returns (r: Result<UnitsUnit, PlanUnitError>)
    requires forall i :: 0 <= i < |planUnits| ==> Nested(planUnits[i])
    modifies Objects(planUnits)
    ensures |planUnits| == 0 ==> r == Err(NoPlanUnits)
    ensures |planUnits| > 0 && !DistinctKeys(planUnits, IndexOf) ==> r == Err(DuplicatePlanUnits)
    ensures |planUnits| == 0 || !DistinctKeys(planUnits, IndexOf) ==>
      forall i :: 0 <= i < |planUnits| ==> planUnits[i].Parent() == old(planUnits[i].Parent())
    ensures r.Ok? <==>
      |planUnits| > 0 && DistinctKeys(planUnits, IndexOf) && forall i :: 0 <= i < |planUnits| ==> old(planUnits[i].Parent()) == null
    ensures r.Ok? ==>
      fresh(r.value) && r.value.index == index && r.value.planUnits == planUnits &&
      r.value.planOneOf == planOneOf && r.value.sameVehicle == sameVehicle && r.value.planUnitsUnit == null &&
      Nested(OfUnits(r.value)) && forall i :: 0 <= i < |planUnits| ==> planUnits[i].Parent() == r.value
    ensures r.Err? && |planUnits| > 0 && DistinctKeys(planUnits, IndexOf) ==>
      exists k :: 0 <= k < |planUnits| && old(planUnits[k].Parent()) != null &&
        r == Err(InTwoPlanUnitsUnits(planUnits[k].Index())) &&
        (forall i :: 0 <= i < k ==> old(planUnits[i].Parent()) == null && planUnits[i].Parent() != null) &&
        (forall i :: k <= i < |planUnits| ==> planUnits[i].Parent() == old(planUnits[i].Parent()))
  {
    if |planUnits| == 0 {
      return Err(NoPlanUnits);
    }
    var uniquePlanUnits := UniqueDefined(planUnits, IndexOf);
    UniqueSameLength(planUnits, IndexOf);
    if |uniquePlanUnits| != |planUnits| {
      return Err(DuplicatePlanUnits);
    }
    r := Build(index, planUnits, planOneOf, sameVehicle);
  }

  /**
   * The unit and the member loop of newPlanUnitsUnit (model_plan_units_unit.go:61-90):
   * the members point to the new unit one after another, up to the first
   * member that already belongs to a unit of plan units.
   */
  method Build(index: int, planUnits: seq<PlanUnit>, planOneOf: bool, sameVehicle: bool)
    returns (r: Result<UnitsUnit, PlanUnitError>)
    requires forall i :: 0 <= i < |planUnits| ==> Nested(planUnits[i])
    requires DistinctKeys(planUnits, IndexOf)
    modifies Objects(planUnits)
    ensures r.Ok? <==> forall i :: 0 <= i < |planUnits| ==> old(planUnits[i].Parent()) == null
    ensures r.Ok? ==>
      fresh(r.value) && r.value.index == index && r.value.planUnits == planUnits &&
      r.value.planOneOf == planOneOf && r.value.sameVehicle == sameVehicle && r.value.planUnitsUnit == null &&
      Nested(OfUnits(r.value)) && forall i :: 0 <= i < |planUnits| ==> planUnits[i].Parent() == r.value
    ensures r.Err? ==>
      exists k :: 0 <= k < |planUnits| && old(planUnits[k].Parent()) != null &&
        r == Err(InTwoPlanUnitsUnits(planUnits[k].Index())) &&
        (forall i :: 0 <= i < k ==> old(planUnits[i].Parent()) == null && planUnits[i].Parent() != null) &&
        (forall i :: k <= i < |planUnits| ==> planUnits[i].Parent() == old(planUnits[i].Parent()))
  {
    var unit := new UnitsUnit(index, planUnits, planOneOf, sameVehicle);
    var i := 0;
    while i < |planUnits|
      invariant 0 <= i <= |planUnits| && fresh(unit)
      invariant unit.index == index && unit.planUnits == planUnits && unit.planUnitsUnit == null
      invariant unit.planOneOf == planOneOf && unit.sameVehicle == sameVehicle && Nested(OfUnits(unit))
      invariant forall j :: 0 <= j < i ==> old(planUnits[j].Parent()) == null && planUnits[j].Parent() == unit
      invariant forall j :: i <= j < |planUnits| ==> planUnits[j].Parent() == old(planUnits[j].Parent())
    {
      var member := planUnits[i];
      if member.Parent() != null {
        r := Err(InTwoPlanUnitsUnits(member.Index()));
        assert forall j :: 0 <= j < i ==> planUnits[j].Parent() != null;
        return;
      }
      forall j | 0 <= j < |planUnits| && j != i ensures planUnits[j].Object() != member.Object() {
        DistinctObjects(planUnits, i, j);
      }
      match member {
        case OfStops(s) =>
          var _ := s.SetPlanUnitsUnit(unit);
        case OfUnits(u) =>
          var _ := u.SetPlanUnitsUnit(unit);
      }
      i := i + 1;
    }
    return Ok(unit);
  }

  /** The fields of a stop other than its plan unit are as they were. */
  twostate predicate OnlyPlanUnitChanged(s: Stop)
    reads s
  {
    s.firstOrLast == old(s.firstOrLast) && s.fixed == old(s.fixed) && s.windows == old(s.windows) &&
    s.windowChecker == old(s.windowChecker) && s.earliestStartTime == old(s.earliestStartTime)
  }

  /** checkCanBeUsedInPlanUnit (model_plan_stops_unit.go:37-59), its checks in order. */
  function CanBeUsed(stop: Stop?): (r: Outcome<PlanUnitError>)
    reads stop
    ensures r.Pass? <==> stop != null && stop.planUnit.None? && !stop.firstOrLast
  {
    if stop == null then Fail(NilStop)
    else if stop.planUnit.Some? then Fail(StopHasPlanUnit(stop.index))
    else if stop.firstOrLast then Fail(StopIsFirstOrLast(stop.index))
    else Pass
  }

  /**
   * newPlanSingleStop (model_plan_stops_unit.go:61-80): a unit of the one
   * stop, with an empty graph, when the stop can be used; the stop then
   * belongs to the unit.
   */
  method NewPlanSingleStop(index: int, stop: Stop?) returns (r: Result<StopsUnit, PlanUnitError>)
    modifies stop
    ensures old(CanBeUsed(stop)).Fail? ==> r == Err(old(CanBeUsed(stop)).error) && (stop != null ==> unchanged(stop))
    ensures old(CanBeUsed(stop)).Pass? ==>
      stop != null && r.Ok? && fresh(r.value) && fresh(r.value.dag) && r.value.index == index &&
      r.value.stops == [stop] && r.value.dag.State() == EmptyGraph && r.value.planUnitsUnit == null &&
      Nested(OfStops(r.value)) && stop.planUnit == Some(index) && OnlyPlanUnitChanged(stop)
  {
    var check := CanBeUsed(stop);
    if check.Fail? {
      return Err(check.error);
    }
    var dag := new Dag();
    var unit := new StopsUnit(index, [stop], dag);
    stop.planUnit := Some(index);
    return Ok(unit);
  }

  /** The stops that are not null. */
  function NonNull(stops: seq<Stop?>): set<Stop>
  {
    set s: Stop | s in stops
  }

  /** The stops that belong to a plan unit. */
  function Planned(stops: seq<Stop?>): set<Stop?>
    reads NonNull(stops)
  {
    set s | s in NonNull(stops) && s.planUnit.Some?
  }

  /** The stops that are the first or the last stop of a vehicle. */
  function Edge(stops: seq<Stop?>): set<Stop?>
    reads NonNull(stops)
  {
    set s | s in NonNull(stops) && s.firstOrLast
  }

  /** The indices of the stops. */
  function StopIndices(stops: set<Stop>): set<int>
  {
    set s | s in stops :: s.index
  }

  /**
   * The stop loop of newPlanMultipleStops (model_plan_stops_unit.go:99-118)
   * on stop i, given the stops that were planned and those that were first
   * or last beforehand: the stops before i have been claimed by the unit, so
   * a stop that repeats one of them counts as planned.
   */
  function StopVerdict(stops: seq<Stop?>, planned: set<Stop?>, edge: set<Stop?>, i: nat): Outcome<PlanUnitError>
    requires i < |stops|
  {
    var s := stops[i];
    if s == null then Fail(NilStop)
    else if s in planned || s in stops[..i] then Fail(StopHasPlanUnit(s.index))
    else if s in edge then Fail(StopIsFirstOrLast(s.index))
    else if exists j :: 0 <= j < i && stops[j] != null && stops[j].index == s.index then Fail(DuplicateStop(s.index))
    else Pass
  }

  /** How many of the first k stops the loop accepts before it stops. */
  function Accepted(stops: seq<Stop?>, planned: set<Stop?>, edge: set<Stop?>, k: nat): (r: nat)
    requires k <= |stops|
    ensures r <= k
    ensures r < k ==> StopVerdict(stops, planned, edge, r).Fail?
  {
    if k == 0 then 0
    else
      var a := Accepted(stops, planned, edge, k - 1);
      if a < k - 1 || StopVerdict(stops, planned, edge, k - 1).Fail? then a else k
  }

  /** A stop claimed by the unit, or one whose plan unit and place on a vehicle are as recorded. */
  predicate ClaimedState(s: Stop, claimed: bool, index: int, planned: set<Stop?>, edge: set<Stop?>)
    reads s
  {
    (if claimed then s.planUnit == Some(index) else (s.planUnit.Some? <==> s in planned)) &&
    (s.firstOrLast <==> s in edge)
  }

  /**
   * The check of stop i in the loop's state: with the stops before i
   * claimed by the unit and the others as they were, checking the stop and
   * looking its index up among those claimed gives the verdict on stop i.
   */
  lemma VerdictNow(stops: seq<Stop?>, planned: set<Stop?>, edge: set<Stop?>, i: nat, index: int, inStops: set<int>)
    requires i < |stops| && inStops == StopIndices(NonNull(stops[..i]))
    requires forall s :: s in NonNull(stops) ==> ClaimedState(s, s in stops[..i], index, planned, edge)
    ensures StopVerdict(stops, planned, edge, i) ==
      if CanBeUsed(stops[i]).Fail? then CanBeUsed(stops[i])
      else if stops[i].index in inStops then Fail(DuplicateStop(stops[i].index))
      else Pass
  {
    var s := stops[i];
    forall j | 0 <= j < i && stops[j] != null ensures stops[j].planUnit == Some(index) {
      assert stops[j] in NonNull(stops);
    }
    if s != null {
      assert s in NonNull(stops);
      if s in stops[..i] {
        var j :| 0 <= j < i && stops[j] == s;
      }
      if exists j :: 0 <= j < i && stops[j] != null && stops[j].index == s.index {
        var j :| 0 <= j < i && stops[j] != null && stops[j].index == s.index;
        assert stops[j] in NonNull(stops[..i]);
      }
      if s.index in inStops {
        var t :| t in NonNull(stops[..i]) && t.index == s.index;
        var j :| 0 <= j < i && stops[j] == t;
      }
    }
  }

  /** Every stop the loop accepts passes its check. */
  lemma {:induction false} AcceptedPass(stops: seq<Stop?>, planned: set<Stop?>, edge: set<Stop?>, k: nat)
    requires k <= |stops|
    ensures forall i :: 0 <= i < Accepted(stops, planned, edge, k) ==> StopVerdict(stops, planned, edge, i).Pass?
  {
    if k > 0 {
      AcceptedPass(stops, planned, edge, k - 1);
    }
  }

  /** Once stop i is refused, the loop accepts i stops of any longer prefix. */
  lemma {:induction false} AcceptedStays(stops: seq<Stop?>, planned: set<Stop?>, edge: set<Stop?>, i: nat, m: nat)
    requires i < m <= |stops| && Accepted(stops, planned, edge, i) == i
    requires StopVerdict(stops, planned, edge, i).Fail?
    ensures Accepted(stops, planned, edge, m) == i
    decreases m
  {
    if m > i + 1 {
      AcceptedStays(stops, planned, edge, i, m - 1);
    }
  }

  /**
   * The loop accepts the first k stops exactly when none of them is null,
   * planned or first or last, and no two of them share an index.
   */
  lemma {:induction false} AcceptedIff(stops: seq<Stop?>, planned: set<Stop?>, edge: set<Stop?>, k: nat)
    requires k <= |stops|
    ensures Accepted(stops, planned, edge, k) == k <==>
      (forall i :: 0 <= i < k ==> stops[i] != null && stops[i] !in planned && stops[i] !in edge) &&
      (forall i, j :: 0 <= i < j < k && stops[i] != null && stops[j] != null ==> stops[i].index != stops[j].index)
  {
    if k > 0 {
      AcceptedIff(stops, planned, edge, k - 1);
      var s := stops[k - 1];
      if Accepted(stops, planned, edge, k - 1) == k - 1 && s != null && s !in planned && s !in edge {
        if s in stops[..k - 1] {
          var j :| 0 <= j < k - 1 && stops[j] == s;
          assert stops[j].index == s.index;
        }
      }
    }
  }

  /** The arc loop of newPlanMultipleStops (model_plan_stops_unit.go:120-135) on the first k arcs. */
  function ArcsVerdict(arcs: seq<Arc>, inStops: set<int>, k: nat): Outcome<PlanUnitError>
    requires k <= |arcs|
  {
    if k == 0 then Pass
    else
      match ArcsVerdict(arcs, inStops, k - 1)
      case Fail(e) => Fail(e)
      case Pass =>
        var arc := arcs[k - 1];
        if arc.origin !in inStops then Fail(ArcOriginNotInUnit(arc.origin))
        else if arc.destination !in inStops then Fail(ArcDestinationNotInUnit(arc.destination))
        else Pass
  }

  /** The arcs pass exactly when both ends of every arc are stops of the unit. */
  lemma {:induction false} ArcsVerdictMeaning(arcs: seq<Arc>, inStops: set<int>, k: nat)
    requires k <= |arcs|
    ensures ArcsVerdict(arcs, inStops, k).Pass? <==>
      forall j :: 0 <= j < k ==> arcs[j].origin in inStops && arcs[j].destination in inStops
  {
    if k > 0 {
      ArcsVerdictMeaning(arcs, inStops, k - 1);
    }
  }

  /** The arc loop, in order, stopping at the first arc with an end outside the unit. */
  method CheckArcs(arcs: seq<Arc>, inStops: set<int>) returns (r: Outcome<PlanUnitError>)
    ensures r == ArcsVerdict(arcs, inStops, |arcs|)
  {
    var i := 0;
    while i < |arcs|
      invariant 0 <= i <= |arcs| && ArcsVerdict(arcs, inStops, i) == Pass
    {
      var arc := arcs[i];
      if arc.origin !in inStops {
        ArcsFailureStays(arcs, inStops, i + 1, |arcs|);
        return Fail(ArcOriginNotInUnit(arc.origin));
      }
      if arc.destination !in inStops {
        ArcsFailureStays(arcs, inStops, i + 1, |arcs|);
        return Fail(ArcDestinationNotInUnit(arc.destination));
      }
      i := i + 1;
    }
    return Pass;
  }

  /** Once an arc fails, the verdict on every longer prefix is that failure. */
  lemma {:induction false} ArcsFailureStays(arcs: seq<Arc>, inStops: set<int>, k: nat, m: nat)
    requires k <= m <= |arcs| && ArcsVerdict(arcs, inStops, k).Fail?
    ensures ArcsVerdict(arcs, inStops, m) == ArcsVerdict(arcs, inStops, k)
    decreases m - k
  {
    if k < m {
      ArcsFailureStays(arcs, inStops, k + 1, m);
    }
  }

  /**
   * newPlanMultipleStops (model_plan_stops_unit.go:82-138): at least two
   * stops; then the stops are claimed one after another until the first one
   * that cannot be used or repeats an index, and finally every arc of the
   * graph must join stops of the unit. A stop claimed before a failure keeps
   * pointing to the unit that is not returned.
   */
  method NewPlanMultipleStops(index: int, modelStops: seq<Stop?>, sequence: Dag) returns (r: Result<StopsUnit, PlanUnitError>)
    modifies NonNull(modelStops)
    ensures |modelStops| < 2 ==> r == Err(TooFewStops) && unchanged(NonNull(modelStops))
    ensures forall s :: s in NonNull(modelStops) ==> OnlyPlanUnitChanged(s)
    ensures |modelStops| >= 2 ==>
      var planned, edge := old(Planned(modelStops)), old(Edge(modelStops));
      var a := Accepted(modelStops, planned, edge, |modelStops|);
      (forall i :: 0 <= i < a ==> modelStops[i] != null && modelStops[i].planUnit == Some(index)) &&
      (forall s :: s in NonNull(modelStops) && s !in modelStops[..a] ==> s.planUnit == old(s.planUnit)) &&
      (a < |modelStops| ==> r == Err(StopVerdict(modelStops, planned, edge, a).error)) &&
      (a == |modelStops| ==>
        var arcs := ArcsVerdict(sequence.arcs, StopIndices(NonNull(modelStops)), |sequence.arcs|);
        (arcs.Fail? ==> r == Err(arcs.error)) &&
        (arcs.Pass? ==>
          r.Ok? && fresh(r.value) && r.value.index == index && r.value.stops == modelStops &&
          r.value.dag == sequence && r.value.planUnitsUnit == null && Nested(OfStops(r.value))))
  {
    if |modelStops| < 2 {
      return Err(TooFewStops);
    }
    var claimed, stops, inStops := ClaimStops(index, modelStops);
    if claimed.Fail? {
      return Err(claimed.error);
    }
    var arcs := CheckArcs(sequence.arcs, inStops);
    if arcs.Fail? {
      return Err(arcs.error);
    }
    var unit := new StopsUnit(index, stops, sequence);
    return Ok(unit);
  }

  /**
   * The stop loop of newPlanMultipleStops (model_plan_stops_unit.go:99-118):
   * each stop in turn is checked and claimed by the unit; the first stop that
   * cannot be used, or whose index was seen, ends the loop.
   */
  method ClaimStops(index: int, modelStops: seq<Stop?>) returns (r: Outcome<PlanUnitError>, stops: seq<Stop>, inStops: set<int>)
    modifies NonNull(modelStops)
    ensures forall s :: s in NonNull(modelStops) ==> OnlyPlanUnitChanged(s)
    ensures var planned, edge := old(Planned(modelStops)), old(Edge(modelStops));
      var a := Accepted(modelStops, planned, edge, |modelStops|);
      (forall i :: 0 <= i < a ==> modelStops[i] != null && modelStops[i].planUnit == Some(index)) &&
      (forall s :: s in NonNull(modelStops) && s !in modelStops[..a] ==> s.planUnit == old(s.planUnit)) &&
      (r.Fail? <==> a < |modelStops|) &&
      (r.Fail? ==> r == StopVerdict(modelStops, planned, edge, a)) &&
      (r.Pass? ==> stops == modelStops && inStops == StopIndices(NonNull(modelStops)))
  {
    ghost var planned, edge := Planned(modelStops), Edge(modelStops);
    ghost var a := Accepted(modelStops, planned, edge, |modelStops|);
    AcceptedPass(modelStops, planned, edge, |modelStops|);
    inStops, stops := {}, [];
    var i := 0;
    while i < |modelStops|
      invariant 0 <= i <= a && stops == modelStops[..i]
      invariant inStops == StopIndices(NonNull(modelStops[..i]))
      invariant forall s :: s in NonNull(modelStops) ==>
        OnlyPlanUnitChanged(s) && s.planUnit == if s in modelStops[..i] then Some(index) else old(s.planUnit)
      invariant forall s :: s in NonNull(modelStops) ==> ClaimedState(s, s in modelStops[..i], index, planned, edge)
    {
      var modelStop := modelStops[i];
      VerdictNow(modelStops, planned, edge, i, index, inStops);
      var check := CanBeUsed(modelStop);
      if check.Fail? {
        return check, stops, inStops;
      }
      if modelStop.index in inStops {
        return Fail(DuplicateStop(modelStop.index)), stops, inStops;
      }
      assert modelStops[..i + 1] == modelStops[..i] + [modelStop];
      assert NonNull(modelStops[..i + 1]) == NonNull(modelStops[..i]) + {modelStop};
      inStops := inStops + {modelStop.index};
      modelStop.planUnit := Some(index);
      stops := stops + [modelStop];
      i := i + 1;
    }
    assert modelStops[..i] == modelStops;
    assert forall j :: 0 <= j < i ==> modelStops[j] in NonNull(modelStops);
    return Pass, stops, inStops;
  }
}
