// The interleave constraint (model_constraint_interleave.go): a target plan
// unit whose stops must not be interleaved with the stops of its sources, the
// rules for registering such a target, and the test on the positions of two
// spans of stops on a vehicle.
module ModelConstraintInterleave {
  import opened Wrappers
  import opened Unique
  import opened ModelStop
  import opened ModelPlanUnits

  /** The position of x lies strictly between the two ends of a span. */
  predicate StrictlyInside(x: int, first: int, last: int)
  {
    first < x < last
  }

  /**
   * isViolatedPositions (model_constraint_interleave.go:349-373): the source
   * span lies inside the target span, or overlaps its start, or overlaps its
   * end. When no end of the source sits on an end of the target, this is
   * the same as an end of the source lying strictly inside the target span,
   * so disjoint spans and a source enclosing the target are allowed.
   */
  function IsViolatedPositions(sourceFirst: int, sourceLast: int, targetFirst: int, targetLast: int): (r: bool)
    ensures sourceFirst <= sourceLast && r ==> sourceFirst < targetLast && sourceLast > targetFirst
    ensures (sourceFirst <= sourceLast && targetFirst <= targetLast &&
      sourceFirst != targetFirst && sourceFirst != targetLast &&
      sourceLast != targetFirst && sourceLast != targetLast) ==>
      (r <==> StrictlyInside(sourceFirst, targetFirst, targetLast) || StrictlyInside(sourceLast, targetFirst, targetLast))
  {
    (sourceFirst > targetFirst && sourceLast < targetLast) ||
    (sourceFirst < targetFirst && sourceLast > targetFirst && sourceLast < targetLast) ||
    (sourceFirst > targetFirst && sourceFirst < targetLast && sourceLast > targetLast)
  }

  /** The shapes drawn beside isViolatedPositions, and the two shapes it allows. */
  lemma ViolatedShapes(sourceFirst: int, sourceLast: int, targetFirst: int, targetLast: int)
    requires sourceFirst <= sourceLast && targetFirst <= targetLast
    ensures targetFirst < sourceFirst && sourceLast < targetLast ==>
      IsViolatedPositions(sourceFirst, sourceLast, targetFirst, targetLast)
    ensures sourceFirst < targetFirst < sourceLast < targetLast ==>
      IsViolatedPositions(sourceFirst, sourceLast, targetFirst, targetLast)
    ensures targetFirst < sourceFirst < targetLast < sourceLast ==>
      IsViolatedPositions(sourceFirst, sourceLast, targetFirst, targetLast)
    ensures sourceLast < targetFirst || targetLast < sourceFirst ==>
      !IsViolatedPositions(sourceFirst, sourceLast, targetFirst, targetLast)
    ensures sourceFirst < targetFirst && targetLast < sourceLast ==>
      !IsViolatedPositions(sourceFirst, sourceLast, targetFirst, targetLast)
  {
  }

  datatype InterleaveError =
    | NilTarget
    | NilSources
    | TargetInPlanUnitsUnit
    | ModelLocked
    | NilSource(idx: nat)
    | SourceInPlanUnitsUnit(idx: nat)
    | TargetIsSource
    | DuplicateSources
    | TargetNotSameVehicle
    | SourceNotSameVehicle(idx: nat)

  /** DisallowedInterleave: a target and the sources it must not be interleaved with. */
  datatype DisallowedInterleave = DisallowedInterleave(target: PlanUnit, sources: seq<PlanUnit>)

  /** Every unit of plan units nested in p that plans all its members keeps them on one vehicle. */
  ghost predicate AllSameVehicle(p: PlanUnit)
    requires Nested(p)
    decreases Height(p)
  {
    match p
    case OfStops(_) => true
    case OfUnits(u) =>
      (u.PlanAll() ==> u.sameVehicle) &&
      forall i :: 0 <= i < |u.planUnits| ==> AllSameVehicle(u.planUnits[i])
  }

  /**
   * verifyPlanUnitAllOnSameVehicle (model_constraint_interleave.go:248-263):
   * the given error, which stands for the prefix of the message, when a
   * unit of plan units nested in p plans all its members without keeping
   * them on one vehicle.
   */
  method VerifyPlanUnitAllOnSameVehicle(p: PlanUnit, preFix: InterleaveError) returns (r: Outcome<InterleaveError>)
    requires Nested(p)
    ensures r == if AllSameVehicle(p) then Pass else Fail(preFix)
    decreases Height(p)
  {
    match p
    case OfStops(_) =>
      return Pass;
    case OfUnits(u) =>
      if u.PlanAll() && !u.sameVehicle {
        return Fail(preFix);
      }
      var i := 0;
      while i < |u.planUnits|
        invariant 0 <= i <= |u.planUnits|
        invariant forall j :: 0 <= j < i ==> AllSameVehicle(u.planUnits[j])
      {
        var err := VerifyPlanUnitAllOnSameVehicle(u.planUnits[i], preFix);
        if err.Fail? {
          return err;
        }
        i := i + 1;
      }
      return Pass;
  }

  /** The plan units of a list of sources none of which is nil. */
  function Values(sources: seq<Option<PlanUnit>>): (r: seq<PlanUnit>)
    requires forall i :: 0 <= i < |sources| ==> sources[i].Some?
    ensures |r| == |sources| && forall i :: 0 <= i < |sources| ==> sources[i] == Some(r[i])
  {
    seq(|sources|, i requires 0 <= i < |sources| => sources[i].value)
  }

  /** The object behind a plan unit, as a set. */
  function UnitObject(p: PlanUnit): (r: set<object>)
    ensures r == {p.Object()}
  {
    match p
    case OfStops(s) => {s}
    case OfUnits(u) => {u}
  }

  /** The objects behind the sources that are not nil. */
  function SourceObjects(sources: seq<Option<PlanUnit>>): (r: set<object>)
    ensures forall i :: 0 <= i < |sources| && sources[i].Some? ==> sources[i].value.Object() in r
    ensures forall o :: o in r ==> exists i :: 0 <= i < |sources| && sources[i].Some? && o == sources[i].value.Object()
  {
    if sources == [] then {}
    else SourceObjects(sources[1..]) + (if sources[0].Some? then UnitObject(sources[0].value) else {})
  }

  /** The model whose lock guards a target made of stops. */
  function LockOf(target: PlanUnit): set<object>
  {
    if target.OfStops? && |target.stopsUnit.stops| > 0 then {target.stopsUnit.stops[0].model} else {}
  }

  /** The source loop of DisallowInterleaving (model_constraint_interleave.go:288-298) on source idx. */
  function SourceVerdict(target: PlanUnit, sources: seq<Option<PlanUnit>>, idx: nat): Outcome<InterleaveError>
    requires idx < |sources|
    reads SourceObjects(sources)
  {
    match sources[idx]
    case None => Fail(NilSource(idx))
    case Some(s) =>
      if s.Parent() != null then Fail(SourceInPlanUnitsUnit(idx))
      else if s == target then Fail(TargetIsSource)
      else Pass
  }

  /** The source loop on the first k sources: the verdict on the first source that fails. */
  function SourcesVerdict(target: PlanUnit, sources: seq<Option<PlanUnit>>, k: nat): Outcome<InterleaveError>
    requires k <= |sources|
    reads SourceObjects(sources)
  {
    if k == 0 then Pass
    else
      match SourcesVerdict(target, sources, k - 1)
      case Fail(e) => Fail(e)
      case Pass => SourceVerdict(target, sources, k - 1)
  }

  /** The first k sources pass exactly when none is nil, in a unit of plan units or the target. */
  lemma {:induction false} SourcesVerdictMeaning(target: PlanUnit, sources: seq<Option<PlanUnit>>, k: nat)
    requires k <= |sources|
    ensures SourcesVerdict(target, sources, k).Pass? <==>
      forall i :: 0 <= i < k ==>
        sources[i].Some? && sources[i].value.Parent() == null && sources[i].value != target
  {
    if k > 0 {
      SourcesVerdictMeaning(target, sources, k - 1);
    }
  }

  /** When every source passes, all are present, nested, and none is the target. */
  lemma SourcesPassed(target: PlanUnit, sources: seq<Option<PlanUnit>>)
    requires SourcesVerdict(target, sources, |sources|).Pass?
    requires forall i :: 0 <= i < |sources| && sources[i].Some? ==> Nested(sources[i].value)
    ensures forall i :: 0 <= i < |sources| ==> sources[i].Some?
    ensures var ps := Values(sources);
      (forall i :: 0 <= i < |ps| ==> Nested(ps[i])) && target !in ps
  {
    SourcesVerdictMeaning(target, sources, |sources|);
  }

  /** Once a source fails, the verdict on every longer prefix is that failure. */
  lemma {:induction false} SourcesFailureStays(target: PlanUnit, sources: seq<Option<PlanUnit>>, k: nat, m: nat)
    requires k <= m <= |sources| && SourcesVerdict(target, sources, k).Fail?
    ensures SourcesVerdict(target, sources, m) == SourcesVerdict(target, sources, k)
    decreases m - k
  {
    if k < m {
      SourcesFailureStays(target, sources, k + 1, m);
    }
  }

  /** The same-vehicle loop over the sources (model_constraint_interleave.go:310-315) on the first k. */
  ghost function SameVehicleVerdict(sources: seq<PlanUnit>, k: nat): Outcome<InterleaveError>
    requires k <= |sources| && forall i :: 0 <= i < |sources| ==> Nested(sources[i])
  {
    if k == 0 then Pass
    else
      match SameVehicleVerdict(sources, k - 1)
      case Fail(e) => Fail(e)
      case Pass => if AllSameVehicle(sources[k - 1]) then Pass else Fail(SourceNotSameVehicle(k - 1))
  }

  lemma {:induction false} SameVehicleVerdictMeaning(sources: seq<PlanUnit>, k: nat)
    requires k <= |sources| && forall i :: 0 <= i < |sources| ==> Nested(sources[i])
    ensures SameVehicleVerdict(sources, k).Pass? <==> forall i :: 0 <= i < k ==> AllSameVehicle(sources[i])
  {
    if k > 0 {
      SameVehicleVerdictMeaning(sources, k - 1);
    }
  }

  lemma {:induction false} SameVehicleFailureStays(sources: seq<PlanUnit>, k: nat, m: nat)
    requires k <= m <= |sources| && forall i :: 0 <= i < |sources| ==> Nested(sources[i])
    requires SameVehicleVerdict(sources, k).Fail?
    ensures SameVehicleVerdict(sources, m) == SameVehicleVerdict(sources, k)
    decreases m - k
  {
    if k < m {
      SameVehicleFailureStays(sources, k + 1, m);
    }
  }

  /** The plan units given to DisallowInterleaving are well built. */
  ghost predicate Arguments(target: Option<PlanUnit>, sources: Option<seq<Option<PlanUnit>>>)
  {
    (target.Some? ==> Nested(target.value)) &&
    (sources.Some? ==> forall i :: 0 <= i < |sources.value| && sources.value[i].Some? ==> Nested(sources.value[i].value))
  }

  /** The objects DisallowInterleaving looks at before it registers anything. */
  function Footprint(target: Option<PlanUnit>, sources: Option<seq<Option<PlanUnit>>>): set<object>
  {
    (if target.Some? then UnitObject(target.value) + LockOf(target.value) else {}) +
    (if sources.Some? then SourceObjects(sources.value) else {})
  }

  /** The checks of DisallowInterleaving (model_constraint_interleave.go:265-315), in their order. */
  ghost function Verdict(target: Option<PlanUnit>, sources: Option<seq<Option<PlanUnit>>>): Outcome<InterleaveError>
    requires Arguments(target, sources)
    reads Footprint(target, sources)
  {
    if target.None? then Fail(NilTarget)
    else if sources.None? then Fail(NilSources)
    else if |sources.value| == 0 then Pass
    else
      var t, ss := target.value, sources.value;
      if t.Parent() != null then Fail(TargetInPlanUnitsUnit)
      else if t.OfStops? && t.stopsUnit.stops[0].model.isLocked then Fail(ModelLocked)
      else
        match SourcesVerdict(t, ss, |ss|)
        case Fail(e) => Fail(e)
        case Pass =>
          SourcesVerdictMeaning(t, ss, |ss|);
          var ps := Values(ss);
          if !DistinctKeys(ps, IndexOf) then Fail(DuplicateSources)
          else if !AllSameVehicle(t) then Fail(TargetNotSameVehicle)
          else SameVehicleVerdict(ps, |ps|)
  }

  /**
   * The checks pass exactly when there is a target and a list of sources
   * and, unless that list is empty, the target belongs to no unit of plan
   * units and its model is not locked, no source is nil, in a unit of plan
   * units or the target itself, no two sources share an index, and the
   * target and every source keep the members of their plan-all units on
   * one vehicle.
   */
  lemma VerdictPass(target: Option<PlanUnit>, sources: Option<seq<Option<PlanUnit>>>)
    requires Arguments(target, sources)
    ensures Verdict(target, sources) == Pass <==>
      target.Some? && sources.Some? &&
      (|sources.value| > 0 ==>
        var t, ss := target.value, sources.value;
        t.Parent() == null && !(t.OfStops? && t.stopsUnit.stops[0].model.isLocked) &&
        (forall i :: 0 <= i < |ss| ==> ss[i].Some? && ss[i].value.Parent() == null && ss[i].value != t) &&
        DistinctKeys(Values(ss), IndexOf) && AllSameVehicle(t) &&
        forall i :: 0 <= i < |ss| ==> AllSameVehicle(ss[i].value))
  {
    if target.Some? && sources.Some? && |sources.value| > 0 {
      var t, ss := target.value, sources.value;
      SourcesVerdictMeaning(t, ss, |ss|);
      if SourcesVerdict(t, ss, |ss|).Pass? {
        var ps := Values(ss);
        SameVehicleVerdictMeaning(ps, |ps|);
      }
    }
  }

  /** A target listed among its own sources is refused. */
  lemma TargetAmongSourcesRefused(target: PlanUnit, sources: seq<Option<PlanUnit>>, i: nat)
    requires Arguments(Some(target), Some(sources))
    requires i < |sources| && sources[i] == Some(target)
    ensures Verdict(Some(target), Some(sources)).Fail?
  {
    VerdictPass(Some(target), Some(sources));
  }

  /** Two sources with the same index are refused. */
  lemma DuplicateSourcesRefused(target: PlanUnit, sources: seq<Option<PlanUnit>>, i: nat, j: nat)
    requires Arguments(Some(target), Some(sources))
    requires i < j < |sources| && sources[i].Some? && sources[j].Some?
    requires sources[i].value.Index() == sources[j].value.Index()
    ensures Verdict(Some(target), Some(sources)).Fail?
  {
    VerdictPass(Some(target), Some(sources));
  }

  /** FindIndex on the disallowed interleaves: the first entry for the target, or -1. */
  function FindTarget(entries: seq<DisallowedInterleave>, target: PlanUnit): (r: int)
    ensures -1 <= r < |entries|
    ensures r == -1 <==> forall i :: 0 <= i < |entries| ==> entries[i].target != target
    ensures r >= 0 ==> entries[r].target == target && forall i :: 0 <= i < r ==> entries[i].target != target
    decreases |entries|
  {
    if entries == [] then -1
    else if entries[0].target == target then 0
    else
      var r := FindTarget(entries[1..], target);
      assert forall i :: 1 <= i < |entries| ==> entries[i] == entries[1..][i - 1];
      if r == -1 then -1 else r + 1
  }

  /**
   * The registration at the end of DisallowInterleaving
   * (model_constraint_interleave.go:317-336): a new entry for a new target;
   * for a known target its sources followed by the new ones, each index kept
   * once.
   */
  function Registered(entries: seq<DisallowedInterleave>, target: PlanUnit, sources: seq<PlanUnit>): seq<DisallowedInterleave>
  {
    var k := FindTarget(entries, target);
    if k < 0 then entries + [DisallowedInterleave(target, sources)]
    else entries[k := entries[k].(sources := UniqueDefined(entries[k].sources + sources, IndexOf))]
  }

  /** Every target has one entry, and no entry lists a source twice or lists its own target. */
  predicate WellRegistered(entries: seq<DisallowedInterleave>)
  {
    (forall i, j :: 0 <= i < j < |entries| ==> entries[i].target != entries[j].target) &&
    (forall i :: 0 <= i < |entries| ==> DistinctKeys(entries[i].sources, IndexOf)) &&
    (forall i :: 0 <= i < |entries| ==> entries[i].target !in entries[i].sources)
  }

  /**
   * Keeping the first source of each index, in order, after sources that are
   * distinct already keeps those sources in front and every index once.
   */
  lemma {:induction false} UniqueAfterDistinct(a: seq<PlanUnit>, b: seq<PlanUnit>)
    requires DistinctKeys(a, IndexOf)
    ensures var r := UniqueDefined(a + b, IndexOf);
      |r| >= |a| && r[..|a|] == a && DistinctKeys(r, IndexOf) &&
      Keys(r, IndexOf) == Keys(a, IndexOf) + Keys(b, IndexOf)
    decreases |b|
  {
    UniqueKeys(a + b, IndexOf);
    KeysConcat(a, b);
    if b == [] {
      assert a + b == a;
      UniqueOfDistinct(a, IndexOf);
    } else {
      var init := b[..|b| - 1];
      UniqueAfterDistinct(a, init);
      assert (a + b)[..|a + b| - 1] == a + init;
    }
  }

  lemma {:induction false} KeysConcat(a: seq<PlanUnit>, b: seq<PlanUnit>)
    ensures Keys(a + b, IndexOf) == Keys(a, IndexOf) + Keys(b, IndexOf)
    decreases |b|
  {
    if b == [] {
      assert a + b == a;
    } else {
      var init := b[..|b| - 1];
      KeysConcat(a, init);
      assert (a + b)[..|a + b| - 1] == a + init;
    }
  }

  /**
   * A registration for a known target keeps every other entry, keeps the
   * known sources in front, adds the new ones and lists every index once; a
   * new target gets an entry of its own at the end.
   */
  lemma RegisteredMerges(entries: seq<DisallowedInterleave>, target: PlanUnit, sources: seq<PlanUnit>)
    requires WellRegistered(entries)
    ensures var r := Registered(entries, target, sources); var k := FindTarget(entries, target);
      (k < 0 ==> r == entries + [DisallowedInterleave(target, sources)]) &&
      (k >= 0 ==>
        |r| == |entries| && r[k].target == target &&
        (forall i :: 0 <= i < |entries| && i != k ==> r[i] == entries[i]) &&
        |r[k].sources| >= |entries[k].sources| && r[k].sources[..|entries[k].sources|] == entries[k].sources &&
        DistinctKeys(r[k].sources, IndexOf) &&
        Keys(r[k].sources, IndexOf) == Keys(entries[k].sources, IndexOf) + Keys(sources, IndexOf))
  {
    var k := FindTarget(entries, target);
    if k >= 0 {
      UniqueAfterDistinct(entries[k].sources, sources);
    }
  }

  /**
   * Registering a target with distinct sources that do not include it keeps
   * every target to one entry, with its sources distinct and without itself.
   */
  lemma RegisteredWell(entries: seq<DisallowedInterleave>, target: PlanUnit, sources: seq<PlanUnit>)
    requires WellRegistered(entries)
    requires DistinctKeys(sources, IndexOf) && target !in sources
    ensures WellRegistered(Registered(entries, target, sources))
  {
    var k := FindTarget(entries, target);
    if k >= 0 {
      var merged := UniqueDefined(entries[k].sources + sources, IndexOf);
      UniqueAfterDistinct(entries[k].sources, sources);
      assert target !in merged;
    }
  }

  /** The interleave constraint: the targets registered so far with their sources. */
  class InterleaveConstraint {
    var disallowedInterleaves: seq<DisallowedInterleave>

    predicate Valid()
      reads this
    {
      WellRegistered(disallowedInterleaves)
    }

    /** NewInterleaveConstraint (model_constraint_interleave.go:35-45): no disallowed interleaves yet. */
    constructor ()
      ensures disallowedInterleaves == [] && Valid()
    {
      disallowedInterleaves := [];
    }

    /** DisallowedInterleaves (model_constraint_interleave.go:209-211). */
    function DisallowedInterleaves(): (r: seq<DisallowedInterleave>)
      reads this
      requires Valid()
      ensures WellRegistered(r)
    {
      disallowedInterleaves
    }

    /**
     * DisallowInterleaving (model_constraint_interleave.go:265-339): the
     * checks in their order; when they pass and there are sources, the
     * target is registered with them.
     */
    method DisallowInterleaving(target: Option<PlanUnit>, sources: Option<seq<Option<PlanUnit>>>)
      returns (r: Outcome<InterleaveError>)
      requires Valid() && Arguments(target, sources)
      modifies this
      ensures r == old(Verdict(target, sources))
      ensures r.Pass? && |sources.value| > 0 ==>
        var ss := sources.value;
        (forall i :: 0 <= i < |ss| ==> ss[i].Some?) &&
        disallowedInterleaves == Registered(old(disallowedInterleaves), target.value, Values(ss))
      ensures r.Fail? || |sources.value| == 0 ==> disallowedInterleaves == old(disallowedInterleaves)
      ensures Valid()
    {
      if target.None? {
        return Fail(NilTarget);
      }
      if sources.None? {
        return Fail(NilSources);
      }
      var t, ss := target.value, sources.value;
      if |ss| == 0 {
        return Pass;
      }
      if t.Parent() != null {
        return Fail(TargetInPlanUnitsUnit);
      }
      if t.OfStops? && t.stopsUnit.stops[0].model.isLocked {
        return Fail(ModelLocked);
      }
      ghost var verdict := Verdict(target, sources);
      assert forall o :: o in SourceObjects(ss) ==> allocated(o);
      var checked := CheckSources(t, ss);
      if checked.Fail? {
        return checked;
      }
      SourcesPassed(t, ss);
      var ps := Values(ss);
      var uniqueSources := UniqueDefined(ps, IndexOf);
      UniqueSameLength(ps, IndexOf);
      if |uniqueSources| != |ps| {
        return Fail(DuplicateSources);
      }
      assert verdict == if AllSameVehicle(t) then SameVehicleVerdict(ps, |ps|) else Fail(TargetNotSameVehicle);
      var err := VerifyPlanUnitAllOnSameVehicle(t, TargetNotSameVehicle);
      if err.Fail? {
        return err;
      }
      err := CheckSourcesSameVehicle(ps);
      if err.Fail? {
        return err;
      }
      Register(t, ps);
      return Pass;
    }

    /**
     * The end of DisallowInterleaving (model_constraint_interleave.go:318-336):
     * a target without an entry gets a new one, otherwise the sources join
     * its entry without repeats; the registrations stay well formed.
     */
    method Register(t: PlanUnit, ps: seq<PlanUnit>)
      requires Valid() && DistinctKeys(ps, IndexOf) && t !in ps
      modifies this
      ensures disallowedInterleaves == Registered(old(disallowedInterleaves), t, ps)
      ensures Valid()
    {
      RegisteredWell(disallowedInterleaves, t, ps);
      var index := FindTarget(disallowedInterleaves, t);
      if index < 0 {
        disallowedInterleaves := disallowedInterleaves + [DisallowedInterleave(t, ps)];
      } else {
        var entry := disallowedInterleaves[index];
        disallowedInterleaves := disallowedInterleaves[index := entry.(sources := UniqueDefined(entry.sources + ps, IndexOf))];
      }
    }
  }

  /** The source loop of DisallowInterleaving (model_constraint_interleave.go:288-298). */
  method CheckSources(target: PlanUnit, sources: seq<Option<PlanUnit>>) returns (r: Outcome<InterleaveError>)
    ensures r == SourcesVerdict(target, sources, |sources|)
  {
    var idx := 0;
    while idx < |sources|
      invariant 0 <= idx <= |sources| && SourcesVerdict(target, sources, idx) == Pass
    {
      var v := SourceVerdict(target, sources, idx);
      if v.Fail? {
        SourcesFailureStays(target, sources, idx + 1, |sources|);
        return v;
      }
      idx := idx + 1;
    }
    return Pass;
  }

  /** The same-vehicle loop over the sources (model_constraint_interleave.go:310-315). */
  method CheckSourcesSameVehicle(sources: seq<PlanUnit>) returns (r: Outcome<InterleaveError>)
    requires forall i :: 0 <= i < |sources| ==> Nested(sources[i])
    ensures r == SameVehicleVerdict(sources, |sources|)
  {
    var idx := 0;
    while idx < |sources|
      invariant 0 <= idx <= |sources| && SameVehicleVerdict(sources, idx) == Pass
    {
      var err := VerifyPlanUnitAllOnSameVehicle(sources[idx], SourceNotSameVehicle(idx));
      if err.Fail? {
        SameVehicleFailureStays(sources, idx + 1, |sources|);
        return err;
      }
      idx := idx + 1;
    }
    return Pass;
  }
}
