// Vehicles of the model and their start assignment of stops (model_vehicle.go).
module ModelVehicle {
  import opened Wrappers
  import opened ModelStop

  datatype VehicleError =
    | FirstHasPlanUnit
    | LastHasPlanUnit
    | ModelLocked
    | NilStop
    | StopIsFirstOrLast
    | StopWithoutPlanUnit
    | AlreadyOnVehicle(vehicle: int)

  class Vehicle {
    const model: Model
    const index: int
    /** The first stop, the assigned stops in order, then the last stop. */
    var stops: seq<Stop>

    constructor (model: Model, index: int, first: Stop, last: Stop)
      ensures this.model == model && this.index == index && stops == [first, last]
    {
      this.model := model;
      this.index := index;
      stops := [first, last];
    }

    /** A vehicle always holds its first and its last stop. */
    predicate Valid()
      reads this
    {
      |stops| >= 2
    }

    function First(): (r: Stop)
      requires Valid()
      reads this
      ensures r in stops
    {
      stops[0]
    }

    function Last(): (r: Stop)
      requires Valid()
      reads this
      ensures r in stops
    {
      stops[|stops| - 1]
    }

    /** The assigned stops: every stop strictly between the first and the last one. */
    function Stops(): (r: seq<Stop>)
      requires Valid()
      reads this
      ensures |r| == |stops| - 2
      ensures forall i :: 0 <= i < |r| ==> r[i] == stops[i + 1]
      ensures [First()] + r + [Last()] == stops
    {
      stops[1..|stops| - 1]
    }

    /**
     * The checks of AddStop, in order: a locked model, a nil stop, a first
     * or last stop, a stop without a plan unit, and a stop already assigned
     * to a vehicle. Go formats the stop's ID into the locked-model error, so
     * a nil stop on a locked model panics there; the model reports
     * ModelLocked for it.
     */
    function AddStopVerdict(stop: Stop?): (r: Outcome<VehicleError>)
      reads model, stop
      ensures r.Pass? <==>
        !model.isLocked && stop != null && !stop.firstOrLast && stop.planUnit.Some? && stop.index !in model.stopVehicles
    {
      if model.isLocked then Fail(ModelLocked)
      else if stop == null then Fail(NilStop)
      else if stop.firstOrLast then Fail(StopIsFirstOrLast)
      else if stop.planUnit.None? then Fail(StopWithoutPlanUnit)
      else if stop.index in model.stopVehicles then Fail(AlreadyOnVehicle(model.stopVehicles[stop.index]))
      else Pass
    }

    /**
     * Assigns a stop to the vehicle, just before its last stop, unless one of
     * the checks of AddStopVerdict fails; on success records the vehicle of
     * the stop in the stop's model and its fixed flag.
     */
    method AddStop(stop: Stop?, fixed: bool) returns (r: Outcome<VehicleError>)
      requires Valid()
      modifies this, if stop == null then {} else {stop, stop.model}
      ensures Valid()
      ensures r == old(AddStopVerdict(stop))
      ensures r.Fail? ==> stops == old(stops) && (stop != null ==> unchanged(stop, stop.model))
      ensures r.Pass? ==>
        Stops() == old(Stops()) + [stop] && First() == old(First()) && Last() == old(Last()) &&
        stop.model.stopVehicles == old(stop.model.stopVehicles)[stop.index := index] &&
        stop.fixed == fixed
      ensures r.Pass? ==>
        stop.model.isLocked == old(stop.model.isLocked) && stop.model.stopCount == old(stop.model.stopCount) &&
        stop.planUnit == old(stop.planUnit) && stop.firstOrLast == old(stop.firstOrLast) &&
        stop.windows == old(stop.windows) && stop.windowChecker == old(stop.windowChecker) &&
        stop.earliestStartTime == old(stop.earliestStartTime)
    {
      if model.isLocked {
        return Fail(ModelLocked);
      }
      if stop == null {
        return Fail(NilStop);
      }
      if stop.firstOrLast {
        return Fail(StopIsFirstOrLast);
      }
      if stop.planUnit.None? {
        return Fail(StopWithoutPlanUnit);
      }
      if stop.index in model.stopVehicles {
        return Fail(AlreadyOnVehicle(model.stopVehicles[stop.index]));
      }
      stop.model.stopVehicles := stop.model.stopVehicles[stop.index := index];
      stop.fixed := fixed;
      var last := stops[|stops| - 1];
      ghost var before := stops;
      stops := stops + [last];
      stops := stops[|stops| - 2 := stop];
      BeforeLast(before, stop, stops);
      return Pass;
    }
  }

  /**
   * Appending a copy of the last stop and overwriting the old last place
   * with x puts x just before the last stop.
   */
  lemma BeforeLast(s: seq<Stop>, x: Stop, t: seq<Stop>)
    requires |s| >= 2 && t == (s + [s[|s| - 1]])[|s| - 1 := x]
    ensures |t| == |s| + 1 && t[0] == s[0] && t[|t| - 1] == s[|s| - 1]
    ensures t[1..|t| - 1] == s[1..|s| - 1] + [x]
  {
  }

  /**
   * A vehicle whose stops are just its first and last stop, both marked fixed
   * and first-or-last. A first or last stop that already belongs to a plan
   * unit is refused, the first before the last, and nothing changes then.
   */
  method NewModelVehicle(model: Model, index: int, first: Stop, last: Stop) returns (r: Result<Vehicle, VehicleError>)
    modifies first, last
    ensures old(first.planUnit).Some? ==> r == Err(FirstHasPlanUnit)
    ensures old(first.planUnit).None? && old(last.planUnit).Some? ==> r == Err(LastHasPlanUnit)
    ensures r.Err? ==> unchanged(first, last)
    ensures r.Ok? <==> old(first.planUnit).None? && old(last.planUnit).None?
    ensures r.Ok? ==>
      fresh(r.value) && r.value.model == model && r.value.index == index &&
      r.value.Valid() && r.value.Stops() == [] && r.value.First() == first && r.value.Last() == last
    ensures r.Ok? ==> first.firstOrLast && first.fixed && last.firstOrLast && last.fixed
    ensures first.planUnit == old(first.planUnit) && last.planUnit == old(last.planUnit)
    ensures first.windows == old(first.windows) && first.windowChecker == old(first.windowChecker)
    ensures last.windows == old(last.windows) && last.windowChecker == old(last.windowChecker)
    ensures first.earliestStartTime == old(first.earliestStartTime)
    ensures last.earliestStartTime == old(last.earliestStartTime)
  {
    if first.planUnit.Some? {
      return Err(FirstHasPlanUnit);
    }
    if last.planUnit.Some? {
      return Err(LastHasPlanUnit);
    }
    first.firstOrLast := true;
    first.fixed := true;
    last.fixed := true;
    last.firstOrLast := true;
    var v := new Vehicle(model, index, first, last);
    return Ok(v);
  }

  /**
   * Assigning stops one after another lists them, in that order, between the
   * first and the last stop (model_vehicle_test.go:12-44 counts them); a stop
   * already on the vehicle and the vehicle's first stop are then refused.
   */
  method AddStopsScenario(m: Model, first: Stop, last: Stop, a: Stop, b: Stop)
    requires !m.isLocked && m.stopVehicles == map[]
    requires first.planUnit.None? && last.planUnit.None?
    requires a.model == m && b.model == m && first.model == m && a.index != b.index
    requires a.planUnit.Some? && b.planUnit.Some? && !a.firstOrLast && !b.firstOrLast
    requires a != first && a != last && b != first && b != last
    modifies m, first, last, a, b
  {
    var created := NewModelVehicle(m, 0, first, last);
    var v := created.value;
    AddTwoStops(m, v, a, b);
    assert v.stops == [first, a, b, last];
    AddStopRefused(m, v, first, a);
  }

  /** Two stops added one after the other are listed in that order. */
  method AddTwoStops(m: Model, v: Vehicle, a: Stop, b: Stop)
    requires v.Valid() && v.Stops() == [] && v.model == m && v.index == 0
    requires !m.isLocked && m.stopVehicles == map[]
    requires a.model == m && b.model == m && a.index != b.index
    requires a.planUnit.Some? && b.planUnit.Some? && !a.firstOrLast && !b.firstOrLast
    modifies v, m, a, b
    ensures v.Valid() && v.Stops() == [a, b] && v.First() == old(v.First()) && v.Last() == old(v.Last())
    ensures !m.isLocked && m.stopVehicles == map[a.index := 0, b.index := 0]
    ensures a.planUnit.Some? && !a.firstOrLast
  {
    var r1 := v.AddStop(a, true);
    assert r1 == Pass;
    var r2 := v.AddStop(b, false);
    assert r2 == Pass;
  }

  /** A stop already on a vehicle, and a first stop, are refused. */
  method AddStopRefused(m: Model, v: Vehicle, first: Stop, a: Stop)
    requires v.Valid() && v.model == m && !m.isLocked
    requires a.index in m.stopVehicles && m.stopVehicles[a.index] == 0
    requires !a.firstOrLast && a.planUnit.Some? && first.firstOrLast
    modifies v, a, a.model, first, first.model
  {
    var again := v.AddStop(a, false);
    assert again == Fail(AlreadyOnVehicle(0));
    var edge := v.AddStop(first, false);
    assert edge == Fail(StopIsFirstOrLast);
  }
}
