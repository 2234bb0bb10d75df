// Stops of the model: time windows, earliest start and the earliest-start
// lookup (model_stop.go), with the part of the model they read (model.go).
// Times are whole seconds; absolute times are seconds since the Unix epoch.
module ModelStop {
  import opened Wrappers
  import opened RangeCheck

  datatype StopError =
    | Locked
    | EpochNotOnMinute
    | InvalidWindow(i: int)
    | OverlappingWindows(i: int, j: int)
    | StartNotOnMinute(i: int)
    | EndNotOnMinute(i: int)
    | WindowChecker(e: RangeError)
    | BothEarliestStartAndWindows

  /** Instants on a minute boundary. */
  type MinuteInstant = t: int | t % 60 == 0

  function Max(a: int, b: int): int
  {
    if a >= b then a else b
  }

  /** The model state stops and vehicles read and write. */
  class Model {
    var isLocked: bool
    /** The epoch is on a minute boundary (model.go:219-222). */
    const epoch: MinuteInstant
    /** Stop index to the index of the vehicle it was added to. */
    var stopVehicles: map<int, int>
    var stopCount: nat

    constructor (epoch: MinuteInstant)
      ensures this.epoch == epoch && !isLocked && stopVehicles == map[] && stopCount == 0
    {
      this.epoch := epoch;
      isLocked := false;
      stopVehicles := map[];
      stopCount := 0;
    }

    /** Locking forgets the start assignments and freezes the model. */
    method Lock()
      modifies this
      ensures isLocked && stopVehicles == map[] && stopCount == old(stopCount)
    {
      stopVehicles := map[];
      isLocked := true;
    }

    /** A new stop with the next index, or an error once the model is locked. */
    method NewStop() returns (r: Result<Stop, StopError>)
      modifies this
      ensures old(isLocked) ==> r == Err(Locked) && unchanged(this)
      ensures !old(isLocked) ==> r.Ok? && fresh(r.value) && r.value.Fresh(this, old(stopCount))
      ensures !old(isLocked) ==> stopCount == old(stopCount) + 1
      ensures isLocked == old(isLocked) && stopVehicles == old(stopVehicles)
    {
      if isLocked {
        return Err(Locked);
      }
      var s := new Stop(this, stopCount);
      stopCount := stopCount + 1;
      return Ok(s);
    }
  }

  /**
   * A new model on the Unix epoch. The epoch is fixed, so its minute-boundary
   * check (model.go:219-222) never refuses and the model is always returned.
   */
  method NewModel() returns (r: Result<Model, StopError>)
    ensures r.Ok? && fresh(r.value) && r.value.epoch == 0 && !r.value.isLocked
    ensures r.value.stopVehicles == map[] && r.value.stopCount == 0
  {
    var epoch := 0;
    if epoch % 60 != 0 {
      return Err(EpochNotOnMinute);
    }
    var m := new Model(epoch);
    return Ok(m);
  }

  // ---------------------------------------------------------------------
  // Window validation

  /** The checks of one window: ordered, after the previous one, both ends on a minute. */
  predicate WindowOk(ws: seq<(int, int)>, i: int)
    requires 0 <= i < |ws|
  {
    ws[i].0 <= ws[i].1 && (i > 0 ==> ws[i].0 >= ws[i - 1].1) &&
    ws[i].0 % 60 == 0 && ws[i].1 % 60 == 0
  }

  /** The first complaint of SetWindows' validation loop from window i on. */
  function WindowsError(ws: seq<(int, int)>, i: nat): (r: Option<StopError>)
    ensures r == None <==> forall j :: i <= j < |ws| ==> WindowOk(ws, j)
    ensures r == None ==> forall j :: i <= j < |ws| ==> ws[j].0 <= ws[j].1
    decreases |ws| - i
  {
    if i >= |ws| then None
    else if ws[i].0 > ws[i].1 then assert !WindowOk(ws, i); Some(InvalidWindow(i))
    else if i > 0 && ws[i].0 < ws[i - 1].1 then assert !WindowOk(ws, i); Some(OverlappingWindows(i - 1, i))
    else if ws[i].0 % 60 != 0 then assert !WindowOk(ws, i); Some(StartNotOnMinute(i))
    else if ws[i].1 % 60 != 0 then assert !WindowOk(ws, i); Some(EndNotOnMinute(i))
    else WindowsError(ws, i + 1)
  }

  /** A reported complaint names a window at or after i that fails its check, and all before it pass. */
  lemma {:induction false} WindowsErrorFirst(ws: seq<(int, int)>, i: nat)
    requires WindowsError(ws, i).Some?
    ensures exists j :: i <= j < |ws| && !WindowOk(ws, j) && forall l :: i <= l < j ==> WindowOk(ws, l)
    decreases |ws| - i
  {
    if WindowOk(ws, i) {
      WindowsErrorFirst(ws, i + 1);
      var j :| i + 1 <= j < |ws| && !WindowOk(ws, j) && forall l :: i + 1 <= l < j ==> WindowOk(ws, l);
      assert forall l :: i <= l < j ==> WindowOk(ws, l);
    }
  }

  /** The windows as seconds after the epoch. */
  function Relative(ws: seq<(int, int)>, epoch: int): (r: seq<(int, int)>)
    ensures |r| == |ws|
    ensures forall i :: 0 <= i < |ws| ==> r[i] == (ws[i].0 - epoch, ws[i].1 - epoch)
  {
    seq(|ws|, i requires 0 <= i < |ws| => (ws[i].0 - epoch, ws[i].1 - epoch))
  }

  /** Validated windows, taken relative to a whole-minute epoch, keep whole-minute bounds. */
  lemma RelativeAligned(ws: seq<(int, int)>, epoch: int)
    requires epoch % 60 == 0
    requires forall j :: 0 <= j < |ws| ==> WindowOk(ws, j)
    ensures forall i :: 0 <= i < |ws| ==> Relative(ws, epoch)[i].0 <= Relative(ws, epoch)[i].1
    ensures Aligned(Convert(Relative(ws, epoch)))
  {
    var rel := Relative(ws, epoch);
    forall i | 0 <= i < |ws| ensures rel[i].0 <= rel[i].1 {
      assert WindowOk(ws, i);
    }
    forall w | w in Convert(rel) ensures w.min % 60 == 0 && w.max % 60 == 0 {
      var i :| 0 <= i < |rel| && Convert(rel)[i] == w;
      assert WindowOk(ws, i);
      DiffAligned(ws[i].0, epoch);
      DiffAligned(ws[i].1, epoch);
    }
  }

  lemma DiffAligned(a: int, e: int)
    requires a % 60 == 0 && e % 60 == 0
    ensures (a - e) % 60 == 0
  {
    assert a == 60 * (a / 60);
    assert e == 60 * (e / 60);
    assert a - e == 60 * (a / 60 - e / 60);
  }

  class Stop {
    const model: Model
    const index: int
    /** Index of the plan stops unit the stop belongs to, if any. */
    var planUnit: Option<int>
    var firstOrLast: bool
    var fixed: bool
    /** The windows in seconds after the epoch, once set. */
    var windows: Option<seq<(int, int)>>
    var windowChecker: Option<Checker>
    /** Seconds after the epoch; 0 stands for no earliest start. */
    var earliestStartTime: int

    constructor (model: Model, index: int)
      ensures Fresh(model, index)
    {
      this.model := model;
      this.index := index;
      planUnit := None;
      firstOrLast := false;
      fixed := false;
      windows := None;
      windowChecker := None;
      earliestStartTime := 0;
    }

    /** The state of a stop just created by the model. */
    predicate Fresh(m: Model, i: int)
      reads this
    {
      model == m && index == i && planUnit.None? && !firstOrLast && !fixed &&
      windows.None? && windowChecker.None? && earliestStartTime == 0
    }

    /** The window checker, when there is one, is the checker of the stored windows. */
    predicate Valid()
      reads this, model
    {
      model.epoch % 60 == 0 &&
      (windowChecker.Some? ==>
        windows.Some? && |windows.value| > 0 &&
        (forall i :: 0 <= i < |windows.value| ==> windows.value[i].0 <= windows.value[i].1) &&
        Aligned(Convert(windows.value)) && Accepted(windows.value) &&
        windowChecker.value == CheckerOf(windows.value))
    }

    /**
     * Validates the windows in order, stores them as seconds after the epoch
     * and builds their checker. A checker error comes after the windows were
     * stored, and leaves the previous checker in place.
     */
    method SetWindows(ws: seq<(int, int)>) returns (r: Outcome<StopError>)
      modifies this
      ensures old(model.isLocked) ==> r == Fail(Locked) && unchanged(this)
      ensures !old(model.isLocked) && |ws| == 0 ==> r == Pass && unchanged(this)
      ensures !old(model.isLocked) && |ws| > 0 && WindowsError(ws, 0).Some? ==>
        r == Fail(WindowsError(ws, 0).value) && unchanged(this)
      ensures !old(model.isLocked) && |ws| > 0 && WindowsError(ws, 0).None? ==>
        windows == Some(Relative(ws, model.epoch)) &&
        (r.Pass? <==> Accepted(Relative(ws, model.epoch))) &&
        (r.Pass? ==> windowChecker == Some(CheckerOf(Relative(ws, model.epoch)))) &&
        (r.Fail? ==>
          windowChecker == old(windowChecker) &&
          r == Fail(WindowChecker(if HasOverlap(Processed(Relative(ws, model.epoch))) then Overlap else NegativeTime)))
      ensures planUnit == old(planUnit) && firstOrLast == old(firstOrLast) && fixed == old(fixed)
      ensures earliestStartTime == old(earliestStartTime)
      ensures old(Valid()) && r.Pass? ==> Valid()
    {
      if model.isLocked {
        return Fail(Locked);
      }
      if |ws| == 0 {
        return Pass;
      }
      var i := 0;
      while i < |ws|
        invariant 0 <= i <= |ws|
        invariant WindowsError(ws, 0) == WindowsError(ws, i)
      {
        var start, end := ws[i].0, ws[i].1;
        if start > end {
          return Fail(InvalidWindow(i));
        }
        if i > 0 && start < ws[i - 1].1 {
          return Fail(OverlappingWindows(i - 1, i));
        }
        if start % 60 != 0 {
          return Fail(StartNotOnMinute(i));
        }
        if end % 60 != 0 {
          return Fail(EndNotOnMinute(i));
        }
        i := i + 1;
      }
      var inSeconds := RelativeLoop(ws, model.epoch);
      windows := Some(inSeconds);
      RelativeAligned(ws, model.epoch);
      var checker := NewIntervalCheckerSliceLookup(inSeconds);
      if checker.Err? {
        return Fail(WindowChecker(checker.error));
      }
      windowChecker := Some(checker.value);
      return Pass;
    }

    /** Records the earliest start as seconds after the epoch, unless the model is locked. */
    method SetEarliestStart(t: int) returns (r: Outcome<StopError>)
      modifies this
      ensures old(model.isLocked) ==> r == Fail(Locked) && unchanged(this)
      ensures !old(model.isLocked) ==> r == Pass && earliestStartTime == t - model.epoch
      ensures windows == old(windows) && windowChecker == old(windowChecker)
      ensures planUnit == old(planUnit) && firstOrLast == old(firstOrLast) && fixed == old(fixed)
      ensures old(Valid()) ==> Valid()
    {
      if model.isLocked {
        return Fail(Locked);
      }
      earliestStartTime := t - model.epoch;
      return Pass;
    }

    /** A stop may have an earliest start or windows, not both. */
    function Validate(): (r: Outcome<StopError>)
      reads this
      ensures r.Fail? <==> earliestStartTime != 0 && windows.Some?
      ensures r.Fail? ==> r.error == BothEarliestStartAndWindows
    {
      if earliestStartTime != 0 && windows.Some? then Fail(BothEarliestStartAndWindows) else Pass
    }

    /**
     * The earliest service start for an arrival at the given second after the
     * epoch: with a window checker, the arrival itself when inside a window,
     * else the next opening when there is one, else the arrival; without one,
     * the later of the arrival and the earliest start.
     */
    function ToEarliestStartValue(arrival: int): (r: int)
      reads this
      ensures windowChecker.Some? ==> r == arrival || r == Check(windowChecker.value, arrival).1
      ensures windowChecker.None? && earliestStartTime == 0 ==> r == arrival
      ensures windowChecker.None? && earliestStartTime != 0 ==>
        r >= arrival && r >= earliestStartTime && (r == arrival || r == earliestStartTime)
    {
      if windowChecker.Some? then
        var (inWindow, windowOpening) := Check(windowChecker.value, arrival);
        if inWindow then arrival
        else if windowOpening > 0 then windowOpening
        else arrival
      else if earliestStartTime == 0 then arrival
      else Max(arrival, earliestStartTime)
    }
  }

  /** The conversion loop of SetWindows. */
  method RelativeLoop(ws: seq<(int, int)>, epoch: int) returns (r: seq<(int, int)>)
    ensures r == Relative(ws, epoch)
  {
    r := [];
    var i := 0;
    while i < |ws|
      invariant 0 <= i <= |ws|
      invariant r == Relative(ws, epoch)[..i]
    {
      r := r + [(ws[i].0 - epoch, ws[i].1 - epoch)];
      i := i + 1;
    }
  }

  /** Some window contains the time. */
  predicate Covered(ws: seq<(int, int)>, t: int)
  {
    exists w :: w in Convert(ws) && InInterval(w, t)
  }

  /**
   * With valid windows and an arrival at or after the epoch: inside a window
   * the service starts on arrival; before a window it starts at the earliest
   * later opening; after the last window it starts on arrival.
   *
   * Before the epoch the source's guards read differently. An arrival a minute
   * or more early gets the first opening, except that an opening at second 0
   * is not positive and the arrival comes back. An arrival in the minute just
   * before falls, by the truncating division, in minute 0 and is answered as
   * second 0 is, with the arrival itself when second 0 is covered.
   */
  lemma EarliestStartMeetsWindows(s: Stop, t: int)
    requires s.Valid() && s.windowChecker.Some?
    ensures t >= 0 && Covered(s.windows.value, t) ==> s.ToEarliestStartValue(t) == t
    ensures t >= 0 && !Covered(s.windows.value, t) && OpensAfter(s.windows.value, t) ==>
              IsEarliestOpening(Convert(s.windows.value), t, s.ToEarliestStartValue(t))
    ensures t >= 0 && !OpensAfter(s.windows.value, t) ==> s.ToEarliestStartValue(t) == t
    ensures t <= -60 ==>
              !Covered(s.windows.value, t) &&
              (IsEarliestOpening(Convert(s.windows.value), t, s.ToEarliestStartValue(t)) ||
               (s.ToEarliestStartValue(t) == t && IsEarliestOpening(Convert(s.windows.value), t, 0)))
    ensures -60 < t < 0 && Covered(s.windows.value, 0) ==> s.ToEarliestStartValue(t) == t
    ensures -60 < t < 0 && !Covered(s.windows.value, 0) && OpensAfter(s.windows.value, 0) ==>
              IsEarliestOpening(Convert(s.windows.value), 0, s.ToEarliestStartValue(t))
    ensures -60 < t < 0 && !OpensAfter(s.windows.value, 0) ==> s.ToEarliestStartValue(t) == t
  {
    var ws := s.windows.value;
    if t >= 0 {
      CheckerMeetsWindows(ws, t);
    } else if t <= -60 {
      CheckerBeforeEpoch(ws, t);
      OpensBeforeEpoch(ws, t);
    } else {
      CheckerBeforeEpoch(ws, t);
      CheckerMeetsWindows(ws, 0);
    }
  }

  /** Some window opens after t. */
  predicate OpensAfter(ws: seq<(int, int)>, t: int)
  {
    exists w :: w in Convert(ws) && w.min > t
  }

  /** Accepted windows have no negative start, so every one of them opens after a negative time. */
  lemma OpensBeforeEpoch(ws: seq<(int, int)>, t: int)
    requires |ws| > 0 && Accepted(ws) && t < 0
    ensures OpensAfter(ws, t)
  {
    var p := Processed(ws);
    assert p[0].min >= 0;
    assert p[0] in Convert(ws);
  }
}
