// Integer solver parameters that adapt after runs of non-improving
// iterations (solve_parameters.go).
module SolveParameters {
  import opened Wrappers

  datatype ParameterError =
    | NegativeDeltaAfterIterations(deltaAfterIterations: int)
    | StartBelowMin(startValue: int, minValue: int)
    | StartAboveMax(startValue: int, maxValue: int)

  /** The fields of an adaptive parameter that never change after construction. */
  datatype Config = Config(
    startValue: int,
    startDelta: int,
    deltaAfterIterations: int,
    minValue: int,
    maxValue: int,
    snapBackAfterImprovement: bool,
    zigzag: bool)

  /** The fields that Update changes. */
  datatype State = State(value: int, delta: int, iterations: int)

  function Abs(x: int): int { if x < 0 then -x else x }

  /**
   * The delta a new parameter starts with: a start at the maximum gets a
   * non-negative delta and a start at the minimum a non-positive one, so that
   * the flip at a boundary in Update turns the first step inwards.
   */
  function NormalizedDelta(startValue: int, minValue: int, maxValue: int, delta: int): (r: int)
    ensures Abs(r) == Abs(delta)
    ensures startValue == minValue ==> r == -Abs(delta)
    ensures startValue == maxValue && startValue != minValue ==> r == Abs(delta)
    ensures startValue != minValue && startValue != maxValue ==> r == delta
  {
    var d1 := if startValue == maxValue && delta < 0 then -delta else delta;
    if startValue == minValue && d1 > 0 then -d1 else d1
  }

  /** The range and counter invariant every reachable state keeps. */
  predicate Inv(c: Config, s: State)
  {
    c.minValue <= s.value <= c.maxValue && 0 <= s.iterations <= c.deltaAfterIterations
  }

  function Clamp(x: int, lo: int, hi: int): int
  {
    if x > hi then hi else if x < lo then lo else x
  }

  /** One call of Update with the solver's score change `deltaScore`. */
  function Step(c: Config, s: State, deltaScore: real): State
  {
    if deltaScore < 0.0 then
      if c.snapBackAfterImprovement && s.value != c.startValue then
        State(c.startValue, c.startDelta, 0)
      else
        s.(iterations := 0)
    else if s.iterations + 1 > c.deltaAfterIterations then
      var d := if s.value == c.maxValue || s.value == c.minValue then -s.delta else s.delta;
      State(Clamp(s.value + d, c.minValue, c.maxValue), d, 0)
    else
      s.(iterations := s.iterations + 1)
  }

  /** Every Update keeps the value within [minValue, maxValue] and the counter bounded. */
  lemma StepKeepsInv(c: Config, s: State, deltaScore: real)
    requires Inv(c, s)
    requires c.minValue <= c.startValue <= c.maxValue
    ensures Inv(c, Step(c, s, deltaScore))
  {
  }

  /** An improvement resets the counter; with snap-back it returns to the start value. */
  lemma ImprovementResets(c: Config, s: State, deltaScore: real)
    requires deltaScore < 0.0
    ensures Step(c, s, deltaScore).iterations == 0
    ensures c.snapBackAfterImprovement ==> Step(c, s, deltaScore).value == c.startValue
    ensures c.snapBackAfterImprovement && s.value != c.startValue ==> Step(c, s, deltaScore).delta == c.startDelta
    ensures !c.snapBackAfterImprovement ==> Step(c, s, deltaScore) == s.(iterations := 0)
  {
  }

  /** The step that exhausts the patience flips the delta at a boundary first, then moves. */
  lemma StepAtBoundary(c: Config, s: State, deltaScore: real)
    requires deltaScore >= 0.0 && s.iterations + 1 > c.deltaAfterIterations
    ensures var d := if s.value == c.maxValue || s.value == c.minValue then -s.delta else s.delta;
      Step(c, s, deltaScore) == State(Clamp(s.value + d, c.minValue, c.maxValue), d, 0)
  {
  }

  /** Update never looks at the zigzag flag. */
  lemma ZigzagIgnored(c: Config, s: State, deltaScore: real)
    ensures Step(c, s, deltaScore) == Step(c.(zigzag := !c.zigzag), s, deltaScore)
  {
  }

  /** The state after a run of updates with the given score changes. */
  function Run(c: Config, s: State, scores: seq<real>): State
    decreases |scores|
  {
    if scores == [] then s else Run(c, Step(c, s, scores[0]), scores[1..])
  }

  predicate NonImproving(scores: seq<real>)
  {
    forall i :: 0 <= i < |scores| ==> scores[i] >= 0.0
  }

  /**
   * The value does not move while the non-improving updates have not yet
   * exceeded deltaAfterIterations: they only advance the counter.
   */
  lemma {:induction false} PatienceKeepsValue(c: Config, s: State, scores: seq<real>)
    requires NonImproving(scores)
    requires s.iterations + |scores| <= c.deltaAfterIterations
    ensures Run(c, s, scores) == s.(iterations := s.iterations + |scores|)
    decreases |scores|
  {
    if scores != [] {
      PatienceKeepsValue(c, Step(c, s, scores[0]), scores[1..]);
    }
  }

  /** The invariant holds along any run of updates. */
  lemma {:induction false} RunKeepsInv(c: Config, s: State, scores: seq<real>)
    requires Inv(c, s)
    requires c.minValue <= c.startValue <= c.maxValue
    ensures Inv(c, Run(c, s, scores))
    decreases |scores|
  {
    if scores != [] {
      StepKeepsInv(c, s, scores[0]);
      RunKeepsInv(c, Step(c, s, scores[0]), scores[1..]);
    }
  }

  /** The adaptive parameter (intParameterImpl). */
  class IntParameter {
    const startValue: int
    const startDelta: int
    const deltaAfterIterations: int
    const minValue: int
    const maxValue: int
    const snapBackAfterImprovement: bool
    const zigzag: bool
    var value: int
    var delta: int
    var iterations: int

    function Configuration(): Config
    {
      Config(startValue, startDelta, deltaAfterIterations, minValue, maxValue,
        snapBackAfterImprovement, zigzag)
    }

    function Current(): State
      reads this
    {
      State(value, delta, iterations)
    }

    ghost predicate Valid()
      reads this
    {
      minValue <= startValue <= maxValue && Inv(Configuration(), Current())
    }

    constructor (startValue: int, deltaAfterIterations: int, delta: int, minValue: int,
                 maxValue: int, snapBackAfterImprovement: bool, zigzag: bool)
      requires 0 <= deltaAfterIterations && minValue <= startValue <= maxValue
      ensures Valid()
      ensures this.startValue == startValue && this.value == startValue
      ensures this.startDelta == this.delta == NormalizedDelta(startValue, minValue, maxValue, delta)
      ensures this.deltaAfterIterations == deltaAfterIterations && this.iterations == 0
      ensures this.minValue == minValue && this.maxValue == maxValue
      ensures this.snapBackAfterImprovement == snapBackAfterImprovement && this.zigzag == zigzag
    {
      var d := delta;
      if startValue == maxValue && d < 0 {
        d := -d;
      }
      if startValue == minValue && d > 0 {
        d := -d;
      }
      this.startValue := startValue;
      this.startDelta := d;
      this.deltaAfterIterations := deltaAfterIterations;
      this.delta := d;
      this.minValue := minValue;
      this.maxValue := maxValue;
      this.value := startValue;
      this.snapBackAfterImprovement := snapBackAfterImprovement;
      this.zigzag := zigzag;
      this.iterations := 0;
    }

    function Value(): int
      reads this
    {
      value
    }

    method Update(deltaScore: real)
      requires Valid()
      modifies this
      ensures Valid()
      ensures Current() == Step(Configuration(), old(Current()), deltaScore)
    {
      if deltaScore < 0.0 {
        iterations := 0;
        if snapBackAfterImprovement && value != startValue {
          delta := startDelta;
          value := startValue;
        }
        return;
      }
      iterations := iterations + 1;
      if iterations > deltaAfterIterations {
        if value == maxValue || value == minValue {
          delta := -delta;
        }
        iterations := 0;
        value := value + delta;
        if value > maxValue {
          value := maxValue;
        }
        if value < minValue {
          value := minValue;
        }
      }
      StepKeepsInv(Configuration(), old(Current()), deltaScore);
    }
  }

  /** NewSolveParameter: validates the arguments before building the parameter. */
  method NewSolveParameter(startValue: int, deltaAfterIterations: int, delta: int, minValue: int,
                           maxValue: int, snapBackAfterImprovement: bool, zigzag: bool)
    returns (r: Result<IntParameter, ParameterError>)
    ensures r.Err? <==> deltaAfterIterations < 0 || startValue < minValue || startValue > maxValue
    ensures deltaAfterIterations < 0 ==> r == Err(NegativeDeltaAfterIterations(deltaAfterIterations))
    ensures 0 <= deltaAfterIterations && startValue < minValue ==> r == Err(StartBelowMin(startValue, minValue))
    ensures 0 <= deltaAfterIterations && minValue <= startValue && startValue > maxValue
      ==> r == Err(StartAboveMax(startValue, maxValue))
    ensures r.Ok? ==> fresh(r.value) && r.value.Valid() && r.value.Value() == startValue
    ensures r.Ok? ==> r.value.delta == NormalizedDelta(startValue, minValue, maxValue, delta)
  {
    if deltaAfterIterations < 0 {
      return Err(NegativeDeltaAfterIterations(deltaAfterIterations));
    }
    if startValue < minValue {
      return Err(StartBelowMin(startValue, minValue));
    }
    if startValue > maxValue {
      return Err(StartAboveMax(startValue, maxValue));
    }
    var p := new IntParameter(startValue, deltaAfterIterations, delta, minValue, maxValue,
      snapBackAfterImprovement, zigzag);
    return Ok(p);
  }

  /** The constant parameter (constParameterImpl): Update has no effect. */
  class ConstParameter {
    const value: int

    constructor (value: int)
      ensures this.value == value
    {
      this.value := value;
    }

    function Value(): int { value }

    method Update(deltaScore: real)
      ensures unchanged(this)
    {
    }
  }
}
