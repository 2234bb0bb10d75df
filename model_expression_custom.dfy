// Expressions with a default value and values set per stop or per pair of
// stops (model_expression_custom.go). Values are float64 in Go and real
// numbers here; stops are known by their index.
module ModelExpressionCustom {
  import opened Wrappers

  datatype ExpressionError = ModelLocked

  /**
   * expandSlice (model_expression_custom.go:408-418): a slice already longer
   * than requiredLength is returned as it is; otherwise a new slice of
   * maxLength holds the old values first and the default after them.
   */
  method ExpandSlice<T>(slice: seq<T>, defaultValue: T, requiredLength: int, maxLength: nat) returns (r: seq<T>)
    ensures requiredLength < |slice| ==> r == slice
    ensures requiredLength >= |slice| ==>
      |r| == maxLength &&
      (forall i :: 0 <= i < maxLength && i < |slice| ==> r[i] == slice[i]) &&
      (forall i :: |slice| <= i < maxLength ==> r[i] == defaultValue)
  {
    if requiredLength < |slice| {
      return slice;
    }
    var values := new T[maxLength](_ => defaultValue);
    var n := if |slice| < maxLength then |slice| else maxLength;
    for i := 0 to n
      invariant forall j :: 0 <= j < i ==> values[j] == slice[j]
      invariant forall j :: i <= j < maxLength ==> values[j] == defaultValue
    {
      values[i] := slice[i];
    }
    // The fill starts at the old length; when that is past maxLength it runs
    // no step, as the copy already filled every entry.
    for i := n to maxLength
      invariant forall j :: 0 <= j < n ==> values[j] == slice[j]
      invariant forall j :: n <= j < maxLength ==> values[j] == defaultValue
    {
      values[i] := defaultValue;
    }
    return values[..];
  }

  /** The value at index: the stored one, or the default past the end. */
  function Lookup(values: seq<real>, defaultValue: real, index: int): real
  {
    if 0 <= index < |values| then values[index] else defaultValue
  }

  /**
   * Padding a slice that is too short does not change any value it
   * answers: the new entries hold the default a lookup past the end gives.
   */
  lemma PaddedLookups(slice: seq<real>, r: seq<real>, defaultValue: real, maxLength: nat)
    requires |slice| <= |r| == maxLength
    requires forall i :: 0 <= i < |slice| ==> r[i] == slice[i]
    requires forall i :: |slice| <= i < maxLength ==> r[i] == defaultValue
    ensures forall j :: Lookup(r, defaultValue, j) == Lookup(slice, defaultValue, j)
  {
  }

  /** The flags are sound: no value of a sign is there unless its flag is up. */
  predicate FlagsCover(vals: set<real>, hasNegativeValues: bool, hasPositiveValues: bool)
  {
    forall v :: v in vals ==> (v < 0.0 ==> hasNegativeValues) && (v > 0.0 ==> hasPositiveValues)
  }

  /**
   * A from-stop or to-stop expression (fromExpression and toExpression,
   * model_expression_custom.go:255-430): one value per stop index, the
   * default for stops without one. byOrigin tells the two apart: the value
   * of a move is that of its origin or of its destination.
   */
  class StopExpression {
    const byOrigin: bool
    const defaultValue: real
    var values: seq<real>
    var hasNegativeValues: bool
    var hasPositiveValues: bool

    /** Every value the expression can give is covered by its flags. */
    predicate Valid()
      reads this
    {
      FlagsCover(set i | 0 <= i < |values| :: values[i], hasNegativeValues, hasPositiveValues) &&
      FlagsCover({defaultValue}, hasNegativeValues, hasPositiveValues)
    }

    /** NewFromStopExpression and NewStopExpression (model_expression_custom.go:109-137). */
    constructor(defaultValue: real, byOrigin: bool)
      ensures this.defaultValue == defaultValue && this.byOrigin == byOrigin && values == []
      ensures hasPositiveValues == (defaultValue > 0.0) && hasNegativeValues == (defaultValue < 0.0)
      ensures Valid()
    {
      this.byOrigin := byOrigin;
      this.defaultValue := defaultValue;
      values := [];
      hasPositiveValues := defaultValue > 0.0;
      hasNegativeValues := defaultValue < 0.0;
    }

    /** Value (model_expression_custom.go:325-335, 420-430): the value of the origin or destination stop. */
    function Value(from: int, to: int): real
      reads this
    {
      Lookup(values, defaultValue, if byOrigin then from else to)
    }

    /**
     * SetValue (model_expression_custom.go:299-323, 379-401): refused once
     * the model is locked; otherwise the flags record the sign of the value,
     * the values are padded to the number of stops, and the stop's entry is
     * set. A later Value of that stop gives the value; every other stop
     * keeps its value.
     */
    method SetValue(locked: bool, index: int, numberOfStops: nat, value: real) returns (r: Outcome<ExpressionError>)
      requires 0 <= index < numberOfStops
      requires Valid()
      modifies this
      ensures r.Fail? <==> locked
      ensures locked ==> unchanged(this)
      ensures !locked ==>
        hasNegativeValues == (old(hasNegativeValues) || value < 0.0) &&
        hasPositiveValues == (old(hasPositiveValues) || value > 0.0) &&
        Lookup(values, defaultValue, index) == value &&
        forall j :: j != index ==> Lookup(values, defaultValue, j) == old(Lookup(values, defaultValue, j))
      ensures Valid()
    {
      if locked {
        return Fail(ModelLocked);
      }
      ghost var before := values;
      ghost var beforeSet := set k | 0 <= k < |before| :: before[k];
      assert FlagsCover(beforeSet, hasNegativeValues, hasPositiveValues);
      hasNegativeValues := hasNegativeValues || value < 0.0;
      hasPositiveValues := hasPositiveValues || value > 0.0;
      assert FlagsCover(beforeSet, hasNegativeValues, hasPositiveValues);
      var padded := ExpandSlice(values, defaultValue, index, numberOfStops);
      if index >= |values| {
        PaddedLookups(values, padded, defaultValue, numberOfStops);
      }
      values := padded[index := value];
      forall i | 0 <= i < |values|
        ensures (values[i] < 0.0 ==> hasNegativeValues) && (values[i] > 0.0 ==> hasPositiveValues)
      {
        if i != index {
          assert values[i] == Lookup(before, defaultValue, i);
          if i < |before| {
            assert before[i] in beforeSet;
          }
        }
      }
      r := Pass;
    }
  }

  /** The value of a pair of stops: the one set for it, or the default. */
  function PairLookup(values: map<int, map<int, real>>, defaultValue: real, from: int, to: int): real
  {
    if from in values && to in values[from] then values[from][to] else defaultValue
  }

  /** The table after setting the value of the pair (from, to). */
  function SetPair(values: map<int, map<int, real>>, from: int, to: int, value: real): map<int, map<int, real>>
  {
    var tos := if from in values then values[from] else map[];
    values[from := tos[to := value]]
  }

  /** Setting a pair gives that pair the value and leaves every other pair as it was. */
  lemma SetPairLookup(values: map<int, map<int, real>>, defaultValue: real, from: int, to: int, value: real, a: int, b: int)
    ensures PairLookup(SetPair(values, from, to, value), defaultValue, a, b) ==
      if a == from && b == to then value else PairLookup(values, defaultValue, a, b)
  {
  }

  /** Every value set in the table. */
  function PairValues(values: map<int, map<int, real>>): set<real>
  {
    set a, b | a in values && b in values[a] :: values[a][b]
  }

  /** Setting a pair adds its value to those the table holds, and can only drop the one it replaces. */
  lemma SetPairValues(values: map<int, map<int, real>>, from: int, to: int, value: real)
    ensures PairValues(SetPair(values, from, to, value)) <= PairValues(values) + {value}
  {
    var nv := SetPair(values, from, to, value);
    forall v | v in PairValues(nv)
      ensures v in PairValues(values) + {value}
    {
      var a, b :| a in nv && b in nv[a] && nv[a][b] == v;
      if !(a == from && b == to) {
        assert a in values && b in values[a] && values[a][b] == v;
      }
    }
  }

  /** After setting a pair the flags, raised by the sign of its value, still cover the table. */
  lemma SetPairCovered(values: map<int, map<int, real>>, from: int, to: int, value: real,
                       hasNegativeValues: bool, hasPositiveValues: bool)
    requires FlagsCover(PairValues(values), hasNegativeValues, hasPositiveValues)
    ensures FlagsCover(PairValues(SetPair(values, from, to, value)),
                       hasNegativeValues || value < 0.0, hasPositiveValues || value > 0.0)
  {
    SetPairValues(values, from, to, value);
  }

  /** A from-to expression (fromToExpression, model_expression_custom.go:609-691): a value per pair of stops, the default for the others. */
  class FromToExpression {
    const defaultValue: real
    var values: map<int, map<int, real>>
    var hasNegativeValues: bool
    var hasPositiveValues: bool

    /** Every value the expression can give is covered by its flags. */
    predicate Valid()
      reads this
    {
      FlagsCover(PairValues(values), hasNegativeValues, hasPositiveValues) &&
      FlagsCover({defaultValue}, hasNegativeValues, hasPositiveValues)
    }

    /** NewFromToExpression (model_expression_custom.go:169-182). */
    constructor(defaultValue: real)
      ensures this.defaultValue == defaultValue && values == map[]
      ensures hasPositiveValues == (defaultValue > 0.0) && hasNegativeValues == (defaultValue < 0.0)
      ensures Valid()
    {
      this.defaultValue := defaultValue;
      values := map[];
      hasPositiveValues := defaultValue > 0.0;
      hasNegativeValues := defaultValue < 0.0;
    }

    /** Value (model_expression_custom.go:680-691). */
    function Value(from: int, to: int): real
      reads this
    {
      PairLookup(values, defaultValue, from, to)
    }

    /**
     * SetValue (model_expression_custom.go:657-678): refused once the model
     * is locked; otherwise the flags record the sign of the value and the
     * pair gets it, every other pair keeping its value.
     */
    method SetValue(locked: bool, from: int, to: int, value: real) returns (r: Outcome<ExpressionError>)
      requires Valid()
      modifies this
      ensures r.Fail? <==> locked
      ensures locked ==> unchanged(this)
      ensures !locked ==>
        values == SetPair(old(values), from, to, value) &&
        hasNegativeValues == (old(hasNegativeValues) || value < 0.0) &&
        hasPositiveValues == (old(hasPositiveValues) || value > 0.0)
      ensures Valid()
    {
      if locked {
        return Fail(ModelLocked);
      }
      SetPairCovered(values, from, to, value, hasNegativeValues, hasPositiveValues);
      // The values of the origin, a new empty map when it has none yet.
      var tos := if from in values then values[from] else map[];
      hasNegativeValues := hasNegativeValues || value < 0.0;
      hasPositiveValues := hasPositiveValues || value > 0.0;
      values := values[from := tos[to := value]];
      r := Pass;
    }
  }
}
