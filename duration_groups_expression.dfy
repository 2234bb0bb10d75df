// Duration groups (factory/duration_groups_expression.go): every stop has a
// duration of its own, and a stop may belong to one group whose duration is
// paid once, when the vehicle arrives at the group from outside it. Durations
// are seconds, as reals.
module DurationGroupsExpression {
  import opened Wrappers
  import opened ModelStop

  datatype GroupError =
    | StopInTwoGroups(stop: int)
    | EmptyGroup
    | StopNotInGroup(stop: int)
    | MixedGroups

  /** The indices of the stops. */
  function Indices(stops: seq<Stop>): (r: seq<int>)
    ensures |r| == |stops| && forall j :: 0 <= j < |stops| ==> r[j] == stops[j].index
  {
    seq(|stops|, j requires 0 <= j < |stops| => stops[j].index)
  }

  /** Every index is a slot of a table of n entries. */
  predicate InRange(at: seq<int>, n: int)
  {
    forall j :: 0 <= j < |at| ==> 0 <= at[j] < n
  }

  /** The first k writes `a[at[j]] := vals[j]`, in order. */
  function Written<T>(a: seq<T>, at: seq<int>, vals: seq<T>, k: nat): (r: seq<T>)
    requires k <= |at| == |vals| && InRange(at, |a|)
    ensures |r| == |a|
    decreases k
  {
    if k == 0 then a
    else Written(a, at, vals, k - 1)[at[k - 1] := vals[k - 1]]
  }

  /**
   * A slot written by none of the first k writes keeps its value; a written
   * slot holds the value of one of the writes to it.
   */
  lemma {:induction false} WrittenSlots<T>(a: seq<T>, at: seq<int>, vals: seq<T>, k: nat)
    requires k <= |at| == |vals| && InRange(at, |a|)
    ensures var r := Written(a, at, vals, k);
      (forall x :: 0 <= x < |a| && x !in at[..k] ==> r[x] == a[x]) &&
      (forall x :: 0 <= x < |a| && x in at[..k] ==> exists j :: 0 <= j < k && at[j] == x && r[x] == vals[j])
  {
    if k > 0 {
      WrittenSlots(a, at, vals, k - 1);
      assert forall x :: x in at[..k] <==> x in at[..k - 1] || x == at[k - 1];
    }
  }

  /** n copies of v. */
  function Constant<T>(v: T, n: nat): (r: seq<T>)
    ensures |r| == n && forall j :: 0 <= j < n ==> r[j] == v
  {
    seq(n, _ => v)
  }

  /** Stop j of a new group cannot join it: it is in a group already, or listed before. */
  predicate Conflict(toGroupIndex: seq<int>, at: seq<int>, j: nat)
    requires j < |at| && InRange(at, |toGroupIndex|)
  {
    toGroupIndex[at[j]] >= 0 || at[j] in at[..j]
  }

  /** How many of the first k stops join a new group before the first conflict. */
  function Joining(toGroupIndex: seq<int>, at: seq<int>, k: nat): (r: nat)
    requires k <= |at| && InRange(at, |toGroupIndex|)
    ensures r <= k && forall j :: 0 <= j < r ==> !Conflict(toGroupIndex, at, j)
    ensures r < k ==> Conflict(toGroupIndex, at, r)
  {
    if k == 0 then 0
    else
      var a := Joining(toGroupIndex, at, k - 1);
      if a < k - 1 || Conflict(toGroupIndex, at, k - 1) then a else k
  }

  lemma {:induction false} JoiningStays(toGroupIndex: seq<int>, at: seq<int>, i: nat, m: nat)
    requires i < m <= |at| && InRange(at, |toGroupIndex|)
    requires Joining(toGroupIndex, at, i) == i && Conflict(toGroupIndex, at, i)
    ensures Joining(toGroupIndex, at, m) == i
    decreases m
  {
    if m > i + 1 {
      JoiningStays(toGroupIndex, at, i, m - 1);
    }
  }

  /**
   * Value (factory/duration_groups_expression.go:182-198) on the tables:
   * the duration of the destination, plus the duration of its group when
   * the origin is not in that group.
   */
  function ValueOf(toGroupIndex: seq<int>, durations: seq<real>, groupDuration: seq<real>, from: int, to: int): real
    requires |durations| == |toGroupIndex| && 0 <= from < |toGroupIndex| && 0 <= to < |toGroupIndex|
    requires -1 <= toGroupIndex[to] && (toGroupIndex[to] >= 0 ==> toGroupIndex[to] < |groupDuration|)
  {
    var toGroup := toGroupIndex[to];
    if toGroup == -1 then durations[to]
    else if toGroupIndex[from] == toGroup then durations[to]
    else durations[to] + groupDuration[toGroup]
  }

  /** Group indices are -1 (no group) or groups handed out so far. */
  predicate Grouped(toGroupIndex: seq<int>, groupCount: int)
  {
    forall i :: 0 <= i < |toGroupIndex| ==> -1 <= toGroupIndex[i] < groupCount
  }

  /**
   * After a group g of fresh stops with duration d is added, travelling into
   * the group costs d on top of the stop duration when coming from outside
   * and nothing extra from inside, and the value of every other destination
   * is as it was.
   */
  lemma AddedGroupValue(toGroupIndex: seq<int>, durations: seq<real>, groupDuration: seq<real>,
                        at: seq<int>, g: nat, d: real, from: int, to: int)
    requires |durations| == |toGroupIndex| && InRange(at, |toGroupIndex|) && g < |groupDuration|
    requires Grouped(toGroupIndex, g) && Joining(toGroupIndex, at, |at|) == |at|
    requires 0 <= from < |toGroupIndex| && 0 <= to < |toGroupIndex|
    ensures var t := Written(toGroupIndex, at, Constant(g, |at|), |at|);
      var gd := groupDuration[g := d];
      Grouped(t, g + 1) &&
      (to in at && from in at ==> ValueOf(t, durations, gd, from, to) == durations[to]) &&
      (to in at && from !in at ==> ValueOf(t, durations, gd, from, to) == durations[to] + d) &&
      (to !in at ==> ValueOf(t, durations, gd, from, to) == ValueOf(toGroupIndex, durations, groupDuration, from, to))
  {
    var t := Written(toGroupIndex, at, Constant(g, |at|), |at|);
    WrittenSlots(toGroupIndex, at, Constant(g, |at|), |at|);
    assert at[..|at|] == at;
    if from in at {
      var j :| 0 <= j < |at| && at[j] == from;
      assert !Conflict(toGroupIndex, at, j);
    }
  }

  /** The loop of SetGroupDuration over stops[1:] (factory/duration_groups_expression.go:87-95) on the first k stops. */
  function OthersVerdict(toGroupIndex: seq<int>, at: seq<int>, group: int, k: nat): Outcome<GroupError>
    requires 1 <= k <= |at| && InRange(at, |toGroupIndex|)
  {
    if k == 1 then Pass
    else
      match OthersVerdict(toGroupIndex, at, group, k - 1)
      case Fail(e) => Fail(e)
      case Pass =>
        var other := toGroupIndex[at[k - 1]];
        if other < 0 then Fail(StopNotInGroup(at[k - 1]))
        else if group != other then Fail(MixedGroups)
        else Pass
  }

  lemma {:induction false} OthersVerdictMeaning(toGroupIndex: seq<int>, at: seq<int>, group: int, k: nat)
    requires 1 <= k <= |at| && InRange(at, |toGroupIndex|) && group >= 0
    ensures OthersVerdict(toGroupIndex, at, group, k).Pass? <==> forall j :: 1 <= j < k ==> toGroupIndex[at[j]] == group
  {
    if k > 1 {
      OthersVerdictMeaning(toGroupIndex, at, group, k - 1);
    }
  }

  lemma {:induction false} OthersFailureStays(toGroupIndex: seq<int>, at: seq<int>, group: int, k: nat, m: nat)
    requires 1 <= k <= m <= |at| && InRange(at, |toGroupIndex|)
    requires OthersVerdict(toGroupIndex, at, group, k).Fail?
    ensures OthersVerdict(toGroupIndex, at, group, m) == OthersVerdict(toGroupIndex, at, group, k)
    decreases m - k
  {
    if k < m {
      OthersFailureStays(toGroupIndex, at, group, k + 1, m);
    }
  }

  /**
   * The checks of SetGroupDuration (factory/duration_groups_expression.go:78-95):
   * the group of the stops, an empty list, the first stop in no group, then
   * the first other stop in no group or in another group.
   */
  function GroupOf(toGroupIndex: seq<int>, at: seq<int>): Result<int, GroupError>
    requires InRange(at, |toGroupIndex|)
  {
    if |at| == 0 then Err(EmptyGroup)
    else
      var group := toGroupIndex[at[0]];
      if group < 0 then Err(StopNotInGroup(at[0]))
      else
        match OthersVerdict(toGroupIndex, at, group, |at|)
        case Fail(e) => Err(e)
        case Pass => Ok(group)
  }

  /** The stops name a group exactly when there is at least one and all are in that one group. */
  lemma GroupOfIff(toGroupIndex: seq<int>, at: seq<int>, group: int)
    requires InRange(at, |toGroupIndex|)
    ensures GroupOf(toGroupIndex, at) == Ok(group) <==>
      |at| > 0 && group >= 0 && forall j :: 0 <= j < |at| ==> toGroupIndex[at[j]] == group
  {
    if |at| > 0 && toGroupIndex[at[0]] >= 0 {
      OthersVerdictMeaning(toGroupIndex, at, toGroupIndex[at[0]], |at|);
    }
  }

  /** The tables of one duration groups expression, overwritten in place. */
  class DurationGroups {
    const groupDuration: array<real>
    const toGroupIndex: array<int>
    const durations: array<real>
    const stopIndexToStop: array<Stop?>
    var groupCount: int

    predicate Valid()
      reads this, groupDuration, toGroupIndex, durations
    {
      groupDuration != durations &&
      groupDuration.Length == toGroupIndex.Length == durations.Length == stopIndexToStop.Length &&
      0 <= groupCount && Grouped(toGroupIndex[..], groupCount) &&
      (forall i :: 0 <= i < toGroupIndex.Length && toGroupIndex[i] >= 0 ==> toGroupIndex[i] < groupDuration.Length)
    }

    /**
     * NewDurationGroupsExpression (factory/duration_groups_expression.go:15-28):
     * tables for the stops and the first and last stop of every vehicle, every
     * stop in no group and every duration zero.
     */
    constructor (numberOfStops: int, numberOfVehicles: int)
      requires numberOfStops + 2 * numberOfVehicles >= 0
      ensures Valid() && groupCount == 0
      ensures toGroupIndex.Length == numberOfStops + 2 * numberOfVehicles
      ensures forall i :: 0 <= i < toGroupIndex.Length ==>
        toGroupIndex[i] == -1 && durations[i] == 0.0 && groupDuration[i] == 0.0 && stopIndexToStop[i] == null
      ensures fresh(groupDuration) && fresh(toGroupIndex) && fresh(durations) && fresh(stopIndexToStop)
    {
      var n := numberOfStops + 2 * numberOfVehicles;
      durations := new real[n](_ => 0.0);
      groupDuration := new real[n](_ => 0.0);
      var groups := new int[n](_ => 0);
      stopIndexToStop := new Stop?[n](_ => null);
      groupCount := 0;
      var i := 0;
      while i < groups.Length
        invariant 0 <= i <= groups.Length
        invariant forall j :: 0 <= j < i ==> groups[j] == -1
        modifies groups
      {
        groups[i] := -1;
        i := i + 1;
      }
      toGroupIndex := groups;
    }

    /** Value (factory/duration_groups_expression.go:182-198). */
    function Value(from: Stop, to: Stop): (r: real)
      reads this, groupDuration, toGroupIndex, durations
      requires Valid() && 0 <= from.index < toGroupIndex.Length && 0 <= to.index < toGroupIndex.Length
      ensures r == ValueOf(toGroupIndex[..], durations[..], groupDuration[..], from.index, to.index)
    {
      var toIndex := to.index;
      var toGroup := toGroupIndex[toIndex];
      if toGroup == -1 then durations[toIndex]
      else
        var fromGroup := toGroupIndex[from.index];
        if fromGroup == toGroup then durations[toIndex]
        else durations[toIndex] + groupDuration[toGroup]
    }

    /** SetStopDuration (factory/duration_groups_expression.go:130-136): only the stop's own entries change. */
    method SetStopDuration(stop: Stop, duration: real)
      requires Valid() && 0 <= stop.index < durations.Length
      modifies durations, stopIndexToStop
      ensures Valid()
      ensures durations[..] == old(durations[..])[stop.index := duration]
      ensures stopIndexToStop[..] == old(stopIndexToStop[..])[stop.index := stop]
    {
      durations[stop.index] := duration;
      stopIndexToStop[stop.index] := stop;
    }

    /**
     * AddGroup (factory/duration_groups_expression.go:163-175): the group
     * number is taken first; the stops join the group one after another, and
     * the first stop that is in a group already, or listed twice, ends the
     * call with an error, leaving the stops before it in the group and the
     * group number used. Only a complete group gets its duration.
     */
    method AddGroup(stops: seq<Stop>, duration: real) returns (r: Outcome<GroupError>)
      requires Valid() && groupCount < groupDuration.Length && InRange(Indices(stops), toGroupIndex.Length)
      modifies this, toGroupIndex, stopIndexToStop, groupDuration
      ensures Valid()
      ensures var g, at := old(groupCount), Indices(stops);
        var joined := Joining(old(toGroupIndex[..]), at, |at|);
        groupCount == g + 1 &&
        toGroupIndex[..] == Written(old(toGroupIndex[..]), at, Constant(g, |at|), joined) &&
        stopIndexToStop[..] == Written(old(stopIndexToStop[..]), at, stops, joined) &&
        (joined < |at| ==> r == Fail(StopInTwoGroups(at[joined])) && groupDuration[..] == old(groupDuration[..])) &&
        (joined == |at| ==> r == Pass && groupDuration[..] == old(groupDuration[..])[g := duration])
    {
      var g := groupCount;
      groupCount := groupCount + 1;
      ghost var at, groups0 := Indices(stops), toGroupIndex[..];
      r := JoinStops(stops, g);
      if r.Pass? {
        groupDuration[g] := duration;
      }
      AddedGroupGrouped(groups0, at, g, Joining(groups0, at, |at|));
    }

    /** The stop loop of AddGroup (factory/duration_groups_expression.go:165-172). */
    method JoinStops(stops: seq<Stop>, g: int) returns (r: Outcome<GroupError>)
      requires 0 <= g < groupDuration.Length == toGroupIndex.Length == stopIndexToStop.Length
      requires InRange(Indices(stops), toGroupIndex.Length)
      modifies toGroupIndex, stopIndexToStop
      ensures var at := Indices(stops);
        var joined := Joining(old(toGroupIndex[..]), at, |at|);
        toGroupIndex[..] == Written(old(toGroupIndex[..]), at, Constant(g, |at|), joined) &&
        stopIndexToStop[..] == Written(old(stopIndexToStop[..]), at, stops, joined) &&
        (r.Pass? <==> joined == |at|) && (r.Fail? ==> r == Fail(StopInTwoGroups(at[joined])))
    {
      ghost var at, groups0, stops0 := Indices(stops), toGroupIndex[..], stopIndexToStop[..];
      var gs := Constant(g, |at|);
      var i := 0;
      while i < |stops|
        invariant 0 <= i <= |stops| && Joining(groups0, at, i) == i
        invariant toGroupIndex[..] == Written(groups0, at, gs, i)
        invariant stopIndexToStop[..] == Written(stops0, at, stops, i)
      {
        var stop := stops[i];
        StepConflict(groups0, at, g, i);
        if toGroupIndex[stop.index] >= 0 {
          JoiningStays(groups0, at, i, |at|);
          return Fail(StopInTwoGroups(stop.index));
        }
        toGroupIndex[stop.index] := g;
        stopIndexToStop[stop.index] := stop;
        i := i + 1;
      }
      return Pass;
    }

    /**
     * SetGroupDuration (factory/duration_groups_expression.go:78-98): the
     * duration of the group of the stops, when they name one group.
     */
    method SetGroupDuration(stops: seq<Stop>, duration: real) returns (r: Outcome<GroupError>)
      requires Valid() && InRange(Indices(stops), toGroupIndex.Length)
      modifies groupDuration
      ensures Valid()
      ensures var group := GroupOf(old(toGroupIndex[..]), Indices(stops));
        (group.Err? ==> r == Fail(group.error) && groupDuration[..] == old(groupDuration[..])) &&
        (group.Ok? ==> r == Pass && groupDuration[..] == old(groupDuration[..])[group.value := duration])
    {
      ghost var at := Indices(stops);
      if |stops| == 0 {
        return Fail(EmptyGroup);
      }
      var group := toGroupIndex[stops[0].index];
      if group < 0 {
        return Fail(StopNotInGroup(stops[0].index));
      }
      var i := 1;
      while i < |stops|
        invariant 1 <= i <= |stops| && OthersVerdict(toGroupIndex[..], at, group, i) == Pass
      {
        var otherGroup := toGroupIndex[stops[i].index];
        if otherGroup < 0 {
          OthersFailureStays(toGroupIndex[..], at, group, i + 1, |at|);
          return Fail(StopNotInGroup(stops[i].index));
        }
        if group != otherGroup {
          OthersFailureStays(toGroupIndex[..], at, group, i + 1, |at|);
          return Fail(MixedGroups);
        }
        i := i + 1;
      }
      groupDuration[group] := duration;
      return Pass;
    }
  }

  /** A stop is in a group, while the new group is being filled, exactly when it conflicts. */
  lemma StepConflict(toGroupIndex: seq<int>, at: seq<int>, g: int, i: nat)
    requires i < |at| && InRange(at, |toGroupIndex|) && g >= 0
    ensures Written(toGroupIndex, at, Constant(g, |at|), i)[at[i]] >= 0 <==> Conflict(toGroupIndex, at, i)
  {
    WrittenSlots(toGroupIndex, at, Constant(g, |at|), i);
  }

  /** The stops that joined group g have it, so the group indices stay below the new count. */
  lemma AddedGroupGrouped(toGroupIndex: seq<int>, at: seq<int>, g: int, k: nat)
    requires k <= |at| && InRange(at, |toGroupIndex|) && Grouped(toGroupIndex, g) && g >= 0
    ensures Grouped(Written(toGroupIndex, at, Constant(g, |at|), k), g + 1)
  {
    WrittenSlots(toGroupIndex, at, Constant(g, |at|), k);
  }
}
