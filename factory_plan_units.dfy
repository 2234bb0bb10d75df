// Grouping precedence pairs into plan units (factory/plan_units.go): pairs
// that share a stop, directly or through other pairs, end up in one group.
module FactoryPlanUnits {
  import opened Sets

  /** A precedence pair: the predecessor stop comes before the successor stop. */
  datatype Sequence = Sequence(predecessor: string, successor: string)

  /** A group under construction: the stops it holds and its pairs. */
  datatype UnitInformation = UnitInformation(stops: set<string>, sequences: seq<Sequence>)

  /** The two stops of a pair. */
  function Ends(sq: Sequence): set<string>
  {
    {sq.predecessor, sq.successor}
  }

  /** The stops the pairs name. */
  function Endpoints(sqs: seq<Sequence>): set<string>
    decreases |sqs|
  {
    if sqs == [] then {} else Endpoints(sqs[..|sqs| - 1]) + Ends(sqs[|sqs| - 1])
  }

  lemma {:induction false} EndpointsAppend(a: seq<Sequence>, b: seq<Sequence>)
    ensures Endpoints(a + b) == Endpoints(a) + Endpoints(b)
    decreases |b|
  {
    if b != [] {
      assert (a + b)[..|a + b| - 1] == a + b[..|b| - 1];
      EndpointsAppend(a, b[..|b| - 1]);
    } else {
      assert a + b == a;
    }
  }

  /** All the pairs of the groups, group after group. */
  function Concat(units: seq<UnitInformation>): seq<Sequence>
    decreases |units|
  {
    if units == [] then [] else Concat(units[..|units| - 1]) + units[|units| - 1].sequences
  }

  lemma {:induction false} ConcatAppend(a: seq<UnitInformation>, b: seq<UnitInformation>)
    ensures Concat(a + b) == Concat(a) + Concat(b)
    decreases |b|
  {
    if b != [] {
      assert (a + b)[..|a + b| - 1] == a + b[..|b| - 1];
      ConcatAppend(a, b[..|b| - 1]);
    } else {
      assert a + b == a;
    }
  }

  /** The concatenation taken apart at group i. */
  lemma ConcatSplit(units: seq<UnitInformation>, i: int)
    requires 0 <= i < |units|
    ensures Concat(units) == Concat(units[..i]) + units[i].sequences + Concat(units[i + 1..])
  {
    var a := units[..i + 1];
    assert units == a + units[i + 1..];
    ConcatAppend(a, units[i + 1..]);
    assert a[..|a| - 1] == units[..i];
    assert Concat(a) == Concat(units[..i]) + units[i].sequences;
  }

  /** Taking group i out of the groups takes its pairs out of their concatenation. */
  lemma ConcatRemove(units: seq<UnitInformation>, i: int)
    requires 0 <= i < |units|
    ensures multiset(Concat(units)) == multiset(Concat(units[..i] + units[i + 1..])) + multiset(units[i].sequences)
  {
    ConcatSplit(units, i);
    ConcatAppend(units[..i], units[i + 1..]);
  }

  /** Extending the pairs of group i extends their concatenation by as much. */
  lemma ConcatExtended(units: seq<UnitInformation>, i: int, x: UnitInformation, extra: seq<Sequence>)
    requires 0 <= i < |units| && x.sequences == units[i].sequences + extra
    ensures multiset(Concat(units[i := x])) == multiset(Concat(units)) + multiset(extra)
  {
    ConcatSplit(units, i);
    ConcatSplit(units[i := x], i);
    assert units[i := x][..i] == units[..i] && units[i := x][i + 1..] == units[i + 1..];
  }

  /** inUnit maps each stop of a group to that group's index, and knows no other stop. */
  ghost predicate Indexed(units: seq<UnitInformation>, inUnit: map<string, int>)
  {
    (forall i, s :: 0 <= i < |units| && s in units[i].stops ==> s in inUnit && inUnit[s] == i) &&
    (forall s :: s in inUnit ==> 0 <= inUnit[s] < |units| && s in units[inUnit[s]].stops)
  }

  /** Every group holds at least one pair and exactly the stops of its pairs. */
  predicate WellFormed(units: seq<UnitInformation>)
  {
    forall i :: 0 <= i < |units| ==> units[i].sequences != [] && units[i].stops == Endpoints(units[i].sequences)
  }

  /** The groups after the pairs in done: indexed, well formed, holding each pair once, no more groups than pairs. */
  ghost predicate Grouped(units: seq<UnitInformation>, inUnit: map<string, int>, done: seq<Sequence>)
  {
    Indexed(units, inUnit) && WellFormed(units) &&
    multiset(Concat(units)) == multiset(done) && |units| <= |done|
  }

  /** toExistingUnit (factory/plan_units.go:208-220): the pair and its stops join group unitIndex. */
  function ToExistingUnit(units: seq<UnitInformation>, unitIndex: int, sq: Sequence, inUnit: map<string, int>)
    : (seq<UnitInformation>, map<string, int>)
    requires 0 <= unitIndex < |units|
  {
    var u := units[unitIndex];
    (units[unitIndex := UnitInformation(u.stops + Ends(sq), u.sequences + [sq])],
     inUnit[sq.predecessor := unitIndex][sq.successor := unitIndex])
  }

  /** Adding the stops of sq to group u keeps the index map right when each stop of sq is in u or in no group. */
  lemma ToExistingUnitIndexed(units: seq<UnitInformation>, inUnit: map<string, int>, u: int, sq: Sequence)
    requires Indexed(units, inUnit) && 0 <= u < |units|
    requires forall e :: e in Ends(sq) ==> e !in inUnit || inUnit[e] == u
    ensures var r := ToExistingUnit(units, u, sq, inUnit); Indexed(r.0, r.1)
  {
    var r := ToExistingUnit(units, u, sq, inUnit);
    var us, m := r.0, r.1;
    assert forall s :: s in m <==> s in inUnit || s in Ends(sq);
    assert forall s :: s in m ==> m[s] == if s in Ends(sq) then u else inUnit[s];
    forall i, s | 0 <= i < |us| && s in us[i].stops
      ensures s in m && m[s] == i
    {
      if i != u {
        assert us[i] == units[i];
      }
    }
    forall s | s in m
      ensures 0 <= m[s] < |us| && s in us[m[s]].stops
    {
      if s !in Ends(sq) {
        assert us[inUnit[s]].stops >= units[inUnit[s]].stops;
      }
    }
  }

  /** Adding sq to the pairs of group u, and its stops to u's stops, keeps the group well formed. */
  lemma AddedPairWellFormed(units: seq<UnitInformation>, u: int, sq: Sequence, stops: set<string>)
    requires WellFormed(units) && 0 <= u < |units| && stops == units[u].stops + Ends(sq)
    ensures WellFormed(units[u := UnitInformation(stops, units[u].sequences + [sq])])
  {
    EndpointsAppend(units[u].sequences, [sq]);
    assert Endpoints([sq]) == Ends(sq) by {
      assert [sq][..0] == [];
    }
  }

  /**
   * A pair one of whose stops is in group u and the other in no group is
   * rightly added to u.
   */
  lemma ToExistingUnitGrouped(units: seq<UnitInformation>, inUnit: map<string, int>, done: seq<Sequence>, u: int, sq: Sequence)
    requires Grouped(units, inUnit, done) && 0 <= u < |units|
    requires (sq.predecessor in inUnit && inUnit[sq.predecessor] == u && sq.successor !in inUnit) ||
             (sq.successor in inUnit && inUnit[sq.successor] == u && sq.predecessor !in inUnit)
    ensures var r := ToExistingUnit(units, u, sq, inUnit); Grouped(r.0, r.1, done + [sq])
  {
    var r := ToExistingUnit(units, u, sq, inUnit);
    ToExistingUnitIndexed(units, inUnit, u, sq);
    assert Indexed(r.0, r.1);
    AddedPairWellFormed(units, u, sq, units[u].stops + Ends(sq));
    assert WellFormed(r.0);
    ConcatExtended(units, u, r.0[u], [sq]);
    assert multiset(Concat(r.0)) == multiset(done + [sq]);
  }

  /** The index map depends on the stops of the groups only. */
  lemma SameStopsIndexed(units: seq<UnitInformation>, inUnit: map<string, int>, us: seq<UnitInformation>)
    requires Indexed(units, inUnit) && |us| == |units|
    requires forall i :: 0 <= i < |us| ==> us[i].stops == units[i].stops
    ensures Indexed(us, inUnit)
  {
  }

  /** A pair both of whose stops are in group u is added to u's pairs. */
  lemma SameUnitGrouped(units: seq<UnitInformation>, inUnit: map<string, int>, done: seq<Sequence>, u: int, sq: Sequence)
    requires Grouped(units, inUnit, done) && 0 <= u < |units|
    requires sq.predecessor in inUnit && inUnit[sq.predecessor] == u && sq.successor in inUnit && inUnit[sq.successor] == u
    ensures Grouped(units[u := units[u].(sequences := units[u].sequences + [sq])], inUnit, done + [sq])
  {
    var x := units[u].(sequences := units[u].sequences + [sq]);
    assert units[u].stops + Ends(sq) == units[u].stops;
    assert x == UnitInformation(units[u].stops + Ends(sq), units[u].sequences + [sq]);
    AddedPairWellFormed(units, u, sq, units[u].stops + Ends(sq));
    assert WellFormed(units[u := x]);
    ConcatExtended(units, u, x, [sq]);
    assert multiset(Concat(units[u := x])) == multiset(done + [sq]);
    SameStopsIndexed(units, inUnit, units[u := x]);
  }

  /** A pair neither of whose stops is in a group opens a new group. */
  lemma NewUnitGrouped(units: seq<UnitInformation>, inUnit: map<string, int>, done: seq<Sequence>, sq: Sequence)
    requires Grouped(units, inUnit, done)
    requires sq.predecessor !in inUnit && sq.successor !in inUnit
    ensures Grouped(units + [UnitInformation(Ends(sq), [sq])],
                    inUnit[sq.predecessor := |units|][sq.successor := |units|], done + [sq])
  {
    var x := UnitInformation(Ends(sq), [sq]);
    NewUnitIndexed(units, inUnit, sq);
    assert Endpoints([sq]) == Ends(sq) by {
      assert [sq][..0] == [];
    }
    assert WellFormed(units + [x]);
    ConcatAppend(units, [x]);
    assert Concat([x]) == [sq] by {
      assert [x][..0] == [];
    }
    assert multiset(Concat(units + [x])) == multiset(done + [sq]);
  }

  /** A new group at the end for the stops of sq keeps the index map right when neither stop is in a group. */
  lemma NewUnitIndexed(units: seq<UnitInformation>, inUnit: map<string, int>, sq: Sequence)
    requires Indexed(units, inUnit)
    requires sq.predecessor !in inUnit && sq.successor !in inUnit
    ensures Indexed(units + [UnitInformation(Ends(sq), [sq])], inUnit[sq.predecessor := |units|][sq.successor := |units|])
  {
    var us := units + [UnitInformation(Ends(sq), [sq])];
    var m := inUnit[sq.predecessor := |units|][sq.successor := |units|];
    forall i, s | 0 <= i < |us| && s in us[i].stops
      ensures s in m && m[s] == i
    {
      if i < |units| {
        assert us[i] == units[i];
      }
    }
  }

  /** The groups after merging group hi into group lo because of pair sq. */
  function Merged(units: seq<UnitInformation>, lo: int, hi: int, sq: Sequence): seq<UnitInformation>
    requires 0 <= lo < hi < |units|
  {
    var rest := units[..hi] + units[hi + 1..];
    rest[lo := UnitInformation(units[lo].stops + units[hi].stops, units[lo].sequences + units[hi].sequences + [sq])]
  }

  /**
   * How mergeUnits rebuilds the index map: m maps the stops of every group
   * but hi to its index once hi is taken out, and m2 then maps the stops of
   * hi to lo.
   */
  ghost predicate Reindexed(units: seq<UnitInformation>, inUnit: map<string, int>, lo: int, hi: int,
                            m: map<string, int>, m2: map<string, int>)
    requires 0 <= lo < hi < |units|
  {
    var rest := units[..hi] + units[hi + 1..];
    m.Keys == inUnit.Keys && (forall j, s :: 0 <= j < |rest| && s in rest[j].stops ==> s in m && m[s] == j) &&
    m2.Keys == m.Keys && forall s :: s in m2 ==> m2[s] == if s in units[hi].stops then lo else m[s]
  }

  /** After the merge every stop of a group maps to the group. */
  lemma MergeStopsIndexed(units: seq<UnitInformation>, inUnit: map<string, int>, lo: int, hi: int, sq: Sequence,
                          m: map<string, int>, m2: map<string, int>)
    requires 0 <= lo < hi < |units| && Indexed(units, inUnit) && Reindexed(units, inUnit, lo, hi, m, m2)
    ensures var f := Merged(units, lo, hi, sq);
      forall j, s :: 0 <= j < |f| && s in f[j].stops ==> s in m2 && m2[s] == j
  {
    var rest := units[..hi] + units[hi + 1..];
    var f := Merged(units, lo, hi, sq);
    forall j, s | 0 <= j < |f| && s in f[j].stops
      ensures s in m2 && m2[s] == j
    {
      if j != lo {
        var j0 := if j < hi then j else j + 1;
        assert rest[j] == units[j0];
        assert s in inUnit && inUnit[s] == j0;
      } else if s !in units[hi].stops {
        assert s in rest[lo].stops;
      }
    }
  }

  /** After the merge every stop of the map belongs to the group it maps to. */
  lemma MergeKeysIndexed(units: seq<UnitInformation>, inUnit: map<string, int>, lo: int, hi: int, sq: Sequence,
                         m: map<string, int>, m2: map<string, int>)
    requires 0 <= lo < hi < |units| && Indexed(units, inUnit) && Reindexed(units, inUnit, lo, hi, m, m2)
    ensures var f := Merged(units, lo, hi, sq);
      forall s :: s in m2 ==> 0 <= m2[s] < |f| && s in f[m2[s]].stops
  {
    var rest := units[..hi] + units[hi + 1..];
    var f := Merged(units, lo, hi, sq);
    forall s | s in m2
      ensures 0 <= m2[s] < |f| && s in f[m2[s]].stops
    {
      if s !in units[hi].stops {
        var j0 := inUnit[s];
        var j := if j0 < hi then j0 else j0 - 1;
        assert rest[j] == units[j0];
      }
    }
  }

  /** The index map after the merge: the stops of hi move to lo, and the groups after hi move down by one. */
  lemma MergeIndexed(units: seq<UnitInformation>, inUnit: map<string, int>, lo: int, hi: int, sq: Sequence,
                     m: map<string, int>, m2: map<string, int>)
    requires 0 <= lo < hi < |units| && Indexed(units, inUnit) && Reindexed(units, inUnit, lo, hi, m, m2)
    ensures Indexed(Merged(units, lo, hi, sq), m2)
  {
    MergeStopsIndexed(units, inUnit, lo, hi, sq, m, m2);
    MergeKeysIndexed(units, inUnit, lo, hi, sq, m, m2);
  }

  /** With group hi taken out, the other groups' stops are still known to the map and still in one group each. */
  lemma RestIndexed(units: seq<UnitInformation>, inUnit: map<string, int>, hi: int)
    requires 0 <= hi < |units| && Indexed(units, inUnit)
    ensures var rest := units[..hi] + units[hi + 1..];
      (forall j, s :: 0 <= j < |rest| && s in rest[j].stops ==> s in inUnit) &&
      (forall i, j, s :: 0 <= i < j < |rest| && s in rest[i].stops ==> s !in rest[j].stops)
  {
    var rest := units[..hi] + units[hi + 1..];
    assert forall j :: 0 <= j < |rest| ==> rest[j] == units[if j < hi then j else j + 1];
    forall i, j, s | 0 <= i < j < |rest| && s in rest[i].stops
      ensures s !in rest[j].stops
    {
      var i0, j0 := if i < hi then i else i + 1, if j < hi then j else j + 1;
      assert inUnit[s] == i0;
    }
  }

  /** Maps every stop of stops to i, leaving the other entries as they are. */
  method Reindex(inUnit: map<string, int>, stops: set<string>, i: int) returns (r: map<string, int>)
    requires stops <= inUnit.Keys
    ensures r.Keys == inUnit.Keys
    ensures forall s :: s in r ==> r[s] == if s in stops then i else inUnit[s]
  {
    r := inUnit;
    var todo := stops;
    while todo != {}
      invariant todo <= stops && r.Keys == inUnit.Keys
      invariant forall s :: s in r ==> r[s] == if s in stops - todo then i else inUnit[s]
      decreases todo
    {
      Inhabited(todo);
      var s :| s in todo;
      r := r[s := i];
      todo := todo - {s};
    }
  }

  /** The loop of mergeUnits over the remaining groups (factory/plan_units.go:194-198): each stop maps to its group. */
  method ReindexAll(inUnit: map<string, int>, rest: seq<UnitInformation>) returns (m: map<string, int>)
    requires forall j, s :: 0 <= j < |rest| && s in rest[j].stops ==> s in inUnit
    requires forall i, j, s :: 0 <= i < j < |rest| && s in rest[i].stops ==> s !in rest[j].stops
    ensures m.Keys == inUnit.Keys
    ensures forall j, s :: 0 <= j < |rest| && s in rest[j].stops ==> s in m && m[s] == j
  {
    m := inUnit;
    for i := 0 to |rest|
      invariant m.Keys == inUnit.Keys
      invariant forall j, s :: 0 <= j < i && s in rest[j].stops ==> s in m && m[s] == j
    {
      m := Reindex(m, rest[i].stops, i);
    }
  }

  /**
   * mergeUnits (factory/plan_units.go:182-206): the later of the two groups
   * is taken out, the groups after it move down, and its stops and pairs,
   * then sq, join the earlier one; the index map follows.
   */
  method MergeUnits(unitIndex1: int, unitIndex2: int, units: seq<UnitInformation>, inUnit: map<string, int>, sq: Sequence)
    returns (units': seq<UnitInformation>, inUnit': map<string, int>)
    requires 0 <= unitIndex1 < |units| && 0 <= unitIndex2 < |units| && unitIndex1 != unitIndex2
    requires Indexed(units, inUnit)
    ensures var lo := if unitIndex1 < unitIndex2 then unitIndex1 else unitIndex2;
      var hi := if unitIndex1 < unitIndex2 then unitIndex2 else unitIndex1;
      units' == Merged(units, lo, hi, sq)
    ensures Indexed(units', inUnit') && inUnit'.Keys == inUnit.Keys
  {
    var lo, hi := unitIndex1, unitIndex2;
    if lo > hi {
      lo, hi := hi, lo;
    }
    var oldUnit := units[hi];
    var rest := units[..hi] + units[hi + 1..];
    RestIndexed(units, inUnit, hi);
    var m := ReindexAll(inUnit, rest);
    inUnit' := Reindex(m, oldUnit.stops, lo);
    assert Reindexed(units, inUnit, lo, hi, m, inUnit');
    MergeIndexed(units, inUnit, lo, hi, sq, m, inUnit');
    units' := rest[lo := UnitInformation(rest[lo].stops + oldUnit.stops, rest[lo].sequences + oldUnit.sequences + [sq])];
  }

  /** Merging keeps every group non-empty and holding exactly the stops of its pairs. */
  lemma MergedWellFormed(units: seq<UnitInformation>, lo: int, hi: int, sq: Sequence)
    requires WellFormed(units) && 0 <= lo < hi < |units|
    requires Ends(sq) <= units[lo].stops + units[hi].stops
    ensures WellFormed(Merged(units, lo, hi, sq))
  {
    var rest := units[..hi] + units[hi + 1..];
    var x := Merged(units, lo, hi, sq)[lo];
    assert forall j :: 0 <= j < |rest| ==> rest[j] == units[if j < hi then j else j + 1];
    EndpointsAppend(units[lo].sequences, units[hi].sequences);
    EndpointsAppend(units[lo].sequences + units[hi].sequences, [sq]);
    assert Endpoints([sq]) == Ends(sq) by {
      assert [sq][..0] == [];
    }
    assert x.stops == Endpoints(x.sequences);
  }

  /** Merging adds sq to the pairs the groups hold and loses none. */
  lemma MergedConcat(units: seq<UnitInformation>, lo: int, hi: int, sq: Sequence)
    requires 0 <= lo < hi < |units|
    ensures multiset(Concat(Merged(units, lo, hi, sq))) == multiset(Concat(units)) + multiset([sq])
  {
    var rest := units[..hi] + units[hi + 1..];
    assert rest[lo] == units[lo];
    ConcatRemove(units, hi);
    ConcatExtended(rest, lo, Merged(units, lo, hi, sq)[lo], units[hi].sequences + [sq]);
  }

  /** A pair joining two different groups merges them, and the merged groups stay right. */
  lemma MergedGrouped(units: seq<UnitInformation>, inUnit: map<string, int>, done: seq<Sequence>,
                      lo: int, hi: int, sq: Sequence, inUnit': map<string, int>)
    requires Grouped(units, inUnit, done) && 0 <= lo < hi < |units|
    requires Ends(sq) <= units[lo].stops + units[hi].stops
    requires Indexed(Merged(units, lo, hi, sq), inUnit')
    ensures Grouped(Merged(units, lo, hi, sq), inUnit', done + [sq])
  {
    MergedWellFormed(units, lo, hi, sq);
    MergedConcat(units, lo, hi, sq);
    assert multiset(done + [sq]) == multiset(done) + multiset([sq]);
  }

  /** The groups' pairs, in the order of the groups. */
  function Groups(units: seq<UnitInformation>): (r: seq<seq<Sequence>>)
    ensures |r| == |units| && forall i :: 0 <= i < |units| ==> r[i] == units[i].sequences
  {
    seq(|units|, i requires 0 <= i < |units| => units[i].sequences)
  }

  /** All the pairs of the groups, group after group. */
  function Flatten(groups: seq<seq<Sequence>>): seq<Sequence>
    decreases |groups|
  {
    if groups == [] then [] else Flatten(groups[..|groups| - 1]) + groups[|groups| - 1]
  }

  lemma {:induction false} FlattenGroups(units: seq<UnitInformation>)
    ensures Flatten(Groups(units)) == Concat(units)
    decreases |units|
  {
    if units != [] {
      FlattenGroups(units[..|units| - 1]);
      assert Groups(units)[..|units| - 1] == Groups(units[..|units| - 1]);
    }
  }

  /** No stop is in two groups. */
  lemma GroupsDisjoint(units: seq<UnitInformation>, inUnit: map<string, int>)
    requires Indexed(units, inUnit) && WellFormed(units)
    ensures forall i, j :: 0 <= i < j < |units| ==> Endpoints(units[i].sequences) !! Endpoints(units[j].sequences)
  {
    forall i, j | 0 <= i < j < |units|
      ensures Endpoints(units[i].sequences) !! Endpoints(units[j].sequences)
    {
      forall s | s in units[i].stops
        ensures s !in units[j].stops
      {
        assert inUnit[s] == i;
      }
    }
  }

  /** A pair whose stops are indexed in groups lo and hi has its stops among theirs. */
  lemma EndsInUnits(units: seq<UnitInformation>, inUnit: map<string, int>, sq: Sequence, lo: int, hi: int)
    requires Indexed(units, inUnit)
    requires sq.predecessor in inUnit && sq.successor in inUnit
    requires {inUnit[sq.predecessor], inUnit[sq.successor]} == {lo, hi}
    ensures Ends(sq) <= units[lo].stops + units[hi].stops
  {
    assert sq.predecessor in units[inUnit[sq.predecessor]].stops;
    assert sq.successor in units[inUnit[sq.successor]].stops;
  }

  /** One pass of the loop of allSequences (factory/plan_units.go:130-172): the pair joins, merges or opens groups by where its stops are. */
  method AddSequence(units: seq<UnitInformation>, inUnit: map<string, int>, data: seq<Sequence>, k: int)
    returns (units': seq<UnitInformation>, inUnit': map<string, int>)
    requires 0 <= k < |data| && Grouped(units, inUnit, data[..k])
    ensures Grouped(units', inUnit', data[..k + 1])
  {
    ghost var done := data[..k];
    var sq := data[k];
    assert data[..k + 1] == done + [sq];
    var unitIndex1 := if sq.predecessor in inUnit then inUnit[sq.predecessor] else -1;
    var unitIndex2 := if sq.successor in inUnit then inUnit[sq.successor] else -1;
    if unitIndex1 != -1 && unitIndex2 == -1 {
      ToExistingUnitGrouped(units, inUnit, done, unitIndex1, sq);
      var r := ToExistingUnit(units, unitIndex1, sq, inUnit);
      return r.0, r.1;
    } else if unitIndex1 == -1 && unitIndex2 != -1 {
      ToExistingUnitGrouped(units, inUnit, done, unitIndex2, sq);
      var r := ToExistingUnit(units, unitIndex2, sq, inUnit);
      return r.0, r.1;
    } else if unitIndex1 != -1 && unitIndex2 != -1 && unitIndex1 != unitIndex2 {
      units', inUnit' := MergeUnits(unitIndex1, unitIndex2, units, inUnit, sq);
      var lo := if unitIndex1 < unitIndex2 then unitIndex1 else unitIndex2;
      var hi := if unitIndex1 < unitIndex2 then unitIndex2 else unitIndex1;
      EndsInUnits(units, inUnit, sq, lo, hi);
      MergedGrouped(units, inUnit, done, lo, hi, sq, inUnit');
      return;
    } else if unitIndex1 != -1 && unitIndex2 != -1 && unitIndex1 == unitIndex2 {
      SameUnitGrouped(units, inUnit, done, unitIndex1, sq);
      return units[unitIndex1 := units[unitIndex1].(sequences := units[unitIndex1].sequences + [sq])], inUnit;
    }
    NewUnitGrouped(units, inUnit, done, sq);
    inUnit' := inUnit[sq.predecessor := |units|][sq.successor := |units|];
    units' := units + [UnitInformation(Ends(sq), [sq])];
  }

  /**
   * groups partition the pairs of data: every pair is in exactly one group,
   * no group is empty, there are no more groups than pairs, and no stop is
   * in two groups.
   */
  ghost predicate Partition(groups: seq<seq<Sequence>>, data: seq<Sequence>)
  {
    multiset(Flatten(groups)) == multiset(data) &&
    |groups| <= |data| &&
    (forall i :: 0 <= i < |groups| ==> groups[i] != []) &&
    (forall i, j :: 0 <= i < j < |groups| ==> Endpoints(groups[i]) !! Endpoints(groups[j]))
  }

  /** Once every pair is placed, the groups partition the pairs. */
  lemma GroupedPartition(units: seq<UnitInformation>, inUnit: map<string, int>, data: seq<Sequence>)
    requires Grouped(units, inUnit, data)
    ensures Partition(Groups(units), data)
  {
    FlattenGroups(units);
    GroupsDisjoint(units, inUnit);
  }

  /** allSequences (factory/plan_units.go:120-180): no pairs give no groups, and the groups partition the pairs. */
  method AllSequences(data: seq<Sequence>) returns (groups: seq<seq<Sequence>>)
    ensures data == [] ==> groups == []
    ensures Partition(groups, data)
  {
    if |data| == 0 {
      return [];
    }
    var units, inUnit := BuildUnits(data);
    groups := Groups(units);
    GroupedPartition(units, inUnit, data);
  }

  /** The loop of allSequences over the pairs (factory/plan_units.go:128-172). */
  method BuildUnits(data: seq<Sequence>) returns (units: seq<UnitInformation>, inUnit: map<string, int>)
    ensures Grouped(units, inUnit, data)
  {
    inUnit := map[];
    units := [];
    for k := 0 to |data|
      invariant Grouped(units, inUnit, data[..k])
    {
      units, inUnit := AddSequence(units, inUnit, data, k);
    }
    assert data[..|data|] == data;
  }
}
