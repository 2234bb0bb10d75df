// The no-mix constraint (model_constraint_no_mix.go): stops insert items of
// a kind into a vehicle or remove them, and a vehicle never carries two kinds
// at once. Stops are known by their index; the plan unit of a stop is given
// by `unitOf`.
module ModelConstraintNoMix {
  import opened Wrappers
  import opened Sets

  /** MixItem: a kind of item and a number of units of it. */
  datatype MixItem = MixItem(name: string, quantity: int)

  datatype NoMixError =
    | OneKindMissing(inserts: nat, removes: nat)
    | TwoItems(stop: int)
    | MixedNames(planUnit: int)
    | NonZeroDelta(planUnit: int, delta: int)
    | CannotInsert(stop: int)
    | CannotRemove(stop: int)

  /** The items the stops insert and those they remove, each quantity as a positive amount. */
  datatype NoMix = NoMix(insert: map<int, MixItem>, remove: map<int, MixItem>)

  /** The stops in done are split: a positive quantity inserts, any other removes its negation. */
  ghost predicate SplitUpTo(deltas: map<int, MixItem>, insert: map<int, MixItem>, remove: map<int, MixItem>, done: set<int>)
  {
    (forall s :: s in insert <==> s in done && s in deltas && deltas[s].quantity > 0) &&
    (forall s :: s in remove <==> s in done && s in deltas && deltas[s].quantity <= 0) &&
    (forall s :: s in insert ==> insert[s] == deltas[s]) &&
    (forall s :: s in remove ==> remove[s] == MixItem(deltas[s].name, -deltas[s].quantity))
  }

  /** NewNoMixConstraint (model_constraint_no_mix.go:39-66): the deltas split by the sign of their quantity. */
  method NewNoMixConstraint(deltas: map<int, MixItem>) returns (r: NoMix)
    ensures SplitUpTo(deltas, r.insert, r.remove, deltas.Keys)
  {
    var insert: map<int, MixItem> := map[];
    var remove: map<int, MixItem> := map[];
    var todo := deltas.Keys;
    while todo != {}
      invariant todo <= deltas.Keys
      invariant SplitUpTo(deltas, insert, remove, deltas.Keys - todo)
      decreases todo
    {
      InhabitedInt(todo);
      var stop :| stop in todo;
      var delta := deltas[stop];
      if delta.quantity > 0 {
        insert := insert[stop := MixItem(delta.name, delta.quantity)];
      } else {
        remove := remove[stop := MixItem(delta.name, -delta.quantity)];
      }
      todo := todo - {stop};
    }
    return NoMix(insert, remove);
  }

  /** The deltas back from the two tables. */
  function Joined(nm: NoMix): map<int, MixItem>
  {
    map s | s in nm.insert.Keys + nm.remove.Keys ::
      if s in nm.insert then nm.insert[s] else MixItem(nm.remove[s].name, -nm.remove[s].quantity)
  }

  /**
   * The split puts every stop in exactly one table, inserts with a positive
   * quantity and removes with a quantity of at least zero, and loses nothing:
   * joining the tables gives the deltas back.
   */
  lemma SplitRejoins(deltas: map<int, MixItem>, nm: NoMix)
    requires SplitUpTo(deltas, nm.insert, nm.remove, deltas.Keys)
    ensures nm.insert.Keys !! nm.remove.Keys && nm.insert.Keys + nm.remove.Keys == deltas.Keys
    ensures forall s :: s in nm.insert ==> nm.insert[s].quantity > 0
    ensures forall s :: s in nm.remove ==> nm.remove[s].quantity >= 0
    ensures Joined(nm) == deltas
  {
    assert forall s :: !(s in nm.insert && s in nm.remove);
    assert forall s :: s in nm.insert.Keys + nm.remove.Keys <==> s in deltas.Keys;
    assert nm.insert.Keys + nm.remove.Keys == deltas.Keys;
    assert forall s :: s in Joined(nm) <==> s in deltas;
    assert forall s :: s in deltas ==> Joined(nm)[s] == deltas[s];
  }

  /** Every stop that inserts or removes. */
  function Stops(nm: NoMix): set<int>
  {
    nm.insert.Keys + nm.remove.Keys
  }

  /** The kind of item at a stop; a stop in both tables counts by its insert. */
  function NameOf(nm: NoMix, s: int): string
    requires s in Stops(nm)
  {
    if s in nm.insert then nm.insert[s].name else nm.remove[s].name
  }

  /** The stops of keys in plan unit u. */
  function InUnit(keys: set<int>, unitOf: int -> int, u: int): set<int>
  {
    set s | s in keys && unitOf(s) == u
  }

  /** The total quantity of the items of a set of stops. */
  ghost function SumQ(s: set<int>, m: map<int, MixItem>): int
    requires s <= m.Keys
    decreases s
  {
    if s == {} then 0
    else
      InhabitedInt(s);
      var x :| x in s;
      m[x].quantity + SumQ(s - {x}, m)
  }

  /** The total may be taken apart at any of its stops. */
  lemma {:induction false} SumQRemove(s: set<int>, m: map<int, MixItem>, y: int)
    requires s <= m.Keys && y in s
    ensures SumQ(s, m) == m[y].quantity + SumQ(s - {y}, m)
    decreases s
  {
    var x :| x in s && SumQ(s, m) == m[x].quantity + SumQ(s - {x}, m);
    if x != y {
      SumQRemove(s - {x}, m, y);
      SumQRemove(s - {y}, m, x);
      assert s - {x} - {y} == s - {y} - {x};
    }
  }

  /** The sum of the quantities of plan unit u: inserted minus removed. */
  ghost function Delta(nm: NoMix, unitOf: int -> int, u: int): int
  {
    SumQ(InUnit(nm.insert.Keys, unitOf, u), nm.insert) - SumQ(InUnit(nm.remove.Keys, unitOf, u), nm.remove)
  }

  /** Stops of one plan unit carry items of one kind. */
  predicate NamesAgree(nm: NoMix, unitOf: int -> int)
  {
    forall a, b :: a in Stops(nm) && b in Stops(nm) && unitOf(a) == unitOf(b) ==> NameOf(nm, a) == NameOf(nm, b)
  }

  /** What the validation accepts: no items at all, or both inserts and removes, each stop with one item, every plan unit of one kind and balanced. */
  ghost predicate Consistent(nm: NoMix, unitOf: int -> int)
  {
    (|nm.insert| == 0 && |nm.remove| == 0) ||
    (|nm.insert| > 0 && |nm.remove| > 0 && nm.insert.Keys !! nm.remove.Keys && NamesAgree(nm, unitOf) &&
     forall s :: s in Stops(nm) ==> Delta(nm, unitOf, unitOf(s)) == 0)
  }

  /** The tables of the loops of validate while they run. */
  datatype Tally = Tally(stops: map<int, string>, deltas: map<int, int>, names: map<int, string>)

  /**
   * What the loops of validate have gathered after the inserting stops in
   * done1 and the removing stops in done2: the stops seen, the delta of each
   * plan unit seen, and its kind.
   */
  ghost predicate Gathered(nm: NoMix, unitOf: int -> int, done1: set<int>, done2: set<int>, t: Tally)
    requires done1 <= nm.insert.Keys && done2 <= nm.remove.Keys
  {
    t.stops.Keys == done1 + done2 && done1 !! done2 &&
    t.names.Keys == t.deltas.Keys &&
    KindsGathered(nm, unitOf, done1, done2, t.names) &&
    DeltasGathered(nm, unitOf, done1, done2, t.deltas)
  }

  /** Every plan unit of a stop seen has a kind, the one of that stop's item. */
  predicate KindsGathered(nm: NoMix, unitOf: int -> int, done1: set<int>, done2: set<int>, names: map<int, string>)
    requires done1 <= nm.insert.Keys && done2 <= nm.remove.Keys
  {
    (forall s :: s in done1 ==> unitOf(s) in names && names[unitOf(s)] == nm.insert[s].name) &&
    (forall s :: s in done2 ==> unitOf(s) in names && names[unitOf(s)] == nm.remove[s].name)
  }

  /** Every plan unit in the deltas has a stop seen, and its delta is inserted minus removed so far. */
  ghost predicate DeltasGathered(nm: NoMix, unitOf: int -> int, done1: set<int>, done2: set<int>, deltas: map<int, int>)
    requires done1 <= nm.insert.Keys && done2 <= nm.remove.Keys
  {
    forall u :: u in deltas ==>
      InUnit(done1, unitOf, u) + InUnit(done2, unitOf, u) != {} &&
      deltas[u] == SumQ(InUnit(done1, unitOf, u), nm.insert) - SumQ(InUnit(done2, unitOf, u), nm.remove)
  }

  /** A plan unit none of the keys belongs to has no stops among them. */
  lemma NoneInUnit(keys: set<int>, unitOf: int -> int, u: int)
    requires forall s :: s in keys ==> unitOf(s) != u
    ensures InUnit(keys, unitOf, u) == {}
  {
    var e := InUnit(keys, unitOf, u);
    assert forall s :: s !in e;
    assert e == {};
  }

  /** Nothing has been gathered before the first stop. */
  lemma GatheredNothing(nm: NoMix, unitOf: int -> int)
    ensures Gathered(nm, unitOf, {}, {}, Tally(map[], map[], map[]))
  {
    var t := Tally(map[], map[], map[]);
    assert t.stops.Keys == {} + {};
    assert t.names.Keys == t.deltas.Keys;
  }

  /** A plan unit in the tally has a stop among those seen, whose kind the tally holds. */
  lemma GatheredOwner(nm: NoMix, unitOf: int -> int, done1: set<int>, done2: set<int>, t: Tally, u: int)
    requires done1 <= nm.insert.Keys && done2 <= nm.remove.Keys && done2 !! nm.insert.Keys
    requires Gathered(nm, unitOf, done1, done2, t) && u in t.names
    ensures exists a :: a in Stops(nm) && unitOf(a) == u && NameOf(nm, a) == t.names[u]
  {
    var e := InUnit(done1, unitOf, u) + InUnit(done2, unitOf, u);
    InhabitedInt(e);
    var a :| a in e;
    assert NameOf(nm, a) == t.names[u];
  }

  /** Counting one more inserting stop whose kind agrees with its plan unit keeps the tally right. */
  lemma InsertStep(nm: NoMix, unitOf: int -> int, done: set<int>, t: Tally, stop: int)
    requires done <= nm.insert.Keys && stop in nm.insert && stop !in done
    requires Gathered(nm, unitOf, done, {}, t)
    requires unitOf(stop) in t.names ==> t.names[unitOf(stop)] == nm.insert[stop].name
    ensures var u := unitOf(stop); var before := if u in t.deltas then t.deltas[u] else 0;
      Gathered(nm, unitOf, done + {stop}, {},
        Tally(t.stops[stop := nm.insert[stop].name], t.deltas[u := before + nm.insert[stop].quantity],
              t.names[u := nm.insert[stop].name]))
  {
    var u := unitOf(stop);
    var before := if u in t.deltas then t.deltas[u] else 0;
    var t' := Tally(t.stops[stop := nm.insert[stop].name], t.deltas[u := before + nm.insert[stop].quantity],
                    t.names[u := nm.insert[stop].name]);
    InsertDeltas(nm, unitOf, done, t.deltas, stop);
    assert t'.stops.Keys == done + {stop} + {};
    assert t'.names.Keys == t'.deltas.Keys;
    assert KindsGathered(nm, unitOf, done + {stop}, {}, t'.names);
  }

  /** The deltas after one more inserting stop. */
  lemma InsertDeltas(nm: NoMix, unitOf: int -> int, done: set<int>, deltas: map<int, int>, stop: int)
    requires done <= nm.insert.Keys && stop in nm.insert && stop !in done
    requires DeltasGathered(nm, unitOf, done, {}, deltas) && forall s :: s in done ==> unitOf(s) in deltas
    ensures var u := unitOf(stop); var before := if u in deltas then deltas[u] else 0;
      DeltasGathered(nm, unitOf, done + {stop}, {}, deltas[u := before + nm.insert[stop].quantity])
  {
    var u := unitOf(stop);
    AddedToUnit(done, unitOf, u, stop, nm.insert);
    if u !in deltas {
      NoneInUnit(done, unitOf, u);
    }
    forall v ensures InUnit({}, unitOf, v) == {} {
      NoneInUnit({}, unitOf, v);
    }
    assert stop in InUnit(done + {stop}, unitOf, u);
  }

  /** Counting one more removing stop, not among the inserting ones, whose kind agrees with its plan unit keeps the tally right. */
  lemma RemoveStep(nm: NoMix, unitOf: int -> int, done: set<int>, t: Tally, stop: int)
    requires done <= nm.remove.Keys && stop in nm.remove && stop !in done && stop !in nm.insert
    requires Gathered(nm, unitOf, nm.insert.Keys, done, t)
    requires unitOf(stop) in t.names ==> t.names[unitOf(stop)] == nm.remove[stop].name
    ensures var u := unitOf(stop); var before := if u in t.deltas then t.deltas[u] else 0;
      Gathered(nm, unitOf, nm.insert.Keys, done + {stop},
        Tally(t.stops[stop := nm.remove[stop].name], t.deltas[u := before - nm.remove[stop].quantity],
              t.names[u := nm.remove[stop].name]))
  {
    var u := unitOf(stop);
    var before := if u in t.deltas then t.deltas[u] else 0;
    var t' := Tally(t.stops[stop := nm.remove[stop].name], t.deltas[u := before - nm.remove[stop].quantity],
                    t.names[u := nm.remove[stop].name]);
    RemoveDeltas(nm, unitOf, done, t.deltas, stop);
    assert t'.stops.Keys == nm.insert.Keys + (done + {stop});
    assert t'.names.Keys == t'.deltas.Keys;
    assert KindsGathered(nm, unitOf, nm.insert.Keys, done + {stop}, t'.names);
  }

  /** The deltas after one more removing stop. */
  lemma RemoveDeltas(nm: NoMix, unitOf: int -> int, done: set<int>, deltas: map<int, int>, stop: int)
    requires done <= nm.remove.Keys && stop in nm.remove && stop !in done
    requires DeltasGathered(nm, unitOf, nm.insert.Keys, done, deltas)
    requires forall s :: s in nm.insert.Keys + done ==> unitOf(s) in deltas
    ensures var u := unitOf(stop); var before := if u in deltas then deltas[u] else 0;
      DeltasGathered(nm, unitOf, nm.insert.Keys, done + {stop}, deltas[u := before - nm.remove[stop].quantity])
  {
    var u := unitOf(stop);
    AddedToUnit(done, unitOf, u, stop, nm.remove);
    if u !in deltas {
      NoneInUnit(done, unitOf, u);
      NoneInUnit(nm.insert.Keys, unitOf, u);
    }
    assert stop in InUnit(done + {stop}, unitOf, u);
  }

  /** Adding a stop of plan unit u to the stops seen adds its quantity to the total of u and to no other. */
  lemma AddedToUnit(done: set<int>, unitOf: int -> int, u: int, stop: int, m: map<int, MixItem>)
    requires done <= m.Keys && stop in m && stop !in done && unitOf(stop) == u
    ensures InUnit(done + {stop}, unitOf, u) == InUnit(done, unitOf, u) + {stop}
    ensures SumQ(InUnit(done + {stop}, unitOf, u), m) == m[stop].quantity + SumQ(InUnit(done, unitOf, u), m)
    ensures forall v :: v != u ==> InUnit(done + {stop}, unitOf, v) == InUnit(done, unitOf, v)
  {
    var s := InUnit(done + {stop}, unitOf, u);
    assert s == InUnit(done, unitOf, u) + {stop};
    SumQRemove(s, m, stop);
    assert s - {stop} == InUnit(done, unitOf, u);
    forall v | v != u
      ensures InUnit(done + {stop}, unitOf, v) == InUnit(done, unitOf, v)
    {
      assert forall x :: x in InUnit(done + {stop}, unitOf, v) <==> x in InUnit(done, unitOf, v);
    }
  }

  /** With every stop counted and no stop in both tables, the kinds of stops agree within each plan unit. */
  lemma KindsAgree(nm: NoMix, unitOf: int -> int, names: map<int, string>)
    requires nm.insert.Keys !! nm.remove.Keys
    requires KindsGathered(nm, unitOf, nm.insert.Keys, nm.remove.Keys, names)
    ensures NamesAgree(nm, unitOf)
  {
    forall a, b | a in Stops(nm) && b in Stops(nm) && unitOf(a) == unitOf(b)
      ensures NameOf(nm, a) == NameOf(nm, b)
    {
      assert NameOf(nm, a) == names[unitOf(a)];
    }
  }

  /**
   * Once every stop is counted, the tally holds the delta of every plan unit
   * with a stop and of no other, and the kinds of stops agree within each.
   */
  lemma GatheredAll(nm: NoMix, unitOf: int -> int, t: Tally)
    requires Gathered(nm, unitOf, nm.insert.Keys, nm.remove.Keys, t)
    ensures nm.insert.Keys !! nm.remove.Keys && NamesAgree(nm, unitOf)
    ensures forall s :: s in Stops(nm) ==> unitOf(s) in t.deltas && t.deltas[unitOf(s)] == Delta(nm, unitOf, unitOf(s))
    ensures forall u :: u in t.deltas ==> t.deltas[u] == Delta(nm, unitOf, u) && exists s :: s in Stops(nm) && unitOf(s) == u
  {
    KindsAgree(nm, unitOf, t.names);
    forall u | u in t.deltas
      ensures exists s :: s in Stops(nm) && unitOf(s) == u
    {
      GatheredOwner(nm, unitOf, nm.insert.Keys, nm.remove.Keys, t, u);
    }
  }

  /**
   * validate (model_constraint_no_mix.go:68-184): the tables pass exactly
   * when they are consistent. Go visits the maps in no fixed order, so the
   * error reported among several is not fixed either; each error names a
   * real defect.
   */
  method Validate(nm: NoMix, unitOf: int -> int) returns (r: Outcome<NoMixError>)
    ensures r.Pass? <==> Consistent(nm, unitOf)
    ensures ((|nm.insert| == 0) != (|nm.remove| == 0)) <==> r == Fail(OneKindMissing(|nm.insert|, |nm.remove|))
    ensures r.Fail? && r.error.TwoItems? ==> r.error.stop in nm.insert && r.error.stop in nm.remove
    ensures r.Fail? && r.error.MixedNames? ==> !NamesAgree(nm, unitOf)
    ensures r.Fail? && r.error.NonZeroDelta? ==>
      r.error.delta == Delta(nm, unitOf, r.error.planUnit) != 0 &&
      exists s :: s in Stops(nm) && unitOf(s) == r.error.planUnit
  {
    if |nm.insert| == 0 && |nm.remove| == 0 {
      return Pass;
    }
    if |nm.insert| * |nm.remove| == 0 {
      return Fail(OneKindMissing(|nm.insert|, |nm.remove|));
    }
    var t;
    r, t := TallyInserts(nm, unitOf);
    if r.Fail? {
      return;
    }
    r, t := TallyRemoves(nm, unitOf, t);
    if r.Fail? {
      return;
    }
    r := CheckDeltas(nm, unitOf, t);
  }

  /** The loop over the inserting stops (model_constraint_no_mix.go:86-108). */
  method TallyInserts(nm: NoMix, unitOf: int -> int) returns (r: Outcome<NoMixError>, t: Tally)
    ensures r.Pass? ==> Gathered(nm, unitOf, nm.insert.Keys, {}, t)
    ensures r.Fail? ==> r.error.MixedNames? && !NamesAgree(nm, unitOf)
  {
    t := Tally(map[], map[], map[]);
    GatheredNothing(nm, unitOf);
    var todo := nm.insert.Keys;
    ghost var done: set<int> := {};
    while todo != {}
      invariant todo <= nm.insert.Keys && done == nm.insert.Keys - todo
      invariant Gathered(nm, unitOf, done, {}, t)
      decreases todo
    {
      InhabitedInt(todo);
      var stop :| stop in todo;
      r, t := CountInsert(nm, unitOf, done, t, stop);
      if r.Fail? {
        return;
      }
      done := done + {stop};
      todo := todo - {stop};
    }
    return Pass, t;
  }

  /** One inserting stop: its kind must agree with what its plan unit already holds. */
  method CountInsert(nm: NoMix, unitOf: int -> int, ghost done: set<int>, t: Tally, stop: int)
    returns (r: Outcome<NoMixError>, t': Tally)
    requires done <= nm.insert.Keys && stop in nm.insert && stop !in done
    requires Gathered(nm, unitOf, done, {}, t)
    ensures r.Pass? ==> Gathered(nm, unitOf, done + {stop}, {}, t')
    ensures r.Fail? ==> r.error.MixedNames? && !NamesAgree(nm, unitOf)
  {
    var item := nm.insert[stop];
    var unit := unitOf(stop);
    if unit in t.names && t.names[unit] != item.name {
      GatheredOwner(nm, unitOf, done, {}, t, unit);
      return Fail(MixedNames(unit)), t;
    }
    var before := if unit in t.deltas then t.deltas[unit] else 0;
    InsertStep(nm, unitOf, done, t, stop);
    t' := Tally(t.stops[stop := item.name], t.deltas[unit := before + item.quantity], t.names[unit := item.name]);
    r := Pass;
  }

  /** The loop over the removing stops (model_constraint_no_mix.go:109-140). */
  method TallyRemoves(nm: NoMix, unitOf: int -> int, t0: Tally) returns (r: Outcome<NoMixError>, t: Tally)
    requires Gathered(nm, unitOf, nm.insert.Keys, {}, t0)
    ensures r.Pass? ==> Gathered(nm, unitOf, nm.insert.Keys, nm.remove.Keys, t)
    ensures r.Fail? ==>
      (r.error.TwoItems? && r.error.stop in nm.insert && r.error.stop in nm.remove) ||
      (r.error.MixedNames? && !NamesAgree(nm, unitOf))
  {
    t := t0;
    var todo := nm.remove.Keys;
    ghost var done: set<int> := {};
    while todo != {}
      invariant todo <= nm.remove.Keys && done == nm.remove.Keys - todo
      invariant Gathered(nm, unitOf, nm.insert.Keys, done, t)
      decreases todo
    {
      InhabitedInt(todo);
      var stop :| stop in todo;
      r, t := CountRemove(nm, unitOf, done, t, stop);
      if r.Fail? {
        return;
      }
      done := done + {stop};
      todo := todo - {stop};
    }
    return Pass, t;
  }

  /** One removing stop: it must not also insert, and its kind must agree with what its plan unit already holds. */
  method CountRemove(nm: NoMix, unitOf: int -> int, ghost done: set<int>, t: Tally, stop: int)
    returns (r: Outcome<NoMixError>, t': Tally)
    requires done <= nm.remove.Keys && stop in nm.remove && stop !in done
    requires Gathered(nm, unitOf, nm.insert.Keys, done, t)
    ensures r.Pass? ==> Gathered(nm, unitOf, nm.insert.Keys, done + {stop}, t')
    ensures r.Fail? ==>
      (r.error.TwoItems? && r.error.stop in nm.insert && r.error.stop in nm.remove) ||
      (r.error.MixedNames? && !NamesAgree(nm, unitOf))
  {
    var item := nm.remove[stop];
    if stop in t.stops {
      return Fail(TwoItems(stop)), t;
    }
    var unit := unitOf(stop);
    if unit in t.names && t.names[unit] != item.name {
      GatheredOwner(nm, unitOf, nm.insert.Keys, done, t, unit);
      return Fail(MixedNames(unit)), t;
    }
    var before := if unit in t.deltas then t.deltas[unit] else 0;
    RemoveStep(nm, unitOf, done, t, stop);
    t' := Tally(t.stops[stop := item.name], t.deltas[unit := before - item.quantity], t.names[unit := item.name]);
    r := Pass;
  }

  /** The loop over the plan units (model_constraint_no_mix.go:142-182): an unbalanced one is reported. */
  method CheckDeltas(nm: NoMix, unitOf: int -> int, t: Tally) returns (r: Outcome<NoMixError>)
    requires |nm.insert| > 0 && |nm.remove| > 0
    requires Gathered(nm, unitOf, nm.insert.Keys, nm.remove.Keys, t)
    ensures r.Pass? <==> Consistent(nm, unitOf)
    ensures r.Fail? ==>
      (r.error.NonZeroDelta? && r.error.delta == Delta(nm, unitOf, r.error.planUnit) != 0 &&
       exists s :: s in Stops(nm) && unitOf(s) == r.error.planUnit)
  {
    GatheredAll(nm, unitOf, t);
    var todo := t.deltas.Keys;
    while todo != {}
      invariant todo <= t.deltas.Keys
      invariant forall u :: u in t.deltas.Keys - todo ==> t.deltas[u] == 0
      decreases todo
    {
      InhabitedInt(todo);
      var unit :| unit in todo;
      var d := t.deltas[unit];
      if d != 0 {
        return Fail(NonZeroDelta(unit, d));
      }
      todo := todo - {unit};
    }
    return Pass;
  }

  /** The state of a vehicle at a stop: what it carries, how many times it was loaded from empty, and whether it is unloading. */
  datatype StopData = StopData(content: MixItem, tour: int, removing: bool)

  /** The first stop of a vehicle: empty, no tour yet. */
  const Empty := StopData(MixItem("", 0), 0, false)

  /**
   * UpdateConstraintStopData (model_constraint_no_mix.go:225-314), after the
   * first stop: an inserting stop needs the vehicle empty or carrying its
   * kind, a removing stop needs its kind and enough of it, any other stop
   * carries the state on.
   */
  function UpdateStopData(nm: NoMix, stop: int, previous: StopData): Result<StopData, NoMixError>
  {
    if stop in nm.insert then
      var item := nm.insert[stop];
      if previous.content.name != item.name && previous.content.quantity != 0 then Err(CannotInsert(stop))
      else
        var tour := if previous.content.quantity == 0 then previous.tour + 1 else previous.tour;
        Ok(StopData(MixItem(item.name, previous.content.quantity + item.quantity), tour, false))
    else if stop in nm.remove then
      var item := nm.remove[stop];
      if previous.content.name != item.name || previous.content.quantity < item.quantity then Err(CannotRemove(stop))
      else
        var removing := previous.content.quantity != item.quantity;
        Ok(StopData(MixItem(previous.content.name, previous.content.quantity - item.quantity), previous.tour, removing))
    else
      var name := if previous.content.quantity == 0 then "" else previous.content.name;
      Ok(StopData(MixItem(name, previous.content.quantity), previous.tour, previous.removing))
  }

  /** The state after the stops of a route that follow the first stop, or the first refusal. */
  function Run(nm: NoMix, route: seq<int>): Result<StopData, NoMixError>
    decreases |route|
  {
    if route == [] then Ok(Empty)
    else
      match Run(nm, route[..|route| - 1])
      case Err(e) => Err(e)
      case Ok(previous) => UpdateStopData(nm, route[|route| - 1], previous)
  }

  /** What the stops of a route insert minus what they remove. */
  function NetLoad(nm: NoMix, route: seq<int>): int
    decreases |route|
  {
    if route == [] then 0
    else
      var s := route[|route| - 1];
      NetLoad(nm, route[..|route| - 1]) +
      (if s in nm.insert then nm.insert[s].quantity else if s in nm.remove then -nm.remove[s].quantity else 0)
  }

  /**
   * Along a route the vehicle accepts, the load is what was inserted minus
   * what was removed, it never drops below zero, a vehicle that is unloading
   * still carries something, and the tours never exceed the stops.
   */
  lemma {:induction false} RunLoad(nm: NoMix, route: seq<int>)
    requires forall s :: s in nm.remove ==> nm.remove[s].quantity >= 0
    requires forall s :: s in nm.insert ==> nm.insert[s].quantity > 0
    ensures Run(nm, route).Ok? ==>
      var d := Run(nm, route).value;
      d.content.quantity == NetLoad(nm, route) && d.content.quantity >= 0 &&
      (d.removing ==> d.content.quantity > 0) && 0 <= d.tour <= |route|
    decreases |route|
  {
    if route != [] {
      RunLoad(nm, route[..|route| - 1]);
    }
  }

  /**
   * A vehicle is never loaded with a second kind: at every inserting stop
   * of an accepted route the vehicle was empty or carried the same kind.
   */
  lemma {:induction false} RunNoMix(nm: NoMix, route: seq<int>, k: nat)
    requires 0 < k <= |route| && Run(nm, route).Ok?
    ensures Run(nm, route[..k - 1]).Ok? && Run(nm, route[..k]).Ok?
    ensures var before := Run(nm, route[..k - 1]).value; var s := route[k - 1];
      s in nm.insert ==> before.content.quantity == 0 || before.content.name == nm.insert[s].name
    decreases |route|
  {
    assert route[..k][..k - 1] == route[..k - 1];
    if k < |route| {
      var init := route[..|route| - 1];
      assert init[..k] == route[..k] && init[..k - 1] == route[..k - 1];
      RunNoMix(nm, init, k);
    } else {
      assert route[..k] == route;
    }
  }

  /** The total of one stop is its quantity. */
  lemma SumQSingle(m: map<int, MixItem>, x: int)
    requires x in m
    ensures SumQ({x}, m) == m[x].quantity
  {
    SumQRemove({x}, m, x);
    assert {x} - {x} == {};
  }

  /** Two stops of one plan unit, one inserting one unit of A and the other removing two, are refused. */
  lemma UnbalancedRefused()
    ensures !Consistent(NoMix(map[1 := MixItem("A", 1)], map[2 := MixItem("A", 2)]), _ => 0)
  {
    var nm := NoMix(map[1 := MixItem("A", 1)], map[2 := MixItem("A", 2)]);
    var unitOf: int -> int := _ => 0;
    assert InUnit(nm.insert.Keys, unitOf, 0) == {1};
    assert InUnit(nm.remove.Keys, unitOf, 0) == {2};
    SumQSingle(nm.insert, 1);
    SumQSingle(nm.remove, 2);
    assert Delta(nm, unitOf, unitOf(1)) == -1;
  }

  /** Stops of one plan unit carrying A and B are refused, however the quantities balance. */
  lemma MixedRefused()
    ensures !Consistent(NoMix(map[1 := MixItem("A", 1)], map[2 := MixItem("B", 1)]), _ => 0)
  {
    var nm := NoMix(map[1 := MixItem("A", 1)], map[2 := MixItem("B", 1)]);
    assert NameOf(nm, 1) != NameOf(nm, 2);
  }

  /** A pickup of one unit of A and its delivery in one plan unit are accepted. */
  lemma PickupDeliveryAccepted()
    ensures Consistent(NoMix(map[1 := MixItem("A", 1)], map[2 := MixItem("A", 1)]), _ => 0)
  {
    var nm := NoMix(map[1 := MixItem("A", 1)], map[2 := MixItem("A", 1)]);
    var unitOf: int -> int := _ => 0;
    assert InUnit(nm.insert.Keys, unitOf, 0) == {1};
    assert InUnit(nm.remove.Keys, unitOf, 0) == {2};
    SumQSingle(nm.insert, 1);
    SumQSingle(nm.remove, 2);
    assert Stops(nm) == {1, 2};
  }
}
