// The option flattening of nextroute/options.py: the nested dict of an
// Options object is flattened into "-a.b.c" keys in declaration order, and
// every flattened entry becomes a key token and a JSON value token.
module NestedOptions {
  import opened Wrappers
  import opened PyJson
  import Strings

  /** A Python dict from strings: its items in insertion order. */
  type Entries = seq<(string, Value)>

  /** _DURATIONS_ARGS (nextroute/options.py:16-19). */
  const DurationArgs: seq<string> := ["-check.duration", "-solve.duration"]

  // ---------------------------------------------------------------------
  // Python dict semantics
  // ---------------------------------------------------------------------

  /** The place of key k among the items, -1 when k is not a key. */
  function Find(d: Entries, k: string): (r: int)
    ensures -1 <= r < |d|
    ensures r >= 0 ==> d[r].0 == k && forall j :: 0 <= j < r ==> d[j].0 != k
    ensures r < 0 ==> forall j :: 0 <= j < |d| ==> d[j].0 != k
  {
    if d == [] then -1
    else if d[0].0 == k then 0
    else
      var r := Find(d[1..], k);
      if r < 0 then -1 else r + 1
  }

  /** d.get(k). */
  function Get(d: Entries, k: string): Option<Value>
  {
    var i := Find(d, k);
    if i >= 0 then Some(d[i].1) else None
  }

  /** No key occurs twice, as in any Python dict. */
  predicate DistinctKeys(d: Entries)
  {
    forall i, j :: 0 <= i < j < |d| ==> d[i].0 != d[j].0
  }

  /**
   * d[k] = v: a key already there keeps its place and takes the new value;
   * a new key goes at the end.
   */
  function DictSet(d: Entries, k: string, v: Value): (r: Entries)
    ensures |r| == |d| || |r| == |d| + 1
    ensures forall i :: 0 <= i < |d| ==> r[i].0 == d[i].0
    ensures |r| == |d| + 1 <==> Get(d, k) == None
    ensures |r| == |d| + 1 ==> r == d + [(k, v)]
  {
    var i := Find(d, k);
    if i >= 0 then d[i := (k, v)] else d + [(k, v)]
  }

  /** The first place holding k is what Find gives. */
  lemma FindAt(d: Entries, k: string, i: int)
    requires -1 <= i < |d|
    requires i >= 0 ==> d[i].0 == k && forall j :: 0 <= j < i ==> d[j].0 != k
    requires i < 0 ==> forall j :: 0 <= j < |d| ==> d[j].0 != k
    ensures Find(d, k) == i
  {
  }

  /** After d[k] = v, k holds v and every other key what it held before. */
  lemma DictSetGet(d: Entries, k: string, v: Value)
    ensures Get(DictSet(d, k, v), k) == Some(v)
    ensures forall k' :: k' != k ==> Get(DictSet(d, k, v), k') == Get(d, k')
  {
    var r := DictSet(d, k, v);
    var i := Find(d, k);
    if i >= 0 {
      assert r == d[i := (k, v)];
      FindAt(r, k, i);
    } else {
      assert r == d + [(k, v)];
      FindAt(r, k, |d|);
    }
    forall k' | k' != k
      ensures Get(r, k') == Get(d, k')
    {
      var j := Find(d, k');
      if j >= 0 {
        FindAt(r, k', j);
      } else {
        FindAt(r, k', -1);
      }
    }
  }

  /** Setting a key keeps the keys distinct. */
  lemma DictSetDistinct(d: Entries, k: string, v: Value)
    requires DistinctKeys(d)
    ensures DistinctKeys(DictSet(d, k, v))
  {
    var r := DictSet(d, k, v);
    if |r| == |d| + 1 {
      assert Find(d, k) < 0;
    }
  }

  /** The dict `flattened` that the flattening writes into. */
  class FlatDict {
    var entries: Entries

    constructor()
      ensures entries == []
    {
      entries := [];
    }

    /** flattened[k] = v. */
    method Set(k: string, v: Value)
      modifies this
      ensures entries == DictSet(old(entries), k, v)
    {
      var i := 0;
      while i < |entries| && entries[i].0 != k
        invariant 0 <= i <= |entries|
        invariant forall j :: 0 <= j < i ==> entries[j].0 != k
      {
        i := i + 1;
      }
      if i < |entries| {
        entries := entries[i := (k, v)];
      } else {
        entries := entries + [(k, v)];
      }
    }
  }

  // ---------------------------------------------------------------------
  // _flatten and __set_children (nextroute/options.py:99-128)
  // ---------------------------------------------------------------------

  /**
   * __set_children(flattened, key, v) on the items d: None and any value
   * other than a dict are set at key; a dict has each of its items set
   * under key + "." + its own key, in insertion order.
   */
  function SetChildren(d: Entries, key: string, v: Value): Entries
    decreases v, 1
  {
    if v.Null? then DictSet(d, key, v)
    else if v.Dict? then SetAll(d, key, v, 0)
    else DictSet(d, key, v)
  }

  /** The items of the dict parent from the i-th on, each set under key. */
  function SetAll(d: Entries, key: string, parent: Value, i: nat): Entries
    requires parent.Dict? && i <= |parent.entries|
    decreases parent, 0, |parent.entries| - i
  {
    if i == |parent.entries| then d
    else
      var e := parent.entries[i];
      assert e in parent.entries;
      SetAll(SetChildren(d, key + "." + e.0, e.1), key, parent, i + 1)
  }

  /** _flatten from the i-th top-level item on, each set at "-" + its key. */
  function FlattenFrom(d: Entries, nested: Entries, i: nat): Entries
    requires i <= |nested|
    decreases |nested| - i
  {
    if i == |nested| then d
    else FlattenFrom(SetChildren(d, "-" + nested[i].0, nested[i].1), nested, i + 1)
  }

  function Flatten(nested: Entries): Entries
  {
    FlattenFrom([], nested, 0)
  }

  /** __set_children, writing into flattened in place. */
  method SetChildrenInto(flattened: FlatDict, parentKey: string, parentValue: Value)
    modifies flattened
    ensures flattened.entries == SetChildren(old(flattened.entries), parentKey, parentValue)
    decreases parentValue, 1
  {
    if parentValue.Null? {
      flattened.Set(parentKey, parentValue);
      return;
    }
    if parentValue.Dict? {
      ghost var before := flattened.entries;
      var items := parentValue.entries;
      for i := 0 to |items|
        invariant SetAll(before, parentKey, parentValue, 0) == SetAll(flattened.entries, parentKey, parentValue, i)
      {
        var e := items[i];
        assert e in parentValue.entries;
        SetChildrenInto(flattened, parentKey + "." + e.0, e.1);
      }
      return;
    }
    flattened.Set(parentKey, parentValue);
  }

  /** _flatten: a new dict holding every leaf of nested at its path. */
  method FlattenNested(nested: Entries) returns (flattened: FlatDict)
    ensures fresh(flattened)
    ensures flattened.entries == Flatten(nested)
  {
    flattened := new FlatDict();
    for i := 0 to |nested|
      invariant FlattenFrom([], nested, 0) == FlattenFrom(flattened.entries, nested, i)
    {
      SetChildrenInto(flattened, "-" + nested[i].0, nested[i].1);
    }
  }

  // ---------------------------------------------------------------------
  // What flattening gives
  // ---------------------------------------------------------------------

  /** No value is a dict. */
  predicate NoDicts(d: Entries)
  {
    forall i :: 0 <= i < |d| ==> !d[i].1.Dict?
  }

  /** Flattening stores only leaves: no value it sets is a dict. */
  lemma {:induction false} SetChildrenNoDicts(d: Entries, key: string, v: Value)
    requires NoDicts(d)
    ensures NoDicts(SetChildren(d, key, v))
    decreases v, 1
  {
    if v.Dict? {
      SetAllNoDicts(d, key, v, 0);
    } else {
      var r := DictSet(d, key, v);
      if Find(d, key) >= 0 {
        assert r == d[Find(d, key) := (key, v)];
      } else {
        assert r == d + [(key, v)];
      }
      assert forall i :: 0 <= i < |r| ==> r[i] == (key, v) || (i < |d| && r[i] == d[i]);
    }
  }

  lemma {:induction false} SetAllNoDicts(d: Entries, key: string, parent: Value, i: nat)
    requires parent.Dict? && i <= |parent.entries|
    requires NoDicts(d)
    ensures NoDicts(SetAll(d, key, parent, i))
    decreases parent, 0, |parent.entries| - i
  {
    if i < |parent.entries| {
      var e := parent.entries[i];
      assert e in parent.entries;
      SetChildrenNoDicts(d, key + "." + e.0, e.1);
      SetAllNoDicts(SetChildren(d, key + "." + e.0, e.1), key, parent, i + 1);
    }
  }

  /**
   * Keys keep their places, and every key flattening adds extends the key
   * it flattens under.
   */
  predicate AddsUnder(d: Entries, r: Entries, key: string)
  {
    |d| <= |r| &&
    (forall i :: 0 <= i < |d| ==> r[i].0 == d[i].0) &&
    (forall i :: |d| <= i < |r| ==> key <= r[i].0)
  }

  lemma AddsUnderTrans(d: Entries, m: Entries, r: Entries, key: string, inner: string)
    requires AddsUnder(d, m, inner) && AddsUnder(m, r, key) && key <= inner
    ensures AddsUnder(d, r, key)
  {
    forall i | |d| <= i < |m|
      ensures key <= m[i].0
    {
      assert inner <= m[i].0;
      assert m[i].0[..|key|] == inner[..|key|];
    }
  }

  lemma {:induction false} SetChildrenKeys(d: Entries, key: string, v: Value)
    ensures AddsUnder(d, SetChildren(d, key, v), key)
    decreases v, 1
  {
    if v.Dict? {
      SetAllKeys(d, key, v, 0);
    }
  }

  lemma {:induction false} SetAllKeys(d: Entries, key: string, parent: Value, i: nat)
    requires parent.Dict? && i <= |parent.entries|
    ensures AddsUnder(d, SetAll(d, key, parent, i), key)
    decreases parent, 0, |parent.entries| - i
  {
    if i < |parent.entries| {
      var e := parent.entries[i];
      assert e in parent.entries;
      var inner := key + "." + e.0;
      var m := SetChildren(d, inner, e.1);
      SetChildrenKeys(d, inner, e.1);
      assert key <= inner by {
        assert inner[..|key|] == key;
      }
      SetAllKeys(m, key, parent, i + 1);
      AddsUnderTrans(d, m, SetAll(m, key, parent, i + 1), key, inner);
    }
  }

  /** Flattening keeps the keys distinct. */
  lemma {:induction false} SetChildrenDistinct(d: Entries, key: string, v: Value)
    requires DistinctKeys(d)
    ensures DistinctKeys(SetChildren(d, key, v))
    decreases v, 1
  {
    if v.Dict? {
      SetAllDistinct(d, key, v, 0);
    } else {
      DictSetDistinct(d, key, v);
    }
  }

  lemma {:induction false} SetAllDistinct(d: Entries, key: string, parent: Value, i: nat)
    requires parent.Dict? && i <= |parent.entries|
    requires DistinctKeys(d)
    ensures DistinctKeys(SetAll(d, key, parent, i))
    decreases parent, 0, |parent.entries| - i
  {
    if i < |parent.entries| {
      var e := parent.entries[i];
      assert e in parent.entries;
      SetChildrenDistinct(d, key + "." + e.0, e.1);
      SetAllDistinct(SetChildren(d, key + "." + e.0, e.1), key, parent, i + 1);
    }
  }

  /** The properties of a whole flattening: distinct "-" keys, and leaves only. */
  lemma {:induction false} FlattenFromShape(d: Entries, nested: Entries, i: nat)
    requires i <= |nested|
    requires DistinctKeys(d) && NoDicts(d)
    requires forall j :: 0 <= j < |d| ==> |d[j].0| >= 1 && d[j].0[0] == '-'
    ensures var r := FlattenFrom(d, nested, i);
      DistinctKeys(r) && NoDicts(r) && forall j :: 0 <= j < |r| ==> |r[j].0| >= 1 && r[j].0[0] == '-'
    decreases |nested| - i
  {
    if i < |nested| {
      var key := "-" + nested[i].0;
      var m := SetChildren(d, key, nested[i].1);
      SetChildrenDistinct(d, key, nested[i].1);
      SetChildrenNoDicts(d, key, nested[i].1);
      SetChildrenKeys(d, key, nested[i].1);
      forall j | 0 <= j < |m|
        ensures |m[j].0| >= 1 && m[j].0[0] == '-'
      {
        if j >= |d| {
          assert key <= m[j].0;
          assert m[j].0[0] == key[0];
        }
      }
      FlattenFromShape(m, nested, i + 1);
    }
  }

  /** _flatten gives distinct keys, each starting with "-", and no dict among its values. */
  lemma FlattenShape(nested: Entries)
    ensures DistinctKeys(Flatten(nested)) && NoDicts(Flatten(nested))
    ensures forall j :: 0 <= j < |Flatten(nested)| ==> |Flatten(nested)[j].0| >= 1 && Flatten(nested)[j].0[0] == '-'
  {
    FlattenFromShape([], nested, 0);
  }

  /** A None or any other leaf is stored as it is at its key, every other key unchanged. */
  lemma LeafStored(d: Entries, key: string, v: Value)
    requires !v.Dict?
    ensures Get(SetChildren(d, key, v), key) == Some(v)
    ensures forall k :: k != key ==> Get(SetChildren(d, key, v), k) == Get(d, k)
  {
    DictSetGet(d, key, v);
  }

  /** A dict with no items sets nothing: an empty section disappears from the flattening. */
  lemma EmptyDictVanishes(d: Entries, key: string)
    ensures SetChildren(d, key, Dict([])) == d
  {
  }

  // ---------------------------------------------------------------------
  // The leaves of a nested value, as a reference definition
  // ---------------------------------------------------------------------

  /** The leaves of v with their dotted paths under key, in insertion order. */
  function Leaves(key: string, v: Value): Entries
    decreases v, 1
  {
    if v.Dict? then LeavesFrom(key, v, 0) else [(key, v)]
  }

  function LeavesFrom(key: string, parent: Value, i: nat): Entries
    requires parent.Dict? && i <= |parent.entries|
    decreases parent, 0, |parent.entries| - i
  {
    if i == |parent.entries| then []
    else
      var e := parent.entries[i];
      assert e in parent.entries;
      Leaves(key + "." + e.0, e.1) + LeavesFrom(key, parent, i + 1)
  }

  /** The leaves of the top-level items from the i-th on. */
  function AllLeaves(nested: Entries, i: nat): Entries
    requires i <= |nested|
    decreases |nested| - i
  {
    if i == |nested| then [] else Leaves("-" + nested[i].0, nested[i].1) + AllLeaves(nested, i + 1)
  }

  lemma DistinctPrefix(a: Entries, b: Entries)
    requires DistinctKeys(a + b)
    ensures DistinctKeys(a)
  {
    assert forall i :: 0 <= i < |a| ==> (a + b)[i] == a[i];
  }

  /**
   * When no two leaves share a path and none is a key already there,
   * __set_children appends the leaves of v in order.
   */
  lemma {:induction false} SetChildrenLeaves(d: Entries, key: string, v: Value)
    requires DistinctKeys(d + Leaves(key, v))
    ensures SetChildren(d, key, v) == d + Leaves(key, v)
    decreases v, 1
  {
    if v.Dict? {
      SetAllLeaves(d, key, v, 0);
    } else {
      assert (d + [(key, v)])[|d|].0 == key;
      assert forall j :: 0 <= j < |d| ==> (d + [(key, v)])[j] == d[j];
      assert Find(d, key) < 0;
    }
  }

  lemma {:induction false} SetAllLeaves(d: Entries, key: string, parent: Value, i: nat)
    requires parent.Dict? && i <= |parent.entries|
    requires DistinctKeys(d + LeavesFrom(key, parent, i))
    ensures SetAll(d, key, parent, i) == d + LeavesFrom(key, parent, i)
    decreases parent, 0, |parent.entries| - i
  {
    if i < |parent.entries| {
      var e := parent.entries[i];
      assert e in parent.entries;
      var inner := key + "." + e.0;
      var here := Leaves(inner, e.1);
      var rest := LeavesFrom(key, parent, i + 1);
      assert d + LeavesFrom(key, parent, i) == (d + here) + rest;
      DistinctPrefix(d + here, rest);
      SetChildrenLeaves(d, inner, e.1);
      SetAllLeaves(d + here, key, parent, i + 1);
    }
  }

  lemma {:induction false} FlattenFromLeaves(d: Entries, nested: Entries, i: nat)
    requires i <= |nested|
    requires DistinctKeys(d + AllLeaves(nested, i))
    ensures FlattenFrom(d, nested, i) == d + AllLeaves(nested, i)
    decreases |nested| - i
  {
    if i < |nested| {
      var here := Leaves("-" + nested[i].0, nested[i].1);
      var rest := AllLeaves(nested, i + 1);
      assert d + AllLeaves(nested, i) == (d + here) + rest;
      DistinctPrefix(d + here, rest);
      SetChildrenLeaves(d, "-" + nested[i].0, nested[i].1);
      FlattenFromLeaves(d + here, nested, i + 1);
    }
  }

  /** When the paths of the leaves are distinct, _flatten lists every leaf at its path, in order. */
  lemma FlattenLeaves(nested: Entries)
    requires DistinctKeys(AllLeaves(nested, 0))
    ensures Flatten(nested) == AllLeaves(nested, 0)
  {
    assert [] + AllLeaves(nested, 0) == AllLeaves(nested, 0);
    FlattenFromLeaves([], nested, 0);
  }

  // ---------------------------------------------------------------------
  // Options.to_args (nextroute/options.py:72-96)
  // ---------------------------------------------------------------------

  /** The key token: the flattened key with every "_" removed. */
  function KeyToken(key: string): string
  {
    Strings.RemoveChar(key, '_')
  }

  /** The value token: json.dumps, with an "s" after a duration. */
  function ValueToken(keyToken: string, v: Value): string
  {
    Dumps(v) + (if keyToken in DurationArgs then "s" else "")
  }

  /** The two tokens of one flattened item. */
  function Tokens(e: (string, Value)): seq<string>
  {
    var k := KeyToken(e.0);
    [k, ValueToken(k, e.1)]
  }

  /** The tokens of the flattened items, two per item. */
  function Args(flat: Entries): seq<string>
  {
    if flat == [] then [] else Args(flat[..|flat| - 1]) + Tokens(flat[|flat| - 1])
  }

  /** The tokens of two runs of items are those of the first, then those of the second. */
  lemma {:induction false} ArgsConcat(a: Entries, b: Entries)
    ensures Args(a + b) == Args(a) + Args(b)
  {
    if b == [] {
      assert a + b == a;
    } else {
      var n := |b| - 1;
      assert (a + b)[..|a + b| - 1] == a + b[..n];
      assert (a + b)[|a + b| - 1] == b[n];
      ArgsConcat(a, b[..n]);
      assert Args(a + b) == Args(a + b[..n]) + Tokens(b[n]);
      assert Args(b) == Args(b[..n]) + Tokens(b[n]);
    }
  }

  /** Options.to_args on the dict of the options. */
  method ToArgs(optDict: Entries) returns (args: seq<string>)
    ensures args == Args(Flatten(optDict))
  {
    var flattened := FlattenNested(optDict);
    var items := flattened.entries;
    args := [];
    for i := 0 to |items|
      invariant args == Args(items[..i])
    {
      var key := KeyToken(items[i].0);
      var strValue := Dumps(items[i].1);
      if key in DurationArgs {
        strValue := strValue + "s";
      }
      assert strValue == ValueToken(key, items[i].1);
      args := args + [key, strValue];
      assert items[..i + 1][..i] == items[..i];
    }
    assert items[..|items|] == items;
  }

  /**
   * Every item gives exactly two tokens, booleans and None included: its
   * key without "_", then its JSON text, an "s" after it for a duration.
   */
  lemma {:induction false} ArgsShape(flat: Entries)
    ensures |Args(flat)| == 2 * |flat|
    ensures forall i :: 0 <= i < |flat| ==>
      Args(flat)[2 * i] == KeyToken(flat[i].0) &&
      Args(flat)[2 * i + 1] == ValueToken(KeyToken(flat[i].0), flat[i].1)
  {
    if flat != [] {
      var n := |flat| - 1;
      ArgsShape(flat[..n]);
      forall i | 0 <= i < n
        ensures Args(flat)[2 * i] == KeyToken(flat[i].0)
        ensures Args(flat)[2 * i + 1] == ValueToken(KeyToken(flat[i].0), flat[i].1)
      {
        assert flat[..n][i] == flat[i];
      }
    }
  }

  /** No key token holds "_", and a duration's value token ends in "s". */
  lemma TokenForms(key: string, v: Value)
    ensures '_' !in KeyToken(key)
    ensures KeyToken(key) in DurationArgs ==> ValueToken(KeyToken(key), v)[|ValueToken(KeyToken(key), v)| - 1] == 's'
    ensures KeyToken(key) !in DurationArgs ==> ValueToken(KeyToken(key), v) == Dumps(v)
  {
  }

  // ---------------------------------------------------------------------
  // Scenarios (tests/nextroute_python/test_options.py:70-96)
  // ---------------------------------------------------------------------

  /** The nested dict of the flattening test. */
  function ScenarioNested(): Entries
  {
    [("foo", Dict([("bar", Bool(false)), ("baz", Int(1)), ("roh", Str("doh"))])),
     ("bar", Dict([("baz", Dict([("bah", Str("roh"))]))])),
     ("baz", Bool(false)),
     ("bah", Int(1))]
  }

  /** The six paths of the test's leaves. */
  function ScenarioLeaves(): Entries
  {
    [("-foo.bar", Bool(false)), ("-foo.baz", Int(1)), ("-foo.roh", Str("doh")),
     ("-bar.baz.bah", Str("roh")), ("-baz", Bool(false)), ("-bah", Int(1))]
  }

  lemma ScenarioLeavesDistinct()
    ensures DistinctKeys(ScenarioLeaves())
  {
    var l := ScenarioLeaves();
    forall i, j | 0 <= i < j < |l|
      ensures l[i].0 != l[j].0
    {
      if |l[i].0| == |l[j].0| {
        if |l[i].0| == 4 {
          assert l[i].0[3] != l[j].0[3];
        } else {
          assert l[i].0[5] != l[j].0[5] || l[i].0[7] != l[j].0[7];
        }
      }
    }
  }

  lemma ScenarioAllLeaves()
    ensures AllLeaves(ScenarioNested(), 0) == ScenarioLeaves()
  {
    var n := ScenarioNested();
    assert "-" + "bah" == "-bah" && "-" + "baz" == "-baz" && "-" + "bar" == "-bar" && "-" + "foo" == "-foo";
    assert AllLeaves(n, 4) == [];
    assert AllLeaves(n, 3) == Leaves("-bah", Int(1)) + AllLeaves(n, 4);
    assert AllLeaves(n, 2) == Leaves("-baz", Bool(false)) + AllLeaves(n, 3);
    var bah := n[1].1.entries[0].1;
    assert "-bar.baz" + "." + "bah" == "-bar.baz.bah";
    assert LeavesFrom("-bar.baz", bah, 1) == [];
    assert LeavesFrom("-bar.baz", bah, 0) == Leaves("-bar.baz.bah", Str("roh")) + [];
    assert Leaves("-bar.baz", bah) == [("-bar.baz.bah", Str("roh"))];
    assert "-bar" + "." + "baz" == "-bar.baz";
    assert LeavesFrom("-bar", n[1].1, 1) == [];
    assert LeavesFrom("-bar", n[1].1, 0) == Leaves("-bar.baz", bah) + [];
    assert AllLeaves(n, 1) == Leaves("-bar", n[1].1) + AllLeaves(n, 2);
    var foo := n[0].1;
    assert "-foo" + "." + "bar" == "-foo.bar" && "-foo" + "." + "baz" == "-foo.baz" && "-foo" + "." + "roh" == "-foo.roh";
    assert LeavesFrom("-foo", foo, 3) == [];
    assert LeavesFrom("-foo", foo, 2) == Leaves("-foo.roh", Str("doh")) + [];
    assert LeavesFrom("-foo", foo, 1) == Leaves("-foo.baz", Int(1)) + LeavesFrom("-foo", foo, 2);
    assert LeavesFrom("-foo", foo, 0) == Leaves("-foo.bar", Bool(false)) + LeavesFrom("-foo", foo, 1);
    assert AllLeaves(n, 0) == Leaves("-foo", foo) + AllLeaves(n, 1);
  }

  /** Its flattening: six "-" keys, the nested ones dotted, in insertion order. */
  lemma ScenarioFlatten()
    ensures Flatten(ScenarioNested()) == ScenarioLeaves()
  {
    ScenarioAllLeaves();
    ScenarioLeavesDistinct();
    FlattenLeaves(ScenarioNested());
  }

  // ---------------------------------------------------------------------
  // Scenario (tests/nextroute_python/test_options.py:98-185, in part)
  // ---------------------------------------------------------------------

  /** Five of the forty defaults of Options(): the check section and three solve fields. */
  function ScenarioOptDict(): Entries
  {
    [("check", Dict([("duration", Float(30, 0)), ("verbosity", Str("off"))])),
     ("solve", Dict([("iterations", Int(-1)), ("duration", Float(5, 0)), ("parallel_runs", Int(-1))]))]
  }

  function ScenarioFlat(): Entries
  {
    [("-check.duration", Float(30, 0)), ("-check.verbosity", Str("off")),
     ("-solve.iterations", Int(-1)), ("-solve.duration", Float(5, 0)), ("-solve.parallel_runs", Int(-1))]
  }

  lemma CheckLeaves()
    ensures Leaves("-check", ScenarioOptDict()[0].1) == ScenarioFlat()[..2]
  {
    var check := ScenarioOptDict()[0].1;
    assert "-check" + "." + "duration" == "-check.duration" && "-check" + "." + "verbosity" == "-check.verbosity";
    assert LeavesFrom("-check", check, 2) == [];
    assert LeavesFrom("-check", check, 1) == Leaves("-check.verbosity", Str("off")) + [];
    assert LeavesFrom("-check", check, 0) == Leaves("-check.duration", Float(30, 0)) + LeavesFrom("-check", check, 1);
  }

  lemma SolveLeaves()
    ensures Leaves("-solve", ScenarioOptDict()[1].1) == ScenarioFlat()[2..]
  {
    var solve := ScenarioOptDict()[1].1;
    assert "-solve" + "." + "iterations" == "-solve.iterations" && "-solve" + "." + "duration" == "-solve.duration";
    assert "-solve" + "." + "parallel_runs" == "-solve.parallel_runs";
    assert LeavesFrom("-solve", solve, 3) == [];
    assert LeavesFrom("-solve", solve, 2) == Leaves("-solve.parallel_runs", Int(-1)) + [];
    assert LeavesFrom("-solve", solve, 1) == Leaves("-solve.duration", Float(5, 0)) + LeavesFrom("-solve", solve, 2);
    assert LeavesFrom("-solve", solve, 0) == Leaves("-solve.iterations", Int(-1)) + LeavesFrom("-solve", solve, 1);
  }

  lemma ScenarioOptAllLeaves()
    ensures AllLeaves(ScenarioOptDict(), 0) == ScenarioFlat()
  {
    var n := ScenarioOptDict();
    assert "-" + "check" == "-check" && "-" + "solve" == "-solve";
    CheckLeaves();
    SolveLeaves();
    assert AllLeaves(n, 2) == [];
    assert AllLeaves(n, 1) == Leaves("-solve", n[1].1) + [];
    assert AllLeaves(n, 0) == Leaves("-check", n[0].1) + AllLeaves(n, 1);
    assert ScenarioFlat() == ScenarioFlat()[..2] + ScenarioFlat()[2..];
  }

  lemma ScenarioFlatDistinct()
    ensures DistinctKeys(ScenarioFlat())
  {
    var l := ScenarioFlat();
    forall i, j | 0 <= i < j < |l|
      ensures l[i].0 != l[j].0
    {
      assert l[i].0[2] != l[j].0[2] || l[i].0[8] != l[j].0[8] || l[i].0[9] != l[j].0[9];
    }
  }

  lemma ScenarioOptLeaves()
    ensures Flatten(ScenarioOptDict()) == ScenarioFlat()
  {
    ScenarioOptAllLeaves();
    ScenarioFlatDistinct();
    FlattenLeaves(ScenarioOptDict());
  }

  /** A key without "_" is its own key token. */
  lemma PlainKeyTokens(key: string, v: Value)
    requires '_' !in key
    ensures Tokens((key, v)) == [key, ValueToken(key, v)]
  {
  }

  /** A whole number of seconds in a duration field is written as a float with "s". */
  lemma DurationTokens(key: string, whole: nat, text: string)
    requires key == "-check.duration" || key == "-solve.duration"
    requires text == IntText(whole) + ".0" + "s"
    ensures Tokens((key, Float(whole, 0))) == [key, text]
  {
    assert '_' !in key;
    FloatTextWhole(whole);
  }

  /** The pieces of "-solve.parallel_runs" and of its key token. */
  lemma ParallelRunsPieces()
    ensures "-solve.parallel" + "_" + "runs" == "-solve.parallel_runs"
    ensures "-solve.parallel" + "runs" == "-solve.parallelruns"
    ensures '_' !in "-solve.parallel" && '_' !in "runs"
  {
  }

  /** "-solve.parallel_runs" loses its "_". */
  lemma ParallelRunsToken(key: string)
    requires key == "-solve.parallel_runs"
    ensures KeyToken(key) == "-solve.parallelruns"
  {
    ParallelRunsPieces();
    RemoveCharSplit("-solve.parallel", "runs", '_');
  }

  lemma {:induction false} RemoveCharSplit(a: string, b: string, c: char)
    requires c !in a && c !in b
    ensures Strings.RemoveChar(a + [c] + b, c) == a + b
  {
    if a == [] {
      assert [c] + b == a + [c] + b;
      assert ([c] + b)[1..] == b;
    } else {
      assert (a + [c] + b)[1..] == a[1..] + [c] + b;
      RemoveCharSplit(a[1..], b, c);
      assert [a[0]] + (a[1..] + b) == a + b;
    }
  }

  /** Five items give their tokens one after another. */
  lemma ArgsFive(l: Entries)
    requires |l| == 5
    ensures Args(l) == Tokens(l[0]) + Tokens(l[1]) + Tokens(l[2]) + Tokens(l[3]) + Tokens(l[4])
  {
    assert l == [l[0]] + [l[1]] + [l[2]] + [l[3]] + [l[4]];
    ArgsConcat([l[0]] + [l[1]] + [l[2]] + [l[3]], [l[4]]);
    ArgsConcat([l[0]] + [l[1]] + [l[2]], [l[3]]);
    ArgsConcat([l[0]] + [l[1]], [l[2]]);
    ArgsConcat([l[0]], [l[1]]);
    assert forall e :: Args([e]) == Tokens(e);
  }

  /** The value texts of the two durations. */
  lemma DurationTexts()
    ensures IntText(30) + ".0" + "s" == "30.0s" && IntText(5) + ".0" + "s" == "5.0s"
  {
  }

  /** A string's value token keeps its quotes; an int's is its digits. */
  lemma PlainTexts()
    ensures ValueToken("-check.verbosity", Str("off")) == "\"off\""
    ensures ValueToken("-solve.iterations", Int(-1)) == "-1"
    ensures ValueToken("-solve.parallelruns", Int(-1)) == "-1"
    ensures '_' !in "-check.verbosity" && '_' !in "-solve.iterations"
  {
  }

  /** The tokens of the flattened fields. */
  lemma {:induction false} ScenarioFlatArgs(l: Entries)
    requires l == ScenarioFlat()
    ensures Args(l) ==
      ["-check.duration", "30.0s"] + ["-check.verbosity", "\"off\""] + ["-solve.iterations", "-1"] +
      ["-solve.duration", "5.0s"] + ["-solve.parallelruns", "-1"]
  {
    ArgsFive(l);
    DurationTexts();
    PlainTexts();
    DurationTokens(l[0].0, 30, "30.0s");
    PlainKeyTokens(l[1].0, l[1].1);
    PlainKeyTokens(l[2].0, l[2].1);
    DurationTokens(l[3].0, 5, "5.0s");
    ParallelRunsToken(l[4].0);
  }

  /**
   * Every flattened field gives its key and its JSON value: a duration
   * with "s", a string with its quotes, and "parallel_runs" without its "_".
   */
  lemma ScenarioToArgs()
    ensures Args(Flatten(ScenarioOptDict())) ==
      ["-check.duration", "30.0s"] + ["-check.verbosity", "\"off\""] + ["-solve.iterations", "-1"] +
      ["-solve.duration", "5.0s"] + ["-solve.parallelruns", "-1"]
  {
    ScenarioOptLeaves();
    ScenarioFlatArgs(Flatten(ScenarioOptDict()));
  }
}
