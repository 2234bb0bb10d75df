// The first element of every key, in order: the helper the plan units and
// the interleave constraint use to drop or detect duplicates
// (UniqueDefined of github.com/nextmv-io/nextroute/common; its source file
// is not part of this model, so keeping the first element of each key is
// assumed here).
module Unique {

  /** No two elements share a key. */
  predicate DistinctKeys<T>(s: seq<T>, key: T -> int)
  {
    forall i, j :: 0 <= i < j < |s| ==> key(s[i]) != key(s[j])
  }

  /** The keys of the elements. */
  function Keys<T>(s: seq<T>, key: T -> int): set<int>
    decreases |s|
  {
    if s == [] then {} else Keys(s[..|s| - 1], key) + {key(s[|s| - 1])}
  }

  lemma {:induction false} KeysMeaning<T>(s: seq<T>, key: T -> int, k: int)
    ensures k in Keys(s, key) <==> exists i :: 0 <= i < |s| && key(s[i]) == k
    decreases |s|
  {
    if s != [] {
      var init := s[..|s| - 1];
      KeysMeaning(init, key, k);
      if k in Keys(init, key) {
        var i :| 0 <= i < |init| && key(init[i]) == k;
        assert s[i] == init[i];
      }
      if exists i :: 0 <= i < |s| && key(s[i]) == k {
        var i :| 0 <= i < |s| && key(s[i]) == k;
        if i < |init| {
          assert s[i] == init[i];
        }
      }
    }
  }

  /** Each element whose key no earlier element has, in order. */
  function UniqueDefined<T>(s: seq<T>, key: T -> int): (r: seq<T>)
    ensures |r| <= |s|
    ensures forall x :: x in r ==> x in s
    decreases |s|
  {
    if s == [] then []
    else
      var u := UniqueDefined(s[..|s| - 1], key);
      var last := s[|s| - 1];
      if key(last) in Keys(u, key) then u else u + [last]
  }

  /** The result has every key of the input, each once. */
  lemma {:induction false} UniqueKeys<T>(s: seq<T>, key: T -> int)
    ensures var r := UniqueDefined(s, key); DistinctKeys(r, key) && Keys(r, key) == Keys(s, key)
    decreases |s|
  {
    if s != [] {
      var init := s[..|s| - 1];
      var last := s[|s| - 1];
      UniqueKeys(init, key);
      var u := UniqueDefined(init, key);
      if key(last) !in Keys(u, key) {
        var r := u + [last];
        assert r[..|r| - 1] == u;
        forall i, j | 0 <= i < j < |r| ensures key(r[i]) != key(r[j]) {
          if j == |u| {
            KeysMeaning(u, key, key(r[i]));
            assert r[i] == u[i];
          } else {
            assert r[i] == u[i] && r[j] == u[j];
          }
        }
      }
    }
  }

  /** Input with distinct keys comes back unchanged. */
  lemma {:induction false} UniqueOfDistinct<T>(s: seq<T>, key: T -> int)
    requires DistinctKeys(s, key)
    ensures UniqueDefined(s, key) == s
    decreases |s|
  {
    if s != [] {
      var init := s[..|s| - 1];
      var last := s[|s| - 1];
      assert DistinctKeys(init, key) by {
        forall i, j | 0 <= i < j < |init| ensures key(init[i]) != key(init[j]) {
          assert init[i] == s[i] && init[j] == s[j];
        }
      }
      UniqueOfDistinct(init, key);
      KeysMeaning(init, key, key(last));
      forall i | 0 <= i < |init| ensures key(init[i]) != key(last) {
        assert init[i] == s[i];
      }
      assert init + [last] == s;
    }
  }

  /** A repeated key makes the result shorter. */
  lemma {:induction false} DroppedWhenRepeated<T>(s: seq<T>, key: T -> int, i: nat, j: nat)
    requires i < j < |s| && key(s[i]) == key(s[j])
    ensures |UniqueDefined(s, key)| < |s|
    decreases |s|
  {
    var init := s[..|s| - 1];
    if j < |s| - 1 {
      assert init[i] == s[i] && init[j] == s[j];
      DroppedWhenRepeated(init, key, i, j);
    } else {
      UniqueKeys(init, key);
      KeysMeaning(init, key, key(s[j]));
      assert init[i] == s[i];
    }
  }

  /** The keys are distinct exactly when nothing is dropped. */
  lemma UniqueSameLength<T>(s: seq<T>, key: T -> int)
    ensures |UniqueDefined(s, key)| == |s| <==> DistinctKeys(s, key)
  {
    if DistinctKeys(s, key) {
      UniqueOfDistinct(s, key);
    } else {
      var i, j :| 0 <= i < j < |s| && key(s[i]) == key(s[j]);
      DroppedWhenRepeated(s, key, i, j);
    }
  }
}
