// Cycles in a directed graph given by its list of edges: the question the
// depth-first search of model_directed_acyclic_graph.go:304-335 answers.
module Reachability {
  type Edge = (int, int)

  /** A walk along edges of the list (a single vertex is a walk of no edge). */
  ghost predicate Path(edges: seq<Edge>, p: seq<int>)
  {
    |p| >= 1 && forall i :: 0 <= i < |p| - 1 ==> (p[i], p[i + 1]) in edges
  }

  /** Some walk of at least one edge comes back to where it started. */
  ghost predicate HasCycle(edges: seq<Edge>)
  {
    exists p :: Path(edges, p) && |p| >= 2 && p[0] == p[|p| - 1]
  }

  /** The vertices one edge away from the set. */
  function Succ(edges: seq<Edge>, s: set<int>): set<int>
  {
    set e | e in edges && e.0 in s :: e.1
  }

  function Targets(edges: seq<Edge>): set<int>
  {
    set e | e in edges :: e.1
  }

  function Step(edges: seq<Edge>, s: set<int>): set<int>
  {
    s + Succ(edges, s)
  }

  /** The vertices at most n edges away from the set. */
  function Reach(edges: seq<Edge>, s: set<int>, n: nat): set<int>
    decreases n
  {
    if n == 0 then s else Reach(edges, Step(edges, s), n - 1)
  }

  /**
   * The graph has a cycle when the origin of some edge can be reached back
   * from that edge's destination (isCyclic, model_directed_acyclic_graph.go:304-318).
   */
  function Cyclic(edges: seq<Edge>): bool
  {
    CyclicFrom(edges, 0)
  }

  /** Some edge from the k-th on closes a cycle. */
  function CyclicFrom(edges: seq<Edge>, k: nat): bool
    decreases |edges| - k
  {
    k < |edges| && (edges[k].0 in Reach(edges, {edges[k].1}, |edges|) || CyclicFrom(edges, k + 1))
  }

  lemma {:induction false} CyclicFromMeaning(edges: seq<Edge>, k: nat)
    ensures CyclicFrom(edges, k) <==> exists j :: k <= j < |edges| && edges[j].0 in Reach(edges, {edges[j].1}, |edges|)
    decreases |edges| - k
  {
    if k < |edges| {
      CyclicFromMeaning(edges, k + 1);
    }
  }

  lemma CyclicMeaning(edges: seq<Edge>)
    ensures Cyclic(edges) <==> exists e :: e in edges && e.0 in Reach(edges, {e.1}, |edges|)
  {
    CyclicFromMeaning(edges, 0);
    if exists e :: e in edges && e.0 in Reach(edges, {e.1}, |edges|) {
      var e :| e in edges && e.0 in Reach(edges, {e.1}, |edges|);
      var j :| 0 <= j < |edges| && edges[j] == e;
    }
  }

  lemma {:induction false} ReachPath(edges: seq<Edge>, s: set<int>, n: nat, v: int)
    requires v in Reach(edges, s, n)
    ensures exists p :: Path(edges, p) && p[0] in s && p[|p| - 1] == v
    decreases n
  {
    if n == 0 {
      assert Path(edges, [v]);
    } else {
      ReachPath(edges, Step(edges, s), n - 1, v);
      var p :| Path(edges, p) && p[0] in Step(edges, s) && p[|p| - 1] == v;
      if p[0] !in s {
        var e :| e in edges && e.0 in s && e.1 == p[0];
        var q := [e.0] + p;
        assert forall i :: 1 <= i < |q| - 1 ==> (q[i], q[i + 1]) == (p[i - 1], p[i]);
        assert Path(edges, q);
      }
    }
  }

  lemma {:induction false} FixpointStays(edges: seq<Edge>, s: set<int>, n: nat)
    requires Step(edges, s) == s
    ensures Reach(edges, s, n) == s
    decreases n
  {
    if n > 0 {
      FixpointStays(edges, s, n - 1);
    }
  }

  lemma {:induction false} ReachContains(edges: seq<Edge>, s: set<int>, n: nat)
    ensures s <= Reach(edges, s, n)
    decreases n
  {
    if n > 0 {
      ReachContains(edges, Step(edges, s), n - 1);
    }
  }

  lemma {:induction false} ReachWithin(edges: seq<Edge>, s: set<int>, n: nat)
    ensures Reach(edges, s, n) <= s + Targets(edges)
    decreases n
  {
    if n > 0 {
      ReachWithin(edges, Step(edges, s), n - 1);
      assert Succ(edges, s) <= Targets(edges);
    }
  }

  lemma ProperSubsetSmaller(a: set<int>, b: set<int>)
    requires a <= b && a != b
    ensures |a| < |b|
  {
    var d := b - a;
    assert b == a + d;
    assert a * d == {};
    assert d != {};
    assert |b| == |a| + |d|;
  }

  lemma SubsetNotSmallerEqual(a: set<int>, b: set<int>)
    requires a <= b && |a| >= |b|
    ensures a == b
  {
    if a != b {
      ProperSubsetSmaller(a, b);
    }
  }

  /** Each round either adds a vertex or has reached a set closed under edges. */
  lemma {:induction false} ClosedOrLarge(edges: seq<Edge>, s: set<int>, n: nat)
    ensures Succ(edges, Reach(edges, s, n)) <= Reach(edges, s, n) || |Reach(edges, s, n)| >= |s| + n
    decreases n
  {
    if n > 0 {
      if Step(edges, s) == s {
        FixpointStays(edges, s, n);
      } else {
        ProperSubsetSmaller(s, Step(edges, s));
        ClosedOrLarge(edges, Step(edges, s), n - 1);
      }
    }
  }

  lemma {:induction false} TargetsSize(edges: seq<Edge>)
    ensures |Targets(edges)| <= |edges|
    decreases |edges|
  {
    if |edges| > 0 {
      var rest := edges[1..];
      TargetsSize(rest);
      assert Targets(edges) == Targets(rest) + {edges[0].1} by {
        forall x | x in Targets(edges) ensures x in Targets(rest) + {edges[0].1} {
          var e :| e in edges && e.1 == x;
          if e != edges[0] {
            assert e in rest;
          }
        }
      }
    }
  }

  /** As many rounds as there are edges reach a set closed under edges. */
  lemma Closed(edges: seq<Edge>, s: set<int>)
    ensures Succ(edges, Reach(edges, s, |edges|)) <= Reach(edges, s, |edges|)
  {
    var r := Reach(edges, s, |edges|);
    ClosedOrLarge(edges, s, |edges|);
    if |r| >= |s| + |edges| {
      ReachWithin(edges, s, |edges|);
      TargetsSize(edges);
      assert |s + Targets(edges)| <= |s| + |Targets(edges)|;
      SubsetNotSmallerEqual(r, s + Targets(edges));
      assert Succ(edges, r) <= Targets(edges);
    }
  }

  lemma {:induction false} PathStays(edges: seq<Edge>, r: set<int>, p: seq<int>)
    requires Path(edges, p) && p[0] in r && Succ(edges, r) <= r
    ensures p[|p| - 1] in r
    decreases |p|
  {
    if |p| > 1 {
      var q := p[..|p| - 1];
      assert Path(edges, q);
      PathStays(edges, r, q);
      assert (p[|p| - 2], p[|p| - 1]) in edges;
      assert p[|p| - 1] in Succ(edges, r);
    }
  }

  /** The computed answer is the existence of a cycle, both ways. */
  lemma CyclicIff(edges: seq<Edge>)
    ensures Cyclic(edges) <==> HasCycle(edges)
  {
    CyclicMeaning(edges);
    if Cyclic(edges) {
      var e :| e in edges && e.0 in Reach(edges, {e.1}, |edges|);
      ReachPath(edges, {e.1}, |edges|, e.0);
      var p :| Path(edges, p) && p[0] in {e.1} && p[|p| - 1] == e.0;
      var q := [e.0] + p;
      assert forall i :: 1 <= i < |q| - 1 ==> (q[i], q[i + 1]) == (p[i - 1], p[i]);
      assert Path(edges, q);
    }
    if HasCycle(edges) {
      var p :| Path(edges, p) && |p| >= 2 && p[0] == p[|p| - 1];
      var e := (p[0], p[1]);
      var r := Reach(edges, {e.1}, |edges|);
      Closed(edges, {e.1});
      ReachContains(edges, {e.1}, |edges|);
      var q := p[1..];
      assert forall i :: 0 <= i < |q| - 1 ==> (q[i], q[i + 1]) == (p[i + 1], p[i + 2]);
      assert Path(edges, q);
      PathStays(edges, r, q);
      assert e in edges && e.0 in r;
    }
  }

  /** More edges keep every cycle. */
  lemma HasCycleGrows(small: seq<Edge>, large: seq<Edge>)
    requires forall e :: e in small ==> e in large
    ensures HasCycle(small) ==> HasCycle(large)
  {
    if HasCycle(small) {
      var p :| Path(small, p) && |p| >= 2 && p[0] == p[|p| - 1];
      assert Path(large, p);
    }
  }

  /** Cycles depend on the set of edges only, not on order or repetition. */
  lemma HasCycleSameEdges(a: seq<Edge>, b: seq<Edge>)
    requires forall e :: e in a <==> e in b
    ensures HasCycle(a) == HasCycle(b)
  {
    HasCycleGrows(a, b);
    HasCycleGrows(b, a);
  }

  /** The computed answer, too, only grows with the edges. */
  lemma CyclicGrows(small: seq<Edge>, large: seq<Edge>)
    requires forall e :: e in small ==> e in large
    ensures Cyclic(small) ==> Cyclic(large)
  {
    CyclicIff(small);
    CyclicIff(large);
    HasCycleGrows(small, large);
  }

  /** A graph with one edge back and forth between two vertices has a cycle. */
  lemma TwoCycle(edges: seq<Edge>, u: int, v: int)
    requires (u, v) in edges && (v, u) in edges
    ensures HasCycle(edges)
  {
    assert Path(edges, [u, v, u]);
  }
}
