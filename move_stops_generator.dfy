// The ascending-combination generator behind the stop-placement moves
// (solution_move_stops_generator.go, combineAscending).
module MoveStopsGenerator {

  /** The smallest location the next element may take: the current last one, or 1. */
  function Lo(c: seq<int>): int
  {
    if c == [] then 1 else c[|c| - 1]
  }

  /** Loop start of combineAscending: the last element minus one, or 0. */
  function Start(c: seq<int>): int
  {
    if c == [] then 0 else c[|c| - 1] - 1
  }

  /**
   * Every combination combineAscending yields from the partial combination c,
   * in yield order when it is never stopped.
   */
  function Full(c: seq<int>, n: nat, m: int): seq<seq<int>>
    requires |c| <= n
    decreases n - |c|, 1, 0
  {
    if |c| == n then [c] else ChildrenRange(c, n, m, Start(c), m)
  }

  /** The yields of the loop iterations i = s .. e-1, each extending c with i+1. */
  function ChildrenRange(c: seq<int>, n: nat, m: int, s: int, e: int): seq<seq<int>>
    requires |c| < n
    decreases n - |c|, 0, e - s
  {
    if e <= s then [] else ChildrenRange(c, n, m, s, e - 1) + Full(c + [e], n, m)
  }

  /** r is c followed by an ascending run of locations from Lo(c) up to m, of total length n. */
  predicate AscendingExtension(r: seq<int>, c: seq<int>, n: nat, m: int)
  {
    |r| == n && |c| <= n && r[..|c|] == c &&
    (forall k :: |c| <= k < n ==> Lo(c) <= r[k] <= m) &&
    (forall k :: |c| < k < n ==> r[k - 1] <= r[k])
  }

  /** The first k at which the callback asks to stop, or |f| when it never does before the end. */
  function Cut(yielded: seq<seq<int>>, f: seq<seq<int>>, stop: seq<seq<int>> -> bool, k: nat): (r: nat)
    requires k <= |f|
    ensures k <= r <= |f|
    ensures r < |f| ==> stop(yielded + f[..r])
    decreases |f| - k
  {
    if k == |f| || stop(yielded + f[..k]) then k else Cut(yielded, f, stop, k + 1)
  }

  /**
   * Yields f one by one after `yielded`, asking `stop` before each: the
   * result of stopping at the first k for which stop(yielded + f[..k]) holds.
   */
  function Emit(yielded: seq<seq<int>>, f: seq<seq<int>>, stop: seq<seq<int>> -> bool): seq<seq<int>>
  {
    yielded + f[..Cut(yielded, f, stop, 0)]
  }

  lemma {:induction false} CutBefore(yielded: seq<seq<int>>, f: seq<seq<int>>, stop: seq<seq<int>> -> bool, k: nat, j: nat)
    requires k <= |f| && k <= j < Cut(yielded, f, stop, k)
    ensures !stop(yielded + f[..j])
    decreases |f| - k
  {
    if j > k {
      CutBefore(yielded, f, stop, k + 1, j);
    }
  }

  lemma {:induction false} CutIsFirst(yielded: seq<seq<int>>, f: seq<seq<int>>, stop: seq<seq<int>> -> bool, k: nat, j: nat)
    requires k <= j <= |f|
    requires forall i :: k <= i < j ==> !stop(yielded + f[..i])
    requires j == |f| || stop(yielded + f[..j])
    ensures Cut(yielded, f, stop, k) == j
    decreases j - k
  {
    if k < j {
      CutIsFirst(yielded, f, stop, k + 1, j);
    }
  }

  /** Emitting f then g is emitting f + g: a stop inside f suppresses all of g. */
  lemma EmitConcat(yielded: seq<seq<int>>, f: seq<seq<int>>, g: seq<seq<int>>, stop: seq<seq<int>> -> bool)
    ensures Emit(Emit(yielded, f, stop), g, stop) == Emit(yielded, f + g, stop)
  {
    var k := Cut(yielded, f, stop, 0);
    forall i | 0 <= i < k ensures !stop(yielded + (f + g)[..i]) {
      CutBefore(yielded, f, stop, 0, i);
      assert (f + g)[..i] == f[..i];
    }
    if k < |f| {
      EmitStoppedInside(yielded, f, g, stop);
    } else {
      EmitThrough(yielded, f, g, stop);
    }
  }

  /** A stop inside f: nothing of g is emitted, in both orders of emitting. */
  lemma EmitStoppedInside(yielded: seq<seq<int>>, f: seq<seq<int>>, g: seq<seq<int>>, stop: seq<seq<int>> -> bool)
    requires Cut(yielded, f, stop, 0) < |f|
    requires forall i :: 0 <= i < Cut(yielded, f, stop, 0) ==> !stop(yielded + (f + g)[..i])
    ensures Emit(Emit(yielded, f, stop), g, stop) == Emit(yielded, f + g, stop)
  {
    var k := Cut(yielded, f, stop, 0);
    var mid := Emit(yielded, f, stop);
    assert mid + g[..0] == mid;
    assert Cut(mid, g, stop, 0) == 0;
    assert (f + g)[..k] == f[..k];
    CutIsFirst(yielded, f + g, stop, 0, k);
  }

  /** No stop inside f: all of f is emitted, and then g as far as its own stop. */
  lemma EmitThrough(yielded: seq<seq<int>>, f: seq<seq<int>>, g: seq<seq<int>>, stop: seq<seq<int>> -> bool)
    requires Cut(yielded, f, stop, 0) == |f|
    requires forall i :: 0 <= i < |f| ==> !stop(yielded + (f + g)[..i])
    ensures Emit(Emit(yielded, f, stop), g, stop) == Emit(yielded, f + g, stop)
  {
    var k := |f|;
    var mid := Emit(yielded, f, stop);
    var j := Cut(mid, g, stop, 0);
    assert mid == yielded + f;
    forall i | k <= i < k + j ensures !stop(yielded + (f + g)[..i]) {
      CutBefore(mid, g, stop, 0, i - k);
      assert (f + g)[..i] == f + g[..i - k];
      assert yielded + (f + g)[..i] == mid + g[..i - k];
    }
    assert (f + g)[..k + j] == f + g[..j];
    assert yielded + (f + g)[..k + j] == mid + g[..j];
    CutIsFirst(yielded, f + g, stop, 0, k + j);
  }

  /**
   * combineAscending with the shared combination slice modelled as a value
   * that every branch appends to and truncates again; `yielded` collects the
   * calls of yield, and `stop` stands for shouldStop, which the model lets
   * depend on what has been yielded so far.
   */
  method CombineAscending(combination: seq<int>, n: nat, m: int,
                          stop: seq<seq<int>> -> bool, yielded: seq<seq<int>>)
    returns (out: seq<seq<int>>)
    requires |combination| <= n
    ensures out == Emit(yielded, Full(combination, n, m), stop)
    decreases n - |combination|
  {
    if stop(yielded) {
      assert yielded + Full(combination, n, m)[..0] == yielded;
      return yielded;
    }
    if |combination| == n {
      assert yielded + [combination][..0] == yielded;
      assert Cut(yielded, [combination], stop, 0) == 1;
      return yielded + [combination];
    }
    var start := 0;
    if |combination| > 0 {
      start := combination[|combination| - 1] - 1;
    }
    var work := combination;
    out := yielded;
    var i := start;
    assert Cut(yielded, [], stop, 0) == 0;
    while i < m
      invariant start <= i && (i <= m || i == start)
      invariant work == combination
      invariant out == Emit(yielded, ChildrenRange(combination, n, m, start, i), stop)
    {
      work := work + [i + 1];
      var next := CombineAscending(work, n, m, stop, out);
      work := work[..|work| - 1];
      EmitConcat(yielded, ChildrenRange(combination, n, m, start, i), Full(combination + [i + 1], n, m), stop);
      assert ChildrenRange(combination, n, m, start, i + 1) ==
        ChildrenRange(combination, n, m, start, i) + Full(combination + [i + 1], n, m);
      out := next;
      i := i + 1;
    }
    if m < start {
      assert ChildrenRange(combination, n, m, start, m) == [] == ChildrenRange(combination, n, m, start, i);
    }
  }

  /** Every yielded combination extends c ascendingly, so at the top level it is ascending in 1..m. */
  lemma {:induction false} FullShape(c: seq<int>, n: nat, m: int, r: seq<int>)
    requires |c| <= n && r in Full(c, n, m)
    ensures AscendingExtension(r, c, n, m)
    decreases n - |c|, 1, 0
  {
    if |c| < n {
      ChildrenShape(c, n, m, Start(c), m, r);
    }
  }

  lemma {:induction false} ChildrenShape(c: seq<int>, n: nat, m: int, s: int, e: int, r: seq<int>)
    requires |c| < n && s == Start(c) && r in ChildrenRange(c, n, m, s, e) && e <= m
    ensures AscendingExtension(r, c, n, m)
    decreases n - |c|, 0, e - s
  {
    if e > s {
      if r in ChildrenRange(c, n, m, s, e - 1) {
        ChildrenShape(c, n, m, s, e - 1, r);
      } else {
        var c2 := c + [e];
        FullShape(c2, n, m, r);
        assert r[..|c|] == r[..|c2|][..|c|] == c;
        assert Lo(c2) == e && Lo(c) <= e;
        forall k | |c| < k < n ensures r[k - 1] <= r[k] {
          if k == |c| + 1 {
            assert r[k - 1] == r[..|c2|][|c|] == e;
          }
        }
      }
    }
  }

  /** Every ascending extension of c is yielded: the generator misses no combination. */
  lemma {:induction false} FullComplete(c: seq<int>, n: nat, m: int, r: seq<int>)
    requires AscendingExtension(r, c, n, m)
    ensures r in Full(c, n, m)
    decreases n - |c|, 1, 0
  {
    if |c| == n {
      assert r == r[..|c|];
    } else {
      var v := r[|c|];
      assert Start(c) < v <= m;
      ChildrenComplete(c, n, m, Start(c), m, v, r);
    }
  }

  /** In an ascending extension every later location is at least the first new one. */
  lemma {:induction false} AscendingFrom(r: seq<int>, c: seq<int>, n: nat, m: int, k: int)
    requires AscendingExtension(r, c, n, m) && |c| <= k < n
    ensures r[|c|] <= r[k]
    decreases k
  {
    if k > |c| {
      AscendingFrom(r, c, n, m, k - 1);
    }
  }

  lemma {:induction false} ChildrenComplete(c: seq<int>, n: nat, m: int, s: int, e: int, v: int, r: seq<int>)
    requires |c| < n && s == Start(c) && AscendingExtension(r, c, n, m)
    requires v == r[|c|] && s < v <= e
    ensures r in ChildrenRange(c, n, m, s, e)
    decreases n - |c|, 0, e - s
  {
    if v < e {
      ChildrenComplete(c, n, m, s, e - 1, v, r);
    } else {
      var c2 := c + [e];
      assert r[..|c2|] == r[..|c|] + [r[|c|]] == c2;
      assert Lo(c2) == e;
      forall k | |c2| <= k < n ensures Lo(c2) <= r[k] {
        AscendingFrom(r, c, n, m, k);
      }
      FullComplete(c2, n, m, r);
    }
  }

  lemma FullOne23()
    ensures Full([1], 2, 3) == [[1, 1], [1, 2], [1, 3]]
  {
    assert [1] + [1] == [1, 1] && [1] + [2] == [1, 2] && [1] + [3] == [1, 3];
    assert ChildrenRange([1], 2, 3, 0, 1) == [[1, 1]];
    assert ChildrenRange([1], 2, 3, 0, 2) == [[1, 1], [1, 2]];
  }

  lemma FullTwo23()
    ensures Full([2], 2, 3) == [[2, 2], [2, 3]]
  {
    assert [2] + [2] == [2, 2] && [2] + [3] == [2, 3];
    assert ChildrenRange([2], 2, 3, 1, 2) == [[2, 2]];
  }

  lemma FullThree23()
    ensures Full([3], 2, 3) == [[3, 3]]
  {
    assert [3] + [3] == [3, 3];
    assert ChildrenRange([3], 2, 3, 2, 2) == [];
  }

  /** Two elements over three locations, as listed beside combineAscending. */
  lemma TwoOverThree()
    ensures Full([], 2, 3) == [[1, 1], [1, 2], [1, 3], [2, 2], [2, 3], [3, 3]]
  {
    assert [] + [1] == [1] && [] + [2] == [2] && [] + [3] == [3];
    FullOne23();
    FullTwo23();
    FullThree23();
    assert ChildrenRange([], 2, 3, 0, 1) == [[1, 1], [1, 2], [1, 3]];
    assert ChildrenRange([], 2, 3, 0, 2) == [[1, 1], [1, 2], [1, 3], [2, 2], [2, 3]];
  }

  lemma FullOneOne32()
    ensures Full([1, 1], 3, 2) == [[1, 1, 1], [1, 1, 2]]
  {
    assert [1, 1] + [1] == [1, 1, 1] && [1, 1] + [2] == [1, 1, 2];
    assert ChildrenRange([1, 1], 3, 2, 0, 1) == [[1, 1, 1]];
  }

  lemma FullOneTwo32()
    ensures Full([1, 2], 3, 2) == [[1, 2, 2]]
  {
    assert [1, 2] + [2] == [1, 2, 2];
    assert ChildrenRange([1, 2], 3, 2, 1, 1) == [];
  }

  lemma FullTwoTwo32()
    ensures Full([2, 2], 3, 2) == [[2, 2, 2]]
  {
    assert [2, 2] + [2] == [2, 2, 2];
    assert ChildrenRange([2, 2], 3, 2, 1, 1) == [];
  }

  lemma FullOne32()
    ensures Full([1], 3, 2) == [[1, 1, 1], [1, 1, 2], [1, 2, 2]]
  {
    assert [1] + [1] == [1, 1] && [1] + [2] == [1, 2];
    FullOneOne32();
    FullOneTwo32();
    assert ChildrenRange([1], 3, 2, 0, 1) == [[1, 1, 1], [1, 1, 2]];
  }

  lemma FullTwo32()
    ensures Full([2], 3, 2) == [[2, 2, 2]]
  {
    assert [2] + [2] == [2, 2];
    FullTwoTwo32();
    assert ChildrenRange([2], 3, 2, 1, 1) == [];
  }

  /** Three elements over two locations. */
  lemma ThreeOverTwo()
    ensures Full([], 3, 2) == [[1, 1, 1], [1, 1, 2], [1, 2, 2], [2, 2, 2]]
  {
    assert [] + [1] == [1] && [] + [2] == [2];
    FullOne32();
    FullTwo32();
    assert ChildrenRange([], 3, 2, 0, 1) == [[1, 1, 1], [1, 1, 2], [1, 2, 2]];
  }

  /** Once the callback asks to stop, nothing more is yielded. */
  lemma StopSuppressesAll(yielded: seq<seq<int>>, f: seq<seq<int>>, stop: seq<seq<int>> -> bool)
    requires stop(yielded)
    ensures Emit(yielded, f, stop) == yielded
  {
    assert yielded + f[..0] == yielded;
  }
}
