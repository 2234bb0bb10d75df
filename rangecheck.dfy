// Minute-slot lookup of half-open time intervals (common/rangecheck.go).
// Times are whole seconds; the source's float64 seconds are integral
// wherever the engine uses this checker (window bounds are minute aligned).
module RangeCheck {
  import opened Wrappers

  /** A half-open interval [min, max) of seconds. */
  datatype Interval = Interval(min: int, max: int)

  datatype RangeError = Overlap | NegativeTime

  /** What one minute slot records: the interval covering it and the next opening. */
  datatype SlotInfo = SlotInfo(interval: Option<Interval>, next: Option<Interval>, inInterval: bool)

  /** A slot together with its minute, as toSlotInfo returns it. */
  datatype InfoTuple = InfoTuple(info: SlotInfo, i: int)

  /** The lookup table built by NewIntervalCheckerSliceLookup. */
  datatype Checker = Checker(timeSlots: seq<SlotInfo>, sliceOffset: int, earliestNext: int)

  predicate InInterval(w: Interval, t: int)
  {
    w.min <= t < w.max
  }

  /** Go's int(s / 60): division truncating towards zero. */
  function SecondsToMinutes(s: int): (m: int)
    ensures s >= 0 ==> m == s / 60
    ensures s < 0 ==> m == -((-s) / 60)
  {
    if s >= 0 then s / 60 else -((-s) / 60)
  }

  lemma MinutesMonotone(a: int, b: int)
    requires a <= b
    ensures SecondsToMinutes(a) <= SecondsToMinutes(b)
  {
  }

  /** The [2]float64 pairs as intervals, position by position. */
  function Convert(raw: seq<(int, int)>): (r: seq<Interval>)
    ensures |r| == |raw|
    ensures forall i :: 0 <= i < |raw| ==> r[i] == Interval(raw[i].0, raw[i].1)
  {
    seq(|raw|, i requires 0 <= i < |raw| => Interval(raw[i].0, raw[i].1))
  }

  /** Every interval starts no later than it ends. */
  predicate WellFormed(ivs: seq<Interval>)
  {
    forall w :: w in ivs ==> w.min <= w.max
  }

  /** Every bound is a whole minute. */
  predicate Aligned(ivs: seq<Interval>)
  {
    forall w :: w in ivs ==> w.min % 60 == 0 && w.max % 60 == 0
  }

  // ---------------------------------------------------------------------
  // Sorting by start (slices.SortFunc comparing Min)

  predicate SortedByMin(s: seq<Interval>)
  {
    forall i, j :: 0 <= i < j < |s| ==> s[i].min <= s[j].min
  }

  /** x put in front of the first interval of s that does not start before it. */
  function Insert(x: Interval, s: seq<Interval>): (r: seq<Interval>)
    ensures |r| == |s| + 1 && multiset(r) == multiset(s) + multiset{x}
  {
    if s == [] || x.min <= s[0].min then
      [x] + s
    else
      assert s == [s[0]] + s[1..];
      [s[0]] + Insert(x, s[1..])
  }

  /** Inserting into an ordered sequence keeps it ordered. */
  lemma {:induction false} InsertSorted(x: Interval, s: seq<Interval>)
    requires SortedByMin(s)
    ensures SortedByMin(Insert(x, s))
  {
    if s != [] && x.min > s[0].min {
      var rest := Insert(x, s[1..]);
      InsertSorted(x, s[1..]);
      forall i | 0 <= i < |rest| ensures s[0].min <= rest[i].min {
        assert rest[i] in multiset(rest);
        if rest[i] != x {
          assert rest[i] in multiset(s[1..]);
          var j :| 0 <= j < |s[1..]| && s[1..][j] == rest[i];
          assert s[j + 1] == rest[i];
        }
      }
      var r := [s[0]] + rest;
      forall i, j | 0 <= i < j < |r| ensures r[i].min <= r[j].min {
        if i > 0 {
          assert r[i] == rest[i - 1] && r[j] == rest[j - 1];
        }
      }
    }
  }

  /** The intervals ordered by start. */
  function SortByMin(s: seq<Interval>): (r: seq<Interval>)
    ensures SortedByMin(r) && multiset(r) == multiset(s) && |r| == |s|
    ensures forall w :: w in r <==> w in s
  {
    if s == [] then []
    else
      assert s == [s[0]] + s[1..];
      var rest := SortByMin(s[1..]);
      InsertSorted(s[0], rest);
      var r := Insert(s[0], rest);
      assert forall w :: w in r <==> w in multiset(r);
      r
  }

  /** The pairs as intervals, ordered by start. */
  function Processed(raw: seq<(int, int)>): (r: seq<Interval>)
    ensures |r| == |raw| && SortedByMin(r)
    ensures forall w :: w in r <==> w in Convert(raw)
  {
    SortByMin(Convert(raw))
  }

  // ---------------------------------------------------------------------
  // processIntervals

  /** The overlap test of processIntervals for the ordered pair (i, j). */
  predicate OverlapPair(s: seq<Interval>, i: int, j: int)
    requires 0 <= i < |s| && 0 <= j < |s|
  {
    i != j && (InInterval(s[i], s[j].min) || InInterval(s[i], s[j].max - 1))
  }

  predicate HasOverlap(s: seq<Interval>)
  {
    exists i, j :: 0 <= i < |s| && 0 <= j < |s| && OverlapPair(s, i, j)
  }

  predicate HasNegative(s: seq<Interval>)
  {
    exists i :: 0 <= i < |s| && (s[i].min < 0 || s[i].max < 0)
  }

  /** The conversion loop of processIntervals. */
  method ConvertIntervals(raw: seq<(int, int)>) returns (converted: seq<Interval>)
    ensures converted == Convert(raw)
  {
    converted := [];
    var i := 0;
    while i < |raw|
      invariant 0 <= i <= |raw|
      invariant converted == Convert(raw)[..i]
    {
      converted := converted + [Interval(raw[i].0, raw[i].1)];
      i := i + 1;
    }
  }

  /** The double loop of processIntervals: is some ordered pair overlapping? */
  method FindOverlap(s: seq<Interval>) returns (found: bool)
    ensures found <==> HasOverlap(s)
  {
    var i := 0;
    while i < |s|
      invariant 0 <= i <= |s|
      invariant forall a, b :: 0 <= a < i && 0 <= b < |s| ==> !OverlapPair(s, a, b)
    {
      var j := 0;
      while j < |s|
        invariant 0 <= j <= |s|
        invariant forall b :: 0 <= b < j ==> !OverlapPair(s, i, b)
      {
        if i != j {
          var w1, w2 := s[i], s[j];
          if InInterval(w1, w2.min) || InInterval(w1, w2.max - 1) {
            assert OverlapPair(s, i, j);
            return true;
          }
        }
        j := j + 1;
      }
      i := i + 1;
    }
    return false;
  }

  /** The last loop of processIntervals: does some bound lie before zero? */
  method FindNegative(s: seq<Interval>) returns (found: bool)
    ensures found <==> HasNegative(s)
  {
    var i := 0;
    while i < |s|
      invariant 0 <= i <= |s|
      invariant forall a :: 0 <= a < i ==> s[a].min >= 0 && s[a].max >= 0
    {
      if s[i].min < 0 || s[i].max < 0 {
        return true;
      }
      i := i + 1;
    }
    return false;
  }

  /**
   * Converts and sorts the intervals, then rejects any overlapping pair
   * (touching intervals are fine) and, after that, any negative time.
   */
  method ProcessIntervals(raw: seq<(int, int)>) returns (r: Result<seq<Interval>, RangeError>)
    ensures r.Err? <==> HasOverlap(Processed(raw)) || HasNegative(Processed(raw))
    ensures r == Err(Overlap) <==> HasOverlap(Processed(raw))
    ensures r == Err(NegativeTime) <==>
      !HasOverlap(Processed(raw)) && HasNegative(Processed(raw))
    ensures r.Ok? ==> r.value == Processed(raw)
  {
    var converted := ConvertIntervals(raw);
    var sorted := SortByMin(converted);
    assert sorted == Processed(raw);
    var overlap := FindOverlap(sorted);
    if overlap {
      return Err(Overlap);
    }
    var negative := FindNegative(sorted);
    if negative {
      return Err(NegativeTime);
    }
    return Ok(sorted);
  }

  /** Touching intervals are not an overlap. */
  lemma TouchingAllowed(a: int, b: int, c: int)
    requires a < b < c
    ensures !HasOverlap([Interval(a, b), Interval(b, c)])
  {
    var s := [Interval(a, b), Interval(b, c)];
    forall i, j | 0 <= i < 2 && 0 <= j < 2 ensures !OverlapPair(s, i, j) {
    }
  }

  /** Sharing a single second is an overlap. */
  lemma SharedSecondOverlaps(a: int, b: int, c: int)
    requires a < b < c
    ensures HasOverlap([Interval(a, b + 1), Interval(b, c)])
  {
    assert OverlapPair([Interval(a, b + 1), Interval(b, c)], 0, 1);
  }

  /**
   * Once the overlap test passes, the sorted intervals form a chain: each
   * ends no later than every later one starts.
   */
  lemma NoOverlapChain(s: seq<Interval>)
    requires SortedByMin(s) && !HasOverlap(s)
    ensures forall i, j :: 0 <= i < j < |s| ==> s[i].max <= s[j].min
  {
    forall i, j | 0 <= i < j < |s| ensures s[i].max <= s[j].min {
      assert !OverlapPair(s, i, j);
    }
  }

  /**
   * Conversely, a chain of non-empty intervals passes the overlap test:
   * intervals that merely touch are accepted.
   */
  lemma ChainHasNoOverlap(s: seq<Interval>)
    requires forall i :: 0 <= i < |s| ==> s[i].min < s[i].max
    requires forall i, j :: 0 <= i < j < |s| ==> s[i].max <= s[j].min
    ensures !HasOverlap(s)
  {
    forall i, j | 0 <= i < |s| && 0 <= j < |s| ensures !OverlapPair(s, i, j) {
      if i < j {
        assert s[i].max <= s[j].min;
      } else if j < i {
        assert s[j].max <= s[i].min;
      }
    }
  }

  /** Sorting intervals that are already in order leaves them as they are. */
  lemma {:induction false} SortSorted(s: seq<Interval>)
    requires SortedByMin(s)
    ensures SortByMin(s) == s
  {
    if s != [] {
      SortSorted(s[1..]);
      assert [s[0]] + s[1..] == s;
    }
  }

  /**
   * The order the sort leaves equal starts in cannot matter: after the
   * overlap test, two intervals with the same start are the same empty
   * interval.
   */
  lemma EqualStartsAreEmpty(s: seq<Interval>, i: int, j: int)
    requires !HasOverlap(s) && WellFormed(s)
    requires 0 <= i < |s| && 0 <= j < |s| && i != j && s[i].min == s[j].min
    ensures s[i] == s[j] && s[i].min == s[i].max
  {
    assert !OverlapPair(s, i, j) && !OverlapPair(s, j, i);
    assert s[i] in s && s[j] in s;
  }

  // ---------------------------------------------------------------------
  // toSlotInfo

  /**
   * The slot scan of toSlotInfo for the slot starting at `second`, from
   * interval k on, with the neighbour guards on the interval index k.
   */
  function Scan(ivs: seq<Interval>, second: int, k: nat): SlotInfo
    requires k <= |ivs|
    decreases |ivs| - k
  {
    if k == |ivs| then SlotInfo(None, None, false)
    else if second >= ivs[k].min && second < ivs[k].max then SlotInfo(Some(ivs[k]), None, true)
    else if second < ivs[k].min && k - 1 >= 0 && second >= ivs[k - 1].max then SlotInfo(None, Some(ivs[k]), false)
    else if second >= ivs[k].max && k + 1 < |ivs| && second < ivs[k + 1].min then SlotInfo(None, Some(ivs[k + 1]), false)
    else Scan(ivs, second, k + 1)
  }

  /**
   * The slot scan exactly as written: the guards test the minute i where the
   * interval index is meant, so the neighbour interval k-1 or k+1 may not
   * exist. None stands for the index-out-of-range panic.
   */
  function ScanAsWritten(ivs: seq<Interval>, i: int, second: int, k: nat): Option<SlotInfo>
    requires k <= |ivs|
    decreases |ivs| - k
  {
    if k == |ivs| then Some(SlotInfo(None, None, false))
    else if second >= ivs[k].min && second < ivs[k].max then Some(SlotInfo(Some(ivs[k]), None, true))
    else if second < ivs[k].min && i - 1 >= 0 && (k - 1 < 0 || second >= ivs[k - 1].max) then
      if k - 1 < 0 then None else Some(SlotInfo(None, Some(ivs[k]), false))
    else if second >= ivs[k].max && i + 1 < |ivs| && (k + 1 >= |ivs| || second < ivs[k + 1].min) then
      if k + 1 >= |ivs| then None else Some(SlotInfo(None, Some(ivs[k + 1]), false))
    else ScanAsWritten(ivs, i, second, k + 1)
  }

  /** A first start that is not a whole minute, at minute 1 or later, reads intervals[-1]. */
  lemma ScanAsWrittenPanicsBeforeStart()
    ensures ScanAsWritten([Interval(90, 200)], 1, 60, 0) == None
    ensures Scan([Interval(90, 200)], 60, 0) == SlotInfo(None, None, false)
  {
  }

  /** Two empty windows at second 0 read intervals[2]. */
  lemma ScanAsWrittenPanicsAfterEnd()
    ensures !HasOverlap([Interval(0, 0), Interval(0, 0)])
    ensures ScanAsWritten([Interval(0, 0), Interval(0, 0)], 0, 0, 0) == None
    ensures Scan([Interval(0, 0), Interval(0, 0)], 0, 0) == SlotInfo(None, None, false)
  {
    var s := [Interval(0, 0), Interval(0, 0)];
    forall i, j | 0 <= i < 2 && 0 <= j < 2 ensures !OverlapPair(s, i, j) {
    }
    assert ScanAsWritten(s, 0, 0, 1) == None;
  }

  /**
   * Away from the first |ivs| minutes, and once the scan starts at or after
   * the first start, the scan as written and the corrected scan agree: the
   * guard on i always passes for k-1 and always fails for k+1, and the next
   * interval is then found one step later.
   */
  lemma {:induction false} ScanAsWrittenAgrees(ivs: seq<Interval>, i: int, second: int, k: nat)
    requires k <= |ivs|
    requires i >= |ivs| && i >= 1
    requires k == 0 && |ivs| > 0 ==> second >= ivs[0].min
    ensures ScanAsWritten(ivs, i, second, k) == Some(Scan(ivs, second, k))
    decreases |ivs| - k
  {
    if k == |ivs| {
    } else if second >= ivs[k].min && second < ivs[k].max {
    } else if second < ivs[k].min && k - 1 >= 0 && second >= ivs[k - 1].max {
    } else if second >= ivs[k].max && k + 1 < |ivs| && second < ivs[k + 1].min {
      assert ScanAsWritten(ivs, i, second, k) == ScanAsWritten(ivs, i, second, k + 1);
    } else {
      ScanAsWrittenAgrees(ivs, i, second, k + 1);
    }
  }

  /** First minute covered by a slot. */
  function FirstMinute(ivs: seq<Interval>): int
    requires |ivs| > 0
  {
    SecondsToMinutes(ivs[0].min)
  }

  /** One past the last minute covered by a slot. */
  function EndMinute(ivs: seq<Interval>): int
    requires |ivs| > 0
  {
    SecondsToMinutes(ivs[|ivs| - 1].max) + 1
  }

  /**
   * toSlotInfo (with the guards on the interval index): one slot per minute
   * from the first interval's start minute to the last interval's end minute.
   */
  method ToSlotInfo(ivs: seq<Interval>) returns (slots: seq<InfoTuple>, minimum: int)
    requires |ivs| > 0 && EndMinute(ivs) >= FirstMinute(ivs)
    ensures minimum == FirstMinute(ivs)
    ensures |slots| == EndMinute(ivs) - minimum
    ensures forall j :: 0 <= j < |slots| ==>
      slots[j] == InfoTuple(Scan(ivs, (minimum + j) * 60, 0), minimum + j)
  {
    minimum := SecondsToMinutes(ivs[0].min);
    var maximum := SecondsToMinutes(ivs[|ivs| - 1].max) + 1;
    slots := [];
    var i := minimum;
    while i < maximum
      invariant minimum <= i <= maximum
      invariant |slots| == i - minimum
      invariant forall j :: 0 <= j < |slots| ==>
        slots[j] == InfoTuple(Scan(ivs, (minimum + j) * 60, 0), minimum + j)
    {
      var info := SlotAt(ivs, i * 60);
      slots := slots + [InfoTuple(info, i)];
      i := i + 1;
    }
  }

  /** The inner loop of toSlotInfo for one slot. */
  method SlotAt(ivs: seq<Interval>, second: int) returns (info: SlotInfo)
    ensures info == Scan(ivs, second, 0)
  {
    info := SlotInfo(None, None, false);
    var k := 0;
    while k < |ivs|
      invariant 0 <= k <= |ivs|
      invariant Scan(ivs, second, 0) == Scan(ivs, second, k)
    {
      if second >= ivs[k].min && second < ivs[k].max {
        return SlotInfo(Some(ivs[k]), None, true);
      }
      if second < ivs[k].min && k - 1 >= 0 && second >= ivs[k - 1].max {
        return SlotInfo(None, Some(ivs[k]), false);
      }
      if second >= ivs[k].max && k + 1 < |ivs| && second < ivs[k + 1].min {
        return SlotInfo(None, Some(ivs[k + 1]), false);
      }
      k := k + 1;
    }
  }

  // ---------------------------------------------------------------------
  // The checker

  /** The slot table of the sorted intervals. */
  function Slots(ivs: seq<Interval>): (r: seq<SlotInfo>)
    requires |ivs| > 0 && EndMinute(ivs) >= FirstMinute(ivs)
    ensures |r| == EndMinute(ivs) - FirstMinute(ivs)
    ensures forall j :: 0 <= j < |r| ==> r[j] == Scan(ivs, (FirstMinute(ivs) + j) * 60, 0)
  {
    seq(EndMinute(ivs) - FirstMinute(ivs), j => Scan(ivs, (FirstMinute(ivs) + j) * 60, 0))
  }

  function BuildChecker(ivs: seq<Interval>): Checker
    requires |ivs| > 0 && EndMinute(ivs) >= FirstMinute(ivs)
  {
    Checker(Slots(ivs), FirstMinute(ivs), ivs[0].min)
  }

  /** Sorted well-formed intervals span a table of non-negative length. */
  lemma MinutesOrdered(ivs: seq<Interval>)
    requires |ivs| > 0 && WellFormed(ivs) && SortedByMin(ivs)
    ensures EndMinute(ivs) >= FirstMinute(ivs)
  {
    var last := ivs[|ivs| - 1];
    assert last in ivs;
    MinutesMonotone(ivs[0].min, last.max);
  }

  lemma ProcessedWellFormed(raw: seq<(int, int)>)
    requires forall i :: 0 <= i < |raw| ==> raw[i].0 <= raw[i].1
    ensures WellFormed(Processed(raw))
  {
  }

  /** The pairs pass processIntervals. */
  predicate Accepted(raw: seq<(int, int)>)
  {
    !HasOverlap(Processed(raw)) && !HasNegative(Processed(raw))
  }

  /** The checker over the sorted intervals. */
  function CheckerOf(raw: seq<(int, int)>): Checker
    requires |raw| > 0
    requires forall i :: 0 <= i < |raw| ==> raw[i].0 <= raw[i].1
  {
    ProcessedWellFormed(raw);
    MinutesOrdered(Processed(raw));
    BuildChecker(Processed(raw))
  }

  /**
   * Errors of processIntervals, or the checker over the sorted intervals.
   * Inverted windows (start after end) are excluded here. In the source,
   * after sorting, the table has int(last end / 60) + 1 - int(first start / 60)
   * slots. An inverted window can make that negative, which panics
   * ([[200, 50]] gives -2), or zero, an empty table ([[100, 50]]).
   */
  method NewIntervalCheckerSliceLookup(raw: seq<(int, int)>) returns (r: Result<Checker, RangeError>)
    requires |raw| > 0
    requires forall i :: 0 <= i < |raw| ==> raw[i].0 <= raw[i].1
    ensures r.Err? <==> !Accepted(raw)
    ensures r.Err? ==> r.error == if HasOverlap(Processed(raw)) then Overlap else NegativeTime
    ensures r.Ok? ==> r.value == CheckerOf(raw)
  {
    var p := ProcessIntervals(raw);
    if p.Err? {
      return Err(p.error);
    }
    var ivs := p.value;
    ProcessedWellFormed(raw);
    MinutesOrdered(ivs);
    var slots, offset := ToSlotInfo(ivs);
    var infos := Infos(slots);
    assert infos == Slots(ivs);
    return Ok(Checker(infos, offset, ivs[0].min));
  }

  /** The copy loop of NewIntervalCheckerSliceLookup: the slots without their minutes. */
  method Infos(slots: seq<InfoTuple>) returns (infos: seq<SlotInfo>)
    ensures |infos| == |slots|
    ensures forall j :: 0 <= j < |slots| ==> infos[j] == slots[j].info
  {
    infos := [];
    var i := 0;
    while i < |slots|
      invariant 0 <= i <= |slots|
      invariant |infos| == i
      invariant forall j :: 0 <= j < i ==> infos[j] == slots[j].info
    {
      infos := infos + [slots[i].info];
      i := i + 1;
    }
  }

  /** What a slot reports: whether it is covered, and the next opening or -1. */
  function SlotResult(info: SlotInfo): (bool, int)
  {
    if info.next.Some? then (info.inInterval, info.next.value.min) else (info.inInterval, -1)
  }

  /** Whether t is inside an interval, and the next opening (-1 when none). */
  function Check(c: Checker, t: int): (bool, int)
  {
    var idx := SecondsToMinutes(t) - c.sliceOffset;
    if idx < 0 then (false, c.earliestNext)
    else if idx >= |c.timeSlots| then (false, -1)
    else SlotResult(c.timeSlots[idx])
  }

  // ---------------------------------------------------------------------
  // What Check means

  /** v is the smallest start after t. */
  predicate IsEarliestOpening(ivs: seq<Interval>, t: int, v: int)
  {
    v > t && (exists w :: w in ivs && w.min == v) &&
    forall w :: w in ivs && w.min > t ==> v <= w.min
  }

  /**
   * The brute-force answer for time t: covered iff some interval contains t,
   * with -1 as the opening; otherwise the earliest start after t, or -1 when
   * nothing opens after t.
   */
  predicate CheckSpec(ivs: seq<Interval>, t: int, r: (bool, int))
  {
    (r.0 <==> exists w :: w in ivs && InInterval(w, t)) &&
    (r.0 ==> r.1 == -1) &&
    (!r.0 && (exists w :: w in ivs && w.min > t) ==> IsEarliestOpening(ivs, t, r.1)) &&
    (!r.0 && (forall w :: w in ivs ==> w.min <= t) ==> r.1 == -1)
  }

  /** The brute-force answer is unique. */
  lemma CheckSpecUnique(ivs: seq<Interval>, t: int, r1: (bool, int), r2: (bool, int))
    requires CheckSpec(ivs, t, r1) && CheckSpec(ivs, t, r2)
    ensures r1 == r2
  {
    if !r1.0 && exists w :: w in ivs && w.min > t {
      var w1 :| w1 in ivs && w1.min == r1.1;
      var w2 :| w2 in ivs && w2.min == r2.1;
      assert r1.1 <= w2.min && r2.1 <= w1.min;
    }
  }

  /** The scan from interval k on, in the same terms. */
  predicate ScanSpec(s: seq<Interval>, k: nat, x: int, info: SlotInfo)
    requires k <= |s|
  {
    (info.inInterval <==> exists j :: k <= j < |s| && InInterval(s[j], x)) &&
    (info.inInterval ==> info.next.None?) &&
    (!info.inInterval ==> (info.next.Some? <==> exists j :: k <= j < |s| && s[j].min > x)) &&
    (info.next.Some? ==>
      info.next.value.min > x &&
      (exists j :: k <= j < |s| && s[j] == info.next.value) &&
      forall j :: k <= j < |s| && s[j].min > x ==> info.next.value.min <= s[j].min)
  }

  /**
   * On intervals sorted by start, a scan from a point at or after the k-th
   * start finds the covering interval or else the earliest later start.
   */
  lemma {:induction false} ScanMeaning(s: seq<Interval>, x: int, k: nat)
    requires k <= |s| && SortedByMin(s)
    requires k < |s| ==> x >= s[k].min
    ensures ScanSpec(s, k, x, Scan(s, x, k))
    decreases |s| - k
  {
    if k == |s| {
    } else if x >= s[k].min && x < s[k].max {
    } else if x >= s[k].max && k + 1 < |s| && x < s[k + 1].min {
      var info := Scan(s, x, k);
      assert info.next == Some(s[k + 1]);
      forall j | k <= j < |s| && s[j].min > x ensures s[k + 1].min <= s[j].min {
      }
    } else {
      ScanMeaning(s, x, k + 1);
    }
  }

  lemma ScanMeaningWhole(s: seq<Interval>, x: int)
    requires |s| > 0 && SortedByMin(s) && x >= s[0].min
    ensures CheckSpec(s, x, SlotResult(Scan(s, x, 0)))
  {
    ScanMeaning(s, x, 0);
    var info := Scan(s, x, 0);
    if info.inInterval {
      var j :| 0 <= j < |s| && InInterval(s[j], x);
      assert s[j] in s;
    }
    if exists w :: w in s && InInterval(w, x) {
      var w :| w in s && InInterval(w, x);
      var j :| 0 <= j < |s| && s[j] == w;
    }
    if exists w :: w in s && w.min > x {
      var w :| w in s && w.min > x;
      var j :| 0 <= j < |s| && s[j] == w;
    }
    if info.next.Some? {
      var j :| 0 <= j < |s| && s[j] == info.next.value;
      assert s[j] in s;
      forall w | w in s && w.min > x ensures info.next.value.min <= w.min {
        var j' :| 0 <= j' < |s| && s[j'] == w;
      }
    } else if !info.inInterval {
      forall w | w in s ensures w.min <= x {
        var j' :| 0 <= j' < |s| && s[j'] == w;
      }
    }
  }

  /** With whole-minute bounds, every second of minute m answers like its first second. */
  lemma SameMinute(a: int, x: int, t: int)
    requires a % 60 == 0 && x % 60 == 0 && x <= t < x + 60
    ensures a > x <==> a > t
  {
  }

  lemma CheckSpecSameMinute(s: seq<Interval>, x: int, t: int, r: (bool, int))
    requires Aligned(s) && x % 60 == 0 && x <= t < x + 60
    requires CheckSpec(s, x, r)
    ensures CheckSpec(s, t, r)
  {
    forall w | w in s ensures (InInterval(w, x) <==> InInterval(w, t)) && (w.min > x <==> w.min > t) {
      SameMinute(w.min, x, t);
      SameMinute(w.max, x, t);
    }
  }

  /** Before the first start nothing covers t and the first start is the next opening. */
  lemma CheckBeforeFirst(s: seq<Interval>, t: int)
    requires |s| > 0 && SortedByMin(s) && t < s[0].min
    ensures CheckSpec(s, t, (false, s[0].min))
  {
    assert s[0] in s;
    forall w | w in s ensures w.min >= s[0].min {
      var j :| 0 <= j < |s| && s[j] == w;
    }
  }

  /** After the last end nothing covers t and nothing opens. */
  lemma CheckAfterLast(s: seq<Interval>, t: int)
    requires |s| > 0 && SortedByMin(s) && WellFormed(s) && !HasOverlap(s) && t > s[|s| - 1].max
    ensures CheckSpec(s, t, (false, -1))
  {
    var last := s[|s| - 1];
    assert last in s;
    NoOverlapChain(s);
    forall w | w in s ensures w.max <= last.max {
      var j :| 0 <= j < |s| && s[j] == w;
      assert w.min <= w.max;
    }
  }

  /**
   * The checker over intervals that passed processIntervals, with whole-minute
   * bounds, gives the brute-force answer at every time t >= 0.
   */
  lemma CheckMeaning(s: seq<Interval>, t: int)
    requires |s| > 0 && SortedByMin(s) && WellFormed(s) && Aligned(s)
    requires !HasOverlap(s) && !HasNegative(s)
    requires t >= 0
    ensures EndMinute(s) >= FirstMinute(s)
    ensures CheckSpec(s, t, Check(BuildChecker(s), t))
  {
    MinutesOrdered(s);
    var c := BuildChecker(s);
    var m := t / 60;
    var idx := m - c.sliceOffset;
    assert s[0] in s;
    assert s[0].min >= 0;
    if idx < 0 {
      assert t < s[0].min;
      CheckBeforeFirst(s, t);
    } else if idx >= |c.timeSlots| {
      assert t > s[|s| - 1].max;
      CheckAfterLast(s, t);
    } else {
      var x := (c.sliceOffset + idx) * 60;
      assert x == m * 60;
      ScanMeaningWhole(s, x);
      CheckSpecSameMinute(s, x, t, SlotResult(Scan(s, x, 0)));
    }
  }

  /**
   * Before the epoch: an arrival a minute or more early sees the first start as
   * the next opening; one in the minute just before falls, by the truncating
   * division, in minute 0 and gets the answer of second 0.
   */
  lemma CheckBeforeEpoch(s: seq<Interval>, t: int)
    requires |s| > 0 && SortedByMin(s) && WellFormed(s) && Aligned(s)
    requires !HasOverlap(s) && !HasNegative(s)
    requires t < 0
    ensures EndMinute(s) >= FirstMinute(s)
    ensures t <= -60 ==> CheckSpec(s, t, Check(BuildChecker(s), t))
    ensures -60 < t ==> Check(BuildChecker(s), t) == Check(BuildChecker(s), 0)
  {
    MinutesOrdered(s);
    assert s[0].min >= 0;
    if t <= -60 {
      assert SecondsToMinutes(t) < 0;
      CheckBeforeFirst(s, t);
    } else {
      assert SecondsToMinutes(t) == 0 == SecondsToMinutes(0);
    }
  }

  /**
   * The brute-force loop of the checker's test agrees with Check from the
   * first start on (before it, that loop reports -1 where Check reports the
   * first start).
   */
  lemma CheckAgreesWithReference(s: seq<Interval>, t: int)
    requires |s| > 0 && SortedByMin(s) && WellFormed(s) && Aligned(s)
    requires !HasOverlap(s) && !HasNegative(s)
    requires t >= s[0].min
    ensures EndMinute(s) >= FirstMinute(s)
    ensures Check(BuildChecker(s), t) == SlotResult(Scan(s, t, 0))
  {
    assert s[0] in s;
    CheckMeaning(s, t);
    ScanMeaningWhole(s, t);
    CheckSpecUnique(s, t, Check(BuildChecker(s), t), SlotResult(Scan(s, t, 0)));
  }

  /**
   * The checker built from windows given in any order answers, for every
   * time t >= 0, whether some window contains t and which window opens next.
   */
  lemma CheckerMeetsWindows(raw: seq<(int, int)>, t: int)
    requires |raw| > 0
    requires forall i :: 0 <= i < |raw| ==> raw[i].0 <= raw[i].1
    requires Aligned(Convert(raw))
    requires Accepted(raw)
    requires t >= 0
    ensures CheckSpec(Convert(raw), t, Check(CheckerOf(raw), t))
  {
    var c := Convert(raw);
    var s := SortByMin(c);
    ProcessedWellFormed(raw);
    CheckMeaning(s, t);
  }
  /** CheckerMeetsWindows for arrivals before the epoch. */
  lemma CheckerBeforeEpoch(raw: seq<(int, int)>, t: int)
    requires |raw| > 0
    requires forall i :: 0 <= i < |raw| ==> raw[i].0 <= raw[i].1
    requires Aligned(Convert(raw))
    requires Accepted(raw)
    requires t < 0
    ensures t <= -60 ==> CheckSpec(Convert(raw), t, Check(CheckerOf(raw), t))
    ensures -60 < t ==> Check(CheckerOf(raw), t) == Check(CheckerOf(raw), 0)
  {
    var c := Convert(raw);
    var s := SortByMin(c);
    ProcessedWellFormed(raw);
    CheckBeforeEpoch(s, t);
  }
}
