// The earliest-start test of model_stop_test.go, over the model of model_stop.go.
module ModelStopTest {
  import opened Wrappers
  import opened RangeCheck
  import opened ModelStop

  /** The windows of model_stop_test.go:25-30, with the epoch at 0. */
  const TestWindows := [(60, 120), (240, 360), (360, 420), (480, 540)]
  const TestIntervals := [Interval(60, 120), Interval(240, 360), Interval(360, 420), Interval(480, 540)]

  /** The stop of model_stop_test.go:14-64 and its expected earliest starts. */
  method EarliestStartScenario()
  {
    var made := NewModel();
    var m := made.value;
    var created := m.NewStop();
    var s := created.value;
    TestWindowsValid();
    TestRelative();
    TestAccepted();
    var r := s.SetWindows(TestWindows);
    assert r == Pass;
    TestCheckerIsBuilt();
    assert s.windowChecker == Some(BuildChecker(TestIntervals));
    TestChecks();
    assert s.ToEarliestStartValue(0) == 60;
    assert s.ToEarliestStartValue(120) == 240;
    assert s.ToEarliestStartValue(130) == 240;
    assert s.ToEarliestStartValue(240) == 240;
    assert s.ToEarliestStartValue(300) == 300;
    assert s.ToEarliestStartValue(480) == 480;
    assert s.ToEarliestStartValue(539) == 539;
    assert s.ToEarliestStartValue(540) == 540;
  }

  lemma TestWindowsValid()
    ensures WindowsError(TestWindows, 0) == None
  {
    assert forall j :: 0 <= j < |TestWindows| ==> WindowOk(TestWindows, j);
  }

  lemma TestRelative()
    ensures Relative(TestWindows, 0) == TestWindows
  {
  }

  lemma TestConverted()
    ensures Convert(TestWindows) == TestIntervals
  {
  }

  lemma TestSorted()
    ensures SortedByMin(TestIntervals)
  {
  }

  lemma TestProcessed()
    ensures Processed(TestWindows) == TestIntervals
  {
    TestConverted();
    TestSorted();
    SortSorted(TestIntervals);
  }

  lemma TestNoOverlap()
    ensures !HasOverlap(TestIntervals)
  {
    ChainHasNoOverlap(TestIntervals);
  }

  lemma TestNoNegative()
    ensures !HasNegative(TestIntervals)
  {
  }

  lemma TestAccepted()
    ensures Accepted(TestWindows)
  {
    TestProcessed();
    TestNoOverlap();
    TestNoNegative();
  }

  lemma TestCheckerIsBuilt()
    ensures CheckerOf(TestWindows) == BuildChecker(TestIntervals)
  {
    TestProcessed();
  }

  lemma TestCheckerShape()
    ensures BuildChecker(TestIntervals).sliceOffset == 1
    ensures BuildChecker(TestIntervals).earliestNext == 60
    ensures |BuildChecker(TestIntervals).timeSlots| == 9
  {
  }

  /** Before the first window the checker points to its start. */
  lemma TestCheckBefore()
    ensures Check(BuildChecker(TestIntervals), 0) == (false, 60)
  {
    TestCheckerShape();
  }

  /** Second t falls in minute slot j, whose scan yields the given result. */
  lemma TestCheckSlot(t: int, j: nat, v: (bool, int))
    requires j < 9 && 60 + 60 * j <= t < 120 + 60 * j
    requires SlotResult(Scan(TestIntervals, 60 + 60 * j, 0)) == v
    ensures Check(BuildChecker(TestIntervals), t) == v
  {
    TestCheckerShape();
    assert BuildChecker(TestIntervals).timeSlots[j] == Scan(TestIntervals, 60 + 60 * j, 0);
  }

  lemma TestChecks()
    ensures var c := BuildChecker(TestIntervals);
      Check(c, 0) == (false, 60) && Check(c, 120) == (false, 240) && Check(c, 130) == (false, 240) &&
      Check(c, 240) == (true, -1) && Check(c, 300) == (true, -1) && Check(c, 480) == (true, -1) &&
      Check(c, 539) == (true, -1) && Check(c, 540) == (false, -1)
  {
    TestCheckBefore();
    TestCheckSlot(120, 1, (false, 240));
    TestCheckSlot(130, 1, (false, 240));
    TestCheckSlot(240, 3, (true, -1));
    TestCheckSlot(300, 4, (true, -1));
    TestCheckSlot(480, 7, (true, -1));
    TestCheckSlot(539, 7, (true, -1));
    TestCheckSlot(540, 8, (false, -1));
  }
}
