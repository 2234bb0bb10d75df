# nextroute option handling and model building blocks, in Dafny

nextroute is a vehicle routing solver. Its Python wrappers hold the solver's
options and turn them into command-line arguments for the Go solver. The Go
side builds a model of stops, vehicles, plan units, constraints and
expressions, and then searches over solutions. This project models two things:

- the two Python option modules: the flat `Options` class with its
  `to_args` and `extract_from_dict`, and the nested `Options` with
  `_flatten`, `__set_children` and `to_args`;
- the Go building blocks those options and the model rest on: the packed
  boolean set, verbosity parsing, the start-window checker, the stops' time
  windows, the directed acyclic graph of stop sequences, plan units made of
  stops and made of plan units, the interleave and no-mix constraints,
  duration groups, custom stop and stop-pair expressions, vehicles, the
  doubly linked stops of a solution, the plan-unit collection, the adaptive
  solve parameters, capacity objective parsing, sequence grouping for plan
  units, and the ascending combinations the move generator enumerates.

Pure Python and Go code (parsing, flattening, argument building, checks)
is modelled as datatypes, functions and lemmas. Go objects whose fields
change in place are classes: the boolean set, the graph, the plan units, the
stops, the vehicles, the model, the expressions, the plan-unit collection, the
solve parameter and the solution's link arrays. Their methods are proved
against specification functions of the old state. Go loops are methods with
loop invariants, proved equal to recursive reference functions.

One module, `Wrappers`, holds the `Option`, `Result` and `Outcome` types.
`PyJson` models the values a Python options dictionary holds, the text
`json.dumps` gives them, and Python's `==` on them. `Strings` holds the
character and split/join helpers. `Reachability` relates a fixpoint
reachability test to cycles in an edge list. `Unique` models
`common.UniqueDefined`, whose source file is not part of this model.

Where the comments and the code disagree, the model follows the code. In
check/schema.go the comment offers a "v" spelling of verbosity, but the code
maps every string that does not start with l, m or h to Off; the model does
the same (`CheckSchema.UnknownMeansOff`). In solve_parameters.go the comment
on `zigzag` (lines 38-41) says a negative delta at the minimum turns positive
and a positive delta at the maximum turns negative. The code does the
reverse: at lines 75-80 a start at the maximum gets a positive delta and a
start at the minimum a negative one, and `zigzag` is never read. The model
follows the code (`SolveParameters.NormalizedDelta`,
`SolveParameters.ZigzagIgnored`).

## Model

| member | source | states |
|---|---|---|
| Bools.Bools.Init | common/bools.go:15-28 | a fresh word array of the requested length with every representable boolean equal to the initial value |
| Bools.Bools.Set | common/bools.go:31-40 | after setting boolean i to v, Get(i) is v and every other boolean keeps its old value |
| Bools.Bools.Get | common/bools.go:42-45 | boolean i is bit i % 64 of word i / 64, read by shifting the word down and testing its lowest bit |
| Bools.NewBools | common/bools.go:15-28 | a negative size is an error (the source panics); otherwise size/64+1 words holding at least size booleans, all equal to the initial value |
| Bools.SetWordBitSame | common/bools.go:31-45 | writing a bit of a word and reading it back gives the written value |
| Bools.SetWordBitOther | common/bools.go:31-45 | writing one bit of a word leaves every other bit as it was |
| Bools.SetWordBitIdempotent | common/bools.go:31-40 | writing the same bit twice is the same as writing it once |
| Bools.BoolsScenario | common/bools_test.go:9-42 | the test's steps: 100 booleans start true, boolean 50 is cleared and set (repeatedly), 0 is cleared, and 100, in the rounded-up last word, is cleared; each read gives what the test expects (asserted, with no contract of its own) |
| CheckSchema.ToVerbosity | check/schema.go:29-44 | the lower-cased first letter l, m or h selects Low, Medium or High, in both directions; anything else, the empty string included, is Off |
| CheckSchema.VerbosityString | check/schema.go:47-60 | Off, Low, Medium and High are written "off", "low", "medium" and "high"; a level outside Off..High, and only such a level, is "unknown" |
| CheckSchema.StringRoundTrip | check/schema.go:29-60 | parsing the text of a named level gives that level back |
| CheckSchema.CaseInsensitive | check/schema.go:29-44 | an upper-case spelling parses to the same level |
| CheckSchema.UnknownMeansOff | check/schema.go:29-44 | "verbose" and "" parse to Off, "Medium" to Medium |
| RangeCheck.SecondsToMinutes | common/rangecheck.go:34-36 | seconds to minutes with Go's truncation toward zero, for negative seconds too |
| RangeCheck.MinutesMonotone | common/rangecheck.go:34-36 | the conversion never reverses the order of two instants |
| RangeCheck.SortByMin | common/rangecheck.go:100-140 | the intervals sorted by start time, as a permutation of the input |
| RangeCheck.Processed | common/rangecheck.go:100-140 | the converted input windows, sorted by start, with the same members |
| RangeCheck.ConvertIntervals | common/rangecheck.go:101-107 | the conversion loop builds one interval per input pair, in order |
| RangeCheck.FindOverlap | common/rangecheck.go:119-130 | the double loop reports an overlap exactly when, for two different windows, one contains the other's start or its last second |
| RangeCheck.FindNegative | common/rangecheck.go:132-137 | the loop reports exactly when some interval starts or ends before zero |
| RangeCheck.ProcessIntervals | common/rangecheck.go:100-140 | an overlap error exactly when the sorted windows overlap; a negative-time error exactly when they do not overlap but one is negative; otherwise the sorted windows |
| RangeCheck.TouchingAllowed | common/rangecheck.go:119-130 | a window may start at the second the previous one ends |
| RangeCheck.SharedSecondOverlaps | common/rangecheck.go:119-130 | windows that share a second overlap |
| RangeCheck.NoOverlapChain | common/rangecheck.go:119-130 | sorted windows without overlap form a chain: each ends no later than every later one starts |
| RangeCheck.ChainHasNoOverlap | common/rangecheck.go:119-130 | the converse: a chain of non-empty windows has no overlap |
| RangeCheck.SortSorted | common/rangecheck.go:100-140 | sorting an already sorted list changes nothing |
| RangeCheck.EqualStartsAreEmpty | common/rangecheck.go:119-130 | two accepted windows with the same start are equal and empty |
| RangeCheck.ScanAsWrittenPanicsBeforeStart | common/rangecheck.go:72 | the slot loop as written indexes before the first window for the window [90,200] (see Findings) |
| RangeCheck.ScanAsWrittenPanicsAfterEnd | common/rangecheck.go:76 | the slot loop as written indexes past the last window for two empty windows at 0 (see Findings) |
| RangeCheck.ScanAsWrittenAgrees | common/rangecheck.go:61-80 | when the minute counter is at least the window count and at least 1, and the second is not before the first window, the loop as written computes the corrected scan |
| RangeCheck.ToSlotInfo | common/rangecheck.go:56-93 | one slot per minute from the first window's start minute to the last window's end minute, each holding the corrected window scan for that minute |
| RangeCheck.SlotAt | common/rangecheck.go:62-80 | the per-minute loop computes the window scan for the given second |
| RangeCheck.Slots | common/rangecheck.go:56-93 | the slot list has one scan result per minute of the covered span |
| RangeCheck.MinutesOrdered | common/rangecheck.go:57-59 | accepted sorted windows end no earlier than they start, in minutes |
| RangeCheck.ProcessedWellFormed | common/rangecheck.go:100-140 | windows whose ends are not before their starts stay so after sorting |
| RangeCheck.NewIntervalCheckerSliceLookup | common/rangecheck.go:155-170 | an error exactly when the windows are not accepted (overlap first, then negative time); otherwise the checker built from the sorted windows |
| RangeCheck.Infos | common/rangecheck.go:155-170 | the checker keeps the slot informations in minute order |
| RangeCheck.CheckSpecUnique | common/rangecheck.go:172-186 | the brute-force meaning of a lookup allows only one answer |
| RangeCheck.ScanMeaning | common/rangecheck.go:56-93 | a window scan reports inside exactly when some window covers the second, and otherwise the window opening earliest after it, or none if no window opens later |
| RangeCheck.Scan | common/rangecheck.go:66-80 | the window loop of toSlotInfo with its neighbour guards on the window index; its meaning is stated by ScanMeaning (no contract of its own) |
| RangeCheck.Check | common/rangecheck.go:172-186 | the table lookup of Check: before the table the first start, after it -1, otherwise the slot's answer; its meaning is stated by CheckMeaning and CheckBeforeEpoch (no contract of its own) |
| RangeCheck.CheckBeforeFirst | common/rangecheck.go:172-186 | before every window: not inside, and the next opening is the first window's start |
| RangeCheck.CheckAfterLast | common/rangecheck.go:172-186 | after every window: not inside, and no next opening |
| RangeCheck.CheckMeaning | common/rangecheck.go:172-186 | for every non-negative second, Check on the checker of accepted minute-aligned windows answers what the windows mean: inside a window, else the next window start or -1 |
| RangeCheck.CheckAgreesWithReference | common/rangecheck_test.go:47-109 | from the first window on, Check agrees with the test's reference scan over the windows |
| RangeCheck.CheckerMeetsWindows | common/rangecheck.go:155-186 | the checker NewIntervalCheckerSliceLookup builds from accepted raw windows answers every lookup at a non-negative second as the windows mean |
| RangeCheck.CheckBeforeEpoch | common/rangecheck.go:172-186 | a second a minute or more before 0 is not covered and gets the first start as the next opening; a second in the minute before 0 truncates to minute 0 and gets the answer of second 0 |
| RangeCheck.CheckerBeforeEpoch | common/rangecheck.go:155-186 | the same two facts for the checker built from accepted raw windows |
| ModelStop.Model.constructor | model.go:192-236 | an unlocked model with the given epoch, no stops and no stop-to-vehicle assignments |
| ModelStop.Model.Lock | model.go:746-747 | locking freezes the model and clears the stop-to-vehicle map |
| ModelStop.Model.NewStop | model.go:766-782 | a locked model refuses with Locked and is unchanged; otherwise a fresh stop gets the next index |
| ModelStop.NewModel | model.go:192-236 | always an empty, unlocked model on the Unix epoch: the epoch is fixed at 1970-01-01 (model.go:203), so the minute-boundary refusal (model.go:219-222) never fires |
| ModelStop.WindowsError | model_stop.go:223-273 | no error exactly when every window is valid, and then every window ends no earlier than it starts |
| ModelStop.WindowsErrorFirst | model_stop.go:223-273 | an error names the first invalid window: all before it are valid |
| ModelStop.Relative | model_stop.go:223-273 | every window shifted by the model's epoch |
| ModelStop.RelativeLoop | model_stop.go:257-263 | the conversion loop computes the windows relative to the epoch |
| ModelStop.RelativeAligned | model_stop.go:223-273 | valid windows relative to a whole-minute epoch are on minute boundaries and not inverted |
| ModelStop.Stop.SetWindows | model_stop.go:223-273 | Locked when the model is locked; an empty list changes nothing; an invalid window gives the first validation error; otherwise the relative windows are stored, and the checker is replaced exactly when it can be built, or the checker's error is returned and the old checker stays; nothing else changes |
| ModelStop.Stop.SetEarliestStart | model_stop.go:275-284 | Locked when the model is locked; otherwise the earliest start is stored relative to the epoch; nothing else changes |
| ModelStop.Stop.Validate | model_stop.go:290-298 | fails, with that error, exactly when a stop has both an earliest start and windows |
| ModelStop.Stop.ToEarliestStartValue | model_stop.go:302-318 | with windows, the arrival or the checker's next opening; without windows and without an earliest start, the arrival itself; with an earliest start, the larger of the arrival and the earliest start |
| ModelStop.EarliestStartMeetsWindows | model_stop.go:302-318 | for every arrival: at or after the epoch, an arrival inside a window is kept, one before a later window moves to the earliest opening after it, one after every window start is kept; a minute or more before the epoch, the first opening, or the arrival when that opening is second 0; in the minute before the epoch, the answer of second 0, with the arrival kept when second 0 is covered |
| ModelStopTest.TestAccepted | model_stop_test.go:14-64 | the test's windows are valid, sorted, without overlap or negative time, and accepted |
| ModelStopTest.EarliestStartScenario | model_stop_test.go:14-64 | the test's steps: windows set on a new stop of a new model, then each of the eight arrivals gives the earliest start the test expects (asserted, with no contract of its own) |
| ModelStopTest.TestCheckerShape | model_stop_test.go:14-64 | the test's checker starts at minute 1 with next opening 60 and nine minute slots |
| ModelStopTest.TestChecks | model_stop_test.go:14-64 | every lookup the test makes gives the answer the test expects |
| DirectedAcyclicGraph.ScanAsWritten | model_directed_acyclic_graph.go:254-270 | the inner arc loop as written: a rejection always names a violated direct arc, and Covered always names an arc equal to the step |
| DirectedAcyclicGraph.Scan | model_directed_acyclic_graph.go:254-270 | the corrected scan: Reject exactly when some direct arc is violated by the step, Covered exactly when none is and an arc equals the step |
| DirectedAcyclicGraph.ScanAsWrittenAgrees | model_directed_acyclic_graph.go:254-270 | when no arc is violated, the loop as written and the corrected scan agree |
| DirectedAcyclicGraph.ScanAsWrittenDependsOnArcOrder | model_directed_acyclic_graph.go:254-270 | the loop as written accepts or rejects the same step depending on arc insertion order; the corrected scan rejects (see Findings) |
| DirectedAcyclicGraph.AddArcKeepsValid | model_directed_acyclic_graph.go:84-126 | adding an arc, whatever the outcome, keeps the graph's indexes consistent, direct arcs unique per end and the recorded arcs acyclic |
| DirectedAcyclicGraph.AddArcTo | model_directed_acyclic_graph.go:84-126 | addArc on the graph's value: the direct-arc rules, then the edge added and the cycle test, then the arc recorded; its properties are AddArcKeepsValid, CycleRefused, StuckOnceCyclic, ReAddSucceeds and AddArcRecords (no contract of its own) |
| DirectedAcyclicGraph.CycleRefused | model_directed_acyclic_graph.go:105-112 | an arc that would close a cycle is refused with WouldCreateCycle and the recorded arcs are unchanged |
| DirectedAcyclicGraph.StuckOnceCyclic | model_directed_acyclic_graph.go:84-112 | once a refused edge has left the adjacency cyclic, no arc is recorded any more and the adjacency stays cyclic; an addition passes exactly when it re-adds the direct arc its origin already has (lines 86-94) |
| DirectedAcyclicGraph.ReAddSucceeds | model_directed_acyclic_graph.go:86-102 | adding an arc that is already present succeeds, and a present direct arc leaves the graph as it was |
| DirectedAcyclicGraph.SecondDirectArcRefused | model_directed_acyclic_graph.go:86-102 | a second direct arc out of the same stop is refused and the graph is unchanged |
| DirectedAcyclicGraph.SecondInboundDirectArcRefused | model_directed_acyclic_graph.go:86-102 | a second direct arc into the same stop is refused and the graph is unchanged |
| DirectedAcyclicGraph.AddArcRecords | model_directed_acyclic_graph.go:84-126 | an allowed arc is appended to the arcs, the adjacency and the origin's outbound arcs, and a direct arc is indexed by its origin |
| DirectedAcyclicGraph.RebuildStep | model_directed_acyclic_graph.go:237-250 | re-adding the arcs of a valid graph one by one never fails and rebuilds the same arcs |
| DirectedAcyclicGraph.RankedIsAcyclic | model_directed_acyclic_graph.go:304-335 | edges that climb a ranking form no cycle |
| DirectedAcyclicGraph.Dag.constructor | model_directed_acyclic_graph.go:65-73 | an empty, valid graph |
| DirectedAcyclicGraph.Dag.HasDirectArc | model_directed_acyclic_graph.go:146-148 | true exactly when the direct arc is recorded |
| DirectedAcyclicGraph.Dag.IsCyclic | model_directed_acyclic_graph.go:304-318 | true exactly when the adjacency has a cycle |
| DirectedAcyclicGraph.Dag.AddEdge | model_directed_acyclic_graph.go:300-302 | appends one edge to the adjacency and changes nothing else |
| DirectedAcyclicGraph.Dag.AddArcBetween | model_directed_acyclic_graph.go:84-126 | the new state and outcome are those of the functional addArc |
| DirectedAcyclicGraph.Dag.AddArc | model_directed_acyclic_graph.go:128-144 | a missing origin, a missing destination or a locked model is refused with the graph unchanged; otherwise a plain arc is added as addArc does; the graph stays valid |
| DirectedAcyclicGraph.Dag.AddDirectArc | model_directed_acyclic_graph.go:157-173 | the same refusals; otherwise a direct arc is added as addArc does; the graph stays valid |
| DirectedAcyclicGraph.Dag.Rebuilt | model_directed_acyclic_graph.go:237-250 | a fresh valid copy with the same arcs and an adjacency holding just those arcs |
| DirectedAcyclicGraph.Dag.IsAllowed | model_directed_acyclic_graph.go:224-278 | fewer than two stops are allowed; repeated stops are an error; otherwise allowed exactly when no step breaks a direct arc and the arcs plus the steps stay acyclic |
| DirectedAcyclicGraph.Dag.FollowStops | model_directed_acyclic_graph.go:251-277 | walking the stops over a scratch copy decides `Allowed` and leaves the arcs as they were |
| DirectedAcyclicGraph.StepVerdict | model_directed_acyclic_graph.go:254-270 | the arc loop computes the corrected scan |
| DirectedAcyclicGraph.DirectArcForcesSuccessor | model_directed_acyclic_graph.go:254-270 | a stop with a direct arc must be followed by that arc's destination |
| DirectedAcyclicGraph.DirectArcForcesPredecessor | model_directed_acyclic_graph.go:254-270 | a stop that is a direct arc's destination must follow that arc's origin |
| DirectedAcyclicGraph.AllowedNeedsAcyclic | model_directed_acyclic_graph.go:271-274 | a cycle among the arcs and the steps rules the stop order out |
| Reachability.CyclicIff | model_directed_acyclic_graph.go:304-335 | the reachability test isCyclic stands for detects a cycle exactly when the edges contain a closed path |
| Reachability.HasCycleGrows | model_directed_acyclic_graph.go:105-112 | adding edges never removes a cycle |
| Reachability.HasCycleSameEdges | model_directed_acyclic_graph.go:304-335 | whether there is a cycle depends only on the set of edges |
| Reachability.CyclicGrows | model_directed_acyclic_graph.go:105-112 | the reachability test is monotone in the edges |
| Reachability.TwoCycle | model_directed_acyclic_graph.go:304-335 | an edge together with its reverse is a cycle |
| DirectedAcyclicGraphTest.Climbing | model_directed_acyclic_graph.go:84-126 | a plain arc that climbs in stop index is always accepted and keeps the graph climbing |
| DirectedAcyclicGraphTest.NewArcDuplicate | model_directed_acyclic_graph_test.go:131-142 | adding the same plain arc twice succeeds twice |
| DirectedAcyclicGraphTest.NewArcCyclic | model_directed_acyclic_graph_test.go:145-164 | 1->2, 1->3, 3->4 are accepted, and 4->1 is refused as a cycle |
| DirectedAcyclicGraphTest.IsAllowedPlainForward | model_directed_acyclic_graph_test.go:203-241 | plain arcs 1->2, 2->3 allow the orders [1,2] and [1,3] |
| DirectedAcyclicGraphTest.IsAllowedPlainBackward | model_directed_acyclic_graph_test.go:203-241 | and forbid [2,1] and [3,1] |
| DirectedAcyclicGraphTest.IsAllowedDirect | model_directed_acyclic_graph_test.go:306-363 | direct arcs 1->2, 2->3 allow [1,2] |
| DirectedAcyclicGraphTest.IsAllowedDirectRejects | model_directed_acyclic_graph_test.go:306-363 | and forbid [2,1], [1,3] and [3,1] |
| DirectedAcyclicGraphTest.IsAllowedDirectThree | model_directed_acyclic_graph_test.go:365-407 | direct arcs 1->2->3->4 allow [1,2,3] |
| DirectedAcyclicGraphTest.IsAllowedDirectThreeShuffled | model_directed_acyclic_graph_test.go:365-407 | and forbid every shuffled order of those three stops the test tries |
| DirectedAcyclicGraphTest.PlainBeforeDirect | model_directed_acyclic_graph.go:254-270 | after plain 1->2 and direct 1->3, the loop as written covers the step 1->2 although the direct arc forbids it (see Findings) |
| ModelPlanUnits.StopsUnit.constructor | model_plan_stops_unit.go:61-80 | a plan unit holding the given stops and sequence graph, without a parent |
| ModelPlanUnits.StopsUnit.NumberOfStops | model_plan_stops_unit.go:186-188 | the number of its stops |
| ModelPlanUnits.StopsUnit.Stops | model_plan_stops_unit.go:190-192 | the unit's stops, as a value, so a copy as `slices.Clone` gives (no contract of its own) |
| ModelPlanUnits.StopsUnit.SetPlanUnitsUnit | model_plan_stops_unit.go:153-160 | succeeds exactly when there is no parent yet and then records it; otherwise an error and the old parent stays |
| ModelPlanUnits.UnitsUnit.constructor | model_plan_units_unit.go:41-93 | a plan unit of plan units with the given children and flags, without a parent |
| ModelPlanUnits.UnitsUnit.PlanAll | model_plan_units_unit.go:138-140 | all members are to be planned exactly when the unit is not plan-one-of (no contract of its own) |
| ModelPlanUnits.UnitsUnit.SetPlanUnitsUnit | model_plan_units_unit.go:113-120 | succeeds exactly when there is no parent yet; otherwise an error and the old parent stays |
| ModelPlanUnits.IsFixed | model_plan_stops_unit.go:177-184 | a plan unit is fixed exactly when the recursive definition over its stops and children says so (model_plan_units_unit.go:141-148) |
| ModelPlanUnits.NewPlanUnitsUnit | model_plan_units_unit.go:41-93 | no children and repeated children are errors that leave every child alone; otherwise success exactly when no child has a parent, and then every child points to the new unit; a child that already has a parent is named in the error, and the children before it have already been given the new parent |
| ModelPlanUnits.Build | model_plan_units_unit.go:61-90 | the parent-claiming loop: success exactly when no child had a parent, else the first such child is named and only the earlier ones were claimed |
| ModelPlanUnits.NewPlanSingleStop | model_plan_stops_unit.go:61-80 | a stop that cannot be used is refused with its error and unchanged; otherwise a fresh one-stop unit with an empty graph, and the stop records the unit |
| ModelPlanUnits.CanBeUsed | model_plan_stops_unit.go:37-59 | a stop can join a plan unit exactly when it is not nil, has no plan unit yet and is not a first or last stop; the errors come in that order |
| ModelPlanUnits.Accepted | model_plan_stops_unit.go:99-118 | the length of the prefix of stops the claiming loop accepts; when it stops short, the next stop has a verdict that fails |
| ModelPlanUnits.AcceptedIff | model_plan_stops_unit.go:37-59 | every stop is accepted exactly when all are present, not yet planned, not a vehicle's first or last stop, and pairwise distinct |
| ModelPlanUnits.ArcsVerdictMeaning | model_plan_stops_unit.go:120-135 | the arc check passes exactly when every arc of the sequence joins stops of the unit |
| ModelPlanUnits.CheckArcs | model_plan_stops_unit.go:120-135 | the arc loop computes that verdict |
| ModelPlanUnits.NewPlanMultipleStops | model_plan_stops_unit.go:82-138 | fewer than two stops is an error; the accepted prefix of stops records the unit, the others are untouched; a refused stop gives its error; an arc outside the unit gives the arc error; otherwise a fresh unit with those stops and that graph |
| ModelPlanUnits.ClaimStops | model_plan_stops_unit.go:99-118 | the claiming loop writes the unit into exactly the accepted prefix and fails exactly when a stop is refused, with that stop's error |
| ModelVehicle.Vehicle.constructor | model_vehicle.go:62-91 | a vehicle whose stop list is its first and last stop |
| ModelVehicle.Vehicle.First | model_vehicle.go:101-103 | the first stop is one of the vehicle's stops |
| ModelVehicle.Vehicle.Last | model_vehicle.go:105-107 | the last stop is one of the vehicle's stops |
| ModelVehicle.Vehicle.Stops | model_vehicle.go:109-115 | the stops between the first and the last, so that first, these, last make up the whole list |
| ModelVehicle.Vehicle.AddStopVerdict | model_vehicle.go:117-165 | a stop can be added exactly when the model is unlocked, the stop is present, is no first or last stop, belongs to a plan unit and is not already on a vehicle |
| ModelVehicle.Vehicle.AddStop | model_vehicle.go:117-165 | refused stops change nothing; an accepted stop goes just before the last stop, the model records its vehicle and the stop records whether it is fixed; nothing else of the stop or the model changes |
| ModelVehicle.BeforeLast | model_vehicle.go:161-162 | inserting before the last element keeps the first and last and appends to the middle |
| ModelVehicle.NewModelVehicle | model_vehicle.go:62-91 | a first or last stop that already belongs to a plan unit is refused, first stop checked first, with both stops unchanged; otherwise an empty vehicle whose first and last stops are marked first-or-last and fixed |
| ModelVehicle.AddTwoStops | model_vehicle_test.go:12-44 | adding two stops to an empty vehicle leaves them in order between the first and last and assigns both to that vehicle |
| ModelVehicle.AddStopsScenario | model_vehicle_test.go:12-44 | after a vehicle is created, two stops added in turn stand between the first and last stop in that order, and adding the first of them again, or the vehicle's first stop, is refused (asserted, with no contract of its own) |
| ModelVehicle.AddStopRefused | model_vehicle.go:135-156 | a stop already on the vehicle is refused with that vehicle, and a first stop is refused as first or last (asserted, with no contract of its own) |
| ModelConstraintInterleave.IsViolatedPositions | model_constraint_interleave.go:349-373 | for well-ordered positions that share no end, a violation means an end of the source lies strictly inside the target; a violation needs the two spans to meet |
| ModelConstraintInterleave.ViolatedShapes | model_constraint_interleave.go:349-373 | a source nested in the target or crossing either end is a violation; disjoint spans or a target nested in the source are not |
| ModelConstraintInterleave.VerifyPlanUnitAllOnSameVehicle | model_constraint_interleave.go:248-263 | passes exactly when every plan units unit below the plan unit requires the same vehicle, otherwise fails with the given prefix |
| ModelConstraintInterleave.SourcesVerdictMeaning | model_constraint_interleave.go:288-298 | the source loop passes exactly when every source is present, has no parent and differs from the target |
| ModelConstraintInterleave.SameVehicleVerdictMeaning | model_constraint_interleave.go:310-315 | the same-vehicle loop passes exactly when every source requires the same vehicle throughout |
| ModelConstraintInterleave.VerdictPass | model_constraint_interleave.go:265-339 | DisallowInterleaving accepts exactly when target and sources are given and, if there are sources, the target is a top-level unit whose model is not locked, the sources are present, top-level, distinct and not the target, and all keep to one vehicle |
| ModelConstraintInterleave.TargetAmongSourcesRefused | model_constraint_interleave.go:288-298 | the target as one of its own sources is refused |
| ModelConstraintInterleave.DuplicateSourcesRefused | model_constraint_interleave.go:299-304 | two sources with the same index are refused |
| ModelConstraintInterleave.FindTarget | model_constraint_interleave.go:317-336 | the first registration for the target, or -1 exactly when there is none |
| ModelConstraintInterleave.RegisteredMerges | model_constraint_interleave.go:317-336 | a new target is appended; a known target keeps its sources in order, gains the new ones and keeps them free of repeats; other registrations are untouched |
| ModelConstraintInterleave.RegisteredWell | model_constraint_interleave.go:317-336 | registering keeps every registration's sources distinct and free of its target |
| ModelConstraintInterleave.UniqueAfterDistinct | model_constraint_interleave.go:330-335 | de-duplicating old plus new sources keeps the old ones as a prefix and loses only repeats |
| ModelConstraintInterleave.InterleaveConstraint.constructor | model_constraint_interleave.go:35-45 | a constraint with no registrations |
| ModelConstraintInterleave.InterleaveConstraint.DisallowedInterleaves | model_constraint_interleave.go:209-211 | the registrations, each with distinct sources that do not include its target |
| ModelConstraintInterleave.InterleaveConstraint.DisallowInterleaving | model_constraint_interleave.go:265-339 | the outcome is the verdict on the arguments; on success with sources the registration is merged in, otherwise the registrations are unchanged |
| ModelConstraintInterleave.InterleaveConstraint.Register | model_constraint_interleave.go:317-336 | the registrations become the merged registrations |
| ModelConstraintInterleave.CheckSources | model_constraint_interleave.go:288-298 | the source loop computes the source verdict |
| ModelConstraintInterleave.CheckSourcesSameVehicle | model_constraint_interleave.go:310-315 | the loop computes the same-vehicle verdict |
| Unique.UniqueKeys | model_constraint_interleave.go:299-304 | UniqueDefined keeps one element per key, and every key of the input survives |
| Unique.UniqueDefined | model_constraint_interleave.go:299-304 | at most as long as the input and made of its elements; UniqueKeys and UniqueOfDistinct state the rest |
| Unique.UniqueOfDistinct | model_constraint_interleave.go:299-304 | a sequence with distinct keys is returned unchanged |
| Unique.UniqueSameLength | model_constraint_interleave.go:299-304 | the length is kept exactly when the keys are distinct, which is the duplicate test the source makes |
| Unique.DroppedWhenRepeated | model_constraint_interleave.go:299-304 | a repeated key shortens the result |
| ModelConstraintNoMix.NewNoMixConstraint | model_constraint_no_mix.go:39-66 | each stop's item goes to the insert table when its quantity is positive, otherwise to the remove table with the quantity negated |
| ModelConstraintNoMix.SplitRejoins | model_constraint_no_mix.go:39-66 | the two tables split the stops, inserts are positive, removes are not negative, and together they give back the deltas |
| ModelConstraintNoMix.Validate | model_constraint_no_mix.go:68-184 | passes exactly when the tables are consistent; exactly one empty table is the one-kind-missing error; a two-items error names a stop in both tables, a mixed-names error a plan unit with two names, a non-zero-delta error a plan unit whose quantities do not cancel |
| ModelConstraintNoMix.TallyInserts | model_constraint_no_mix.go:86-108 | the insert loop records every insert's name and quantity per plan unit, or fails exactly on a name clash |
| ModelConstraintNoMix.CountInsert | model_constraint_no_mix.go:86-108 | one step of that loop |
| ModelConstraintNoMix.TallyRemoves | model_constraint_no_mix.go:109-140 | the remove loop adds every remove, or fails on a stop in both tables or a name clash |
| ModelConstraintNoMix.CountRemove | model_constraint_no_mix.go:109-140 | one step of that loop |
| ModelConstraintNoMix.CheckDeltas | model_constraint_no_mix.go:142-182 | passes exactly when every plan unit's quantities cancel, else names one that does not |
| ModelConstraintNoMix.GatheredAll | model_constraint_no_mix.go:86-140 | after both loops, every plan unit's tally is its net quantity and its name is unique |
| ModelConstraintNoMix.RunLoad | model_constraint_no_mix.go:225-314 | along a route, the carried quantity is the net of the inserts and removes so far and never negative |
| ModelConstraintNoMix.UpdateStopData | model_constraint_no_mix.go:241-313 | the stop data after one stop: an insert into a vehicle carrying another kind, or a remove of the wrong kind or too much, is refused; RunLoad and RunNoMix state the rest (no contract of its own) |
| ModelConstraintNoMix.Run | model_constraint_no_mix.go:225-314 | UpdateConstraintStopData applied stop by stop from the empty first stop, up to the first refusal; RunLoad and RunNoMix state its meaning (no contract of its own) |
| ModelConstraintNoMix.RunNoMix | model_constraint_no_mix.go:225-314 | an insert happens only into an empty vehicle or one carrying the same item |
| ModelConstraintNoMix.UnbalancedRefused | model_constraint_no_mix.go:142-182 | a pickup of 1 with a delivery of 2 is inconsistent |
| ModelConstraintNoMix.MixedRefused | model_constraint_no_mix.go:86-140 | items of two names in one plan unit are inconsistent |
| ModelConstraintNoMix.PickupDeliveryAccepted | model_constraint_no_mix.go:68-184 | a matching pickup and delivery is consistent |
| DurationGroupsExpression.DurationGroups.constructor | factory/duration_groups_expression.go:15-28 | one slot per stop and per vehicle end, every group index -1 and every duration 0 |
| DurationGroupsExpression.DurationGroups.Value | factory/duration_groups_expression.go:182-198 | the duration of arriving at a stop: its own, plus its group's when coming from outside the group |
| DurationGroupsExpression.AddedGroupValue | factory/duration_groups_expression.go:163-198 | after a group is added, a move inside the group costs the stop duration, a move into it adds the group duration, and all other moves cost as before |
| DurationGroupsExpression.DurationGroups.SetStopDuration | factory/duration_groups_expression.go:130-136 | only the stop's own duration and stop entry change |
| DurationGroupsExpression.DurationGroups.AddGroup | factory/duration_groups_expression.go:163-175 | the stops are joined to the new group up to the first stop already in a group, which is named in the error with the group duration left unset; if none is, the group duration is set |
| DurationGroupsExpression.DurationGroups.JoinStops | factory/duration_groups_expression.go:165-172 | the joining loop writes the group into exactly the stops before the first conflict |
| DurationGroupsExpression.Joining | factory/duration_groups_expression.go:165-172 | the number of stops joined: none of these conflicts, and the next one does |
| DurationGroupsExpression.StepConflict | factory/duration_groups_expression.go:165-172 | a stop conflicts exactly when it already has a group at that point |
| DurationGroupsExpression.AddedGroupGrouped | factory/duration_groups_expression.go:163-175 | after the loop every group index is below the new count |
| DurationGroupsExpression.WrittenSlots | factory/duration_groups_expression.go:165-172 | the loop changes exactly the slots of the joined stops |
| DurationGroupsExpression.DurationGroups.SetGroupDuration | factory/duration_groups_expression.go:78-98 | the stops' common group gets the duration, anything else is an error and no duration changes |
| DurationGroupsExpression.GroupOfIff | factory/duration_groups_expression.go:87-95 | the stops have a common group exactly when they are not empty and all share one non-negative group |
| ModelExpressionCustom.ExpandSlice | model_expression_custom.go:408-418 | a slice longer than required is kept; otherwise it is padded to the maximum length with the default |
| ModelExpressionCustom.PaddedLookups | model_expression_custom.go:408-430 | padding with the default changes no lookup |
| ModelExpressionCustom.StopExpression.constructor | model_expression_custom.go:109-137 | no values, and the sign flags say whether the default is positive or negative |
| ModelExpressionCustom.StopExpression.Value | model_expression_custom.go:325-335 | the stored value of the origin (or, for a to-expression, the destination) stop, the default outside the stored range; PaddedLookups and SetValue state its meaning (no contract of its own) |
| ModelExpressionCustom.StopExpression.SetValue | model_expression_custom.go:299-323 | a locked model refuses and nothing changes; otherwise the stop's value reads back, every other stop's value is kept, and each sign flag is raised by a value of that sign and never lowered |
| ModelExpressionCustom.SetPairLookup | model_expression_custom.go:657-691 | after setting a pair, that pair reads the new value and every other pair its old one |
| ModelExpressionCustom.SetPairValues | model_expression_custom.go:657-678 | setting a pair adds at most the new value to the stored values |
| ModelExpressionCustom.SetPairCovered | model_expression_custom.go:657-678 | the sign flags keep covering the signs of every stored value |
| ModelExpressionCustom.FromToExpression.constructor | model_expression_custom.go:169-182 | no pair values, and flags from the default |
| ModelExpressionCustom.FromToExpression.Value | model_expression_custom.go:680-691 | the pair's value when one is stored, the default otherwise; SetPairLookup states its meaning (no contract of its own) |
| ModelExpressionCustom.FromToExpression.SetValue | model_expression_custom.go:657-678 | a locked model refuses and nothing changes; otherwise the pair is set and the sign flags raised by the value's sign |
| SolutionStop.Detached | solution_stop.go:347-356 | detaching keeps the links well formed |
| SolutionStop.IsPlanned | solution_stop.go:132-134 | a stop is planned exactly when its next and previous stops differ (a definition) |
| SolutionStop.IsFirst | solution_stop.go:323-326 | a stop is first exactly when it is its own previous stop and not its own next one (a definition) |
| SolutionStop.IsLast | solution_stop.go:317-320 | a stop is last exactly when it is its own next stop and not its own previous one (a definition) |
| SolutionStop.Attached | solution_stop.go:358-368 | attaching keeps the links well formed |
| SolutionStop.DetachedUnplanned | solution_stop.go:347-356 | a detached stop points to itself both ways, is on no vehicle and is neither planned, first nor last |
| SolutionStop.DetachJoins | solution_stop.go:347-356 | the neighbours of the detached stop are joined to each other and no other link changes |
| SolutionStop.AttachSplices | solution_stop.go:358-368 | the stop is spliced in after the given stop, takes that stop's vehicle, and no other link changes |
| SolutionStop.AttachThenDetach | solution_stop.go:347-368 | attaching a stop and detaching it again restores the links |
| SolutionStop.DetachThenAttach | solution_stop.go:347-368 | detaching a stop and attaching it after its old predecessor restores the links |
| SolutionStop.DetachKeepsLinked | solution_stop.go:347-356 | detaching keeps next and previous inverse to each other |
| SolutionStop.AttachKeepsLinked | solution_stop.go:358-368 | attaching keeps next and previous inverse to each other |
| SolutionStop.FirstLastPlanned | solution_stop.go:132-134 | a first or last stop is planned, and never both first and last (solution_stop.go:317-326) |
| SolutionStop.Solution.constructor | solution_stop.go:347-368 | a solution over three distinct, well-formed link arrays |
| SolutionStop.Solution.Detach | solution_stop.go:347-356 | the arrays become the detached links |
| SolutionStop.Solution.Attach | solution_stop.go:358-368 | the arrays become the attached links, and the result is the stop attached after |
| SolutionPlanUnitCollection.AddIndexed | solution_plan_unit_collection.go:120-126 | adding a present unit changes nothing; an absent one is appended and indexed |
| SolutionPlanUnitCollection.RemoveIndexed | solution_plan_unit_collection.go:128-140 | removing an absent unit changes nothing; a present one is removed, only it, and the index stays exact |
| SolutionPlanUnitCollection.AddThenRemove | solution_plan_unit_collection.go:120-140 | adding an absent unit and removing it again restores the collection |
| SolutionPlanUnitCollection.KeysCounted | solution_plan_unit_collection.go:112-114 | the index holds one key per unit |
| SolutionPlanUnitCollection.Collection.constructor | solution_plan_unit_collection.go:58-73 | the index maps each unit's key to its position; the collection is valid when the keys are distinct |
| SolutionPlanUnitCollection.Collection.Size | solution_plan_unit_collection.go:112-114 | the number of indexed units |
| SolutionPlanUnitCollection.Collection.SolutionPlanUnits | solution_plan_unit_collection.go:104-106 | a copy with the same units |
| SolutionPlanUnitCollection.Collection.SolutionPlanUnit | solution_plan_unit_collection.go:157-164 | none exactly when no unit has the key, otherwise a unit with that key |
| SolutionPlanUnitCollection.Collection.Add | solution_plan_unit_collection.go:120-126 | the collection becomes the functional addition and stays valid |
| SolutionPlanUnitCollection.Collection.Remove | solution_plan_unit_collection.go:128-140 | the collection becomes the functional removal (last unit moved into the gap) and stays valid |
| SolveParameters.NormalizedDelta | solve_parameters.go:42-92 | the delta keeps its size, is made negative at the minimum and positive at the maximum |
| SolveParameters.StepKeepsInv | solve_parameters.go:111-135 | an update keeps the value between minimum and maximum |
| SolveParameters.ImprovementResets | solve_parameters.go:111-135 | an improvement resets the patience counter and, with snap-back, the value and delta to their starts |
| SolveParameters.StepAtBoundary | solve_parameters.go:111-135 | once patience runs out the direction flips at a boundary and the value moves by the delta, clamped |
| SolveParameters.ZigzagIgnored | solve_parameters.go:111-135 | the zigzag flag has no effect on an update |
| SolveParameters.PatienceKeepsValue | solve_parameters.go:111-135 | non-improving scores within the patience only count iterations |
| SolveParameters.RunKeepsInv | solve_parameters.go:111-135 | any run of updates keeps the value in range |
| SolveParameters.IntParameter.constructor | solve_parameters.go:42-92 | the parameter starts at its start value with the normalized delta and a zero counter |
| SolveParameters.IntParameter.Update | solve_parameters.go:111-135 | the state after an update is one step of the update function |
| SolveParameters.NewSolveParameter | solve_parameters.go:42-92 | a negative patience, a start below the minimum or above the maximum is an error, first match wins, exactly then; otherwise a valid parameter at its start value |
| SolveParameters.ConstParameter.constructor | solve_parameters.go:25-27 | a constant parameter holding the value |
| SolveParameters.ConstParameter.Update | solve_parameters.go:141-146 | an update changes nothing |
| ObjectiveCapacity.Definition | factory/objective_capacity.go:49-104 | a token defines a key exactly when it splits at "=" into that key and one value |
| ObjectiveCapacity.Triples | factory/objective_capacity.go:49-104 | one parsed objective per three tokens |
| ObjectiveCapacity.CollectOk | factory/objective_capacity.go:30-107 | the objectives parse exactly when every triple does |
| ObjectiveCapacity.CollectErrorStays | factory/objective_capacity.go:30-107 | the first error is the one returned |
| ObjectiveCapacity.CapacityObjectivesShape | factory/objective_capacity.go:30-48 | an empty option gives no objectives, a token count that is not a multiple of three is an error naming it, and a success gives one objective per triple |
| ObjectiveCapacity.TripleOf | factory/objective_capacity.go:49-104 | a triple written as name=, factor= and offset= parses back to that objective |
| ObjectiveCapacity.TokensRoundTrip | factory/objective_capacity.go:49-104 | a list of objectives written as tokens parses back to the same list |
| ObjectiveCapacity.CapacityObjectivesRoundTrip | factory/objective_capacity.go:30-107 | objectives written out with ";" between the tokens parse back to the same objectives |
| ObjectiveCapacity.ParseCapacityObjectives | factory/objective_capacity.go:30-107 | the loop computes the functional parse |
| Strings.JoinSplit | factory/objective_capacity.go:35 | splitting and joining again at the same separator gives the text back |
| Strings.SplitJoin | factory/objective_capacity.go:35 | joining pieces without the separator and splitting again gives the pieces back |
| FactoryPlanUnits.AllSequences | factory/plan_units.go:120-180 | no pairs give no groups, and the groups partition the pairs |
| FactoryPlanUnits.BuildUnits | factory/plan_units.go:128-172 | the units built from the pairs group every pair with the stops they join |
| FactoryPlanUnits.AddSequence | factory/plan_units.go:130-172 | adding one pair keeps the grouping of the pairs seen so far |
| FactoryPlanUnits.MergeUnits | factory/plan_units.go:182-206 | two units are merged into the lower one, the higher is removed, and the stop index stays exact |
| FactoryPlanUnits.Reindex | factory/plan_units.go:194-198 | the stops of a unit point to the new position, others unchanged |
| FactoryPlanUnits.ReindexAll | factory/plan_units.go:194-198 | every stop points to its unit's position |
| FactoryPlanUnits.MergedConcat | factory/plan_units.go:182-206 | merging adds exactly the joining pair to the pairs |
| FactoryPlanUnits.MergedWellFormed | factory/plan_units.go:182-206 | merging keeps every unit's stops the ends of its pairs |
| FactoryPlanUnits.MergedGrouped | factory/plan_units.go:182-206 | merging keeps the grouping |
| FactoryPlanUnits.ToExistingUnitGrouped | factory/plan_units.go:208-220 | a pair with one new stop joins the unit of its other stop and keeps the grouping |
| FactoryPlanUnits.SameUnitGrouped | factory/plan_units.go:130-172 | a pair inside one unit is added to it |
| FactoryPlanUnits.NewUnitGrouped | factory/plan_units.go:130-172 | a pair of two new stops starts a unit |
| FactoryPlanUnits.GroupsDisjoint | factory/plan_units.go:120-180 | two units share no stop |
| FactoryPlanUnits.GroupedPartition | factory/plan_units.go:120-180 | the units' pairs partition the input pairs |
| MoveStopsGenerator.CombineAscending | solution_move_stops_generator.go:257-274 | the generator yields the ascending combinations in order, up to the first point where the stop callback says to stop |
| MoveStopsGenerator.FullShape | solution_move_stops_generator.go:257-274 | every yielded combination extends the prefix to length n, ascending, with values from the last prefix value (or 1) to m |
| MoveStopsGenerator.FullComplete | solution_move_stops_generator.go:257-274 | every such combination is yielded |
| MoveStopsGenerator.TwoOverThree | solution_move_stops_generator.go:240-255 | two over three gives 11, 12, 13, 22, 23, 33 as the comment says |
| MoveStopsGenerator.ThreeOverTwo | solution_move_stops_generator.go:240-255 | three over two gives 111, 112, 122, 222 |
| MoveStopsGenerator.StopSuppressesAll | solution_move_stops_generator.go:257-274 | once the callback says stop, nothing more is yielded |
| MoveStopsGenerator.EmitConcat | solution_move_stops_generator.go:257-274 | yielding two lists in turn is yielding their concatenation |
| PyJson.Dumps | src/nextroute/options.py:160 | only a string is written starting with a double quote, and a string is written as its escaped text in quotes |
| PyJson.NatTextRoundTrip | nextroute/options.py:90 | the decimal text of a number reads back as that number |
| PyJson.FloatTextWhole | nextroute/options.py:90-92 | a whole float is written as the integer followed by ".0" |
| PyJson.ShortestFloatText | nextroute/options.py:90-92 | a fraction held in shortest form is written without a trailing zero, as repr writes it |
| PyJson.EscapePlain | src/nextroute/options.py:160-164 | printable ASCII text without quotes or backslashes is written unchanged |
| PyJson.PyEqReflexive | src/nextroute/options.py:155 | every value equals itself |
| PyJson.PyEqSymmetric | src/nextroute/options.py:155 | Python's == is symmetric |
| PyJson.PyEqSameKind | src/nextroute/options.py:155 | apart from numbers of different kinds, Python's == is equality of values |
| FlatOptions.ToArgs | src/nextroute/options.py:136-181 | the arguments are those of every field compared with the default options |
| FlatOptions.FieldArgs | src/nextroute/options.py:152-179 | the field loop concatenates each field's tokens |
| FlatOptions.EntrySkipped | src/nextroute/options.py:155-173 | a field gives no tokens exactly when it equals its default or is False |
| FlatOptions.EntryTokens | src/nextroute/options.py:158-179 | a field that gives tokens starts with its flag, and gives one token for True and two otherwise |
| FlatOptions.ArgsAppend | src/nextroute/options.py:152-179 | the arguments of two runs of fields are concatenated |
| FlatOptions.AllDefaultsNoArgs | src/nextroute/options.py:153-156 | fields that all equal their defaults give no arguments |
| FlatOptions.DefaultOptionsNoArgs | src/tests/test_options.py:58-60 | the default options give no arguments |
| FlatOptions.FlagNameRoundTrip | src/nextroute/options.py:158 | the flag name determines the field name |
| FlatOptions.DurationText | src/nextroute/options.py:160-162 | a duration field is written as its float text followed by "s" |
| FlatOptions.StringText | src/nextroute/options.py:160-165 | a string field is written without its quotes |
| FlatOptions.ArgsPicked | src/nextroute/options.py:152-179 | when only some fields differ from their defaults, the arguments are just those fields' tokens |
| FlatOptions.ScenarioArgs | src/tests/test_options.py:63-83 | the options of the test give exactly the expected argument list |
| FlatOptions.SetField | src/nextroute/options.py:210 | setting a field changes that field only |
| FlatOptions.ExtractFromDict | src/nextroute/options.py:183-212 | the loop computes the functional extraction from the default options |
| FlatOptions.ExtractedValues | src/nextroute/options.py:199-212 | each field takes the value of the last dictionary key that upper-cases to it, or keeps its value; unknown keys are ignored |
| FlatOptions.ExtractedFails | src/nextroute/options.py:206-208 | the extraction fails exactly when some verbosity value is not a verbosity |
| FlatOptions.ExtractedKeepsFields | src/nextroute/options.py:199-212 | no field is lost |
| FlatOptions.ExtractedErrorStays | src/nextroute/options.py:199-212 | the first failure ends the extraction |
| NestedOptions.DictSetGet | nextroute/options.py:110-128 | setting a key reads it back and leaves every other key as it was |
| NestedOptions.DictSetDistinct | nextroute/options.py:110-128 | setting keeps the keys distinct |
| NestedOptions.FlatDict.constructor | nextroute/options.py:102 | an empty dictionary |
| NestedOptions.FlatDict.Set | nextroute/options.py:119-128 | the entries become those of the updated dictionary |
| NestedOptions.SetChildrenInto | nextroute/options.py:110-128 | the recursive helper writes the functional set-children result |
| NestedOptions.FlattenNested | nextroute/options.py:99-107 | a fresh dictionary holding the functional flattening |
| NestedOptions.FlattenShape | nextroute/options.py:99-128 | the flattened keys are distinct, start with "-" and hold no dictionaries |
| NestedOptions.FlattenLeaves | nextroute/options.py:99-128 | with distinct paths, flattening lists the leaves in order |
| NestedOptions.LeafStored | nextroute/options.py:116-128 | None and other non-dictionary values are stored under their key unchanged |
| NestedOptions.EmptyDictVanishes | nextroute/options.py:122-126 | an empty dictionary leaves no key |
| NestedOptions.ToArgs | nextroute/options.py:72-96 | the arguments of the flattened dictionary |
| NestedOptions.ArgsShape | nextroute/options.py:85-94 | two tokens per flattened entry: the key without underscores, then its value |
| NestedOptions.TokenForms | nextroute/options.py:88-92 | the key token has no underscore, a duration value ends in "s", and other values are their JSON text |
| NestedOptions.ParallelRunsToken | nextroute/options.py:88 | "-solve.parallel_runs" becomes "-solve.parallelruns" |
| NestedOptions.ScenarioFlatten | tests/nextroute_python/test_options.py:70-96 | the test's nested dictionary flattens to the expected dictionary |
| NestedOptions.ScenarioToArgs | tests/nextroute_python/test_options.py:98-185 | five of the test's forty defaults (check.duration, check.verbosity, solve.iterations, solve.duration, solve.parallel_runs) give their expected ten tokens, in the test's order |

`ModelPlanUnits` also defines `PlanAll` as the negation of `planOneOf`
(model_plan_units_unit.go:134-140). It is a plain predicate without a
contract of its own.

## Left out

- Floats: a float is modelled by its shortest decimal digits, written in fixed notation only. Exponent notation, negative zero, NaN and infinities are not modelled. Go float64 values are modelled as `real`; times are whole seconds.
- PyJson.Value: a float is meant in its shortest form (`PyJson.ShortestFloat`); other pairs, such as Float(50, 2), print as "0.50", which repr never writes. Every float the model's scenarios and defaults write down is whole, with scale 0.
- Text: case mapping covers ASCII letters only. Python's dictionary equality ignores key order; the model compares entry lists.
- `to_dict` is not modelled; the model starts from its result, and pydantic's value coercion is taken as given. `hasattr` is modelled by the data fields alone.
- DurationGroupsExpression.DurationGroups.SetStopDuration, DurationGroupsExpression.DurationGroups.AddGroup, DurationGroupsExpression.DurationGroups.SetGroupDuration: a stop index outside the expression's arrays, and in AddGroup more groups than the group array holds, make Go panic on the slice index. These methods require instead that neither happens, so the panics are not modelled.
- StopExpression.SetValue, FromToExpression.SetValue: the model's lock flag and the number of stops are parameters. SetValue requires the index to be below the number of stops; the source reads it from the stop, where it always is.
- FlatOptions.ScenarioArgs: stated for any options holding the test's four values with every other field at its default, not for the test's pydantic object itself.
- NestedOptions.ScenarioToArgs: models 5 of the 40 default entries the test compares (check.duration, check.verbosity, solve.iterations, solve.duration and solve.parallel_runs); the other 35 entries, the format and model sections, and their 70 tokens are not stated.
- ModelConstraintNoMix: Go's random map iteration order is modelled by a choice over the remaining keys, so the model proves the verdict for every order. Error messages are variants of an error type. Checks the source makes that can never fail are omitted.
- The rest of `lock` (model.go:614-750) is not modelled: building plan units, vehicles and the initial solution. Stop.Validate is a function of its own rather than the call from there.
- FactoryPlanUnits.AllSequences: the order of the groups and the connectivity of each group are not stated; the properties proved are the partition and the grouping of joined stops. The `direct` field of a sequence (factory/data.go:47-51) is not modelled: it does not affect the grouping.
- ObjectiveCapacity: float parsing (`strconv.ParseFloat`) is a parameter. ParseTriple has no contract of its own; TripleOf and the round trips state its meaning, and its error order follows the source.
- DirectedAcyclicGraph.Dag.AddArcBetween: does not require or ensure validity itself; the callers get it from AddArcKeepsValid.
- Reachability: isCyclicUtil's depth-first search with visited and recursion-stack sets is modelled by a reachability fixpoint, not step by step.
- MoveStopsGenerator.CombineAscending: the Go slice that is reused between yields, and the channel, are not modelled; the `shouldStop` callback is modelled as a function of what has been yielded so far.
- RangeCheck.NewIntervalCheckerSliceLookup: requires at least one window and no inverted window (start after end). The source indexes the first window, so no windows panic. Its slot table has int(last end / 60) + 1 - int(first start / 60) entries after sorting. An inverted window can make that negative, which panics: [[200,50]] gives -2. It can also leave it at zero, an empty table that Check answers from without a panic: [[100,50]] gives 0. The stop's SetWindows refuses inverted windows before it builds a checker, so no caller in the model reaches these cases.
- Bools.Bools.Get, Bools.Bools.Set: Go panics on an index outside the words, and for a negative index also on the negative shift `1 << (i % 64)`. These members require instead that 0 <= i < Capacity(), so the panics are not modelled.
- common/bools_test.go is modelled by Bools.BoolsScenario as assertions; its benchmark is not modelled.
- SolutionPlanUnitCollection: RandomElement and RandomDraw depend on a random source and are not modelled; nor are the iteration helpers.
- ModelExpressionCustom: only the custom stop and stop-pair expressions are modelled; the vehicle-type, constant and distance expressions are not part of this model.
- DirectedAcyclicGraph: the OutboundArcs and Arcs accessors only return stored fields and are not modelled separately.
- ModelVehicle.Vehicle.AddStop, ModelVehicle.Vehicle.AddStopVerdict: with a locked model and a nil stop, Go formats `stop.ID()` into the locked-model error (model_vehicle.go:122-127) before its nil test and panics; the model returns ModelLocked there.
- Unique.UniqueDefined: the body of `common.UniqueDefined` is not part of this model; keeping the first element of each key is assumed. The source only uses it to de-duplicate and, through the length, to detect duplicates; UniqueSameLength holds for any rule that keeps one element per key.
- Integer width: Go's `int` and `int64` are 64-bit and wrap on overflow, while the model's `int` is unbounded. This matters in SolveParameters.IntParameter.Update, where `value + delta` could wrap before the clamping to minimum and maximum; the model does not wrap. Indices, counts and times stay far from the limit.
- ModelVehicle: the vehicle's vehicle type, ID and the solution-side vehicle are not modelled.
- Concurrency, I/O, logging and the solver's search are not part of this model.

## Findings

| source | as written | input that shows it | evidently intended | confidence | as-written member | corrected member |
|---|---|---|---|---|---|---|
| common/rangecheck.go:72 | the guard before the windows compares the minute counter i, not the window index, with 0, so it can read the window before the first | windows [[90,200]] (seconds): at minute 1 (second 60) the only window, index 0, starts later, i-1 >= 0 holds, and `intervals[-1]` is read | look at the previous window only when the window index is above 0 | not executed | RangeCheck.ScanAsWrittenPanicsBeforeStart | RangeCheck.Scan |
| common/rangecheck.go:76 | the guard past the windows compares the minute counter, not the window index, with the window count, so it can read one past the last window | windows [[0,0],[0,0]]: at minute 0 the second window, index 1, has ended, i+1 < 2 holds, and `intervals[2]` is read | read a window only while the window index is below the count | not executed | RangeCheck.ScanAsWrittenPanicsAfterEnd | RangeCheck.CheckMeaning |
| model_directed_acyclic_graph.go:254-270 | the scan over all recorded arcs stops at the first arc equal to the step (`continue LoopStops`), so a direct arc recorded after it is never checked, whether it leaves the step's origin or enters its destination | plain arc 1->2, then direct arc 1->3; the order [1,2] is allowed although the direct arc requires 3 to follow 1 | check every direct arc, leaving the origin or entering the destination, before accepting a step | not executed | DirectedAcyclicGraph.ScanAsWrittenDependsOnArcOrder | DirectedAcyclicGraph.Dag.IsAllowed |

The graph's `addArc` (model_directed_acyclic_graph.go:105-112) adds the edge
to the adjacency before testing for a cycle and does not take it out when it
refuses the arc. The model keeps this as written: `StuckOnceCyclic` states
that no arc is recorded any more, and that every later addition is refused
except re-adding a direct arc the origin already has.
