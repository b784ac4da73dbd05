# EdgeWatch: verified model of the scheduling, address and slot logic

EdgeWatch watches a network surface: it scans jobs on cron schedules, tells which
parts of a declared address space its monitors cover, and shares scan slots among
tenants. This project models the arithmetic and the protocols behind that in Dafny
and proves that each fast or concurrent form does what its simple meaning says.

- **Scan-slot demand.** How many runs a cron schedule can start when each run
  blocks later ticks. The meaning is a tick-by-tick simulation (`ScheduleTicks`).
  `DayWalk` and `OrdinaryDays` walk ordinary days with a memo and a jump over
  repeating days; `EveryMinute` is the closed form for schedules that tick every
  minute; `ScheduleRuns` holds the whole-minute run and the run that fits every
  gap; `Calendar`, `DaySpans` and `ScheduleExpansion` expand a schedule month by
  month into spans of days; `Projection` and `ScanDemand` walk the spans within the
  budgets of `WorkBudget` and remember projections. `RankOrder` and `RankCache` are
  the bounded heap of duration keys.
- **Address space.** `AddressRanges` merges, subtracts, intersects and counts
  ranges; `AlignedBlocks` and `CidrCover` cover a range by the fewest CIDRs;
  `FirstFit` is plain first fit, and `PackedRuns`, `MonitorPacking` and
  `SpacePacking` show that counted runs, splits and search hints compute it.
- **Perimeter.** `PerimeterSearch` holds the binary searches, `PerimeterBoundary`
  the boundary test, `PerimeterPlan` the complete coalesced plan,
  `PerimeterCoalescing` its computation up to the output cap, and `PerimeterCounts`
  the coverage counts.
- **Slots and runs.** `SlotState`, `SlotSteps`, `SlotDispatch` and `SlotTickets`
  give the pool's state and operations; `SlotPool` is the pool itself, one method
  for each locked region; `SlotFairness` proves bounded overtaking over whole runs, and
  `SlotMemory` compares the grants with those of a pool that forgets no grant age.
  `RunRegistry` is the registry of runs, and `RunLifecycle` interleaves the locked
  regions of the registry, the pool, the queued runs and the units.
- `GoSearch` is the binary search of Go's sort package; `Division`, `FiniteSets` and
  `Optional` hold the arithmetic, sets and optional values that the others share.

Time is a number of nanoseconds. An address is a family and a number below 2^32 or
2^128, and sets of ranges are sets of *places*: positions in the order of all
addresses, with one position between the families that no address has. A grant age
is the position of the grant in the pool's log.

`dafny verify dfyconfig.toml` checks the whole project.

## Results about the code

- The every-minute closed form is exact except for a window of two minutes with a
  run of two minutes that its timeout ends: the simulation starts nothing in that
  window and the closed form counts one start. `EveryMinute.ClosedFormIsExact` states
  both values and proves that there is no other exception. A projection never meets
  it, because the sample spans four years
  (`EveryMinute.ClosedFormIsExactForLongWindows`).
- The pool does not always grant the least recently granted key: it may forget the
  grant age of an idle key, and forgotten keys and keys never granted then go by
  arrival. `SlotMemory.ForgettingChangesTheOrder` gives six calls after which a
  forgotten key is granted before one that was never granted. The pool grants as one
  that forgets nothing exactly when no eligible key without an age was granted before
  the winner (`SlotMemory.AgreesWithFullMemory`): always with at most one such key
  (`SlotMemory.AgreesWithOneForgotten`), and with several exactly when the longest
  waiting of them was also granted longest ago (`SlotMemory.AgreesWithSeveralForgotten`).
  Against keys whose age is kept the order is always right
  (`SlotMemory.GrantsLeastRecentlyGranted`), and overtaking stays bounded
  (`SlotFairness.BoundedOvertaking`).

## Model

| member | source | states |
|---|---|---|
| ScheduleTicks.SimulateConcat | internal/app/scan_slot_demand.go:1990-2010 | Simulating two tick lists one after the other, from the busy time that the first leaves, is simulating both at once |
| ScheduleTicks.SkippedIffFewerStarts | internal/app/scan_slot_demand.go:1990-2010 | A simulation skips a tick exactly when it starts fewer runs than there are ticks |
| GoSearch.Search | internal/app/scan_slot_demand.go:1880-1886 | The binary search finds the first index at which a monotone predicate holds |
| WorkBudget.Budget.Take | internal/app/scan_slot_demand.go:651-660 | A unit of work is taken from a job's budget and the request's, or from neither; no limit is ever exceeded |
| WorkBudget.Budget.WithinLimits | internal/app/scan_slot_demand.go:645-660 | No budget of the chain is ever exceeded |
| WorkBudget.Budget.RemainingIsTightest | internal/app/scan_slot_demand.go:669-675 | What remains is what the tightest budget of the chain has left, and nothing remains exactly when some budget is used up |
| WorkBudget.TakeWork | internal/app/scan_slot_demand.go:691-699 | Work is refused exactly when the budget is exhausted, and never without a budget |
| DayWalk.FromBusyIsSimulation | internal/app/scan_slot_demand.go:1879-1909 | Jumping from free tick to free tick through a day gives what simulating its every tick gives |
| DayWalk.AfterIsSimulation | internal/app/scan_slot_demand.go:1911-1964 | Walking days one at a time gives the simulation of all their ticks |
| DayWalk.FirstFreeDecides | internal/app/scan_slot_demand.go:1915-1964 | Two days with the same first free tick lead to the same starts, skips and, relative to the day, the same later busy times |
| DayWalk.AfterHeldDays | internal/app/scan_slot_demand.go:1928-1936 | Days that one run holds entirely start nothing and skip a tick |
| DayWalk.AfterRepetitions | internal/app/scan_slot_demand.go:1938-1951 | Once a state repeats, every further period adds the same starts |
| DayWalk.RevisitsEarlierState | internal/app/scan_slot_demand.go:1938-1951 | After a jump over whole periods every day has the state of a day before the jump |
| OrdinaryDays.ScheduleDayWalk.FirstFreeIndex | internal/app/scan_slot_demand.go:1879-1887 | The index found by binary search is the first tick that is free at the busy time, under both timeout rules |
| OrdinaryDays.ScheduleDayWalk.Day | internal/app/scan_slot_demand.go:1890-1909 | The remembered result of a kind of day is that of simulating it; it takes a unit for each run that the day starts, and nothing once the kind is known |
| OrdinaryDays.ScheduleDayWalk.OrdinaryDays | internal/app/scan_slot_demand.go:1915-1964 | With its memo and its jump over repeating days it returns exactly the starts, skipped flag and final busy time of the tick-by-tick simulation; a budget stops it exactly when it has less left than the walk takes, which the ticks of a day alone bound |
| OrdinaryDays.WorkIsBounded | internal/app/scan_slot_demand.go:1915-1964 | The account of visited states, revisits after the jump, held days and kinds of day bounds the work whatever the number of days |
| EveryMinute.ClosedFormIsExact | internal/app/scan_slot_demand.go:2068-2099 | The closed form equals the simulation after the two-run warm start, except when the window and the run are both two minutes under the timeout rule: there the simulation starts no run and the closed form counts one |
| EveryMinute.ClosedFormIsExactForLongWindows | internal/app/scan_slot_demand.go:2068-2099 | For every whole-minute window longer than two minutes and every run that fits it, starts and skips are exact under both timeout rules |
| EveryMinute.SimulateMinutes | internal/app/scan_slot_demand.go:2080-2095 | A simulation over minutes starts at the first free minute and then once a step |
| ScheduleRuns.ProjectedRunAgrees | internal/app/scan_slot_demand.go:1753-1773 | The projected run gives the starts and skips of the exact run with its timeout rule; on ticks whole minutes apart it is a whole number of minutes without that rule, and else the run itself |
| ScheduleRuns.MinimumGapIsMinimum | internal/app/scan_slot_demand.go:1195-1203 | The minimum gap is the gap of some two consecutive ticks and no gap is shorter |
| ScheduleRuns.MinimumGapConcat | internal/app/scan_slot_demand.go:1536-1550 | The minimum gap of joined tick lists is the least of theirs and the gap between them |
| ScheduleRuns.FitsIffEveryTickStarts | internal/app/scan_slot_demand.go:1727-1736 | From an idle start a run fits every gap if and only if every tick starts one and none is skipped |
| DaySpans.CronTicksIncrease | internal/app/scan_slot_demand.go:1402-1442 | Following the cron schedule finds strictly increasing ticks, after the search begins and from the start until the end |
| DaySpans.CronTicksAreAll | internal/app/scan_slot_demand.go:1659-1682 | On one fixed set of ticks, following the schedule finds exactly those after the beginning of the search, from the start until the end |
| DaySpans.CronSchedule.Next | internal/app/scan_slot_demand.go:683-689 | A search spends one unit of work, or finds nothing and marks the budget as exhausted |
| Calendar.WithinMonth | internal/app/scan_slot_demand.go:1472-1506 | Counting on from a date within its month gives the dates that day-by-day counting gives |
| Calendar.DateIsNumbered | internal/app/scan_slot_demand.go:1482-1506 | The date so many days later has a Gregorian day number that much greater, and its weekday is as many days on |
| Calendar.NumbersDiffer | internal/app/scan_slot_demand.go:1482-1506 | Dates with one day number are one date, so the date that day-by-day counting gives is the only one |
| Calendar.SampleDates | internal/app/scan_slot_demand.go:57-58 | The sample runs 1461 days, from Monday 1 January 2024 to Saturday 1 January 2028 |
| ScheduleExpansion.TicksAreNamed | internal/app/scan_slot_demand.go:1552-1566 | The ticks that an expansion adds are the offsets of the dates of named months whose day and weekday are both named when either field is a star, and else one of the two |
| ScheduleExpansion.StarredWeekdays | internal/app/scan_slot_demand.go:1559-1566 | With the weekdays a star, exactly the named days of the named months tick |
| ScheduleExpansion.StarredDays | internal/app/scan_slot_demand.go:1559-1566 | With the days a star, exactly the named weekdays of the named months tick |
| ScheduleExpansion.NeitherStarred | internal/app/scan_slot_demand.go:1559-1566 | With neither a star, the dates that either field names tick |
| ScheduleExpansion.AcceptedSplit | internal/app/scan_slot_demand.go:1482-1506 | The ticks of the accepted dates of a range are those of its parts |
| DaySpans.TickFromIsFirst | internal/app/scan_slot_demand.go:1659-1682 | On one fixed set of ticks the tick after a day is the first of them that is not before its end |
| ScheduleExpansion.WholeSecondsFit | internal/app/scan_slot_demand.go:1641-1648 | Days that start whole seconds after the sample and end within 2^32 seconds of it can all be stored |
| ScheduleExpansion.DayTicks | internal/app/scan_slot_demand.go:1659-1682 | Following the cron schedule through an irregular day summarises exactly its ticks, their number, first, last and shortest gap, and returns the first tick after them, with one search for each |
| ScheduleExpansion.Expansion.NoteTicks | internal/app/scan_slot_demand.go:1538-1544 | Ticks that follow the earlier ones lower the minimum gap to the least of the old one, theirs and the gap between |
| ScheduleExpansion.Expansion.AddOrdinaryDays | internal/app/scan_slot_demand.go:1511-1534 | Added days join the span they continue or open one for a unit of work; the spans denote exactly the earlier ticks and the added ones, with exact run count, minimum gap and work floor; the pattern is invalid exactly when a span cannot store the first day's start |
| ScheduleExpansion.Expansion.CronDay | internal/app/scan_slot_demand.go:1402-1442 | A day followed through the cron schedule adds exactly the schedule's ticks in it and returns the first tick after them; only a start or length that a span cannot store makes the pattern invalid |
| ScheduleExpansion.Expansion.RestrictedMonth | internal/app/scan_slot_demand.go:1494-1502 | Examining a month day by day adds exactly the ticks of its accepted dates, for one unit and one for each new span, and fails only on a day whose start a span cannot store |
| ScheduleExpansion.Expansion.OrdinaryDays | internal/app/scan_slot_demand.go:1472-1506 | Expanding a stretch at once or a month at a time adds exactly the ticks of the dates that a day-by-day filter accepts, which are those that the cron fields name; its work is one unit for each new span and each examined month, and whole-second days that end within 2^32 seconds never make the pattern invalid |
| Projection.WarmStartIsSimulation | internal/app/scan_slot_demand.go:2015-2037 | The warm start that jumps over held ticks ends as simulating every tick of the two runs before the sample does |
| Projection.SimulateSchedulePrefix | internal/app/scan_slot_demand.go:2015-2037 | The prefix is simulated from two runs before the sample, by a search for each tick that it does not jump over, or the budget is exhausted before that many |
| Projection.SimulateScheduleSpan | internal/app/scan_slot_demand.go:1990-2010 | The loop over the cron schedule's ticks is the simulation of those ticks, and takes a search for each tick after the one it begins with until the end, and one more |
| Projection.WalkScheduleDays | internal/app/scan_slot_demand.go:1813-1853 | A walk over the spans gives one tick-by-tick simulation of all their ticks and takes exactly the work of the warm start and the spans; a budget stops it exactly when it has less left |
| Projection.WalkTakesFloor | internal/app/scan_slot_demand.go:1204-1207 | A walk that yields an estimate takes at least the projection floor of its spans |
| Projection.WalkSpan | internal/app/scan_slot_demand.go:1829-1845 | One span, ordinary or cron, gives the simulation of its ticks and the last of them for exactly its work |
| ScanDemand.FoundPattern | internal/app/scan_slot_demand.go:1145-1155 | What a valid expansion found is an expanded pattern: its ticks, run count, minimum gap and floor are those of its spans, and its flags mean what they say of the ticks |
| ScanDemand.RunsForDuration | internal/app/scan_slot_demand.go:1692-1751 | A projection completes if and only if its budget has the work left that an unbudgeted walk takes; then it spends exactly that and is the unbudgeted projection, and otherwise it spends all that was left |
| ScanDemand.MeaningIsSimulated | internal/app/scan_slot_demand.go:1692-1736 | A projection yields what simulating all ticks gives: from an idle job when each tick then starts a run, and else after the warm start |
| ScanDemand.EveryMinuteTakesNoWork | internal/app/scan_slot_demand.go:1738-1751 | The closed form takes no work |
| ScanDemand.EveryMinuteMeaning | internal/app/scan_slot_demand.go:1738-1742 | For a schedule that ticks every minute the closed form yields what the walk over its days would yield |
| ScanDemand.ProjectionCache.AddProjection | internal/app/scan_slot_demand.go:812-820 | The projection joins the current generation, which first becomes the earlier one when it is full, so no projection of the current generation is forgotten and it never grows beyond the limit |
| ScanDemand.ProjectionCache.Projection | internal/app/scan_slot_demand.go:784-798 | A remembered projection is found and is in the current generation afterwards; nothing that the current generation held is forgotten |
| ScanDemand.DemandWork.Recall | internal/app/scan_slot_demand.go:527-534 | A projection is recalled exactly when this request or a recent one knows it, and is what an unbudgeted projection yields and within a job's limit |
| ScanDemand.DemandWork.Project | internal/app/scan_slot_demand.go:519-570 | What needs no projection, or is known, costs nothing. Else the second pass yields the unbudgeted projection, for exactly its work, if and only if the job has what it needs left; every refusal is of a projection that the job could not complete, those of the exceeded set included; below its floor it spends nothing; only the first pass defers, also what it could afford once the key, its schedule or the pass has used its share |
| ScanDemand.NeededIsWork | internal/app/scan_slot_demand.go:1744-1751 | The floor refuses no projection that could yield an estimate: what has to be left is just the work |
| RankOrder.LowestIsUnique | internal/app/scan_slot_demand.go:954-958 | The lowest entries up to a limit are one set however they were found |
| RankOrder.StringBeforeMeans | internal/app/scan_slot_demand.go:982-997 | An ID sorts before another when it begins it or is lower in the first character in which they differ |
| RankOrder.RanksAreOrdered | internal/app/scan_slot_demand.go:982-997 | Rank and then ID order all entries, and only equal entries compare equal |
| RankCache.RankCache.PushRank | internal/app/scan_slot_demand.go:1001-1012 | Inserting keeps the max-heap and its entries, with at most one comparison a level |
| RankCache.RankCache.PopLargest | internal/app/scan_slot_demand.go:1016-1044 | Removing the root returns the largest entry and keeps the max-heap and the other entries, with at most two comparisons a level |
| RankCache.RankCache.Retain | internal/app/scan_slot_demand.go:959-977 | After every offer the map and the heap hold the same IDs, as many as the limit allows, and each has a lower rank than every entry left out, or the same rank and the ID that sorts first; values of other IDs do not change, and the comparisons grow with the heap's depth |
| RankCache.OrderDoesNotMatter | internal/app/scan_slot_demand.go:954-958 | Two caches offered the same entries in any order remember the same keys |
| RankCache.DepthIsLogarithmic | internal/app/scan_slot_demand.go:954-958 | The heap's depth, and with it the admission work, is logarithmic |
| AddressRanges.CanonicalIsUnique | internal/addrspace/addrspace.go:47-50 | A set of addresses has one canonical form |
| AddressRanges.Merge | internal/addrspace/addrspace.go:51-80 | The union in canonical form, and no longer than the input |
| AddressRanges.Subtract | internal/addrspace/addrspace.go:83-110 | The difference in canonical form |
| AddressRanges.Intersect | internal/addrspace/addrspace.go:113-136 | The intersection in canonical form |
| AddressRanges.Difference | internal/addrspace/addrspace.go:415-420 | The two-word difference with its borrow is the difference of the ends |
| AddressRanges.MergedCount | internal/addrspace/addrspace.go:138-142 | On merged ranges the count as given is the size of their union |
| AddressRanges.CountCapped | internal/addrspace/addrspace.go:143-161 | The count is the smaller of the true count and the limit, and saturated exactly when the true count is above it |
| AlignedBlocks.TrailingZerosAlign | internal/addrspace/addrspace.go:374-386 | An address is aligned on 2^h exactly when it has at least h trailing zeros |
| AlignedBlocks.LargestBlockIsLargest | internal/addrspace/addrspace.go:363-372 | The chosen block is the largest that is aligned, starts at the address and ends within the range |
| AlignedBlocks.CoverPartitions | internal/addrspace/addrspace.go:163-180 | The greedy blocks are aligned and follow one another from the first address to the last |
| AlignedBlocks.PartitionHolds | internal/addrspace/addrspace.go:163-180 | They are in address order and apart, stay within the range and hold each of its addresses |
| AlignedBlocks.CoverIsShortest | internal/addrspace/addrspace.go:163-165 | Every collection of aligned blocks, with or without overlaps, that holds exactly the range has at least as many |
| AlignedBlocks.CoverIsShort | internal/addrspace/addrspace.go:163-180 | For every width of at least two bits there are at most 2W-2 of them |
| CidrCover.SetHostBits | internal/addrspace/addrspace.go:400-412 | Setting host bits byte by byte in place sets exactly the lowest bits of the number that the bytes write |
| CidrCover.LastAddr | internal/addrspace/addrspace.go:389-398 | The last address has the network bits of the prefix and all host bits set |
| CidrCover.FromPrefix | internal/addrspace/addrspace.go:39-45 | The range of a valid prefix holds exactly the addresses with its network bits; an invalid prefix gives no valid range |
| CidrCover.Alignment | internal/addrspace/addrspace.go:376-386 | The two-word count of trailing zeros is that of the whole address |
| CidrCover.LargestPrefix | internal/addrspace/addrspace.go:365-372 | The loop over prefix lengths ends at the largest aligned block that ends within the range |
| CidrCover.Cover | internal/addrspace/addrspace.go:166-180 | The loop produces the greedy cover, and nothing for a range that is not valid |
| FirstFit.PackConserves | internal/addrspace/addrspace.go:182-195 | Plain first fit keeps each address in as many blocks as before |
| FirstFit.PackIsTight | internal/addrspace/addrspace.go:182-195 | No plain set exceeds its size, and any two together hold more than perMonitor addresses |
| FirstFit.PackedSetsAreHalfFull | internal/addrspace/addrspace.go:182-195 | Half the number of sets, rounded down, times perMonitor+1 is at most the addresses packed |
| PackedRuns.FirstRoom | internal/addrspace/addrspace.go:282-288 | The first set with room is the first set of the first run with room |
| PackedRuns.ExpandTaken | internal/addrspace/addrspace.go:297-310 | Splitting a run and shrinking its first set changes the capacity of that set only |
| PackedRuns.HintStays | internal/addrspace/addrspace.go:271-275 | When a set takes a block, every run before a hint still has no room for the hint's size, the run that the split inserted included |
| MonitorPacking.Packing.FindRoom | internal/addrspace/addrspace.go:282-288 | Searching from the hint finds the first run in order with room, or that none has |
| MonitorPacking.Packing.SplitRun | internal/addrspace/addrspace.go:297-310 | The run's first set takes the addresses and the others become the next run; links, counts, places and hints stay right |
| MonitorPacking.Packing.AddLarge | internal/addrspace/addrspace.go:252-270 | A large block opens one set for each of its aligned pieces, of which no more than the limit are built |
| MonitorPacking.Packing.AddSmall | internal/addrspace/addrspace.go:279-314 | A small block goes where plain first fit puts it |
| SpacePacking.PackFamily | internal/addrspace/addrspace.go:236-320 | Runs, splits, hints and saturating counts yield exactly the first limit sets of plain first fit, each in address order, and the number of all of them up to the largest int |
| SpacePacking.Pack | internal/addrspace/addrspace.go:202-218 | Both families are packed on their own, IPv4 first, from the canonical form of the space; a size of zero packs nothing |
| SpacePacking.SpaceIsPartitioned | internal/addrspace/addrspace.go:182-201 | Each address of the space is in exactly one CIDR of one set of its family, and no other address is in any |
| SpacePacking.FamilyIsTight | internal/addrspace/addrspace.go:182-201 | Sets respect their size, any two sum to more than perMonitor, the sets hold the whole family, and so their number is less than about twice the fewest |
| PerimeterSearch.Clip | internal/app/perimeter_report.go:1092-1096 | The binary searches return exactly the ranges that share an address with the range, in canonical form |
| PerimeterSearch.Contains | internal/app/perimeter_report.go:1023-1026 | True if and only if every address of the range is in the merged list |
| PerimeterSearch.Overlaps | internal/app/perimeter_report.go:1100-1107 | True if and only if the ranges and the merged list share an address |
| PerimeterBoundary.CommonBits | internal/app/perimeter_report.go:1005-1013 | The first differing byte gives the number of leading bits that two addresses share |
| PerimeterBoundary.PrefixFitsBase | internal/app/perimeter_report.go:1001-1018 | True if and only if both ends are IPv4 and some aligned prefix of an allowed size inside base holds both |
| PerimeterBoundary.CanIncludeCovered | internal/app/perimeter_report.go:962-997 | Testing boundaries alone decides whether some aligned IPv4 block of an allowed size inside base has both a gap address and one that is no gap, in both directions |
| PerimeterPlan.GrowIsMaximal | internal/app/perimeter_report.go:893-901 | Expanding a piece ends at a block that contains every allowed block sharing an address with the piece |
| PerimeterPlan.TargetIsMaximal | internal/app/perimeter_report.go:893-901 | Every target is an allowed block inside base that holds a gap address and that no larger allowed block contains |
| PerimeterPlan.PlanIsSound | internal/app/perimeter_report.go:867-954 | The complete plan holds every gap and only base, its targets share no address and come in address order, every suggestion has 1 to 16 targets and at most perMonitor addresses, and alreadyCovered is the exact number of its addresses that are no gap |
| PerimeterPlan.PlanIsFilled | internal/app/perimeter_report.go:912-927 | Every suggestion but the last has 16 targets or no room for the target that the next one begins with |
| PerimeterPlan.TargetsAscend | internal/app/perimeter_report.go:929-938 | The targets come in address order |
| PerimeterPlan.PlanIncludesCovered | internal/app/perimeter_report.go:914-920 | When the boundary test succeeds, a target of the complete plan holds a covered address |
| PerimeterCoalescing.Planner.Expand | internal/app/perimeter_report.go:894-901 | The loop over parents computes the expansion |
| PerimeterCoalescing.Planner.CountCovered | internal/app/perimeter_report.go:906-911 | Counting the clipped gaps gives the number of the target's addresses that are no gap |
| PerimeterCoalescing.Planner.Add | internal/app/perimeter_report.go:893-927 | A piece adds its expansion once, starts the next suggestion when the current one has no room, and stops when the plan is too long |
| PerimeterCoalescing.Planner.Walk | internal/app/perimeter_report.go:929-938 | The recursive walk takes the parts of a block in order until the plan is too long |
| PerimeterCoalescing.CoalescedSuggestionSets | internal/app/perimeter_report.go:867-954 | The result is the complete plan for the largest block size up to 256 addresses that the budget allows, when that has at most 16 suggestions, otherwise 17 and truncated; none without gaps, budget or a coverable target |
| PerimeterCounts.Bucketed | internal/app/perimeter_report.go:560-608 | A bucket holds exactly the addresses of the covering monitors that fill it: full TCP with Naabu or with Nmap over every port, any TCP with every TCP scan, UDP with every UDP scan |
| PerimeterCounts.FullNeverExceedsAny | internal/app/perimeter_report.go:723-736 | On any space full TCP coverage never exceeds any TCP coverage |
| PerimeterCounts.CoveredCount | internal/app/perimeter_report.go:770-780 | Counting range by range gives the size of base and bucket shared, up to the report's limit |
| PerimeterCounts.Scannable | internal/app/perimeter_report.go:764-766 | The scannable space is the range without the exclusions |
| PerimeterCounts.RangeView | internal/app/perimeter_report.go:740-766 | For every IPv4 prefix and bucket, addresses = excluded + covered + uncovered, and no count saturates |
| SlotSteps.GrantKeeps | internal/app/slots.go:258-269 | A grant to a key's first waiter keeps queues, holdings, ages, totals and turn |
| SlotSteps.ForgetKeeps | internal/app/slots.go:290-328 | Dropping an idle key keeps the invariants, and its age while it still orders it against an active key |
| SlotDispatch.WinnerIsUnique | internal/app/slots.go:246-257 | The key that is granted next does not depend on the order of the map |
| SlotDispatch.ApplyKeeps | internal/app/slots.go:29-31 | After every operation no free slot coexists with an eligible waiter, the totals are the sums over keys, a key uses as many slots as it has granted calls, each key is first in first out, and keys and idle ages exist only while they matter |
| SlotDispatch.AgesAreUnique | internal/app/slots.go:258-266 | Positive grant ages are unique among active and idle keys |
| SlotMemory.GrantsLeastRecentlyGranted | internal/app/slots.go:21-27 | The key granted next had its last grant before that of every other eligible key whose age is kept, also when its own age was forgotten |
| SlotMemory.DroppedAgesSortFirst | internal/app/slots.go:300-328 | A dropped age is below every active key's |
| SlotMemory.ReturnsFirst | internal/app/slots.go:300-303 | A key that returns after its age was dropped sorts before every waiting key with an age, as its last grant in the log does |
| SlotMemory.AgreesWithFullMemory | internal/app/slots.go:21-27 | The pool grants the key that a pool which forgets nothing would grant if and only if no eligible key without an age was granted before it |
| SlotMemory.AgreesWithOneForgotten | internal/app/slots.go:21-27 | With at most one eligible key without an age the two pools agree |
| SlotMemory.AgreesWithSeveralForgotten | internal/app/slots.go:21-27 | With several, the longest waiting of them wins, and the two pools agree exactly when it also was granted longest ago |
| SlotMemory.ForgettingChangesTheOrder | internal/app/slots.go:300-328 | From the empty pool six calls lead to a dispatch that grants a forgotten key before one that was never granted |
| SlotFairness.BoundedOvertaking | internal/app/slots.go:120-132 | In every run, while a key has a waiter and is below its limit, every other key is granted at most once before it, even one that goes idle and queues again |
| SlotFairness.StepOvertakes | internal/app/slots.go:244-328 | One operation keeps the overtaken keys' ages above the waiting key's, also through forgetting and pruning |
| SlotFairness.DrainRespects | internal/app/slots.go:244-272 | A dispatch grants only within the capacity and each key's limit at that moment, and takes no slot away |
| SlotFairness.CapIsKept | internal/app/slots.go:228-238 | A dispatch gives a capped key no slot beyond its cap, and no key one beyond the capacity |
| SlotFairness.GainsWithinCap | internal/app/slots.go:228-272 | No operation brings a key above its cap or the used slots above the capacity |
| SlotFairness.OnlyCapsWait | internal/app/slots.go:29-31 | After every operation a key waits beside a free slot only when its cap is set and used up |
| SlotFairness.RulesAreSet | internal/app/slots.go:189-209 | Only setting them changes the capacity, which is never negative, and the caps |
| SlotFairness.CanceledOrReleasedIsOver | internal/app/slots.go:138-164 | Canceling a granted call and releasing it have the same effect, the call is over afterwards, and a second release changes nothing |
| SlotFairness.OverIsFinal | internal/app/slots.go:157-164 | A call that is over stays over, so its slot is returned exactly once |
| SlotPool.SlotPool.NextKey | internal/app/slots.go:246-257 | Reading the keys in any order finds the one key whose turn it is, or that none is eligible |
| SlotPool.SlotPool.PruneIdleGrants | internal/app/slots.go:304-328 | Exactly the idle ages older than every active key are dropped |
| SlotPool.SlotPool.DispatchLocked | internal/app/slots.go:244-272 | The loop ends in the state of granting every free slot in turn |
| SlotPool.SlotPool.Enter | internal/app/slots.go:120-136 | The locked start of an Acquire call is the step of that name and keeps the invariant; the callback runs exactly when the call still waits |
| SlotPool.SlotPool.CancelLocked | internal/app/slots.go:138-153 | A canceled call leaves its queue or gives back the slot that a racing grant gave it |
| SlotPool.SlotPool.ReleaseOnce | internal/app/slots.go:157-164 | The release function gives the slot back once |
| SlotPool.SlotPool.FailAll | internal/app/slots.go:169-187 | Every waiter of the key fails and its slots are unaffected |
| SlotPool.SlotPool.Resize | internal/app/slots.go:193-199 | A new capacity grants what it allows and stops no holder |
| SlotPool.SlotPool.Recap | internal/app/slots.go:204-209 | New caps grant what they allow |
| SlotTickets.TicketMoves | internal/app/slots.go:116-187 | Under every operation a call is granted or failed only while it waits and ends only by its own operation |
| SlotTickets.FailEndsTheWaits | internal/app/slots.go:167-187 | Failing a key's waiters fails exactly its waiting calls and changes no other call and no key's slots |
| RunRegistry.RunRegistry.Reserve | internal/app/runs.go:68-78 | A job is reserved unless it is reserved or claimed, and no empty entry stays |
| RunRegistry.RunRegistry.Unreserve | internal/app/runs.go:82-89 | Only the token that holds the reservation ends it |
| RunRegistry.RunRegistry.Claim | internal/app/runs.go:94-104 | A job is claimed unless it is claimed or, for a scheduled run, reserved |
| RunRegistry.RunRegistry.Unclaim | internal/app/runs.go:107-114 | The claim ends and an empty entry is dropped |
| RunRegistry.RunRegistry.Enqueue | internal/app/runs.go:117-121 | The run is recorded as queued |
| RunRegistry.RunRegistry.Dequeue | internal/app/runs.go:124-131 | The wait ends only if it is still this run's |
| RunRegistry.RunRegistry.Start | internal/app/runs.go:159-172 | The scan becomes visible in the step that ends the wait |
| RunRegistry.RunRegistry.Finish | internal/app/runs.go:175-183 | The scan disappears, and the job's entry once it is empty |
| RunRegistry.TidyIsUnique | internal/app/runs.go:59-64 | A registry without empty entries is determined by what it records |
| RunLifecycle.TraceHolds | internal/app/managed_run.go:56-135 | In every state of every interleaving, those where a context ends before the run queues included, at most one run claims a job, no scheduled run claims a reserved job, entries are not empty, queued runs are listed, a run that gave up or ended holds no slot, and registered runs of paused units are being canceled |
| RunLifecycle.KeepsOneClaim | internal/app/runs.go:94-114 | Every step keeps at most one claim a job |
| RunLifecycle.KeepsClaimsKnown | internal/app/runs.go:66-104 | Every step keeps reserved jobs free of scheduled claims |
| RunLifecycle.KeepsSlotsHeld | internal/app/managed_run.go:106-134 | Every step keeps slots with the runs that were granted them and have not given them back |
| RunLifecycle.KeepsQueuedListed | internal/app/managed_run.go:106-126 | A run that the pool queued stays listed until its scan starts or it gives up |
| RunLifecycle.ListedWhenItWaits | internal/app/managed_run.go:84-126 | A run asks for a slot of its unit and is listed as queued exactly when it has to wait |
| RunLifecycle.UnitFails | internal/app/units.go:110-118 | Pausing a unit fails the waiting calls of that unit and no other call |
| RunLifecycle.FindsQueuedRun | internal/app/app.go:967-971 | A cancellation finds the queued run of its job exactly when the run is of its unit |
| RunLifecycle.CanceledByItsUnit | internal/app/app.go:962-980 | In every interleaving a canceled wait was found, while queued, by a request for its job and of its own unit |
| RunLifecycle.RequestedByItsUnit | internal/app/app.go:983-1000 | In every interleaving a scan's cancellation was requested by its own unit, by a pause of that unit while it was registered, or by registering in a unit paused since |
| RunLifecycle.CancelSucceeds | internal/app/app.go:967-980 | A cancellation succeeds exactly when the run has not started |
| RunLifecycle.CanceledNeverStarts | internal/app/app.go:186-204 | A run whose wait was canceled never prepares or scans in any later state and keeps no slot when it is done |
| RunLifecycle.KeepsPaused | internal/app/units.go:115-181 | Every registered run of a paused unit has its cancellation requested, whichever of pause and registration comes first |

## Left out

- Database, leases, scan finalization, resumable cycles, notifications, HTTP, the console and process code.
- ScanDemand.FoundPattern: whether ticks are whole minutes apart, and whether they come every minute, is given with the pattern; reading that from the cron fields and the timezone's offsets is left out.
- Time zones, daylight-saving lookups, cron parsing and the cron library's search: offsets of an ordinary day and the search function are given, and which days are irregular is not computed. `findIrregularDays`, `expand` and `nextTickingDay` are not modelled.
- Context cancellation during a projection: the loops' `ctx.Err` checks are left out.
- Runs per day are not divided by the length of the sample; the model counts starts. Run durations are whole nanoseconds, so the rounding of fractional seconds is left out.
- A nil projection cache, and the admission of equal IDs by revision and update time before the duration-key cache.
- ScanDemand.DemandWork.Project: the schedule of an identity is a fixed function, as the parsed fields and timezone decide it; reading it again from text is left out. A job's budget has the limit of its pass, as `projectScanDemandJob` gives it. A projection that would find no tick before the sample, and so yields no estimate, may be refused below its floor.
- ScheduleRuns.FitsIffEveryTickStarts: is stated from an idle start, as the shortcut compares the sample's own gaps only and does not look at the tick before the sample.
- Address zones: an address with a zone is never part of a valid range.
- Target text parsing and DNS targets.
- SpacePacking.PackFamily: asks for at most 2^55 ranges, far beyond any slice in memory, so that the number of splits stays below the largest int.
- Sets of CIDRs are sequences that the methods reassign; sharing of backing arrays between Go slices is not modelled.
- PerimeterCoalescing: an IPv4 prefix is its aligned block; the comparison with the gaps-only plan (`perimeterCoalescedImproves`), the text of suggestions and their probe estimates are left out.
- The size of a suggestion from probe budgets (`addressesPerMonitor`) is a parameter.
- Grant and arrival counters are unbounded; wrap-around after 2^64 grants is left out.
- The pool's keys and waiters are values in maps that the methods reassign; pointers from a waiter to its list element are not modelled, and `CapacitySnapshot` only reads.
- Goroutines, channels and mutexes: each locked region is one step, a context may end at any time, and a once-only release is a state of the call.
- RunLifecycle: runs and their scans are numbered by the run; a run without a job ID, as tests register it, is modelled in the registry only. Lease acquisition, preparation and the scan itself are single steps that may end at any time, and a refused cancellation of a finalizing scan is the absence of that step.
