/** The projections of one demand request: the shortcuts that need no walk, the
    memo that jobs share, and the two passes over the work budgets. */
module ScanDemand {
  import opened Optional
  import opened ScheduleTicks
  import opened WorkBudget
  import opened DayWalk
  import opened DaySpans
  import opened ScheduleRuns
  import opened Projection
  import opened ScheduleExpansion
  import EveryMinute

  /** A schedule expanded over the sample. The window is in whole minutes. */
  datatype Pattern = Pattern(sample: Sample, spans: seq<DaySpan>, runs: nat, minimumGap: int, minuteTicks: bool,
                             everyMinute: bool, window: nat, projectionFloor: nat)

  /** The schedule ticks at the sample's start and every minute before and after it. */
  ghost predicate TicksEveryMinute(next: int -> Option<int>, start: int) {
    forall t :: next(t) == Some(EveryMinute.Minute(start, (t - start) / MINUTE + 1))
  }

  ghost predicate WholeMinutesApart(ticks: seq<int>) {
    forall i, j :: 0 <= i < j < |ticks| ==> (ticks[j] - ticks[i]) % MINUTE == 0
  }

  /** The sample's years are many minutes long. */
  ghost predicate EveryMinutePattern(sample: Sample, ticks: seq<int>, window: nat) {
    && 2 < window
    && TicksEveryMinute(sample.next, sample.start)
    && ticks == EveryMinute.MinuteTicks(sample.start, 0, window)
  }

  ghost predicate Expanded(pattern: Pattern) {
    && ValidSample(pattern.sample)
    && var ticks := AllTicks(pattern.sample, pattern.spans);
       && Increasing(ticks)
       && pattern.runs == |ticks|
       && pattern.minimumGap == MinimumGap(ticks)
       && pattern.projectionFloor == ProjectionFloor(pattern.sample, pattern.spans)
       && (pattern.minuteTicks ==> WholeMinutesApart(ticks))
       && (pattern.everyMinute ==> EveryMinutePattern(pattern.sample, ticks, pattern.window))
  }

  /** What an expansion found, as a pattern. The cron fields and the timezone tell
      whether the ticks are whole minutes apart and whether they come every minute. */
  method FoundPattern(expansion: Expansion, window: nat, minuteTicks: bool, everyMinute: bool) returns (pattern: Pattern)
    requires expansion.Valid()
    requires minuteTicks ==> WholeMinutesApart(expansion.Ticks())
    requires everyMinute ==> EveryMinutePattern(expansion.sample, expansion.Ticks(), window)
    ensures Expanded(pattern)
    ensures pattern.sample == expansion.sample && pattern.spans == expansion.days && pattern.window == window
    ensures pattern.minuteTicks == minuteTicks && pattern.everyMinute == everyMinute
  {
    hide AllTicks, MinimumGap, ProjectionFloor, Increasing, WholeMinutesApart, EveryMinutePattern, ValidSample;
    pattern := Pattern(expansion.sample, expansion.days, expansion.runs, expansion.minimumGap, minuteTicks, everyMinute, window,
                       expansion.projectionFloor);
  }

  predicate EveryMinuteProjection(pattern: Pattern, run: int) {
    pattern.everyMinute && run <= pattern.window * MINUTE
  }

  /** The least work that projecting a run takes. */
  function WorkFloor(pattern: Pattern, run: int): nat {
    if EveryMinuteProjection(pattern, run) then 0 else pattern.projectionFloor
  }

  predicate NeedsProjection(pattern: Pattern, run: int, endsAtTimeout: bool) {
    pattern.runs > 0 && !RunFitsEveryGap(pattern.minimumGap, run, endsAtTimeout)
  }

  /** What projecting a run on a schedule yields when no budget bounds it. */
  ghost function Meaning(pattern: Pattern, run: int, endsAtTimeout: bool, never: int): Estimate
    requires Expanded(pattern)
  {
    if pattern.runs == 0 then Estimate(0, false)
    else if RunFitsEveryGap(pattern.minimumGap, run, endsAtTimeout) then Estimate(pattern.runs, false)
    else if EveryMinuteProjection(pattern, run) then
      var (starts, skipped) := EveryMinute.ClosedForm(pattern.sample.start, pattern.window, run, endsAtTimeout);
      Estimate(starts, skipped)
    else WalkMeaning(pattern.sample, pattern.spans, run, endsAtTimeout, never)
  }

  // ----- The closed form stands for the walk -----

  lemma EveryMinuteIsConsistent(next: int -> Option<int>, start: int)
    requires TicksEveryMinute(next, start)
    ensures Forward(next) && Consistent(next)
  {
    forall t ensures next(t).Some? ==> next(t).value > t {
      assert next(t) == Some(EveryMinute.Minute(start, (t - start) / MINUTE + 1));
    }
    forall a, b | a <= b && (next(a).Some? ==> b < next(a).value) ensures next(b) == next(a) {
      assert next(a) == Some(EveryMinute.Minute(start, (a - start) / MINUTE + 1));
      assert (b - start) / MINUTE == (a - start) / MINUTE;
    }
  }

  lemma {:induction false} EveryMinuteTicks(next: int -> Option<int>, start: int, from: int, after: int, end: int)
    requires Forward(next) && TicksEveryMinute(next, start) && from <= after
    ensures CronTicks(next, after, from, EveryMinute.Minute(start, end)) == EveryMinute.MinuteTicks(start, (after - start) / MINUTE + 1, end)
    decreases EveryMinute.Minute(start, end) - after
  {
    var minute := (after - start) / MINUTE + 1;
    var tick := EveryMinute.Minute(start, minute);
    assert next(after) == Some(tick);
    if minute >= end {
    } else {
      EveryMinuteTicks(next, start, from, tick, end);
      assert (tick - start) / MINUTE == minute;
    }
  }

  lemma {:induction false} EveryMinuteWarms(next: int -> Option<int>, schedule: int, after: int, start: int, busyUntil: int, run: int, endsAtTimeout: bool)
    requires Forward(next) && TicksEveryMinute(next, schedule)
    ensures WarmStart(next, after, start, busyUntil, run, endsAtTimeout).Some?
    decreases if start > after then start - after else 0
  {
    var tick := EveryMinute.Minute(schedule, (after - schedule) / MINUTE + 1);
    assert next(after) == Some(tick);
    if tick >= start {
    } else {
      if TickBusy(tick, busyUntil, endsAtTimeout) {
        EveryMinuteWarms(next, schedule, if endsAtTimeout then busyUntil else busyUntil - 1, start, busyUntil, run, endsAtTimeout);
      } else {
        EveryMinuteWarms(next, schedule, tick, start, tick + run, run, endsAtTimeout);
      }
    }
  }

  /** For a schedule that ticks every minute the closed form gives what the walk over
      its days would. */
  lemma EveryMinuteMeaning(pattern: Pattern, run: int, endsAtTimeout: bool, never: int)
    requires Expanded(pattern) && NeedsProjection(pattern, run, endsAtTimeout) && EveryMinuteProjection(pattern, run)
    requires never < pattern.sample.start - 2 * run
    ensures Meaning(pattern, run, endsAtTimeout, never) == WalkMeaning(pattern.sample, pattern.spans, run, endsAtTimeout, never)
  {
    hide WarmStart, CronTicks, AllTicks, Simulate, EveryMinute.ClosedForm, EveryMinute.MinuteTicks, Consistent, Forward, TicksEveryMinute,
         MinimumGap, ProjectionFloor, Increasing, WholeMinutesApart, OrdinaryDay;
    var start, next := pattern.sample.start, pattern.sample.next;
    var after := start - 2 * run - 1;
    EveryMinuteIsConsistent(next, start);
    EveryMinuteWarms(next, start, after, start, never, run, endsAtTimeout);
    WarmStartIsSimulation(next, after, start, never, run, endsAtTimeout);
    EveryMinuteTicks(next, start, after, after, 0);
    assert (-2 * run - 1) / MINUTE + 1 == -(2 * run / MINUTE);
    EveryMinute.ClosedFormIsExactForLongWindows(start, pattern.window, run, endsAtTimeout, never);
  }

  /** What a projection yields is what simulating all ticks of the sample gives: from an
      idle job when each tick then starts a run, for then none needs a walk, and else
      after the warm start. */
  lemma MeaningIsSimulated(pattern: Pattern, run: int, endsAtTimeout: bool, never: int, idle: int)
    requires Expanded(pattern) && never < pattern.sample.start - 2 * run
    requires var ticks := AllTicks(pattern.sample, pattern.spans); ticks != [] ==> !TickBusy(ticks[0], idle, endsAtTimeout)
    ensures var ticks := AllTicks(pattern.sample, pattern.spans);
            var outcome := Simulate(ticks, idle, run, endsAtTimeout);
            Meaning(pattern, run, endsAtTimeout, never)
            == if ticks == [] || run <= 0 || (|ticks| >= 2 && outcome.starts == |ticks|) then Estimate(outcome.starts, outcome.skipped)
               else WalkMeaning(pattern.sample, pattern.spans, run, endsAtTimeout, never)
  {
    hide AllTicks, Simulate, EveryMinute.ClosedForm, MinimumGap, ProjectionFloor, Increasing, WholeMinutesApart, OrdinaryDay, WalkMeaning,
         EveryMinutePattern;
    var ticks := AllTicks(pattern.sample, pattern.spans);
    FitsIffEveryTickStarts(ticks, idle, run, endsAtTimeout);
    if |ticks| < 2 && run > 0 {
      NoGapToFit(ticks, run, endsAtTimeout);
    }
    if NeedsProjection(pattern, run, endsAtTimeout) && EveryMinuteProjection(pattern, run) {
      EveryMinuteMeaning(pattern, run, endsAtTimeout, never);
    }
  }

  lemma NoGapToFit(ticks: seq<int>, run: int, endsAtTimeout: bool)
    requires |ticks| < 2 && run > 0
    ensures !RunFitsEveryGap(MinimumGap(ticks), run, endsAtTimeout)
  {
  }

  lemma ExpandedSample(pattern: Pattern)
    requires Expanded(pattern)
    ensures ValidSample(pattern.sample)
  {
  }

  // ----- Projecting within a budget -----

  /** The work that projecting a run takes when no budget stops it. */
  ghost function Work(pattern: Pattern, run: int, endsAtTimeout: bool, never: int): nat
    requires Expanded(pattern)
  {
    if !NeedsProjection(pattern, run, endsAtTimeout) || EveryMinuteProjection(pattern, run) then 0
    else WalkWork(pattern.sample, pattern.spans, run, endsAtTimeout, never)
  }

  /** A projection that yields an estimate takes at least its work floor. */
  lemma FloorIsTaken(pattern: Pattern, run: int, endsAtTimeout: bool, never: int)
    requires Expanded(pattern) && NeedsProjection(pattern, run, endsAtTimeout)
    requires Meaning(pattern, run, endsAtTimeout, never).Estimate?
    ensures Work(pattern, run, endsAtTimeout, never) >= WorkFloor(pattern, run)
  {
    hide AllTicks, MinimumGap, ProjectionFloor, Increasing, OrdinaryDay, WalkMeaning, WalkWork, RunFitsEveryGap, WholeMinutesApart,
         EveryMinutePattern, EveryMinute.ClosedForm;
    if !EveryMinuteProjection(pattern, run) {
      WalkTakesFloor(pattern.sample, pattern.spans, run, endsAtTimeout, never);
    }
  }

  /** A budget lets a projection complete exactly when it has the work left that the
      projection takes, and then counts just that; it otherwise counts all it had
      left. A projection that completes is the unbudgeted one. */
  method RunsForDuration(pattern: Pattern, run: int, endsAtTimeout: bool, never: int, budget: Budget?)
    returns (result: Attempt<Estimate>, ghost work: nat)
    requires Expanded(pattern) && Usable(budget)
    modifies Ledger(budget)
    ensures Usable(budget)
    ensures result.Done? ==> result.value == Meaning(pattern, run, endsAtTimeout, never) && work == Work(pattern, run, endsAtTimeout, never)
    ensures result.Done? <==> budget == null || old(budget.Remaining()) >= Work(pattern, run, endsAtTimeout, never)
    ensures result.WorkExceeded? ==> work == old(budget.Remaining())
    ensures budget != null ==> budget.Remaining() + work == old(budget.Remaining())
    ensures forall b :: b in Ledger(budget) ==> b.used == old(b.used) + work
  {
    hide AllTicks, MinimumGap, ProjectionFloor, Increasing, OrdinaryDay, WalkMeaning, WalkWork, Forward, WholeMinutesApart, EveryMinutePattern;
    work := 0;
    if pattern.runs == 0 {
      return Done(Estimate(0, false)), work;
    }
    if RunFitsEveryGap(pattern.minimumGap, run, endsAtTimeout) {
      return Done(Estimate(pattern.runs, false)), work;
    }
    if EveryMinuteProjection(pattern, run) {
      var (starts, skipped) := EveryMinute.ClosedForm(pattern.sample.start, pattern.window, run, endsAtTimeout);
      return Done(Estimate(starts, skipped)), work;
    }
    var schedule := new CronSchedule(pattern.sample.next, budget);
    result, work := WalkScheduleDays(pattern.sample, pattern.spans, schedule, run, endsAtTimeout, never);
    if budget != null {
      budget.RemainsLess(work);
    }
    if schedule.exhausted {
      return WorkExceeded, work;
    }
  }

  // ----- The request's memo and budgets -----

  /** The projection of a run on the schedule with an identity: the parsed cron
      fields and the timezone, which decide the schedule's pattern. */
  datatype Key = Key(identity: int, run: int, endsAtTimeout: bool)

  const PROJECTION_CACHE_LIMIT := 4096

  /** Remembered projections that hold what an unbudgeted projection yields, and that
      a job could afford. */
  ghost predicate Truthful(known: map<Key, Estimate>, patternOf: int -> Pattern, never: int)
    requires forall identity :: Expanded(patternOf(identity))
  {
    forall key :: key in known ==>
      && known[key] == Meaning(patternOf(key.identity), key.run, key.endsAtTimeout, never)
      && Work(patternOf(key.identity), key.run, key.endsAtTimeout, never) <= JOB_WORK_LIMIT
  }

  lemma NothingIsTruthful(patternOf: int -> Pattern, never: int)
    requires forall identity :: Expanded(patternOf(identity))
    ensures Truthful(map[], patternOf, never)
  {
  }

  lemma StaysTruthful(known: map<Key, Estimate>, key: Key, estimate: Estimate, patternOf: int -> Pattern, never: int)
    requires (forall identity :: Expanded(patternOf(identity))) && Truthful(known, patternOf, never)
    requires estimate == Meaning(patternOf(key.identity), key.run, key.endsAtTimeout, never)
    requires Work(patternOf(key.identity), key.run, key.endsAtTimeout, never) <= JOB_WORK_LIMIT
    ensures Truthful(known[key := estimate], patternOf, never)
  {
    hide Meaning, Expanded, Work;
  }

  lemma RemainTruthful(a: map<Key, Estimate>, b: map<Key, Estimate>, known: map<Key, Estimate>, patternOf: int -> Pattern, never: int)
    requires (forall identity :: Expanded(patternOf(identity))) && Truthful(a, patternOf, never) && Truthful(b, patternOf, never)
    requires forall key :: key in known ==> (key in a && known[key] == a[key]) || (key in b && known[key] == b[key])
    ensures Truthful(known, patternOf, never)
  {
    hide Meaning, Expanded, Work;
  }

  lemma IsTruthful(known: map<Key, Estimate>, key: Key, patternOf: int -> Pattern, never: int)
    requires (forall identity :: Expanded(patternOf(identity))) && Truthful(known, patternOf, never) && key in known
    ensures known[key] == Meaning(patternOf(key.identity), key.run, key.endsAtTimeout, never)
    ensures Work(patternOf(key.identity), key.run, key.endsAtTimeout, never) <= JOB_WORK_LIMIT
  {
    hide Meaning, Expanded, Work;
  }

  /** The projections that recent requests used, in two generations: when the
      current one is full it becomes the earlier one. */
  class ProjectionCache {
    var projections: map<Key, Estimate>
    var earlier: map<Key, Estimate>

    constructor ()
      ensures projections == map[] && earlier == map[]
    {
      projections, earlier := map[], map[];
    }

    function Remembered(key: Key): Option<Estimate>
      reads this
    {
      if key in projections then Some(projections[key])
      else if key in earlier then Some(earlier[key])
      else None
    }

    /** Adds to the current generation. A full one makes way for an empty one first
        and is then the earlier one, so what it held stays remembered. */
    method AddProjection(key: Key, estimate: Estimate)
      modifies this
      ensures if old(|projections|) >= 4096 then projections == map[key := estimate] && earlier == old(projections)
              else projections == old(projections)[key := estimate] && earlier == old(earlier)
      ensures Remembered(key) == Some(estimate)
      ensures forall k :: k in old(projections) && k != key ==> Remembered(k) == Some(old(projections[k]))
      ensures old(|projections|) <= 4096 ==> |projections| <= 4096
    {
      if |projections| >= PROJECTION_CACHE_LIMIT {
        earlier, projections := projections, map[];
      }
      projections := projections[key := estimate];
    }

    /** A remembered projection, which the current generation holds from then on. */
    method Projection(key: Key) returns (estimate: Option<Estimate>)
      modifies this
      ensures estimate == old(Remembered(key))
      ensures estimate.Some? ==> key in projections && projections[key] == estimate.value
      ensures estimate.None? || key in old(projections) ==> projections == old(projections) && earlier == old(earlier)
      ensures forall k :: k in old(projections) ==> Remembered(k) == Some(old(projections[k]))
      ensures forall k :: k in projections ==> old(Remembered(k)) == Some(projections[k])
      ensures forall k :: k in earlier ==> old(Remembered(k)) == Some(earlier[k]) || (k in old(earlier) && earlier[k] == old(earlier[k]))
    {
      if key in projections {
        return Some(projections[key]);
      }
      if key in earlier {
        estimate := Some(earlier[key]);
        AddProjection(key, earlier[key]);
        return;
      }
      return None;
    }
  }

  /** The result of projecting a job's run: the estimate, or that the schedule has
      no pattern, that the work does not suffice, or that the second pass is to
      try again. */
  datatype Projected = Projected(estimate: Estimate) | LimitExceeded | Deferred

  lemma MeaningWithoutProjection(pattern: Pattern, never: int)
    requires Expanded(pattern)
    ensures forall run, timeout :: pattern.runs == 0 ==> Meaning(pattern, run, timeout, never) == Estimate(0, false)
    ensures forall run, timeout :: pattern.runs > 0 && RunFitsEveryGap(pattern.minimumGap, run, timeout) ==>
              Meaning(pattern, run, timeout, never) == Estimate(pattern.runs, false)
  {
    hide Expanded, RunFitsEveryGap, WalkMeaning;
  }

  lemma FloorIs(pattern: Pattern)
    ensures forall run ::
              WorkFloor(pattern, run) == if pattern.everyMinute && run <= pattern.window * MINUTE then 0 else pattern.projectionFloor
  {
  }

  /** The closed form takes no work. */
  lemma EveryMinuteTakesNoWork(pattern: Pattern, run: int, endsAtTimeout: bool, never: int)
    requires Expanded(pattern) && pattern.everyMinute && run <= pattern.window * MINUTE
    ensures Work(pattern, run, endsAtTimeout, never) == 0
  {
    hide Expanded, WalkWork;
  }

  lemma NoWork(pattern: Pattern, never: int)
    requires Expanded(pattern)
    ensures forall run, timeout :: !NeedsProjection(pattern, run, timeout) ==> Work(pattern, run, timeout, never) == 0
  {
    hide Expanded, NeedsProjection, WalkWork;
  }

  // ----- What a projection needs -----

  /** The work a projection takes at most within one job, in the first pass and in
      the second. */
  const FIRST_PASS_WORK_LIMIT := 1_000
  const JOB_WORK_LIMIT := 50_000

  function WorkLimit(firstPass: bool): int {
    if firstPass then FIRST_PASS_WORK_LIMIT else JOB_WORK_LIMIT
  }

  /** What has to be left for a projection to complete: its work, and the floor that
      it is refused below. */
  ghost function Needed(pattern: Pattern, run: int, endsAtTimeout: bool, never: int): nat
    requires Expanded(pattern)
  {
    var work, floor := Work(pattern, run, endsAtTimeout, never), WorkFloor(pattern, run);
    if NeedsProjection(pattern, run, endsAtTimeout) && work < floor then floor else work
  }

  lemma NeededBounds(pattern: Pattern, never: int)
    requires Expanded(pattern)
    ensures forall run, timeout :: Needed(pattern, run, timeout, never) >= Work(pattern, run, timeout, never)
    ensures forall run, timeout :: NeedsProjection(pattern, run, timeout) ==>
              Needed(pattern, run, timeout, never) >= WorkFloor(pattern, run)
    ensures forall run, timeout ::
              Needed(pattern, run, timeout, never) == Work(pattern, run, timeout, never) || Needed(pattern, run, timeout, never) == WorkFloor(pattern, run)
  {
    hide Expanded, Work, WorkFloor, NeedsProjection;
  }

  /** The floor refuses no projection that could yield an estimate. */
  lemma NeededIsWork(pattern: Pattern, run: int, endsAtTimeout: bool, never: int)
    requires Expanded(pattern) && Meaning(pattern, run, endsAtTimeout, never).Estimate?
    ensures Needed(pattern, run, endsAtTimeout, never) == Work(pattern, run, endsAtTimeout, never)
  {
    hide Expanded, Meaning, Work, WorkFloor, NeedsProjection;
    if NeedsProjection(pattern, run, endsAtTimeout) {
      FloorIsTaken(pattern, run, endsAtTimeout, never);
    }
  }

  /** Projections that need more than so much work. */
  ghost predicate Beyond(keys: set<Key>, limit: int, patternOf: int -> Pattern, never: int)
    requires forall identity :: Expanded(patternOf(identity))
  {
    forall key :: key in keys ==> Needed(patternOf(key.identity), key.run, key.endsAtTimeout, never) > limit
  }

  lemma NoneIsBeyond(limit: int, patternOf: int -> Pattern, never: int)
    requires forall identity :: Expanded(patternOf(identity))
    ensures Beyond({}, limit, patternOf, never)
  {
  }

  lemma OneMoreBeyond(keys: set<Key>, key: Key, limit: int, patternOf: int -> Pattern, never: int)
    requires (forall identity :: Expanded(patternOf(identity))) && Beyond(keys, limit, patternOf, never)
    requires Needed(patternOf(key.identity), key.run, key.endsAtTimeout, never) > limit
    ensures Beyond(keys + {key}, limit, patternOf, never)
  {
    hide Expanded, Needed;
  }

  lemma OneIsBeyond(keys: set<Key>, key: Key, limit: int, patternOf: int -> Pattern, never: int)
    requires (forall identity :: Expanded(patternOf(identity))) && Beyond(keys, limit, patternOf, never) && key in keys
    ensures Needed(patternOf(key.identity), key.run, key.endsAtTimeout, never) > limit
  {
    hide Expanded, Needed;
  }

  /** Every schedule whose projections wait has a projection that does. */
  ghost predicate HaveDeferred(schedules: set<int>, keys: set<Key>) {
    forall identity :: identity in schedules ==> exists key :: key in keys && key.identity == identity
  }

  lemma OneMoreDeferred(schedules: set<int>, keys: set<Key>, key: Key)
    requires HaveDeferred(schedules, keys)
    ensures HaveDeferred(schedules + {key.identity}, keys + {key})
  {
    forall identity | identity in schedules + {key.identity} ensures exists k :: k in keys + {key} && k.identity == identity {
      if identity == key.identity {
        assert key in keys + {key};
      } else {
        var k :| k in keys && k.identity == identity;
        assert k in keys + {key};
      }
    }
  }

  /** What a job's budget has left: no more than its limit and than the request's
      budget, and just that limit when it is unused and the request's has more. */
  lemma JobRemains(jobBudget: Budget)
    requires jobBudget.Valid() && jobBudget.parent != null
    ensures jobBudget.parent.Valid() && jobBudget.parent.chain <= jobBudget.chain
    ensures var own := if jobBudget.limit > jobBudget.used then jobBudget.limit - jobBudget.used else 0;
            && jobBudget.Remaining() <= own && jobBudget.Remaining() <= jobBudget.parent.Remaining()
            && (jobBudget.Remaining() < jobBudget.parent.Remaining() ==> jobBudget.Remaining() == own)
  {
  }

  lemma RequestRemains(budget: Budget)
    requires budget.Valid() && budget.parent == null
    ensures budget.used < budget.limit ==> budget.Remaining() > 0
  {
  }

  class DemandWork {
    const patternOf: int -> Pattern
    const never: int
    const budget: Budget
    const firstPassLimit: int
    const cache: ProjectionCache
    var simulations: map<Key, Estimate>
    var exceeded: set<Key>
    var deferred: set<Key>
    var deferredSchedules: set<int>

    ghost predicate Valid()
      reads this, cache, budget, budget.chain
    {
      && budget.Valid() && budget.parent == null
      && (forall identity :: Expanded(patternOf(identity)))
      && Beyond(exceeded, JOB_WORK_LIMIT, patternOf, never)
      && Beyond(deferred, FIRST_PASS_WORK_LIMIT, patternOf, never)
      && HaveDeferred(deferredSchedules, deferred)
      && Truthful(simulations, patternOf, never)
      && Truthful(cache.projections, patternOf, never)
      && Truthful(cache.earlier, patternOf, never)
    }

    constructor (patternOf: int -> Pattern, never: int, budget: Budget, cache: ProjectionCache)
      requires budget.Valid() && budget.parent == null && forall identity :: Expanded(patternOf(identity))
      requires Truthful(cache.projections, patternOf, never) && Truthful(cache.earlier, patternOf, never)
      ensures Valid()
      ensures this.patternOf == patternOf && this.never == never && this.budget == budget && this.cache == cache
      ensures firstPassLimit == budget.used + budget.Remaining() / 2
      ensures simulations == map[] && exceeded == deferred == {} && deferredSchedules == {}
    {
      this.patternOf := patternOf;
      this.never := never;
      this.budget := budget;
      this.firstPassLimit := budget.used + (if budget.limit > budget.used then budget.limit - budget.used else 0) / 2;
      this.cache := cache;
      simulations, exceeded, deferred, deferredSchedules := map[], {}, {}, {};
      NothingIsTruthful(patternOf, never);
      NoneIsBeyond(JOB_WORK_LIMIT, patternOf, never);
      NoneIsBeyond(FIRST_PASS_WORK_LIMIT, patternOf, never);
    }

    ghost predicate Known(key: Key)
      reads this, cache
    {
      key in simulations || cache.Remembered(key).Some?
    }

    /** A projection known from this request or from a recent one. The request knows
        it from then on. */
    method Recall(key: Key) returns (estimate: Option<Estimate>)
      requires Valid()
      modifies this`simulations, cache
      ensures Valid()
      ensures estimate.Some? <==> old(Known(key))
      ensures estimate.Some? ==> estimate.value == Meaning(patternOf(key.identity), key.run, key.endsAtTimeout, never)
      ensures estimate.Some? ==> Known(key) && Work(patternOf(key.identity), key.run, key.endsAtTimeout, never) <= JOB_WORK_LIMIT
    {
      hide Meaning, Expanded, Work, Budget.Valid, Truthful, Beyond, HaveDeferred;
      if key in simulations {
        IsTruthful(simulations, key, patternOf, never);
        return Some(simulations[key]);
      }
      ghost var projections, earlier := cache.projections, cache.earlier;
      estimate := cache.Projection(key);
      RemainTruthful(projections, earlier, cache.projections, patternOf, never);
      RemainTruthful(projections, earlier, cache.earlier, patternOf, never);
      if estimate.Some? {
        IsTruthful(cache.projections, key, patternOf, never);
        StaysTruthful(simulations, key, estimate.value, patternOf, never);
        simulations := simulations[key := estimate.value];
      }
    }

    /** Remembers a projection, for this request and for later ones. */
    method Remember(key: Key, estimate: Estimate)
      requires Valid()
      requires estimate == Meaning(patternOf(key.identity), key.run, key.endsAtTimeout, never)
      requires Work(patternOf(key.identity), key.run, key.endsAtTimeout, never) <= JOB_WORK_LIMIT
      modifies this`simulations, cache
      ensures Valid() && Known(key)
    {
      hide Meaning, Expanded, Work, Budget.Valid, Truthful, Beyond, HaveDeferred;
      StaysTruthful(simulations, key, estimate, patternOf, never);
      StaysTruthful(cache.projections, key, estimate, patternOf, never);
      NothingIsTruthful(patternOf, never);
      StaysTruthful(map[], key, estimate, patternOf, never);
      simulations := simulations[key := estimate];
      cache.AddProjection(key, estimate);
    }

    /** Projects a run of a job, whose own budget counts against the request's. What
        needs no projection, or is known, costs nothing. Otherwise the second pass
        yields the unbudgeted projection exactly when the job has left what that
        needs, and the first pass refuses none that it could complete. Known or not, a
        projection beyond a job's limit is never yielded. */
    method Project(identity: int, run: int, endsAtTimeout: bool, jobBudget: Budget, firstPass: bool) returns (result: Projected)
      requires Valid() && jobBudget.Valid() && jobBudget.parent == budget && jobBudget.limit == (if firstPass then 1_000 else 50_000)
      modifies this, cache, jobBudget.chain
      ensures Valid() && jobBudget.Valid()
      ensures var (projected, timeout) := ProjectedRun(patternOf(identity).minuteTicks, run, endsAtTimeout);
              var key, left := Key(identity, projected, timeout), old(jobBudget.Remaining());
              var needed := Needed(patternOf(identity), projected, timeout, never);
              var work := Work(patternOf(identity), projected, timeout, never);
              var floor := if patternOf(identity).everyMinute && projected <= patternOf(identity).window * MINUTE then 0
                           else patternOf(identity).projectionFloor;
              var waits := firstPass && old(key in deferred || identity in deferredSchedules || budget.used >= firstPassLimit);
              if !NeedsProjection(patternOf(identity), projected, timeout) || old(Known(key)) then
                && result == Projected(Meaning(patternOf(identity), projected, timeout, never))
                && unchanged(jobBudget.chain)
              else match result
                case Projected(estimate) =>
                  && left >= needed && !waits
                  && estimate == Meaning(patternOf(identity), projected, timeout, never)
                  && (estimate.Estimate? ==> Known(key))
                  && forall b :: b in jobBudget.chain ==> b.used == old(b.used) + work
                case LimitExceeded =>
                  && left < needed
                  && (left < floor ==> unchanged(jobBudget.chain))
                  && (old(jobBudget.used) == 0 && floor <= old(budget.Remaining()) && budget.used < budget.limit ==> key in exceeded)
                case Deferred =>
                  && firstPass && (left < needed || waits)
                  && (left < floor || waits ==> unchanged(jobBudget.chain))
                  && (old(jobBudget.used) == 0 && floor <= left && !waits ==> key in deferred && identity in deferredSchedules)
      ensures var (projected, timeout) := ProjectedRun(patternOf(identity).minuteTicks, run, endsAtTimeout);
              result.Projected? ==> Work(patternOf(identity), projected, timeout, never) <= 50_000
      ensures forall b :: b in jobBudget.chain ==> old(b.used) <= b.used <= old(b.used) + old(jobBudget.Remaining())
    {
      hide Meaning, Expanded, ProjectedRun, RunFitsEveryGap, WorkFloor, Work, Needed, Budget.Remaining, Budget.Valid, Truthful, Beyond, HaveDeferred;
      var pattern := patternOf(identity);
      MeaningWithoutProjection(pattern, never);
      NoWork(pattern, never);
      FloorIs(pattern);
      var (seconds, timeout) := ProjectedRun(pattern.minuteTicks, run, endsAtTimeout);
      if pattern.runs == 0 {
        return Projected(Estimate(0, false));
      }
      if RunFitsEveryGap(pattern.minimumGap, seconds, timeout) {
        return Projected(Estimate(pattern.runs, false));
      }
      var key := Key(identity, seconds, timeout);
      var known := Recall(key);
      if known.Some? {
        return Projected(known.value);
      }
      result := ProjectUnknown(key, pattern, jobBudget, firstPass);
    }

    /** Projects a run that needs a projection and is not known. */
    method ProjectUnknown(key: Key, pattern: Pattern, jobBudget: Budget, firstPass: bool) returns (result: Projected)
      requires Valid() && jobBudget.Valid() && jobBudget.parent == budget && jobBudget.limit == WorkLimit(firstPass)
      requires pattern == patternOf(key.identity) && NeedsProjection(pattern, key.run, key.endsAtTimeout)
      modifies this, cache, jobBudget.chain
      ensures Valid() && jobBudget.Valid()
      ensures var left, needed := old(jobBudget.Remaining()), Needed(pattern, key.run, key.endsAtTimeout, never);
              var work, floor := Work(pattern, key.run, key.endsAtTimeout, never), WorkFloor(pattern, key.run);
              var waits := firstPass && old(key in deferred || key.identity in deferredSchedules || budget.used >= firstPassLimit);
              match result
              case Projected(estimate) =>
                && left >= needed && !waits && work <= JOB_WORK_LIMIT
                && estimate == Meaning(pattern, key.run, key.endsAtTimeout, never)
                && (estimate.Estimate? ==> Known(key))
                && forall b :: b in jobBudget.chain ==> b.used == old(b.used) + work
              case LimitExceeded =>
                && left < needed
                && (left < floor ==> unchanged(jobBudget.chain))
                && (old(jobBudget.used) == 0 && floor <= old(budget.Remaining()) && budget.used < budget.limit ==> key in exceeded)
              case Deferred =>
                && firstPass && (left < needed || waits)
                && (left < floor || waits ==> unchanged(jobBudget.chain))
                && (old(jobBudget.used) == 0 && floor <= left && !waits ==> key in deferred && key.identity in deferredSchedules)
      ensures forall b :: b in jobBudget.chain ==> old(b.used) <= b.used <= old(b.used) + old(jobBudget.Remaining())
    {
      hide Meaning, Expanded, RunFitsEveryGap, WorkFloor, Work, Needed, NeedsProjection, Budget.Remaining, Budget.Valid, Truthful, Beyond, HaveDeferred;
      NeededBounds(pattern, never);
      JobRemains(jobBudget);
      var floor := WorkFloor(pattern, key.run);
      if key in exceeded || budget.Remaining() < floor {
        if key in exceeded {
          OneIsBeyond(exceeded, key, JOB_WORK_LIMIT, patternOf, never);
        }
        return LimitExceeded;
      }
      var alone := jobBudget.used == 0;
      if jobBudget.Remaining() < floor {
        if firstPass {
          return Deferred;
        }
        if alone {
          OneMoreBeyond(exceeded, key, JOB_WORK_LIMIT, patternOf, never);
          exceeded := exceeded + {key};
        }
        return LimitExceeded;
      }
      if firstPass && (key in deferred || key.identity in deferredSchedules || budget.used >= firstPassLimit) {
        return Deferred;
      }
      result := Attempt(key, pattern, jobBudget, firstPass, alone);
    }

    /** Projects a run within the job's budget, and remembers a projection that
        completes and a job that cannot complete one alone. */
    method Attempt(key: Key, pattern: Pattern, jobBudget: Budget, firstPass: bool, alone: bool) returns (result: Projected)
      requires Valid() && jobBudget.Valid() && jobBudget.parent == budget && jobBudget.limit == WorkLimit(firstPass)
      requires pattern == patternOf(key.identity) && (alone <==> jobBudget.used == 0)
      modifies this, cache, jobBudget.chain
      ensures Valid() && jobBudget.Valid()
      ensures var left, work := old(jobBudget.Remaining()), Work(pattern, key.run, key.endsAtTimeout, never);
              && (result.Projected? <==> left >= work)
              && (result.Projected? ==> result.estimate == Meaning(pattern, key.run, key.endsAtTimeout, never))
              && (result.Projected? && result.estimate.Estimate? ==> Known(key))
              && (result.LimitExceeded? && alone && budget.used < budget.limit ==> key in exceeded)
              && (result.Deferred? && alone ==> key in deferred && key.identity in deferredSchedules)
              && forall b :: b in jobBudget.chain ==> b.used == old(b.used) + if result.Projected? then work else left
      ensures result.Deferred? ==> firstPass
    {
      hide Meaning, Expanded, RunFitsEveryGap, WorkFloor, Work, Budget.Remaining, Budget.Valid, Truthful, NeedsProjection, Beyond, HaveDeferred;
      JobRemains(jobBudget);
      var attempt;
      ghost var work;
      attempt, work := RunsForDuration(pattern, key.run, key.endsAtTimeout, never, jobBudget);
      JobRemains(jobBudget);
      RequestRemains(budget);
      if attempt.Done? {
        if attempt.value.Estimate? {
          Remember(key, attempt.value);
        }
        return Projected(attempt.value);
      }
      if budget.used >= budget.limit {
        return LimitExceeded;
      }
      if firstPass {
        if alone {
          OneMoreBeyond(deferred, key, FIRST_PASS_WORK_LIMIT, patternOf, never);
          OneMoreDeferred(deferredSchedules, deferred, key);
          deferred, deferredSchedules := deferred + {key}, deferredSchedules + {key.identity};
        }
        return Deferred;
      }
      if alone {
        OneMoreBeyond(exceeded, key, JOB_WORK_LIMIT, patternOf, never);
        exceeded := exceeded + {key};
      }
      return LimitExceeded;
    }
  }
}
