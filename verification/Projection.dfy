/** Projecting runs over the sample's days within a work budget: what a projection
    yields and what it takes. */
module Projection {
  import opened Optional
  import opened ScheduleTicks
  import opened WorkBudget
  import opened DayWalk
  import opened OrdinaryDays
  import opened DaySpans

  // ----- The warm start -----

  /** How long the job stays held by runs begun before `start`, when the schedule is
      searched on from `after`, or none when the search finds nothing more. A held
      tick is left by searching from the end of the run that holds it. */
  ghost function WarmStart(next: int -> Option<int>, after: int, start: int, busyUntil: int, run: int, endsAtTimeout: bool): Option<int>
    requires Forward(next)
    decreases if start > after then start - after else 0
  {
    match next(after)
    case None => None
    case Some(tick) =>
      if tick >= start then Some(busyUntil)
      else if TickBusy(tick, busyUntil, endsAtTimeout) then
        WarmStart(next, if endsAtTimeout then busyUntil else busyUntil - 1, start, busyUntil, run, endsAtTimeout)
      else WarmStart(next, tick, start, tick + run, run, endsAtTimeout)
  }

  /** How many searches the warm start makes. */
  ghost function PrefixSearches(next: int -> Option<int>, after: int, start: int, busyUntil: int, run: int, endsAtTimeout: bool): (n: nat)
    requires Forward(next)
    ensures n > 0
    decreases if start > after then start - after else 0
  {
    match next(after)
    case None => 1
    case Some(tick) =>
      if tick >= start then 1
      else if TickBusy(tick, busyUntil, endsAtTimeout) then
        1 + PrefixSearches(next, if endsAtTimeout then busyUntil else busyUntil - 1, start, busyUntil, run, endsAtTimeout)
      else 1 + PrefixSearches(next, tick, start, tick + run, run, endsAtTimeout)
  }

  lemma {:induction false} HeldTicksChangeNothing(next: int -> Option<int>, a: int, b: int, start: int, busyUntil: int, run: int, endsAtTimeout: bool)
    requires Forward(next) && Consistent(next) && a <= b
    requires forall tick :: a < tick <= b ==> TickBusy(tick, busyUntil, endsAtTimeout)
    ensures Simulate(CronTicks(next, a, a, start), busyUntil, run, endsAtTimeout).busyUntil
            == Simulate(CronTicks(next, b, b, start), busyUntil, run, endsAtTimeout).busyUntil
    decreases b - a
  {
    hide Simulate;
    if next(a).Some? && next(a).value <= b {
      var tick := next(a).value;
      HeldTicksChangeNothing(next, tick, b, start, busyUntil, run, endsAtTimeout);
      FilterFromStart(next, a, tick, start);
      if tick < start {
        SimulateFirst(tick, CronTicks(next, tick, tick, start), busyUntil, run, endsAtTimeout);
      }
    } else {
      assert next(b) == next(a);
      if next(a).Some? {
        FilterFromStart(next, a, next(a).value, start);
        FilterFromStart(next, b, next(a).value, start);
      }
    }
  }

  /** Searching on never finds a tick before the one it starts from. */
  lemma {:induction false} FilterFromStart(next: int -> Option<int>, a: int, tick: int, start: int)
    requires Forward(next) && next(a) == Some(tick)
    ensures CronTicks(next, a, a, start) == if tick >= start then [] else [tick] + CronTicks(next, tick, tick, start)
    ensures tick >= start ==> CronTicks(next, tick, tick, start) == []
  {
    CronTicksFilter(next, tick, a, tick, start);
  }

  lemma {:induction false} CronTicksFilter(next: int -> Option<int>, after: int, a: int, b: int, end: int)
    requires Forward(next) && a <= after && b <= after
    ensures CronTicks(next, after, a, end) == CronTicks(next, after, b, end)
    decreases end - after
  {
    if next(after).Some? && next(after).value < end {
      CronTicksFilter(next, next(after).value, a, b, end);
    }
  }

  /** On one fixed set of ticks, the jumping warm start is tick by tick. */
  lemma {:induction false} WarmStartIsSimulation(next: int -> Option<int>, after: int, start: int, busyUntil: int, run: int, endsAtTimeout: bool)
    requires Forward(next) && Consistent(next)
    ensures var warm := WarmStart(next, after, start, busyUntil, run, endsAtTimeout);
            warm.Some? ==> warm.value == Simulate(CronTicks(next, after, after, start), busyUntil, run, endsAtTimeout).busyUntil
    decreases if start > after then start - after else 0
  {
    hide Simulate;
    if next(after).Some? {
      var tick := next(after).value;
      FilterFromStart(next, after, tick, start);
      if tick >= start {
        SimulateNone(busyUntil, run, endsAtTimeout);
      } else {
        SimulateFirst(tick, CronTicks(next, tick, tick, start), busyUntil, run, endsAtTimeout);
        if TickBusy(tick, busyUntil, endsAtTimeout) {
          var free := if endsAtTimeout then busyUntil else busyUntil - 1;
          WarmStartIsSimulation(next, free, start, busyUntil, run, endsAtTimeout);
          HeldTicksChangeNothing(next, tick, free, start, busyUntil, run, endsAtTimeout);
        } else {
          WarmStartIsSimulation(next, tick, start, tick + run, run, endsAtTimeout);
        }
      }
    }
  }

  /** The warm start: what holds the job at the start when the schedule is followed
      from two runs earlier, from an idle job. Nothing holds the job at `never`. */
  method SimulateSchedulePrefix(schedule: CronSchedule, start: int, run: int, endsAtTimeout: bool, never: int)
    returns (busyUntil: Option<int>, ghost work: nat)
    requires schedule.Valid() && !schedule.exhausted
    modifies schedule`exhausted, Ledger(schedule.budget)
    ensures schedule.Valid()
    ensures schedule.exhausted ==> Exhausted(schedule.budget)
    ensures !schedule.exhausted ==> busyUntil == WarmStart(schedule.next, start - 2 * run - 1, start, never, run, endsAtTimeout)
    ensures var searches := PrefixSearches(schedule.next, start - 2 * run - 1, start, never, run, endsAtTimeout);
            if schedule.exhausted then work < searches else work == searches
    ensures forall b :: b in Ledger(schedule.budget) ==> b.used == old(b.used) + work
  {
    hide Exhausted;
    var busy := never;
    ghost var from := start - 2 * run - 1;
    ghost var searches := PrefixSearches(schedule.next, from, start, never, run, endsAtTimeout);
    ghost var more;
    var next;
    next, work := schedule.Next(start - 2 * run - 1);
    while true
      invariant schedule.Valid()
      invariant schedule.exhausted ==> Exhausted(schedule.budget) && next.None?
      invariant !schedule.exhausted ==>
                  && next == schedule.next(from)
                  && work + PrefixSearches(schedule.next, from, start, busy, run, endsAtTimeout) == searches + 1
                  && WarmStart(schedule.next, start - 2 * run - 1, start, never, run, endsAtTimeout)
                     == WarmStart(schedule.next, from, start, busy, run, endsAtTimeout)
      invariant schedule.exhausted ==> work < searches
      invariant next.Some? ==> from < next.value
      invariant forall b :: b in Ledger(schedule.budget) ==> b.used == old(b.used) + work
      decreases next.Some?, if next.Some? && next.value < start then start - from else 0
    {
      if next.None? {
        return None, work;
      }
      if next.value >= start {
        return Some(busy), work;
      }
      if TickBusy(next.value, busy, endsAtTimeout) {
        from := if endsAtTimeout then busy else busy - 1;
        next, more := schedule.Next(if endsAtTimeout then busy else busy - 1);
      } else {
        busy := next.value + run;
        from := next.value;
        next, more := schedule.Next(next.value);
      }
      work := work + more;
    }
  }

  // ----- The walk over all the spans -----

  /** Simulates one cron day, tick after tick as the schedule gives them from `after`
      on, with the job held until busy0 when it begins. */
  method SimulateScheduleSpan(schedule: CronSchedule, after: int, start: int, end: int, busy0: int, run: int, endsAtTimeout: bool)
    returns (outcome: Outcome, lastTick: int, ghost work: nat)
    requires schedule.Valid() && !schedule.exhausted
    modifies schedule`exhausted, Ledger(schedule.budget)
    ensures schedule.Valid()
    ensures schedule.exhausted ==> Exhausted(schedule.budget)
    ensures !schedule.exhausted ==>
              var ticks := CronTicks(schedule.next, after, start, end);
              && outcome == Simulate(ticks, busy0, run, endsAtTimeout)
              && lastTick == (if ticks == [] then after else ticks[|ticks| - 1])
              && work >= |ticks| + 1
    ensures var searches := SpanSearches(schedule.next, after, end);
            if schedule.exhausted then work < searches else work == searches
    ensures forall b :: b in Ledger(schedule.budget) ==> b.used == old(b.used) + work
  {
    hide Exhausted, Simulate, CronTicks, SpanSearches, Followed;
    ghost var found := [];
    var starts: nat, skipped, busyUntil := 0, false, busy0;
    lastTick := after;
    NothingFollowed(schedule.next, after, start, end, busy0, run, endsAtTimeout);
    ghost var from, more := after, 0;
    var next;
    next, work := schedule.Next(after);
    while next.Some? && next.value < end
      invariant schedule.Valid()
      invariant schedule.exhausted ==> Exhausted(schedule.budget) && next.None? && work < SpanSearches(schedule.next, after, end)
      invariant !schedule.exhausted ==>
                  && next == schedule.next(from)
                  && Followed(schedule.next, after, start, end, busy0, run, endsAtTimeout, from, found,
                              Outcome(starts, skipped, busyUntil), lastTick, work)
      invariant forall b :: b in Ledger(schedule.budget) ==> b.used == old(b.used) + work
      decreases if next.Some? then end - next.value else -1
    {
      var tick := next.value;
      found := NextFollowed(schedule.next, after, start, end, busy0, run, endsAtTimeout, from, found,
                            Outcome(starts, skipped, busyUntil), lastTick, work);
      if tick >= start {
        lastTick := tick;
        if TickBusy(tick, busyUntil, endsAtTimeout) {
          skipped := true;
        } else {
          starts := starts + 1;
          busyUntil := tick + run;
        }
      }
      from := tick;
      next, more := schedule.Next(tick);
      work := work + more;
    }
    outcome := Outcome(starts, skipped, busyUntil);
    if !schedule.exhausted {
      AllFollowed(schedule.next, after, start, end, busy0, run, endsAtTimeout, from, found, outcome, lastTick, work);
    }
  }

  /** The span's ticks up to `from` are found and simulated, and the search for the
      tick after `from` is made. */
  ghost predicate Followed(next: int -> Option<int>, after: int, start: int, end: int, busy0: int, run: int, endsAtTimeout: bool,
                           from: int, found: seq<int>, outcome: Outcome, lastTick: int, work: nat)
    requires Forward(next)
  {
    && CronTicks(next, after, start, end) == found + CronTicks(next, from, start, end)
    && work + SpanSearches(next, from, end) == SpanSearches(next, after, end) + 1
    && work >= |found| + 1
    && outcome == Simulate(found, busy0, run, endsAtTimeout)
    && lastTick == if found == [] then after else found[|found| - 1]
  }

  lemma NothingFollowed(next: int -> Option<int>, after: int, start: int, end: int, busy0: int, run: int, endsAtTimeout: bool)
    requires Forward(next)
    ensures Followed(next, after, start, end, busy0, run, endsAtTimeout, after, [], Outcome(0, false, busy0), after, 1)
    ensures SpanSearches(next, after, end) > 0
  {
    hide Simulate, CronTicks, SpanSearches;
    SimulateNone(busy0, run, endsAtTimeout);
  }

  lemma {:induction false} NextFollowed(next: int -> Option<int>, after: int, start: int, end: int, busy0: int, run: int, endsAtTimeout: bool,
                                        from: int, found: seq<int>, outcome: Outcome, lastTick: int, work: nat)
    returns (more: seq<int>)
    requires Forward(next) && next(from).Some? && next(from).value < end
    requires Followed(next, after, start, end, busy0, run, endsAtTimeout, from, found, outcome, lastTick, work)
    ensures work < SpanSearches(next, after, end)
    ensures var tick := next(from).value;
            Followed(next, after, start, end, busy0, run, endsAtTimeout, tick, more,
                     if tick < start then outcome
                     else if TickBusy(tick, outcome.busyUntil, endsAtTimeout) then outcome.(skipped := true)
                     else Outcome(outcome.starts + 1, outcome.skipped, tick + run),
                     if tick < start then lastTick else tick, work + 1)
  {
    hide Simulate, CronTicks, SpanSearches, TickFrom;
    var tick := next(from).value;
    NextTick(next, from, start, end, found);
    SpanSearchesStep(next, from, end);
    SimulateLast(found, tick, busy0, run, endsAtTimeout);
    more := if tick < start then found else found + [tick];
  }

  lemma {:induction false} AllFollowed(next: int -> Option<int>, after: int, start: int, end: int, busy0: int, run: int, endsAtTimeout: bool,
                                       from: int, found: seq<int>, outcome: Outcome, lastTick: int, work: nat)
    requires Forward(next) && (next(from).Some? ==> next(from).value >= end)
    requires Followed(next, after, start, end, busy0, run, endsAtTimeout, from, found, outcome, lastTick, work)
    ensures var ticks := CronTicks(next, after, start, end);
            && outcome == Simulate(ticks, busy0, run, endsAtTimeout)
            && lastTick == (if ticks == [] then after else ticks[|ticks| - 1])
            && work >= |ticks| + 1
    ensures work == SpanSearches(next, after, end)
  {
    hide Simulate, CronTicks, SpanSearches, TickFrom;
    NoNextTick(next, from, start, end);
    SpanSearchesStep(next, from, end);
    assert found + [] == found;
  }

  lemma {:induction false} SimulateLast(ticks: seq<int>, tick: int, busyUntil: int, run: int, endsAtTimeout: bool)
    ensures var before := Simulate(ticks, busyUntil, run, endsAtTimeout);
            Simulate(ticks + [tick], busyUntil, run, endsAtTimeout)
            == if TickBusy(tick, before.busyUntil, endsAtTimeout) then before.(skipped := true)
               else before.(starts := before.starts + 1, busyUntil := tick + run)
  {
    hide Simulate;
    var before := Simulate(ticks, busyUntil, run, endsAtTimeout);
    SimulateConcat(ticks, [tick], busyUntil, run, endsAtTimeout);
    assert [tick] == [tick] + [];
    SimulateFirst(tick, [], before.busyUntil, run, endsAtTimeout);
    SimulateNone(before.busyUntil, run, endsAtTimeout);
    SimulateNone(tick + run, run, endsAtTimeout);
  }

  /** What a projection yields: the starts in the sample and whether a tick is
      skipped, or that the schedule cannot be projected. */
  datatype Estimate = Estimate(starts: int, skipped: bool) | InvalidPattern

  /** The meaning of a walk over the spans: one tick-by-tick simulation of all their
      ticks, after the warm start. */
  ghost function WalkMeaning(sample: Sample, spans: seq<DaySpan>, run: int, endsAtTimeout: bool, never: int): Estimate
    requires ValidSample(sample)
  {
    match WarmStart(sample.next, sample.start - 2 * run - 1, sample.start, never, run, endsAtTimeout)
    case None => InvalidPattern
    case Some(busyUntil) =>
      var outcome := Simulate(AllTicks(sample, spans), busyUntil, run, endsAtTimeout);
      Estimate(outcome.starts, outcome.skipped)
  }

  // ----- How much work a projection takes -----

  /** The work of one span, besides the unit for coming to it, and the kinds of day
      known after it. */
  ghost function SpanSpent(sample: Sample, span: DaySpan, lastTick: int, busyUntil: int, run: int, endsAtTimeout: bool, known: set<int>): Spent
    requires ValidSample(sample)
  {
    if span.days == 0 then Spent(SpanSearches(sample.next, lastTick, SpanStart(sample, span) + span.length * SECOND), known)
    else DaysSpent(Walk(DayWalk.Rule.Rule(sample.offsets, run, endsAtTimeout), SpanStart(sample, span), busyUntil),
                   span.days, 0, map[], false, known)
  }

  /** The work of the spans after a warm start. */
  ghost function SpansSpent(sample: Sample, spans: seq<DaySpan>, warm: int, run: int, endsAtTimeout: bool): Spent
    requires ValidSample(sample)
  {
    if spans == [] then Spent(0, {})
    else
      var before := spans[..|spans| - 1];
      var ticks := AllTicks(sample, before);
      var spent := SpansSpent(sample, before, warm, run, endsAtTimeout);
      Charge(spent.work + 1,
             SpanSpent(sample, spans[|spans| - 1], LastTick(sample, ticks), Simulate(ticks, warm, run, endsAtTimeout).busyUntil,
                       run, endsAtTimeout, spent.known))
  }

  /** The work that a projection takes when no budget stops it. */
  ghost function WalkWork(sample: Sample, spans: seq<DaySpan>, run: int, endsAtTimeout: bool, never: int): nat
    requires ValidSample(sample)
  {
    PrefixSearches(sample.next, sample.start - 2 * run - 1, sample.start, never, run, endsAtTimeout)
    + match WarmStart(sample.next, sample.start - 2 * run - 1, sample.start, never, run, endsAtTimeout)
      case None => 0
      case Some(warm) => SpansSpent(sample, spans, warm, run, endsAtTimeout).work
  }

  lemma SpansSpentNext(sample: Sample, spans: seq<DaySpan>, i: nat, warm: int, run: int, endsAtTimeout: bool)
    requires ValidSample(sample) && i < |spans|
    ensures var before := spans[..i];
            var ticks, spent := AllTicks(sample, before), SpansSpent(sample, before, warm, run, endsAtTimeout);
            SpansSpent(sample, spans[..i + 1], warm, run, endsAtTimeout)
            == Charge(spent.work + 1,
                      SpanSpent(sample, spans[i], LastTick(sample, ticks), Simulate(ticks, warm, run, endsAtTimeout).busyUntil,
                                run, endsAtTimeout, spent.known))
  {
    hide AllTicks, Simulate, SpanSpent;
    assert spans[..i + 1][..i] == spans[..i];
  }

  lemma {:induction false} SpansSpentGrows(sample: Sample, spans: seq<DaySpan>, i: nat, warm: int, run: int, endsAtTimeout: bool)
    requires ValidSample(sample) && i <= |spans|
    ensures SpansSpent(sample, spans[..i], warm, run, endsAtTimeout).work <= SpansSpent(sample, spans, warm, run, endsAtTimeout).work
    decreases |spans| - i
  {
    hide SpansSpent, AllTicks, Simulate, SpanSpent;
    if i == |spans| {
      assert spans[..i] == spans;
    } else {
      SpansSpentNext(sample, spans, i, warm, run, endsAtTimeout);
      SpansSpentGrows(sample, spans, i + 1, warm, run, endsAtTimeout);
    }
  }

  // ----- The walk over the spans -----

  /** Projects runs over one span, found from the last tick before it. */
  method WalkSpan(sample: Sample, span: DaySpan, schedule: CronSchedule, walk: ScheduleDayWalk, after: int, busyUntil: int)
    returns (result: Attempt<Outcome>, lastTick: int, ghost work: nat)
    requires ValidSample(sample) && schedule.Valid() && !schedule.exhausted && schedule.next == sample.next
    requires walk.Valid() && walk.offsets == sample.offsets && walk.budget == schedule.budget
    modifies schedule`exhausted, walk`days, Ledger(schedule.budget)
    ensures schedule.Valid() && walk.Valid()
    ensures var spent := SpanSpent(sample, span, after, busyUntil, walk.run, walk.endsAtTimeout, old(walk.days.Keys));
            if schedule.exhausted || result.WorkExceeded? then work < spent.work && Exhausted(schedule.budget)
            else
              var ticks := SpanTicks(sample, span, after);
              && work == spent.work && walk.days.Keys == spent.known
              && result.value == Simulate(ticks, busyUntil, walk.run, walk.endsAtTimeout)
              && lastTick == (if ticks == [] then after else ticks[|ticks| - 1])
              && work >= (if span.days > 0 then 1 else |ticks| + 1)
    ensures forall b :: b in Ledger(schedule.budget) ==> b.used == old(b.used) + work
  {
    hide Exhausted, Simulate, CronTicks, Stretch, DaysSpent, SpanSearches, WalkBound, DaysKnown, Increasing, Forward;
    var spanStart := SpanStart(sample, span);
    if span.days == 0 {
      var outcome;
      outcome, lastTick, work := SimulateScheduleSpan(schedule, after, spanStart, spanStart + span.length * SECOND,
                                                      busyUntil, walk.run, walk.endsAtTimeout);
      result := Done(outcome);
    } else {
      StretchEnds(sample.offsets, spanStart, span.days);
      DaysProduct(span.days - 1);
      result, work := walk.OrdinaryDays(spanStart, span.days, busyUntil);
      lastTick := spanStart + (span.days - 1) * DAY + sample.offsets[|sample.offsets| - 1];
    }
  }

  /** Projects runs over the sample's days. A budget stops the walk exactly when it
      has less left than the whole walk takes, which is at least the projection floor
      of its spans. */
  method WalkScheduleDays(sample: Sample, spans: seq<DaySpan>, schedule: CronSchedule, run: int, endsAtTimeout: bool, never: int)
    returns (result: Attempt<Estimate>, ghost work: nat)
    requires ValidSample(sample) && schedule.Valid() && !schedule.exhausted && schedule.next == sample.next
    modifies schedule`exhausted, Ledger(schedule.budget)
    ensures schedule.Valid()
    ensures if schedule.exhausted || result.WorkExceeded? then
              work < WalkWork(sample, spans, run, endsAtTimeout, never) && Exhausted(schedule.budget)
            else
              && work == WalkWork(sample, spans, run, endsAtTimeout, never)
              && result.value == WalkMeaning(sample, spans, run, endsAtTimeout, never)
    ensures forall b :: b in Ledger(schedule.budget) ==> b.used == old(b.used) + work
  {
    hide Exhausted, Simulate, Increasing, Stretch, CronTicks, WarmStart, Walked, WalkMeaning, WalkWork, SpanSpent, SpanTicks,
         PrefixSearches, DaysKnown, OrdinaryDay, Forward;
    var warm;
    warm, work := SimulateSchedulePrefix(schedule, sample.start, run, endsAtTimeout, never);
    if schedule.exhausted {
      PrefixIsLess(sample, spans, run, endsAtTimeout, never);
    }
    if warm.None? {
      if !schedule.exhausted {
        NoWarmStart(sample, spans, run, endsAtTimeout, never);
      }
      return Done(InvalidPattern), work;
    }
    var walk := new ScheduleDayWalk(sample.offsets, run, endsAtTimeout, schedule.budget);
    var starts: nat, skipped, busyUntil := 0, false, warm.value;
    var lastTick := sample.start - 1;
    if !schedule.exhausted {
      NoSpans(sample, run, endsAtTimeout, never, warm.value, work);
    }
    var i := 0;
    assert spans[..i] == [] && walk.days.Keys == {};
    while i < |spans|
      invariant i <= |spans|
      invariant schedule.Valid() && walk.Valid()
      invariant if schedule.exhausted then work < WalkWork(sample, spans, run, endsAtTimeout, never) && Exhausted(schedule.budget)
                else Walked(sample, spans[..i], run, endsAtTimeout, never, Outcome(starts, skipped, busyUntil), lastTick, work, walk.days.Keys)
      invariant forall b :: b in Ledger(schedule.budget) ==> b.used == old(b.used) + work
    {
      ghost var before, known := Outcome(starts, skipped, busyUntil), walk.days.Keys;
      if !schedule.exhausted {
        SpanIsLess(sample, spans, i, run, endsAtTimeout, never, before, lastTick, work, known);
      }
      var ok := TakeWork(schedule.budget);
      if !ok {
        return WorkExceeded, work;
      }
      ghost var after := lastTick;
      var attempt;
      ghost var more;
      attempt, lastTick, more := WalkSpan(sample, spans[i], schedule, walk, lastTick, busyUntil);
      if attempt.WorkExceeded? {
        return WorkExceeded, work + 1 + more;
      }
      var outcome := attempt.value;
      if !schedule.exhausted {
        NextSpan(sample, spans, i, run, endsAtTimeout, never, before, after, work, known, outcome, lastTick, more, walk.days.Keys);
      }
      starts := starts + outcome.starts;
      skipped := skipped || outcome.skipped;
      busyUntil := outcome.busyUntil;
      work := work + 1 + more;
      i := i + 1;
    }
    assert spans[..i] == spans;
    if !schedule.exhausted {
      AllSpansWalked(sample, spans, run, endsAtTimeout, never, Outcome(starts, skipped, busyUntil), lastTick, work, walk.days.Keys);
    }
    result := Done(Estimate(starts, skipped));
  }

  /** The walk is past the spans, with the outcome of simulating all their ticks
      and the work that they take. */
  ghost predicate Walked(sample: Sample, spans: seq<DaySpan>, run: int, endsAtTimeout: bool, never: int, outcome: Outcome,
                         lastTick: int, work: nat, known: set<int>)
    requires ValidSample(sample)
  {
    var warm := WarmStart(sample.next, sample.start - 2 * run - 1, sample.start, never, run, endsAtTimeout);
    && warm.Some?
    && outcome == Simulate(AllTicks(sample, spans), warm.value, run, endsAtTimeout)
    && lastTick == LastTick(sample, AllTicks(sample, spans))
    && var spent := SpansSpent(sample, spans, warm.value, run, endsAtTimeout);
       && work == PrefixSearches(sample.next, sample.start - 2 * run - 1, sample.start, never, run, endsAtTimeout) + spent.work
       && known == spent.known
  }

  lemma PrefixIsLess(sample: Sample, spans: seq<DaySpan>, run: int, endsAtTimeout: bool, never: int)
    requires ValidSample(sample)
    ensures PrefixSearches(sample.next, sample.start - 2 * run - 1, sample.start, never, run, endsAtTimeout)
            <= WalkWork(sample, spans, run, endsAtTimeout, never)
  {
    hide SpansSpent, WarmStart, PrefixSearches;
  }

  lemma NoWarmStart(sample: Sample, spans: seq<DaySpan>, run: int, endsAtTimeout: bool, never: int)
    requires ValidSample(sample)
    requires WarmStart(sample.next, sample.start - 2 * run - 1, sample.start, never, run, endsAtTimeout) == None
    ensures WalkMeaning(sample, spans, run, endsAtTimeout, never) == InvalidPattern
    ensures PrefixSearches(sample.next, sample.start - 2 * run - 1, sample.start, never, run, endsAtTimeout)
            == WalkWork(sample, spans, run, endsAtTimeout, never)
  {
  }

  lemma NoSpans(sample: Sample, run: int, endsAtTimeout: bool, never: int, warm: int, work: nat)
    requires ValidSample(sample)
    requires WarmStart(sample.next, sample.start - 2 * run - 1, sample.start, never, run, endsAtTimeout) == Some(warm)
    requires work == PrefixSearches(sample.next, sample.start - 2 * run - 1, sample.start, never, run, endsAtTimeout)
    ensures Walked(sample, [], run, endsAtTimeout, never, Outcome(0, false, warm), sample.start - 1, work, {})
  {
    hide WarmStart, PrefixSearches;
  }

  /** The next span and the unit for coming to it are part of the whole work. */
  lemma {:induction false} SpanIsLess(sample: Sample, spans: seq<DaySpan>, i: nat, run: int, endsAtTimeout: bool, never: int,
                                      before: Outcome, after: int, work: nat, known: set<int>)
    requires ValidSample(sample) && i < |spans| && Walked(sample, spans[..i], run, endsAtTimeout, never, before, after, work, known)
    ensures work + 1 + SpanSpent(sample, spans[i], after, before.busyUntil, run, endsAtTimeout, known).work
            <= WalkWork(sample, spans, run, endsAtTimeout, never)
  {
    hide Simulate, AllTicks, WarmStart, SpanSpent, SpansSpent, PrefixSearches;
    var warm := WarmStart(sample.next, sample.start - 2 * run - 1, sample.start, never, run, endsAtTimeout).value;
    SpansSpentNext(sample, spans, i, warm, run, endsAtTimeout);
    SpansSpentGrows(sample, spans, i + 1, warm, run, endsAtTimeout);
  }

  lemma {:induction false} NextSpan(sample: Sample, spans: seq<DaySpan>, i: nat, run: int, endsAtTimeout: bool, never: int,
                                    before: Outcome, after: int, work: nat, known: set<int>,
                                    outcome: Outcome, lastTick: int, more: nat, nowKnown: set<int>)
    requires ValidSample(sample) && i < |spans| && Walked(sample, spans[..i], run, endsAtTimeout, never, before, after, work, known)
    requires var ticks, spent := SpanTicks(sample, spans[i], after), SpanSpent(sample, spans[i], after, before.busyUntil, run, endsAtTimeout, known);
             && outcome == Simulate(ticks, before.busyUntil, run, endsAtTimeout)
             && lastTick == (if ticks == [] then after else ticks[|ticks| - 1])
             && more == spent.work && nowKnown == spent.known
    ensures Walked(sample, spans[..i + 1], run, endsAtTimeout, never, Then(before, outcome), lastTick, work + 1 + more, nowKnown)
  {
    hide Simulate, AllTicks, WarmStart, SpanTicks, SpanSpent, SpansSpent, PrefixSearches;
    var warm := WarmStart(sample.next, sample.start - 2 * run - 1, sample.start, never, run, endsAtTimeout).value;
    assert spans[..i + 1] == spans[..i] + [spans[i]];
    AllTicksAppend(sample, spans[..i], spans[i]);
    SpansSpentNext(sample, spans, i, warm, run, endsAtTimeout);
    SimulateConcat(AllTicks(sample, spans[..i]), SpanTicks(sample, spans[i], after), warm, run, endsAtTimeout);
  }

  lemma AllSpansWalked(sample: Sample, spans: seq<DaySpan>, run: int, endsAtTimeout: bool, never: int, outcome: Outcome,
                       lastTick: int, work: nat, known: set<int>)
    requires ValidSample(sample) && Walked(sample, spans, run, endsAtTimeout, never, outcome, lastTick, work, known)
    ensures WalkMeaning(sample, spans, run, endsAtTimeout, never) == Estimate(outcome.starts, outcome.skipped)
    ensures work == WalkWork(sample, spans, run, endsAtTimeout, never)
  {
    hide WarmStart, Simulate, AllTicks, SpansSpent, PrefixSearches;
  }

  // ----- The floor of the work -----

  lemma {:induction false} SearchesFindTicks(next: int -> Option<int>, after: int, start: int, end: int)
    requires Forward(next)
    ensures SpanSearches(next, after, end) >= |CronTicks(next, after, start, end)| + 1
    decreases end - after
  {
    if next(after).Some? && next(after).value < end {
      SearchesFindTicks(next, next(after).value, start, end);
    }
  }

  lemma DaysTakeWork(walk: Walk, count: nat, known: set<int>)
    requires count > 0
    ensures DaysSpent(walk, count, 0, map[], false, known).work > 0
  {
    hide DaysSpent, After, FirstAt, BusyAt;
    DaysSpentStep(walk, count, 0, map[], false, known);
  }

  /** The spans take at least their floor. */
  lemma {:induction false} SpansTakeFloor(sample: Sample, spans: seq<DaySpan>, warm: int, run: int, endsAtTimeout: bool)
    requires ValidSample(sample)
    ensures SpansSpent(sample, spans, warm, run, endsAtTimeout).work + 1 >= ProjectionFloor(sample, spans)
  {
    hide Simulate, AllTicks, CronTicks, SpanSearches, DaysSpent, Stretch, OrdinaryDay, Forward;
    if spans == [] {
    } else {
      var before, last := spans[..|spans| - 1], spans[|spans| - 1];
      var ticks := AllTicks(sample, before);
      SpansTakeFloor(sample, before, warm, run, endsAtTimeout);
      if last.days == 0 {
        SearchesFindTicks(sample.next, LastTick(sample, ticks), SpanStart(sample, last), SpanStart(sample, last) + last.length * SECOND);
      } else {
        DaysTakeWork(Walk(DayWalk.Rule.Rule(sample.offsets, run, endsAtTimeout), SpanStart(sample, last),
                          Simulate(ticks, warm, run, endsAtTimeout).busyUntil),
                     last.days, SpansSpent(sample, before, warm, run, endsAtTimeout).known);
      }
    }
  }

  /** A walk that completes takes at least the projection floor. */
  lemma WalkTakesFloor(sample: Sample, spans: seq<DaySpan>, run: int, endsAtTimeout: bool, never: int)
    requires ValidSample(sample) && WalkMeaning(sample, spans, run, endsAtTimeout, never).Estimate?
    ensures WalkWork(sample, spans, run, endsAtTimeout, never) >= ProjectionFloor(sample, spans)
  {
    hide SpansSpent, ProjectionFloor, WarmStart, Simulate, AllTicks;
    var warm := WarmStart(sample.next, sample.start - 2 * run - 1, sample.start, never, run, endsAtTimeout).value;
    SpansTakeFloor(sample, spans, warm, run, endsAtTimeout);
  }
}
