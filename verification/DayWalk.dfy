/** The memoised day automaton that projects runs over ordinary days, and its
    agreement with simulating every tick. */
module DayWalk {
  import opened ScheduleTicks

  /** Every ordinary day ticks at the same offsets from its start. */
  predicate OrdinaryDay(offsets: seq<int>) {
    && offsets != []
    && Increasing(offsets)
    && forall i :: 0 <= i < |offsets| ==> 0 <= offsets[i] < DAY
  }

  /** The ticks of consecutive ordinary days from dayStart. */
  function Stretch(offsets: seq<int>, dayStart: int, days: nat): seq<int> {
    if days == 0 then []
    else Stretch(offsets, dayStart, days - 1) + Shifted(offsets, dayStart + Days(days - 1))
  }

  /** What decides a projection besides the initial busy time. */
  datatype Rule = Rule(offsets: seq<int>, run: int, endsAtTimeout: bool)

  /** The first index from `from` on whose tick is free. */
  function FirstFree(rule: Rule, busy: int, from: nat): (first: nat)
    requires from <= |rule.offsets|
    ensures from <= first <= |rule.offsets|
    decreases |rule.offsets| - from
  {
    if from < |rule.offsets| && TickBusy(rule.offsets[from], busy, rule.endsAtTimeout)
    then FirstFree(rule, busy, from + 1)
    else from
  }

  lemma {:induction false} FirstFreeBusyBefore(rule: Rule, busy: int, from: nat)
    requires from <= |rule.offsets|
    ensures var first := FirstFree(rule, busy, from);
            && (forall i :: from <= i < first ==> TickBusy(rule.offsets[i], busy, rule.endsAtTimeout))
            && (first < |rule.offsets| ==> !TickBusy(rule.offsets[first], busy, rule.endsAtTimeout))
    decreases |rule.offsets| - from
  {
    if from < |rule.offsets| && TickBusy(rule.offsets[from], busy, rule.endsAtTimeout) {
      FirstFreeBusyBefore(rule, busy, from + 1);
    }
  }

  lemma {:induction false} FirstFreeUnique(rule: Rule, busy: int, from: nat, first: nat)
    requires from <= first <= |rule.offsets|
    requires forall i :: from <= i < first ==> TickBusy(rule.offsets[i], busy, rule.endsAtTimeout)
    requires first < |rule.offsets| ==> !TickBusy(rule.offsets[first], busy, rule.endsAtTimeout)
    ensures FirstFree(rule, busy, from) == first
    decreases first - from
  {
    if from >= first {
    } else {
      FirstFreeUnique(rule, busy, from + 1, first);
    }
  }

  // ----- One day -----

  /** The ticks from index `first` on when the tick at `first` is free: each run
      blocks the ticks up to the next free one. */
  function FromFree(rule: Rule, first: nat): (outcome: Outcome)
    requires first <= |rule.offsets|
    ensures outcome.starts > 0 <==> first < |rule.offsets|
    decreases |rule.offsets| - first
  {
    if first == |rule.offsets| then Outcome(0, false, 0)
    else
      var busy := rule.offsets[first] + rule.run;
      var next := FirstFree(rule, busy, first + 1);
      var rest := FromFree(rule, next);
      Outcome(1 + rest.starts, next > first + 1 || rest.skipped, if next < |rule.offsets| then rest.busyUntil else busy)
  }

  /** What simulating one kind of ordinary day gives; `last` is the time of day at
      which its last run starts. */
  datatype DayResult = DayResult(starts: nat, skipped: bool, last: int)

  predicate IsDayResult(rule: Rule, first: int, result: DayResult) {
    && 0 <= first <= |rule.offsets|
    && var outcome := FromFree(rule, first);
       && result.starts == outcome.starts
       && (result.skipped <==> first > 0 || outcome.skipped)
       && (first < |rule.offsets| ==> outcome.busyUntil == result.last + rule.run)
  }

  /** The ticks from index `from` on, from any busy time: those before the first
      free one are skipped. */
  function FromBusy(rule: Rule, from: nat, busy: int): Outcome
    requires from <= |rule.offsets|
  {
    var first := FirstFree(rule, busy, from);
    var outcome := FromFree(rule, first);
    Outcome(outcome.starts, first > from || outcome.skipped, if first < |rule.offsets| then outcome.busyUntil else busy)
  }

  lemma {:induction false} FromBusyFirst(rule: Rule, from: nat, busy: int)
    requires from < |rule.offsets|
    ensures FromBusy(rule, from, busy)
            == var tick := rule.offsets[from];
               if TickBusy(tick, busy, rule.endsAtTimeout)
               then FromBusy(rule, from + 1, busy).(skipped := true)
               else var rest := FromBusy(rule, from + 1, tick + rule.run);
                    rest.(starts := rest.starts + 1)
  {
  }

  /** Finding the first free tick and following runs is simulating every tick. */
  lemma {:induction false} FromBusyIsSimulation(rule: Rule, from: nat, busy: int)
    requires from <= |rule.offsets|
    ensures Simulate(rule.offsets[from..], busy, rule.run, rule.endsAtTimeout) == FromBusy(rule, from, busy)
    decreases |rule.offsets| - from
  {
    hide Simulate, FirstFree, FromFree;
    if from == |rule.offsets| {
      SimulateNone(busy, rule.run, rule.endsAtTimeout);
      NoTicksLeft(rule, busy);
    } else {
      var tick, later := rule.offsets[from], rule.offsets[from + 1..];
      assert rule.offsets[from..] == [tick] + later;
      SimulateFirst(tick, later, busy, rule.run, rule.endsAtTimeout);
      FromBusyFirst(rule, from, busy);
      FromBusyIsSimulation(rule, from + 1, if TickBusy(tick, busy, rule.endsAtTimeout) then busy else tick + rule.run);
    }
  }

  lemma NoTicksLeft(rule: Rule, busy: int)
    ensures FromBusy(rule, |rule.offsets|, busy) == Outcome(0, false, busy)
  {
  }

  // ----- Many days -----

  /** What the walk over days uses of an ordinary day: a run that ended before
      the day leaves its first tick free, and one that holds the whole day
      leaves none. */
  ghost predicate DayRule(rule: Rule) {
    && rule.offsets != []
    && (forall busy :: busy < 0 ==> FirstFree(rule, busy, 0) == 0)
    && (forall busy :: busy >= DAY ==> FirstFree(rule, busy, 0) == |rule.offsets|)
  }

  lemma OrdinaryDayRule(rule: Rule)
    requires OrdinaryDay(rule.offsets)
    ensures DayRule(rule)
  {
    forall busy: int | busy >= DAY ensures FirstFree(rule, busy, 0) == |rule.offsets| {
      FirstFreeUnique(rule, busy, 0, |rule.offsets|);
    }
  }

  /** Adds the ordinary day that starts at dayStart to the outcome before it. */
  function AddDay(rule: Rule, before: Outcome, dayStart: int): Outcome {
    var day := FromBusy(rule, 0, before.busyUntil - dayStart);
    Then(before, day.(busyUntil := dayStart + day.busyUntil))
  }

  /** A projection over ordinary days from dayStart on. */
  datatype Walk = Walk(rule: Rule, dayStart: int, busyUntil: int)

  /** The outcome of the first `days` days, a day at a time. */
  function After(walk: Walk, days: nat): Outcome {
    if days == 0 then Outcome(0, false, walk.busyUntil)
    else AddDay(walk.rule, After(walk, days - 1), walk.dayStart + Days(days - 1))
  }

  /** A day at a time is tick by tick. */
  lemma {:induction false} AfterIsSimulation(walk: Walk, days: nat)
    ensures After(walk, days)
            == Simulate(Stretch(walk.rule.offsets, walk.dayStart, days), walk.busyUntil, walk.rule.run, walk.rule.endsAtTimeout)
  {
    hide Simulate, FirstFree, FromFree;
    if days == 0 {
      SimulateNone(walk.busyUntil, walk.rule.run, walk.rule.endsAtTimeout);
    } else {
      AfterIsSimulation(walk, days - 1);
      var rule := walk.rule;
      var start := walk.dayStart + Days(days - 1);
      var before := After(walk, days - 1);
      SimulateThenShifted(Stretch(rule.offsets, walk.dayStart, days - 1), rule.offsets, start,
                          walk.busyUntil, rule.run, rule.endsAtTimeout);
      FromBusyIsSimulation(rule, 0, before.busyUntil - start);
      assert rule.offsets[0..] == rule.offsets;
    }
  }

  /** How long after the start of the day an earlier run holds the job. */
  function BusyAt(walk: Walk, day: nat): int {
    After(walk, day).busyUntil - (walk.dayStart + Days(day))
  }

  /** The index of the day's first free tick. */
  function FirstAt(walk: Walk, day: nat): nat {
    FirstFree(walk.rule, BusyAt(walk, day), 0)
  }

  /** Days on their own, from a start at zero. */
  function Alone(rule: Rule, busy: int, days: nat): Outcome {
    After(Walk(rule, 0, busy), days)
  }

  lemma {:induction false} AfterSplit(walk: Walk, day: nat, more: nat)
    ensures var alone := Alone(walk.rule, BusyAt(walk, day), more);
            After(walk, day + more)
            == Then(After(walk, day), alone.(busyUntil := alone.busyUntil + walk.dayStart + Days(day)))
  {
    hide FromBusy;
    if more == 0 {
    } else {
      AfterSplit(walk, day, more - 1);
      DaysSum(day, more - 1);
    }
  }

  /** One more day, as the automaton adds it. */
  lemma {:induction false} AfterDay(walk: Walk, day: nat, result: DayResult)
    requires IsDayResult(walk.rule, FirstAt(walk, day), result)
    ensures After(walk, day + 1)
            == Then(After(walk, day),
                    Outcome(result.starts, result.skipped,
                            if result.starts > 0 then walk.dayStart + Days(day) + result.last + walk.rule.run
                            else After(walk, day).busyUntil))
  {
  }

  /** Days that the earlier run holds whole: each skips all its ticks. */
  lemma {:induction false} AfterHeldDays(walk: Walk, day: nat, held: nat)
    requires DayRule(walk.rule)
    requires Days(held) <= BusyAt(walk, day)
    ensures After(walk, day + held)
            == Outcome(After(walk, day).starts, After(walk, day).skipped || held > 0, After(walk, day).busyUntil)
  {
    hide FromFree, FirstFree;
    if held == 0 {
    } else {
      AfterHeldDays(walk, day, held - 1);
      DaysSum(day, held - 1);
      var busy := BusyAt(walk, day + held - 1);
      assert busy >= DAY;
    }
  }

  /** The outcomes x and y of the same days differ at most in a busy time that
      is still the initial one, a or b, while no run has started. */
  predicate Alike(rule: Rule, a: int, b: int, days: nat, x: Outcome, y: Outcome) {
    && x.starts == y.starts && x.skipped == y.skipped
    && (x.starts > 0 ==> x.busyUntil == y.busyUntil)
    && (x.starts == 0 ==> x.busyUntil == a && y.busyUntil == b)
    && (x.starts == 0 ==> days == 0 || (days == 1 && FirstFree(rule, a, 0) == |rule.offsets|))
  }

  /** The index of the first free tick decides a whole stretch of days, and the
      busy time after it too, once a run started. */
  lemma {:induction false} FirstFreeDecides(rule: Rule, a: int, b: int, days: nat)
    requires DayRule(rule)
    requires a < DAY && b < DAY && FirstFree(rule, a, 0) == FirstFree(rule, b, 0)
    ensures Alike(rule, a, b, days, Alone(rule, a, days), Alone(rule, b, days))
  {
    if days == 0 {
    } else {
      FirstFreeDecides(rule, a, b, days - 1);
      var x, y := Alone(rule, a, days - 1), Alone(rule, b, days - 1);
      var first := FirstFree(rule, x.busyUntil - Days(days - 1), 0);
      assert first == FirstFree(rule, y.busyUntil - Days(days - 1), 0);
    }
  }

  /** Two days at which the job is held for less than the day and has the same
      first free tick: everything from the first to the second repeats. */
  ghost predicate Repeats(walk: Walk, earlier: nat, day: nat) {
    && DayRule(walk.rule)
    && earlier < day
    && BusyAt(walk, earlier) < DAY && BusyAt(walk, day) < DAY
    && FirstAt(walk, earlier) == FirstAt(walk, day)
  }

  /** The outcomes of one period, x from busy time a and y from busy time b, when
      x leaves the job held for b after the period. */
  lemma {:induction false} PeriodRepeats(rule: Rule, a: int, b: int, period: nat, x: Outcome, y: Outcome)
    requires DayRule(rule) && period > 0
    requires a < DAY && b < DAY && FirstFree(rule, a, 0) == FirstFree(rule, b, 0)
    requires Alike(rule, a, b, period, x, y)
    requires x.busyUntil == b + Days(period)
    ensures y == x
  {
  }

  /** One repetition, from any day with the same busy time. */
  lemma {:induction false} AfterRepetition(walk: Walk, earlier: nat, day: nat, from: nat)
    requires Repeats(walk, earlier, day)
    requires BusyAt(walk, from) == BusyAt(walk, day)
    ensures var there, here, before := After(walk, earlier), After(walk, day), After(walk, from);
            var after := After(walk, from + (day - earlier));
            && here.starts >= there.starts
            && after.starts == before.starts + (here.starts - there.starts)
            && (before.skipped == here.skipped ==> after.skipped == here.skipped)
            && BusyAt(walk, from + (day - earlier)) == BusyAt(walk, day)
  {
    hide After, FirstFree;
    var period := day - earlier;
    var a, b := BusyAt(walk, earlier), BusyAt(walk, day);
    var x, y := Alone(walk.rule, a, period), Alone(walk.rule, b, period);
    DaysSum(earlier, period);
    DaysSum(from, period);
    AfterSplit(walk, earlier, period);
    AfterSplit(walk, from, period);
    FirstFreeDecides(walk.rule, a, b, period);
    PeriodRepeats(walk.rule, a, b, period, x, y);
  }

  /** Adding whole repetitions at once is exact. */
  lemma {:induction false} AfterRepetitions(walk: Walk, earlier: nat, day: nat, repetitions: nat)
    requires Repeats(walk, earlier, day)
    ensures var there, here := After(walk, earlier), After(walk, day);
            var to := day + repetitions * (day - earlier);
            && here.starts >= there.starts
            && After(walk, to).starts == here.starts + repetitions * (here.starts - there.starts)
            && After(walk, to).skipped == here.skipped
            && BusyAt(walk, to) == BusyAt(walk, day)
  {
    hide After;
    AfterRepetition(walk, earlier, day, day);
    if repetitions == 0 {
    } else {
      AfterRepetitions(walk, earlier, day, repetitions - 1);
      var from := day + (repetitions - 1) * (day - earlier);
      assert from + (day - earlier) == day + repetitions * (day - earlier);
      AfterRepetition(walk, earlier, day, from);
    }
  }

  /** A day after the repetitions has the state of the day as long after the
      earlier visit, so no day is visited in a state not visited before. */
  lemma {:induction false} RevisitsEarlierState(walk: Walk, earlier: nat, day: nat, to: nat, x: nat)
    requires Repeats(walk, earlier, day)
    requires BusyAt(walk, to) == BusyAt(walk, day)
    ensures BusyAt(walk, to + x) < DAY ==>
              BusyAt(walk, earlier + x) < DAY && FirstAt(walk, earlier + x) == FirstAt(walk, to + x)
  {
    hide After, FirstFree;
    var a, b := BusyAt(walk, earlier), BusyAt(walk, day);
    FirstFreeDecides(walk.rule, a, b, x);
    DaysSum(earlier, x);
    DaysSum(to, x);
    assert BusyAt(walk, to + x) == Alone(walk.rule, b, x).busyUntil - Days(x) by {
      AfterSplit(walk, to, x);
    }
    assert BusyAt(walk, earlier + x) == Alone(walk.rule, a, x).busyUntil - Days(x) by {
      AfterSplit(walk, earlier, x);
    }
    AlikeFirstFree(walk.rule, a, b, x, Alone(walk.rule, a, x), Alone(walk.rule, b, x));
  }

  lemma {:induction false} AlikeFirstFree(rule: Rule, a: int, b: int, days: nat, x: Outcome, y: Outcome)
    requires DayRule(rule)
    requires a < DAY && b < DAY && FirstFree(rule, a, 0) == FirstFree(rule, b, 0)
    requires Alike(rule, a, b, days, x, y)
    ensures FirstFree(rule, x.busyUntil - Days(days), 0) == FirstFree(rule, y.busyUntil - Days(days), 0)
    ensures y.busyUntil - Days(days) < DAY ==> x.busyUntil - Days(days) < DAY
  {
  }
}
