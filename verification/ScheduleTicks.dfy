/** Ticks of a schedule and the tick-by-tick simulation of the scheduler's
    skip-while-active rule, which every faster projection must agree with.
    Instants and durations are integer nanoseconds. */
module ScheduleTicks {

  const MINUTE := 60_000_000_000
  const DAY := 86_400_000_000_000

  /** The length of so many whole days. */
  function Days(count: nat): int {
    if count == 0 then 0 else Days(count - 1) + DAY
  }

  lemma {:induction false} DaysProduct(count: nat)
    ensures Days(count) == count * DAY
  {
    if count == 0 {
    } else {
      DaysProduct(count - 1);
    }
  }

  lemma {:induction false} DaysSum(a: nat, b: nat)
    ensures Days(a + b) == Days(a) + Days(b)
  {
    if b == 0 {
    } else {
      DaysSum(a, b - 1);
    }
  }

  /** What simulating some ticks yields: how many runs start, whether one could not,
      and when the job is free of them. */
  datatype Outcome = Outcome(starts: nat, skipped: bool, busyUntil: int)

  /** The job is held before `busyUntil`, and at that very instant too when the run's
      timeout ended it, since its end has to be recorded first. */
  predicate TickBusy(tick: int, busyUntil: int, endsAtTimeout: bool) {
    if endsAtTimeout then tick <= busyUntil else tick < busyUntil
  }

  predicate Increasing(ticks: seq<int>) {
    forall i, j :: 0 <= i < j < |ticks| ==> ticks[i] < ticks[j]
  }

  /** The reference: take the ticks one at a time. */
  function Simulate(ticks: seq<int>, busyUntil: int, run: int, endsAtTimeout: bool): Outcome {
    if ticks == [] then
      Outcome(0, false, busyUntil)
    else if TickBusy(ticks[0], busyUntil, endsAtTimeout) then
      Simulate(ticks[1..], busyUntil, run, endsAtTimeout).(skipped := true)
    else
      var rest := Simulate(ticks[1..], ticks[0] + run, run, endsAtTimeout);
      rest.(starts := rest.starts + 1)
  }

  lemma SimulateNone(busyUntil: int, run: int, endsAtTimeout: bool)
    ensures Simulate([], busyUntil, run, endsAtTimeout) == Outcome(0, false, busyUntil)
  {
  }

  lemma {:induction false} SimulateFirst(tick: int, later: seq<int>, busyUntil: int, run: int, endsAtTimeout: bool)
    ensures Simulate([tick] + later, busyUntil, run, endsAtTimeout)
            == if TickBusy(tick, busyUntil, endsAtTimeout)
               then Simulate(later, busyUntil, run, endsAtTimeout).(skipped := true)
               else var rest := Simulate(later, tick + run, run, endsAtTimeout);
                    rest.(starts := rest.starts + 1)
  {
    assert ([tick] + later)[1..] == later;
  }

  /** One outcome followed by another that starts from where the first ended. */
  function Then(a: Outcome, b: Outcome): Outcome {
    Outcome(a.starts + b.starts, a.skipped || b.skipped, b.busyUntil)
  }

  lemma {:induction false} SimulateConcat(a: seq<int>, b: seq<int>, busyUntil: int, run: int, endsAtTimeout: bool)
    ensures var first := Simulate(a, busyUntil, run, endsAtTimeout);
            Simulate(a + b, busyUntil, run, endsAtTimeout)
            == Then(first, Simulate(b, first.busyUntil, run, endsAtTimeout))
  {
    if a == [] {
      assert a + b == b;
    } else {
      assert (a + b)[1..] == a[1..] + b;
      SimulateConcat(a[1..], b, if TickBusy(a[0], busyUntil, endsAtTimeout) then busyUntil else a[0] + run, run, endsAtTimeout);
    }
  }

  function Shifted(ticks: seq<int>, shift: int): seq<int> {
    seq(|ticks|, i requires 0 <= i < |ticks| => ticks[i] + shift)
  }

  /** Moving every instant by the same amount moves the outcome by it. */
  lemma {:induction false} SimulateShift(ticks: seq<int>, busyUntil: int, run: int, endsAtTimeout: bool, shift: int)
    ensures var outcome := Simulate(ticks, busyUntil, run, endsAtTimeout);
            Simulate(Shifted(ticks, shift), busyUntil + shift, run, endsAtTimeout)
            == outcome.(busyUntil := outcome.busyUntil + shift)
  {
    if ticks == [] {
    } else {
      assert Shifted(ticks, shift)[1..] == Shifted(ticks[1..], shift);
      SimulateShift(ticks[1..], if TickBusy(ticks[0], busyUntil, endsAtTimeout) then busyUntil else ticks[0] + run,
                    run, endsAtTimeout, shift);
    }
  }

  /** Simulating on is simulating from the busy time relative to the shift. */
  lemma {:induction false} SimulateThenShifted(a: seq<int>, b: seq<int>, shift: int, busyUntil: int, run: int, endsAtTimeout: bool)
    ensures var first := Simulate(a, busyUntil, run, endsAtTimeout);
            var second := Simulate(b, first.busyUntil - shift, run, endsAtTimeout);
            Simulate(a + Shifted(b, shift), busyUntil, run, endsAtTimeout)
            == Then(first, second.(busyUntil := second.busyUntil + shift))
  {
    SimulateConcat(a, Shifted(b, shift), busyUntil, run, endsAtTimeout);
    SimulateShift(b, Simulate(a, busyUntil, run, endsAtTimeout).busyUntil - shift, run, endsAtTimeout, shift);
  }

  /** Ticks that the earlier run all holds start nothing. */
  lemma {:induction false} SimulateAllBusy(ticks: seq<int>, busyUntil: int, run: int, endsAtTimeout: bool)
    requires forall i :: 0 <= i < |ticks| ==> TickBusy(ticks[i], busyUntil, endsAtTimeout)
    ensures Simulate(ticks, busyUntil, run, endsAtTimeout) == Outcome(0, ticks != [], busyUntil)
  {
    if ticks == [] {
    } else {
      SimulateAllBusy(ticks[1..], busyUntil, run, endsAtTimeout);
    }
  }

  /** Every tick either starts a run or is skipped. */
  lemma {:induction false} SkippedIffFewerStarts(ticks: seq<int>, busyUntil: int, run: int, endsAtTimeout: bool)
    ensures var outcome := Simulate(ticks, busyUntil, run, endsAtTimeout);
            outcome.starts <= |ticks| && (outcome.skipped <==> outcome.starts < |ticks|)
  {
    if ticks == [] {
    } else {
      SkippedIffFewerStarts(ticks[1..], if TickBusy(ticks[0], busyUntil, endsAtTimeout) then busyUntil else ticks[0] + run,
                            run, endsAtTimeout);
    }
  }
}
