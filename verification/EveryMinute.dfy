/** The closed form for schedules that tick every minute, against the two-run
    warm start followed by tick-by-tick simulation. */
module EveryMinute {
  import opened Division
  import opened ScheduleTicks

  /** The instant of a minute, counted from the start of the sample, which is a
      tick itself. */
  function Minute(start: int, minute: int): int {
    start + minute * MINUTE
  }

  /** The ticks from minute `lo` until minute `hi`. */
  function MinuteTicks(start: int, lo: int, hi: int): (ticks: seq<int>)
    ensures |ticks| == if lo >= hi then 0 else hi - lo
    decreases hi - lo
  {
    if lo >= hi then [] else [Minute(start, lo)] + MinuteTicks(start, lo + 1, hi)
  }

  /** The reference: simulate from two run durations before the sample, while
      nothing holds the job yet, and count the sample's own ticks. */
  function WarmStarted(start: int, window: nat, run: int, endsAtTimeout: bool, never: int): Outcome {
    var prefix := Simulate(MinuteTicks(start, -(2 * run / MINUTE), 0), never, run, endsAtTimeout);
    Simulate(MinuteTicks(start, 0, window), prefix.busyUntil, run, endsAtTimeout)
  }

  /** Integer division of Go, which truncates towards zero. */
  function GoDiv(a: int, b: int): int
    requires b > 0
  {
    if a >= 0 then a / b else -((-a) / b)
  }

  function GoMod(a: int, b: int): int
    requires b > 0
  {
    a - GoDiv(a, b) * b
  }

  /** The whole minutes from one start to the next. */
  function StepMinutes(run: int, endsAtTimeout: bool): int {
    GoDiv(run, MINUTE) + if GoMod(run, MINUTE) != 0 || endsAtTimeout then 1 else 0
  }

  /** The first start in the window: the first minute of the warm start, moved by
      whole steps until it is not before the window. */
  function FirstStart(start: int, run: int, endsAtTimeout: bool): int
    requires run > 0
  {
    StepIsPositive(run, endsAtTimeout);
    var warmStart := start - 2 * run;
    var first := start + GoDiv(warmStart - start, MINUTE) * MINUTE;
    var step := StepMinutes(run, endsAtTimeout) * MINUTE;
    if first < start then
      var delta := start - first;
      var jumps := GoDiv(delta, step) + if GoMod(delta, step) != 0 then 1 else 0;
      first + jumps * step
    else first
  }

  /** The closed form: the starts in the window, and whether a tick is skipped.
      The window is whole minutes, as the calendar years of the sample are. */
  function ClosedForm(start: int, window: nat, run: int, endsAtTimeout: bool): (int, bool)
    requires run > 0
  {
    if window == 0 || run > window * MINUTE then (0, false)
    else
      StepIsPositive(run, endsAtTimeout);
      var end := start + window * MINUTE;
      var stepMinutes := StepMinutes(run, endsAtTimeout);
      var starts := GoDiv(end - FirstStart(start, run, endsAtTimeout) - 1, stepMinutes * MINUTE) + 1;
      (starts, stepMinutes > 1 && starts < window)
  }

  lemma StepIsPositive(run: int, endsAtTimeout: bool)
    requires run > 0
    ensures StepMinutes(run, endsAtTimeout) > 0
  {
    assert run / MINUTE >= 0;
    assert run == run / MINUTE * MINUTE + run % MINUTE;
  }

  // ----- Simulation in whole minutes -----

  /** From minute `lo` on, the job is held at exactly the minutes before `free`. */
  ghost predicate HeldBefore(start: int, busy: int, endsAtTimeout: bool, lo: int, free: int) {
    forall minute: int :: lo <= minute ==>
      (TickBusy(Minute(start, minute), busy, endsAtTimeout) <==> minute < free)
  }

  /** A run that starts at a minute holds the job for StepMinutes. */
  lemma RunHolds(start: int, minute: int, run: int, endsAtTimeout: bool)
    requires run > 0
    ensures HeldBefore(start, Minute(start, minute) + run, endsAtTimeout, minute, minute + StepMinutes(run, endsAtTimeout))
  {
    forall m: int
      ensures TickBusy(Minute(start, m), Minute(start, minute) + run, endsAtTimeout)
              <==> m < minute + StepMinutes(run, endsAtTimeout)
    {
      HoldsMinutes(m - minute, run, endsAtTimeout);
      assert m * MINUTE - minute * MINUTE == (m - minute) * MINUTE;
    }
  }

  lemma HoldsMinutes(minutes: int, run: int, endsAtTimeout: bool)
    requires run > 0
    ensures (if endsAtTimeout then minutes * MINUTE <= run else minutes * MINUTE < run)
            <==> minutes < StepMinutes(run, endsAtTimeout)
  {
    var whole, part := run / MINUTE, run % MINUTE;
    assert run == whole * MINUTE + part && 0 <= part < MINUTE;
    if minutes < whole {
      assert minutes * MINUTE <= (whole - 1) * MINUTE;
    } else if minutes > whole {
      assert minutes * MINUTE >= (whole + 1) * MINUTE;
    }
  }

  /** The starts from minute `free` on, step minutes apart, until minute `hi`. */
  function StartsUntil(free: int, hi: int, step: int): nat
    requires step > 0
    decreases hi - free
  {
    if free >= hi then 0 else 1 + StartsUntil(free + step, hi, step)
  }

  /** The first of those minutes that is not before `hi`. */
  function FreeFrom(free: int, hi: int, step: int): int
    requires step > 0
    decreases hi - free
  {
    if free >= hi then free else FreeFrom(free + step, hi, step)
  }

  lemma {:induction false} SimulateMinutes(start: int, lo: int, hi: int, busy: int, run: int, endsAtTimeout: bool, free: int)
    requires run > 0 && lo <= free
    requires HeldBefore(start, busy, endsAtTimeout, lo, free)
    ensures StepMinutes(run, endsAtTimeout) > 0
    ensures var step := StepMinutes(run, endsAtTimeout);
            var outcome := Simulate(MinuteTicks(start, lo, hi), busy, run, endsAtTimeout);
            && outcome.starts == StartsUntil(free, hi, step)
            && (lo <= hi ==> HeldBefore(start, outcome.busyUntil, endsAtTimeout, hi, FreeFrom(free, hi, step)))
    decreases hi - lo
  {
    hide GoDiv, GoMod, StepMinutes, Simulate, Minute;
    StepIsPositive(run, endsAtTimeout);
    if lo >= hi {
      SimulateNone(busy, run, endsAtTimeout);
    } else {
      var tick := Minute(start, lo);
      SimulateFirst(tick, MinuteTicks(start, lo + 1, hi), busy, run, endsAtTimeout);
      if lo < free {
        SimulateMinutes(start, lo + 1, hi, busy, run, endsAtTimeout, free);
      } else {
        RunHolds(start, lo, run, endsAtTimeout);
        SimulateMinutes(start, lo + 1, hi, tick + run, run, endsAtTimeout, lo + StepMinutes(run, endsAtTimeout));
      }
    }
  }

  // ----- The closed form in whole minutes -----

  lemma {:induction false} StartsUntilCount(free: int, hi: int, step: int)
    requires step > 0 && free < hi
    ensures StartsUntil(free, hi, step) == (hi - free - 1) / step + 1
    decreases hi - free
  {
    if free + step >= hi {
    } else {
      StartsUntilCount(free + step, hi, step);
      OneStepFurther(hi - free - 1, step);
    }
  }

  lemma OneStepFurther(n: int, step: int)
    requires 0 < step <= n
    ensures n / step == (n - step) / step + 1 && n % step == (n - step) % step
  {
    var q := (n - step) / step;
    assert n == (q + 1) * step + (n - step) % step;
    QuotientUnique(n, step, q + 1, (n - step) % step);
  }

  /** How many steps lead from d minutes before the window into it. */
  function Jumps(d: int, step: int): nat
    requires d >= 0 && step > 0
  {
    d / step + if d % step != 0 then 1 else 0
  }

  lemma {:induction false} FreeFromJumps(d: int, step: int)
    requires d >= 0 && step > 0
    ensures FreeFrom(-d, 0, step) == -d + Jumps(d, step) * step
    decreases d
  {
    if d <= 0 {
    } else {
      if d <= step {
        assert FreeFrom(-d, 0, step) == -d + step;
        if d < step {
          QuotientUnique(d, step, 0, d);
        } else {
          QuotientUnique(d, step, 1, 0);
        }
      } else {
        FreeFromJumps(d - step, step);
        OneStepFurther(d, step);
        var before := Jumps(d - step, step);
        assert Jumps(d, step) == before + 1;
        assert (before + 1) * step == before * step + step;
      }
    }
  }

  /** Dividing whole minutes by whole minutes. */
  lemma ScaledDivision(n: nat, step: int)
    requires step > 0
    ensures step * MINUTE > 0
    ensures n * MINUTE / (step * MINUTE) == n / step
    ensures n * MINUTE % (step * MINUTE) == 0 <==> n % step == 0
  {
    var q, r := n / step, n % step;
    assert n * MINUTE == q * (step * MINUTE) + r * MINUTE;
    assert r * MINUTE < step * MINUTE;
    QuotientUnique(n * MINUTE, step * MINUTE, q, r * MINUTE);
  }

  lemma ScaledDivisionBelow(n: nat, step: int)
    requires step > 0 && n > 0
    ensures step * MINUTE > 0
    ensures (n * MINUTE - 1) / (step * MINUTE) == (n - 1) / step
  {
    var q, r := (n - 1) / step, (n - 1) % step;
    assert n - 1 == q * step + r;
    assert n * MINUTE - 1 == q * (step * MINUTE) + ((r + 1) * MINUTE - 1);
    assert (r + 1) * MINUTE <= step * MINUTE;
    QuotientUnique(n * MINUTE - 1, step * MINUTE, q, (r + 1) * MINUTE - 1);
  }

  /** The first start in the window, in minutes from its start. */
  function Aligned(run: int, endsAtTimeout: bool): int
    requires run > 0
  {
    StepIsPositive(run, endsAtTimeout);
    var d := 2 * run / MINUTE;
    -d + Jumps(d, StepMinutes(run, endsAtTimeout)) * StepMinutes(run, endsAtTimeout)
  }

  lemma FewJumps(d: int, step: int)
    requires d >= 0 && step > 0
    ensures d == 0 ==> Jumps(d, step) == 0
    ensures 0 < d <= step ==> Jumps(d, step) == 1
    ensures step < d <= 2 * step ==> Jumps(d, step) == 2
  {
    if d < step {
      QuotientUnique(d, step, 0, d);
    } else if d < 2 * step {
      QuotientUnique(d, step, 1, d - step);
    } else if d == 2 * step {
      QuotientUnique(d, step, 2, 0);
    }
  }

  /** The first start comes at most two minutes into the window, and past the end
      of a window no shorter than the run in one case only. */
  lemma AlignedIsEarly(run: int, endsAtTimeout: bool)
    requires run > 0
    ensures 0 <= Aligned(run, endsAtTimeout) <= 2
    ensures StepMinutes(run, endsAtTimeout) == 1 ==> Aligned(run, endsAtTimeout) == 0
    ensures run <= MINUTE ==> Aligned(run, endsAtTimeout) == 0
    ensures run <= 2 * MINUTE ==> (Aligned(run, endsAtTimeout) == 2 <==> run == 2 * MINUTE && endsAtTimeout)
  {
    StepIsPositive(run, endsAtTimeout);
    var whole, part := run / MINUTE, run % MINUTE;
    var d := 2 * run / MINUTE;
    assert run == whole * MINUTE + part;
    if 2 * part >= MINUTE {
      QuotientUnique(2 * run, MINUTE, 2 * whole + 1, 2 * part - MINUTE);
    } else {
      QuotientUnique(2 * run, MINUTE, 2 * whole, 2 * part);
    }
    FewJumps(d, StepMinutes(run, endsAtTimeout));
  }

  lemma FirstStartIsAligned(start: int, run: int, endsAtTimeout: bool)
    requires run > 0
    ensures FirstStart(start, run, endsAtTimeout) == start + Aligned(run, endsAtTimeout) * MINUTE
  {
    StepIsPositive(run, endsAtTimeout);
    var step := StepMinutes(run, endsAtTimeout);
    var d := 2 * run / MINUTE;
    assert GoDiv(-2 * run, MINUTE) == -d;
    ScaledDivision(d, step);
    var delta := d * MINUTE;
    assert GoMod(delta, step * MINUTE) == delta % (step * MINUTE);
    var jumps := Jumps(d, step);
    assert -d * MINUTE + jumps * (step * MINUTE) == (-d + jumps * step) * MINUTE;
  }

  /** The closed form is the division of the whole minutes left in the window. */
  lemma ClosedFormInMinutes(start: int, window: nat, run: int, endsAtTimeout: bool)
    requires run > 0 && 0 < window && run <= window * MINUTE
    ensures StepMinutes(run, endsAtTimeout) > 0
    ensures var left := window - Aligned(run, endsAtTimeout);
            var step := StepMinutes(run, endsAtTimeout);
            var starts := (if left > 0 then (left - 1) / step else GoDiv(left * MINUTE - 1, step * MINUTE)) + 1;
            ClosedForm(start, window, run, endsAtTimeout) == (starts, step > 1 && starts < window)
  {
    hide FirstStart, Aligned, StepMinutes;
    StepIsPositive(run, endsAtTimeout);
    FirstStartIsAligned(start, run, endsAtTimeout);
    var left := window - Aligned(run, endsAtTimeout);
    assert window * MINUTE - Aligned(run, endsAtTimeout) * MINUTE == left * MINUTE;
    if left > 0 {
      ScaledDivisionBelow(left, StepMinutes(run, endsAtTimeout));
    }
  }

  /** The warm start leaves the job held until the first aligned start. */
  lemma WarmStartedStarts(start: int, window: nat, run: int, endsAtTimeout: bool, never: int)
    requires run > 0
    requires never < start - 2 * run
    ensures StepMinutes(run, endsAtTimeout) > 0 && Aligned(run, endsAtTimeout) >= 0
    ensures WarmStarted(start, window, run, endsAtTimeout, never).starts
            == StartsUntil(Aligned(run, endsAtTimeout), window, StepMinutes(run, endsAtTimeout))
  {
    hide GoDiv, GoMod, StepMinutes, Simulate;
    AlignedIsEarly(run, endsAtTimeout);
    StepIsPositive(run, endsAtTimeout);
    var d := 2 * run / MINUTE;
    assert d * MINUTE <= 2 * run;
    assert HeldBefore(start, never, endsAtTimeout, -d, -d) by {
      forall minute: int | -d <= minute ensures !TickBusy(Minute(start, minute), never, endsAtTimeout) {
        assert -d * MINUTE <= minute * MINUTE;
      }
    }
    SimulateMinutes(start, -d, 0, never, run, endsAtTimeout, -d);
    FreeFromJumps(d, StepMinutes(run, endsAtTimeout));
    var prefix := Simulate(MinuteTicks(start, -d, 0), never, run, endsAtTimeout);
    SimulateMinutes(start, 0, window, prefix.busyUntil, run, endsAtTimeout, Aligned(run, endsAtTimeout));
  }

  /** For every whole-minute window that is no shorter than the run, the closed
      form is the tick-by-tick simulation after its warm start, except for a run
      of two minutes that its timeout ends in a window of two minutes: it starts
      nothing there, and the closed form counts one start. */
  lemma ClosedFormIsExact(start: int, window: nat, run: int, endsAtTimeout: bool, never: int)
    requires 0 < run <= window * MINUTE
    requires never < start - 2 * run
    ensures var outcome := WarmStarted(start, window, run, endsAtTimeout, never);
            if window == 2 && run == 2 * MINUTE && endsAtTimeout then
              ClosedForm(start, window, run, endsAtTimeout) == (1, true) && outcome.starts == 0 && outcome.skipped
            else
              ClosedForm(start, window, run, endsAtTimeout) == (outcome.starts, outcome.skipped)
  {
    hide GoMod, StepMinutes, Simulate, ClosedForm, Aligned;
    var outcome := WarmStarted(start, window, run, endsAtTimeout, never);
    AlignedIsEarly(run, endsAtTimeout);
    StepIsPositive(run, endsAtTimeout);
    var step, free := StepMinutes(run, endsAtTimeout), Aligned(run, endsAtTimeout);
    WarmStartedStarts(start, window, run, endsAtTimeout, never);
    WarmStartedSkips(start, window, run, endsAtTimeout, never);
    ClosedFormInMinutes(start, window, run, endsAtTimeout);
    if free < window {
      StartsUntilCount(free, window, step);
      assert step == 1 ==> (window - free - 1) / step + 1 == window;
    } else {
      assert window == 2 && run == 2 * MINUTE && endsAtTimeout;
      assert step * MINUTE > 0;
      assert GoDiv(-1, step * MINUTE) == 0 by {
        QuotientUnique(1, step * MINUTE, 0, 1);
      }
    }
  }

  lemma WarmStartedSkips(start: int, window: nat, run: int, endsAtTimeout: bool, never: int)
    ensures var outcome := WarmStarted(start, window, run, endsAtTimeout, never);
            outcome.skipped <==> outcome.starts < window
  {
    var prefix := Simulate(MinuteTicks(start, -(2 * run / MINUTE), 0), never, run, endsAtTimeout);
    SkippedIffFewerStarts(MinuteTicks(start, 0, window), prefix.busyUntil, run, endsAtTimeout);
  }

  /** In particular it is exact for the sample's years. */
  lemma ClosedFormIsExactForLongWindows(start: int, window: nat, run: int, endsAtTimeout: bool, never: int)
    requires 2 < window && 0 < run <= window * MINUTE
    requires never < start - 2 * run
    ensures var outcome := WarmStarted(start, window, run, endsAtTimeout, never);
            ClosedForm(start, window, run, endsAtTimeout) == (outcome.starts, outcome.skipped)
  {
    ClosedFormIsExact(start, window, run, endsAtTimeout, never);
  }
}
