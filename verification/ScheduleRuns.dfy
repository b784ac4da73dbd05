/** Two shortcuts around the simulation: none is needed for a run that fits every gap
    between ticks, and one serves all runs that round to the same minutes. */
module ScheduleRuns {
  import opened ScheduleTicks

  // ----- Runs of whole minutes -----

  /** The run that a projection uses for a run on a schedule whose ticks are whole
      minutes apart when minuteTicks is set. */
  function ProjectedRun(minuteTicks: bool, run: int, endsAtTimeout: bool): (int, bool) {
    if !minuteTicks || run <= 0 then (run, endsAtTimeout)
    else if endsAtTimeout then ((run / MINUTE + 1) * MINUTE, false)
    else ((run + MINUTE - 1) / MINUTE * MINUTE, false)
  }

  /** A run blocks the same ticks as its projected run. */
  lemma BlocksTheSame(tick: int, began: int, run: int, endsAtTimeout: bool)
    requires run > 0 && (tick - began) % MINUTE == 0
    ensures var (projected, timeout) := ProjectedRun(true, run, endsAtTimeout);
            TickBusy(tick, began + run, endsAtTimeout) == TickBusy(tick, began + projected, timeout)
  {
    var minutes := (tick - began) / MINUTE;
    assert tick - began == minutes * MINUTE;
    var whole, part := run / MINUTE, run % MINUTE;
    assert run == whole * MINUTE + part;
    var ceiling := (run + MINUTE - 1) / MINUTE;
    assert ceiling == if part == 0 then whole else whole + 1;
  }

  /** Simulating the projected run, which ignores the timeout, from a run that
      began at the same tick gives the same starts and skips. */
  lemma {:induction false} WholeMinutesAgree(ticks: seq<int>, began: int, run: int, endsAtTimeout: bool)
    requires run > 0
    requires forall i :: 0 <= i < |ticks| ==> (ticks[i] - began) % MINUTE == 0
    ensures var (projected, timeout) := ProjectedRun(true, run, endsAtTimeout);
            var exact := Simulate(ticks, began + run, run, endsAtTimeout);
            var shared := Simulate(ticks, began + projected, projected, timeout);
            && exact.starts == shared.starts && exact.skipped == shared.skipped
            && exact.busyUntil - run == shared.busyUntil - projected
  {
    if ticks == [] {
    } else {
      BlocksTheSame(ticks[0], began, run, endsAtTimeout);
      if TickBusy(ticks[0], began + run, endsAtTimeout) {
        WholeMinutesAgree(ticks[1..], began, run, endsAtTimeout);
      } else {
        forall i | 0 <= i < |ticks[1..]| ensures (ticks[1..][i] - ticks[0]) % MINUTE == 0 {
          DifferenceOfWholeMinutes(ticks[i + 1] - began, ticks[0] - began);
        }
        WholeMinutesAgree(ticks[1..], ticks[0], run, endsAtTimeout);
      }
    }
  }

  /** Whatever the ticks and the run, the projected run gives the starts and skips of
      the run itself; on ticks whole minutes apart it is the next whole number of
      minutes, without the timeout rule, so that all runs within a minute share it. */
  lemma {:induction false} ProjectedRunAgrees(minuteTicks: bool, ticks: seq<int>, began: int, run: int, endsAtTimeout: bool)
    requires minuteTicks ==> forall i :: 0 <= i < |ticks| ==> (ticks[i] - began) % MINUTE == 0
    ensures var (projected, timeout) := ProjectedRun(minuteTicks, run, endsAtTimeout);
            var exact := Simulate(ticks, began + run, run, endsAtTimeout);
            var shared := Simulate(ticks, began + projected, projected, timeout);
            && exact.starts == shared.starts && exact.skipped == shared.skipped
            && exact.busyUntil - run == shared.busyUntil - projected
            && (minuteTicks && run > 0 ==> projected % MINUTE == 0 && !timeout && run <= projected <= run + MINUTE)
  {
    hide Simulate;
    if minuteTicks && run > 0 {
      WholeMinutesAgree(ticks, began, run, endsAtTimeout);
    }
  }

  lemma DifferenceOfWholeMinutes(a: int, b: int)
    requires a % MINUTE == 0 && b % MINUTE == 0
    ensures (a - b) % MINUTE == 0
  {
  }

  // ----- Runs that fit every gap -----

  /** The smaller of two gaps, where zero stands for no gap. */
  function LeastGap(a: int, b: int): int {
    if a == 0 then b else if b == 0 || a < b then a else b
  }

  /** The shortest time from one tick to the next, or zero below two ticks. */
  function MinimumGap(ticks: seq<int>): int {
    if |ticks| < 2 then 0
    else LeastGap(MinimumGap(ticks[..|ticks| - 1]), ticks[|ticks| - 1] - ticks[|ticks| - 2])
  }

  function Gap(ticks: seq<int>, i: int): int
    requires 0 < i < |ticks|
  {
    ticks[i] - ticks[i - 1]
  }

  lemma {:induction false} MinimumGapIsMinimum(ticks: seq<int>) returns (at: nat)
    requires Increasing(ticks) && |ticks| >= 2
    ensures 0 < at < |ticks| && MinimumGap(ticks) == Gap(ticks, at) > 0
    ensures forall i :: 0 < i < |ticks| ==> MinimumGap(ticks) <= Gap(ticks, i)
  {
    var last := |ticks| - 1;
    var rest := ticks[..last];
    if last == 1 {
      at := 1;
      assert MinimumGap(rest) == 0;
    } else {
      at := MinimumGapIsMinimum(rest);
      assert forall i :: 0 < i < last ==> Gap(ticks, i) == Gap(rest, i);
      if Gap(ticks, last) < MinimumGap(rest) {
        at := last;
      }
    }
  }

  /** The shortest gap of ticks followed by later ticks. */
  lemma {:induction false} MinimumGapConcat(a: seq<int>, b: seq<int>)
    requires a != [] && b != []
    ensures MinimumGap(a + b) == LeastGap(LeastGap(MinimumGap(a), b[0] - a[|a| - 1]), MinimumGap(b))
  {
    var last := |b| - 1;
    assert (a + b)[..|a| + last] == a + b[..last];
    if last == 0 {
      assert a + b[..last] == a;
    } else {
      MinimumGapConcat(a, b[..last]);
    }
  }

  lemma {:induction false} MinimumGapShift(ticks: seq<int>, shift: int)
    ensures MinimumGap(Shifted(ticks, shift)) == MinimumGap(ticks)
  {
    if |ticks| < 2 {
    } else {
      assert Shifted(ticks, shift)[..|ticks| - 1] == Shifted(ticks[..|ticks| - 1], shift);
      MinimumGapShift(ticks[..|ticks| - 1], shift);
    }
  }

  /** Whether a run always ends before the next tick. */
  predicate RunFitsEveryGap(minimumGap: int, run: int, endsAtTimeout: bool) {
    if run <= 0 then true
    else if minimumGap <= 0 then false
    else run < minimumGap || (!endsAtTimeout && run == minimumGap)
  }

  /** From an idle start a run starts at every tick exactly when it fits every
      gap, or when there are not two ticks. */
  lemma {:induction false} FitsIffEveryTickStarts(ticks: seq<int>, busyUntil: int, run: int, endsAtTimeout: bool)
    requires Increasing(ticks)
    requires ticks != [] ==> !TickBusy(ticks[0], busyUntil, endsAtTimeout)
    ensures var outcome := Simulate(ticks, busyUntil, run, endsAtTimeout);
            && (outcome.starts == |ticks| <==> RunFitsEveryGap(MinimumGap(ticks), run, endsAtTimeout) || |ticks| < 2)
            && (outcome.skipped <==> outcome.starts < |ticks|)
  {
    hide Simulate, Increasing;
    SkippedIffFewerStarts(ticks, busyUntil, run, endsAtTimeout);
    if |ticks| < 2 {
      StartsEveryTick(ticks, busyUntil, run, endsAtTimeout);
    } else {
      var at := MinimumGapIsMinimum(ticks);
      if RunFitsEveryGap(MinimumGap(ticks), run, endsAtTimeout) {
        StartsEveryTick(ticks, busyUntil, run, endsAtTimeout);
      } else {
        SkipsSomeTick(ticks, busyUntil, run, endsAtTimeout, at);
      }
    }
  }

  /** A run that starts at a tick has ended at the tick that follows after `gap`. */
  predicate Fits(gap: int, run: int, endsAtTimeout: bool) {
    if endsAtTimeout then gap > run else gap >= run
  }

  lemma {:induction false} StartsEveryTick(ticks: seq<int>, busyUntil: int, run: int, endsAtTimeout: bool)
    requires ticks != [] ==> !TickBusy(ticks[0], busyUntil, endsAtTimeout)
    requires forall i :: 0 < i < |ticks| ==> Fits(Gap(ticks, i), run, endsAtTimeout)
    ensures Simulate(ticks, busyUntil, run, endsAtTimeout).starts == |ticks|
  {
    if ticks == [] {
    } else {
      var rest := ticks[1..];
      forall i | 0 < i < |rest| ensures Fits(Gap(rest, i), run, endsAtTimeout) {
        assert Gap(rest, i) == Gap(ticks, i + 1);
      }
      assert rest != [] ==> Fits(Gap(ticks, 1), run, endsAtTimeout);
      StartsEveryTick(rest, ticks[0] + run, run, endsAtTimeout);
    }
  }

  lemma {:induction false} SkipsSomeTick(ticks: seq<int>, busyUntil: int, run: int, endsAtTimeout: bool, at: nat)
    requires 0 < at < |ticks| && !Fits(Gap(ticks, at), run, endsAtTimeout)
    ensures Simulate(ticks, busyUntil, run, endsAtTimeout).starts < |ticks|
  {
    var rest := ticks[1..];
    var free := !TickBusy(ticks[0], busyUntil, endsAtTimeout);
    SkippedIffFewerStarts(rest, if free then ticks[0] + run else busyUntil, run, endsAtTimeout);
    if free {
      if at > 1 {
        assert Gap(rest, at - 1) == Gap(ticks, at);
        SkipsSomeTick(rest, ticks[0] + run, run, endsAtTimeout, at - 1);
      } else {
        SkippedIffFewerStarts(rest[1..], ticks[0] + run, run, endsAtTimeout);
      }
    }
  }
}
