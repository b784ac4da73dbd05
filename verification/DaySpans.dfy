/** The spans of days on which a schedule ticks, and the ticks they stand for. */
module DaySpans {
  import opened Optional
  import opened ScheduleTicks
  import opened DayWalk
  import opened WorkBudget

  const SECOND := 1_000_000_000

  /** A cron schedule gives the tick after an instant, when there is one. */
  ghost predicate Forward(next: int -> Option<int>) {
    forall t :: next(t).Some? ==> next(t).value > t
  }

  /** The ticks from `start` until `end` that the scheduler finds, each from the
      one before it, when it searches from the instant `after`. */
  ghost function CronTicks(next: int -> Option<int>, after: int, start: int, end: int): seq<int>
    requires Forward(next)
    decreases end - after
  {
    match next(after)
    case None => []
    case Some(tick) =>
      if tick >= end then []
      else if tick < start then CronTicks(next, tick, start, end)
      else [tick] + CronTicks(next, tick, start, end)
  }

  lemma {:induction false} CronTicksStep(next: int -> Option<int>, after: int, start: int, end: int)
    requires Forward(next)
    ensures CronTicks(next, after, start, end)
            == if next(after).None? || next(after).value >= end then []
               else (if next(after).value < start then [] else [next(after).value]) + CronTicks(next, next(after).value, start, end)
  {
  }

  /** The ticks come in order, after the search begins and from `start` until `end`. */
  lemma {:induction false} CronTicksIncrease(next: int -> Option<int>, after: int, start: int, end: int)
    requires Forward(next)
    ensures var ticks := CronTicks(next, after, start, end);
            && Increasing(ticks)
            && forall i :: 0 <= i < |ticks| ==> after < ticks[i] && start <= ticks[i] < end
    decreases end - after
  {
    match next(after)
    case None =>
    case Some(tick) =>
      if tick < end {
        CronTicksIncrease(next, tick, start, end);
      }
  }

  /** Every search finds the first tick of one fixed set of ticks. */
  ghost predicate Consistent(next: int -> Option<int>) {
    forall a, b :: a <= b && (next(a).Some? ==> b < next(a).value) ==> next(b) == next(a)
  }

  /** On one fixed set of ticks, following the schedule finds exactly those after the
      beginning of the search, from `start` until `end`. */
  lemma {:induction false} CronTicksAreAll(next: int -> Option<int>, after: int, start: int, end: int, t: int)
    requires Forward(next) && Consistent(next)
    ensures t in CronTicks(next, after, start, end) <==> after < t && start <= t < end && next(t - 1) == Some(t)
    decreases end - after
  {
    hide Consistent;
    CronTicksStep(next, after, start, end);
    if after < t {
      SameSearch(next, after, t - 1);
    }
    if next(after).Some? && next(after).value < end {
      SameSearch(next, after, next(after).value - 1);
      CronTicksAreAll(next, next(after).value, start, end, t);
    }
  }

  lemma SameSearch(next: int -> Option<int>, a: int, b: int)
    requires Consistent(next) && a <= b
    ensures (next(a).Some? ==> b < next(a).value) ==> next(b) == next(a)
  {
  }

  /** How many searches following the schedule until `end` makes. */
  ghost function SpanSearches(next: int -> Option<int>, after: int, end: int): (n: nat)
    requires Forward(next)
    ensures n > 0
    decreases end - after
  {
    if next(after).Some? && next(after).value < end then 1 + SpanSearches(next, next(after).value, end) else 1
  }

  lemma SpanSearchesStep(next: int -> Option<int>, after: int, end: int)
    requires Forward(next)
    ensures SpanSearches(next, after, end)
            == 1 + if next(after).Some? && next(after).value < end then SpanSearches(next, next(after).value, end) else 0
  {
  }

  /** The first tick not before `end` that the scheduler finds, each from the one
      before it, when it searches from the instant `after`. */
  ghost function TickFrom(next: int -> Option<int>, after: int, end: int): Option<int>
    requires Forward(next)
    decreases end - after
  {
    if next(after).Some? && next(after).value < end then TickFrom(next, next(after).value, end) else next(after)
  }

  /** Following the schedule by one tick. */
  lemma {:induction false} NextTick(next: int -> Option<int>, from: int, start: int, end: int, found: seq<int>)
    requires Forward(next) && next(from).Some? && next(from).value < end
    ensures var tick := next(from).value;
            && found + CronTicks(next, from, start, end)
               == (if tick >= start then found + [tick] else found) + CronTicks(next, tick, start, end)
            && TickFrom(next, from, end) == TickFrom(next, tick, end)
  {
    CronTicksStep(next, from, start, end);
  }

  lemma NoNextTick(next: int -> Option<int>, from: int, start: int, end: int)
    requires Forward(next) && (next(from).Some? ==> next(from).value >= end)
    ensures CronTicks(next, from, start, end) == []
    ensures TickFrom(next, from, end) == next(from)
  {
  }

  /** On one fixed set of ticks, that is the first of them not before `end`. */
  lemma {:induction false} TickFromIsFirst(next: int -> Option<int>, after: int, end: int)
    requires Forward(next) && Consistent(next) && after < end
    ensures TickFrom(next, after, end) == next(end - 1)
    decreases end - after
  {
    if next(after).Some? && next(after).value < end {
      TickFromIsFirst(next, next(after).value, end);
    } else {
      assert next(end - 1) == next(after);
    }
  }

  /** A run of consecutive ordinary days, or, with no days, one day that lasts
      `length` seconds and whose ticks the cron schedule gives. It starts `start`
      seconds after the sample does. */
  datatype DaySpan = DaySpan(start: nat, days: nat, length: nat)

  datatype Sample = Sample(start: int, offsets: seq<int>, next: int -> Option<int>)

  ghost predicate ValidSample(sample: Sample) {
    OrdinaryDay(sample.offsets) && Forward(sample.next)
  }

  function SpanStart(sample: Sample, span: DaySpan): int {
    sample.start + span.start * SECOND
  }

  /** The last of the ticks, or the instant before the sample. */
  function LastTick(sample: Sample, ticks: seq<int>): int {
    if ticks == [] then sample.start - 1 else ticks[|ticks| - 1]
  }

  ghost function SpanTicks(sample: Sample, span: DaySpan, lastTick: int): seq<int>
    requires ValidSample(sample)
  {
    if span.days == 0
    then CronTicks(sample.next, lastTick, SpanStart(sample, span), SpanStart(sample, span) + span.length * SECOND)
    else Stretch(sample.offsets, SpanStart(sample, span), span.days)
  }

  /** The ticks of all the spans, in order. */
  ghost function AllTicks(sample: Sample, spans: seq<DaySpan>): seq<int>
    requires ValidSample(sample)
  {
    if spans == [] then []
    else
      var before := AllTicks(sample, spans[..|spans| - 1]);
      before + SpanTicks(sample, spans[|spans| - 1], LastTick(sample, before))
  }

  lemma {:induction false} AllTicksAppend(sample: Sample, spans: seq<DaySpan>, span: DaySpan)
    requires ValidSample(sample)
    ensures AllTicks(sample, spans + [span])
            == AllTicks(sample, spans) + SpanTicks(sample, span, LastTick(sample, AllTicks(sample, spans)))
  {
    assert (spans + [span])[..|spans|] == spans;
  }

  /** What projecting a run over the spans costs at least. The warm start makes one
      search. Coming to a span costs one unit, and then ordinary days cost at least
      one more, while a cron day costs a search for every tick of it and for the one
      that ends it. */
  ghost function ProjectionFloor(sample: Sample, spans: seq<DaySpan>): nat
    requires ValidSample(sample)
  {
    if spans == [] then 1
    else
      var before := spans[..|spans| - 1];
      var last := spans[|spans| - 1];
      ProjectionFloor(sample, before)
      + if last.days > 0 then 2 else |SpanTicks(sample, last, LastTick(sample, AllTicks(sample, before)))| + 2
  }

  lemma {:induction false} ProjectionFloorAppend(sample: Sample, spans: seq<DaySpan>, span: DaySpan)
    requires ValidSample(sample)
    ensures ProjectionFloor(sample, spans + [span])
            == ProjectionFloor(sample, spans)
               + if span.days > 0 then 2 else |SpanTicks(sample, span, LastTick(sample, AllTicks(sample, spans)))| + 2
  {
    assert (spans + [span])[..|spans|] == spans;
  }

  /** A stretch's last tick is the last offset of its last day. */
  lemma StretchEnds(offsets: seq<int>, dayStart: int, days: nat)
    requires OrdinaryDay(offsets) && days > 0
    ensures var ticks := Stretch(offsets, dayStart, days);
            ticks != [] && ticks[|ticks| - 1] == dayStart + Days(days - 1) + offsets[|offsets| - 1]
  {
  }

  lemma {:induction false} StretchBegins(offsets: seq<int>, dayStart: int, days: nat)
    requires OrdinaryDay(offsets) && days > 0
    ensures var ticks := Stretch(offsets, dayStart, days);
            ticks != [] && ticks[0] == dayStart + offsets[0]
  {
    hide Increasing;
    if days <= 1 {
    } else {
      StretchBegins(offsets, dayStart, days - 1);
    }
  }

  lemma {:induction false} StretchSize(offsets: seq<int>, dayStart: int, days: nat)
    ensures |Stretch(offsets, dayStart, days)| == days * |offsets|
  {
    if days == 0 {
    } else {
      StretchSize(offsets, dayStart, days - 1);
      assert days * |offsets| == (days - 1) * |offsets| + |offsets|;
    }
  }

  lemma {:induction false} IncreasingConcat(a: seq<int>, b: seq<int>)
    requires Increasing(a) && Increasing(b)
    requires a != [] && b != [] ==> a[|a| - 1] < b[0]
    ensures Increasing(a + b)
  {
    forall i, j | 0 <= i < j < |a + b| ensures (a + b)[i] < (a + b)[j] {
      if i < |a| <= j {
        assert a[i] <= a[|a| - 1] < b[0] <= b[j - |a|];
      }
    }
  }

  lemma {:induction false} StretchIncreasing(offsets: seq<int>, dayStart: int, days: nat)
    requires OrdinaryDay(offsets)
    ensures Increasing(Stretch(offsets, dayStart, days))
  {
    if days == 0 {
    } else {
      StretchIncreasing(offsets, dayStart, days - 1);
      if days > 1 {
        StretchEnds(offsets, dayStart, days - 1);
      }
      var day := Shifted(offsets, dayStart + Days(days - 1));
      assert Increasing(day);
      assert day[0] >= dayStart + Days(days - 1);
      IncreasingConcat(Stretch(offsets, dayStart, days - 1), day);
    }
  }

  lemma {:induction false} StretchContinues(offsets: seq<int>, dayStart: int, a: nat, b: nat)
    ensures Stretch(offsets, dayStart, a + b) == Stretch(offsets, dayStart, a) + Stretch(offsets, dayStart + Days(a), b)
  {
    if b == 0 {
    } else {
      StretchContinues(offsets, dayStart, a, b - 1);
      DaysSum(a, b - 1);
    }
  }

  /** A cron schedule whose searches count against a budget. Once the budget is
      exhausted it finds no tick any more and remembers that. */
  class CronSchedule {
    const next: int -> Option<int>
    const budget: Budget?
    var exhausted: bool

    ghost predicate Valid()
      reads this, budget, Ledger(budget)
    {
      Usable(budget) && Forward(next)
    }

    constructor (next: int -> Option<int>, budget: Budget?)
      requires Usable(budget) && Forward(next)
      ensures Valid() && !exhausted && this.next == next && this.budget == budget
    {
      this.next := next;
      this.budget := budget;
      exhausted := false;
    }

    method Next(after: int) returns (tick: Option<int>, ghost work: nat)
      requires Valid()
      modifies this`exhausted, Ledger(budget)
      ensures Valid()
      ensures exhausted <==> old(exhausted) || old(Exhausted(budget))
      ensures old(Exhausted(budget)) ==> Exhausted(budget)
      ensures tick == if old(Exhausted(budget)) then None else next(after)
      ensures work == if old(Exhausted(budget)) then 0 else 1
      ensures forall b :: b in Ledger(budget) ==> b.used == old(b.used) + work
    {
      var ok := TakeWork(budget);
      if !ok {
        exhausted := true;
        return None, 0;
      }
      return next(after), 1;
    }
  }
}
