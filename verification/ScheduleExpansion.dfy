/** Expanding a schedule over the days of a sample: a month of ordinary days at a
    time, with adjoining days merged into spans. */
module ScheduleExpansion {
  import opened Optional
  import opened ScheduleTicks
  import opened WorkBudget
  import opened DayWalk
  import opened DaySpans
  import opened ScheduleRuns
  import opened Calendar

  /** The date fields of a cron schedule: the values each field names, and whether
      the day fields were written as a star. */
  datatype DateFields = DateFields(months: set<int>, days: set<int>, weekdays: set<int>, daysStar: bool, weekdaysStar: bool)

  predicate DateMatches(fields: DateFields, dayOfMonth: int, weekday: int) {
    var dayMatches, weekdayMatches := dayOfMonth in fields.days, weekday in fields.weekdays;
    if fields.daysStar || fields.weekdaysStar then dayMatches && weekdayMatches else dayMatches || weekdayMatches
  }

  /** The schedule ticks on the date. */
  predicate Accepts(fields: DateFields, date: Date) {
    date.month in fields.months && DateMatches(fields, date.day, date.weekday)
  }

  predicate MatchesEveryDate(fields: DateFields) {
    var everyDay := forall day | 1 <= day <= 31 :: day in fields.days;
    var everyWeekday := forall weekday | 0 <= weekday < 7 :: weekday in fields.weekdays;
    if fields.daysStar || fields.weekdaysStar then everyDay && everyWeekday else everyDay || everyWeekday
  }

  predicate EveryMonth(fields: DateFields) {
    forall month | 1 <= month <= 12 :: month in fields.months
  }

  lemma EveryDateMatches(fields: DateFields, date: Date)
    requires ValidDate(date) && MatchesEveryDate(fields)
    ensures DateMatches(fields, date.day, date.weekday)
  {
  }

  /** What the expansion is to find: the ticks of the accepted days from day `lo`
      until day `hi`, filtering one day at a time. Day d starts d whole days
      after `origin`. */
  function AcceptedTicks(fields: DateFields, offsets: seq<int>, firstDate: Date, origin: int, lo: nat, hi: nat): seq<int>
    requires ValidDate(firstDate)
    decreases hi
  {
    if hi <= lo then []
    else
      AcceptedTicks(fields, offsets, firstDate, origin, lo, hi - 1)
      + if Accepts(fields, DateAt(firstDate, hi - 1)) then Shifted(offsets, origin + Days(hi - 1)) else []
  }

  lemma {:induction false} AcceptedSplit(fields: DateFields, offsets: seq<int>, firstDate: Date, origin: int, lo: nat, mid: nat, hi: nat)
    requires ValidDate(firstDate) && lo <= mid <= hi
    ensures AcceptedTicks(fields, offsets, firstDate, origin, lo, hi)
            == AcceptedTicks(fields, offsets, firstDate, origin, lo, mid) + AcceptedTicks(fields, offsets, firstDate, origin, mid, hi)
    decreases hi
  {
    hide Accepts, DateAt;
    if mid >= hi {
    } else {
      AcceptedSplit(fields, offsets, firstDate, origin, lo, mid, hi - 1);
    }
  }

  lemma {:induction false} NoneAccepted(fields: DateFields, offsets: seq<int>, firstDate: Date, origin: int, lo: nat, hi: nat)
    requires ValidDate(firstDate)
    requires forall day: nat :: lo <= day < hi ==> !Accepts(fields, DateAt(firstDate, day))
    ensures AcceptedTicks(fields, offsets, firstDate, origin, lo, hi) == []
    decreases hi
  {
    hide Accepts, DateAt;
    if lo >= hi {
    } else {
      NoneAccepted(fields, offsets, firstDate, origin, lo, hi - 1);
    }
  }

  lemma {:induction false} AllAccepted(fields: DateFields, offsets: seq<int>, firstDate: Date, origin: int, lo: nat, hi: nat)
    requires ValidDate(firstDate) && lo <= hi
    requires forall day: nat :: lo <= day < hi ==> Accepts(fields, DateAt(firstDate, day))
    ensures AcceptedTicks(fields, offsets, firstDate, origin, lo, hi) == Stretch(offsets, origin + Days(lo), hi - lo)
    decreases hi
  {
    hide Accepts, DateAt;
    if lo >= hi {
    } else {
      AllAccepted(fields, offsets, firstDate, origin, lo, hi - 1);
      DaysSum(lo, hi - 1 - lo);
    }
  }

  /** The tick is an offset of day d. */
  predicate TickOn(offsets: seq<int>, origin: int, d: nat, t: int) {
    exists i :: 0 <= i < |offsets| && t == origin + Days(d) + offsets[i]
  }

  lemma TicksOfDay(offsets: seq<int>, origin: int, d: nat, t: int)
    ensures t in Shifted(offsets, origin + Days(d)) <==> TickOn(offsets, origin, d, t)
  {
    hide Days;
    if i :| 0 <= i < |offsets| && t == origin + Days(d) + offsets[i] {
      assert Shifted(offsets, origin + Days(d))[i] == t;
    }
  }

  /** The ticks are those of the accepted days. */
  lemma {:induction false} TicksOfDays(fields: DateFields, offsets: seq<int>, firstDate: Date, origin: int, lo: nat, hi: nat, t: int)
    requires ValidDate(firstDate)
    ensures t in AcceptedTicks(fields, offsets, firstDate, origin, lo, hi)
            <==> exists d: nat :: lo <= d < hi && TickOn(offsets, origin, d, t) && Accepts(fields, DateAt(firstDate, d))
    decreases hi
  {
    hide Days, DateAt, Accepts, Shifted, TickOn;
    if hi <= lo {
    } else {
      TicksOfDays(fields, offsets, firstDate, origin, lo, hi - 1, t);
      TicksOfDay(offsets, origin, hi - 1, t);
      assert t in AcceptedTicks(fields, offsets, firstDate, origin, lo, hi)
             <==> t in AcceptedTicks(fields, offsets, firstDate, origin, lo, hi - 1)
                  || (TickOn(offsets, origin, hi - 1, t) && Accepts(fields, DateAt(firstDate, hi - 1)));
      if d: nat :| lo <= d < hi && TickOn(offsets, origin, d, t) && Accepts(fields, DateAt(firstDate, d)) {
        assert d == hi - 1 || d < hi - 1;
      }
    }
  }

  /** The fields name the tick: it is an offset of a date of a named month, whose day
      and weekday are both named when one of these fields is a star, and else one of
      the two. */
  ghost predicate NamesTick(fields: DateFields, offsets: seq<int>, firstDate: Date, origin: int, lo: nat, hi: nat, t: int)
    requires ValidDate(firstDate)
  {
    exists d: nat :: lo <= d < hi && TickOn(offsets, origin, d, t)
      && var date := DateAt(firstDate, d);
         && date.month in fields.months
         && if fields.daysStar || fields.weekdaysStar then date.day in fields.days && date.weekday in fields.weekdays
            else date.day in fields.days || date.weekday in fields.weekdays
  }

  lemma {:induction false} TicksAreNamed(fields: DateFields, offsets: seq<int>, firstDate: Date, origin: int, lo: nat, hi: nat, t: int)
    requires ValidDate(firstDate)
    ensures t in AcceptedTicks(fields, offsets, firstDate, origin, lo, hi) <==> NamesTick(fields, offsets, firstDate, origin, lo, hi, t)
  {
    hide AcceptedTicks, DateAt, TickOn;
    TicksOfDays(fields, offsets, firstDate, origin, lo, hi, t);
  }

  /** A schedule on days of the month, with every weekday, written as a star, ticks on
      exactly those days of its months. */
  lemma {:induction false} StarredWeekdays(fields: DateFields, offsets: seq<int>, firstDate: Date, origin: int, lo: nat, hi: nat, t: int)
    requires ValidDate(firstDate) && fields.weekdaysStar && forall weekday :: 0 <= weekday < 7 ==> weekday in fields.weekdays
    ensures t in AcceptedTicks(fields, offsets, firstDate, origin, lo, hi)
            <==> exists d: nat :: lo <= d < hi && TickOn(offsets, origin, d, t)
                   && DateAt(firstDate, d).month in fields.months && DateAt(firstDate, d).day in fields.days
  {
    hide AcceptedTicks, TickOn, DateAt;
    TicksAreNamed(fields, offsets, firstDate, origin, lo, hi, t);
  }

  /** A schedule on weekdays, with every day of the month, written as a star, ticks on
      exactly those weekdays of its months. */
  lemma {:induction false} StarredDays(fields: DateFields, offsets: seq<int>, firstDate: Date, origin: int, lo: nat, hi: nat, t: int)
    requires ValidDate(firstDate) && fields.daysStar && forall day :: 1 <= day <= 31 ==> day in fields.days
    ensures t in AcceptedTicks(fields, offsets, firstDate, origin, lo, hi)
            <==> exists d: nat :: lo <= d < hi && TickOn(offsets, origin, d, t)
                   && DateAt(firstDate, d).month in fields.months && DateAt(firstDate, d).weekday in fields.weekdays
  {
    hide AcceptedTicks, TickOn, DateAt;
    TicksAreNamed(fields, offsets, firstDate, origin, lo, hi, t);
  }

  /** A schedule on days of the month and on weekdays ticks on the days of either. */
  lemma {:induction false} NeitherStarred(fields: DateFields, offsets: seq<int>, firstDate: Date, origin: int, lo: nat, hi: nat, t: int)
    requires ValidDate(firstDate) && !fields.daysStar && !fields.weekdaysStar
    ensures t in AcceptedTicks(fields, offsets, firstDate, origin, lo, hi)
            <==> exists d: nat :: lo <= d < hi && TickOn(offsets, origin, d, t)
                   && var date := DateAt(firstDate, d);
                      date.month in fields.months && (date.day in fields.days || date.weekday in fields.weekdays)
  {
    hide AcceptedTicks, TickOn, DateAt;
    TicksAreNamed(fields, offsets, firstDate, origin, lo, hi, t);
  }

  /** How many months are examined day by day from day `day` until day `to`: those
      the schedule names, when it restricts their days. */
  function ExaminedMonths(fields: DateFields, firstDate: Date, day: nat, to: nat): nat
    requires ValidDate(firstDate)
    decreases if day < to then to - day else 0
  {
    if day >= to || MatchesEveryDate(fields) then 0
    else
      var date := DateAt(firstDate, day);
      (if date.month in fields.months then 1 else 0) + ExaminedMonths(fields, firstDate, day + DaysLeftInMonth(date), to)
  }

  datatype Status = Fine | InvalidPattern | OutOfWork

  /** An offset in whole seconds as the 32 bits that a span stores. */
  function SpanSeconds(offset: int): Option<nat> {
    if offset < 0 || offset % SECOND != 0 || offset / SECOND > 0xFFFF_FFFF then None else Some(offset / SECOND)
  }

  /** A span stores an offset of whole seconds below 2^32. */
  predicate Stored(offset: int) {
    0 <= offset < 0x1_0000_0000 * SECOND && offset % SECOND == 0
  }

  lemma SpanSecondsStored(offset: int)
    ensures SpanSeconds(offset) == if Stored(offset) then Some(offset / SECOND) else None
  {
  }

  /** The start of each of so many days from `first` is an offset that a span stores. */
  ghost predicate StartsFit(start: int, first: int, count: nat) {
    forall day: nat :: day < count ==> Stored(first + Days(day) - start)
  }

  /** Days that start whole seconds after the sample do, and end within 2^32 seconds
      of it, fit. */
  lemma {:induction false} WholeSecondsFit(start: int, first: int, count: nat)
    requires first >= start && (first - start) % SECOND == 0 && first - start + Days(count) <= 0x1_0000_0000 * SECOND
    ensures StartsFit(start, first, count)
  {
    hide Days, Stored;
    var offset := (first - start) / SECOND;
    forall day: nat | day < count ensures Stored(first + Days(day) - start) {
      DaysProduct(day);
      DaysSum(day, count - day);
      DaysProduct(count - day);
      assert first + Days(day) - start == (offset + day * 86_400) * SECOND;
      WholeSeconds(offset + day * 86_400);
    }
  }

  lemma WholeSeconds(seconds: nat)
    requires seconds < 0x1_0000_0000
    ensures Stored(seconds * SECOND)
  {
  }

  lemma {:induction false} StretchGap(offsets: seq<int>, dayStart: int, days: nat)
    requires OrdinaryDay(offsets) && days > 0
    ensures MinimumGap(Stretch(offsets, dayStart, days))
            == if days == 1 then MinimumGap(offsets)
               else LeastGap(MinimumGap(offsets), DAY - (offsets[|offsets| - 1] - offsets[0]))
  {
    hide Increasing, MinimumGap, LeastGap, Days;
    var start := dayStart + Days(days - 1);
    var day := Shifted(offsets, start);
    MinimumGapShift(offsets, start);
    if days == 1 {
      assert Stretch(offsets, dayStart, 1) == day;
    } else {
      StretchGap(offsets, dayStart, days - 1);
      StretchEnds(offsets, dayStart, days - 1);
      DaysSum(days - 2, 1);
      OneDay();
      MinimumGapConcat(Stretch(offsets, dayStart, days - 1), day);
      LeastGapAgain(MinimumGap(offsets), DAY - (offsets[|offsets| - 1] - offsets[0]));
    }
  }

  lemma OneDay()
    ensures Days(1) == DAY
  {
  }

  lemma LeastGapAgain(gap: int, across: int)
    ensures LeastGap(LeastGap(gap, across), gap) == LeastGap(gap, across)
    ensures LeastGap(LeastGap(LeastGap(gap, across), across), gap) == LeastGap(gap, across)
  {
  }

  /** A day's ticks: how many, the first and the last, the shortest gap, and the
      first tick after them. */
  datatype DaySummary = DaySummary(count: nat, first: int, last: int, minimumGap: int, next: Option<int>)

  ghost predicate Summarizes(summary: DaySummary, ticks: seq<int>) {
    && summary.count == |ticks|
    && summary.minimumGap == MinimumGap(ticks)
    && (ticks != [] ==> summary.first == ticks[0] && summary.last == ticks[|ticks| - 1])
  }

  /** Summarizes one cron day, searching from the tick `after`. When the budget runs
      out, the summary is of the ticks found by then. */
  method DayTicks(schedule: CronSchedule, after: int, start: int, end: int) returns (summary: DaySummary, ghost found: seq<int>, ghost work: nat)
    requires schedule.Valid() && !schedule.exhausted
    modifies schedule`exhausted, Ledger(schedule.budget)
    ensures schedule.Valid()
    ensures schedule.exhausted ==> Exhausted(schedule.budget)
    ensures Summarizes(summary, found) && Increasing(found) && (found != [] ==> after < found[0])
    ensures !schedule.exhausted ==> found == CronTicks(schedule.next, after, start, end)
    ensures !schedule.exhausted ==> summary.next == TickFrom(schedule.next, after, end)
    ensures var searches := SpanSearches(schedule.next, after, end);
            if schedule.exhausted then work < searches else work == searches
    ensures forall b :: b in Ledger(schedule.budget) ==> b.used == old(b.used) + work
  {
    hide MinimumGap, LeastGap, Exhausted, CronTicks, Increasing, Summarizes, TickFrom, SpanSearches, Collected;
    found := [];
    var count, first, last, minimumGap := 0, 0, 0, 0;
    NothingCollected(schedule.next, after, start, end);
    ghost var from, more := after, 0;
    var next;
    next, work := schedule.Next(after);
    while next.Some? && next.value < end
      invariant schedule.Valid()
      invariant Collected(schedule.next, after, start, end, from, found, DaySummary(count, first, last, minimumGap, None))
      invariant !schedule.exhausted ==>
                  && next == schedule.next(from)
                  && work + SpanSearches(schedule.next, from, end) == SpanSearches(schedule.next, after, end) + 1
      invariant schedule.exhausted ==> Exhausted(schedule.budget) && next.None? && work < SpanSearches(schedule.next, after, end)
      invariant forall b :: b in Ledger(schedule.budget) ==> b.used == old(b.used) + work
      decreases if next.Some? then end - next.value else -1
    {
      var tick := next.value;
      found := NextCollected(schedule.next, after, start, end, from, found, DaySummary(count, first, last, minimumGap, None));
      if tick >= start {
        if count == 0 {
          first := tick;
        } else if minimumGap == 0 || tick - last < minimumGap {
          minimumGap := tick - last;
        }
        last := tick;
        count := count + 1;
      }
      from := tick;
      next, more := schedule.Next(tick);
      work := work + more;
    }
    summary := DaySummary(count, first, last, minimumGap, next);
    FoundCollected(schedule.next, after, start, end, from, found, summary.(next := None), next);
    if !schedule.exhausted {
      AllCollected(schedule.next, after, start, end, from, found, summary.(next := None));
    }
  }

  /** The day's ticks up to `from` are found and summarized. */
  ghost predicate Collected(next: int -> Option<int>, after: int, start: int, end: int, from: int, found: seq<int>, summary: DaySummary)
    requires Forward(next)
  {
    && CronTicks(next, after, start, end) == found + CronTicks(next, from, start, end)
    && TickFrom(next, after, end) == TickFrom(next, from, end)
    && Summarizes(summary, found) && Increasing(found)
    && after <= from && (found != [] ==> after < found[0] && summary.last <= from)
  }

  lemma NothingCollected(next: int -> Option<int>, after: int, start: int, end: int)
    requires Forward(next)
    ensures Collected(next, after, start, end, after, [], DaySummary(0, 0, 0, 0, None))
    ensures SpanSearches(next, after, end) > 0
  {
    hide CronTicks, TickFrom, Summarizes, Increasing, SpanSearches;
    NothingSummarized();
  }

  lemma {:induction false} NextCollected(next: int -> Option<int>, after: int, start: int, end: int, from: int, found: seq<int>, summary: DaySummary)
    returns (more: seq<int>)
    requires Forward(next) && next(from).Some? && next(from).value < end
    requires Collected(next, after, start, end, from, found, summary) && summary.next.None?
    ensures var tick := next(from).value;
            && SpanSearches(next, from, end) == 1 + SpanSearches(next, tick, end) && SpanSearches(next, tick, end) > 0
            && Collected(next, after, start, end, tick, more, if tick >= start then WithTick(summary, tick) else summary)
  {
    hide CronTicks, TickFrom, Summarizes, Increasing, SpanSearches;
    var tick := next(from).value;
    NextTick(next, from, start, end, found);
    SpanSearchesStep(next, from, end);
    if tick >= start {
      LastSummarized(summary, found);
      SummarizesNext(summary, found, tick);
      more := found + [tick];
    } else {
      more := found;
    }
  }

  lemma AllCollected(next: int -> Option<int>, after: int, start: int, end: int, from: int, found: seq<int>, summary: DaySummary)
    requires Forward(next) && (next(from).Some? ==> next(from).value >= end)
    requires Collected(next, after, start, end, from, found, summary)
    ensures found == CronTicks(next, after, start, end) && TickFrom(next, after, end) == next(from)
    ensures SpanSearches(next, from, end) == 1
  {
    hide CronTicks, TickFrom, Summarizes, Increasing, SpanSearches;
    NoNextTick(next, from, start, end);
    SpanSearchesStep(next, from, end);
    assert found + [] == found;
  }

  lemma FoundCollected(next: int -> Option<int>, after: int, start: int, end: int, from: int, found: seq<int>, summary: DaySummary,
                       later: Option<int>)
    requires Forward(next) && Collected(next, after, start, end, from, found, summary)
    ensures Summarizes(summary.(next := later), found) && Increasing(found) && (found != [] ==> after < found[0])
  {
    hide CronTicks, TickFrom, Increasing, MinimumGap;
  }

  /** A summary with one more tick. */
  function WithTick(summary: DaySummary, tick: int): DaySummary {
    var gap := tick - summary.last;
    DaySummary(summary.count + 1, if summary.count == 0 then tick else summary.first, tick,
               if summary.count > 0 && (summary.minimumGap == 0 || gap < summary.minimumGap) then gap else summary.minimumGap, summary.next)
  }

  lemma LastSummarized(summary: DaySummary, ticks: seq<int>)
    requires Summarizes(summary, ticks)
    ensures summary.count == |ticks| && (ticks != [] ==> summary.last == ticks[|ticks| - 1])
  {
  }

  lemma NothingSummarized()
    ensures Summarizes(DaySummary(0, 0, 0, 0, None), []) && Increasing([])
  {
    NoGap();
  }

  lemma SummarizesNext(summary: DaySummary, ticks: seq<int>, tick: int)
    requires Summarizes(summary, ticks) && Increasing(ticks)
    requires ticks != [] ==> summary.last < tick
    ensures Increasing(ticks + [tick]) && (ticks + [tick])[0] == (if ticks == [] then tick else ticks[0])
    ensures Summarizes(WithTick(summary, tick), ticks + [tick])
  {
    hide MinimumGap, Increasing;
    OneMoreTick(ticks, tick);
    NoGap();
  }

  lemma {:induction false} OneMoreTick(ticks: seq<int>, tick: int)
    requires Increasing(ticks) && (ticks != [] ==> ticks[|ticks| - 1] < tick)
    ensures Increasing(ticks + [tick])
    ensures MinimumGap(ticks + [tick])
            == if ticks == [] then 0
               else if MinimumGap(ticks) == 0 || tick - ticks[|ticks| - 1] < MinimumGap(ticks) then tick - ticks[|ticks| - 1]
               else MinimumGap(ticks)
  {
    assert (ticks + [tick])[..|ticks|] == ticks;
  }

  class Expansion {
    const sample: Sample
    const fields: DateFields
    const firstDate: Date
    const budget: Budget?
    /** The gaps of ordinary days: the shortest within one, zero when it has a single
        tick, and the one over midnight. */
    var ordinaryGap: int
    var acrossMidnight: int
    /** What the expansion found. */
    var runs: nat
    var minimumGap: int
    var days: seq<DaySpan>
    var projectionFloor: nat
    var lastTick: int
    var ticked: bool

    /** The ticks found so far. */
    ghost function Ticks(): seq<int>
      requires ValidSample(sample)
      reads this
    {
      AllTicks(sample, days)
    }

    ghost predicate Valid()
      reads this, budget, Ledger(budget)
    {
      && Usable(budget)
      && ValidSample(sample) && ValidDate(firstDate)
      && ordinaryGap == MinimumGap(sample.offsets)
      && acrossMidnight == DAY - (sample.offsets[|sample.offsets| - 1] - sample.offsets[0])
      && Increasing(Ticks())
      && runs == |Ticks()|
      && minimumGap == MinimumGap(Ticks())
      && (ticked <==> Ticks() != [])
      && lastTick == LastTick(sample, Ticks())
      && projectionFloor == ProjectionFloor(sample, days)
    }

    lemma ValidParts()
      requires Valid()
      ensures ValidSample(sample) && ValidDate(firstDate)
    {
    }

    /** Takes one unit of work. */
    method Take() returns (ok: bool)
      requires Valid()
      modifies Ledger(budget)
      ensures Valid() && Ticks() == old(Ticks())
      ensures Usable(budget) && (!ok ==> Exhausted(budget))
      ensures forall b :: b in Ledger(budget) ==> b.used == old(b.used) + (if ok then 1 else 0)
    {
      hide AllTicks, Increasing, MinimumGap, ProjectionFloor;
      ok := TakeWork(budget);
    }

    constructor (sample: Sample, fields: DateFields, firstDate: Date, budget: Budget?)
      requires ValidSample(sample) && ValidDate(firstDate) && Usable(budget)
      ensures Valid() && Ticks() == [] && days == []
      ensures this.sample == sample && this.fields == fields && this.firstDate == firstDate && this.budget == budget
    {
      this.sample := sample;
      this.fields := fields;
      this.firstDate := firstDate;
      this.budget := budget;
      runs, minimumGap, days := 0, 0, [];
      projectionFloor := 1;
      lastTick, ticked := sample.start - 1, false;
      acrossMidnight := DAY - (sample.offsets[|sample.offsets| - 1] - sample.offsets[0]);
      var gap := 0;
      var i := 1;
      while i < |sample.offsets|
        invariant 1 <= i <= |sample.offsets|
        invariant gap == MinimumGap(sample.offsets[..i])
      {
        var between := sample.offsets[i] - sample.offsets[i - 1];
        assert sample.offsets[..i + 1][..i] == sample.offsets[..i];
        if gap == 0 || between < gap {
          gap := between;
        }
        i := i + 1;
      }
      assert sample.offsets[..i] == sample.offsets;
      ordinaryGap := gap;
    }

    method NoteGap(gap: int)
      modifies this`minimumGap
      requires gap >= 0
      ensures minimumGap == LeastGap(old(minimumGap), gap)
    {
      if gap > 0 && (minimumGap == 0 || gap < minimumGap) {
        minimumGap := gap;
      }
    }

    /** Takes note of more ticks, of which only the first, the last and the shortest
        gap matter. */
    method NoteTicks(first: int, last: int, gap: int)
      requires gap >= 0 && (ticked ==> lastTick < first)
      modifies this`minimumGap, this`lastTick, this`ticked
      ensures minimumGap == if old(ticked) then LeastGap(LeastGap(old(minimumGap), first - old(lastTick)), gap)
                            else LeastGap(old(minimumGap), gap)
      ensures lastTick == last && ticked
    {
      if ticked {
        NoteGap(first - lastTick);
      }
      NoteGap(gap);
      lastTick, ticked := last, true;
    }

    /** Adds a span of ordinary days, as part of the last span when it follows that
        one's days. Only a span of its own costs a unit. */
    method AddSpan(offset: nat, count: nat) returns (ok: bool)
      requires ValidSample(sample) && Usable(budget) && projectionFloor == ProjectionFloor(sample, days) && count > 0
      modifies this`days, this`projectionFloor, Ledger(budget)
      ensures Usable(budget) && projectionFloor == ProjectionFloor(sample, days)
      ensures ok ==> Ticks() == old(Ticks()) + Stretch(sample.offsets, sample.start + offset * SECOND, count)
      ensures !ok ==> days == old(days) && Exhausted(budget)
      ensures projectionFloor == old(projectionFloor) + 2 * (|days| - |old(days)|)
      ensures |days| >= |old(days)|
      ensures forall b :: b in Ledger(budget) ==> b.used == old(b.used) + |days| - |old(days)|
    {
      hide Stretch, AllTicks, ProjectionFloor, Exhausted, ValidSample;
      var n := |days|;
      if n > 0 && days[n - 1].days > 0 && days[n - 1].start + days[n - 1].days * 86_400 == offset {
        ExtendSpan(sample, days, offset, count);
        days := days[n - 1 := days[n - 1].(days := days[n - 1].days + count)];
        return true;
      }
      ok := TakeWork(budget);
      if ok {
        AppendSpan(sample, days, offset, count);
        projectionFloor := projectionFloor + 2;
        days := days + [DaySpan(offset, count, 0)];
      }
    }

    /** Adds `count` ordinary days, the first of them `index` days after `first`. */
    method AddOrdinaryDays(first: int, index: nat, count: nat) returns (status: Status)
      requires Valid() && count > 0
      requires lastTick < first + Days(index)
      modifies this, Ledger(budget)
      ensures status.Fine? ==>
                && Valid()
                && Ticks() == old(Ticks()) + Stretch(sample.offsets, first + Days(index), count)
                && lastTick < first + Days(index + count)
      ensures var offset := first + Days(index) - sample.start;
              status.InvalidPattern? <==> offset < 0 || offset % SECOND != 0 || offset >= 0x1_0000_0000 * SECOND
      ensures status.Fine? ==> projectionFloor == old(projectionFloor) + 2 * (|days| - |old(days)|)
      ensures status.OutOfWork? ==> Usable(budget) && Exhausted(budget)
      ensures |days| >= |old(days)|
      ensures forall b :: b in Ledger(budget) ==> b.used == old(b.used) + |days| - |old(days)|
    {
      hide Increasing, MinimumGap, OrdinaryDay, Stretch, Days, AllTicks, ProjectionFloor, Exhausted, SpanSeconds;
      DaysProduct(index);
      DaysProduct(count - 1);
      var spanStart := first + index * DAY;
      var seconds := SpanSeconds(spanStart - sample.start);
      SpanSecondsStored(spanStart - sample.start);
      if seconds.None? {
        return InvalidPattern;
      }
      var gap := ordinaryGap;
      if count > 1 && (gap == 0 || acrossMidnight < gap) {
        gap := acrossMidnight;
      }
      assert spanStart == sample.start + seconds.value * SECOND;
      AddedStretch(sample, Ticks(), spanStart, count);
      DaysSum(index, count);
      NoteTicks(spanStart + sample.offsets[0], spanStart + (count - 1) * DAY + sample.offsets[|sample.offsets| - 1], gap);
      runs := runs + count * |sample.offsets|;
      var ok := AddSpan(seconds.value, count);
      return if ok then Fine else OutOfWork;
    }

    /** Follows the cron schedule over a day that is not ordinary, from the previous
        tick. The tick after the day is returned for the days that follow. */
    method CronDay(schedule: CronSchedule, dayStart: int, dayEnd: int)
      returns (status: Status, next: Option<int>, ghost work: nat)
      requires Valid() && schedule.Valid() && !schedule.exhausted
      requires schedule.next == sample.next && schedule.budget == budget
      requires dayStart < dayEnd
      modifies this, schedule`exhausted, Ledger(budget)
      ensures status.Fine? && !schedule.exhausted ==>
                && Valid()
                && Ticks() == old(Ticks()) + CronTicks(sample.next, old(lastTick), dayStart, dayEnd)
                && next == TickFrom(sample.next, old(lastTick), dayEnd)
      ensures status.InvalidPattern? ==>
                || dayStart < sample.start || (dayStart - sample.start) % SECOND != 0 || dayStart - sample.start >= 0x1_0000_0000 * SECOND
                || (dayEnd - dayStart) % SECOND != 0 || dayEnd - dayStart >= 0x1_0000_0000 * SECOND
      ensures status.Fine? && !schedule.exhausted ==>
                var found := |CronTicks(sample.next, old(lastTick), dayStart, dayEnd)|;
                projectionFloor == old(projectionFloor) + if found == 0 then 0 else found + 2
      ensures Usable(budget)
      ensures var day := 1 + SpanSearches(sample.next, old(lastTick), dayEnd);
              if status.OutOfWork? || schedule.exhausted then work < day && Exhausted(budget) else work == day
      ensures forall b :: b in Ledger(budget) ==> b.used == old(b.used) + work
    {
      hide Increasing, MinimumGap, OrdinaryDay, AllTicks, ProjectionFloor, CronTicks, TickFrom, SpanSearches, Exhausted, SpanSeconds;
      var ok := TakeWork(budget);
      if !ok {
        return OutOfWork, None, 0;
      }
      var ticks;
      ghost var found, searches;
      ticks, found, searches := DayTicks(schedule, lastTick, dayStart, dayEnd);
      work := 1 + searches;
      if ticks.count > 0 {
        var offset, length := SpanSeconds(dayStart - sample.start), SpanSeconds(dayEnd - dayStart);
        SpanSecondsStored(dayStart - sample.start);
        SpanSecondsStored(dayEnd - dayStart);
        if offset.None? || length.None? {
          return InvalidPattern, None, work;
        }
        var span := DaySpan(offset.value, 0, length.value);
        AddedTicks(sample, Ticks(), found);
        AllTicksAppend(sample, days, span);
        ProjectionFloorAppend(sample, days, span);
        assert SpanStart(sample, span) == dayStart && dayStart + span.length * SECOND == dayEnd;
        NoteTicks(ticks.first, ticks.last, ticks.minimumGap);
        runs := runs + ticks.count;
        projectionFloor := projectionFloor + ticks.count + 2;
        days := days + [span];
      }
      return Fine, ticks.next, work;
    }

    /** Examines day by day the days of one month from day `day` until day
        `monthEnd`, which takes a unit of work. */
    method RestrictedMonth(first: int, from: nat, day: nat, monthEnd: nat) returns (status: Status)
      requires Valid() && from <= day < monthEnd <= day + DaysLeftInMonth(DateAt(firstDate, day))
      requires DateAt(firstDate, day).month in fields.months
      requires lastTick < first + Days(day - from)
      modifies this, Ledger(budget)
      ensures status.Fine? ==>
                && Valid()
                && Ticks() == old(Ticks()) + AcceptedTicks(fields, sample.offsets, firstDate, first - Days(from), day, monthEnd)
                && lastTick < first + Days(monthEnd - from)
      ensures status.InvalidPattern? ==> !StartsFit(sample.start, first, monthEnd - from)
      ensures status.OutOfWork? ==> Usable(budget) && Exhausted(budget)
      ensures |days| >= |old(days)|
      ensures status.Fine? ==> forall b :: b in Ledger(budget) ==> b.used == old(b.used) + 1 + |days| - |old(days)|
    {
      hide Days, Stretch, Accepts, DateMatches, AllTicks, Increasing, MinimumGap, ProjectionFloor, OrdinaryDay, DateAt, AcceptedTicks,
           Valid, ValidSample, ValidDate;
      ValidParts();
      ghost var origin, before := first - Days(from), Ticks();
      var ok := Take();
      if !ok {
        return OutOfWork;
      }
      var date := DateAt(firstDate, day);
      var d := day;
      NothingAccepted(fields, sample.offsets, firstDate, origin, day);
      assert before + [] == before;
      while d < monthEnd
        invariant day <= d <= monthEnd
        invariant Valid()
        invariant Ticks() == before + AcceptedTicks(fields, sample.offsets, firstDate, origin, day, d)
        invariant lastTick < first + Days(d - from)
        invariant |days| >= |old(days)|
        invariant forall b :: b in Ledger(budget) ==> b.used == old(b.used) + 1 + |days| - |old(days)|
      {
        ghost var accepted := AcceptedTicks(fields, sample.offsets, firstDate, origin, day, d);
        DayOfMonth(fields, sample.offsets, firstDate, origin, day, d);
        DaysSum(from, d - from);
        DaysMonotonic(d - from, d + 1 - from);
        if DateMatches(fields, date.day + (d - day), (date.weekday + (d - day)) % 7) {
          ghost var added := Stretch(sample.offsets, first + Days(d - from), 1);
          assert before + accepted + added == before + (accepted + added);
          status := AddOrdinaryDays(first, d - from, 1);
          if !status.Fine? {
            return;
          }
        } else {
          assert accepted + [] == accepted;
        }
        d := d + 1;
      }
      return Fine;
    }

    /** Expands the days of one month from day `day` until day `monthEnd`, where
        `everyDate` says whether the schedule restricts no days. */
    method Month(first: int, from: nat, day: nat, monthEnd: nat, everyDate: bool) returns (status: Status)
      requires Valid() && from <= day < monthEnd <= day + DaysLeftInMonth(DateAt(firstDate, day))
      requires everyDate == MatchesEveryDate(fields)
      requires lastTick < first + Days(day - from)
      modifies this, Ledger(budget)
      ensures status.Fine? ==>
                && Valid()
                && Ticks() == old(Ticks()) + AcceptedTicks(fields, sample.offsets, firstDate, first - Days(from), day, monthEnd)
                && lastTick < first + Days(monthEnd - from)
      ensures status.InvalidPattern? ==> !StartsFit(sample.start, first, monthEnd - from)
      ensures status.OutOfWork? ==> Usable(budget) && Exhausted(budget)
      ensures |days| >= |old(days)|
      ensures status.Fine? ==>
                forall b :: b in Ledger(budget) ==>
                  b.used == old(b.used) + |days| - |old(days)| + if !everyDate && DateAt(firstDate, day).month in fields.months then 1 else 0
    {
      hide Days, Stretch, Accepts, DateMatches, MatchesEveryDate, AllTicks, Increasing, MinimumGap, ProjectionFloor,
           OrdinaryDay, DateAt, AcceptedTicks, Exhausted, Valid, ValidSample, ValidDate;
      ValidParts();
      ghost var origin, before := first - Days(from), Ticks();
      DaysSum(from, day - from);
      DaysMonotonic(day - from, monthEnd - from);
      if DateAt(firstDate, day).month !in fields.months {
        MonthLeftOut(fields, sample.offsets, firstDate, origin, day, monthEnd);
        assert before + [] == before;
        return Fine;
      }
      if everyDate {
        MonthAccepted(fields, sample.offsets, firstDate, origin, day, monthEnd);
        status := AddOrdinaryDays(first, day - from, monthEnd - day);
      } else {
        status := RestrictedMonth(first, from, day, monthEnd);
      }
    }

    /** Adds the accepted days among the ordinary days numbered `from` until `to`,
        where day `from` starts at `first`. Without date restrictions that is one
        span; else it goes by months, and only a month with restricted days is looked
        at by day. */
    method OrdinaryDays(first: int, from: nat, to: nat) returns (status: Status)
      requires Valid() && from < to
      requires lastTick < first
      modifies this, Ledger(budget)
      ensures status.Fine? ==>
                && Valid()
                && Ticks() == old(Ticks()) + AcceptedTicks(fields, sample.offsets, firstDate, first - Days(from), from, to)
                && lastTick < first + Days(to - from)
      ensures status.Fine? ==>
                forall t :: t in Ticks() <==>
                  (t in old(Ticks()) || NamesTick(fields, sample.offsets, firstDate, first - Days(from), from, to, t))
      ensures status.InvalidPattern? ==> !StartsFit(sample.start, first, to - from)
      ensures status.InvalidPattern? && first >= sample.start && (first - sample.start) % SECOND == 0 ==>
                first - sample.start + Days(to - from) > 0x1_0000_0000 * SECOND
      ensures status.OutOfWork? ==> Usable(budget) && Exhausted(budget)
      ensures |days| >= |old(days)|
      ensures status.Fine? ==>
                forall b :: b in Ledger(budget) ==> b.used == old(b.used) + |days| - |old(days)| + ExaminedMonths(fields, firstDate, from, to)
    {
      hide Days, Stretch, Accepts, DateMatches, MatchesEveryDate, AllTicks, Increasing, MinimumGap, ProjectionFloor,
           OrdinaryDay, DateAt, AcceptedTicks, ExaminedMonths, Exhausted, Valid, ValidSample, ValidDate, DaysLeftInMonth, Stored, NamesTick;
      ValidParts();
      ghost var origin := first - Days(from);
      ExaminedStep(fields, firstDate, from, to);
      if first >= sample.start && (first - sample.start) % SECOND == 0 && first - sample.start + Days(to - from) <= 0x1_0000_0000 * SECOND {
        WholeSecondsFit(sample.start, first, to - from);
      }
      var everyDate := MatchesEveryDate(fields);
      NoDays();
      ghost var before := Ticks();
      NamedTicks(fields, sample.offsets, firstDate, origin, from, to, before);
      if everyDate && EveryMonth(fields) {
        EveryDayAccepted(fields, sample.offsets, firstDate, origin, from, to);
        FirstDayFits(sample.start, first, to - from);
        status := AddOrdinaryDays(first, 0, to - from);
        return;
      }
      NothingAccepted(fields, sample.offsets, firstDate, origin, from);
      assert before + [] == before;
      var day := from;
      while day < to
        invariant from <= day <= to
        invariant Valid()
        invariant Ticks() == before + AcceptedTicks(fields, sample.offsets, firstDate, origin, from, day)
        invariant lastTick < first + Days(day - from)
        invariant |days| >= |old(days)|
        invariant forall b :: b in Ledger(budget) ==>
                    b.used + ExaminedMonths(fields, firstDate, day, to)
                    == old(b.used) + |days| - |old(days)| + ExaminedMonths(fields, firstDate, from, to)
      {
        var left := DaysLeftInMonth(DateAt(firstDate, day));
        var monthEnd := if day + left < to then day + left else to;
        ExaminedStep(fields, firstDate, day, to);
        ExaminedStep(fields, firstDate, day + left, to);
        ExaminedStep(fields, firstDate, to, to);
        AcceptedAppend(fields, sample.offsets, firstDate, origin, from, day, monthEnd, before);
        status := Month(first, from, day, monthEnd, everyDate);
        if !status.Fine? {
          return;
        }
        day := monthEnd;
      }
      ExaminedStep(fields, firstDate, to, to);
      return Fine;
    }
  }

  lemma FirstDayFits(start: int, first: int, count: nat)
    requires count > 0
    ensures StartsFit(start, first, count) ==>
              var offset := first + Days(0) - start;
              0 <= offset < 0x1_0000_0000 * SECOND && offset % SECOND == 0
  {
    hide Days;
    if StartsFit(start, first, count) {
      assert Stored(first + Days(0) - start);
    }
  }

  /** The ticks after others that an expansion adds, by the fields. */
  lemma NamedTicks(fields: DateFields, offsets: seq<int>, firstDate: Date, origin: int, from: nat, to: nat, before: seq<int>)
    requires ValidDate(firstDate)
    ensures forall t :: t in before + AcceptedTicks(fields, offsets, firstDate, origin, from, to) <==>
              (t in before || NamesTick(fields, offsets, firstDate, origin, from, to, t))
  {
    hide AcceptedTicks, NamesTick;
    forall t
      ensures t in AcceptedTicks(fields, offsets, firstDate, origin, from, to) <==> NamesTick(fields, offsets, firstDate, origin, from, to, t)
    {
      TicksAreNamed(fields, offsets, firstDate, origin, from, to, t);
    }
  }

  lemma AcceptedAppend(fields: DateFields, offsets: seq<int>, firstDate: Date, origin: int, lo: nat, mid: nat, hi: nat, before: seq<int>)
    requires ValidDate(firstDate) && lo <= mid <= hi
    ensures before + AcceptedTicks(fields, offsets, firstDate, origin, lo, hi)
            == before + AcceptedTicks(fields, offsets, firstDate, origin, lo, mid) + AcceptedTicks(fields, offsets, firstDate, origin, mid, hi)
  {
    hide AcceptedTicks;
    AcceptedSplit(fields, offsets, firstDate, origin, lo, mid, hi);
  }

  lemma ExaminedStep(fields: DateFields, firstDate: Date, day: nat, to: nat)
    requires ValidDate(firstDate)
    ensures ExaminedMonths(fields, firstDate, day, to)
            == if day >= to || MatchesEveryDate(fields) then 0
               else
                 var date := DateAt(firstDate, day);
                 (if date.month in fields.months then 1 else 0) + ExaminedMonths(fields, firstDate, day + DaysLeftInMonth(date), to)
    ensures day >= to ==> ExaminedMonths(fields, firstDate, day, to) == 0
  {
  }

  lemma NoDays()
    ensures Days(0) == 0
  {
  }

  lemma {:induction false} DaysMonotonic(a: nat, b: nat)
    requires a <= b
    ensures Days(a) <= Days(b)
  {
    DaysSum(a, b - a);
    DaysProduct(b - a);
  }

  lemma NothingAccepted(fields: DateFields, offsets: seq<int>, firstDate: Date, origin: int, day: nat)
    requires ValidDate(firstDate)
    ensures AcceptedTicks(fields, offsets, firstDate, origin, day, day) == []
  {
  }

  lemma {:induction false} EveryDayAccepted(fields: DateFields, offsets: seq<int>, firstDate: Date, origin: int, from: nat, to: nat)
    requires ValidDate(firstDate) && MatchesEveryDate(fields) && EveryMonth(fields) && from <= to
    ensures AcceptedTicks(fields, offsets, firstDate, origin, from, to) == Stretch(offsets, origin + Days(from), to - from)
  {
    hide MatchesEveryDate, DateMatches, Days, Stretch, DateAt;
    forall day: nat | from <= day < to ensures Accepts(fields, DateAt(firstDate, day)) {
      EveryDateMatches(fields, DateAt(firstDate, day));
    }
    AllAccepted(fields, offsets, firstDate, origin, from, to);
  }

  /** A month that the schedule leaves out has no accepted day. */
  lemma {:induction false} MonthLeftOut(fields: DateFields, offsets: seq<int>, firstDate: Date, origin: int, day: nat, monthEnd: nat)
    requires ValidDate(firstDate)
    requires day <= monthEnd <= day + DaysLeftInMonth(DateAt(firstDate, day))
    requires DateAt(firstDate, day).month !in fields.months
    ensures AcceptedTicks(fields, offsets, firstDate, origin, day, monthEnd) == []
  {
    hide DateAt, DateMatches;
    forall d: nat | day <= d < monthEnd ensures !Accepts(fields, DateAt(firstDate, d)) {
      WithinMonth(firstDate, day, d - day);
    }
    NoneAccepted(fields, offsets, firstDate, origin, day, monthEnd);
  }

  /** A month without restricted days has only accepted days. */
  lemma {:induction false} MonthAccepted(fields: DateFields, offsets: seq<int>, firstDate: Date, origin: int, day: nat, monthEnd: nat)
    requires ValidDate(firstDate) && MatchesEveryDate(fields)
    requires day <= monthEnd <= day + DaysLeftInMonth(DateAt(firstDate, day))
    requires DateAt(firstDate, day).month in fields.months
    ensures AcceptedTicks(fields, offsets, firstDate, origin, day, monthEnd) == Stretch(offsets, origin + Days(day), monthEnd - day)
  {
    hide DateAt, DateMatches, MatchesEveryDate, Days, Stretch;
    forall d: nat | day <= d < monthEnd ensures Accepts(fields, DateAt(firstDate, d)) {
      WithinMonth(firstDate, day, d - day);
      EveryDateMatches(fields, DateAt(firstDate, d));
    }
    AllAccepted(fields, offsets, firstDate, origin, day, monthEnd);
  }

  /** One day of a month that the schedule names. */
  lemma {:induction false} DayOfMonth(fields: DateFields, offsets: seq<int>, firstDate: Date, origin: int, day: nat, d: nat)
    requires ValidDate(firstDate)
    requires day <= d < day + DaysLeftInMonth(DateAt(firstDate, day))
    requires DateAt(firstDate, day).month in fields.months
    ensures var date := DateAt(firstDate, day);
            AcceptedTicks(fields, offsets, firstDate, origin, day, d + 1)
            == AcceptedTicks(fields, offsets, firstDate, origin, day, d)
               + if DateMatches(fields, date.day + (d - day), (date.weekday + (d - day)) % 7)
                 then Stretch(offsets, origin + Days(d), 1) else []
  {
    hide DateAt, DateMatches, Days;
    WithinMonth(firstDate, day, d - day);
    NoDays();
    assert Stretch(offsets, origin + Days(d), 1) == [] + Shifted(offsets, origin + Days(d) + Days(0));
  }

  /** What adding a stretch after earlier ticks does to the ticks. */
  lemma {:induction false} AddedStretch(sample: Sample, before: seq<int>, spanStart: int, count: nat)
    requires ValidSample(sample) && Increasing(before) && count > 0
    requires LastTick(sample, before) < spanStart
    ensures var offsets := sample.offsets;
            var added := Stretch(offsets, spanStart, count);
            var gap := if count == 1 then MinimumGap(offsets) else LeastGap(MinimumGap(offsets), DAY - (offsets[|offsets| - 1] - offsets[0]));
            && offsets != [] && 0 <= offsets[0] && offsets[|offsets| - 1] < DAY && gap >= 0
            && |added| == count * |offsets| && added != []
            && (before == [] ==> MinimumGap(before) == 0)
            && Increasing(before + added)
            && LastTick(sample, before + added) == spanStart + Days(count - 1) + offsets[|offsets| - 1] < spanStart + Days(count)
            && MinimumGap(before + added)
               == if before == [] then gap
                  else LeastGap(LeastGap(MinimumGap(before), spanStart + offsets[0] - LastTick(sample, before)), gap)
  {
    NoGap();
    hide MinimumGap, LeastGap, Stretch;
    var offsets := sample.offsets;
    var added := Stretch(offsets, spanStart, count);
    StretchSize(offsets, spanStart, count);
    StretchBegins(offsets, spanStart, count);
    StretchEnds(offsets, spanStart, count);
    StretchIncreasing(offsets, spanStart, count);
    StretchGap(offsets, spanStart, count);
    GapNotNegative(added);
    IncreasingConcat(before, added);
    if before == [] {
      assert before + added == added;
    } else {
      MinimumGapConcat(before, added);
    }
  }

  /** What adding a cron day's ticks after earlier ticks does to the ticks. */
  lemma {:induction false} AddedTicks(sample: Sample, before: seq<int>, added: seq<int>)
    requires Increasing(before) && Increasing(added) && added != []
    requires LastTick(sample, before) < added[0]
    ensures MinimumGap(added) >= 0
    ensures before == [] ==> MinimumGap(before) == 0
    ensures Increasing(before + added)
    ensures LastTick(sample, before + added) == added[|added| - 1]
    ensures MinimumGap(before + added)
            == if before == [] then MinimumGap(added)
               else LeastGap(LeastGap(MinimumGap(before), added[0] - LastTick(sample, before)), MinimumGap(added))
  {
    NoGap();
    hide MinimumGap, LeastGap;
    GapNotNegative(added);
    IncreasingConcat(before, added);
    if before == [] {
      assert before + added == added;
    } else {
      MinimumGapConcat(before, added);
    }
  }

  lemma NoGap()
    ensures MinimumGap([]) == 0
  {
  }

  lemma {:induction false} GapNotNegative(ticks: seq<int>)
    requires Increasing(ticks)
    ensures MinimumGap(ticks) >= 0
  {
    if |ticks| >= 2 {
      var at := MinimumGapIsMinimum(ticks);
    }
  }

  lemma AppendSpan(sample: Sample, spans: seq<DaySpan>, offset: nat, count: nat)
    requires ValidSample(sample) && count > 0
    ensures var more := spans + [DaySpan(offset, count, 0)];
            && AllTicks(sample, more) == AllTicks(sample, spans) + Stretch(sample.offsets, sample.start + offset * SECOND, count)
            && ProjectionFloor(sample, more) == ProjectionFloor(sample, spans) + 2
  {
    hide Stretch, AllTicks, ProjectionFloor;
    AllTicksAppend(sample, spans, DaySpan(offset, count, 0));
    ProjectionFloorAppend(sample, spans, DaySpan(offset, count, 0));
  }

  /** Days that follow the last span of ordinary days extend it. */
  lemma {:induction false} ExtendSpan(sample: Sample, spans: seq<DaySpan>, offset: nat, count: nat)
    requires ValidSample(sample) && spans != [] && spans[|spans| - 1].days > 0
    requires spans[|spans| - 1].start + spans[|spans| - 1].days * 86_400 == offset
    ensures var last := spans[|spans| - 1];
            var extended := spans[|spans| - 1 := last.(days := last.days + count)];
            && AllTicks(sample, extended) == AllTicks(sample, spans) + Stretch(sample.offsets, sample.start + offset * SECOND, count)
            && ProjectionFloor(sample, extended) == ProjectionFloor(sample, spans)
  {
    hide Stretch, Days;
    var n := |spans|;
    var last := spans[n - 1];
    var extended := spans[n - 1 := last.(days := last.days + count)];
    assert extended[..n - 1] == spans[..n - 1];
    StretchContinues(sample.offsets, SpanStart(sample, last), last.days, count);
    DaysProduct(last.days);
    assert offset * SECOND == last.start * SECOND + last.days * DAY;
  }
}
