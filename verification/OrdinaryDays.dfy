/** The day walk itself: an object whose methods project runs over ordinary
    days, remembering each kind of day and skipping whole repetitions. */
module OrdinaryDays {
  import opened ScheduleTicks
  import opened WorkBudget
  import opened DayWalk
  import GoSearch

  /** The state of the walk when it first came to a day: the day and the starts
      before it. */
  datatype Visit = Visit(day: nat, starts: nat)

  /** The walk came to the visit's day with the job held for less than the day
      and its first free tick at index `first`. */
  ghost predicate Visited(walk: Walk, first: nat, visit: Visit) {
    && BusyAt(walk, visit.day) < DAY
    && FirstAt(walk, visit.day) == first
    && After(walk, visit.day).starts == visit.starts
  }

  /** `seen` records every day before `day` at which the job is held for less
      than the day, each under another index. */
  ghost predicate RecordsVisits(walk: Walk, seen: map<nat, Visit>, day: nat) {
    && (forall first :: first in seen ==>
          first <= |walk.rule.offsets| && seen[first].day < day && Visited(walk, first, seen[first]))
    && (forall y: nat :: y < day && BusyAt(walk, y) < DAY ==>
          FirstAt(walk, y) in seen && seen[FirstAt(walk, y)].day == y)
  }

  /** The walk has jumped from day `from`, which repeats day `earlier`, to day
      `to`, with less than a period left. */
  datatype Jump = NoJump | Jump(earlier: nat, from: nat, to: nat)

  ghost predicate Jumped(walk: Walk, jump: Jump, count: nat) {
    jump.Jump? ==>
      && Repeats(walk, jump.earlier, jump.from)
      && BusyAt(walk, jump.to) == BusyAt(walk, jump.from)
      && jump.to <= count < jump.to + (jump.from - jump.earlier)
  }

  /** The days that the walk came to after its jump, by their first free tick. */
  ghost predicate RecordsRevisits(walk: Walk, jump: Jump, again: map<nat, nat>, day: nat) {
    && (jump.NoJump? ==> again == map[])
    && forall first :: first in again ==>
         && first <= |walk.rule.offsets|
         && jump.Jump? && jump.to <= again[first] < day
         && BusyAt(walk, again[first]) < DAY && FirstAt(walk, again[first]) == first
  }

  /** The most work that walking any number of ordinary days takes, by the number
      of ticks of a day. */
  function WalkBound(ticks: nat): nat {
    (ticks + 1) * (ticks + 4) + 2
  }

  // ----- How much work a walk takes -----

  /** The work that is left to do, and the kinds of day known after it. */
  datatype Spent = Spent(work: nat, known: set<int>)

  function Charge(work: nat, later: Spent): Spent {
    later.(work := work + later.work)
  }

  /** Simulating a kind of day takes a unit for each run that it starts, and nothing
      once the kind is known. */
  function KindWork(rule: Rule, first: nat, known: set<int>): nat
    requires first <= |rule.offsets|
  {
    if first in known then 0 else FromFree(rule, first).starts
  }

  /** How many of the days left the run that holds a day holds whole. */
  function HeldFrom(walk: Walk, day: nat, count: nat): (held: nat)
    requires day < count && BusyAt(walk, day) >= DAY
    ensures 0 < held <= count - day
  {
    if count - day < BusyAt(walk, day) / DAY then count - day else BusyAt(walk, day) / DAY
  }

  /** The day after all whole repetitions of a period that fit. */
  function AfterPeriods(day: nat, count: nat, period: nat): (to: nat)
    requires day <= count && period > 0
    ensures day <= to <= count
  {
    WholePeriodsFit(count - day, period);
    day + (count - day) / period * period
  }

  function SeenOn(walk: Walk, seen: map<nat, Visit>, day: nat): map<nat, Visit> {
    seen[FirstAt(walk, day) := Visit(day, After(walk, day).starts)]
  }

  /** The work of a walk from a day on, when no budget stops it. */
  ghost function DaysSpent(walk: Walk, count: nat, day: nat, seen: map<nat, Visit>, repeating: bool, known: set<int>): Spent
    requires day <= count
    decreases count - day, !repeating
  {
    var first := FirstAt(walk, day);
    if day == count then Spent(0, known)
    else if BusyAt(walk, day) >= DAY then
      Charge(1, DaysSpent(walk, count, day + HeldFrom(walk, day, count), seen, repeating, known))
    else if !repeating && first in seen && seen[first].day < day then
      Charge(1, DaysSpent(walk, count, AfterPeriods(day, count, day - seen[first].day), seen, true, known))
    else
      Charge(1 + KindWork(walk.rule, first, known),
             DaysSpent(walk, count, day + 1, if repeating then seen else SeenOn(walk, seen, day), repeating, known + {first}))
  }

  lemma DaysSpentStep(walk: Walk, count: nat, day: nat, seen: map<nat, Visit>, repeating: bool, known: set<int>)
    requires day <= count
    ensures var first, spent := FirstAt(walk, day), DaysSpent(walk, count, day, seen, repeating, known);
            if day == count then spent == Spent(0, known)
            else if BusyAt(walk, day) >= DAY then
              spent == Charge(1, DaysSpent(walk, count, day + HeldFrom(walk, day, count), seen, repeating, known))
            else if !repeating && first in seen && seen[first].day < day then
              spent == Charge(1, DaysSpent(walk, count, AfterPeriods(day, count, day - seen[first].day), seen, true, known))
            else
              spent == Charge(1 + KindWork(walk.rule, first, known),
                              DaysSpent(walk, count, day + 1, if repeating then seen else SeenOn(walk, seen, day), repeating, known + {first}))
  {
  }

  /** Every remembered day is what simulating its kind of day gives. */
  ghost predicate DaysKnown(rule: Rule, days: map<int, DayResult>) {
    forall first :: first in days ==> IsDayResult(rule, first, days[first])
  }

  class ScheduleDayWalk {
    const offsets: seq<int>
    const run: int
    const endsAtTimeout: bool
    const budget: Budget?
    /** One simulated day for each index that the first free tick can have. */
    var days: map<int, DayResult>

    ghost function Rule(): Rule {
      DayWalk.Rule.Rule(offsets, run, endsAtTimeout)
    }

    ghost predicate Valid()
      reads this, budget, Ledger(budget)
    {
      && OrdinaryDay(offsets)
      && Usable(budget)
      && DaysKnown(Rule(), days)
    }

    constructor (offsets: seq<int>, run: int, endsAtTimeout: bool, budget: Budget?)
      requires OrdinaryDay(offsets) && Usable(budget)
      ensures Valid() && days == map[]
      ensures this.offsets == offsets && this.run == run && this.endsAtTimeout == endsAtTimeout && this.budget == budget
    {
      this.offsets := offsets;
      this.run := run;
      this.endsAtTimeout := endsAtTimeout;
      this.budget := budget;
      days := map[];
    }

    /** Searches the day's ticks from index `from` on for the first one that is free
        when the job is busy until the given time of the day. */
    method FirstFreeIndex(busy: int, from: nat) returns (first: nat)
      requires OrdinaryDay(offsets) && from <= |offsets|
      ensures first == FirstFree(Rule(), busy, from)
    {
      var ticks, timeout := offsets, endsAtTimeout;
      var free := i => 0 <= i < |ticks| - from && (if timeout then ticks[from + i] > busy else ticks[from + i] >= busy);
      var found := GoSearch.Search(|offsets| - from, free);
      first := from + found;
      forall i | from <= i < first ensures TickBusy(offsets[i], busy, endsAtTimeout) {
        assert !free(i - from);
      }
      assert first < |offsets| ==> free(found);
      FirstFreeUnique(Rule(), busy, from, first);
    }

    /** The result for the kind of day on which `first` is the first free tick, from
        memory or by simulating it. */
    method Day(first: nat) returns (result: Attempt<DayResult>, ghost work: nat)
      requires Valid() && first <= |offsets|
      modifies this`days, Ledger(budget)
      ensures Valid()
      ensures result.Done? ==> IsDayResult(Rule(), first, result.value) && days == old(days)[first := result.value]
      ensures result.WorkExceeded? ==> Exhausted(budget) && days == old(days) && work < KindWork(Rule(), first, old(days.Keys))
      ensures result.Done? ==> work == KindWork(Rule(), first, old(days.Keys))
      ensures result.Done? ==> work == if first in old(days) then 0 else result.value.starts
      ensures work <= if first in old(days) then 0 else |offsets|
      ensures forall b :: b in Ledger(budget) ==> b.used == old(b.used) + work
    {
      hide FirstFree, OrdinaryDay;
      work := 0;
      if first in days {
        return Done(days[first]), work;
      }
      var starts, skipped, last := 0, first > 0, 0;
      ghost var rule := Rule();
      ghost var inner := false;
      var i := first;
      while i < |offsets|
        invariant first <= i <= |offsets|
        invariant Usable(budget) && days == old(days)
        invariant work == starts <= i - first
        invariant forall b :: b in Ledger(budget) ==> b.used == old(b.used) + work
        invariant starts == 0 <==> i == first
        invariant skipped == (first > 0 || inner)
        invariant var rest := FromFree(rule, i);
                  FromFree(rule, first)
                  == Outcome(starts + rest.starts, inner || rest.skipped,
                             if i < |offsets| || i == first then rest.busyUntil else last + run)
      {
        var ok := TakeWork(budget);
        if !ok {
          return WorkExceeded, work;
        }
        work := work + 1;
        starts := starts + 1;
        last := offsets[i];
        var next := FirstFreeIndex(offsets[i] + run, i + 1);
        if next > i + 1 {
          skipped := true;
          inner := true;
        }
        i := next;
      }
      var simulated := DayResult(starts, skipped, last);
      assert IsDayResult(Rule(), first, simulated);
      days := days[first := simulated];
      result := Done(simulated);
    }

    /** Takes one unit of work. */
    method Take() returns (ok: bool)
      requires Valid()
      modifies Ledger(budget)
      ensures Valid() && Usable(budget) && (!ok ==> Exhausted(budget))
      ensures forall b :: b in Ledger(budget) ==> b.used == old(b.used) + (if ok then 1 else 0)
    {
      hide OrdinaryDay, DaysKnown;
      ok := TakeWork(budget);
    }

    /** The outcome of ordinary days from dayStart on, when a run holds the job until
        busy0. A budget stops the walk exactly when it has less left than the whole
        walk takes. */
    method OrdinaryDays(dayStart: int, count: nat, busy0: int)
      returns (result: Attempt<Outcome>, ghost work: nat)
      requires Valid()
      modifies this`days, Ledger(budget)
      ensures Valid()
      ensures result.Done? ==> result.value == Simulate(Stretch(offsets, dayStart, count), busy0, run, endsAtTimeout)
      ensures result.Done? && count > 0 ==> work > 0
      ensures var spent := DaysSpent(Walk(Rule(), dayStart, busy0), count, 0, map[], false, old(days.Keys));
              if result.Done? then work == spent.work && days.Keys == spent.known
              else work < spent.work && Exhausted(budget)
      ensures work <= WalkBound(|offsets|)
      ensures forall b :: b in Ledger(budget) ==> b.used == old(b.used) + work
    {
      hide After, FirstFree, FromFree, OrdinaryDay, Stretch, Simulate, Days, IsDayResult, BusyAt;
      hide OnTrack, DaysSpent, Exhausted, Usable, WalkBound, DaysKnown, KindWork;
      ghost var walk, known := Walk(Rule(), dayStart, busy0), days.Keys;
      var starts: nat, skipped, busyUntil := 0, false, busy0;
      var seen: map<nat, Visit> := map[];
      var repeating := false;
      var day := 0;
      work := 0;
      ghost var book := StartOfWalk(walk, count, days);
      while day < count
        invariant day <= count
        invariant Valid()
        invariant OnTrack(walk, Cursor(day, starts, skipped, busyUntil, seen, repeating), book, count, days, known, work)
        invariant day > 0 ==> work > 0
        invariant forall b :: b in Ledger(budget) ==> b.used == old(b.used) + work
        decreases count - day, !repeating
      {
        ghost var cursor := Cursor(day, starts, skipped, busyUntil, seen, repeating);
        TrackIsBounded(walk, cursor, book, count, days, known, work);
        BusyOnTrack(walk, cursor, book, count, days, known, work);
        var ok := Take();
        if !ok {
          return WorkExceeded, work;
        }
        var start := dayStart + day * DAY;
        var busy := busyUntil - start;
        if busy >= DAY {
          var held := if count - day < busy / DAY then count - day else busy / DAY;
          book := HeldDays(walk, cursor, book, held, count, days, known, work);
          work := work + 1;
          day := day + held;
          skipped := true;
          continue;
        }
        var first := FirstFreeIndex(busy, 0);
        if !repeating && first in seen {
          day, starts, book := AddRepetitions(walk, cursor, book, seen[first], day, starts, count, days, known, work);
          work := work + 1;
          busyUntil := dayStart + day * DAY + busy;
          repeating := true;
          continue;
        }
        ghost var before := days;
        VisitIsBounded(walk, cursor, book, first, count, days, known, work);
        var attempt;
        ghost var dayWork;
        attempt, dayWork := Day(first);
        if attempt.WorkExceeded? {
          return WorkExceeded, work + 1 + dayWork;
        }
        var simulated := attempt.value;
        book := DayVisited(walk, cursor, book, first, simulated, count, before, known, work, dayWork);
        if !repeating {
          seen := seen[first := Visit(day, starts)];
        }
        work := work + 1 + dayWork;
        starts := starts + simulated.starts;
        skipped := skipped || simulated.skipped;
        if simulated.starts > 0 {
          busyUntil := start + simulated.last + run;
        }
        day := day + 1;
      }
      EndOfWalk(walk, Cursor(day, starts, skipped, busyUntil, seen, repeating), book, count, days, known, work);
      result := Done(Outcome(starts, skipped, busyUntil));
    }
  }

  /** Adds the whole repetitions left of the days since an earlier day in the same
      state, at once. */
  method AddRepetitions(ghost walk: Walk, ghost c: Cursor, ghost book: Book, earlier: Visit, day: nat, starts: nat, count: nat,
                        ghost days: map<int, DayResult>, ghost known: set<int>, ghost work: nat)
    returns (to: nat, more: nat, ghost next: Book)
    requires OnTrack(walk, c, book, count, days, known, work) && c.day == day < count && c.starts == starts
    requires BusyAt(walk, day) < DAY && !c.repeating
    requires FirstAt(walk, day) in c.seen && c.seen[FirstAt(walk, day)] == earlier
    ensures day <= to <= count
    ensures OnTrack(walk, Cursor(to, more, c.skipped, walk.dayStart + to * DAY + BusyAt(walk, day), c.seen, true),
                    next, count, days, known, work + 1)
  {
    hide OnTrack, FirstAt, BusyAt, Repeats, After, DaysSpent;
    EarlierVisit(walk, c, book, count, days, known, work);
    var period := day - earlier.day;
    var repetitions := (count - day) / period;
    var ahead, total := day + repetitions * period, starts + repetitions * (starts - earlier.starts);
    next := JumpAhead(walk, c, book, FirstAt(walk, day), period, repetitions, ahead, total, count, days, known, work);
    to, more := ahead, total;
  }

  // ----- The walk on its way -----

  /** The walk's own state before a day. */
  datatype Cursor = Cursor(day: nat, starts: nat, skipped: bool, busyUntil: int, seen: map<nat, Visit>, repeating: bool)

  /** What the proof keeps beside it: the jump, the days revisited after the jump, and
      the account of the work. */
  datatype Book = Book(jump: Jump, again: map<nat, nat>, account: Account)

  /** The walk has the outcome of the days before the cursor, its work is accounted
      for, and what is left to do makes up the whole. */
  ghost predicate OnTrack(walk: Walk, c: Cursor, book: Book, count: nat, days: map<int, DayResult>, known: set<int>, work: nat) {
    && c.day <= count
    && After(walk, c.day) == Outcome(c.starts, c.skipped, c.busyUntil)
    && (c.repeating <==> book.jump.Jump?)
    && Accounted(walk, c.seen, book.jump, book.again, c.day, count, Size(days), book.account, work)
    && DaysSpent(walk, count, 0, map[], false, known) == Charge(work, DaysSpent(walk, count, c.day, c.seen, c.repeating, days.Keys))
  }

  lemma StartOfWalk(walk: Walk, count: nat, days: map<int, DayResult>) returns (book: Book)
    requires OrdinaryDay(walk.rule.offsets)
    ensures OnTrack(walk, Cursor(0, 0, false, walk.busyUntil, map[], false), book, count, days, days.Keys, 0)
  {
    hide DaysSpent, Accounted;
    var account := StartOfAccount(walk, count, days);
    book := Book(NoJump, map[], account);
  }

  lemma BusyOnTrack(walk: Walk, c: Cursor, book: Book, count: nat, days: map<int, DayResult>, known: set<int>, work: nat)
    requires OnTrack(walk, c, book, count, days, known, work)
    ensures BusyAt(walk, c.day) == c.busyUntil - (walk.dayStart + c.day * DAY)
    ensures c.day < count ==> work < DaysSpent(walk, count, 0, map[], false, known).work
  {
    hide After, Accounted, DaysSpent;
    DaysProduct(c.day);
    DaysSpentStep(walk, count, c.day, c.seen, c.repeating, days.Keys);
  }

  lemma EndOfWalk(walk: Walk, c: Cursor, book: Book, count: nat, days: map<int, DayResult>, known: set<int>, work: nat)
    requires OnTrack(walk, c, book, count, days, known, work) && c.day == count && DaysKnown(walk.rule, days)
    ensures Outcome(c.starts, c.skipped, c.busyUntil)
            == Simulate(Stretch(walk.rule.offsets, walk.dayStart, count), walk.busyUntil, walk.rule.run, walk.rule.endsAtTimeout)
    ensures DaysSpent(walk, count, 0, map[], false, known) == Spent(work, days.Keys)
    ensures work <= WalkBound(|walk.rule.offsets|)
  {
    hide After, Accounted, DaysSpent, Simulate, Stretch, DaysKnown, WalkBound;
    AfterIsSimulation(walk, count);
    DaysSpentStep(walk, count, c.day, c.seen, c.repeating, days.Keys);
    TrackIsBounded(walk, c, book, count, days, known, work);
  }

  lemma TrackIsBounded(walk: Walk, c: Cursor, book: Book, count: nat, days: map<int, DayResult>, known: set<int>, work: nat)
    requires OnTrack(walk, c, book, count, days, known, work) && DaysKnown(walk.rule, days)
    ensures work <= WalkBound(|walk.rule.offsets|)
  {
    hide After, Accounted, DaysSpent, DaysKnown, WalkBound;
    WorkIsBounded(walk, c.seen, book.jump, book.again, c.day, count, days, book.account, work);
  }

  /** A run that holds the day skips it and the days that it holds whole. */
  lemma {:induction false} HeldDays(walk: Walk, c: Cursor, book: Book, held: nat, count: nat, days: map<int, DayResult>, known: set<int>, work: nat)
    returns (next: Book)
    requires OnTrack(walk, c, book, count, days, known, work) && c.day < count && BusyAt(walk, c.day) >= DAY
    requires held == if count - c.day < BusyAt(walk, c.day) / DAY then count - c.day else BusyAt(walk, c.day) / DAY
    ensures held > 0
    ensures OnTrack(walk, c.(day := c.day + held, skipped := true), next, count, days, known, work + 1)
  {
    hide After, Accounted, DaysSpent, BusyAt;
    var account := HeldAccount(walk, c.seen, book.jump, book.again, c.day, held, count, Size(days), book.account, work);
    DaysSpentStep(walk, count, c.day, c.seen, c.repeating, days.Keys);
    next := book.(account := account);
  }

  lemma {:induction false} EarlierVisit(walk: Walk, c: Cursor, book: Book, count: nat, days: map<int, DayResult>, known: set<int>, work: nat)
    requires OnTrack(walk, c, book, count, days, known, work) && c.day < count && BusyAt(walk, c.day) < DAY
    requires !c.repeating && FirstAt(walk, c.day) in c.seen
    ensures var earlier := c.seen[FirstAt(walk, c.day)];
            && earlier.day < c.day && earlier.starts <= c.starts
            && Repeats(walk, earlier.day, c.day) && After(walk, earlier.day).starts == earlier.starts
  {
    hide After, Accounted, DaysSpent, BusyAt, FirstAt, Repeats;
    NoJumpNoAgain(walk, c.seen, book.jump, book.again, c.day, count, Size(days), book.account, work);
    VisitedEarlier(walk, c.seen, FirstAt(walk, c.day), c.day, count, Size(days), book.account, work);
    StartsGrow(walk, c.seen[FirstAt(walk, c.day)].day, c.day);
  }

  lemma {:induction false} StartsGrow(walk: Walk, earlier: nat, day: nat)
    requires earlier <= day
    ensures After(walk, earlier).starts <= After(walk, day).starts
    decreases day - earlier
  {
    hide FromBusy;
    if earlier >= day {
    } else {
      StartsGrow(walk, earlier, day - 1);
    }
  }

  lemma NoJumpNoAgain(walk: Walk, seen: map<nat, Visit>, jump: Jump, again: map<nat, nat>, day: nat, count: nat,
                      kinds: nat, account: Account, work: nat)
    requires Accounted(walk, seen, jump, again, day, count, kinds, account, work)
    ensures jump.NoJump? ==> again == map[]
  {
    hide After, DayRule, RecordsVisits, Size;
  }

  /** The days since an earlier visit of the same state repeat, so all their whole
      repetitions are added at once. */
  lemma {:induction false} JumpAhead(walk: Walk, c: Cursor, book: Book, first: nat, period: nat, repetitions: nat, to: int, starts: int,
                                     count: nat, days: map<int, DayResult>, known: set<int>, work: nat)
    returns (next: Book)
    requires OnTrack(walk, c, book, count, days, known, work) && c.day < count && BusyAt(walk, c.day) < DAY
    requires !c.repeating && first == FirstAt(walk, c.day) && first in c.seen
    requires period == c.day - c.seen[first].day > 0 && repetitions == (count - c.day) / period
    requires to == c.day + repetitions * period && starts == c.starts + repetitions * (c.starts - c.seen[first].starts)
    ensures c.day <= to <= count && 0 <= starts
    ensures OnTrack(walk, Cursor(to, starts, c.skipped, walk.dayStart + to * DAY + BusyAt(walk, c.day), c.seen, true),
                    next, count, days, known, work + 1)
  {
    hide After, Accounted, DaysSpent, FirstAt, Repeats;
    EarlierVisit(walk, c, book, count, days, known, work);
    NoJumpNoAgain(walk, c.seen, book.jump, book.again, c.day, count, Size(days), book.account, work);
    WholePeriodsFit(count - c.day, period);
    var jump := JumpAccount(walk, c.seen, c.seen[first].day, c.day, period, repetitions, to, count, Size(days), book.account, work);
    DaysProduct(to);
    DaysSpentStep(walk, count, c.day, c.seen, c.repeating, days.Keys);
    next := Book(jump, map[], book.account);
  }

  /** A visit that is not a repetition charges one unit and the kind's work. */
  lemma {:induction false} VisitSpends(walk: Walk, c: Cursor, book: Book, first: nat, count: nat, days: map<int, DayResult>, known: set<int>, work: nat)
    requires OnTrack(walk, c, book, count, days, known, work) && c.day < count && BusyAt(walk, c.day) < DAY
    requires first == FirstAt(walk, c.day) && (c.repeating || first !in c.seen)
    ensures first <= |walk.rule.offsets|
    ensures DaysSpent(walk, count, 0, map[], false, known)
            == Charge(work + 1 + KindWork(walk.rule, first, days.Keys),
                      DaysSpent(walk, count, c.day + 1, if c.repeating then c.seen else SeenOn(walk, c.seen, c.day), c.repeating, days.Keys + {first}))
  {
    hide After, Accounted, DaysSpent, BusyAt, KindWork;
    DaysSpentStep(walk, count, c.day, c.seen, c.repeating, days.Keys);
  }

  lemma {:induction false} VisitIsBounded(walk: Walk, c: Cursor, book: Book, first: nat, count: nat, days: map<int, DayResult>, known: set<int>, work: nat)
    requires OnTrack(walk, c, book, count, days, known, work) && c.day < count && BusyAt(walk, c.day) < DAY
    requires first == FirstAt(walk, c.day) && (c.repeating || first !in c.seen) && DaysKnown(walk.rule, days)
    ensures first <= |walk.rule.offsets|
    ensures work + 1 + KindWork(walk.rule, first, days.Keys) <= DaysSpent(walk, count, 0, map[], false, known).work
    ensures work + 1 <= WalkBound(|walk.rule.offsets|)
    ensures first !in days ==> work + 1 + |walk.rule.offsets| <= WalkBound(|walk.rule.offsets|)
  {
    hide After, Accounted, DaysSpent, BusyAt, FirstAt, DaysKnown, WalkBound, KindWork;
    VisitSpends(walk, c, book, first, count, days, known, work);
    var next, seen := VisitBook(walk, c, book, first, count, days, known, work);
    WorkIsBounded(walk, seen, next.jump, next.again, c.day + 1, count, days, next.account, work + 1);
  }

  /** The day is recorded as visited, before its simulation. */
  lemma {:induction false} VisitBook(walk: Walk, c: Cursor, book: Book, first: nat, count: nat, days: map<int, DayResult>, known: set<int>, work: nat)
    returns (next: Book, seen: map<nat, Visit>)
    requires OnTrack(walk, c, book, count, days, known, work) && c.day < count && BusyAt(walk, c.day) < DAY
    requires first == FirstAt(walk, c.day) && (c.repeating || first !in c.seen)
    ensures seen == (if c.repeating then c.seen else c.seen[first := Visit(c.day, c.starts)])
    ensures next.jump == book.jump
    ensures Accounted(walk, seen, next.jump, next.again, c.day + 1, count, Size(days), next.account, work + 1)
  {
    hide After, Accounted, DaysSpent, BusyAt, FirstAt;
    if c.repeating {
      var account := LaterVisit(walk, c.seen, book.jump, book.again, c.day, count, Size(days), book.account, work);
      next, seen := Book(book.jump, book.again[first := c.day], account), c.seen;
    } else {
      NoJumpNoAgain(walk, c.seen, book.jump, book.again, c.day, count, Size(days), book.account, work);
      var account := FirstVisit(walk, c.seen, c.day, count, c.starts, Size(days), book.account, work);
      next, seen := Book(NoJump, map[], account), c.seen[first := Visit(c.day, c.starts)];
    }
  }

  /** The day is visited and its simulation added. */
  lemma {:induction false} DayVisited(walk: Walk, c: Cursor, book: Book, first: nat, result: DayResult, count: nat,
                                      days: map<int, DayResult>, known: set<int>, work: nat, dayWork: nat)
    returns (next: Book)
    requires OnTrack(walk, c, book, count, days, known, work) && c.day < count && BusyAt(walk, c.day) < DAY
    requires first == FirstAt(walk, c.day) && (c.repeating || first !in c.seen) && IsDayResult(walk.rule, first, result)
    requires first <= |walk.rule.offsets| && dayWork == KindWork(walk.rule, first, days.Keys)
    requires dayWork <= if first in days then 0 else |walk.rule.offsets|
    ensures OnTrack(walk, Cursor(c.day + 1, c.starts + result.starts, c.skipped || result.skipped,
                                 if result.starts > 0 then walk.dayStart + c.day * DAY + result.last + walk.rule.run else c.busyUntil,
                                 if c.repeating then c.seen else c.seen[first := Visit(c.day, c.starts)], c.repeating),
                    next, count, days[first := result], known, work + 1 + dayWork)
  {
    hide After, Accounted, DaysSpent, BusyAt, FirstAt, IsDayResult, KindWork, OnTrack, Charge, SeenOn, Size, DaysKnown;
    VisitSpends(walk, c, book, first, count, days, known, work);
    var visited, seen := VisitBook(walk, c, book, first, count, days, known, work);
    var account := KindAdded(walk, seen, visited.jump, visited.again, c.day + 1, count, days, first, result, visited.account, work + 1, dayWork);
    AfterVisit(walk, c, book, result, count, days, known, work);
    SeenOnTrack(walk, c, book, count, days, known, work);
    assert days[first := result].Keys == days.Keys + {first};
    next := visited.(account := account);
    BackOnTrack(walk, Cursor(c.day + 1, c.starts + result.starts, c.skipped || result.skipped,
                             if result.starts > 0 then walk.dayStart + c.day * DAY + result.last + walk.rule.run else c.busyUntil,
                             seen, c.repeating),
                next, count, days[first := result], known, work + 1 + dayWork);
  }

  lemma AfterVisit(walk: Walk, c: Cursor, book: Book, result: DayResult, count: nat, days: map<int, DayResult>, known: set<int>, work: nat)
    requires OnTrack(walk, c, book, count, days, known, work) && IsDayResult(walk.rule, FirstAt(walk, c.day), result)
    ensures After(walk, c.day + 1)
            == Outcome(c.starts + result.starts, c.skipped || result.skipped,
                       if result.starts > 0 then walk.dayStart + c.day * DAY + result.last + walk.rule.run else c.busyUntil)
  {
    hide After, Accounted, DaysSpent, BusyAt, FirstAt, IsDayResult;
    AfterDay(walk, c.day, result);
    DaysProduct(c.day);
  }

  lemma SeenOnTrack(walk: Walk, c: Cursor, book: Book, count: nat, days: map<int, DayResult>, known: set<int>, work: nat)
    requires OnTrack(walk, c, book, count, days, known, work)
    ensures SeenOn(walk, c.seen, c.day) == c.seen[FirstAt(walk, c.day) := Visit(c.day, c.starts)]
    ensures c.repeating <==> book.jump.Jump?
  {
    hide After, Accounted, DaysSpent, BusyAt, FirstAt;
  }

  lemma BackOnTrack(walk: Walk, c: Cursor, book: Book, count: nat, days: map<int, DayResult>, known: set<int>, work: nat)
    requires c.day <= count
    requires After(walk, c.day) == Outcome(c.starts, c.skipped, c.busyUntil)
    requires c.repeating <==> book.jump.Jump?
    requires Accounted(walk, c.seen, book.jump, book.again, c.day, count, Size(days), book.account, work)
    requires DaysSpent(walk, count, 0, map[], false, known) == Charge(work, DaysSpent(walk, count, c.day, c.seen, c.repeating, days.Keys))
    ensures OnTrack(walk, c, book, count, days, known, work)
  {
    hide After, Accounted, DaysSpent;
  }

  // ----- The proof's account of the work -----

  /** The iterations that skipped held days, whether the last one did, the work
      of simulating kinds of day, and the kinds known before. */
  datatype Account = Account(helds: nat, heldLast: bool, simulated: nat, before: nat)

  function Size<K, V>(m: map<K, V>): nat {
    |m|
  }

  lemma SizeOfUpdate<K, V>(m: map<K, V>, key: K, value: V)
    ensures Size(m[key := value]) == if key in m then Size(m) else Size(m) + 1
  {
  }

  ghost predicate Progress(walk: Walk, seen: map<nat, Visit>, jump: Jump, again: map<nat, nat>, day: nat, count: nat) {
    && DayRule(walk.rule)
    && RecordsVisits(walk, seen, if jump.Jump? then jump.from else day)
    && Jumped(walk, jump, count) && (jump.Jump? ==> jump.to <= day)
    && RecordsRevisits(walk, jump, again, day)
  }

  /** The work is one unit for each visited day, one for each time that held days
      were skipped, which happens at most once before each visit, one for the
      jump, and the work of simulating kinds of day. */
  ghost predicate Accounted(walk: Walk, seen: map<nat, Visit>, jump: Jump, again: map<nat, nat>, day: nat, count: nat,
                            kinds: nat, account: Account, work: nat)
  {
    && Progress(walk, seen, jump, again, day, count)
    && (account.heldLast ==> day == count || BusyAt(walk, day) < DAY)
    && account.helds <= Size(seen) + Size(again) + (if account.heldLast then 1 else 0)
    && account.before <= kinds && account.simulated <= |walk.rule.offsets| * (kinds - account.before)
    && work == Size(seen) + Size(again) + account.helds + (if jump.Jump? then 1 else 0) + account.simulated
  }

  lemma StartOfAccount(walk: Walk, count: nat, days: map<int, DayResult>) returns (account: Account)
    requires OrdinaryDay(walk.rule.offsets)
    ensures After(walk, 0) == Outcome(0, false, walk.busyUntil)
    ensures Accounted(walk, map[], NoJump, map[], 0, count, Size(days), account, 0)
  {
    OrdinaryDayRule(walk.rule);
    account := Account(0, false, 0, Size(days));
  }

  /** Days that the earlier run holds whole are skipped at once, and the walk
      comes to none of them. */
  lemma {:induction false} HeldAccount(walk: Walk, seen: map<nat, Visit>, jump: Jump, again: map<nat, nat>, day: nat, held: nat, count: nat,
                                    kinds: nat, account: Account, work: nat)
    returns (next: Account)
    requires Accounted(walk, seen, jump, again, day, count, kinds, account, work)
    requires day < count && BusyAt(walk, day) >= DAY
    requires held == if count - day < BusyAt(walk, day) / DAY then count - day else BusyAt(walk, day) / DAY
    ensures held > 0
    ensures After(walk, day + held) == Outcome(After(walk, day).starts, true, After(walk, day).busyUntil)
    ensures Accounted(walk, seen, jump, again, day + held, count, kinds, next, work + 1)
  {
    hide After, FirstFree, DayRule, Visited, Jumped, Size;
    var busy := BusyAt(walk, day);
    forall more: nat | more <= held
      ensures Days(more) <= busy
      ensures After(walk, day + more) == Outcome(After(walk, day).starts, After(walk, day).skipped || more > 0, After(walk, day).busyUntil)
      ensures BusyAt(walk, day + more) == busy - Days(more)
    {
      DaysProduct(more);
      DaysSum(day, more);
      AfterHeldDays(walk, day, more);
    }
    DaysProduct(held);
    forall y: nat | day <= y < day + held
      ensures BusyAt(walk, y) >= DAY
    {
      DaysProduct(y - day);
      assert BusyAt(walk, day + (y - day)) == busy - Days(y - day);
    }
    next := account.(helds := account.helds + 1, heldLast := true);
  }

  lemma {:induction false} VisitedEarlier(walk: Walk, seen: map<nat, Visit>, first: nat, day: nat, count: nat,
                                          kinds: nat, account: Account, work: nat)
    requires Accounted(walk, seen, NoJump, map[], day, count, kinds, account, work)
    requires BusyAt(walk, day) < DAY && FirstAt(walk, day) == first && first in seen
    ensures Repeats(walk, seen[first].day, day) && seen[first].day < day
    ensures After(walk, seen[first].day).starts == seen[first].starts
  {
    hide After, FirstFree, DayRule, Days, Size;
  }

  /** The jump over whole repetitions in the account. */
  lemma {:induction false} JumpAccount(walk: Walk, seen: map<nat, Visit>, earlier: nat, day: nat, period: nat, repetitions: nat, to: nat,
                                     count: nat, kinds: nat, account: Account, work: nat)
    returns (jump: Jump)
    requires Accounted(walk, seen, NoJump, map[], day, count, kinds, account, work) && day < count
    requires Repeats(walk, earlier, day) && period == day - earlier > 0
    requires repetitions == (count - day) / period && to == day + repetitions * period
    ensures jump == Jump(earlier, day, to) && to <= count
    ensures After(walk, earlier).starts <= After(walk, day).starts
    ensures After(walk, to).starts
            == After(walk, day).starts + repetitions * (After(walk, day).starts - After(walk, earlier).starts)
    ensures After(walk, to).skipped == After(walk, day).skipped
    ensures BusyAt(walk, to) == BusyAt(walk, day)
    ensures Accounted(walk, seen, jump, map[], to, count, kinds, account, work + 1)
  {
    hide After, FirstFree, FromFree, DayRule, Days, Repeats, RecordsVisits, Size;
    WholePeriodsFit(count - day, period);
    AfterRepetitions(walk, earlier, day, repetitions);
    jump := Jump(earlier, day, to);
    BusyAtRepeat(walk, earlier, day);
  }

  lemma BusyAtRepeat(walk: Walk, earlier: nat, day: nat)
    requires Repeats(walk, earlier, day)
    ensures BusyAt(walk, day) < DAY
  {
  }

  lemma WholePeriodsFit(left: nat, period: nat)
    requires period > 0
    ensures left / period >= 0
    ensures 0 <= (left / period) * period <= left < (left / period) * period + period
  {
  }

  lemma {:induction false} FirstVisit(walk: Walk, seen: map<nat, Visit>, day: nat, count: nat, starts: nat,
                                      kinds: nat, account: Account, work: nat)
    returns (next: Account)
    requires Accounted(walk, seen, NoJump, map[], day, count, kinds, account, work)
    requires BusyAt(walk, day) < DAY && FirstAt(walk, day) !in seen
    requires After(walk, day).starts == starts
    ensures Accounted(walk, seen[FirstAt(walk, day) := Visit(day, starts)], NoJump, map[], day + 1, count, kinds, next, work + 1)
  {
    hide After, FirstFree, DayRule, Days, Size;
    SizeOfUpdate(seen, FirstAt(walk, day), Visit(day, starts));
    next := account.(heldLast := false);
  }

  /** After its jump the walk comes to each state at most once. */
  lemma {:induction false} LaterVisit(walk: Walk, seen: map<nat, Visit>, jump: Jump, again: map<nat, nat>, day: nat, count: nat,
                                      kinds: nat, account: Account, work: nat)
    returns (next: Account)
    requires Accounted(walk, seen, jump, again, day, count, kinds, account, work)
    requires jump.Jump? && day < count && BusyAt(walk, day) < DAY
    ensures Accounted(walk, seen, jump, again[FirstAt(walk, day) := day], day + 1, count, kinds, next, work + 1)
  {
    hide After, FirstFree, DayRule, Days, Size;
    var first := FirstAt(walk, day);
    assert first !in again by {
      if first in again {
        RevisitsEarlierState(walk, jump.earlier, jump.from, jump.to, again[first] - jump.to);
        RevisitsEarlierState(walk, jump.earlier, jump.from, jump.to, day - jump.to);
        assert false;
      }
    }
    SizeOfUpdate(again, first, day);
    next := account.(heldLast := false);
  }

  lemma {:induction false} KindAdded(walk: Walk, seen: map<nat, Visit>, jump: Jump, again: map<nat, nat>, day: nat, count: nat,
                                     days: map<int, DayResult>, first: int, result: DayResult, account: Account, work: nat, more: nat)
    returns (next: Account)
    requires Accounted(walk, seen, jump, again, day, count, Size(days), account, work)
    requires more <= if first in days then 0 else |walk.rule.offsets|
    ensures Accounted(walk, seen, jump, again, day, count, Size(days[first := result]), next, work + more)
  {
    hide Progress, Size, After;
    SizeOfUpdate(days, first, result);
    next := account.(simulated := account.simulated + more);
    var ticks, kinds := |walk.rule.offsets|, Size(days) - account.before;
    assert ticks * (kinds + 1) == ticks * kinds + ticks;
  }

  function UpTo(last: nat): (keys: set<nat>)
    ensures forall key: nat :: key in keys <==> key <= last
    ensures |keys| == last + 1
  {
    if last == 0 then {0} else UpTo(last - 1) + {last}
  }

  /** As many keys as indices at most. */
  lemma {:induction false} FewKeys<T>(m: map<nat, T>, last: nat)
    requires forall key :: key in m ==> key <= last
    ensures Size(m) <= last + 1
  {
    assert UpTo(last) == m.Keys + (UpTo(last) - m.Keys);
    assert Size(m) == |m.Keys|;
  }

  lemma {:induction false} FewKinds(days: map<int, DayResult>, last: nat)
    requires forall first :: first in days ==> 0 <= first <= last
    ensures Size(days) <= last + 1
  {
    var kinds := map first: nat | first in days :: days[first];
    assert kinds.Keys == days.Keys;
    assert |kinds| == |kinds.Keys| == |days.Keys| == |days|;
    FewKeys(kinds, last);
  }

  lemma BoundFromSizes(ticks: nat, visits: nat, revisits: nat, helds: nat, simulated: nat, kinds: nat)
    requires visits <= ticks + 1 && revisits <= ticks + 1 && kinds <= ticks + 1
    requires helds <= visits + revisits + 1 && simulated <= ticks * kinds
    ensures visits + revisits + helds + 1 + simulated <= WalkBound(ticks)
    ensures kinds <= ticks ==> visits + revisits + helds + 1 + simulated + ticks <= WalkBound(ticks)
  {
    assert ticks * kinds <= ticks * (ticks + 1);
    if kinds <= ticks {
      assert ticks * kinds <= ticks * ticks;
    }
  }

  /** The work so far, and the simulation of a kind of day not known yet, stay
      within the bound. */
  lemma {:induction false} WorkIsBounded(walk: Walk, seen: map<nat, Visit>, jump: Jump, again: map<nat, nat>, day: nat, count: nat,
                                         days: map<int, DayResult>, account: Account, work: nat)
    requires DaysKnown(walk.rule, days)
    requires Accounted(walk, seen, jump, again, day, count, Size(days), account, work)
    ensures work <= WalkBound(|walk.rule.offsets|)
    ensures forall first :: 0 <= first <= |walk.rule.offsets| && first !in days ==> work + |walk.rule.offsets| <= WalkBound(|walk.rule.offsets|)
  {
    hide After, FirstFree, FromFree, WalkBound, Size;
    var ticks := |walk.rule.offsets|;
    FewKeys(seen, ticks);
    FewKeys(again, ticks);
    FewKinds(days, ticks);
    var kinds := Size(days) - account.before;
    BoundFromSizes(ticks, Size(seen), Size(again), account.helds, account.simulated, kinds);
    forall first | 0 <= first <= ticks && first !in days
      ensures work + ticks <= WalkBound(ticks)
    {
      SizeOfUpdate(days, first, DayResult(0, false, 0));
      FewKinds(days[first := DayResult(0, false, 0)], ticks);
    }
  }
}
