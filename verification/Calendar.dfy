/** The Gregorian calendar, as far as a cron schedule's date fields need it. */
module Calendar {

  /** A date with its weekday, counted from Sunday. */
  datatype Date = Date(year: int, month: int, day: int, weekday: int)

  predicate Leap(year: int) {
    year % 4 == 0 && (year % 100 != 0 || year % 400 == 0)
  }

  function DaysInMonth(year: int, month: int): (days: int)
    ensures 28 <= days <= 31
  {
    if month == 2 then (if Leap(year) then 29 else 28)
    else if month == 4 || month == 6 || month == 9 || month == 11 then 30
    else 31
  }

  predicate ValidDate(date: Date) {
    1 <= date.month <= 12 && 1 <= date.day <= DaysInMonth(date.year, date.month) && 0 <= date.weekday < 7
  }

  function NextDate(date: Date): (next: Date)
    requires ValidDate(date)
    ensures ValidDate(next)
  {
    var weekday := (date.weekday + 1) % 7;
    if date.day < DaysInMonth(date.year, date.month) then Date(date.year, date.month, date.day + 1, weekday)
    else if date.month < 12 then Date(date.year, date.month + 1, 1, weekday)
    else Date(date.year + 1, 1, 1, weekday)
  }

  /** The date so many days after the first. */
  function DateAt(first: Date, days: nat): (date: Date)
    requires ValidDate(first)
    ensures ValidDate(date)
  {
    if days == 0 then first else NextDate(DateAt(first, days - 1))
  }

  // ----- Dates by number -----

  /** The year of a date, when years begin with March and a leap day ends one, and
      the month of that year. */
  function MarchYear(date: Date): int {
    if date.month <= 2 then date.year - 1 else date.year
  }

  function MarchMonth(date: Date): int {
    if date.month <= 2 then date.month + 9 else date.month - 3
  }

  function YearNumber(year: int): int {
    365 * year + year / 4 - year / 100 + year / 400
  }

  function DayOfYear(date: Date): int {
    (153 * MarchMonth(date) + 2) / 5 + date.day
  }

  function DayNumber(date: Date): int {
    YearNumber(MarchYear(date)) + DayOfYear(date)
  }

  lemma YearLength(year: int)
    ensures YearNumber(year + 1) == YearNumber(year) + if Leap(year + 1) then 366 else 365
  {
    assert (year + 1) / 4 == year / 4 + if (year + 1) % 4 == 0 then 1 else 0;
    assert (year + 1) / 100 == year / 100 + if (year + 1) % 100 == 0 then 1 else 0;
    assert (year + 1) / 400 == year / 400 + if (year + 1) % 400 == 0 then 1 else 0;
  }

  lemma {:induction false} YearsFollow(a: int, b: int)
    requires a <= b
    ensures YearNumber(a) <= YearNumber(b)
    decreases b - a
  {
    hide YearNumber, Leap;
    if a == b {
    } else {
      YearLength(a);
      YearsFollow(a + 1, b);
    }
  }

  /** A date has a day of its year, and the day after it the next. */
  lemma DaysOfYear(date: Date)
    requires ValidDate(date)
    ensures 1 <= DayOfYear(date) <= if Leap(MarchYear(date) + 1) then 366 else 365
    ensures DayOfYear(NextDate(date))
            == if date.month == 2 && date.day == DaysInMonth(date.year, 2) then 1 else DayOfYear(date) + 1
    ensures MarchYear(NextDate(date)) == MarchYear(date) + if date.month == 2 && date.day == DaysInMonth(date.year, 2) then 1 else 0
    ensures date.month == 2 && date.day == DaysInMonth(date.year, 2) ==> DayOfYear(date) == if Leap(date.year) then 366 else 365
  {
    hide Leap;
  }

  /** The date after a date has the number after its number, and the weekday after
      its weekday. */
  lemma NextNumber(date: Date)
    requires ValidDate(date)
    ensures DayNumber(NextDate(date)) == DayNumber(date) + 1
    ensures NextDate(date).weekday == (date.weekday + 1) % 7
  {
    hide Leap, YearNumber, DayOfYear;
    DaysOfYear(date);
    YearLength(MarchYear(date));
  }

  /** A date so many days later has a number that much greater, and its weekday is
      as many days on. */
  lemma {:induction false} DateIsNumbered(first: Date, days: nat)
    requires ValidDate(first)
    ensures DayNumber(DateAt(first, days)) == DayNumber(first) + days
    ensures DateAt(first, days).weekday == (first.weekday + days) % 7
  {
    hide NextDate, DayNumber;
    if days == 0 {
    } else {
      DateIsNumbered(first, days - 1);
      NextNumber(DateAt(first, days - 1));
      NextWeekday(first.weekday, days);
    }
  }

  /** Dates with one number are one date. */
  lemma NumbersDiffer(a: Date, b: Date)
    requires ValidDate(a) && ValidDate(b) && DayNumber(a) == DayNumber(b)
    ensures a.year == b.year && a.month == b.month && a.day == b.day
  {
    hide Leap, YearNumber, DaysInMonth, DayOfYear, NextDate;
    DaysOfYear(a);
    DaysOfYear(b);
    YearLength(MarchYear(a));
    YearLength(MarchYear(b));
    if MarchYear(a) < MarchYear(b) {
      YearsFollow(MarchYear(a) + 1, MarchYear(b));
    } else if MarchYear(b) < MarchYear(a) {
      YearsFollow(MarchYear(b) + 1, MarchYear(a));
    }
    DaysDiffer(a, b);
  }

  /** The sample's dates: from a Monday, four years with one leap day. */
  lemma SampleDates(first: Date, days: nat)
    requires first == Date(2024, 1, 1, 1) && days == 1461
    ensures DateAt(first, days) == Date(2028, 1, 1, 6)
  {
    hide DateAt, DayNumber, ValidDate;
    SampleNumbers(first, Date(2028, 1, 1, 6));
    DateIsNumbered(first, days);
    NumbersDiffer(DateAt(first, days), Date(2028, 1, 1, 6));
  }

  lemma SampleNumbers(first: Date, last: Date)
    requires first == Date(2024, 1, 1, 1) && last == Date(2028, 1, 1, 6)
    ensures ValidDate(first) && ValidDate(last) && DayNumber(last) == DayNumber(first) + 1461
  {
  }

  lemma DaysDiffer(a: Date, b: Date)
    requires ValidDate(a) && ValidDate(b) && MarchYear(a) == MarchYear(b) && DayOfYear(a) == DayOfYear(b)
    ensures a.year == b.year && a.month == b.month && a.day == b.day
  {
    hide Leap;
  }

  /** How many days of its month are left, counting the date itself. */
  function DaysLeftInMonth(date: Date): (days: int)
    requires ValidDate(date)
    ensures days >= 1
  {
    DaysInMonth(date.year, date.month) - date.day + 1
  }

  lemma NextInMonth(date: Date)
    requires ValidDate(date) && date.day < DaysInMonth(date.year, date.month)
    ensures NextDate(date) == date.(day := date.day + 1, weekday := (date.weekday + 1) % 7)
  {
  }

  lemma NextWeekday(weekday: int, more: nat)
    requires more > 0
    ensures ((weekday + (more - 1)) % 7 + 1) % 7 == (weekday + more) % 7
  {
  }

  /** Within a month, only the day and the weekday move. */
  lemma {:induction false} WithinMonth(first: Date, at: nat, more: nat)
    requires ValidDate(first)
    requires more < DaysLeftInMonth(DateAt(first, at))
    ensures var date := DateAt(first, at);
            DateAt(first, at + more) == date.(day := date.day + more, weekday := (date.weekday + more) % 7)
  {
    hide DaysInMonth, NextDate;
    if more == 0 {
    } else {
      WithinMonth(first, at, more - 1);
      NextInMonth(DateAt(first, at + more - 1));
      NextWeekday(DateAt(first, at).weekday, more);
    }
  }
}
