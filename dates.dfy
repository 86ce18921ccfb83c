/** Calendar dates as Python's `datetime` holds them, and month arithmetic as the
    `dateutil` library's relative month offsets perform it when added to a date.

    The library code is not part of the repository; what is written here is an
    assumption about it: a month offset of n is split into n / 12 years and n % 12
    months, the months are added with a carry into the year, the day of month is clamped
    to the last day of the target month (Gregorian leap-year rule), and a target year
    beyond datetime's MAXYEAR (9999) raises. */
module Dates {
  import opened Wrappers

  const MinYear := 1
  const MaxYear := 9999

  /** A (year, month, day) triple; `Date` is the subset that datetime accepts. */
  datatype Ymd = Ymd(year: int, month: int, day: int)

  predicate IsLeapYear(year: int)
  {
    year % 4 == 0 && (year % 100 != 0 || year % 400 == 0)
  }

  /** Number of days of a month in the Gregorian calendar. */
  function DaysInMonth(year: int, month: int): (n: int)
    requires 1 <= month <= 12
    ensures 28 <= n <= 31
    ensures n == 29 <==> month == 2 && IsLeapYear(year)
  {
    if month == 2 then (if IsLeapYear(year) then 29 else 28)
    else if month == 4 || month == 6 || month == 9 || month == 11 then 30
    else 31
  }

  predicate IsValid(d: Ymd)
  {
    MinYear <= d.year <= MaxYear && 1 <= d.month <= 12 && 1 <= d.day <= DaysInMonth(d.year, d.month)
  }

  type Date = d: Ymd | IsValid(d) witness Ymd(1, 1, 1)

  /** Months elapsed since January of year 0: consecutive calendar months have
      consecutive indices. */
  function MonthIndex(d: Ymd): int
  {
    d.year * 12 + d.month - 1
  }

  /** How many months can be added to `d` before the year leaves datetime's range. */
  function MonthsLeft(d: Date): nat
  {
    MaxYear * 12 + 11 - MonthIndex(d)
  }

  function Min(a: int, b: int): int
  {
    if a <= b then a else b
  }

  /** The date n calendar months after d; None where datetime raises because the
      year would exceed MaxYear. */
  function AddMonths(d: Date, n: nat): (r: Option<Date>)
    ensures r.Some? <==> n <= MonthsLeft(d)
    ensures r.Some? ==> MonthIndex(r.value) == MonthIndex(d) + n
    ensures r.Some? && d.day <= DaysInMonth(r.value.year, r.value.month) ==> r.value.day == d.day
    ensures r.Some? && d.day > DaysInMonth(r.value.year, r.value.month) ==>
              r.value.day == DaysInMonth(r.value.year, r.value.month)
  {
    var years, months := n / 12, n % 12;
    var year, month := d.year + years, d.month + months;
    var year', month' := if month > 12 then year + 1 else year, if month > 12 then month - 12 else month;
    if year' > MaxYear then None
    else Some(Ymd(year', month', Min(d.day, DaysInMonth(year', month'))))
  }

  /** Chronological order of dates (what `<` on two datetimes at midnight compares). */
  predicate Before(a: Ymd, b: Ymd)
  {
    a.year < b.year || (a.year == b.year && (a.month < b.month || (a.month == b.month && a.day < b.day)))
  }

  /** A later calendar month means a later date, whatever the days are. */
  lemma IndexOrderIsDateOrder(a: Date, b: Date)
    requires MonthIndex(a) < MonthIndex(b)
    ensures Before(a, b) && !Before(b, a) && a != b
  {
  }

  /** A point in time as SQL Server's GETDATE() returns it: a date and the number of
      clock ticks elapsed since midnight. */
  datatype Instant = Instant(date: Date, ticksSinceMidnight: nat)

  /** Chronological order of instants: by date, then by the time of day. */
  predicate InstantBefore(a: Instant, b: Instant)
  {
    Before(a.date, b.date) || (a.date == b.date && a.ticksSinceMidnight < b.ticksSinceMidnight)
  }

  /** Whether a due date stored at midnight lies before the current instant. The start
      date is parsed without a time of day, so it and every date derived from it carry
      the time 00:00: the due date is past from the first tick of its own day on. */
  function DueBefore(due: Date, now: Instant): (b: bool)
    ensures b <==> InstantBefore(Instant(due, 0), now)
    ensures b <==> Before(due, now.date) || (due == now.date && now.ticksSinceMidnight != 0)
  {
    !Before(now.date, due) && !(due == now.date && now.ticksSinceMidnight == 0)
  }
}
