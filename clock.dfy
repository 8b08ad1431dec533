/** Time as the server sees it: a timestamp is a number of milliseconds since
    1970-01-01T00:00:00Z, the value a JavaScript Date holds. */
module Clock {

  const DayMillis: int := 86_400_000

  /** Length of a month in the fixed-length month model used by AddMonths. */
  const MonthMillis: int := 30 * DayMillis

  /** `baseDate.setMonth(baseDate.getMonth() + months)`: advance a timestamp by a
      number of months. Months are taken as a fixed length, so this is strictly
      increasing in its first argument and additive in the second. */
  function AddMonths(t: int, months: int): (r: int)
    ensures months >= 1 ==> r > t
    ensures months == 0 ==> r == t
    ensures months < 0 ==> r < t
  {
    t + months * MonthMillis
  }

  /** Advancing by a months and then by b months is advancing by a + b months. */
  lemma AddMonthsStacks(t: int, a: int, b: int)
    ensures AddMonths(AddMonths(t, a), b) == AddMonths(t, a + b)
  {
  }

  /** `end.setHours(23, 59, 59, 999)`: the last millisecond of the day of t (UTC). */
  function EndOfDay(t: int): (r: int)
    ensures t <= r < t + DayMillis
    ensures (r + 1) % DayMillis == 0
  {
    t - t % DayMillis + DayMillis - 1
  }

  // ---------------------------------------------------------------------------
  // Calendar month of a timestamp, as the store's `$month` operator gives it
  // (UTC, proleptic Gregorian calendar).
  // ---------------------------------------------------------------------------

  /** Days in a 400-year Gregorian cycle; the calendar repeats after one. */
  const CycleDays: int := 146_097

  /** Days from 1970-01-01 to 2000-01-01, the first day of a 400-year cycle. */
  const CycleEpoch: int := 10_957

  predicate IsLeap(year: int) {
    year % 4 == 0 && (year % 100 != 0 || year % 400 == 0)
  }

  function DaysInYear(year: int): (n: int)
    ensures n == 365 || n == 366
  {
    if IsLeap(year) then 366 else 365
  }

  function DaysInMonth(year: int, month: int): (n: int)
    ensures 28 <= n <= 31
  {
    if month == 2 then (if IsLeap(year) then 29 else 28)
    else if month == 4 || month == 6 || month == 9 || month == 11 then 30
    else 31
  }

  /** Days of `year` before the first of `month`: the lengths of the months
      ahead of it added up. Month 13 stands for the first day of the next year. */
  function DaysBeforeMonth(year: int, month: int): (n: nat)
    requires 1 <= month <= 13
    decreases month
  {
    if month == 1 then 0 else DaysBeforeMonth(year, month - 1) + DaysInMonth(year, month - 1)
  }

  /** The first day of each month, counted from the first of the year: the
      common-year table, one day later from March on in a leap year, and the
      whole year for month 13. */
  lemma MonthStarts(year: int)
    ensures var leap := if IsLeap(year) then 1 else 0;
      && DaysBeforeMonth(year, 1) == 0
      && DaysBeforeMonth(year, 2) == 31
      && DaysBeforeMonth(year, 3) == 59 + leap
      && DaysBeforeMonth(year, 4) == 90 + leap
      && DaysBeforeMonth(year, 5) == 120 + leap
      && DaysBeforeMonth(year, 6) == 151 + leap
      && DaysBeforeMonth(year, 7) == 181 + leap
      && DaysBeforeMonth(year, 8) == 212 + leap
      && DaysBeforeMonth(year, 9) == 243 + leap
      && DaysBeforeMonth(year, 10) == 273 + leap
      && DaysBeforeMonth(year, 11) == 304 + leap
      && DaysBeforeMonth(year, 12) == 334 + leap
      && DaysBeforeMonth(year, 13) == DaysInYear(year)
  {
  }

  /** The month that day index `day` of `year` falls in, found by comparing
      the day against the first days of the months (in a leap year, days from
      29 February on are first moved back by one). */
  function MonthAt(year: int, day: int): (m: int)
    ensures 1 <= m <= 12
  {
    var d := day - (if IsLeap(year) && day >= 59 then 1 else 0);
    if d < 181 then
      (if d < 90 then (if d < 31 then 1 else if d < 59 then 2 else 3)
       else (if d < 120 then 4 else if d < 151 then 5 else 6))
    else
      (if d < 273 then (if d < 212 then 7 else if d < 243 then 8 else 9)
       else (if d < 304 then 10 else if d < 334 then 11 else 12))
  }

  /** MonthAt finds the month whose days include the day: it lies between the
      first of that month and the first of the next. */
  lemma MonthAtInTable(year: int, day: int)
    requires 0 <= day < DaysInYear(year)
    ensures DaysBeforeMonth(year, MonthAt(year, day)) <= day < DaysBeforeMonth(year, MonthAt(year, day) + 1)
  {
    MonthStarts(year);
  }

  /** The first days of the months come in calendar order. */
  lemma TableAscends(year: int, a: int, b: int)
    requires 1 <= a <= b <= 13
    ensures DaysBeforeMonth(year, a) <= DaysBeforeMonth(year, b)
  {
    MonthStarts(year);
  }

  /** Days in the years from `first` up to, but not including, `last`. */
  function DaysFrom(first: int, last: int): (n: nat)
    requires first <= last
    ensures 365 * (last - first) <= n <= 366 * (last - first)
    decreases last - first
  {
    if first == last then 0 else DaysInYear(first) + DaysFrom(first + 1, last)
  }

  /** The year that day number `day` counted from the first of `year` falls
      in, and the day's index within that year. */
  function LocateYear(day: nat, year: int): (r: (int, nat))
    ensures year <= r.0
    ensures r.1 < DaysInYear(r.0)
    decreases day
  {
    if day < DaysInYear(year) then (year, day)
    else LocateYear(day - DaysInYear(year), year + 1)
  }

  /** The whole years LocateYear steps over and the day index it leaves add
      back up to the day count it started from. */
  lemma {:induction false} LocateYearCounts(day: nat, year: int)
    ensures DaysFrom(year, LocateYear(day, year).0) + LocateYear(day, year).1 == day
    decreases day
  {
    if day >= DaysInYear(year) {
      LocateYearCounts(day - DaysInYear(year), year + 1);
    }
  }

  /** The UTC year of a timestamp, up to whole 400-year cycles (which repeat the
      calendar), and the index of its day within that year. */
  function YearAndDay(t: int): (r: (int, nat))
    ensures 2000 <= r.0
    ensures r.1 < DaysInYear(r.0)
  {
    LocateYear((t / DayMillis - CycleEpoch) % CycleDays, 2000)
  }

  /** Calendar month number (1 = January … 12 = December) of a timestamp. */
  function MonthOf(t: int): (m: int)
    ensures 1 <= m <= 12
  {
    var yd := YearAndDay(t);
    MonthAt(yd.0, yd.1)
  }

  /** The year and day index YearAndDay gives add up to the timestamp's day
      within its 400-year cycle. */
  lemma YearAndDayCounts(t: int)
    ensures DaysFrom(2000, YearAndDay(t).0) + YearAndDay(t).1 == (t / DayMillis - CycleEpoch) % CycleDays
  {
    LocateYearCounts((t / DayMillis - CycleEpoch) % CycleDays, 2000);
  }

  /** MonthOf gives the month whose days include the timestamp's day of the
      year, and no other month does. */
  lemma MonthOfCalendar(t: int, month: int)
    requires 1 <= month <= 12
    ensures var yd := YearAndDay(t);
      MonthOf(t) == month <==> DaysBeforeMonth(yd.0, month) <= yd.1 < DaysBeforeMonth(yd.0, month + 1)
  {
    var yd := YearAndDay(t);
    MonthAtInTable(yd.0, yd.1);
    var m := MonthOf(t);
    if m < month {
      TableAscends(yd.0, m + 1, month);
    } else if month < m {
      TableAscends(yd.0, month + 1, m);
    }
  }


  /** 1 March 2000 (UTC), the day after the leap day, is in March. */
  lemma FirstOfMarch2000()
    ensures MonthOf((CycleEpoch + 60) * DayMillis) == 3
  {
    assert YearAndDay((CycleEpoch + 60) * DayMillis) == (2000, 60);
  }
}
