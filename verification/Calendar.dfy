/** The proleptic Gregorian calendar of Python's `datetime`, one day at a time. */
module Calendar {
  datatype Date = Date(year: int, month: int, day: int)

  predicate Leap(year: int) {
    year % 4 == 0 && (year % 100 != 0 || year % 400 == 0)
  }

  function DaysIn(year: int, month: int): (days: int)
    ensures 28 <= days <= 31
  {
    if month == 2 then (if Leap(year) then 29 else 28)
    else if month in {4, 6, 9, 11} then 30
    else 31
  }

  function NextDay(d: Date): Date {
    if d.day < DaysIn(d.year, d.month) then d.(day := d.day + 1)
    else if d.month < 12 then Date(d.year, d.month + 1, 1)
    else Date(d.year + 1, 1, 1)
  }

  // Day 0 is 1 January of year 1, a Monday.
  function DateOf(n: nat): Date {
    if n == 0 then Date(1, 1, 1) else NextDay(DateOf(n - 1))
  }

  // `datetime.weekday()`, Monday being 0.
  function Weekday(n: nat): nat {
    n % 7
  }

  lemma {:induction false} DateIsValid(n: nat)
    ensures 1 <= DateOf(n).month <= 12 && 1 <= DateOf(n).day <= DaysIn(DateOf(n).year, DateOf(n).month)
  {
    if n > 0 {
      DateIsValid(n - 1);
    }
  }

  // --------------------------------------------------------------- whole months

  lemma {:induction false} WithinMonth(n: nat, k: nat)
    requires DateOf(n).day + k <= DaysIn(DateOf(n).year, DateOf(n).month)
    ensures DateOf(n + k) == DateOf(n).(day := DateOf(n).day + k)
  {
    if k > 0 {
      WithinMonth(n, k - 1);
    }
  }

  lemma {:induction false} BackInMonth(n: nat, k: nat)
    requires k < DateOf(n).day
    ensures k <= n && DateOf(n - k) == DateOf(n).(day := DateOf(n).day - k)
  {
    if k > 0 {
      BackInMonth(n, k - 1);
      DateIsValid(n - k + 1);
    }
  }

  // The first of the month `j` months after `month` of `year`.
  function MonthAfter(year: int, month: int, j: nat): Date
    requires 1 <= month <= 12 && j <= 12
  {
    if month + j <= 12 then Date(year, month + j, 1) else Date(year + 1, month + j - 12, 1)
  }

  // The days of the year before a month.
  function DaysBefore(year: int, month: int): nat {
    if month <= 1 then 0 else DaysBefore(year, month - 1) + DaysIn(year, month - 1)
  }

  // The days of the `j` months from `month` of `year`.
  function DaysOfMonths(year: int, month: int, j: nat): int
    requires 1 <= month <= 12 && j <= 12
  {
    if month + j <= 12 then DaysBefore(year, month + j) - DaysBefore(year, month)
    else DaysBefore(year, 13) - DaysBefore(year, month) + DaysBefore(year + 1, month + j - 12)
  }

  lemma OneMoreMonth(year: int, month: int, j: nat)
    requires 1 <= month <= 12 && 0 < j <= 12
    ensures var last := MonthAfter(year, month, j - 1);
      DaysOfMonths(year, month, j) == DaysOfMonths(year, month, j - 1) + DaysIn(last.year, last.month)
  {
    hide DaysIn;
  }

  lemma {:induction false} MoreMonthsMoreDays(year: int, month: int, j: nat, k: nat)
    requires 1 <= month <= 12 && j <= k <= 12
    ensures DaysOfMonths(year, month, j) + 28 * (k - j) <= DaysOfMonths(year, month, k)
  {
    hide DaysOfMonths, MonthAfter;
    if j < k {
      MoreMonthsMoreDays(year, month, j, k - 1);
      OneMoreMonth(year, month, k);
    }
  }

  lemma {:induction false} MonthsPass(n: nat, j: nat)
    requires DateOf(n).day == 1 && 1 <= DateOf(n).month <= 12 && j <= 12
    ensures DaysOfMonths(DateOf(n).year, DateOf(n).month, j) >= 0
    ensures DateOf(n + DaysOfMonths(DateOf(n).year, DateOf(n).month, j)) == MonthAfter(DateOf(n).year, DateOf(n).month, j)
  {
    hide DaysBefore;
    if j > 0 {
      var year, month := DateOf(n).year, DateOf(n).month;
      MonthsPass(n, j - 1);
      OneMoreMonth(year, month, j);
      var first := n + DaysOfMonths(year, month, j - 1);
      var days := DaysIn(DateOf(first).year, DateOf(first).month);
      WithinMonth(first, days - 1);
      assert DateOf(first + days) == NextDay(DateOf(first + days - 1));
    }
  }

  // Years differ only in their leap day.
  lemma {:induction false} YearsDiffer(year: int, year': int, month: int)
    ensures DaysBefore(year, month) - DaysBefore(year', month) ==
            if month <= 2 then 0 else (if Leap(year) then 1 else 0) - (if Leap(year') then 1 else 0)
  {
    hide Leap;
    if month > 1 {
      YearsDiffer(year, year', month - 1);
    }
  }

  // The days of a common year before each month, as `datetime` has them.
  lemma CommonYear(year: int)
    requires !Leap(year)
    ensures DaysBefore(year, 2) == 31 && DaysBefore(year, 3) == 59 && DaysBefore(year, 4) == 90
    ensures DaysBefore(year, 5) == 120 && DaysBefore(year, 6) == 151 && DaysBefore(year, 7) == 181
    ensures DaysBefore(year, 8) == 212 && DaysBefore(year, 9) == 243 && DaysBefore(year, 10) == 273
    ensures DaysBefore(year, 11) == 304 && DaysBefore(year, 12) == 334 && DaysBefore(year, 13) == 365
  {
    hide Leap;
    assert DaysBefore(year, 2) == 31;
    assert DaysBefore(year, 3) == 59;
    assert DaysBefore(year, 4) == 90;
    assert DaysBefore(year, 5) == 120;
    assert DaysBefore(year, 6) == 151;
    assert DaysBefore(year, 7) == 181;
    assert DaysBefore(year, 8) == 212;
    assert DaysBefore(year, 9) == 243;
    assert DaysBefore(year, 10) == 273;
    assert DaysBefore(year, 11) == 304;
    assert DaysBefore(year, 12) == 334;
  }

  lemma TwelveMonths(year: int, month: int)
    requires 1 <= month <= 12
    ensures DaysOfMonths(year, month, 12) ==
            365 + (if Leap(if month <= 2 then year else year + 1) then 1 else 0)
  {
    CommonYear(1);
    hide Leap;
    assert !Leap(1);
    YearsDiffer(year, 1, 13);
    YearsDiffer(year + 1, year, month);
  }

  lemma FirstMonth(year: int, month: int)
    requires 1 <= month <= 12
    ensures DaysOfMonths(year, month, 0) == 0 && DaysOfMonths(year, month, 1) == DaysIn(year, month)
  {
  }

  // The days a month has in a common year.
  function CommonDays(month: int): int {
    DaysIn(1, month)
  }

  // A date that every year has comes round within 366 days of any day.
  lemma EveryDateComesRound(n: nat, month: int, day: int) returns (k: nat)
    requires 1 <= month <= 12 && 1 <= day <= CommonDays(month)
    ensures 1 <= k <= 366 && DateOf(n + k).month == month && DateOf(n + k).day == day
    ensures k == 366 ==> DateOf(n).month == month && DateOf(n).day == day
  {
    hide DateOf, DaysOfMonths;
    DateIsValid(n);
    var today := DateOf(n);
    var first := n - (today.day - 1);
    BackInMonth(n, today.day - 1);
    var j := if month > today.month || (month == today.month && day > today.day) then month - today.month
             else month - today.month + 12;
    MonthsPass(first, j);
    var there := first + DaysOfMonths(today.year, today.month, j);
    WithinMonth(there, day - 1);
    TwelveMonths(today.year, today.month);
    FirstMonth(today.year, today.month);
    if j < 12 {
      OneMoreMonth(today.year, today.month, j + 1);
      MoreMonthsMoreDays(today.year, today.month, j + 1, 12);
    }
    if j > 0 {
      MoreMonthsMoreDays(today.year, today.month, 1, j);
    }
    k := there + day - 1 - n;
  }

  // From 1 March before a common year no 29 February comes within 366 days.
  lemma LeapDayIsAway(n: nat, k: nat)
    requires DateOf(n).month == 3 && DateOf(n).day == 1 && !Leap(DateOf(n).year + 1)
    requires k <= 366
    ensures !(DateOf(n + k).month == 2 && DateOf(n + k).day == 29)
  {
    hide DateOf, DaysOfMonths;
    var year := DateOf(n).year;
    TwelveMonths(year, 3);
    FirstMonth(year, 3);
    MonthsPass(n, 12);
    if k >= 365 {
      WithinMonth(n + 365, k - 365);
    } else {
      var j := MonthContaining(year, 3, k, 12);
      MonthsPass(n, j);
      OneMoreMonth(year, 3, j + 1);
      WithinMonth(n + DaysOfMonths(year, 3, j), k - DaysOfMonths(year, 3, j));
    }
  }

  // The month that holds the k-th day from the first of a month.
  lemma {:induction false} MonthContaining(year: int, month: int, k: nat, upTo: nat) returns (j: nat)
    requires 1 <= month <= 12 && upTo <= 12 && k < DaysOfMonths(year, month, upTo)
    ensures j < upTo && DaysOfMonths(year, month, j) <= k < DaysOfMonths(year, month, j + 1)
    decreases upTo
  {
    hide DaysOfMonths, DaysBefore;
    FirstMonth(year, month);
    if k >= DaysOfMonths(year, month, upTo - 1) {
      j := upTo - 1;
    } else {
      j := MonthContaining(year, month, k, upTo - 1);
    }
  }

  // 1 March of year 1; year 2 is a common year.
  lemma MarchOfYearOne()
    ensures DateOf(59) == Date(1, 3, 1) && !Leap(2)
  {
    hide DaysBefore;
    assert DateOf(0) == Date(1, 1, 1);
    MonthsPass(0, 2);
    FirstMonth(1, 1);
    OneMoreMonth(1, 1, 2);
  }

  // ------------------------------------------------------------ 400 years at once

  const PERIOD: nat := 146097

  // The leap years among the first `n`.
  function LeapYears(n: nat): int {
    n / 4 - n / 100 + n / 400
  }

  lemma Fourths(n: nat)
    requires n >= 1
    ensures n / 4 - (n - 1) / 4 == if n % 4 == 0 then 1 else 0
  {
  }

  lemma Hundredths(n: nat)
    requires n >= 1
    ensures n / 100 - (n - 1) / 100 == if n % 100 == 0 then 1 else 0
    ensures n % 100 == 0 ==> n % 4 == 0
  {
  }

  lemma FourHundredths(n: nat)
    requires n >= 1
    ensures n / 400 - (n - 1) / 400 == if n % 400 == 0 then 1 else 0
    ensures n % 400 == 0 ==> n % 100 == 0
  {
  }

  lemma OneMoreLeapYear(n: nat)
    requires n >= 1
    ensures LeapYears(n) == LeapYears(n - 1) + if Leap(n) then 1 else 0
  {
    Fourths(n);
    Hundredths(n);
    FourHundredths(n);
  }

  // The day on which the year after `n` years starts.
  lemma {:induction false} YearsStart(n: nat)
    ensures 365 * n + LeapYears(n) >= 0
    ensures DateOf(365 * n + LeapYears(n)) == Date(n + 1, 1, 1)
  {
    hide LeapYears, DaysOfMonths, DaysIn, DateOf;
    if n == 0 {
      FirstDay();
    } else {
      YearsStart(n - 1);
      OneMoreLeapYear(n);
      var start := 365 * (n - 1) + LeapYears(n - 1);
      TwelveMonths(n, 1);
      MonthsPass(start, 12);
      assert 365 * n + LeapYears(n) == start + DaysOfMonths(n, 1, 12);
    }
  }

  lemma FirstDay()
    ensures DateOf(0) == Date(1, 1, 1) && LeapYears(0) == 0
  {
  }

  lemma NextDayIsPeriodic(d: Date)
    ensures NextDay(d.(year := d.year + 400)) == NextDay(d).(year := NextDay(d).year + 400)
  {
    LeapIsPeriodic(d.year);
    hide Leap;
  }

  lemma LeapIsPeriodic(year: int)
    ensures Leap(year + 400) == Leap(year)
  {
    assert (year + 400) % 400 == year % 400;
    assert (year + 400) % 100 == year % 100;
    assert (year + 400) % 4 == year % 4;
  }

  lemma FourCenturies()
    ensures LeapYears(400) == 97
  {
  }

  lemma DayAfter(n: nat)
    requires n >= 1
    ensures DateOf(n) == NextDay(DateOf(n - 1)) && Weekday(n) == (Weekday(n - 1) + 1) % 7
  {
    hide NextDay, DaysIn;
  }

  // After 400 years the calendar and the weekdays come back.
  lemma {:induction false} CalendarIsPeriodic(n: nat)
    ensures DateOf(n + PERIOD) == DateOf(n).(year := DateOf(n).year + 400)
    ensures Weekday(n + PERIOD) == Weekday(n)
  {
    hide NextDay, LeapYears, DateOf;
    if n == 0 {
      assert 365 * 400 + LeapYears(400) == PERIOD by { FourCenturies(); }
      YearsStart(400);
      FirstDay();
    } else {
      CalendarIsPeriodic(n - 1);
      NextDayIsPeriodic(DateOf(n - 1));
      DayAfter(n);
      DayAfter(n + PERIOD);
    }
  }
}
