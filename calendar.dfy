/**
 * The month calendar component (components/eden/EdenCalendar.tsx): the
 * proleptic Gregorian calendar that a JavaScript `Date` follows, the
 * normalisation `new Date(year, month, day)` applies to out-of-range months
 * and days, the 7-column month grid, the event/day matcher and the month
 * navigation state.
 */
module Calendar {
  import opened Options
  import opened Seqs

  /**
   * A calendar day as the component reads it from a JavaScript `Date`:
   * `getFullYear()`, `getMonth()` (0 = January) and `getDate()`. The time of
   * day plays no part in the component.
   */
  datatype Date = Date(year: int, month: int, day: int)

  // ---------------------------------------------------------------------
  // The Gregorian calendar

  predicate IsLeapYear(y: int)
  {
    (y % 4 == 0 && y % 100 != 0) || y % 400 == 0
  }

  /** Number of days of month `m` (0 = January) of year `y`. */
  function DaysInMonth(y: int, m: int): (n: int)
    requires 0 <= m < 12
    ensures 28 <= n <= 31
  {
    if m == 1 then (if IsLeapYear(y) then 29 else 28)
    else if m == 3 || m == 5 || m == 8 || m == 10 then 30
    else 31
  }

  /** A date whose month and day are in range: what the getters of a `Date` return. */
  predicate ValidDate(d: Date)
  {
    0 <= d.month < 12 && 1 <= d.day <= DaysInMonth(d.year, d.month)
  }

  function DaysInYear(y: int): int
  {
    if IsLeapYear(y) then 366 else 365
  }

  /** Days of year `y` before the first of month `m`. */
  function DaysBeforeMonth(y: int, m: int): int
    requires 0 <= m <= 12
  {
    if m == 0 then 0 else DaysBeforeMonth(y, m - 1) + DaysInMonth(y, m - 1)
  }

  /** Days from 1 January of year 1 to 1 January of year `y` (negative before year 1). */
  function DaysBeforeYear(y: int): int
  {
    365 * (y - 1) + (y - 1) / 4 - (y - 1) / 100 + (y - 1) / 400
  }

  /**
   * The day number of a date, counted from 1 January of year 1 (day 0). The
   * month is carried into the year as `new Date(y, m, d)` does (month 12 is
   * January of the next year, month -1 December of the previous one) and
   * the day is added to the first of that month, so day 0 is the last day of
   * the month before. `Date.prototype.getTime` is this number times the
   * milliseconds of a day, plus a fixed offset.
   */
  function DayNumber(d: Date): int
  {
    MonthStart(d.year, d.month) + d.day - 1
  }

  /** Day number of the first of month `m` of year `y`, the month carried into the year. */
  function MonthStart(y: int, m: int): int
  {
    DaysBeforeYear(y + m / 12) + DaysBeforeMonth(y + m / 12, m % 12)
  }

  /** `getDay()`: 0 = Sunday, ..., 6 = Saturday (1 January of year 1 was a Monday). */
  function Weekday(d: Date): (w: int)
    ensures 0 <= w < 7
  {
    (DayNumber(d) + 1) % 7
  }

  /** One more unit moves a floor quotient up exactly at multiples of the divisor. */
  lemma FloorDivStep(a: int, k: int)
    requires k == 4 || k == 100 || k == 400
    ensures (a + 1) / k == a / k + (if (a + 1) % k == 0 then 1 else 0)
  {
    if k == 4 {
      assert (a + 1) / 4 == a / 4 + (if (a + 1) % 4 == 0 then 1 else 0);
    } else if k == 100 {
      assert (a + 1) / 100 == a / 100 + (if (a + 1) % 100 == 0 then 1 else 0);
    } else {
      assert (a + 1) / 400 == a / 400 + (if (a + 1) % 400 == 0 then 1 else 0);
    }
  }

  lemma Div400Div100(y: int)
    requires y % 400 == 0
    ensures y % 100 == 0
  {
    var q := y / 400;
    assert y == 400 * q;
    assert y == 100 * (4 * q) + 0;
  }

  lemma Div100Div4(y: int)
    requires y % 100 == 0
    ensures y % 4 == 0
  {
    var q := y / 100;
    assert y == 100 * q;
    assert y == 4 * (25 * q) + 0;
  }

  lemma YearStep(y: int)
    ensures DaysBeforeYear(y + 1) == DaysBeforeYear(y) + DaysInYear(y)
  {
    FloorDivStep(y - 1, 4);
    FloorDivStep(y - 1, 100);
    FloorDivStep(y - 1, 400);
    if y % 400 == 0 {
      Div400Div100(y);
    }
    if y % 100 == 0 {
      Div100Div4(y);
    }
  }

  lemma DaysBeforeMonthFullYear(y: int)
    ensures DaysBeforeMonth(y, 12) == DaysInYear(y)
  {
    var feb := DaysInMonth(y, 1);
    assert DaysBeforeMonth(y, 1) == 31;
    assert DaysBeforeMonth(y, 2) == 31 + feb;
    assert DaysBeforeMonth(y, 3) == 62 + feb;
    assert DaysBeforeMonth(y, 4) == 92 + feb;
    assert DaysBeforeMonth(y, 5) == 123 + feb;
    assert DaysBeforeMonth(y, 6) == 153 + feb;
    assert DaysBeforeMonth(y, 7) == 184 + feb;
    assert DaysBeforeMonth(y, 8) == 215 + feb;
    assert DaysBeforeMonth(y, 9) == 245 + feb;
    assert DaysBeforeMonth(y, 10) == 276 + feb;
    assert DaysBeforeMonth(y, 11) == 306 + feb;
  }

  /** The first of the month after month `m` of year `y` lies `DaysInMonth` days later. */
  lemma MonthStep(y: int, m: int)
    requires 0 <= m < 12
    ensures MonthStart(y, m + 1) == MonthStart(y, m) + DaysInMonth(y, m)
  {
    var start := DaysBeforeYear(y) + DaysBeforeMonth(y, m);
    assert MonthStart(y, m) == start by {
      assert m / 12 == 0 && m % 12 == m;
    }
    if m == 11 {
      assert MonthStart(y, m + 1) == DaysBeforeYear(y + 1) by {
        assert (m + 1) / 12 == 1 && (m + 1) % 12 == 0;
      }
      YearStep(y);
      DaysBeforeMonthFullYear(y);
    } else {
      assert MonthStart(y, m + 1) == DaysBeforeYear(y) + DaysBeforeMonth(y, m + 1) by {
        assert (m + 1) / 12 == 0 && (m + 1) % 12 == m + 1;
      }
    }
  }

  /** A month index out of range denotes the same days as its normalised form. */
  lemma NormalizeMonth(y: int, m: int)
    ensures MonthStart(y, m) == MonthStart(y + m / 12, m % 12)
  {
    MonthCarry(y, m, m / 12, m % 12);
  }

  /** Month `12 * q + r` of year `y` is month `r` of year `y + q`. */
  lemma MonthCarry(y: int, m: int, q: int, r: int)
    requires 0 <= r < 12 && m == 12 * q + r
    ensures MonthStart(y, m) == MonthStart(y + q, r)
  {
    assert m / 12 == q && m % 12 == r;
    assert r / 12 == 0 && r % 12 == r;
  }

  /** The month before month `m` (0..11) of year `y`, as (year, month). */
  function PrevMonth(y: int, m: int): (int, int)
    requires 0 <= m < 12
  {
    if m == 0 then (y - 1, 11) else (y, m - 1)
  }

  /** The month after month `m` (0..11) of year `y`, as (year, month). */
  function NextMonth(y: int, m: int): (int, int)
    requires 0 <= m < 12
  {
    if m == 11 then (y + 1, 0) else (y, m + 1)
  }

  lemma PrevMonthStartStep(y: int, m: int)
    requires 0 <= m < 12
    ensures var (py, pm) := PrevMonth(y, m);
      MonthStart(y, m) == MonthStart(py, pm) + DaysInMonth(py, pm)
  {
    var (py, pm) := PrevMonth(y, m);
    MonthStep(py, pm);
    if m == 0 {
      MonthCarry(py, 12, 1, 0);
    }
  }

  lemma NextMonthStartStep(y: int, m: int)
    requires 0 <= m < 12
    ensures var (ny, nm) := NextMonth(y, m);
      MonthStart(ny, nm) == MonthStart(y, m) + DaysInMonth(y, m)
  {
    MonthStep(y, m);
    if m == 11 {
      MonthCarry(y, 12, 1, 0);
    }
  }

  /** `MakeDay` once the month index is in range: days outside the month move into its neighbours. */
  function MakeDateInYear(y: int, m: int, d: int): (r: Date)
    requires 0 <= m < 12
    ensures ValidDate(r)
    decreases if d < 1 then 33 - d else d
  {
    if d < 1 then
      var (py, pm) := PrevMonth(y, m);
      MakeDateInYear(py, pm, d + DaysInMonth(py, pm))
    else if d > DaysInMonth(y, m) then
      var (ny, nm) := NextMonth(y, m);
      MakeDateInYear(ny, nm, d - DaysInMonth(y, m))
    else
      Date(y, m, d)
  }

  /** Moving into a neighbouring month keeps the day denoted. */
  lemma {:induction false} MakeDateInYearDayNumber(y: int, m: int, d: int)
    requires 0 <= m < 12
    ensures DayNumber(MakeDateInYear(y, m, d)) == MonthStart(y, m) + d - 1
    decreases if d < 1 then 33 - d else d
  {
    if d < 1 {
      var (py, pm) := PrevMonth(y, m);
      PrevMonthStartStep(y, m);
      MakeDateInYearDayNumber(py, pm, d + DaysInMonth(py, pm));
    } else if d > DaysInMonth(y, m) {
      var (ny, nm) := NextMonth(y, m);
      NextMonthStartStep(y, m);
      MakeDateInYearDayNumber(ny, nm, d - DaysInMonth(y, m));
    }
  }

  /**
   * ECMAScript's MakeDay read back through the getters: any month index is
   * carried into the year and any day number (0, negative, or past the end
   * of the month) into the neighbouring months, giving a valid date that
   * denotes the same day (`MakeDayDayNumber`). The year is taken as given;
   * `Date.prototype.setMonth` and `setDate` work this way.
   */
  function MakeDay(y: int, m: int, d: int): (r: Date)
    ensures ValidDate(r)
  {
    MakeDateInYear(y + m / 12, m % 12, d)
  }

  /** MakeDay denotes day `d` counted from the first of month `m`, whatever the range of `m` and `d`. */
  lemma MakeDayDayNumber(y: int, m: int, d: int)
    ensures DayNumber(MakeDay(y, m, d)) == DayNumber(Date(y, m, d))
  {
    var q, r := m / 12, m % 12;
    var e := MakeDateInYear(y + q, r, d);
    assert MakeDay(y, m, d) == e;
    assert DayNumber(e) == MonthStart(y + q, r) + d - 1 by {
      MakeDateInYearDayNumber(y + q, r, d);
    }
    MonthCarry(y, m, q, r);
  }

  /** A year argument the `Date` constructor reads as a two-digit year. */
  predicate TwoDigitYear(y: int)
  {
    0 <= y <= 99
  }

  /**
   * The year the `Date` constructor uses for a year argument (the
   * MakeFullYear step of ECMAScript's `Date`): 0..99 stand for 1900..1999,
   * any other year for itself.
   */
  function FullYear(y: int): int
  {
    if TwoDigitYear(y) then 1900 + y else y
  }

  /**
   * `new Date(y, m, d)` read back through its getters: the year argument is
   * read by `FullYear`, then month and day are normalised by MakeDay.
   */
  function MakeDate(y: int, m: int, d: int): (r: Date)
    ensures ValidDate(r)
  {
    MakeDay(FullYear(y), m, d)
  }

  /** `new Date(y, m, d)` denotes day `d` counted from the first of month `m` of `FullYear(y)`, whatever the range of `m` and `d`. */
  lemma MakeDateDayNumber(y: int, m: int, d: int)
    ensures DayNumber(MakeDate(y, m, d)) == DayNumber(Date(FullYear(y), m, d))
    ensures !TwoDigitYear(y) ==> DayNumber(MakeDate(y, m, d)) == DayNumber(Date(y, m, d))
  {
    MakeDayDayNumber(FullYear(y), m, d);
  }

  // ---------------------------------------------------------------------
  // Day numbers order dates as (year, month, day) does

  lemma {:induction false} DaysBeforeMonthMonotone(y: int, m1: int, m2: int)
    requires 0 <= m1 <= m2 <= 12
    ensures DaysBeforeMonth(y, m1) + (if m1 < m2 then DaysInMonth(y, m1) else 0) <= DaysBeforeMonth(y, m2)
    decreases m2 - m1
  {
    if m1 < m2 - 1 {
      DaysBeforeMonthMonotone(y, m1, m2 - 1);
    }
  }

  lemma {:induction false} DaysBeforeYearMonotone(y1: int, y2: int)
    requires y1 < y2
    ensures DaysBeforeYear(y1) + DaysInYear(y1) <= DaysBeforeYear(y2)
    decreases y2 - y1
  {
    YearStep(y1);
    if y1 + 1 < y2 {
      DaysBeforeYearMonotone(y1 + 1, y2);
    }
  }

  /** The day number of a valid date lies within its year. */
  lemma DayNumberWithinYear(d: Date)
    requires ValidDate(d)
    ensures DaysBeforeYear(d.year) <= DayNumber(d) < DaysBeforeYear(d.year) + DaysInYear(d.year)
  {
    assert d.month / 12 == 0 && d.month % 12 == d.month;
    DaysBeforeMonthMonotone(d.year, 0, d.month);
    DaysBeforeMonthMonotone(d.year, d.month, 12);
    DaysBeforeMonthFullYear(d.year);
  }

  /** (year, month, day) in lexicographic order. */
  predicate LexLe(a: Date, b: Date)
  {
    a.year < b.year ||
    (a.year == b.year && (a.month < b.month || (a.month == b.month && a.day <= b.day)))
  }

  /** A valid date strictly before another in (year, month, day) order has a smaller day number. */
  lemma DayNumberIncreasing(a: Date, b: Date)
    requires ValidDate(a) && ValidDate(b)
    requires LexLe(a, b) && a != b
    ensures DayNumber(a) < DayNumber(b)
  {
    DayNumberWithinYear(a);
    DayNumberWithinYear(b);
    if a.year < b.year {
      DaysBeforeYearMonotone(a.year, b.year);
    } else if a.month < b.month {
      assert a.month / 12 == 0 && a.month % 12 == a.month;
      assert b.month / 12 == 0 && b.month % 12 == b.month;
      DaysBeforeMonthMonotone(a.year, a.month, b.month);
    }
  }

  /** Comparing day numbers (hence `getTime()`) compares dates by year, then month, then day. */
  lemma DayNumberOrder(a: Date, b: Date)
    requires ValidDate(a) && ValidDate(b)
    ensures DayNumber(a) <= DayNumber(b) <==> LexLe(a, b)
    ensures DayNumber(a) == DayNumber(b) <==> a == b
  {
    if a != b {
      if LexLe(a, b) {
        DayNumberIncreasing(a, b);
      } else {
        DayNumberIncreasing(b, a);
      }
    }
  }

  /** MakeDay of a valid (y, m, d) is that date. */
  lemma MakeDayValid(y: int, m: int, d: int)
    requires ValidDate(Date(y, m, d))
    ensures MakeDay(y, m, d) == Date(y, m, d)
  {
    MakeDayDayNumber(y, m, d);
    DayNumberOrder(MakeDay(y, m, d), Date(y, m, d));
  }

  /**
   * `new Date(y, m, d)` with an in-range month and day reads back that date
   * in year `FullYear(y)`: the same date unless `y` is a two-digit year.
   */
  lemma MakeDateValid(y: int, m: int, d: int)
    requires ValidDate(Date(FullYear(y), m, d))
    ensures MakeDate(y, m, d) == Date(FullYear(y), m, d)
    ensures !TwoDigitYear(y) ==> MakeDate(y, m, d) == Date(y, m, d)
  {
    MakeDayValid(FullYear(y), m, d);
  }

  /** Day 0 of month `m + 1` is the last day of month `m`: `new Date(y, m + 1, 0).getDate()` is the month's length. */
  lemma LastDayOfMonth(y: int, m: int)
    ensures var fy := FullYear(y);
      MakeDate(y, m + 1, 0) == Date(fy + m / 12, m % 12, DaysInMonth(fy + m / 12, m % 12))
  {
    var fy := FullYear(y);
    assert MakeDate(y, m + 1, 0) == MakeDay(fy, m + 1, 0);
    var q, r := m / 12, m % 12;
    if r == 11 {
      assert (m + 1) / 12 == q + 1 && (m + 1) % 12 == 0;
    } else {
      assert (m + 1) / 12 == q && (m + 1) % 12 == r + 1;
    }
    assert MakeDateInYear(fy + q, r, DaysInMonth(fy + q, r)) == Date(fy + q, r, DaysInMonth(fy + q, r));
  }

  /** MakeDay carries a month index out of range into the year. */
  lemma MakeDayNormalizes(y: int, m: int, d: int)
    requires ValidDate(Date(y + m / 12, m % 12, d))
    ensures MakeDay(y, m, d) == Date(y + m / 12, m % 12, d)
  {
    NormalizeMonth(y, m);
    MakeDayDayNumber(y, m, d);
    DayNumberOrder(MakeDay(y, m, d), Date(y + m / 12, m % 12, d));
  }

  /** `new Date` carries a month index out of range into the year `FullYear(y)`. */
  lemma MakeDateNormalizes(y: int, m: int, d: int)
    requires ValidDate(Date(FullYear(y) + m / 12, m % 12, d))
    ensures MakeDate(y, m, d) == Date(FullYear(y) + m / 12, m % 12, d)
  {
    MakeDayNormalizes(FullYear(y), m, d);
  }

  /**
   * A two-digit year argument is read in the 1900s: `new Date(99, 12, 1)`
   * is 1 January 2000, and `new Date(0, 2, 0).getDate()` is 28, the length
   * of February 1900 (year 0 itself is a leap year).
   */
  lemma TwoDigitYearArguments()
    ensures MakeDate(99, 12, 1) == Date(2000, 0, 1)
    ensures MakeDate(0, 2, 0) == Date(1900, 1, 28) && DaysInMonth(0, 1) == 29
    ensures MakeDate(100, -1, 1) == Date(99, 11, 1)
  {
    MakeDateNormalizes(99, 12, 1);
    LastDayOfMonth(0, 1);
    MakeDateNormalizes(100, -1, 1);
  }

  lemma NeighbourMonths(y: int, m: int)
    requires 0 <= m < 12
    ensures PrevMonth(y, m) == (y + (m - 1) / 12, (m - 1) % 12)
    ensures NextMonth(y, m) == (y + (m + 1) / 12, (m + 1) % 12)
  {
  }

  // ---------------------------------------------------------------------
  // The month grid (`generateDays`)

  /** One cell of the month grid, as `generateDays` pushes it. */
  datatype CalendarDay = CalendarDay(day: int, month: int, year: int, isCurrentMonth: bool, date: Date)

  /** `firstDayOfMonth`: the weekday of the first of the month. */
  function FirstWeekday(y: int, m: int): int
  {
    Weekday(MakeDate(y, m, 1))
  }

  /** `daysInMonth`: `new Date(year, month + 1, 0).getDate()`. */
  function MonthLength(y: int, m: int): int
  {
    MakeDate(y, m + 1, 0).day
  }

  /** `daysInPrevMonth`: `new Date(year, month, 0).getDate()`. */
  function PrevMonthLength(y: int, m: int): int
  {
    MakeDate(y, m, 0).day
  }

  /** Number of next-month cells that complete the last row of a grid of `n` cells. */
  function TrailingCount(n: int): (k: int)
    ensures 0 <= k < 7 && (n + k) % 7 == 0
    ensures k == 0 <==> n % 7 == 0
  {
    var remaining := 7 - n % 7;
    if remaining < 7 then remaining else 0
  }

  /** The cells of the previous month that fill the first row up to the first weekday. */
  function LeadingDays(y: int, m: int): seq<CalendarDay>
  {
    var first, prevLen := FirstWeekday(y, m), PrevMonthLength(y, m);
    seq(first, i requires 0 <= i < first =>
      var day := prevLen - first + i + 1;
      CalendarDay(day, m - 1, y, false, MakeDate(y, m - 1, day)))
  }

  /** One cell per day of the month itself. */
  function CurrentDays(y: int, m: int): seq<CalendarDay>
  {
    var len := MonthLength(y, m);
    seq(len, i requires 0 <= i < len => CalendarDay(i + 1, m, y, true, MakeDate(y, m, i + 1)))
  }

  /** The cells of the next month that complete the last row. */
  function TrailingDays(y: int, m: int): seq<CalendarDay>
  {
    var k := TrailingCount(FirstWeekday(y, m) + MonthLength(y, m));
    seq(k, i requires 0 <= i < k => CalendarDay(i + 1, m + 1, y, false, MakeDate(y, m + 1, i + 1)))
  }

  /** The grid `generateDays` returns for the month shown. */
  function MonthGrid(y: int, m: int): seq<CalendarDay>
  {
    LeadingDays(y, m) + CurrentDays(y, m) + TrailingDays(y, m)
  }

  lemma GridPartLengths(y: int, m: int)
    ensures |LeadingDays(y, m)| == FirstWeekday(y, m)
    ensures |CurrentDays(y, m)| == MonthLength(y, m)
    ensures |TrailingDays(y, m)| == TrailingCount(FirstWeekday(y, m) + MonthLength(y, m))
  {
  }

  /** The leading cells up to `i`, as the first loop of `generateDays` extends them. */
  lemma LeadingCellAt(y: int, m: int, i: int)
    requires 0 <= i < FirstWeekday(y, m)
    ensures var day := PrevMonthLength(y, m) - FirstWeekday(y, m) + i + 1;
      LeadingDays(y, m)[..i + 1] == LeadingDays(y, m)[..i] + [CalendarDay(day, m - 1, y, false, MakeDate(y, m - 1, day))]
  {
    var lead := LeadingDays(y, m);
    assert lead[..i + 1] == lead[..i] + [lead[i]];
  }

  /** The month cells up to day `i`, as the second loop extends them. */
  lemma CurrentCellAt(y: int, m: int, i: int)
    requires 1 <= i <= MonthLength(y, m)
    ensures CurrentDays(y, m)[..i] == CurrentDays(y, m)[..i - 1] + [CalendarDay(i, m, y, true, MakeDate(y, m, i))]
  {
    var cur := CurrentDays(y, m);
    assert cur[..i] == cur[..i - 1] + [cur[i - 1]];
  }

  /** The trailing cells up to day `i`, as the third loop extends them. */
  lemma TrailingCellAt(y: int, m: int, i: int)
    requires 1 <= i <= TrailingCount(FirstWeekday(y, m) + MonthLength(y, m))
    ensures TrailingDays(y, m)[..i] == TrailingDays(y, m)[..i - 1] + [CalendarDay(i, m + 1, y, false, MakeDate(y, m + 1, i))]
  {
    var trail := TrailingDays(y, m);
    assert trail[..i] == trail[..i - 1] + [trail[i - 1]];
  }

  /**
   * `generateDays`: three counted loops push the previous month's tail, the
   * month's days and the next month's head into the grid.
   */
  method GenerateDays(currentMonth: Date) returns (days: seq<CalendarDay>)
    ensures days == MonthGrid(currentMonth.year, currentMonth.month)
  {
    var year, month := currentMonth.year, currentMonth.month;
    var firstDayOfMonth := Weekday(MakeDate(year, month, 1));
    var daysInMonth := MakeDate(year, month + 1, 0).day;
    ghost var lead, cur, trail := LeadingDays(year, month), CurrentDays(year, month), TrailingDays(year, month);
    GridPartLengths(year, month);
    days := [];

    var daysInPrevMonth := MakeDate(year, month, 0).day;
    var i := 0;
    while i < firstDayOfMonth
      invariant 0 <= i <= firstDayOfMonth
      invariant days == lead[..i]
    {
      var day := daysInPrevMonth - firstDayOfMonth + i + 1;
      LeadingCellAt(year, month, i);
      days := days + [CalendarDay(day, month - 1, year, false, MakeDate(year, month - 1, day))];
      i := i + 1;
    }
    assert lead[..i] == lead;

    i := 1;
    while i <= daysInMonth
      invariant 1 <= i <= daysInMonth + 1
      invariant days == lead + cur[..i - 1]
    {
      CurrentCellAt(year, month, i);
      days := days + [CalendarDay(i, month, year, true, MakeDate(year, month, i))];
      i := i + 1;
    }
    assert cur[..i - 1] == cur;
    assert |days| == firstDayOfMonth + daysInMonth;

    var remainingDays := 7 - (|days| % 7);
    if remainingDays < 7 {
      assert |trail| == remainingDays;
      i := 1;
      while i <= remainingDays
        invariant 1 <= i <= remainingDays + 1
        invariant days == lead + cur + trail[..i - 1]
      {
        TrailingCellAt(year, month, i);
        days := days + [CalendarDay(i, month + 1, year, false, MakeDate(year, month + 1, i))];
        i := i + 1;
      }
      assert trail[..i - 1] == trail;
    } else {
      assert trail == [];
    }
  }

  /**
   * The three lengths `generateDays` reads off `Date`, in calendar terms:
   * those of month `m` of `FullYear(y)` (of 1900 + y for a two-digit year).
   */
  lemma GridParameters(y: int, m: int)
    requires 0 <= m < 12
    ensures FirstWeekday(y, m) == Weekday(Date(FullYear(y), m, 1))
    ensures MonthLength(y, m) == DaysInMonth(FullYear(y), m)
    ensures PrevMonthLength(y, m) == DaysInMonth(PrevMonth(FullYear(y), m).0, PrevMonth(FullYear(y), m).1)
  {
    MakeDateValid(y, m, 1);
    MonthLengthIs(y, m);
    LastDayOfMonth(y, m - 1);
    NeighbourMonths(FullYear(y), m);
  }

  lemma MonthLengthIs(y: int, m: int)
    requires 0 <= m < 12
    ensures MonthLength(y, m) == DaysInMonth(FullYear(y), m)
  {
    LastDayOfMonth(y, m);
    assert m / 12 == 0 && m % 12 == m;
  }

  /** The grid fills whole weeks: its length is a multiple of 7 between 28 and 42. */
  lemma GridLength(y: int, m: int)
    requires 0 <= m < 12
    ensures |MonthGrid(y, m)| == FirstWeekday(y, m) + DaysInMonth(FullYear(y), m) + TrailingCount(FirstWeekday(y, m) + DaysInMonth(FullYear(y), m))
    ensures |MonthGrid(y, m)| % 7 == 0
    ensures 28 <= |MonthGrid(y, m)| <= 42
  {
    MonthLengthIs(y, m);
    GridPartLengths(y, m);
    var n := FirstWeekday(y, m) + DaysInMonth(FullYear(y), m);
    assert |MonthGrid(y, m)| == n + TrailingCount(n);
    WholeWeeks(n);
  }

  /** Completing 28 to 37 cells to whole weeks gives four, five or six weeks. */
  lemma WholeWeeks(n: int)
    requires 28 <= n <= 37
    ensures 28 <= n + TrailingCount(n) <= 42
  {
    var t := n + TrailingCount(n);
    assert t == 7 * (t / 7);
  }

  /** Exactly the cells of the month itself are flagged `isCurrentMonth`: they follow the leading cells. */
  lemma GridCurrentMonthFlags(y: int, m: int)
    requires 0 <= m < 12
    ensures var g, first := MonthGrid(y, m), FirstWeekday(y, m);
      forall i :: 0 <= i < |g| ==> (g[i].isCurrentMonth <==> first <= i < first + DaysInMonth(FullYear(y), m))
  {
    MonthLengthIs(y, m);
    GridPartLengths(y, m);
    var first, len := FirstWeekday(y, m), DaysInMonth(FullYear(y), m);
    var lead, cur, trail := LeadingDays(y, m), CurrentDays(y, m), TrailingDays(y, m);
    var g := lead + cur + trail;
    assert |lead| == first && |cur| == len;
    forall i | 0 <= i < |g| ensures g[i].isCurrentMonth <==> first <= i < first + len {
      if i < first {
        assert g[i] == lead[i];
      } else if i < first + len {
        assert g[i] == cur[i - first];
      } else {
        assert g[i] == trail[i - first - len];
      }
    }
  }

  /** The month's own cells, numbered 1, 2, ..., DaysInMonth, each holding its own date. */
  lemma CurrentDaysNumbered(y: int, m: int)
    requires 0 <= m < 12
    ensures |CurrentDays(y, m)| == DaysInMonth(FullYear(y), m)
    ensures forall k :: 0 <= k < DaysInMonth(FullYear(y), m) ==>
      CurrentDays(y, m)[k] == CalendarDay(k + 1, m, y, true, Date(FullYear(y), m, k + 1))
  {
    MonthLengthIs(y, m);
    GridPartLengths(y, m);
    forall k | 0 <= k < DaysInMonth(FullYear(y), m) ensures CurrentDays(y, m)[k] == CalendarDay(k + 1, m, y, true, Date(FullYear(y), m, k + 1)) {
      MakeDateValid(y, m, k + 1);
    }
  }

  /** In the grid, the in-month cells follow the leading cells and run 1, 2, ..., DaysInMonth in order. */
  lemma GridCurrentMonthDays(y: int, m: int)
    requires 0 <= m < 12
    ensures |MonthGrid(y, m)| == FirstWeekday(y, m) + DaysInMonth(FullYear(y), m) + TrailingCount(FirstWeekday(y, m) + DaysInMonth(FullYear(y), m))
    ensures MonthGrid(y, m)[FirstWeekday(y, m)..FirstWeekday(y, m) + DaysInMonth(FullYear(y), m)] == CurrentDays(y, m)
  {
    MonthLengthIs(y, m);
    GridPartLengths(y, m);
    var lead, cur, trail := LeadingDays(y, m), CurrentDays(y, m), TrailingDays(y, m);
    assert (lead + cur + trail)[|lead|..|lead| + |cur|] == cur;
  }

  /** The `isCurrentMonth` flag of a cell, as a function value for `Filter`. */
  predicate InMonth(c: CalendarDay)
  {
    c.isCurrentMonth
  }

  lemma LeadingNotInMonth(y: int, m: int)
    ensures Filter(LeadingDays(y, m), InMonth) == []
  {
    FilterDropsAll(LeadingDays(y, m), InMonth);
  }

  lemma CurrentInMonth(y: int, m: int)
    ensures Filter(CurrentDays(y, m), InMonth) == CurrentDays(y, m)
  {
    FilterKeepsAll(CurrentDays(y, m), InMonth);
  }

  lemma TrailingNotInMonth(y: int, m: int)
    ensures Filter(TrailingDays(y, m), InMonth) == []
  {
    FilterDropsAll(TrailingDays(y, m), InMonth);
  }

  /** The in-month cells of the grid are the month's own cells. */
  lemma GridInMonthCells(y: int, m: int)
    ensures Filter(MonthGrid(y, m), InMonth) == CurrentDays(y, m)
  {
    var lead, cur, trail := LeadingDays(y, m), CurrentDays(y, m), TrailingDays(y, m);
    LeadingNotInMonth(y, m);
    CurrentInMonth(y, m);
    TrailingNotInMonth(y, m);
    FilterConcat(lead + cur, trail, InMonth);
    FilterConcat(lead, cur, InMonth);
  }

  /** The number of in-month cells is the length of the month. */
  lemma GridCountsMonthDays(y: int, m: int)
    requires 0 <= m < 12
    ensures CountWhere(MonthGrid(y, m), InMonth) == DaysInMonth(FullYear(y), m)
  {
    GridInMonthCells(y, m);
    MonthLengthIs(y, m);
    GridPartLengths(y, m);
  }

  /**
   * The leading cells number the weekday of the first of the month; their
   * days are consecutive and end at the last day of the previous month. Each
   * stores `month - 1` and the unchanged `year` (so -1 in January), while its
   * `date` is the real day in the month before month `m` of `FullYear(y)`,
   * across the year boundary.
   */
  lemma GridLeading(y: int, m: int)
    requires 0 <= m < 12
    ensures var g, first, py, pm := MonthGrid(y, m), FirstWeekday(y, m), PrevMonth(FullYear(y), m).0, PrevMonth(FullYear(y), m).1;
      && first == Weekday(Date(FullYear(y), m, 1))
      && (first > 0 ==> g[first - 1].day == DaysInMonth(py, pm))
      && forall i :: 0 <= i < first ==>
           && g[i].day == DaysInMonth(py, pm) - first + i + 1
           && 1 <= g[i].day
           && g[i].month == m - 1 && g[i].year == y && !g[i].isCurrentMonth
           && g[i].date == Date(py, pm, g[i].day)
  {
    GridParameters(y, m);
    NeighbourMonths(FullYear(y), m);
    var g, first := MonthGrid(y, m), FirstWeekday(y, m);
    var (py, pm) := PrevMonth(FullYear(y), m);
    forall i | 0 <= i < first ensures g[i].date == Date(py, pm, g[i].day) {
      MakeDateNormalizes(y, m - 1, g[i].day);
    }
  }

  /**
   * The trailing cells are numbered 1..k with k < 7, and k = 0 exactly when
   * the leading and month cells already fill whole weeks. Each stores
   * `month + 1` and the unchanged `year` (so 12 in December), while its
   * `date` is the real day in the month after month `m` of `FullYear(y)`.
   */
  lemma GridTrailing(y: int, m: int)
    requires 0 <= m < 12
    ensures var g, n, ny, nm := MonthGrid(y, m), FirstWeekday(y, m) + DaysInMonth(FullYear(y), m), NextMonth(FullYear(y), m).0, NextMonth(FullYear(y), m).1;
      && 0 <= |g| - n < 7
      && (|g| == n <==> n % 7 == 0)
      && forall i :: n <= i < |g| ==>
           g[i] == CalendarDay(i - n + 1, m + 1, y, false, Date(ny, nm, i - n + 1))
  {
    MonthLengthIs(y, m);
    GridPartLengths(y, m);
    var lead, cur, trail := LeadingDays(y, m), CurrentDays(y, m), TrailingDays(y, m);
    var g, n := MonthGrid(y, m), FirstWeekday(y, m) + DaysInMonth(FullYear(y), m);
    assert g == lead + cur + trail && |lead + cur| == n;
    var (ny, nm) := NextMonth(FullYear(y), m);
    forall i | n <= i < |g| ensures g[i] == CalendarDay(i - n + 1, m + 1, y, false, Date(ny, nm, i - n + 1)) {
      assert g[i] == trail[i - n];
      TrailingCell(y, m, i - n);
    }
  }

  /** Trailing cell `j` holds day `j + 1` of the next month. */
  lemma TrailingCell(y: int, m: int, j: int)
    requires 0 <= m < 12
    requires 0 <= j < |TrailingDays(y, m)|
    ensures var (ny, nm) := NextMonth(FullYear(y), m);
      TrailingDays(y, m)[j] == CalendarDay(j + 1, m + 1, y, false, Date(ny, nm, j + 1))
  {
    NeighbourMonths(FullYear(y), m);
    MakeDateNormalizes(y, m + 1, j + 1);
  }

  /**
   * February has 29 days in 2024 and 28 in 2023. The first falls on a
   * Thursday (4) and a Wednesday (3), so by `GridLength` the grids have
   * 4 + 29 + 2 and 3 + 28 + 4 cells: five rows each.
   */
  lemma FebruaryGrids()
    ensures DaysInMonth(2024, 1) == 29 && Weekday(Date(2024, 1, 1)) == 4 && TrailingCount(4 + 29) == 2
    ensures DaysInMonth(2023, 1) == 28 && Weekday(Date(2023, 1, 1)) == 3 && TrailingCount(3 + 28) == 4
  {
    assert DaysBeforeMonth(2024, 1) == 31 && DaysBeforeMonth(2023, 1) == 31;
    assert DaysBeforeYear(2024) == 738885 && DaysBeforeYear(2023) == 738520;
  }

  // ---------------------------------------------------------------------
  // Events on a day

  /** An event as the calendar receives it (`type` is optional). */
  datatype CalendarEvent = CalendarEvent(id: string, date: Date, title: string, kind: Option<string>)

  /** `isSameDay`: equal day of month, month and full year. */
  predicate IsSameDay(a: Date, b: Date)
  {
    a.day == b.day && a.month == b.month && a.year == b.year
  }

  /** On dates read from `Date` getters, `isSameDay` is equality; so it is reflexive and symmetric. */
  lemma IsSameDayIsEquality(a: Date, b: Date)
    ensures IsSameDay(a, b) <==> a == b
    ensures IsSameDay(a, a)
    ensures IsSameDay(a, b) == IsSameDay(b, a)
  {
  }

  /** `getEventsForDate`. */
  function EventsForDate(events: seq<CalendarEvent>, date: Date): seq<CalendarEvent>
  {
    Filter(events, (e: CalendarEvent) => IsSameDay(e.date, date))
  }

  /** `hasEvents`: some event falls on the day. */
  predicate HasEvents(events: seq<CalendarEvent>, date: Date)
  {
    exists i | 0 <= i < |events| :: IsSameDay(events[i].date, date)
  }

  /** `getEventsForDate` returns exactly the events of that day, in input order. */
  lemma EventsForDateExact(events: seq<CalendarEvent>, date: Date)
    ensures forall e :: e in EventsForDate(events, date) <==> e in events && e.date == date
    ensures IsSubsequence(EventsForDate(events, date), events)
    ensures forall e :: multiset(EventsForDate(events, date))[e] == if e.date == date then multiset(events)[e] else 0
  {
    FilterIsSubsequence(events, (e: CalendarEvent) => IsSameDay(e.date, date));
    FilterMembers(events, (e: CalendarEvent) => IsSameDay(e.date, date));
    FilterMultiplicity(events, (e: CalendarEvent) => IsSameDay(e.date, date));
  }

  /** `hasEvents(d)` holds exactly when `getEventsForDate(d)` is non-empty. */
  lemma HasEventsIffSomeEvent(events: seq<CalendarEvent>, date: Date)
    ensures HasEvents(events, date) <==> EventsForDate(events, date) != []
  {
    FilterDropsAll(events, (e: CalendarEvent) => IsSameDay(e.date, date));
  }

  // ---------------------------------------------------------------------
  // Month navigation and the selected date

  /** `goToPreviousMonth`: `new Date(year, month - 1, 1)`. */
  function PreviousMonthStart(current: Date): Date
  {
    MakeDate(current.year, current.month - 1, 1)
  }

  /** `goToNextMonth`: `new Date(year, month + 1, 1)`. */
  function NextMonthStart(current: Date): Date
  {
    MakeDate(current.year, current.month + 1, 1)
  }

  /**
   * Navigation lands on the first of the neighbouring month of `FullYear`
   * of the year shown, wrapping across years.
   */
  lemma NavigationWraps(current: Date)
    requires 0 <= current.month < 12
    ensures var (py, pm) := PrevMonth(FullYear(current.year), current.month);
      PreviousMonthStart(current) == Date(py, pm, 1)
    ensures var (ny, nm) := NextMonth(FullYear(current.year), current.month);
      NextMonthStart(current) == Date(ny, nm, 1)
    ensures current.month == 11 ==> NextMonthStart(current) == Date(FullYear(current.year) + 1, 0, 1)
    ensures current.month == 0 ==> PreviousMonthStart(current) == Date(FullYear(current.year) - 1, 11, 1)
  {
    NeighbourMonths(FullYear(current.year), current.month);
    MakeDateNormalizes(current.year, current.month - 1, 1);
    MakeDateNormalizes(current.year, current.month + 1, 1);
  }

  /**
   * Going forward then back (or back then forward) returns to the same first
   * of month, as long as neither the month shown nor the one visited in
   * between lies in a two-digit year.
   */
  lemma NavigationRoundTrip(current: Date)
    requires ValidDate(current) && current.day == 1 && !TwoDigitYear(current.year)
    ensures !TwoDigitYear(NextMonthStart(current).year) ==> PreviousMonthStart(NextMonthStart(current)) == current
    ensures !TwoDigitYear(PreviousMonthStart(current).year) ==> NextMonthStart(PreviousMonthStart(current)) == current
  {
    NavigationWraps(current);
    NavigationWraps(NextMonthStart(current));
    NavigationWraps(PreviousMonthStart(current));
  }

  /**
   * From January of year 100, going back shows December of year 99, and going
   * forward from there reads 99 as 1999 and shows January 2000.
   */
  lemma NavigationCenturyJump()
    ensures PreviousMonthStart(Date(100, 0, 1)) == Date(99, 11, 1)
    ensures NextMonthStart(Date(99, 11, 1)) == Date(2000, 0, 1)
    ensures NextMonthStart(PreviousMonthStart(Date(100, 0, 1))) != Date(100, 0, 1)
  {
    NavigationWraps(Date(100, 0, 1));
    NavigationWraps(Date(99, 11, 1));
  }

  /**
   * Navigation that keeps the year of the month shown, as
   * `d.setMonth(d.getMonth() - 1, 1)` on a copy does: MakeDay without the
   * two-digit-year rule.
   */
  function PreviousMonthKeepingYear(current: Date): Date
  {
    MakeDay(current.year, current.month - 1, 1)
  }

  /** `d.setMonth(d.getMonth() + 1, 1)` on a copy. */
  function NextMonthKeepingYear(current: Date): Date
  {
    MakeDay(current.year, current.month + 1, 1)
  }

  /** Navigation that keeps the year lands on the neighbouring month of every year and undoes itself. */
  lemma KeepingYearRoundTrip(current: Date)
    requires ValidDate(current) && current.day == 1
    ensures var (py, pm) := PrevMonth(current.year, current.month);
      PreviousMonthKeepingYear(current) == Date(py, pm, 1)
    ensures var (ny, nm) := NextMonth(current.year, current.month);
      NextMonthKeepingYear(current) == Date(ny, nm, 1)
    ensures PreviousMonthKeepingYear(NextMonthKeepingYear(current)) == current
    ensures NextMonthKeepingYear(PreviousMonthKeepingYear(current)) == current
  {
    KeepingYearNeighbours(current);
    KeepingYearNeighbours(NextMonthKeepingYear(current));
    KeepingYearNeighbours(PreviousMonthKeepingYear(current));
  }

  lemma KeepingYearNeighbours(current: Date)
    requires 0 <= current.month < 12
    ensures var (py, pm) := PrevMonth(current.year, current.month);
      PreviousMonthKeepingYear(current) == Date(py, pm, 1)
    ensures var (ny, nm) := NextMonth(current.year, current.month);
      NextMonthKeepingYear(current) == Date(ny, nm, 1)
  {
    NeighbourMonths(current.year, current.month);
    MakeDayNormalizes(current.year, current.month - 1, 1);
    MakeDayNormalizes(current.year, current.month + 1, 1);
  }

  /** The calendar component's state: the selected date and the first of the month shown. */
  class CalendarState {
    var selectedDate: Date
    var currentMonth: Date

    ghost predicate Valid()
      reads this
    {
      ValidDate(currentMonth) && currentMonth.day == 1
    }

    /** `useState(initialDate)` and `useState(new Date(year, month, 1))`. */
    constructor (initialDate: Date)
      requires ValidDate(initialDate)
      ensures Valid()
      ensures selectedDate == initialDate
      ensures currentMonth == Date(FullYear(initialDate.year), initialDate.month, 1)
    {
      selectedDate := initialDate;
      currentMonth := MakeDate(initialDate.year, initialDate.month, 1);
      MakeDateValid(initialDate.year, initialDate.month, 1);
    }

    method GoToPreviousMonth()
      requires Valid()
      modifies this
      ensures Valid()
      ensures currentMonth == PreviousMonthStart(old(currentMonth))
      ensures selectedDate == old(selectedDate)
    {
      currentMonth := MakeDate(currentMonth.year, currentMonth.month - 1, 1);
      NavigationWraps(old(currentMonth));
    }

    method GoToNextMonth()
      requires Valid()
      modifies this
      ensures Valid()
      ensures currentMonth == NextMonthStart(old(currentMonth))
      ensures selectedDate == old(selectedDate)
    {
      currentMonth := MakeDate(currentMonth.year, currentMonth.month + 1, 1);
      NavigationWraps(old(currentMonth));
    }

    /**
     * `selectDate`: records the date and hands it to the optional
     * `onDateSelect` callback; `notified` is what the callback receives.
     */
    method SelectDate(date: Date, hasOnDateSelect: bool) returns (notified: Option<Date>)
      modifies this
      ensures selectedDate == date && currentMonth == old(currentMonth)
      ensures notified == if hasOnDateSelect then Some(date) else None
    {
      selectedDate := date;
      notified := if hasOnDateSelect then Some(date) else None;
    }
  }
}
