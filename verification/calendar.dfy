/** Dates as .NET tick counts and the proleptic Gregorian calendar behind
    `DateTime.Date`, `DateTime.Year`, `DateTime.Month` and `AddMonths(1)`.

    A tick is 100 ns; tick 0 is midnight at the start of 0001-01-01. Only the
    clock reading of a `DateTimeOffset` is modelled, never its offset. */
module Calendar {

  const TicksPerDay: nat := 864_000_000_000

  type Ticks = nat

  /** Days elapsed since 0001-01-01 (the `.Date` of a value, counted in days). */
  function Day(t: Ticks): nat {
    t / TicksPerDay
  }

  /** `t.Date`: midnight at the start of the calendar day of `t`. */
  function StartOfDay(t: Ticks): (r: Ticks)
    ensures Day(r) == Day(t)
    ensures r % TicksPerDay == 0
    ensures r <= t
  {
    Day(t) * TicksPerDay
  }

  /** `t.Date.AddDays(1).AddTicks(-1)`: the last tick of the calendar day of `t`. */
  function EndOfDay(t: Ticks): (r: Ticks)
    ensures Day(r) == Day(t)
    ensures r % TicksPerDay == TicksPerDay - 1
    ensures t <= r
  {
    (Day(t) + 1) * TicksPerDay - 1
  }

  /** Every tick of the same calendar day lies between the day's first and last tick,
      and nothing outside that interval is on that day. */
  lemma DayBounds(t: Ticks, u: Ticks)
    ensures Day(u) == Day(t) <==> StartOfDay(t) <= u <= EndOfDay(t)
  {
    if StartOfDay(t) <= u <= EndOfDay(t) {
      assert Day(t) * TicksPerDay <= u < (Day(t) + 1) * TicksPerDay;
    }
  }

  /** Truncating to the day and pushing to the end of the day are idempotent. */
  lemma NormalisationIdempotent(t: Ticks)
    ensures StartOfDay(StartOfDay(t)) == StartOfDay(t)
    ensures EndOfDay(EndOfDay(t)) == EndOfDay(t)
  {
  }

  // ---------------------------------------------------------------------------
  // Years

  predicate IsLeapYear(y: int) {
    y % 4 == 0 && (y % 100 != 0 || y % 400 == 0)
  }

  function DaysInYear(y: int): nat {
    if IsLeapYear(y) then 366 else 365
  }

  /** Days from 0001-01-01 to the first day of year `y`. */
  function DaysBeforeYear(y: nat): nat
    requires 1 <= y
  {
    var x := y - 1;
    365 * x + x / 4 - x / 100 + x / 400
  }

  /** Counting up to year `y` adds one to a leap-rule quotient exactly when `y`
      is a multiple of the divisor (4, 100 and 400 respectively). */
  lemma QuarterStep(y: nat)
    requires 1 <= y
    ensures y / 4 == (y - 1) / 4 + (if y % 4 == 0 then 1 else 0)
  {
  }

  lemma CenturyStep(y: nat)
    requires 1 <= y
    ensures y / 100 == (y - 1) / 100 + (if y % 100 == 0 then 1 else 0)
  {
  }

  lemma QuadCenturyStep(y: nat)
    requires 1 <= y
    ensures y / 400 == (y - 1) / 400 + (if y % 400 == 0 then 1 else 0)
  {
  }

  /** Consecutive year starts are one year length apart. */
  lemma YearLength(y: nat)
    requires 1 <= y
    ensures DaysBeforeYear(y + 1) == DaysBeforeYear(y) + DaysInYear(y)
  {
    QuarterStep(y);
    CenturyStep(y);
    QuadCenturyStep(y);
    DivisorsNest(y);
    assert DaysBeforeYear(y + 1) == 365 * y + y / 4 - y / 100 + y / 400;
  }

  /** A multiple of 400 is a multiple of 100, which is a multiple of 4. */
  lemma DivisorsNest(y: nat)
    ensures y % 400 == 0 ==> y % 100 == 0
    ensures y % 100 == 0 ==> y % 4 == 0
  {
    if y % 100 == 0 {
      assert y == (y / 100) * 100 == 4 * (25 * (y / 100));
    }
    if y % 400 == 0 {
      assert y == (y / 400) * 400 == 100 * (4 * (y / 400));
    }
  }

  /** The year containing `day`, found by walking forward from year `y`. */
  function YearFrom(day: nat, y: nat): (r: nat)
    requires 1 <= y && DaysBeforeYear(y) <= day
    ensures y <= r
    ensures DaysBeforeYear(r) <= day < DaysBeforeYear(r + 1)
    decreases day - DaysBeforeYear(y)
  {
    YearLength(y);
    if day < DaysBeforeYear(y + 1) then y else YearFrom(day, y + 1)
  }

  function YearOf(day: nat): (r: nat)
    ensures 1 <= r
    ensures DaysBeforeYear(r) <= day < DaysBeforeYear(r + 1)
  {
    YearFrom(day, 1)
  }

  // ---------------------------------------------------------------------------
  // Months

  /** Days before month `m` in a common year; entry 12 is the year length. */
  const DaysToMonth365: seq<nat> := [0, 31, 59, 90, 120, 151, 181, 212, 243, 273, 304, 334, 365]

  /** Days from the first of January of year `y` to the first day of month `m`;
      `m == 13` gives the length of the year. */
  function DaysBeforeMonth(y: int, m: int): (r: nat)
    requires 1 <= m <= 13
  {
    DaysToMonth365[m - 1] + (if IsLeapYear(y) && m > 2 then 1 else 0)
  }

  /** A displayed calendar month, as `DateTime.Year` and `DateTime.Month` see it. */
  datatype YearMonth = YearMonth(year: int, month: int) {
    predicate Valid() {
      1 <= year && 1 <= month <= 12
    }

    /** Months counted from January of year 0; one step per month. */
    function Index(): int {
      year * 12 + month - 1
    }
  }

  /** The month `i` steps after January of year 0. */
  function FromIndex(i: int): (r: YearMonth)
    ensures 1 <= r.month <= 12
    ensures r.Index() == i
  {
    YearMonth(i / 12, i % 12 + 1)
  }

  /** `AddMonths(1)` on the year and month of a date. */
  function Next(ym: YearMonth): (r: YearMonth)
    requires ym.Valid()
    ensures r.Valid()
    ensures r.Index() == ym.Index() + 1
  {
    FromIndex(ym.Index() + 1)
  }

  /** Adding one month advances the month and rolls December over into January
      of the following year; the result is never the month it started from. */
  lemma NextRollsOver(ym: YearMonth)
    requires ym.Valid()
    ensures ym.month < 12 ==> Next(ym) == YearMonth(ym.year, ym.month + 1)
    ensures ym.month == 12 ==> Next(ym) == YearMonth(ym.year + 1, 1)
    ensures Next(ym) != ym
  {
  }

  /** Days from 0001-01-01 to the first day of month `ym`. */
  function FirstDayOf(ym: YearMonth): nat
    requires ym.Valid()
  {
    DaysBeforeYear(ym.year) + DaysBeforeMonth(ym.year, ym.month)
  }

  /** The month of year `y` containing day-of-year `doy`, walking forward from `m`. */
  function MonthFrom(y: int, doy: nat, m: int): (r: int)
    requires 1 <= m <= 12
    requires DaysBeforeMonth(y, m) <= doy < DaysBeforeMonth(y, 13)
    ensures m <= r <= 12
    ensures DaysBeforeMonth(y, r) <= doy < DaysBeforeMonth(y, r + 1)
    decreases 12 - m
  {
    if doy < DaysBeforeMonth(y, m + 1) then m else MonthFrom(y, doy, m + 1)
  }

  /** The calendar month containing `day`: its first day is at or before `day`
      and the first day of the following month is after it. */
  function MonthOf(day: nat): (r: YearMonth)
    ensures r.Valid()
    ensures FirstDayOf(r) <= day < FirstDayOf(Next(r))
  {
    var y := YearOf(day);
    YearLength(y);
    var m := MonthFrom(y, day - DaysBeforeYear(y), 1);
    var r := YearMonth(y, m);
    NextRollsOver(r);
    r
  }

  /** A valid month is the month its index names. */
  lemma FromIndexOfValid(ym: YearMonth)
    requires ym.Valid()
    ensures FromIndex(ym.Index()) == ym
  {
  }

  /** The following month starts after this one does. */
  lemma NextStartsLater(ym: YearMonth)
    requires ym.Valid()
    ensures FirstDayOf(ym) < FirstDayOf(Next(ym))
  {
    NextRollsOver(ym);
    if ym.month == 12 {
      YearLength(ym.year);
    }
  }

  /** Month starts strictly increase with the month index. */
  lemma {:induction false} FirstDayIncreasing(a: YearMonth, b: YearMonth)
    requires a.Valid() && b.Valid()
    requires a.Index() < b.Index()
    ensures FirstDayOf(Next(a)) <= FirstDayOf(b)
    decreases b.Index() - a.Index()
  {
    var n := Next(a);
    if n.Index() == b.Index() {
      FromIndexOfValid(b);
    } else {
      FirstDayIncreasing(n, b);
      NextStartsLater(n);
    }
  }

  /** `MonthOf` is the only month containing `day`. */
  lemma MonthOfUnique(day: nat, ym: YearMonth)
    requires ym.Valid()
    requires FirstDayOf(ym) <= day < FirstDayOf(Next(ym))
    ensures MonthOf(day) == ym
  {
    var r := MonthOf(day);
    if r.Index() < ym.Index() {
      FirstDayIncreasing(r, ym);
    } else if ym.Index() < r.Index() {
      FirstDayIncreasing(ym, r);
    } else {
      assert r.year * 12 + r.month == ym.year * 12 + ym.month;
    }
  }

  /** The year and month of an instant, as `DateTime.Year`/`DateTime.Month` report them. */
  function MonthOfTicks(t: Ticks): (r: YearMonth)
    ensures r.Valid()
    ensures FirstDayOf(r) <= Day(t) < FirstDayOf(Next(r))
  {
    MonthOf(Day(t))
  }

  /** Two instants on the same calendar day are in the same calendar month. */
  lemma SameDaySameMonth(t: Ticks, u: Ticks)
    requires Day(t) == Day(u)
    ensures MonthOfTicks(t) == MonthOfTicks(u)
  {
  }
}
