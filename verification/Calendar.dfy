/**
 The proleptic Gregorian calendar behind Python's datetime: UTC instants are
 microseconds since 0001-01-01T00:00, in years 1 to 9999.
 */
module Calendar {
  import opened Arithmetic

  const SECOND := 1_000_000
  const MINUTE := 60 * SECOND
  const HOUR := 60 * MINUTE
  const DAY := 24 * HOUR

  predicate Leap(year: nat) {
    year % 4 == 0 && (year % 100 != 0 || year % 400 == 0)
  }

  function DaysInYear(year: nat): nat {
    if Leap(year) then 366 else 365
  }

  /** Days from 0001-01-01 to the first day of `year`. */
  function DaysBefore(year: nat): nat
    requires year >= 1
  {
    365 * (year - 1) + (year - 1) / 4 - (year - 1) / 100 + (year - 1) / 400
  }

  lemma NextYear(year: nat)
    requires year >= 1
    ensures DaysBefore(year + 1) == DaysBefore(year) + DaysInYear(year)
  {
    DivStep(year - 1, 4);
    DivStep(year - 1, 100);
    DivStep(year - 1, 400);
    if year % 400 == 0 {
      MultipleOfMultiple(year, 100, 4);
    }
    if year % 100 == 0 {
      MultipleOfMultiple(year, 4, 25);
    }
  }

  lemma {:induction false} YearsGrow(a: nat, b: nat)
    requires 1 <= a <= b
    ensures DaysBefore(a) + 365 * (b - a) <= DaysBefore(b)
    decreases b
  {
    if a < b {
      YearsGrow(a, b - 1);
      NextYear(b - 1);
    }
  }

  /** The year that contains day number `day`, searching upward from `year`. */
  function YearFrom(day: nat, year: nat): (y: nat)
    requires year >= 1 && DaysBefore(year) <= day
    ensures y >= year && DaysBefore(y) <= day < DaysBefore(y + 1)
    decreases day - DaysBefore(year)
  {
    NextYear(year);
    if day < DaysBefore(year + 1) then year else YearFrom(day, year + 1)
  }

  function YearOf(day: nat): (y: nat)
    ensures y >= 1 && DaysBefore(y) <= day < DaysBefore(y + 1)
  {
    YearFrom(day, 1)
  }

  lemma YearIsUnique(day: nat, year: nat)
    requires year >= 1 && DaysBefore(year) <= day < DaysBefore(year + 1)
    ensures YearOf(day) == year
  {
    var y := YearOf(day);
    YearsGrow(if y < year then y + 1 else year, year);
    YearsGrow(if year < y then year + 1 else y, y);
  }

  /** timetuple().tm_yday. */
  function DayOfYear(day: nat): (d: nat)
    ensures 1 <= d <= DaysInYear(YearOf(day))
  {
    NextYear(YearOf(day));
    day - DaysBefore(YearOf(day)) + 1
  }

  /** Days sort by year, then by day of the year. */
  lemma DayOrder(a: nat, b: nat)
    ensures a < b <==> YearOf(a) < YearOf(b) || (YearOf(a) == YearOf(b) && DayOfYear(a) < DayOfYear(b))
    ensures a == b <==> YearOf(a) == YearOf(b) && DayOfYear(a) == DayOfYear(b)
  {
    if YearOf(a) < YearOf(b) { YearsGrow(YearOf(a) + 1, YearOf(b)); }
    if YearOf(b) < YearOf(a) { YearsGrow(YearOf(b) + 1, YearOf(a)); }
  }

  // ---------------------------------------------------------------------- months

  const BEFORE_MONTH: seq<nat> := [0, 31, 59, 90, 120, 151, 181, 212, 243, 273, 304, 334, 365]

  /** Days from 1 January to the first day of `month`; month 13 is the next January. */
  function DaysBeforeMonth(year: nat, month: nat): nat
    requires 1 <= month <= 13
  {
    BEFORE_MONTH[month - 1] + if month > 2 && Leap(year) then 1 else 0
  }

  lemma MonthsGrow(year: nat, a: nat, b: nat)
    requires 1 <= a <= b <= 13
    ensures DaysBeforeMonth(year, a) <= DaysBeforeMonth(year, b)
  {
  }

  /** The month of the zero-based day of the year, searching upward from `month`. */
  function MonthFrom(year: nat, yday: nat, month: nat): (m: nat)
    requires 1 <= month <= 12 && DaysBeforeMonth(year, month) <= yday < DaysInYear(year)
    ensures month <= m <= 12 && DaysBeforeMonth(year, m) <= yday < DaysBeforeMonth(year, m + 1)
    decreases 12 - month
  {
    if yday < DaysBeforeMonth(year, month + 1) then month else MonthFrom(year, yday, month + 1)
  }

  function MonthOf(day: nat): (m: nat)
    ensures 1 <= m <= 12
    ensures DaysBeforeMonth(YearOf(day), m) < DayOfYear(day) <= DaysBeforeMonth(YearOf(day), m + 1)
  {
    MonthFrom(YearOf(day), DayOfYear(day) - 1, 1)
  }

  function DayOfMonth(day: nat): (d: nat)
    ensures 1 <= d <= 31
  {
    DayOfYear(day) - DaysBeforeMonth(YearOf(day), MonthOf(day))
  }

  /** Days sort by year, month and day of the month. */
  lemma DateOrder(a: nat, b: nat)
    ensures a < b <==>
            || YearOf(a) < YearOf(b)
            || (YearOf(a) == YearOf(b) && MonthOf(a) < MonthOf(b))
            || (YearOf(a) == YearOf(b) && MonthOf(a) == MonthOf(b) && DayOfMonth(a) < DayOfMonth(b))
    ensures a == b <==> YearOf(a) == YearOf(b) && MonthOf(a) == MonthOf(b) && DayOfMonth(a) == DayOfMonth(b)
  {
    DayOrder(a, b);
    if YearOf(a) == YearOf(b) {
      var y := YearOf(a);
      if MonthOf(a) < MonthOf(b) { MonthsGrow(y, MonthOf(a) + 1, MonthOf(b)); }
      if MonthOf(b) < MonthOf(a) { MonthsGrow(y, MonthOf(b) + 1, MonthOf(a)); }
    }
  }

  // ----------------------------------------------------- from the date to the day

  /** April, June, September and November have thirty days, February depends on the year. */
  function MonthLength(year: nat, month: nat): (n: nat)
    requires 1 <= month <= 12
    ensures 28 <= n <= 31
  {
    if month == 2 then (if Leap(year) then 29 else 28)
    else if month == 4 || month == 6 || month == 9 || month == 11 then 30
    else 31
  }

  /** The days of all years before `year`, one by one. */
  function DaysOfYears(year: nat): nat
    requires year >= 1
  {
    if year == 1 then 0 else DaysOfYears(year - 1) + DaysInYear(year - 1)
  }

  /** The days of the months before `month`, one by one. */
  function DaysOfMonths(year: nat, month: nat): nat
    requires 1 <= month <= 13
  {
    if month == 1 then 0 else DaysOfMonths(year, month - 1) + MonthLength(year, month - 1)
  }

  lemma {:induction false} YearsAddUp(year: nat)
    requires year >= 1
    ensures DaysBefore(year) == DaysOfYears(year)
  {
    if year > 1 {
      YearsAddUp(year - 1);
      NextYear(year - 1);
    }
  }

  lemma {:induction false} MonthsAddUp(year: nat, month: nat)
    requires 1 <= month <= 13
    ensures DaysBeforeMonth(year, month) == DaysOfMonths(year, month)
    ensures month == 13 ==> DaysOfMonths(year, month) == DaysInYear(year)
  {
    if month > 1 {
      MonthsAddUp(year, month - 1);
    }
  }

  predicate ValidDate(year: nat, month: nat, day: nat) {
    1 <= year <= 9999 && 1 <= month <= 12 && 1 <= day <= MonthLength(year, month)
  }

  /** The number of the day with this date. */
  function DayOfDate(year: nat, month: nat, day: nat): nat
    requires ValidDate(year, month, day)
  {
    DaysOfYears(year) + DaysOfMonths(year, month) + day - 1
  }

  /** A day shows the date it was built from. */
  lemma DateFields(year: nat, month: nat, day: nat)
    requires ValidDate(year, month, day)
    ensures var n := DayOfDate(year, month, day);
            && YearOf(n) == year && MonthOf(n) == month && DayOfMonth(n) == day
            && DayOfYear(n) == DaysOfMonths(year, month) + day
  {
    var n := DayOfDate(year, month, day);
    YearsAddUp(year);
    NextYear(year);
    MonthsAddUp(year, month);
    MonthsAddUp(year, month + 1);
    MonthsAddUp(year, 13);
    MonthsGrow(year, month + 1, 13);
    YearIsUnique(n, year);
    var m := MonthOf(n);
    if m < month { MonthsGrow(year, m + 1, month); }
    if month < m { MonthsGrow(year, month + 1, m); }
  }

  // -------------------------------------------------------------------- instants

  /** A UTC datetime Python can hold. */
  predicate Instant(t: int) {
    0 <= t < DaysBefore(10000) * DAY
  }

  function DayNumber(t: nat): nat { t / DAY }

  function TimeOfDay(t: nat): (r: nat)
    ensures r < DAY && t == DAY * DayNumber(t) + r
  {
    Split(t, DAY);
    t % DAY
  }

  function HourOf(t: nat): (h: nat)
    ensures h < 24
  {
    Split(TimeOfDay(t), HOUR);
    TimeOfDay(t) / HOUR
  }

  function TimeOfHour(t: nat): (r: nat)
    ensures r < HOUR && TimeOfDay(t) == HOUR * HourOf(t) + r
  {
    Split(TimeOfDay(t), HOUR);
    TimeOfDay(t) % HOUR
  }

  function MinuteOf(t: nat): (m: nat)
    ensures m < 60
  {
    Split(TimeOfHour(t), MINUTE);
    TimeOfHour(t) / MINUTE
  }

  function TimeOfMinute(t: nat): (r: nat)
    ensures r < MINUTE && TimeOfHour(t) == MINUTE * MinuteOf(t) + r
  {
    Split(TimeOfHour(t), MINUTE);
    TimeOfHour(t) % MINUTE
  }

  function SecondOf(t: nat): (s: nat)
    ensures s < 60
  {
    Split(TimeOfMinute(t), SECOND);
    TimeOfMinute(t) / SECOND
  }

  function MicrosecondOf(t: nat): (u: nat)
    ensures u < SECOND && TimeOfMinute(t) == SECOND * SecondOf(t) + u
  {
    Split(TimeOfMinute(t), SECOND);
    TimeOfMinute(t) % SECOND
  }

  /** A time is the sum of its fields. */
  lemma Decompose(t: nat)
    ensures t == DAY * DayNumber(t) + HOUR * HourOf(t) + MINUTE * MinuteOf(t) + SECOND * SecondOf(t) + MicrosecondOf(t)
  {
    var _, _, _, _ := TimeOfDay(t), TimeOfHour(t), TimeOfMinute(t), MicrosecondOf(t);
  }

  /** And only of those fields. */
  lemma Recompose(t: nat, day: nat, h: nat, m: nat, s: nat, u: nat)
    requires h < 24 && m < 60 && s < 60 && u < SECOND
    requires t == DAY * day + HOUR * h + MINUTE * m + SECOND * s + u
    ensures DayNumber(t) == day && HourOf(t) == h && MinuteOf(t) == m && SecondOf(t) == s && MicrosecondOf(t) == u
  {
    DivModOf(t, day, HOUR * h + MINUTE * m + SECOND * s + u, DAY);
    DivModOf(TimeOfDay(t), h, MINUTE * m + SECOND * s + u, HOUR);
    DivModOf(TimeOfHour(t), m, SECOND * s + u, MINUTE);
    DivModOf(TimeOfMinute(t), s, u, SECOND);
  }

  lemma OnTheMinute(t: nat)
    requires t % MINUTE == 0
    ensures SecondOf(t) == 0 && MicrosecondOf(t) == 0
  {
    Decompose(t);
    var x := SECOND * SecondOf(t) + MicrosecondOf(t);
    assert t == MINUTE * (1440 * DayNumber(t) + 60 * HourOf(t) + MinuteOf(t)) + x;
    DivModOf(t, 1440 * DayNumber(t) + 60 * HourOf(t) + MinuteOf(t), x, MINUTE);
  }

  lemma InstantYears(t: nat)
    requires Instant(t)
    ensures 1 <= YearOf(DayNumber(t)) <= 9999
  {
    var y := YearOf(DayNumber(t));
    YearsGrow(10000, if y > 9999 then y else 10000);
  }

  /** Time of day, coarsest unit first. */
  function Clock(t: nat): seq<nat> {
    [HourOf(t), MinuteOf(t), SecondOf(t)]
  }

  /** The time of day without its fraction of a second. */
  function ClockTime(t: nat): (r: nat)
    ensures r == HOUR * HourOf(t) + MINUTE * MinuteOf(t) + SECOND * SecondOf(t)
    ensures r < DAY && TimeOfDay(t) == r + MicrosecondOf(t)
  {
    var _, _, _ := TimeOfHour(t), TimeOfMinute(t), MicrosecondOf(t);
    TimeOfDay(t) - MicrosecondOf(t)
  }

  /** Whole seconds of the day sort by hour, minute and second. */
  lemma ClockOrder(t: nat, u: nat)
    ensures ClockTime(t) < ClockTime(u) <==>
              || HourOf(t) < HourOf(u)
              || (HourOf(t) == HourOf(u) && (MinuteOf(t) < MinuteOf(u)
              || (MinuteOf(t) == MinuteOf(u) && SecondOf(t) < SecondOf(u))))
  {
    QuotientFirst(HOUR, HourOf(t), TimeOfHour(t) - MicrosecondOf(t), HourOf(u), TimeOfHour(u) - MicrosecondOf(u));
    QuotientFirst(MINUTE, MinuteOf(t), SECOND * SecondOf(t), MinuteOf(u), SECOND * SecondOf(u));
  }

  /** Times of day sort by whole second, then by microsecond. */
  lemma MicrosecondsLast(t: nat, u: nat)
    ensures TimeOfDay(t) < TimeOfDay(u) <==>
              || ClockTime(t) < ClockTime(u)
              || (ClockTime(t) == ClockTime(u) && MicrosecondOf(t) < MicrosecondOf(u))
  {
    hide TimeOfDay, HourOf, TimeOfHour, MinuteOf, TimeOfMinute, SecondOf, MicrosecondOf, ClockTime;
    var a := 3600 * HourOf(t) + 60 * MinuteOf(t) + SecondOf(t);
    var b := 3600 * HourOf(u) + 60 * MinuteOf(u) + SecondOf(u);
    assert ClockTime(t) == SECOND * a && ClockTime(u) == SECOND * b;
    QuotientFirst(SECOND, a, MicrosecondOf(t), b, MicrosecondOf(u));
  }

  predicate ValidTime(hour: nat, minute: nat, second: nat, microsecond: nat) {
    hour < 24 && minute < 60 && second < 60 && microsecond < 1_000_000
  }

  /** datetime(year, month, day, hour, minute, second, microsecond) */
  function DateTime(year: nat, month: nat, day: nat, hour: nat, minute: nat, second: nat, microsecond: nat): nat
    requires ValidDate(year, month, day) && ValidTime(hour, minute, second, microsecond)
  {
    1_000_000 * (86_400 * DayOfDate(year, month, day) + 3_600 * hour + 60 * minute + second) + microsecond
  }

  /** A datetime shows the fields it was built from. */
  lemma DateTimeFields(year: nat, month: nat, day: nat, hour: nat, minute: nat, second: nat, microsecond: nat)
    requires ValidDate(year, month, day) && ValidTime(hour, minute, second, microsecond)
    ensures
      var t := DateTime(year, month, day, hour, minute, second, microsecond);
      && Instant(t)
      && DayNumber(t) == DayOfDate(year, month, day)
      && HourOf(t) == hour && MinuteOf(t) == minute && SecondOf(t) == second && MicrosecondOf(t) == microsecond
      && YearOf(DayNumber(t)) == year && MonthOf(DayNumber(t)) == month && DayOfMonth(DayNumber(t)) == day
      && DayOfYear(DayNumber(t)) == DaysOfMonths(year, month) + day
  {
    hide DayOfDate, DaysOfMonths, YearOf, MonthOf, DayOfMonth, DayOfYear, HourOf, MinuteOf, SecondOf, MicrosecondOf;
    var t := DateTime(year, month, day, hour, minute, second, microsecond);
    var n := DayOfDate(year, month, day);
    DateFields(year, month, day);
    Recompose(t, n, hour, minute, second, microsecond);
    YearsGrow(year + 1, 10000);
    BelowMultiple(DAY, n, TimeOfDay(t), DaysBefore(10000));
  }
}
