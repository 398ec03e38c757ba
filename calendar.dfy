/**
  Timestamps as calendar fields in the proleptic Gregorian calendar, with the
  range of the platform's date type (0001-01-01T00:00:00 to 9999-12-31T23:59:59,
  whole seconds). A timestamp is ordered by `Instant`, the number of seconds since
  0001-01-01T00:00:00. ISO week numbering follows section 4.1.4 of ISO 8601:2004,
  computed the way the platform's ISOWeek class computes it.
*/
module Calendar {
  import opened Outcomes

  datatype Fields = Fields(year: int, month: int, day: int, hour: int, minute: int, second: int)

  predicate IsLeapYear(y: int) {
    y % 4 == 0 && (y % 100 != 0 || y % 400 == 0)
  }

  function DaysInMonth(y: int, m: int): (n: int)
    requires 1 <= m <= 12
    ensures 28 <= n <= 31
    ensures n == 29 <==> m == 2 && IsLeapYear(y)
  {
    if m == 2 then (if IsLeapYear(y) then 29 else 28)
    else if m == 4 || m == 6 || m == 9 || m == 11 then 30
    else 31
  }

  function DaysInYear(y: int): int {
    if IsLeapYear(y) then 366 else 365
  }

  predicate ValidFields(f: Fields) {
    && 1 <= f.year <= 9999
    && 1 <= f.month <= 12
    && 1 <= f.day <= DaysInMonth(f.year, f.month)
    && 0 <= f.hour < 24
    && 0 <= f.minute < 60
    && 0 <= f.second < 60
  }

  /** A representable date and time of day, to the second. */
  type DateTime = f: Fields | ValidFields(f) witness Fields(1, 1, 1, 0, 0, 0)

  /** Days from 0001-01-01 to January 1 of year `y`. */
  function DaysBeforeYear(y: int): int
    requires y >= 1
  {
    var p := y - 1;
    365 * p + p / 4 - p / 100 + p / 400
  }

  /** Days from January 1 to the first day of month `m` of year `y`. */
  function DaysBeforeMonth(y: int, m: int): int
    requires 1 <= m <= 12
  {
    [0, 31, 59, 90, 120, 151, 181, 212, 243, 273, 304, 334][m - 1]
      + (if m > 2 && IsLeapYear(y) then 1 else 0)
  }

  /** Day number of the date: 0 for 0001-01-01. */
  function DayNumber(t: DateTime): int {
    DaysBeforeYear(t.year) + DaysBeforeMonth(t.year, t.month) + t.day - 1
  }

  /** 1-based position of the date in its year. */
  function DayOfYear(t: DateTime): int {
    DaysBeforeMonth(t.year, t.month) + t.day
  }

  function SecondOfDay(t: DateTime): int {
    t.hour * 3600 + t.minute * 60 + t.second
  }

  /** Seconds since 0001-01-01T00:00:00: the order in which timestamps are sorted. */
  function Instant(t: DateTime): int {
    DayNumber(t) * 86400 + SecondOfDay(t)
  }

  /** The day number where year 10000 would begin: one past the last representable day. */
  const EndDayNumber: int := DaysBeforeYear(9999) + 365

  lemma MonthStep(y: int, m: int)
    requires 1 <= m < 12
    ensures DaysBeforeMonth(y, m + 1) == DaysBeforeMonth(y, m) + DaysInMonth(y, m)
  {
  }

  lemma {:induction false} YearStep(y: int)
    requires y >= 1
    ensures DaysBeforeYear(y + 1) == DaysBeforeYear(y) + DaysInYear(y)
  {
    var p := y - 1;
    assert y / 4 == p / 4 + (if y % 4 == 0 then 1 else 0);
    assert y / 100 == p / 100 + (if y % 100 == 0 then 1 else 0);
    assert y / 400 == p / 400 + (if y % 400 == 0 then 1 else 0);
  }

  /** Every representable date has a day number in [0, EndDayNumber). */
  lemma DayNumberRange(t: DateTime)
    ensures 0 <= DayNumber(t) < EndDayNumber
  {
    var p := t.year - 1;
    assert p / 100 <= p / 4;
    if t.year < 9999 {
      DaysBeforeYearMonotone(t.year + 1, 9999);
      YearStep(t.year);
    }
  }

  lemma DaysBeforeYearMonotone(a: int, b: int)
    requires 1 <= a <= b
    ensures DaysBeforeYear(a) <= DaysBeforeYear(b)
  {
    var p, q := a - 1, b - 1;
    assert q / 4 - p / 4 >= q / 100 - p / 100 >= 0;
  }

  function LastDay(t: DateTime): bool {
    t.month == 12 && t.day == 31 && t.year == 9999
  }

  function FirstDay(t: DateTime): bool {
    t.month == 1 && t.day == 1 && t.year == 1
  }

  /** The same time of day on the following date, if that date is representable. */
  function NextDay(t: DateTime): (r: Option<DateTime>)
    ensures r.None? <==> LastDay(t)
    ensures r.Some? ==> DayNumber(r.value) == DayNumber(t) + 1 && SecondOfDay(r.value) == SecondOfDay(t)
  {
    if t.day < DaysInMonth(t.year, t.month) then
      Some(t.(day := t.day + 1))
    else if t.month < 12 then
      MonthStep(t.year, t.month);
      Some(t.(month := t.month + 1, day := 1))
    else if t.year < 9999 then
      YearStep(t.year);
      Some(t.(year := t.year + 1, month := 1, day := 1))
    else
      None
  }

  /** The same time of day on the preceding date, if that date is representable. */
  function PrevDay(t: DateTime): (r: Option<DateTime>)
    ensures r.None? <==> FirstDay(t)
    ensures r.Some? ==> DayNumber(r.value) == DayNumber(t) - 1 && SecondOfDay(r.value) == SecondOfDay(t)
  {
    if t.day > 1 then
      Some(t.(day := t.day - 1))
    else if t.month > 1 then
      MonthStep(t.year, t.month - 1);
      Some(t.(month := t.month - 1, day := DaysInMonth(t.year, t.month - 1)))
    else if t.year > 1 then
      YearStep(t.year - 1);
      Some(t.(year := t.year - 1, month := 12, day := 31))
    else
      None
  }

  /**
    Converts a local time whose UTC offset is `offset` minutes into UTC: the
    instant moves back by the offset. Fails when the UTC time is not representable.
  */
  function ToUniversal(local: DateTime, offset: int): (r: Option<DateTime>)
    requires -840 <= offset <= 840
    ensures r.Some? ==> Instant(r.value) == Instant(local) - 60 * offset
  {
    var m := local.hour * 60 + local.minute - offset;
    if m < 0 then
      match PrevDay(local)
      case None => None
      case Some(d) => Some(d.(hour := (m + 1440) / 60, minute := (m + 1440) % 60))
    else if m >= 1440 then
      match NextDay(local)
      case None => None
      case Some(d) => Some(d.(hour := (m - 1440) / 60, minute := (m - 1440) % 60))
    else
      Some(local.(hour := m / 60, minute := m % 60))
  }

  /** The conversion fails exactly when the UTC instant lies outside the representable range. */
  lemma ToUniversalFailsOutsideRange(local: DateTime, offset: int)
    requires -840 <= offset <= 840
    ensures ToUniversal(local, offset).None? <==>
              (Instant(local) - 60 * offset < 0 || Instant(local) - 60 * offset >= EndDayNumber * 86400)
  {
    DayNumberRange(local);
    var m := local.hour * 60 + local.minute - offset;
    var u := Instant(local) - 60 * offset;
    assert u == DayNumber(local) * 86400 + m * 60 + local.second;
    if m < 0 {
      assert u < DayNumber(local) * 86400;
      assert u >= (DayNumber(local) - 1) * 86400;
      if FirstDay(local) {
        assert DayNumber(local) == 0;
      }
    } else if m >= 1440 {
      assert u >= (DayNumber(local) + 1) * 86400;
      assert u < (DayNumber(local) + 2) * 86400;
      if LastDay(local) {
        assert DayNumber(local) == EndDayNumber - 1;
      }
    }
  }

  // ISO 8601 week dates, as computed by the platform's ISOWeek class.

  /** The platform's day of the week: 0 for Sunday, 1 for Monday, ..., 6 for Saturday. */
  function DayOfWeek(t: DateTime): int {
    (DayNumber(t) + 1) % 7
  }

  /** ISO weekday number: 1 for Monday ... 7 for Sunday. */
  function IsoWeekday(t: DateTime): (w: int)
    ensures 1 <= w <= 7
  {
    var d := DayOfWeek(t);
    if d == 0 then 7 else d
  }

  /** The platform's day of the week of December 31 of year `y` (for y >= 0). */
  function YearEndWeekday(y: int): int
    requires y >= 0
  {
    (y + y / 4 - y / 100 + y / 400) % 7
  }

  /** 53 for a long ISO year, 52 otherwise. */
  function WeeksInYear(y: int): (n: int)
    requires y >= 1
    ensures n == 52 || n == 53
  {
    if YearEndWeekday(y) == 4 || YearEndWeekday(y - 1) == 3 then 53 else 52
  }

  /** Week number counted from the Monday on or before January 4; may be 0 or one past the year's last week. */
  function RawWeekNumber(t: DateTime): (w: int)
    ensures 0 <= w <= 53
  {
    (DayOfYear(t) - IsoWeekday(t) + 10) / 7
  }

  /** The ISO week-numbering year of the date. */
  function IsoWeekYear(t: DateTime): (y: int)
    ensures t.year - 1 <= y <= t.year + 1
    ensures 1 <= y <= 9999
  {
    var w := RawWeekNumber(t);
    LastYearEndsInItsOwnWeeks(t);
    if w < 1 then
      FirstWeekIsInYear(t);
      t.year - 1
    else if w > WeeksInYear(t.year) then t.year + 1
    else t.year
  }

  /** The ISO week number of the date within its ISO week-numbering year. */
  function IsoWeekOfYear(t: DateTime): (w: int)
    ensures 1 <= w <= WeeksInYear(IsoWeekYear(t)) <= 53
  {
    var raw := RawWeekNumber(t);
    if raw < 1 then
      FirstWeekIsInYear(t);
      WeeksInYear(t.year - 1)
    else if raw > WeeksInYear(t.year) then 1
    else raw
  }

  /**
    December 31 of year 9999 is a Friday, so every date of year 9999 falls in one of
    that year's own 52 weeks: the week-year never goes past 9999.
  */
  lemma LastYearEndsInItsOwnWeeks(t: DateTime)
    ensures t.year == 9999 ==> RawWeekNumber(t) <= WeeksInYear(t.year)
  {
    if t.year == 9999 {
      assert DaysBeforeYear(9999) == 7 * 521670 + 4;
      assert YearEndWeekday(9999) == 5 && YearEndWeekday(9998) == 4;
      var doy, w := DayOfYear(t), IsoWeekday(t);
      assert DayNumber(t) == DaysBeforeYear(9999) + doy - 1;
      assert 1 <= doy <= 365;
      assert (doy - w) % 7 == 3 by {
        assert DayNumber(t) + 1 == 7 * 521670 + 4 + doy;
        Mod7Shift(4 + doy, 521670);
      }
      assert doy - w <= 360;
    }
  }

  /** January 1 of year 1 is a Monday, so no date of year 1 falls in ISO week 0. */
  lemma FirstWeekIsInYear(t: DateTime)
    ensures RawWeekNumber(t) < 1 ==> t.year > 1
  {
    if t.year == 1 {
      assert DayNumber(t) == DayOfYear(t) - 1;
      var n := DayNumber(t);
      assert IsoWeekday(t) == n % 7 + 1;
      assert DayOfYear(t) - IsoWeekday(t) == n - n % 7 >= 0;
    }
  }

  lemma Mod7Shift(a: int, k: int)
    ensures (7 * k + a) % 7 == a % 7
  {
  }

  /** The platform's year-end formula gives the weekday of December 31. */
  lemma {:induction false} YearEndWeekdayIsDecember31(y: int)
    requires 1 <= y <= 9999
    ensures DayOfWeek(Fields(y, 12, 31, 0, 0, 0)) == YearEndWeekday(y)
  {
    var t: DateTime := Fields(y, 12, 31, 0, 0, 0);
    YearStep(y);
    assert DayNumber(t) + 1 == DaysBeforeYear(y + 1);
    var q := y / 4 - y / 100 + y / 400;
    assert DaysBeforeYear(y + 1) == 7 * (52 * y) + (y + q);
    Mod7Shift(y + q, 52 * y);
  }

  /** In the platform's numbering, a year begins the day after the previous one ends. */
  lemma {:induction false} YearStartWeekday(y: int)
    requires 2 <= y <= 9999
    ensures DayOfWeek(Fields(y, 1, 1, 0, 0, 0)) == (YearEndWeekday(y - 1) + 1) % 7
  {
    var last: DateTime := Fields(y - 1, 12, 31, 0, 0, 0);
    var first: DateTime := Fields(y, 1, 1, 0, 0, 0);
    var n := DayNumber(last) + 1;
    assert DayNumber(first) == n by {
      YearStep(y - 1);
    }
    assert DayOfWeek(first) == (n % 7 + 1) % 7 by {
      ModSucc7(n);
    }
    YearEndWeekdayIsDecember31(y - 1);
  }

  lemma ModSucc7(n: int)
    ensures (n + 1) % 7 == (n % 7 + 1) % 7
  {
  }

  /**
    A year has 53 ISO weeks exactly when it begins or ends on a Thursday
    (section 4.1.4 of ISO 8601:2004). Year 1 begins on a Monday.
  */
  lemma {:induction false} LongYearStartsOrEndsOnThursday(y: int)
    requires 1 <= y <= 9999
    ensures WeeksInYear(y) == 53 <==>
      IsoWeekday(Fields(y, 1, 1, 0, 0, 0)) == 4 || IsoWeekday(Fields(y, 12, 31, 0, 0, 0)) == 4
  {
    StartsOnThursday(y);
    EndsOnThursday(y);
  }

  lemma {:induction false} EndsOnThursday(y: int)
    requires 1 <= y <= 9999
    ensures IsoWeekday(Fields(y, 12, 31, 0, 0, 0)) == 4 <==> YearEndWeekday(y) == 4
  {
    YearEndWeekdayIsDecember31(y);
  }

  lemma {:induction false} StartsOnThursday(y: int)
    requires 1 <= y <= 9999
    ensures IsoWeekday(Fields(y, 1, 1, 0, 0, 0)) == 4 <==> YearEndWeekday(y - 1) == 3
  {
    var first: DateTime := Fields(y, 1, 1, 0, 0, 0);
    if y >= 2 {
      YearStartWeekday(y);
      WeekdayAfter(YearEndWeekday(y - 1), DayOfWeek(first));
    } else {
      assert y - 1 == 0;
      assert YearEndWeekday(0) == 0;
      assert DayNumber(first) == 0;
      assert DayOfWeek(first) == 1;
    }
  }

  /** The day after weekday `s` is a Thursday exactly when `s` is a Wednesday. */
  lemma WeekdayAfter(s: int, d: int)
    requires 0 <= s < 7 && d == (s + 1) % 7
    ensures (if d == 0 then 7 else d) == 4 <==> s == 3
  {
    assert d == if s == 6 then 0 else s + 1;
  }

  // The week of a date and its Thursday (section 4.1.4 of ISO 8601:2004)

  /** The day number of the Thursday of the Monday-to-Sunday week the date falls in. */
  function WeekThursday(t: DateTime): (th: int)
    ensures th % 7 == 3
    ensures DayNumber(t) - 3 <= th <= DayNumber(t) + 3
  {
    var n := DayNumber(t);
    ModSucc7(n);
    Mod7Shift(3, n / 7);
    n - IsoWeekday(t) + 4
  }

  lemma DayOfYearRange(t: DateTime)
    ensures 1 <= DayOfYear(t) <= DaysInYear(t.year)
    ensures DayNumber(t) == DaysBeforeYear(t.year) + DayOfYear(t) - 1
  {
  }

  /**
    A year has as many ISO weeks as it has Thursdays: with the first Thursday `f` days
    after January 1, the year's last Thursday is in the year and the one after it is not.
  */
  lemma {:induction false} ThursdaysInYear(y: int)
    requires 1 <= y <= 9999
    ensures var f := (3 - DaysBeforeYear(y)) % 7;
      f + 7 * (WeeksInYear(y) - 1) < DaysInYear(y) <= f + 7 * WeeksInYear(y)
  {
    var first: DateTime := Fields(y, 1, 1, 0, 0, 0);
    var last: DateTime := Fields(y, 12, 31, 0, 0, 0);
    var b, d := DaysBeforeYear(y), DaysInYear(y);
    LongYearStartsOrEndsOnThursday(y);
    assert DayOfWeek(first) == (b + 1) % 7;
    assert DayOfWeek(last) == (b + d) % 7;
    ThursdayCount(b, d, WeeksInYear(y));
  }

  /** The counting behind `ThursdaysInYear`, for a year starting at day `b` with `d` days. */
  lemma ThursdayCount(b: int, d: int, weeks: int)
    requires d == 365 || d == 366
    requires weeks == 52 || weeks == 53
    requires weeks == 53 <==> (b + 1) % 7 == 4 || (b + d) % 7 == 4
    ensures var f := (3 - b) % 7;
      f + 7 * (weeks - 1) < d <= f + 7 * weeks
  {
    var r := b % 7;
    var q := b / 7;
    assert b == 7 * q + r;
    assert (b + 1) % 7 == (r + 1) % 7 by {
      Mod7Shift(r + 1, q);
    }
    assert (b + d) % 7 == (r + d - 364) % 7 by {
      Mod7Shift(r + d - 364, q + 52);
    }
    assert (3 - b) % 7 == (3 - r) % 7 by {
      Mod7Shift(3 - r, -q);
    }
  }

  /**
    Where the Thursday `th` of the week holding day `doy` (weekday `w`) of a year that
    starts at day `b` and has `d` days and `weeks` Thursdays lies, by the raw week number.
  */
  lemma WeekPosition(b: int, d: int, weeks: int, doy: int, w: int, th: int)
    requires 1 <= doy <= d && 1 <= w <= 7 && d >= 365
    requires th == b + doy - w + 3 && th % 7 == 3
    requires var f := (3 - b) % 7; f + 7 * (weeks - 1) < d <= f + 7 * weeks
    ensures var raw := (doy - w + 10) / 7;
      && (raw < 1 ==> b - 7 <= th < b)
      && (1 <= raw <= weeks ==> b <= th < b + d && (th - b) / 7 + 1 == raw)
      && (raw > weeks ==> b + d <= th < b + d + 7)
  {
    var x := th - b;
    var f := (3 - b) % 7;
    ThursdayIndex(x, f);
  }

  /** A day `x` days after January 1 that is a Thursday is Thursday number `x / 7` from the first one. */
  lemma ThursdayIndex(x: int, f: int)
    requires 0 <= f < 7 && (x - f) % 7 == 0
    ensures x == f + 7 * (x / 7)
  {
  }

  /** The last Thursday of a year that starts at day `b`, has `d` days and `weeks` Thursdays. */
  lemma LastThursday(b: int, d: int, weeks: int, th: int)
    requires d >= 365 && th % 7 == 3 && b + d - 7 <= th < b + d
    requires var f := (3 - b) % 7; f + 7 * (weeks - 1) < d <= f + 7 * weeks
    ensures b <= th && (th - b) / 7 + 1 == weeks
  {
    var f := (3 - b) % 7;
    assert (th - b - f) % 7 == 0 by {
      Mod7Shift(3, th / 7);
    }
    ThursdayIndex(th - b, f);
  }

  /** No day lies in two calendar years. */
  lemma YearOfDay(y1: int, y2: int, n: int)
    requires y1 >= 1 && y2 >= 1
    requires DaysBeforeYear(y1) <= n < DaysBeforeYear(y1 + 1)
    requires DaysBeforeYear(y2) <= n < DaysBeforeYear(y2 + 1)
    ensures y1 == y2
  {
    if y1 < y2 {
      DaysBeforeYearMonotone(y1 + 1, y2);
    } else if y2 < y1 {
      DaysBeforeYearMonotone(y2 + 1, y1);
    }
  }

  /**
    A week belongs to the year that holds its Thursday: the ISO week-year of a date is
    the calendar year of its week's Thursday, and its week number is the position of
    that Thursday among the Thursdays of the year.
  */
  lemma {:induction false} IsoWeekIsThursdayWeek(t: DateTime)
    ensures var th, y := WeekThursday(t), IsoWeekYear(t);
      && DaysBeforeYear(y) <= th < DaysBeforeYear(y + 1)
      && IsoWeekOfYear(t) == (th - DaysBeforeYear(y)) / 7 + 1
  {
    var y0 := t.year;
    DayOfYearRange(t);
    ThursdaysInYear(y0);
    var b, d := DaysBeforeYear(y0), DaysInYear(y0);
    WeekPosition(b, d, WeeksInYear(y0), DayOfYear(t), IsoWeekday(t), WeekThursday(t));
    if RawWeekNumber(t) < 1 {
      FirstWeekIsInYear(t);
      ThursdayInPreviousYear(y0 - 1, WeekThursday(t));
    } else if RawWeekNumber(t) > WeeksInYear(y0) {
      YearStep(y0);
      YearStep(y0 + 1);
    } else {
      YearStep(y0);
    }
  }

  /** A Thursday in the seven days before year `y + 1` is the last Thursday of year `y`. */
  lemma ThursdayInPreviousYear(y: int, th: int)
    requires 1 <= y <= 9999
    requires th % 7 == 3 && DaysBeforeYear(y + 1) - 7 <= th < DaysBeforeYear(y + 1)
    ensures DaysBeforeYear(y) <= th && (th - DaysBeforeYear(y)) / 7 + 1 == WeeksInYear(y)
  {
    YearStep(y);
    ThursdaysInYear(y);
    LastThursday(DaysBeforeYear(y), DaysInYear(y), WeeksInYear(y), th);
  }

  /** Two different Thursdays lie in different weeks counted from any common start. */
  lemma DistinctThursdays(ta: int, tb: int, base: int)
    requires ta % 7 == 3 && tb % 7 == 3 && ta != tb
    ensures (ta - base) / 7 != (tb - base) / 7
  {
    var qa, qb := ta / 7, tb / 7;
    assert ta == 7 * qa + 3 && tb == 7 * qb + 3;
    var q := (3 - base) / 7;
    var r := (3 - base) % 7;
    assert ta - base == 7 * (qa + q) + r;
    assert tb - base == 7 * (qb + q) + r;
  }

  /** Two dates get the same ISO week-year and week exactly when their weeks share a Thursday. */
  lemma SameIsoWeekIffSameThursday(a: DateTime, b: DateTime)
    ensures (IsoWeekYear(a) == IsoWeekYear(b) && IsoWeekOfYear(a) == IsoWeekOfYear(b))
      <==> WeekThursday(a) == WeekThursday(b)
  {
    if WeekThursday(a) == WeekThursday(b) {
      SameThursdaySameIsoWeek(a, b);
    } else {
      OtherThursdayOtherIsoWeek(a, b);
    }
  }

  lemma SameThursdaySameIsoWeek(a: DateTime, b: DateTime)
    requires WeekThursday(a) == WeekThursday(b)
    ensures IsoWeekYear(a) == IsoWeekYear(b) && IsoWeekOfYear(a) == IsoWeekOfYear(b)
  {
    IsoWeekIsThursdayWeek(a);
    IsoWeekIsThursdayWeek(b);
    YearOfDay(IsoWeekYear(a), IsoWeekYear(b), WeekThursday(a));
  }

  lemma OtherThursdayOtherIsoWeek(a: DateTime, b: DateTime)
    requires WeekThursday(a) != WeekThursday(b)
    ensures IsoWeekYear(a) != IsoWeekYear(b) || IsoWeekOfYear(a) != IsoWeekOfYear(b)
  {
    IsoWeekIsThursdayWeek(a);
    IsoWeekIsThursdayWeek(b);
    if IsoWeekYear(a) == IsoWeekYear(b) {
      DistinctThursdays(WeekThursday(a), WeekThursday(b), DaysBeforeYear(IsoWeekYear(a)));
    }
  }

  /** The Thursday of the next day's week is the same Thursday unless the next day is a Monday. */
  lemma NextDayThursday(n: int, wa: int, wb: int)
    requires n >= 0
    requires wa == (if (n + 1) % 7 == 0 then 7 else (n + 1) % 7)
    requires wb == (if (n + 2) % 7 == 0 then 7 else (n + 2) % 7)
    ensures (n + 1) - wb + 4 == n - wa + 4 <==> wb != 1
  {
    ModSucc7(n + 1);
  }

  /**
    Of two consecutive dates, the later one starts a new ISO week exactly when it is a
    Monday; otherwise both dates have the same ISO week-year and week.
  */
  lemma MondayStartsIsoWeek(a: DateTime, b: DateTime)
    requires DayNumber(b) == DayNumber(a) + 1
    ensures (IsoWeekYear(a) == IsoWeekYear(b) && IsoWeekOfYear(a) == IsoWeekOfYear(b)) <==> IsoWeekday(b) != 1
  {
    DayNumberRange(a);
    NextDayThursday(DayNumber(a), IsoWeekday(a), IsoWeekday(b));
    SameIsoWeekIffSameThursday(a, b);
  }
}
