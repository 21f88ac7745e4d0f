/** Timestamps of the admission table. A timestamp is kept as its proleptic
    Gregorian calendar fields (the form `pd.to_datetime` produces); elapsed
    time is measured through the day number counted from 1970-01-01, computed
    with the classic days-from-civil formula that shifts the year to start
    in March so that the leap day falls at its end. */
module Calendar {

  const SecondsPerDay: int := 86400

  predicate IsLeapYear(y: int) {
    y % 4 == 0 && (y % 100 != 0 || y % 400 == 0)
  }

  function DaysInMonth(y: int, m: int): (n: int)
    requires 1 <= m <= 12
    ensures 28 <= n <= 31
  {
    if m == 2 then (if IsLeapYear(y) then 29 else 28)
    else if m == 4 || m == 6 || m == 9 || m == 11 then 30
    else 31
  }

  /** A date and time of day with second resolution. */
  datatype DateTime = DateTime(year: int, month: int, day: int, hour: int, minute: int, second: int)

  /** The fields name an existing calendar instant. */
  predicate ValidDateTime(t: DateTime) {
    && 1 <= t.month <= 12
    && 1 <= t.day <= DaysInMonth(t.year, t.month)
    && 0 <= t.hour < 24
    && 0 <= t.minute < 60
    && 0 <= t.second < 60
  }

  /** A parsed timestamp. */
  type Timestamp = t: DateTime | ValidDateTime(t) witness DateTime(1970, 1, 1, 0, 0, 0)

  /** The number of days from 1970-01-01 to the given date (negative before it). */
  function DaysFromCivil(y: int, m: int, d: int): int
    requires 1 <= m <= 12
  {
    var y' := if m <= 2 then y - 1 else y;
    var era := y' / 400;
    var yoe := y' - era * 400;
    var mp := (m + 9) % 12;
    var doy := (153 * mp + 2) / 5 + d - 1;
    var doe := yoe * 365 + yoe / 4 - yoe / 100 + doy;
    era * 146097 + doe - 719468
  }

  /** The day number of the calendar date of `t`. */
  function DayNumber(t: Timestamp): int {
    DaysFromCivil(t.year, t.month, t.day)
  }

  /** Seconds elapsed since 1970-01-01 00:00:00 (negative before it). */
  function EpochSeconds(t: Timestamp): int {
    DayNumber(t) * SecondsPerDay + t.hour * 3600 + t.minute * 60 + t.second
  }

  /** The day of the week of `t` with Monday = 0 and Sunday = 6, pandas'
      `dt.dayofweek` convention; 1970-01-01 was a Thursday. */
  function DayOfWeek(t: Timestamp): (w: int)
    ensures 0 <= w <= 6
    ensures (DayNumber(t) - w) % 7 == 4
  {
    WeekdayOf(DayNumber(t))
  }

  /** The weekday of day number `n`, counted from the Thursday of day 0. */
  function WeekdayOf(n: int): (w: int)
    ensures 0 <= w <= 6 && (n - w) % 7 == 4
  {
    (n + 3) % 7
  }

  /** The whole days of the interval from `a` to `b`, rounded toward minus
      infinity as `Timedelta.days` does: an interval of one hour back is -1 days. */
  function WholeDaysBetween(a: Timestamp, b: Timestamp): (d: int)
    ensures d * SecondsPerDay <= EpochSeconds(b) - EpochSeconds(a) < (d + 1) * SecondsPerDay
  {
    (EpochSeconds(b) - EpochSeconds(a)) / SecondsPerDay
  }

  /** The day-of-week and day-number conventions, checked at known dates. */
  lemma CalendarAnchors()
    ensures DayNumber(DateTime(1970, 1, 1, 0, 0, 0)) == 0
    ensures DayNumber(DateTime(2000, 3, 1, 0, 0, 0)) == 11017
    ensures DayOfWeek(DateTime(2023, 1, 2, 0, 0, 0)) == 0
    ensures DayOfWeek(DateTime(2023, 1, 1, 0, 0, 0)) == 6
  {
    assert DaysFromCivil(2023, 1, 1) == 19358;
    assert DaysFromCivil(2023, 1, 2) == 19359;
  }

  /** The calendar date following `(y, m, d)`. */
  function NextDate(y: int, m: int, d: int): (int, int, int)
    requires 1 <= m <= 12 && 1 <= d <= DaysInMonth(y, m)
  {
    if d < DaysInMonth(y, m) then (y, m, d + 1)
    else if m < 12 then (y, m + 1, 1)
    else (y + 1, 1, 1)
  }

  /** Day numbers count calendar days without gaps or repeats: the next
      calendar date, across month, year, leap-day and 400-year-cycle
      boundaries, has exactly the next day number. */
  lemma NextDateIsNextDay(y: int, m: int, d: int)
    requires 1 <= m <= 12 && 1 <= d <= DaysInMonth(y, m)
    ensures var (y', m', d') := NextDate(y, m, d);
      1 <= m' <= 12 && DaysFromCivil(y', m', d') == DaysFromCivil(y, m, d) + 1
  {
    if d < DaysInMonth(y, m) {
    } else if m == 2 {
      EndOfFebruary(y);
    } else if m < 12 {
      EndOfLongMonth(y, m);
    } else {
    }
  }

  lemma EndOfLongMonth(y: int, m: int)
    requires 3 <= m <= 11 || m == 1
    ensures DaysFromCivil(y, m + 1, 1) == DaysFromCivil(y, m, DaysInMonth(y, m)) + 1
  {
  }

  /** Days before year-of-era `yoe` starts within a 400-year cycle. */
  function DaysBeforeYearOfEra(yoe: int): int {
    yoe * 365 + yoe / 4 - yoe / 100
  }

  lemma EndOfFebruary(y: int)
    ensures DaysFromCivil(y, 3, 1) == DaysFromCivil(y, 2, DaysInMonth(y, 2)) + 1
  {
    if (y - 1) % 400 == 399 {
      EndOfFebruaryClosingCycle(y);
    } else {
      EndOfFebruaryWithinCycle(y);
    }
  }

  /** The February that ends a 400-year cycle is a leap February. */
  lemma EndOfFebruaryClosingCycle(y: int)
    requires (y - 1) % 400 == 399
    ensures DaysFromCivil(y, 3, 1) == DaysFromCivil(y, 2, DaysInMonth(y, 2)) + 1
  {
    var era := (y - 1) / 400;
    assert y == (era + 1) * 400;
    assert y % 400 == 0 && y / 400 == era + 1;
    assert DaysInMonth(y, 2) == 29;
    assert DaysFromCivil(y, 2, 29) == era * 146097 + DaysBeforeYearOfEra(399) + 365 - 719468;
    assert DaysFromCivil(y, 3, 1) == (era + 1) * 146097 - 719468;
  }

  lemma EndOfFebruaryWithinCycle(y: int)
    requires (y - 1) % 400 != 399
    ensures DaysFromCivil(y, 3, 1) == DaysFromCivil(y, 2, DaysInMonth(y, 2)) + 1
  {
    var era, yoe := (y - 1) / 400, (y - 1) % 400;
    YearWithinCycle(y, era, yoe);
    FebruaryWithinCycle(y, era, yoe);
    MarchWithinCycle(y, era, yoe);
    LeapStep(yoe);
  }

  /** A year that does not close its 400-year cycle has the cycle and the
      leap-year residues of the March-based year before it, shifted by one. */
  lemma YearWithinCycle(y: int, era: int, yoe: int)
    requires era == (y - 1) / 400 && yoe == (y - 1) % 400 && yoe != 399
    ensures 0 <= yoe < 399 && y == era * 400 + yoe + 1
    ensures y / 400 == era && y % 400 == yoe + 1
    ensures IsLeapYear(y) <==> (yoe + 1) % 4 == 0 && (yoe + 1) % 100 != 0
  {
    assert y == era * 400 + yoe + 1;
    LeapResidues(y, era, yoe + 1);
  }

  /** Adding whole 400-year cycles keeps the residues modulo 4 and 100. */
  lemma LeapResidues(y: int, era: int, r: int)
    requires 0 < r < 400 && y == era * 400 + r
    ensures y / 400 == era && y % 400 == r
    ensures y % 4 == r % 4 && y % 100 == r % 100
  {
  }

  /** The day number of the last of February, inside a 400-year cycle. */
  lemma FebruaryWithinCycle(y: int, era: int, yoe: int)
    requires 0 <= yoe < 399 && y == era * 400 + yoe + 1 && (y - 1) / 400 == era
    ensures DaysFromCivil(y, 2, DaysInMonth(y, 2))
      == era * 146097 + DaysBeforeYearOfEra(yoe) + 336 + DaysInMonth(y, 2) - 719468
  {
  }

  /** The day number of the first of March, inside a 400-year cycle. */
  lemma MarchWithinCycle(y: int, era: int, yoe: int)
    requires 0 <= yoe < 399 && y == era * 400 + yoe + 1 && y / 400 == era
    ensures DaysFromCivil(y, 3, 1) == era * 146097 + DaysBeforeYearOfEra(yoe + 1) - 719468
  {
  }

  lemma LeapStep(yoe: int)
    requires 0 <= yoe < 399
    ensures DaysBeforeYearOfEra(yoe + 1) - DaysBeforeYearOfEra(yoe)
      == if (yoe + 1) % 4 == 0 && (yoe + 1) % 100 != 0 then 366 else 365
  {
    assert (yoe + 1) / 4 - yoe / 4 == if (yoe + 1) % 4 == 0 then 1 else 0;
    assert (yoe + 1) / 100 - yoe / 100 == if (yoe + 1) % 100 == 0 then 1 else 0;
    if (yoe + 1) % 100 == 0 {
      assert (yoe + 1) % 4 == 0;
    }
  }
}
