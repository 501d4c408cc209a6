/**
 * The ISO-8601 proleptic Gregorian calendar as `java.time` computes it:
 * local dates, year-months, epoch days (days since 1970-01-01), ISO
 * day-of-week numbers and the four day-of-week adjusters of
 * `TemporalAdjusters` that the calendar table composes.
 */
module IsoCalendar {

  /** ISO day-of-week number: Monday is 1, Sunday is 7 (section 3.2.2 of ISO 8601). */
  type DayOfWeek = v: int | 1 <= v <= 7 witness 1

  const Monday: DayOfWeek := 1
  const Tuesday: DayOfWeek := 2
  const Wednesday: DayOfWeek := 3
  const Thursday: DayOfWeek := 4
  const Friday: DayOfWeek := 5
  const Saturday: DayOfWeek := 6
  const Sunday: DayOfWeek := 7

  /** `LocalDate`: a proleptic year, a month 1..12 and a day of that month. */
  datatype LocalDate = LocalDate(year: int, month: int, day: int)

  /** `YearMonth`: a proleptic year and a month 1..12. */
  datatype YearMonth = YearMonth(year: int, month: int)

  predicate ValidMonth(ym: YearMonth) {
    1 <= ym.month <= 12
  }

  /** `IsoChronology.isLeapYear`: divisible by 4, and by 400 when divisible by 100. */
  predicate IsLeapYear(year: int) {
    year % 4 == 0 && (year % 100 != 0 || year % 400 == 0)
  }

  /** `YearMonth.lengthOfMonth`. */
  function LengthOfMonth(ym: YearMonth): (n: int)
    requires ValidMonth(ym)
    ensures 28 <= n <= 31
    ensures n == 29 <==> ym.month == 2 && IsLeapYear(ym.year)
  {
    if ym.month == 2 then (if IsLeapYear(ym.year) then 29 else 28)
    else if ym.month == 4 || ym.month == 6 || ym.month == 9 || ym.month == 11 then 30
    else 31
  }

  /** `YearMonth.from(date)`. */
  function MonthOf(d: LocalDate): YearMonth {
    YearMonth(d.year, d.month)
  }

  predicate ValidDate(d: LocalDate) {
    ValidMonth(MonthOf(d)) && 1 <= d.day <= LengthOfMonth(MonthOf(d))
  }

  /** `DAYS_0000_TO_1970`: the epoch day of 0000-01-01 is minus this. */
  const DaysFromYearZeroTo1970 := 719528

  /** Days from 0000-01-01 to January 1 of `year`, as `toEpochDay` counts them. */
  function YearStart(year: int): int {
    365 * year
    + if year >= 0 then (year + 3) / 4 - (year + 99) / 100 + (year + 399) / 400
      else -((-year) / 4 - (-year) / 100 + (-year) / 400)
  }

  /** `LocalDate.toEpochDay`: the number of days since 1970-01-01 (negative before it). */
  function EpochDay(d: LocalDate): int
    requires ValidDate(d)
  {
    var m := d.month;
    var total := YearStart(d.year) + (367 * m - 362) / 12 + d.day - 1;
    var adjusted := if m <= 2 then total else if IsLeapYear(d.year) then total - 1 else total - 2;
    adjusted - DaysFromYearZeroTo1970
  }

  /** `YearMonth.atDay(1)`, as an epoch day. */
  function FirstOfMonth(ym: YearMonth): int
    requires ValidMonth(ym)
  {
    EpochDay(LocalDate(ym.year, ym.month, 1))
  }

  /** `YearMonth.atEndOfMonth()`, as an epoch day. */
  function EndOfMonth(ym: YearMonth): (e: int)
    requires ValidMonth(ym)
    ensures e == FirstOfMonth(ym) + LengthOfMonth(ym) - 1
  {
    EpochDay(LocalDate(ym.year, ym.month, LengthOfMonth(ym)))
  }

  /** `YearMonth.plusMonths(1)`. */
  function NextMonth(ym: YearMonth): (n: YearMonth)
    requires ValidMonth(ym)
    ensures ValidMonth(n) && MonthIndex(n) == MonthIndex(ym) + 1
  {
    if ym.month == 12 then YearMonth(ym.year + 1, 1) else YearMonth(ym.year, ym.month + 1)
  }

  /** `getProlepticMonth()`: months since January of year 0. */
  function MonthIndex(ym: YearMonth): int {
    12 * ym.year + ym.month - 1
  }

  /** `DayOfWeek` of an epoch day: 1970-01-01 was a Thursday. */
  function DayOfWeekOf(e: int): DayOfWeek {
    (e + 3) % 7 + 1
  }

  // ---------------------------------------------------------------------
  // Epoch days

  lemma EpochOrigin()
    ensures EpochDay(LocalDate(1970, 1, 1)) == 0
    ensures DayOfWeekOf(0) == Thursday
  {
  }

  /** A date's epoch day is its month's first epoch day plus the days before it in the month. */
  lemma EpochDayInMonth(d: LocalDate)
    requires ValidDate(d)
    ensures EpochDay(d) == FirstOfMonth(MonthOf(d)) + d.day - 1
  {
  }

  /** Division by 4 steps up by one exactly when the dividend reaches a multiple of 4. */
  lemma DivStep4(a: int)
    ensures (a + 1) / 4 == a / 4 + if (a + 1) % 4 == 0 then 1 else 0
  {
  }

  /** Division by 100 steps up by one exactly when the dividend reaches a multiple of 100. */
  lemma DivStep100(a: int)
    ensures (a + 1) / 100 == a / 100 + if (a + 1) % 100 == 0 then 1 else 0
  {
  }

  /** Division by 400 steps up by one exactly when the dividend reaches a multiple of 400. */
  lemma DivStep400(a: int)
    ensures (a + 1) / 400 == a / 400 + if (a + 1) % 400 == 0 then 1 else 0
  {
  }

  /** Divisibility by 400 implies divisibility by 100, which implies divisibility by 4. */
  lemma DivisorsNest(y: int)
    ensures y % 400 == 0 ==> y % 100 == 0
    ensures y % 100 == 0 ==> y % 4 == 0
  {
    if y % 400 == 0 {
      assert y == 400 * (y / 400);
      assert y == 100 * (4 * (y / 400));
    }
    if y % 100 == 0 {
      assert y == 100 * (y / 100);
      assert y == 4 * (25 * (y / 100));
    }
  }

  /** The leap days `toEpochDay` counts before a non-negative year. */
  lemma LeapCountStepFromZero(y: int)
    requires y >= 0
    ensures (y + 4) / 4 - (y + 100) / 100 + (y + 400) / 400
         == (y + 3) / 4 - (y + 99) / 100 + (y + 399) / 400 + if IsLeapYear(y) then 1 else 0
  {
    DivStep4(y + 3);
    DivStep100(y + 99);
    DivStep400(y + 399);
    assert (y + 4) % 4 == y % 4;
    assert (y + 100) % 100 == y % 100;
    assert (y + 400) % 400 == y % 400;
    DivisorsNest(y);
  }

  /** The leap days `toEpochDay` counts before a year below -1. */
  lemma LeapCountStepBelowZero(y: int)
    requires y < -1
    ensures -((-y - 1) / 4 - (-y - 1) / 100 + (-y - 1) / 400)
         == -((-y) / 4 - (-y) / 100 + (-y) / 400) + if IsLeapYear(y) then 1 else 0
  {
    var n := -y - 1;
    DivStep4(n);
    DivStep100(n);
    DivStep400(n);
    NegatedMultiple4(y);
    NegatedMultiple100(y);
    NegatedMultiple400(y);
    DivisorsNest(y);
  }

  /** A year and its negation are multiples of 4 alike. */
  lemma NegatedMultiple4(y: int)
    ensures (-y) % 4 == 0 <==> y % 4 == 0
  {
    if y % 4 == 0 { assert -y == 4 * -(y / 4); }
    if (-y) % 4 == 0 { assert y == 4 * -((-y) / 4); }
  }

  /** A year and its negation are multiples of 100 alike. */
  lemma NegatedMultiple100(y: int)
    ensures (-y) % 100 == 0 <==> y % 100 == 0
  {
    if y % 100 == 0 { assert -y == 100 * -(y / 100); }
    if (-y) % 100 == 0 { assert y == 100 * -((-y) / 100); }
  }

  /** A year and its negation are multiples of 400 alike. */
  lemma NegatedMultiple400(y: int)
    ensures (-y) % 400 == 0 <==> y % 400 == 0
  {
    if y % 400 == 0 { assert -y == 400 * -(y / 400); }
    if (-y) % 400 == 0 { assert y == 400 * -((-y) / 400); }
  }

  /** A year is 366 days long when it is a leap year and 365 days long otherwise. */
  lemma YearStartStep(year: int)
    ensures YearStart(year + 1) == YearStart(year) + if IsLeapYear(year) then 366 else 365
  {
    if year >= 0 {
      LeapCountStepFromZero(year);
    } else if year < -1 {
      LeapCountStepBelowZero(year);
    }
  }

  /** Months follow each other without gaps: a month starts the day after the previous one ends. */
  lemma MonthsAreContiguous(ym: YearMonth)
    requires ValidMonth(ym)
    ensures FirstOfMonth(NextMonth(ym)) == EndOfMonth(ym) + 1
  {
    var y, m := ym.year, ym.month;
    if m == 12 {
      YearStartStep(y);
      assert FirstOfMonth(NextMonth(ym)) == YearStart(y + 1) - DaysFromYearZeroTo1970;
    } else if m == 1 {
      assert FirstOfMonth(NextMonth(ym)) == YearStart(y) + 31 - DaysFromYearZeroTo1970;
    } else if m == 2 {
      assert FirstOfMonth(NextMonth(ym)) == YearStart(y) + 61 - (if IsLeapYear(y) then 1 else 2) - DaysFromYearZeroTo1970;
    } else {
      var a := (367 * m - 362) / 12;
      var b := (367 * (m + 1) - 362) / 12;
      assert b - a == LengthOfMonth(ym) by {
        if m == 3 { assert a == 61 && b == 92; }
        else if m == 4 { assert a == 92 && b == 122; }
        else if m == 5 { assert a == 122 && b == 153; }
        else if m == 6 { assert a == 153 && b == 183; }
        else if m == 7 { assert a == 183 && b == 214; }
        else if m == 8 { assert a == 214 && b == 245; }
        else if m == 9 { assert a == 245 && b == 275; }
        else if m == 10 { assert a == 275 && b == 306; }
        else { assert a == 306 && b == 336; }
      }
    }
  }

  /** Every day of an earlier month comes before every day of a later month. */
  lemma {:induction false} MonthsInOrder(a: YearMonth, b: YearMonth)
    requires ValidMonth(a) && ValidMonth(b) && MonthIndex(a) < MonthIndex(b)
    ensures EndOfMonth(a) < FirstOfMonth(b)
    decreases MonthIndex(b) - MonthIndex(a)
  {
    var c := NextMonth(a);
    MonthsAreContiguous(a);
    if MonthIndex(c) < MonthIndex(b) {
      MonthsInOrder(c, b);
    } else {
      SameMonthIndex(c, b);
    }
  }

  /** Months with the same running index are the same month. */
  lemma SameMonthIndex(a: YearMonth, b: YearMonth)
    requires ValidMonth(a) && ValidMonth(b) && MonthIndex(a) == MonthIndex(b)
    ensures a == b
  {
  }

  // ---------------------------------------------------------------------
  // Days of week

  /** Moving `k` days moves the day of week `k` places round the week. */
  lemma DayOfWeekShift(e: int, k: int)
    ensures DayOfWeekOf(e + k) - 1 == (DayOfWeekOf(e) - 1 + k) % 7
  {
    var q := (e + 3) / 7;
    assert e + 3 == 7 * q + (e + 3) % 7;
    assert e + k + 3 == 7 * q + ((e + 3) % 7 + k);
  }

  /** Two days with the same day of week are a whole number of weeks apart. */
  lemma SameDayOfWeekApart(a: int, b: int)
    requires DayOfWeekOf(a) == DayOfWeekOf(b)
    ensures (b - a) % 7 == 0
  {
    DayOfWeekShift(a, b - a);
  }

  /** The days of week of seven consecutive days are all different. */
  lemma WithinAWeek(a: int, b: int)
    requires DayOfWeekOf(a) == DayOfWeekOf(b) && a - 7 < b < a + 7
    ensures a == b
  {
    SameDayOfWeekApart(a, b);
  }

  // ---------------------------------------------------------------------
  // TemporalAdjusters: the JDK computes a day difference and adds or
  // subtracts `7 - diff` or `-diff` days.

  /** `TemporalAdjusters.previousOrSame(dow)`. */
  function PreviousOrSame(e: int, dow: DayOfWeek): (r: int)
    ensures DayOfWeekOf(r) == dow && e - 7 < r <= e
  {
    var calDow := DayOfWeekOf(e);
    if calDow == dow then e
    else
      var daysDiff := dow - calDow;
      var back := if daysDiff >= 0 then 7 - daysDiff else -daysDiff;
      DayOfWeekShift(e, -back);
      e - back
  }

  /** `TemporalAdjusters.nextOrSame(dow)`. */
  function NextOrSame(e: int, dow: DayOfWeek): (r: int)
    ensures DayOfWeekOf(r) == dow && e <= r < e + 7
  {
    var calDow := DayOfWeekOf(e);
    if calDow == dow then e
    else
      var daysDiff := calDow - dow;
      var ahead := if daysDiff >= 0 then 7 - daysDiff else -daysDiff;
      DayOfWeekShift(e, ahead);
      e + ahead
  }

  /** `TemporalAdjusters.next(dow)`. */
  function Next(e: int, dow: DayOfWeek): (r: int)
    ensures DayOfWeekOf(r) == dow && e < r <= e + 7
  {
    var calDow := DayOfWeekOf(e);
    var daysDiff := calDow - dow;
    var ahead := if daysDiff >= 0 then 7 - daysDiff else -daysDiff;
    DayOfWeekShift(e, ahead);
    e + ahead
  }

  /** `TemporalAdjusters.previous(dow)`. */
  function Previous(e: int, dow: DayOfWeek): (r: int)
    ensures DayOfWeekOf(r) == dow && e - 7 <= r < e
  {
    var calDow := DayOfWeekOf(e);
    var daysDiff := dow - calDow;
    var back := if daysDiff >= 0 then 7 - daysDiff else -daysDiff;
    DayOfWeekShift(e, -back);
    e - back
  }

  /** `previousOrSame` gives the LATEST day on `dow` that is not after `e`. */
  lemma PreviousOrSameIsLatest(e: int, dow: DayOfWeek, d: int)
    requires DayOfWeekOf(d) == dow && d <= e
    ensures d <= PreviousOrSame(e, dow)
  {
    var r := PreviousOrSame(e, dow);
    if d > r {
      WithinAWeek(r, d);
    }
  }

  /** `nextOrSame` gives the EARLIEST day on `dow` that is not before `e`. */
  lemma NextOrSameIsEarliest(e: int, dow: DayOfWeek, d: int)
    requires DayOfWeekOf(d) == dow && e <= d
    ensures NextOrSame(e, dow) <= d
  {
    var r := NextOrSame(e, dow);
    if d < r {
      WithinAWeek(r, d);
    }
  }

  /** `next` gives the earliest day on `dow` strictly after `e`. */
  lemma NextIsEarliest(e: int, dow: DayOfWeek, d: int)
    requires DayOfWeekOf(d) == dow && e < d
    ensures Next(e, dow) <= d
  {
    var r := Next(e, dow);
    if d < r {
      WithinAWeek(r, d);
    }
  }

  /** `previous` gives the latest day on `dow` strictly before `e`. */
  lemma PreviousIsLatest(e: int, dow: DayOfWeek, d: int)
    requires DayOfWeekOf(d) == dow && d < e
    ensures d <= Previous(e, dow)
  {
    var r := Previous(e, dow);
    if d > r {
      WithinAWeek(r, d);
    }
  }
}
