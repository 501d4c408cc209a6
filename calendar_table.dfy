/**
 * `CalendarTable`: a month shown as a rectangular grid of whole weeks that
 * starts on a chosen day of week. The grid's first and last days, the row
 * of a date, the style of a cell and day-of-week tests, as static adjusters
 * and queries over the ISO calendar. Adjusted dates are given as epoch days.
 */
module CalendarTable {
  import opened Wrappers
  import opened IsoCalendar

  /** `CalendarTableStyle`. */
  datatype CalendarTableStyle = Weekday | Weekend | NotInMonth

  /** What a query throws. */
  datatype CalendarError =
      // `UnsupportedTemporalTypeException`: `get` of a field whose values do not fit an `int`
    | UnsupportedField(field: string)
      // `IllegalArgumentException("Date is before table start: " + t)`
    | DateBeforeTableStart(date: LocalDate)

  /** The `ChronoField`s the queries read with `get` from a date. */
  datatype Field = DayOfWeekField | EpochDayField

  /**
   * `LocalDate.get(field)`, for a date given as its epoch day: the day of
   * week is returned, but the epoch day is refused because its range does
   * not fit an `int` (only `getLong` returns it).
   */
  function Get(e: int, field: Field): (r: Result<int, CalendarError>)
    ensures r.Ok? <==> field == DayOfWeekField
    ensures r.Ok? ==> 1 <= r.value <= 7
  {
    match field
    case DayOfWeekField => Ok(DayOfWeekOf(e))
    case EpochDayField => Err(UnsupportedField("EpochDay"))
  }

  /** `WEEKEND_BITMASK`: bit `d` is set for each weekend day `d`, Saturday (6) and Sunday (7). */
  const WeekendBitmask: bv32 := (1 << Saturday as bv32) | (1 << Sunday as bv32)

  /** A day's bit survives masking with `WEEKEND_BITMASK` exactly for Saturday and Sunday. */
  lemma WeekendBitmaskSelects(d: DayOfWeek)
    ensures var bitMask: bv32 := 1 << d as bv32;
            bitMask == WeekendBitmask & bitMask <==> d >= Saturday
  {
    var bitMask: bv32 := 1 << d as bv32;
    if d == 1 { assert bitMask == 2; }
    else if d == 2 { assert bitMask == 4; }
    else if d == 3 { assert bitMask == 8; }
    else if d == 4 { assert bitMask == 16; }
    else if d == 5 { assert bitMask == 32; }
    else if d == 6 { assert bitMask == 64; }
    else { assert bitMask == 128; }
  }

  const WeekdaySet: set<DayOfWeek> := {Monday, Tuesday, Wednesday, Thursday, Friday}
  const WeekendSet: set<DayOfWeek> := {Saturday, Sunday}

  // ---------------------------------------------------------------------
  // The grid

  /**
   * `dateStream(month, firstDayOfWeek)`: the days from the `firstDayOfWeek`
   * on or before day 1 up to, and excluding, the first `firstDayOfWeek`
   * after the month's last day.
   */
  function DateStream(ym: YearMonth, firstDayOfWeek: DayOfWeek): (r: seq<int>)
    requires ValidMonth(ym)
    ensures 28 <= |r| <= 42 && |r| % 7 == 0
    ensures forall i :: 0 <= i < |r| ==> r[i] == r[0] + i
    ensures DayOfWeekOf(r[0]) == firstDayOfWeek && r[0] <= FirstOfMonth(ym) < r[0] + 7
    ensures EndOfMonth(ym) <= r[|r| - 1] < EndOfMonth(ym) + 7
  {
    var firstTableDay := PreviousOrSame(FirstOfMonth(ym), firstDayOfWeek);
    var lastTableDayPlusOne := Next(EndOfMonth(ym), firstDayOfWeek);
    SameDayOfWeekApart(firstTableDay, lastTableDayPlusOne);
    seq(lastTableDayPlusOne - firstTableDay, i => firstTableDay + i)
  }

  /** `firstDay(firstDayOfWeek)` applied to a date `t`: the grid's first day for `t`'s month. */
  function FirstDay(firstDayOfWeek: DayOfWeek, t: LocalDate): (r: int)
    requires ValidDate(t)
    ensures r == DateStream(MonthOf(t), firstDayOfWeek)[0]
  {
    PreviousOrSame(FirstOfMonth(MonthOf(t)), firstDayOfWeek)
  }

  /** `lastDay(lastDayOfWeek)` applied to a date `t`. */
  function LastDay(lastDayOfWeek: DayOfWeek, t: LocalDate): (r: int)
    requires ValidDate(t)
    ensures DayOfWeekOf(r) == lastDayOfWeek
    ensures EndOfMonth(MonthOf(t)) <= r < EndOfMonth(MonthOf(t)) + 7
  {
    NextOrSame(EndOfMonth(MonthOf(t)), lastDayOfWeek)
  }

  /** The day of week just before `d`: the last day of a week that starts on `d`. */
  function DayBefore(d: DayOfWeek): (r: DayOfWeek)
    ensures r % 7 + 1 == d
  {
    (d + 5) % 7 + 1
  }

  /**
   * `lastDay(lastDayOfWeek, minNumberOfWeeks)` applied to `t`, as evidently
   * intended: the month's `lastDay`, pushed later when that is needed to
   * make the grid at least `minNumberOfWeeks` weeks long.
   */
  function LastDayMinWeeks(lastDayOfWeek: DayOfWeek, minNumberOfWeeks: int, t: LocalDate): (r: int)
    requires ValidDate(t)
    ensures r >= LastDay(lastDayOfWeek, t)
    ensures minNumberOfWeeks <= 4 ==> r == LastDay(lastDayOfWeek, t)
  {
    var result := NextOrSame(EndOfMonth(MonthOf(t)), lastDayOfWeek);
    if minNumberOfWeeks > 4 then
      var beforeFirstTableDay := Previous(FirstOfMonth(MonthOf(t)), lastDayOfWeek);
      var minEnd := beforeFirstTableDay + 7 * minNumberOfWeeks;
      if minEnd > result then NextOrSame(minEnd, lastDayOfWeek) else result
    else result
  }

  /**
   * `lastDay(lastDayOfWeek, minNumberOfWeeks)` as written: when
   * `minNumberOfWeeks > 4` it compares `get(EPOCH_DAY)` of two dates, and
   * `LocalDate.get` throws for that field.
   */
  function LastDayMinWeeksAsWritten(lastDayOfWeek: DayOfWeek, minNumberOfWeeks: int, t: LocalDate)
    : (r: Result<int, CalendarError>)
    requires ValidDate(t)
    ensures minNumberOfWeeks <= 4 ==> r == Ok(LastDay(lastDayOfWeek, t))
    ensures minNumberOfWeeks > 4 ==> r == Err(UnsupportedField("EpochDay"))
  {
    var result := NextOrSame(EndOfMonth(MonthOf(t)), lastDayOfWeek);
    if minNumberOfWeeks > 4 then
      var beforeFirstTableDay := Previous(FirstOfMonth(MonthOf(t)), lastDayOfWeek);
      var minEnd := beforeFirstTableDay + 7 * minNumberOfWeeks;
      match Get(minEnd, EpochDayField)
      case Err(e) => Err(e)
      case Ok(minEndDay) =>
        match Get(result, EpochDayField)
        case Err(e) => Err(e)
        case Ok(resultDay) =>
          if minEndDay > resultDay then Ok(NextOrSame(minEnd, lastDayOfWeek)) else Ok(result)
    else Ok(result)
  }

  /** The row of the grid holding epoch day `day` when the grid starts on `tableStartDay`. */
  function Row(tableStartDay: int, day: int, t: LocalDate): Result<int, CalendarError> {
    if day < tableStartDay then Err(DateBeforeTableStart(t))
    else Ok((day - tableStartDay) / 7 + 1)
  }

  /**
   * `weekNumber(monthSpec, firstDayOfWeek)` applied to `t`, as evidently
   * intended: the 1-based grid row of `t`, or an error for a date before
   * the grid's first day.
   */
  function WeekNumber(monthSpec: LocalDate, firstDayOfWeek: DayOfWeek, t: LocalDate)
    : (r: Result<int, CalendarError>)
    requires ValidDate(monthSpec) && ValidDate(t)
    ensures r.Ok? ==> r.value >= 1
    ensures r.Err? ==> r.error == DateBeforeTableStart(t)
  {
    Row(FirstDay(firstDayOfWeek, monthSpec), EpochDay(t), t)
  }

  /** The rest of the query once the grid's first day has been read: read the date's epoch day. */
  function RowAfterRead(tableStartDay: int, day: Result<int, CalendarError>, t: LocalDate)
    : Result<int, CalendarError>
  {
    match day
    case Err(e) => Err(e)
    case Ok(d) => Row(tableStartDay, d, t)
  }

  /**
   * `weekNumber(monthSpec, firstDayOfWeek)` as written: it reads
   * `get(EPOCH_DAY)` of the grid's first day before any date is queried,
   * and `LocalDate.get` throws for that field.
   */
  function WeekNumberAsWritten(monthSpec: LocalDate, firstDayOfWeek: DayOfWeek, t: LocalDate)
    : (r: Result<int, CalendarError>)
    requires ValidDate(monthSpec) && ValidDate(t)
    ensures r == Err(UnsupportedField("EpochDay"))
  {
    var tableStart := FirstDay(firstDayOfWeek, monthSpec);
    var day := Get(EpochDay(t), EpochDayField);
    match Get(tableStart, EpochDayField)
    case Err(e) => Err(e)
    case Ok(tableStartDay) => RowAfterRead(tableStartDay, day, t)
  }

  // ---------------------------------------------------------------------
  // Queries

  /** `belongsToMonth(monthSpec)` applied to `t`: same year and same month. */
  predicate BelongsToMonth(reference: YearMonth, t: LocalDate)
    ensures BelongsToMonth(reference, t) <==> MonthOf(t) == reference
  {
    t.year == reference.year && t.month == reference.month
  }

  /** `dayStyle(monthSpec)` applied to `t`, deciding weekends by `WEEKEND_BITMASK`. */
  function DayStyle(reference: YearMonth, t: LocalDate): (r: CalendarTableStyle)
    requires ValidDate(t)
    ensures r == NotInMonth <==> !BelongsToMonth(reference, t)
    ensures r == Weekend <==> BelongsToMonth(reference, t) && DayOfWeekOf(EpochDay(t)) >= Saturday
  {
    if t.year != reference.year || t.month != reference.month then NotInMonth
    else
      var dayOfWeek := Get(EpochDay(t), DayOfWeekField).value;
      var bitMask: bv32 := 1 << dayOfWeek as bv32;
      WeekendBitmaskSelects(dayOfWeek);
      if bitMask == WeekendBitmask & bitMask then Weekend else Weekday
  }

  /** The object `Set.contains` receives: `contains` is decided by `equals`. */
  datatype JavaObject = BoxedInteger(n: int) | DayOfWeekConstant(d: DayOfWeek)

  /** `Set<DayOfWeek>.contains(o)`: an `Integer` never equals a `DayOfWeek` constant. */
  predicate SetContains(candidates: set<DayOfWeek>, o: JavaObject) {
    o.DayOfWeekConstant? && o.d in candidates
  }

  /**
   * `isAnyDayOfWeek(candidates)` applied to `t` as written: the `int` day
   * of week is boxed to an `Integer` and looked up in a set of `DayOfWeek`
   * constants, so it is never found.
   */
  function IsAnyDayOfWeekAsWritten(candidates: set<DayOfWeek>, t: LocalDate): (found: bool)
    requires ValidDate(t)
    ensures !found
  {
    var dayOfWeek := Get(EpochDay(t), DayOfWeekField).value;
    SetContains(candidates, BoxedInteger(dayOfWeek))
  }

  /** `isWeekday()` applied to `t` as written. */
  predicate IsWeekdayAsWritten(t: LocalDate)
    requires ValidDate(t)
    ensures !IsWeekdayAsWritten(t)
  {
    IsAnyDayOfWeekAsWritten(WeekdaySet, t)
  }

  /** `isWeekend()` applied to `t` as written. */
  predicate IsWeekendAsWritten(t: LocalDate)
    requires ValidDate(t)
    ensures !IsWeekendAsWritten(t)
  {
    IsAnyDayOfWeekAsWritten(WeekendSet, t)
  }

  /** `isAnyDayOfWeek(candidates)` applied to `t`, as evidently intended: `t`'s day of week is a candidate. */
  predicate IsAnyDayOfWeek(candidates: set<DayOfWeek>, t: LocalDate)
    requires ValidDate(t)
    ensures IsAnyDayOfWeek(candidates, t) <==> DayOfWeekOf(EpochDay(t)) in candidates
  {
    SetContains(candidates, DayOfWeekConstant(DayOfWeekOf(EpochDay(t))))
  }

  /** `isWeekday()`, as evidently intended. */
  predicate IsWeekday(t: LocalDate)
    requires ValidDate(t)
    ensures IsWeekday(t) <==> Monday <= DayOfWeekOf(EpochDay(t)) <= Friday
  {
    IsAnyDayOfWeek(WeekdaySet, t)
  }

  /** `isWeekend()`, as evidently intended. */
  predicate IsWeekend(t: LocalDate)
    requires ValidDate(t)
    ensures IsWeekend(t) <==> Saturday <= DayOfWeekOf(EpochDay(t)) <= Sunday
  {
    IsAnyDayOfWeek(WeekendSet, t)
  }

  // ---------------------------------------------------------------------
  // Properties of the grid

  /** Every day of the month is a cell of the grid, at its offset from the grid's first day. */
  lemma DateStreamCoversMonth(firstDayOfWeek: DayOfWeek, t: LocalDate)
    requires ValidDate(t)
    ensures var r := DateStream(MonthOf(t), firstDayOfWeek);
            var i := EpochDay(t) - r[0];
            0 <= i < |r| && r[i] == EpochDay(t)
  {
    EpochDayInMonth(t);
  }

  /** The grid's first day is the latest `firstDayOfWeek` on or before day 1 of the month. */
  lemma DateStreamStartsLatest(ym: YearMonth, firstDayOfWeek: DayOfWeek, d: int)
    requires ValidMonth(ym) && DayOfWeekOf(d) == firstDayOfWeek && d <= FirstOfMonth(ym)
    ensures d <= DateStream(ym, firstDayOfWeek)[0]
  {
    PreviousOrSameIsLatest(FirstOfMonth(ym), firstDayOfWeek, d);
  }

  /** The day after the grid ends is the earliest `firstDayOfWeek` after the month's last day. */
  lemma DateStreamEndsEarliest(ym: YearMonth, firstDayOfWeek: DayOfWeek, d: int)
    requires ValidMonth(ym) && DayOfWeekOf(d) == firstDayOfWeek && EndOfMonth(ym) < d
    ensures DateStream(ym, firstDayOfWeek)[|DateStream(ym, firstDayOfWeek)| - 1] + 1 <= d
  {
    NextIsEarliest(EndOfMonth(ym), firstDayOfWeek, d);
  }

  /** With weeks ending the day before they start, `lastDay` is the grid's last cell. */
  lemma LastDayEndsDateStream(firstDayOfWeek: DayOfWeek, t: LocalDate)
    requires ValidDate(t)
    ensures var r := DateStream(MonthOf(t), firstDayOfWeek);
            LastDay(DayBefore(firstDayOfWeek), t) == r[|r| - 1]
  {
    var ym := MonthOf(t);
    var r := DateStream(ym, firstDayOfWeek);
    GridEndsBeforeNextWeek(ym, firstDayOfWeek);
    DayBeforeNext(r[|r| - 1], firstDayOfWeek);
    WithinAWeek(LastDay(DayBefore(firstDayOfWeek), t), r[|r| - 1]);
  }

  /** The day after the grid's last cell is the first `firstDayOfWeek` after the month. */
  lemma GridEndsBeforeNextWeek(ym: YearMonth, firstDayOfWeek: DayOfWeek)
    requires ValidMonth(ym)
    ensures var r := DateStream(ym, firstDayOfWeek);
            r[|r| - 1] + 1 == Next(EndOfMonth(ym), firstDayOfWeek)
  {
    var first := PreviousOrSame(FirstOfMonth(ym), firstDayOfWeek);
    var next := Next(EndOfMonth(ym), firstDayOfWeek);
    assert DateStream(ym, firstDayOfWeek) == seq(next - first, i => first + i);
  }

  /** The day before a `d` falls on `DayBefore(d)`. */
  lemma DayBeforeNext(e: int, d: DayOfWeek)
    requires DayOfWeekOf(e + 1) == d
    ensures DayOfWeekOf(e) == DayBefore(d)
  {
    DayOfWeekShift(e, 1);
  }

  /**
   * The grid ends on `lastDayOfWeek`, never before `lastDay`, is `lastDay`
   * for at most 4 weeks, and otherwise spans at least `minNumberOfWeeks`
   * weeks from the `lastDayOfWeek` before the month starts; it is the
   * earliest such day.
   */
  lemma LastDayMinWeeksBounds(lastDayOfWeek: DayOfWeek, minNumberOfWeeks: int, t: LocalDate)
    requires ValidDate(t)
    ensures var r := LastDayMinWeeks(lastDayOfWeek, minNumberOfWeeks, t);
            var minEnd := Previous(FirstOfMonth(MonthOf(t)), lastDayOfWeek) + 7 * minNumberOfWeeks;
            && DayOfWeekOf(r) == lastDayOfWeek
            && r >= LastDay(lastDayOfWeek, t)
            && (minNumberOfWeeks <= 4 ==> r == LastDay(lastDayOfWeek, t))
            && (minNumberOfWeeks > 4 ==> r >= minEnd && (r == LastDay(lastDayOfWeek, t) || r == minEnd))
  {
    var ym := MonthOf(t);
    var before := Previous(FirstOfMonth(ym), lastDayOfWeek);
    var minEnd := before + 7 * minNumberOfWeeks;
    DayOfWeekShift(before, 7 * minNumberOfWeeks);
    assert (DayOfWeekOf(before) - 1 + 7 * minNumberOfWeeks) % 7 == DayOfWeekOf(before) - 1;
    assert DayOfWeekOf(minEnd) == lastDayOfWeek;
  }

  /**
   * With weeks ending the day before they start, a grid ending at
   * `LastDayMinWeeks` spans at least `minNumberOfWeeks` whole weeks.
   */
  lemma LastDayMinWeeksSpansWeeks(firstDayOfWeek: DayOfWeek, minNumberOfWeeks: int, t: LocalDate)
    requires ValidDate(t) && minNumberOfWeeks > 4
    ensures LastDayMinWeeks(DayBefore(firstDayOfWeek), minNumberOfWeeks, t) - FirstDay(firstDayOfWeek, t) + 1
            >= 7 * minNumberOfWeeks
  {
    var ym := MonthOf(t);
    var ldow := DayBefore(firstDayOfWeek);
    LastDayMinWeeksBounds(ldow, minNumberOfWeeks, t);
    var start := FirstDay(firstDayOfWeek, t);
    var before := Previous(FirstOfMonth(ym), ldow);
    DayOfWeekShift(start, -1);
    assert DayOfWeekOf(start - 1) == ldow;
    PreviousIsLatest(FirstOfMonth(ym), ldow, start - 1);
  }

  /**
   * The row of a date: an error exactly for dates before the grid's first
   * day, otherwise the row `w >= 1` whose seven days, counted from the
   * grid's first day, contain the date.
   */
  lemma WeekNumberIsRow(monthSpec: LocalDate, firstDayOfWeek: DayOfWeek, t: LocalDate)
    requires ValidDate(monthSpec) && ValidDate(t)
    ensures var r := WeekNumber(monthSpec, firstDayOfWeek, t);
            var start := FirstDay(firstDayOfWeek, monthSpec);
            && (r.Err? <==> EpochDay(t) < start)
            && (r.Err? ==> r.error == DateBeforeTableStart(t))
            && (r.Ok? ==> r.value >= 1 && start + 7 * (r.value - 1) <= EpochDay(t) < start + 7 * r.value)
  {
    var start := FirstDay(firstDayOfWeek, monthSpec);
    var day := EpochDay(t);
    if day >= start {
      var q := (day - start) / 7;
      assert day - start == 7 * q + (day - start) % 7;
    }
  }

  /** Every day of the month lies in a row of its grid: between 1 and the number of rows. */
  lemma WeekNumberWithinGrid(monthSpec: LocalDate, firstDayOfWeek: DayOfWeek, t: LocalDate)
    requires ValidDate(monthSpec) && ValidDate(t) && MonthOf(t) == MonthOf(monthSpec)
    ensures var r := WeekNumber(monthSpec, firstDayOfWeek, t);
            r.Ok? && 1 <= r.value <= |DateStream(MonthOf(t), firstDayOfWeek)| / 7
  {
    DateStreamCoversMonth(firstDayOfWeek, t);
    WeekNumberIsRow(monthSpec, firstDayOfWeek, t);
    var r := WeekNumber(monthSpec, firstDayOfWeek, t);
    var n := |DateStream(MonthOf(t), firstDayOfWeek)|;
    assert n == 7 * (n / 7);
  }

  /** `belongsToMonth` holds exactly for the dates whose epoch day lies within the month. */
  lemma BelongsToMonthIffWithin(reference: YearMonth, t: LocalDate)
    requires ValidMonth(reference) && ValidDate(t)
    ensures BelongsToMonth(reference, t) <==> FirstOfMonth(reference) <= EpochDay(t) <= EndOfMonth(reference)
  {
    var own := MonthOf(t);
    var e := EpochDay(t);
    EpochDayInMonth(t);
    assert FirstOfMonth(own) <= e <= EndOfMonth(own);
    if own == reference {
    } else if MonthIndex(own) == MonthIndex(reference) {
      SameMonthIndex(own, reference);
    } else if MonthIndex(own) < MonthIndex(reference) {
      MonthsInOrder(own, reference);
      assert e < FirstOfMonth(reference);
    } else {
      assert MonthIndex(reference) < MonthIndex(own);
      MonthsInOrder(reference, own);
      assert EndOfMonth(reference) < e;
    }
  }

  /**
   * The bitmask decides weekends like the weekend set: a cell is out of the
   * month exactly when the date does not belong to it, and otherwise a
   * weekend cell exactly when the date is a Saturday or Sunday.
   */
  lemma DayStyleClassifies(reference: YearMonth, t: LocalDate)
    requires ValidDate(t)
    ensures DayStyle(reference, t) == NotInMonth <==> !BelongsToMonth(reference, t)
    ensures DayStyle(reference, t) == Weekend <==> BelongsToMonth(reference, t) && IsWeekend(t)
    ensures DayStyle(reference, t) == Weekday <==> BelongsToMonth(reference, t) && IsWeekday(t)
  {
  }

  /** Every date is a weekday or a weekend day, and never both. */
  lemma WeekdaysAndWeekendPartition(t: LocalDate)
    requires ValidDate(t)
    ensures IsWeekday(t) != IsWeekend(t)
    ensures IsWeekend(t) <==> DayOfWeekOf(EpochDay(t)) >= Saturday
  {
  }

  // ---------------------------------------------------------------------
  // The code as written

  /** As written, Saturday 1970-01-03 is reported as neither a weekday nor a weekend day. */
  lemma WeekendQueryMissesSaturday()
    ensures var t := LocalDate(1970, 1, 3);
            ValidDate(t) && DayOfWeekOf(EpochDay(t)) == Saturday
            && !IsWeekendAsWritten(t) && !IsWeekdayAsWritten(t)
            && IsWeekend(t)
  {
  }

  /** As written, `weekNumber` throws even for day 1 of its own month, whose row is 1. */
  lemma WeekNumberRefusesFirstOfMonth(monthSpec: LocalDate, firstDayOfWeek: DayOfWeek)
    requires ValidDate(monthSpec)
    ensures var t := LocalDate(monthSpec.year, monthSpec.month, 1);
            ValidDate(t)
            && WeekNumberAsWritten(monthSpec, firstDayOfWeek, t).Err?
            && WeekNumber(monthSpec, firstDayOfWeek, t) == Ok(1)
  {
    var t := LocalDate(monthSpec.year, monthSpec.month, 1);
    WeekNumberIsRow(monthSpec, firstDayOfWeek, t);
  }

  /** As written, asking for a grid of at least 5 weeks always throws. */
  lemma LastDayMinWeeksRefusesFiveWeeks(lastDayOfWeek: DayOfWeek, t: LocalDate)
    requires ValidDate(t)
    ensures LastDayMinWeeksAsWritten(lastDayOfWeek, 5, t).Err?
    ensures LastDayMinWeeks(lastDayOfWeek, 5, t) >= LastDay(lastDayOfWeek, t)
  {
    LastDayMinWeeksBounds(lastDayOfWeek, 5, t);
  }
}
