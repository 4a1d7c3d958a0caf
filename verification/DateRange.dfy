/**
 * The UTC calendar behind JavaScript dates: days and months counted from 1970.
 * A date is its time in milliseconds; month number `k` is month `k % 12` of year `k / 12`.
 */
module UtcCalendar {
  /** The first day of a year (section "Year Number" of ECMA-262). */
  function DayFromYear(y: int): int {
    365 * (y - 1970) + (y - 1969) / 4 - (y - 1901) / 100 + (y - 1601) / 400
  }

  predicate Leap(y: int) {
    y % 4 == 0 && (y % 100 != 0 || y % 400 == 0)
  }

  function MonthLength(leap: bool, m: int): int {
    if m == 1 then (if leap then 29 else 28)
    else if m == 3 || m == 5 || m == 8 || m == 10 then 30
    else 31
  }

  /** The days of a year before month `m`. */
  function DaysBefore(leap: bool, m: int): int {
    var days :=
      if m <= 0 then 0 else if m == 1 then 31 else if m == 2 then 59 else if m == 3 then 90
      else if m == 4 then 120 else if m == 5 then 151 else if m == 6 then 181 else if m == 7 then 212
      else if m == 8 then 243 else if m == 9 then 273 else if m == 10 then 304 else 334;
    if leap && m >= 2 then days + 1 else days
  }

  function MonthStart(k: int): int {
    DayFromYear(k / 12) + DaysBefore(Leap(k / 12), k % 12)
  }

  /** A year starts with its January. */
  lemma January(y: int)
    ensures MonthStart(12 * y) == DayFromYear(y)
  {
    Twelfths(y);
    assert DaysBefore(Leap(y), 0) == 0;
    hide DayFromYear, Leap, DaysBefore;
  }

  lemma Twelfths(y: int)
    ensures 12 * y / 12 == y && 12 * y % 12 == 0
  {
  }

  lemma EveryFourth(y: int)
    ensures (y + 1 - 1969) / 4 == (y - 1969) / 4 + if y % 4 == 0 then 1 else 0
  {
  }

  lemma EveryHundredth(y: int)
    ensures (y + 1 - 1901) / 100 == (y - 1901) / 100 + if y % 100 == 0 then 1 else 0
  {
  }

  lemma EveryFourHundredth(y: int)
    ensures (y + 1 - 1601) / 400 == (y - 1601) / 400 + if y % 400 == 0 then 1 else 0
  {
  }

  lemma HundredsAreFourths(y: int)
    ensures y % 100 == 0 ==> y % 4 == 0
    ensures y % 400 == 0 ==> y % 100 == 0
  {
  }

  lemma YearLength(y: int)
    ensures DayFromYear(y + 1) == DayFromYear(y) + if Leap(y) then 366 else 365
  {
    EveryFourth(y);
    EveryHundredth(y);
    EveryFourHundredth(y);
    HundredsAreFourths(y);
  }

  lemma MonthInYear(leap: bool, m: int)
    requires 0 <= m < 12
    ensures m < 11 ==> DaysBefore(leap, m + 1) == DaysBefore(leap, m) + MonthLength(leap, m)
    ensures m == 11 ==> (if leap then 366 else 365) == DaysBefore(leap, m) + MonthLength(leap, m)
    ensures 28 <= MonthLength(leap, m) <= 31
  {
  }

  /** From March on the months' lengths follow the pattern 31, 30, 31, 30, 31. */
  lemma MonthsFollowPattern(leap: bool, m: int)
    requires 2 <= m < 12
    ensures DaysBefore(leap, m) == DaysBefore(leap, 2) + (153 * (m - 2) + 2) / 5
    ensures DaysBefore(leap, 2) == if leap then 60 else 59
  {
  }

  lemma MonthAndYear(k: int)
    ensures if k % 12 == 11 then (k + 1) / 12 == k / 12 + 1 && (k + 1) % 12 == 0
            else (k + 1) / 12 == k / 12 && (k + 1) % 12 == k % 12 + 1
  {
  }

  lemma NextMonth(k: int)
    ensures MonthStart(k + 1) == MonthStart(k) + MonthLength(Leap(k / 12), k % 12)
    ensures 28 <= MonthLength(Leap(k / 12), k % 12) <= 31
  {
    YearLength(k / 12);
    MonthInYear(Leap(k / 12), k % 12);
    MonthAndYear(k);
    assert DaysBefore(Leap((k + 1) / 12), 0) == 0;
    hide DayFromYear, Leap, DaysBefore, MonthLength;
  }

  lemma {:induction false} MonthsAscend(i: int, j: int)
    requires i <= j
    ensures MonthStart(i) + 28 * (j - i) <= MonthStart(j)
    decreases j - i
  {
    hide MonthStart, MonthLength;
    if i < j {
      MonthsAscend(i, j - 1);
      NextMonth(j - 1);
    }
  }

  predicate Step(start: int -> int, k: int) {
    start(k) < start(k + 1)
  }

  ghost predicate Increasing(start: int -> int) {
    forall k: int :: Step(start, k)
  }

  /** How far a day lies outside month `k`. */
  function Away(start: int -> int, day: int, k: int): nat {
    if day < start(k) then start(k) - day
    else if day >= start(k + 1) then day - start(k + 1) + 1
    else 0
  }

  /** The period that a day falls into, looked for from period `k` on. */
  function PeriodOf(start: int -> int, day: int, k: int): (m: int)
    requires Increasing(start)
    ensures start(m) <= day < start(m + 1)
    decreases Away(start, day, k)
  {
    assert Step(start, k - 1) && Step(start, k) && Step(start, k + 1);
    if day < start(k) then PeriodOf(start, day, k - 1)
    else if day >= start(k + 1) then PeriodOf(start, day, k + 1)
    else k
  }

  lemma MonthsIncrease()
    ensures Increasing(MonthStart)
  {
    forall k: int ensures Step(MonthStart, k) {
      NextMonth(k);
    }
  }

  /** The month a day belongs to. */
  function MonthOf(day: int): int {
    MonthsIncrease();
    PeriodOf(MonthStart, day, 12 * 1970)
  }

  lemma MonthHolds(day: int)
    ensures MonthStart(MonthOf(day)) <= day < MonthStart(MonthOf(day) + 1)
  {
    MonthsIncrease();
    hide MonthStart;
  }

  lemma MonthOfIs(day: int, k: int)
    requires MonthStart(k) <= day < MonthStart(k + 1)
    ensures MonthOf(day) == k
  {
    hide *;
    var m := MonthOf(day);
    MonthHolds(day);
    if m < k {
      MonthsAscend(m + 1, k);
    } else if m > k {
      MonthsAscend(k + 1, m);
    }
  }

  // ── dates ──

  function Ms(day: int): int {
    day * 86_400_000
  }

  function DayOf(t: int): int {
    t / 86_400_000
  }

  lemma DayOfMs(day: int)
    ensures DayOf(Ms(day)) == day
  {
  }

  function UtcYear(t: int): int {
    MonthOf(DayOf(t)) / 12
  }

  function UtcMonth(t: int): (m: int)
    ensures 0 <= m < 12
  {
    MonthOf(DayOf(t)) % 12
  }

  function UtcDate(t: int): int {
    DayOf(t) - MonthStart(MonthOf(DayOf(t))) + 1
  }

  /** `Date.UTC`: a year from 0 to 99 stands for 1900 to 1999; month and date may run over. */
  function Utc(year: int, month: int, date: int): int {
    var y := if 0 <= year <= 99 then 1900 + year else year;
    Ms(MonthStart(12 * y + month) + date - 1)
  }

  /** The month that `Date.UTC` reads month `k` as. */
  function ShownMonth(k: int): int {
    if 0 <= k < 1200 then k + 22_800 else k
  }

  /** The day that `Date.UTC` reads a day as: the same date, in a month of 1900 to 1999 if the year has two digits. */
  function ShownDay(day: int): int {
    MonthStart(ShownMonth(MonthOf(day))) + (day - MonthStart(MonthOf(day)))
  }

  /** January 1st of year 0 and of year 100. */
  const YEAR_0 := -719_528
  const YEAR_100 := -683_003

  /** A day of the years 0 to 99. */
  predicate TwoDigit(day: int) {
    YEAR_0 <= day < YEAR_100
  }

  lemma MonthsInOrder(i: int, j: int)
    ensures MonthStart(i) <= MonthStart(j) <==> i <= j
  {
    hide MonthStart;
    if i <= j {
      MonthsAscend(i, j);
    } else {
      MonthsAscend(j, i);
    }
  }

  /** A day comes before a month exactly when its month does. */
  lemma BeforeMonth(day: int, k: int)
    ensures day < MonthStart(k) <==> MonthOf(day) < k
  {
    hide MonthStart, MonthOf;
    MonthHolds(day);
    MonthsInOrder(k, MonthOf(day));
    MonthsInOrder(MonthOf(day) + 1, k);
  }

  lemma TwoDigitMonth(day: int)
    ensures day < YEAR_0 <==> MonthOf(day) < 0
    ensures day < YEAR_100 <==> MonthOf(day) < 1200
  {
    hide MonthStart, MonthOf;
    January(0);
    January(100);
    BeforeMonth(day, 0);
    BeforeMonth(day, 1200);
  }

  /** A day is read as itself exactly when its year has not two digits; what it is read as is read as itself. */
  lemma ShownDayIs(day: int)
    ensures ShownDay(day) == day <==> !TwoDigit(day)
    ensures TwoDigit(day) ==> ShownDay(day) >= MonthStart(22_800)
    ensures !TwoDigit(ShownDay(day)) && ShownDay(ShownDay(day)) == ShownDay(day)
  {
    hide MonthStart, MonthOf, ShownDay;
    TwoDigitMonth(day);
    ShownMoves(day);
    if TwoDigit(day) {
      ShownLate(day);
      ShownMoves(ShownDay(day));
      TwoDigitMonth(ShownDay(day));
    }
  }

  lemma ShownMoves(day: int)
    ensures ShownDay(day) == day + (MonthStart(ShownMonth(MonthOf(day))) - MonthStart(MonthOf(day)))
    ensures !(0 <= MonthOf(day) < 1200) ==> ShownDay(day) == day
  {
    hide MonthStart, MonthOf;
  }

  lemma ShownLate(day: int)
    requires TwoDigit(day)
    ensures ShownDay(day) >= MonthStart(22_800) > day
    ensures !TwoDigit(ShownDay(day))
  {
    hide MonthStart, MonthOf;
    January(1900);
    TwoDigitMonth(day);
    MonthHolds(day);
    MonthsInOrder(22_800, ShownMonth(MonthOf(day)));
  }

  /** Reading the parts of a date and putting them together, with the month moved and the date changed. */
  lemma UtcOfParts(t: int, months: int, date: int)
    ensures Utc(UtcYear(t), UtcMonth(t) + months, date)
      == Ms(MonthStart(ShownMonth(MonthOf(DayOf(t))) + months) + date - 1)
  {
    hide MonthStart, MonthOf;
    Recombine(MonthOf(DayOf(t)), months);
  }

  lemma Recombine(k: int, months: int)
    ensures 12 * (k / 12) + (k % 12 + months) == k + months
    ensures 12 * (1900 + k / 12) + (k % 12 + months) == k + months + 22_800
    ensures 0 <= k / 12 <= 99 <==> 0 <= k < 1200
  {
  }
}

/** The range helpers (src/common/date-range.util.ts). */
module DateRange {
  import opened Wrappers
  import opened UtcCalendar

  datatype DateRange = DateRange(start: int, endExclusive: int)

  datatype Result<+T> = Ok(value: T) | BadRequest

  function StartOfUtcDay(value: int): int {
    Utc(UtcYear(value), UtcMonth(value), UtcDate(value))
  }

  function StartOfUtcMonth(value: int): int {
    Utc(UtcYear(value), UtcMonth(value), 1)
  }

  function AddUtcDays(value: int, days: int): int {
    Utc(UtcYear(value), UtcMonth(value), UtcDate(value) + days)
  }

  function AddUtcMonths(value: int, months: int): int {
    Utc(UtcYear(value), UtcMonth(value) + months, 1)
  }

  function AddUtcYears(value: int, years: int): int {
    Utc(UtcYear(value) + years, UtcMonth(value), UtcDate(value))
  }

  /** An optional text: missing, not a date, or an instant. */
  datatype Given = Missing | Malformed | At(ms: int)

  datatype Period = Daily | Monthly

  /** `NoPreset` is a missing or empty preset, `Other` one that is not in the list. */
  datatype Preset = NoPreset | Today | Days(count: nat) | YearToDate | Custom | Other

  function PresetWindow(preset: Preset, now: int): DateRange
    requires preset.Today? || preset.Days? || preset.YearToDate?
  {
    var today := StartOfUtcDay(now);
    var start :=
      if preset.Today? then today
      else if preset.Days? then AddUtcDays(today, 1 - preset.count)
      else Utc(UtcYear(now), 0, 1);
    DateRange(start, AddUtcDays(today, 1))
  }

  function CustomWindow(from: int, to: Given, now: int): Result<Option<DateRange>>
    requires !to.Malformed?
  {
    var start := StartOfUtcDay(from);
    var endExclusive := AddUtcDays(StartOfUtcDay(if to.At? then to.ms else now), 1);
    if start >= endExclusive || endExclusive > AddUtcYears(start, 1) then BadRequest
    else Ok(Some(DateRange(start, endExclusive)))
  }

  /** `Days` stands for the presets `7d`, `30d` and `90d`. */
  function ResolveAnalyticsWindow(preset: Preset, from: Given, to: Given, now: int): Result<Option<DateRange>> {
    if preset.NoPreset? && from.Missing? && to.Missing? then Ok(None)
    else if preset.Other? then BadRequest
    else if !preset.NoPreset? && !preset.Custom? then
      if !from.Missing? || !to.Missing? then BadRequest else Ok(Some(PresetWindow(preset, now)))
    else if !from.At? || to.Malformed? then BadRequest
    else CustomWindow(from.ms, to, now)
  }

  /** `dateFrom` and `dateTo` are whole days here. */
  function ResolveDateRange(period: Period, dateFrom: Given, dateTo: Given, now: int): Result<DateRange> {
    if dateFrom.Malformed? || dateTo.Malformed? then BadRequest
    else if period.Daily? then
      var endInclusive := if dateTo.At? then dateTo.ms else StartOfUtcDay(now);
      var start := if dateFrom.At? then dateFrom.ms else AddUtcDays(endInclusive, -29);
      if start > endInclusive then BadRequest else Ok(DateRange(start, AddUtcDays(endInclusive, 1)))
    else
      var endMonth := StartOfUtcMonth(if dateTo.At? then dateTo.ms else now);
      var startMonth := if dateFrom.At? then StartOfUtcMonth(dateFrom.ms) else AddUtcMonths(endMonth, -11);
      if startMonth > endMonth then BadRequest else Ok(DateRange(startMonth, AddUtcMonths(endMonth, 1)))
  }
}

/** What the range helpers mean in days and months. */
module DateRangeMeaning {
  import opened Wrappers
  import opened UtcCalendar
  import opened DateRange

  lemma PartsAreTheDate(t: int)
    ensures MonthStart(MonthOf(DayOf(t))) + UtcDate(t) - 1 == DayOf(t)
  {
    hide MonthStart, MonthOf;
  }

  /** The start of the day as `Date.UTC` reads it: of the day itself exactly when the year has not two digits. */
  lemma StartOfUtcDayIs(t: int)
    ensures StartOfUtcDay(t) == Ms(ShownDay(DayOf(t)))
    ensures StartOfUtcDay(t) == Ms(DayOf(t)) <==> !TwoDigit(DayOf(t))
  {
    UtcOfParts(t, 0, UtcDate(t));
    PartsAreTheDate(t);
    ShownDayIs(DayOf(t));
    hide MonthStart, MonthOf, Utc, UtcYear, UtcMonth, UtcDate, DayOf, TwoDigit, ShownMonth;
  }

  lemma AddUtcDaysIs(t: int, days: int)
    ensures AddUtcDays(t, days) == Ms(ShownDay(DayOf(t)) + days)
    ensures AddUtcDays(t, days) == Ms(DayOf(t) + days) <==> !TwoDigit(DayOf(t))
  {
    UtcOfParts(t, 0, UtcDate(t) + days);
    PartsAreTheDate(t);
    ShownDayIs(DayOf(t));
    hide MonthStart, MonthOf, Utc, UtcYear, UtcMonth, UtcDate, DayOf, TwoDigit, ShownMonth;
  }

  /** Months are read as themselves exactly in the years that are. */
  lemma ShownMonthTells(day: int, months: int)
    ensures MonthStart(ShownMonth(MonthOf(day)) + months) == MonthStart(MonthOf(day) + months) <==> !TwoDigit(day)
  {
    hide MonthStart, MonthOf;
    TwoDigitMonth(day);
    MonthsInOrder(ShownMonth(MonthOf(day)) + months, MonthOf(day) + months);
  }

  lemma StartOfUtcMonthIs(t: int)
    ensures StartOfUtcMonth(t) == Ms(MonthStart(ShownMonth(MonthOf(DayOf(t)))))
    ensures StartOfUtcMonth(t) == Ms(MonthStart(MonthOf(DayOf(t)))) <==> !TwoDigit(DayOf(t))
  {
    UtcOfParts(t, 0, 1);
    ShownMonthTells(DayOf(t), 0);
    hide MonthStart, MonthOf, Utc, UtcYear, UtcMonth, UtcDate, DayOf, TwoDigit, ShownMonth;
  }

  lemma AddUtcMonthsIs(t: int, months: int)
    ensures AddUtcMonths(t, months) == Ms(MonthStart(ShownMonth(MonthOf(DayOf(t))) + months))
    ensures AddUtcMonths(t, months) == Ms(MonthStart(MonthOf(DayOf(t)) + months)) <==> !TwoDigit(DayOf(t))
  {
    UtcOfParts(t, months, 1);
    ShownMonthTells(DayOf(t), months);
    hide MonthStart, MonthOf, Utc, UtcYear, UtcMonth, UtcDate, DayOf, TwoDigit, ShownMonth;
  }

  /** From year 100 on. */
  predicate Late(day: int) {
    day >= YEAR_100
  }

  lemma LateIsShown(day: int)
    requires Late(day)
    ensures ShownDay(day) == day && ShownMonth(MonthOf(day)) == MonthOf(day) >= 1200
  {
    hide ShownDay, MonthOf;
    ShownDayIs(day);
    TwoDigitMonth(day);
  }

  /** A month starts in itself. */
  lemma MonthOfStart(k: int)
    ensures MonthOf(MonthStart(k)) == k
  {
    hide MonthStart, MonthOf;
    MonthsInOrder(k + 1, k);
    MonthOfIs(MonthStart(k), k);
  }

  /** The three ways a day is moved. */
  lemma DayArithmetic(day: int, days: int)
    ensures StartOfUtcDay(Ms(day)) == Ms(ShownDay(day))
    ensures AddUtcDays(Ms(day), days) == Ms(ShownDay(day) + days)
    ensures StartOfUtcMonth(Ms(day)) == Ms(MonthStart(ShownMonth(MonthOf(day))))
  {
    hide MonthOf, MonthStart, StartOfUtcDay, AddUtcDays, StartOfUtcMonth, ShownDay;
    DayOfMs(day);
    StartOfUtcDayIs(Ms(day));
    AddUtcDaysIs(Ms(day), days);
    StartOfUtcMonthIs(Ms(day));
    hide DayOf, Ms, TwoDigit, ShownMonth;
  }

  lemma MonthArithmetic(k: int, months: int)
    ensures AddUtcMonths(Ms(MonthStart(k)), months) == Ms(MonthStart(ShownMonth(k) + months))
  {
    hide MonthOf, MonthStart, AddUtcMonths;
    MonthOfStart(k);
    DayOfMs(MonthStart(k));
    AddUtcMonthsIs(Ms(MonthStart(k)), months);
    hide DayOf, Ms, TwoDigit, ShownMonth;
  }

  function FirstDay(preset: Preset, today: int): int
    requires preset.Today? || preset.Days? || preset.YearToDate?
  {
    if preset.Today? then today
    else if preset.Days? then today + 1 - preset.count
    else MonthStart(MonthOf(today) / 12 * 12)
  }

  lemma YearStart(now: int)
    requires Late(DayOf(now))
    ensures Utc(UtcYear(now), 0, 1) == Ms(MonthStart(MonthOf(DayOf(now)) / 12 * 12))
  {
    LateIsShown(DayOf(now));
    hide MonthOf, MonthStart, DayOf, Ms, Late, ShownDay;
    var y := UtcYear(now);
    assert 12 * y + 0 == y * 12;
  }

  /** The presets end today and hold 1, 7, 30 or 90 days, or the days since January 1st. */
  lemma PresetWindowIs(preset: Preset, now: int)
    requires (preset.Today? || preset.Days? || preset.YearToDate?) && Late(DayOf(now))
    ensures ResolveAnalyticsWindow(preset, Missing, Missing, now)
      == Ok(Some(DateRange(Ms(FirstDay(preset, DayOf(now))), Ms(DayOf(now) + 1))))
  {
    hide MonthOf, MonthStart, DayOf, Ms, StartOfUtcDay, AddUtcDays, Utc, UtcYear, Late, TwoDigit, ShownDay;
    LateIsShown(DayOf(now));
    StartOfUtcDayIs(now);
    DayArithmetic(DayOf(now), 1);
    if preset.Days? {
      DayArithmetic(DayOf(now), 1 - preset.count);
    }
    YearStart(now);
  }

  predicate Named(preset: Preset) {
    preset.Today? || preset.Days? || preset.YearToDate?
  }

  /** What is refused whatever the days are, and when no window is meant at all. */
  lemma RequestIsChecked(preset: Preset, from: Given, to: Given, now: int)
    ensures ResolveAnalyticsWindow(preset, from, to, now) == Ok(None)
      <==> preset.NoPreset? && from.Missing? && to.Missing?
    ensures preset.Other? ==> ResolveAnalyticsWindow(preset, from, to, now) == BadRequest
    ensures Named(preset) ==>
      (ResolveAnalyticsWindow(preset, from, to, now) == BadRequest <==> !from.Missing? || !to.Missing?)
    ensures preset.Custom? || (preset.NoPreset? && (!from.Missing? || !to.Missing?)) ==>
      (!from.At? || to.Malformed? ==> ResolveAnalyticsWindow(preset, from, to, now) == BadRequest)
  {
    hide StartOfUtcDay, AddUtcDays, AddUtcYears, PresetWindow;
  }

  /** The same date a year later, as `Date.UTC` reads that year; February 29th becomes March 1st. */
  function NextYear(day: int): int {
    MonthStart(ShownMonth(MonthOf(day) + 12)) + (day - MonthStart(MonthOf(day)))
  }

  lemma AddOneYearIs(day: int)
    ensures AddUtcYears(Ms(day), 1) == Ms(NextYear(day))
  {
    DayOfMs(day);
    hide MonthOf, MonthStart, DayOf, Ms;
    YearOn(MonthOf(day));
  }

  lemma YearOn(k: int)
    ensures 12 * (k / 12 + 1) + k % 12 == k + 12
    ensures 12 * (1900 + (k / 12 + 1)) + k % 12 == k + 12 + 22_800
    ensures 0 <= k / 12 + 1 <= 99 <==> 0 <= k + 12 < 1200
  {
  }

  lemma TwelveMonthsLater(k: int)
    ensures 365 <= MonthStart(k + 12) - MonthStart(k) <= 366
  {
    var y, m := k / 12, k % 12;
    YearLength(y);
    assert (k + 12) / 12 == y + 1 && (k + 12) % 12 == m;
    NoTwoLeapYears(y);
    hide DayFromYear, Leap;
  }

  lemma NoTwoLeapYears(y: int)
    ensures !(Leap(y) && Leap(y + 1))
  {
  }

  /** A day of the year before year 0: the year after it is read as 1900. */
  predicate BeforeYear0(day: int) {
    YEAR_0 - 365 <= day < YEAR_0
  }

  lemma BeforeYear0Month(day: int)
    ensures BeforeYear0(day) <==> -12 <= MonthOf(day) < 0
  {
    hide MonthOf, MonthStart;
    January(-1);
    January(0);
    BeforeMonth(day, -12);
    BeforeMonth(day, 0);
  }

  lemma NextYearIsAYear(day: int)
    ensures !TwoDigit(day) && !BeforeYear0(day) ==> 365 <= NextYear(day) - day <= 366
    ensures BeforeYear0(day) ==> NextYear(day) >= MonthStart(22_800)
  {
    hide MonthOf, MonthStart;
    TwoDigitMonth(day);
    BeforeYear0Month(day);
    MonthHolds(day);
    TwelveMonthsLater(MonthOf(day));
    if BeforeYear0(day) {
      MonthsInOrder(22_800, MonthOf(day) + 22_812);
    }
  }

  /** The last instant asked for by a custom range. */
  function LastInstant(to: Given, now: int): int {
    if to.At? then to.ms else now
  }

  /**
   * A custom range is accepted exactly when its first day is not after its last
   * and the last is less than a year later, and then it is those whole days; all
   * days as `Date.UTC` reads them.
   */
  lemma CustomWindowIs(from: int, to: Given, now: int)
    requires !to.Malformed?
    ensures var a, b := ShownDay(DayOf(from)), ShownDay(DayOf(LastInstant(to, now)));
      CustomWindow(from, to, now)
        == if a <= b < NextYear(a) then Ok(Some(DateRange(Ms(a), Ms(b + 1)))) else BadRequest
  {
    hide MonthOf, MonthStart, DayOf, Ms, StartOfUtcDay, AddUtcDays, AddUtcYears, NextYear, TwoDigit, ShownDay;
    var end := if to.At? then to.ms else now;
    StartOfUtcDayIs(from);
    StartOfUtcDayIs(end);
    var a, b := ShownDay(DayOf(from)), ShownDay(DayOf(end));
    ShownDayIs(DayOf(end));
    DayArithmetic(b, 1);
    AddOneYearIs(a);
    MsInOrder(b + 1, a);
    MsInOrder(b + 1, NextYear(a));
  }

  lemma MsInOrder(a: int, b: int)
    ensures Ms(a) <= Ms(b) <==> a <= b
  {
  }

  predicate Inside(t: int, range: DateRange) {
    range.start <= t < range.endExclusive
  }

  /**
   * An accepted custom range contains both instants asked for exactly when
   * neither year has two digits, or the range starts in the year before year 0;
   * it holds at most 366 days unless it starts in that year and goes beyond it.
   */
  lemma RequestIsInside(preset: Preset, from: int, to: Given, now: int)
    requires preset.NoPreset? || preset.Custom?
    requires !to.Malformed?
    requires ResolveAnalyticsWindow(preset, At(from), to, now).Ok?
    ensures ResolveAnalyticsWindow(preset, At(from), to, now).value.Some?
    ensures var range := ResolveAnalyticsWindow(preset, At(from), to, now).value.value;
      var a, b := DayOf(from), DayOf(LastInstant(to, now));
      && Ms(1) <= range.endExclusive - range.start
      && (Inside(from, range) && Inside(LastInstant(to, now), range)
          <==> !TwoDigit(a) && (!TwoDigit(b) || BeforeYear0(a)))
      && (range.endExclusive - range.start <= Ms(366) <==> !BeforeYear0(a) || BeforeYear0(b))
  {
    hide *;
    CustomIsWindow(preset, from, to, now);
    CustomWindowIs(from, to, now);
    WindowHolds(from, LastInstant(to, now));
  }

  lemma CustomIsWindow(preset: Preset, from: int, to: Given, now: int)
    requires (preset.NoPreset? || preset.Custom?) && !to.Malformed?
    ensures ResolveAnalyticsWindow(preset, At(from), to, now) == CustomWindow(from, to, now)
  {
    hide CustomWindow;
  }

  lemma WindowHolds(from: int, end: int)
    requires var a, b := ShownDay(DayOf(from)), ShownDay(DayOf(end)); a <= b < NextYear(a)
    ensures var range := DateRange(Ms(ShownDay(DayOf(from))), Ms(ShownDay(DayOf(end)) + 1));
      var a, b := DayOf(from), DayOf(end);
      && Ms(1) <= range.endExclusive - range.start
      && (Inside(from, range) && Inside(end, range) <==> !TwoDigit(a) && (!TwoDigit(b) || BeforeYear0(a)))
      && (range.endExclusive - range.start <= Ms(366) <==> !BeforeYear0(a) || BeforeYear0(b))
  {
    January(1900);
    hide MonthOf, MonthStart, ShownDay, NextYear;
    ShownDayIs(DayOf(from));
    ShownDayIs(DayOf(end));
    NextYearIsAYear(ShownDay(DayOf(from)));
  }

  /**
   * A default range holds 30 days or 12 months; a given one starts and ends with
   * the days, or months, given. `Date.UTC` reads every month, and the last day
   * where days are counted from it.
   */
  lemma DateRangeIs(period: Period, from: Option<int>, to: Option<int>, now: int)
    requires Late(DayOf(now))
    ensures var last := if to.Some? then to.value else DayOf(now);
      var result := ResolveDateRange(period, Day(from), Day(to), now);
      if period.Daily? then
        var first := if from.Some? then from.value else ShownDay(last) - 29;
        result == if first <= last then Ok(DateRange(Ms(first), Ms(ShownDay(last) + 1))) else BadRequest
      else
        var last := ShownMonth(MonthOf(last));
        var first := if from.Some? then ShownMonth(MonthOf(from.value)) else last - 11;
        result == if first <= last then Ok(DateRange(Ms(MonthStart(first)), Ms(MonthStart(last + 1)))) else BadRequest
  {
    hide MonthOf, MonthStart, DayOf, Ms, StartOfUtcDay, StartOfUtcMonth, AddUtcDays, AddUtcMonths, Late, TwoDigit,
      ShownDay;
    var last := if to.Some? then to.value else DayOf(now);
    LateIsShown(DayOf(now));
    StartOfUtcDayIs(now);
    StartOfUtcMonthIs(now);
    DayArithmetic(last, 1);
    DayArithmetic(last, -29);
    if period.Daily? {
      MsInOrder(if from.Some? then from.value else ShownDay(last) - 29, last);
    } else {
      if from.Some? {
        DayArithmetic(from.value, 0);
      }
      var month := ShownMonth(MonthOf(last));
      MonthArithmetic(month, 1);
      MonthArithmetic(month, -11);
      var first := if from.Some? then ShownMonth(MonthOf(from.value)) else month - 11;
      MonthsInOrder(first, month);
      MsInOrder(MonthStart(first), MonthStart(month));
    }
  }

  /** A text that is no date is refused. */
  lemma MalformedDates(period: Period, from: Given, to: Given, now: int)
    ensures from.Malformed? || to.Malformed? ==> ResolveDateRange(period, from, to, now) == BadRequest
  {
  }

  function Day(day: Option<int>): Given {
    if day.Some? then At(Ms(day.value)) else Missing
  }
}
