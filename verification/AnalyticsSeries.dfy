/** Current and previous spans (src/analytics/analytics.service.ts:118-139, 614-683, 778-788). */
module AnalyticsPeriods {
  import opened Wrappers
  import opened UtcCalendar
  import opened DateRange
  import opened DateRangeMeaning

  datatype Periods = Periods(current: DateRange, previous: DateRange)

  /** `Math.round` of the quotient. */
  function DiffUtcDays(start: int, end: int): int {
    (end - start + 43_200_000) / 86_400_000
  }

  function DiffUtcMonths(start: int, end: int): int {
    (UtcYear(end) - UtcYear(start)) * 12 + (UtcMonth(end) - UtcMonth(start))
  }

  function ResolveWindowPeriods(period: Period, window: DateRange): Periods {
    var current :=
      if period.Daily? then window
      else
        DateRange(StartOfUtcMonth(window.start),
                  AddUtcMonths(StartOfUtcMonth(AddUtcDays(window.endExclusive, -1)), 1));
    var previousStart :=
      if period.Daily? then AddUtcDays(current.start, -DiffUtcDays(current.start, current.endExclusive))
      else AddUtcMonths(current.start, -DiffUtcMonths(current.start, current.endExclusive));
    Periods(current, DateRange(previousStart, current.start))
  }

  /** The spans of the revenue report when no window is given; `from` and `to` are whole days. */
  function ResolveRevenueRanges(period: Period, from: Given, to: Given, now: int): Result<Periods> {
    if from.Malformed? || to.Malformed? then BadRequest
    else if period.Daily? then
      var currentEnd := if to.At? then to.ms else StartOfUtcDay(now);
      var currentStart := if from.At? then from.ms else AddUtcDays(currentEnd, -29);
      if currentStart > currentEnd then BadRequest
      else
        var spanDays := DiffUtcDays(currentStart, currentEnd) + 1;
        Ok(Periods(DateRange(currentStart, AddUtcDays(currentEnd, 1)),
                   DateRange(AddUtcDays(currentStart, -spanDays), currentStart)))
    else
      var currentEnd := if to.At? then StartOfUtcMonth(to.ms) else StartOfUtcMonth(now);
      var currentStart := if from.At? then StartOfUtcMonth(from.ms) else AddUtcMonths(currentEnd, -11);
      if currentStart > currentEnd then BadRequest
      else
        var spanMonths := DiffUtcMonths(currentStart, currentEnd) + 1;
        Ok(Periods(DateRange(currentStart, AddUtcMonths(currentEnd, 1)),
                   DateRange(AddUtcMonths(currentStart, -spanMonths), currentStart)))
  }

  /** Spans of whole days, or of whole months, by the numbers of their first and of the one after their last. */
  function SpanOf(period: Period, first: int, end: int): DateRange {
    if period.Daily? then DateRange(Ms(first), Ms(end)) else DateRange(Ms(MonthStart(first)), Ms(MonthStart(end)))
  }

  /** Two spans next to each other, equally long in days or in months. */
  function Split(period: Period, first: int, end: int): Periods {
    Periods(SpanOf(period, first, end), SpanOf(period, first - (end - first), first))
  }

  lemma DaysApart(a: int, b: int)
    ensures DiffUtcDays(Ms(a), Ms(b)) == b - a
  {
  }

  lemma MonthsApart(i: int, j: int)
    ensures DiffUtcMonths(Ms(MonthStart(i)), Ms(MonthStart(j))) == j - i
  {
    hide MonthOf, MonthStart, DayOf, Ms;
    DayOfMs(MonthStart(i));
    DayOfMs(MonthStart(j));
    MonthOfStart(i);
    MonthOfStart(j);
    Quotients(i, j);
  }

  lemma Quotients(i: int, j: int)
    ensures (j / 12 - i / 12) * 12 + (j % 12 - i % 12) == j - i
  {
  }

  /** The number of the first and of the one after the last bucket of a window of days. */
  function FirstBucket(period: Period, day: int): int {
    if period.Daily? then day else MonthOf(day)
  }

  /** The two spans of a window of days. */
  function WindowSplit(period: Period, a: int, b: int): Periods {
    Split(period, FirstBucket(period, a), FirstBucket(period, b - 1) + 1)
  }

  /** Whether `Date.UTC` reads the days that the periods of a window are made from as they are. */
  predicate ReadPlainly(period: Period, a: int, b: int) {
    !TwoDigit(a) && (period.Monthly? ==> !TwoDigit(b - 1) && !TwoDigit(b))
  }

  /**
   * The current period of a window of whole days is made of the days, or of the
   * whole months, that the window touches, and the previous one ends where it
   * starts and is equally long, exactly when the days are read plainly.
   */
  lemma WindowPeriodsAre(period: Period, a: int, b: int)
    requires a < b
    ensures ResolveWindowPeriods(period, DateRange(Ms(a), Ms(b))) == WindowSplit(period, a, b)
      <==> ReadPlainly(period, a, b)
  {
    hide *;
    if period.Daily? {
      DailyPeriods(a, b);
    } else {
      MonthlyPeriods(a, b);
    }
  }

  lemma DailyPeriods(a: int, b: int)
    ensures ResolveWindowPeriods(Daily, DateRange(Ms(a), Ms(b)))
      == Periods(DateRange(Ms(a), Ms(b)), DateRange(Ms(ShownDay(a) - (b - a)), Ms(a)))
    ensures ResolveWindowPeriods(Daily, DateRange(Ms(a), Ms(b))) == WindowSplit(Daily, a, b)
      <==> ReadPlainly(Daily, a, b)
  {
    hide MonthOf, MonthStart, DayOf, AddUtcDays, TwoDigit, ShownDay, DiffUtcDays, Ms;
    DayArithmetic(a, -(b - a));
    DaysApart(a, b);
    ShownDayIs(a);
    MsTells(ShownDay(a) - (b - a), a - (b - a));
  }

  lemma MsTells(a: int, b: int)
    ensures Ms(a) == Ms(b) <==> a == b
  {
  }

  /** The first and the last month of the current period. */
  function FirstMonth(a: int): int {
    ShownMonth(MonthOf(a))
  }

  function LastMonth(b: int): int {
    ShownMonth(MonthOf(ShownDay(b) - 1))
  }

  lemma MonthlyPeriods(a: int, b: int)
    ensures ResolveWindowPeriods(Monthly, DateRange(Ms(a), Ms(b)))
      == Split(Monthly, FirstMonth(a), LastMonth(b) + 1)
    ensures ResolveWindowPeriods(Monthly, DateRange(Ms(a), Ms(b))) == WindowSplit(Monthly, a, b)
      <==> ReadPlainly(Monthly, a, b)
  {
    MonthlyPeriodsAre(a, b);
    FirstMonthIs(a);
    LastMonthIs(b);
    hide MonthOf, MonthStart, TwoDigit, ResolveWindowPeriods, Ms, FirstMonth, LastMonth, DayOf;
    SplitTells(FirstMonth(a), LastMonth(b) + 1, MonthOf(a), MonthOf(b - 1) + 1);
    hide Split;
  }

  /** Spans of months are the same exactly when their months are. */
  lemma SplitTells(i: int, j: int, k: int, l: int)
    ensures Split(Monthly, i, j) == Split(Monthly, k, l) <==> i == k && j == l
  {
    hide MonthStart;
    MonthsTell(i, k);
    MonthsTell(j, l);
  }

  lemma MonthsTell(i: int, j: int)
    ensures Ms(MonthStart(i)) == Ms(MonthStart(j)) <==> i == j
  {
    hide MonthStart;
    MonthsInOrder(i, j);
    MonthsInOrder(j, i);
  }

  lemma FirstMonthIs(a: int)
    ensures FirstMonth(a) == MonthOf(a) <==> !TwoDigit(a)
    ensures TwoDigit(a) ==> FirstMonth(a) >= 22_800
    ensures ShownMonth(FirstMonth(a)) == FirstMonth(a)
  {
    hide MonthOf, MonthStart;
    TwoDigitMonth(a);
  }

  lemma LastMonthIs(b: int)
    ensures LastMonth(b) == MonthOf(b - 1) <==> !TwoDigit(b - 1) && !TwoDigit(b)
    ensures TwoDigit(b - 1) || TwoDigit(b) ==> LastMonth(b) >= 22_799
    ensures ShownMonth(LastMonth(b)) == LastMonth(b)
  {
    hide MonthOf, MonthStart, ShownDay;
    ShownDayIs(b);
    TwoDigitMonth(b - 1);
    if TwoDigit(b) {
      MonthsAscend(22_799, 22_800);
      BeforeMonth(ShownDay(b) - 1, 22_799);
      FirstMonthIs(ShownDay(b) - 1);
    }
  }

  lemma MonthlyPeriodsAre(a: int, b: int)
    ensures ResolveWindowPeriods(Monthly, DateRange(Ms(a), Ms(b)))
      == Split(Monthly, FirstMonth(a), LastMonth(b) + 1)
  {
    FirstMonthIs(a);
    LastMonthIs(b);
    hide MonthOf, MonthStart, DayOf, Ms, StartOfUtcMonth, AddUtcDays, AddUtcMonths, DiffUtcMonths, ShownDay,
      ShownMonth, TwoDigit;
    DayArithmetic(a, 0);
    DayArithmetic(b, -1);
    DayArithmetic(ShownDay(b) - 1, 0);
    var i, j := FirstMonth(a), LastMonth(b) + 1;
    MonthArithmetic(j - 1, 1);
    MonthArithmetic(i, -(j - i));
    MonthsApart(i, j);
  }

  /** The window lies in a span that exceeds it by less than 31 days on either side. */
  predicate Encloses(range: DateRange, a: int, b: int) {
    && Ms(a - 31) < range.start <= Ms(a)
    && Ms(b) <= range.endExclusive < Ms(b + 31)
  }

  /** The current period contains the window, and exceeds it by less than a month, exactly when days read plainly. */
  lemma CurrentContainsWindow(period: Period, a: int, b: int)
    requires a < b
    ensures Encloses(ResolveWindowPeriods(period, DateRange(Ms(a), Ms(b))).current, a, b)
      <==> period.Daily? || ReadPlainly(period, a, b)
  {
    if period.Monthly? {
      hide *;
      MonthlyPeriods(a, b);
      Bounds(a, b);
    }
  }

  lemma Bounds(a: int, b: int)
    requires a < b
    ensures Encloses(Split(Monthly, FirstMonth(a), LastMonth(b) + 1).current, a, b) <==> ReadPlainly(Monthly, a, b)
  {
    hide MonthOf, MonthStart, FirstMonth, LastMonth, TwoDigit;
    FirstMonthIs(a);
    LastMonthIs(b);
    if ReadPlainly(Monthly, a, b) {
      MonthHolds(a);
      MonthHolds(b - 1);
      NextMonth(MonthOf(a));
      NextMonth(MonthOf(b - 1));
      hide MonthLength;
    } else {
      Beyond(a, FirstMonth(a));
      Beyond(b, LastMonth(b) + 1);
      Beyond(b - 1, LastMonth(b) + 1);
    }
  }

  /** A two-digit year lies more than a month before 1900. */
  lemma Beyond(day: int, k: int)
    requires TwoDigit(day) ==> k >= 22_800
    ensures TwoDigit(day) ==> MonthStart(k) >= day + 32
  {
    hide MonthStart;
    January(1900);
    MonthsInOrder(22_800, k);
  }

  // ── the revenue report ──

  function ShownBucket(period: Period, n: int): int {
    if period.Daily? then ShownDay(n) else ShownMonth(n)
  }

  /** The bucket of a given day: a day stays as it is, a month is read by `Date.UTC`. */
  function GivenBucket(period: Period, day: int): int {
    if period.Daily? then day else ShownMonth(MonthOf(day))
  }

  /** The spans of the buckets from `first` to `last`, each bound counted from a bucket that `Date.UTC` reads. */
  function RevenueSplit(period: Period, first: int, last: int): Periods {
    Periods(SpanOf(period, first, ShownBucket(period, last) + 1),
            SpanOf(period, ShownBucket(period, first) - (last - first + 1), first))
  }

  /**
   * The default and given revenue ranges are split in the same way, and refused
   * exactly when the first bucket comes after the last.
   */
  lemma RevenueRangesAre(period: Period, from: Option<int>, to: Option<int>, now: int)
    requires Late(DayOf(now))
    ensures var last := GivenBucket(period, if to.Some? then to.value else DayOf(now));
      var first := if from.Some? then GivenBucket(period, from.value)
        else ShownBucket(period, last) - if period.Daily? then 29 else 11;
      ResolveRevenueRanges(period, Day(from), Day(to), now)
        == if first <= last then Ok(RevenueSplit(period, first, last)) else BadRequest
  {
    hide ResolveRevenueRanges, RevenueSplit, MonthOf, MonthStart, DayOf, Late, Day, Ms;
    if period.Daily? {
      DailyRevenue(from, to, now);
    } else {
      MonthlyRevenue(from, to, now);
    }
  }

  lemma MalformedRevenueDates(period: Period, from: Given, to: Given, now: int)
    ensures from.Malformed? || to.Malformed? ==> ResolveRevenueRanges(period, from, to, now) == BadRequest
  {
  }

  /** They are two spans next to each other and equally long exactly when both buckets are read as themselves. */
  lemma RevenueSplitIs(period: Period, first: int, last: int)
    ensures RevenueSplit(period, first, last) == Split(period, first, last + 1)
      <==> ShownBucket(period, first) == first && ShownBucket(period, last) == last
  {
    hide ShownBucket, MonthStart;
    MonthsTell(ShownBucket(period, last) + 1, last + 1);
    MonthsTell(ShownBucket(period, first) - (last - first + 1), first - (last - first + 1));
  }

  lemma DailyRevenue(from: Option<int>, to: Option<int>, now: int)
    requires Late(DayOf(now))
    ensures var last := if to.Some? then to.value else DayOf(now);
      var first := if from.Some? then from.value else ShownDay(last) - 29;
      ResolveRevenueRanges(Daily, Day(from), Day(to), now)
        == if first <= last then Ok(RevenueSplit(Daily, first, last)) else BadRequest
  {
    hide MonthOf, MonthStart, DayOf, Ms, StartOfUtcDay, AddUtcDays, Late, TwoDigit, DiffUtcDays, ShownDay;
    var last := if to.Some? then to.value else DayOf(now);
    var first := if from.Some? then from.value else ShownDay(last) - 29;
    LateIsShown(DayOf(now));
    StartOfUtcDayIs(now);
    DayArithmetic(last, 1);
    DayArithmetic(last, -29);
    DayArithmetic(first, -(last - first + 1));
    DaysApart(first, last);
    MsInOrder(first, last);
  }

  lemma MonthlyRevenue(from: Option<int>, to: Option<int>, now: int)
    requires Late(DayOf(now))
    ensures var last := ShownMonth(MonthOf(if to.Some? then to.value else DayOf(now)));
      var first := if from.Some? then ShownMonth(MonthOf(from.value)) else ShownMonth(last) - 11;
      ResolveRevenueRanges(Monthly, Day(from), Day(to), now)
        == if first <= last then Ok(RevenueSplit(Monthly, first, last)) else BadRequest
  {
    hide MonthOf, MonthStart, DayOf, Ms, StartOfUtcMonth, AddUtcMonths, Late, TwoDigit, DiffUtcMonths, ShownDay;
    var day := if to.Some? then to.value else DayOf(now);
    StartOfUtcMonthIs(now);
    DayArithmetic(day, 0);
    if from.Some? {
      DayArithmetic(from.value, 0);
    }
    var last := ShownMonth(MonthOf(day));
    var first := if from.Some? then ShownMonth(MonthOf(from.value)) else ShownMonth(last) - 11;
    MonthArithmetic(last, 1);
    MonthArithmetic(last, -11);
    MonthArithmetic(first, -(last - first + 1));
    MonthsApart(first, last);
    MonthsInOrder(first, last);
    MsInOrder(MonthStart(first), MonthStart(last));
  }
}

/** Zero-filled series (src/analytics/analytics.service.ts:506-554, 685-737, 790-796). */
module AnalyticsSeries {
  import opened Wrappers
  import opened Text
  import opened DecimalStrings
  import opened UtcCalendar
  import opened DateRange
  import opened DateRangeMeaning
  import opened AnalyticsPeriods

  /** January 1st of year 10000. */
  const YEAR_10000 := 2_932_897

  /** `toISOString()` writes years from 0 to 9999 with four digits. */
  predicate FourDigitYear(day: int) {
    YEAR_0 <= day < YEAR_10000
  }

  lemma FourDigitMonth(day: int)
    ensures FourDigitYear(day) <==> 0 <= MonthOf(day) < 120_000
  {
    hide MonthOf, MonthStart;
    January(10_000);
    TwoDigitMonth(day);
    BeforeMonth(day, 120_000);
  }

  function Pad(n: nat, width: nat): string {
    PadStart(Digits(n), width)
  }

  /** The year in `toISOString()`: four digits, or a sign and six of them outside the years 0 to 9999. */
  function YearText(y: int): string {
    if 0 <= y <= 9999 then Pad(y, 4) else if y < 0 then "-" + Pad(-y, 6) else "+" + Pad(y, 6)
  }

  function IsoMonth(k: int): string {
    YearText(k / 12) + "-" + Pad(k % 12 + 1, 2)
  }

  /** `toISOString()` up to the date. */
  function IsoDay(day: int): string {
    IsoMonth(MonthOf(day)) + "-" + Pad(DateOf(day), 2)
  }

  function DateOf(day: int): nat {
    DateInMonth(day);
    UtcDate(Ms(day))
  }

  /** `slice(0, n)`. */
  function Slice(s: string, n: nat): string {
    if n <= |s| then s[..n] else s
  }

  function FormatMonth(t: int): string {
    Slice(IsoDay(DayOf(t)), 7)
  }

  function FormatDay(t: int): string {
    Slice(IsoDay(DayOf(t)), 10)
  }

  function Label(period: Period, t: int): string {
    if period.Daily? then FormatDay(t) else FormatMonth(t)
  }

  lemma PadIs(n: int, width: nat)
    requires 0 <= n < Pow10(width) && width >= 1
    ensures AllDigits(Pad(n, width)) && NatOf(Pad(n, width)) == n && |Pad(n, width)| == width
  {
    DigitsWidth(n, width);
    PadStartDenotes(n, width);
  }

  lemma PadTells(n: int, m: int, width: nat)
    requires 0 <= n < Pow10(width) && 0 <= m < Pow10(width) && width >= 1
    ensures |Pad(n, width)| == |Pad(m, width)| == width
    ensures Pad(n, width) == Pad(m, width) ==> n == m
  {
    PadIs(n, width);
    PadIs(m, width);
  }

  lemma Powers()
    ensures Pow10(2) == 100 && Pow10(4) == 10_000 && Pow10(6) == 1_000_000
  {
    assert Pow10(1) == 10 * Pow10(0);
    assert Pow10(3) == 10 * Pow10(2);
    assert Pow10(5) == 10 * Pow10(4);
  }

  lemma PartsOf(a: string, b: string, c: string, d: string)
    requires |a| == |c| && a + b == c + d
    ensures a == c && b == d
  {
    assert (a + b)[..|a|] == a && (c + d)[..|c|] == c;
    assert (a + b)[|a|..] == b && (c + d)[|c|..] == d;
  }

  lemma DateInMonth(day: int)
    ensures 1 <= UtcDate(Ms(day)) <= 31
    ensures UtcDate(Ms(day)) == day - MonthStart(MonthOf(day)) + 1
  {
    hide MonthOf, MonthStart;
    DayOfMs(day);
    MonthHolds(day);
    NextMonth(MonthOf(day));
  }

  lemma IsoMonthIs(k: int)
    requires 0 <= k < 120_000
    ensures |IsoMonth(k)| == 7
  {
    Powers();
    hide Pad, Pow10;
    PadTells(k / 12, 0, 4);
    PadTells(k % 12 + 1, 0, 2);
  }

  lemma IsoMonthsTell(i: int, j: int)
    requires 0 <= i < 120_000 && 0 <= j < 120_000
    ensures IsoMonth(i) == IsoMonth(j) ==> i == j
  {
    Powers();
    hide Pad, Pow10;
    PadTells(i / 12, j / 12, 4);
    PadTells(i % 12 + 1, j % 12 + 1, 2);
    if IsoMonth(i) == IsoMonth(j) {
      Assoc(Pad(i / 12, 4), "-", Pad(i % 12 + 1, 2));
      Assoc(Pad(j / 12, 4), "-", Pad(j % 12 + 1, 2));
      PartsOf(Pad(i / 12, 4), "-" + Pad(i % 12 + 1, 2), Pad(j / 12, 4), "-" + Pad(j % 12 + 1, 2));
      PartsOf("-", Pad(i % 12 + 1, 2), "-", Pad(j % 12 + 1, 2));
      Quotients(i, j);
    }
  }

  lemma SliceFront(a: string, b: string, n: nat)
    requires n == |a|
    ensures Slice(a + b, n) == a
  {
  }

  /** The month's label is all of its year and month. */
  lemma FormatMonthIs(t: int)
    requires FourDigitYear(DayOf(t))
    ensures FormatMonth(t) == IsoMonth(MonthOf(DayOf(t)))
  {
    hide *;
    var day := DayOf(t);
    FourDigitMonth(day);
    IsoMonthIs(MonthOf(day));
    FormatMonthCuts(t);
    Assoc(IsoMonth(MonthOf(day)), "-", Pad(DateOf(day), 2));
    SliceFront(IsoMonth(MonthOf(day)), "-" + Pad(DateOf(day), 2), 7);
  }

  lemma FormatMonthCuts(t: int)
    ensures FormatMonth(t) == Slice(IsoMonth(MonthOf(DayOf(t))) + "-" + Pad(DateOf(DayOf(t)), 2), 7)
    ensures FormatDay(t) == Slice(IsoMonth(MonthOf(DayOf(t))) + "-" + Pad(DateOf(DayOf(t)), 2), 10)
  {
    hide IsoMonth, MonthOf, Pad, DateOf, Slice;
  }

  /** Different months of the years 0 to 9999 have different labels, whatever the days. */
  lemma MonthLabelTells(t: int, u: int)
    requires FourDigitYear(DayOf(t)) && FourDigitYear(DayOf(u))
    ensures FormatMonth(t) == FormatMonth(u) <==> MonthOf(DayOf(t)) == MonthOf(DayOf(u))
  {
    hide *;
    FormatMonthIs(t);
    FormatMonthIs(u);
    FourDigitMonth(DayOf(t));
    FourDigitMonth(DayOf(u));
    IsoMonthsTell(MonthOf(DayOf(t)), MonthOf(DayOf(u)));
  }

  lemma DateTells(day: int)
    ensures |Pad(DateOf(day), 2)| == 2
    ensures DateOf(day) == day - MonthStart(MonthOf(day)) + 1 <= 31
  {
    Powers();
    DateInMonth(day);
    hide Pad, MonthOf, MonthStart, UtcDate, Pow10, Ms;
    PadTells(DateOf(day), 0, 2);
  }

  lemma FormatDayIs(t: int)
    requires FourDigitYear(DayOf(t))
    ensures FormatDay(t) == IsoMonth(MonthOf(DayOf(t))) + "-" + Pad(DateOf(DayOf(t)), 2)
  {
    hide *;
    var day := DayOf(t);
    FourDigitMonth(day);
    IsoMonthIs(MonthOf(day));
    DateTells(day);
    FormatMonthCuts(t);
    SliceFront(IsoMonth(MonthOf(day)) + "-" + Pad(DateOf(day), 2), "", 10);
    NothingMore(IsoMonth(MonthOf(day)) + "-" + Pad(DateOf(day), 2));
  }

  lemma NothingMore(a: string)
    ensures a + "" == a
  {
  }

  /** Different days of the years 0 to 9999 have different labels. */
  lemma DayLabelTells(t: int, u: int)
    requires FourDigitYear(DayOf(t)) && FourDigitYear(DayOf(u))
    ensures FormatDay(t) == FormatDay(u) <==> DayOf(t) == DayOf(u)
  {
    hide *;
    var a, b := DayOf(t), DayOf(u);
    FourDigitMonth(a);
    FourDigitMonth(b);
    FormatDayIs(t);
    FormatDayIs(u);
    DateTells(a);
    DateTells(b);
    IsoMonthIs(MonthOf(a));
    IsoMonthIs(MonthOf(b));
    if FormatDay(t) == FormatDay(u) {
      var x, y := IsoMonth(MonthOf(a)), IsoMonth(MonthOf(b));
      var p, q := Pad(DateOf(a), 2), Pad(DateOf(b), 2);
      Assoc(x, "-", p);
      Assoc(y, "-", q);
      PartsOf(x, "-" + p, y, "-" + q);
      PartsOf("-", p, "-", q);
      IsoMonthsTell(MonthOf(a), MonthOf(b));
      DatesTell(DateOf(a), DateOf(b));
    }
  }

  lemma DatesTell(a: nat, b: nat)
    requires a <= 31 && b <= 31
    ensures Pad(a, 2) == Pad(b, 2) ==> a == b
  {
    Powers();
    hide Pad, Pow10;
    PadTells(a, b, 2);
  }

  // ── what labels say ──

  /** A text like `2024-01`, for this year and month. */
  predicate SaysMonth(text: string, y: nat, m: nat) {
    && |text| == 7
    && AllDigits(text[..4]) && NatOf(text[..4]) == y
    && text[4] == '-'
    && AllDigits(text[5..]) && NatOf(text[5..]) == m
  }

  /** A text like `2024-01-31`, for this year, month and date. */
  predicate SaysDay(text: string, y: nat, m: nat, d: nat) {
    && |text| == 10 && SaysMonth(text[..7], y, m)
    && text[7] == '-'
    && AllDigits(text[8..]) && NatOf(text[8..]) == d
  }

  /** The text names the one month, January being 1, that the day lies in. */
  ghost predicate NamesMonthOf(text: string, day: int) {
    exists y: nat, m: nat ::
      SaysMonth(text, y, m) && 1 <= m <= 12 && MonthStart(12 * y + m - 1) <= day < MonthStart(12 * y + m)
  }

  /** The text names the day, by year, month and date. */
  ghost predicate NamesDay(text: string, day: int) {
    exists y: nat, m: nat, d: nat ::
      && SaysDay(text, y, m, d) && 1 <= m <= 12 && 1 <= d
      && MonthStart(12 * y + m - 1) + d - 1 == day < MonthStart(12 * y + m)
  }

  lemma IsoMonthSays(k: int)
    requires 0 <= k < 120_000
    ensures SaysMonth(IsoMonth(k), k / 12, k % 12 + 1)
  {
    Powers();
    PadIs(k / 12, 4);
    PadIs(k % 12 + 1, 2);
    hide Pad, Pow10, NatOf, AllDigits;
    var a, b := Pad(k / 12, 4), Pad(k % 12 + 1, 2);
    MonthParts(a, b);
  }

  lemma MonthParts(a: string, b: string)
    requires |a| == 4 && |b| == 2
    ensures var text := a + "-" + b;
      |text| == 7 && text[..4] == a && text[4] == '-' && text[5..] == b
  {
  }

  lemma DayParts(a: string, b: string)
    requires |a| == 7 && |b| == 2
    ensures var text := a + "-" + b;
      |text| == 10 && text[..7] == a && text[7] == '-' && text[8..] == b
  {
  }

  /** A month's label says the one month of the calendar, January being 1, that the instant lies in. */
  lemma MonthLabelSays(t: int)
    requires FourDigitYear(DayOf(t))
    ensures NamesMonthOf(FormatMonth(t), DayOf(t))
  {
    hide FormatMonth, MonthOf, MonthStart, DayOf, SaysMonth, FourDigitYear, IsoMonth;
    var k := MonthOf(DayOf(t));
    FourDigitMonth(DayOf(t));
    FormatMonthIs(t);
    IsoMonthSays(k);
    MonthHolds(DayOf(t));
    var y: nat, m: nat := k / 12, k % 12 + 1;
    Numbered(k);
    assert SaysMonth(FormatMonth(t), y, m);
  }

  lemma Numbered(k: int)
    ensures 12 * (k / 12) + (k % 12 + 1) - 1 == k
  {
  }

  /** A day's label says its year, month and date. */
  lemma DayLabelSays(t: int)
    requires FourDigitYear(DayOf(t))
    ensures NamesDay(FormatDay(t), DayOf(t))
  {
    hide FormatDay, MonthOf, MonthStart, DayOf, SaysMonth, FourDigitYear, IsoMonth, DateOf, Pad;
    var day := DayOf(t);
    var k := MonthOf(day);
    FourDigitMonth(day);
    FormatDayIs(t);
    IsoMonthSays(k);
    IsoMonthIs(k);
    DateTells(day);
    DateSays(DateOf(day));
    DayParts(IsoMonth(k), Pad(DateOf(day), 2));
    MonthHolds(day);
    var y: nat, m: nat := k / 12, k % 12 + 1;
    Numbered(k);
    assert SaysDay(FormatDay(t), y, m, DateOf(day));
  }

  lemma DateSays(d: nat)
    requires d <= 31
    ensures AllDigits(Pad(d, 2)) && NatOf(Pad(d, 2)) == d
  {
    Powers();
    PadIs(d, 2);
  }

  /** In a year that is written with a sign, all days of a month have the same label. */
  lemma SignedYearsCollide(t: int, u: int)
    requires !FourDigitYear(DayOf(t)) && MonthOf(DayOf(t)) == MonthOf(DayOf(u))
    requires -1_000_000 < MonthOf(DayOf(t)) / 12 < 1_000_000
    ensures FormatDay(t) == FormatDay(u)
  {
    hide *;
    var k := MonthOf(DayOf(t));
    FourDigitMonth(DayOf(t));
    SignedMonthIs(k);
    FormatMonthCuts(t);
    FormatMonthCuts(u);
    var p, q := Pad(DateOf(DayOf(t)), 2), Pad(DateOf(DayOf(u)), 2);
    Assoc(IsoMonth(k), "-", p);
    Assoc(IsoMonth(k), "-", q);
    SliceFront(IsoMonth(k), "-" + p, 10);
    SliceFront(IsoMonth(k), "-" + q, 10);
  }

  lemma SignedMonthIs(k: int)
    requires !(0 <= k < 120_000) && -1_000_000 < k / 12 < 1_000_000
    ensures |IsoMonth(k)| == 10
  {
    Powers();
    hide Pad, Pow10;
    PadTells(if k < 0 then -(k / 12) else k / 12, 0, 6);
    PadTells(k % 12 + 1, 0, 2);
  }

  // ── the series ──

  /** A grouped row of the query; the amount is a decimal text. */
  datatype Row = Row(bucket: string, count: nat, amount: string)

  datatype Value = Value(count: nat, amount: string)

  datatype Point = Point(date: string, count: nat, amount: string)

  const ZERO := "0.000000"

  /** `new Map(rows.map(...))`: of two rows with the same bucket the later counts. */
  function ValuesOf(rows: seq<Row>): map<string, Value> {
    if rows == [] then map[]
    else
      var row := rows[|rows| - 1];
      ValuesOf(rows[..|rows| - 1])[row.bucket := Value(row.count, NormalizeDecimal(row.amount))]
  }

  function PointAt(bucket: string, values: map<string, Value>): Point {
    if bucket in values then Point(bucket, values[bucket].count, values[bucket].amount) else Point(bucket, 0, ZERO)
  }

  /** When day number, or month number, `n` starts. */
  function BucketStart(period: Period, n: int): int {
    SpanOf(period, n, n).start
  }

  function LabelOf(period: Period, n: int): string {
    Label(period, BucketStart(period, n))
  }

  function SeriesOf(period: Period, first: int, end: int, values: map<string, Value>): seq<Point>
    requires first <= end
  {
    seq(end - first, i requires 0 <= i < end - first => PointAt(LabelOf(period, first + i), values))
  }

  /** The series of given buckets. */
  function PointsOf(period: Period, buckets: seq<int>, values: map<string, Value>): seq<Point> {
    seq(|buckets|, i requires 0 <= i < |buckets| => PointAt(LabelOf(period, buckets[i]), values))
  }

  lemma ShownGrows(period: Period, n: int)
    ensures ShownBucket(period, n) >= n
    ensures ShownBucket(period, n) == n <==> !TwoDigitBucket(period, n)
  {
    hide ShownDay, MonthStart;
    ShownDayIs(n);
    if TwoDigit(n) {
      ShownLate(n);
    }
  }

  predicate TwoDigitBucket(period: Period, n: int) {
    if period.Daily? then TwoDigit(n) else 0 <= n < 1200
  }

  /** The buckets that the series goes through: the next one follows what `Date.UTC` reads. */
  function Walk(period: Period, first: int, end: int): seq<int>
    decreases end - first
  {
    ShownGrows(period, first);
    if first < end then [first] + Walk(period, ShownBucket(period, first) + 1, end) else []
  }

  function Upto(first: int, end: int): seq<int>
    requires first <= end
  {
    seq(end - first, i requires 0 <= i < end - first => first + i)
  }

  /** The loop goes through every bucket once exactly when it does not go on from one of a two-digit year. */
  lemma {:induction false} WalkIsUpto(period: Period, first: int, end: int)
    requires first <= end
    ensures Walk(period, first, end) == Upto(first, end)
      <==> forall n | first <= n < end - 1 :: !TwoDigitBucket(period, n)
    decreases end - first
  {
    hide ShownBucket, TwoDigitBucket;
    ShownGrows(period, first);
    if first < end {
      UptoFront(first, end);
      var rest := Walk(period, ShownBucket(period, first) + 1, end);
      assert Walk(period, first, end) == [first] + rest;
      FrontTells(first, rest, Upto(first + 1, end));
      if first < end - 1 {
        if TwoDigitBucket(period, first) {
          WalkStarts(period, ShownBucket(period, first) + 1, end);
          assert Upto(first + 1, end)[0] == first + 1;
        } else {
          WalkIsUpto(period, first + 1, end);
        }
      }
    }
  }

  lemma WalkStarts(period: Period, first: int, end: int)
    ensures Walk(period, first, end) != [] ==> Walk(period, first, end)[0] == first
  {
  }

  lemma FrontTells(x: int, s: seq<int>, t: seq<int>)
    ensures [x] + s == [x] + t <==> s == t
  {
    assert ([x] + s)[1..] == s && ([x] + t)[1..] == t;
  }

  lemma UptoFront(first: int, end: int)
    requires first < end
    ensures Upto(first, end) == [first] + Upto(first + 1, end)
  {
  }

  lemma PointsAppend(period: Period, front: int, rest: seq<int>, values: map<string, Value>)
    ensures PointsOf(period, [front] + rest, values)
      == [PointAt(LabelOf(period, front), values)] + PointsOf(period, rest, values)
    ensures PointsOf(period, [], values) == []
  {
    hide LabelOf, PointAt;
  }

  lemma SeriesIsUpto(period: Period, first: int, end: int, values: map<string, Value>)
    requires first <= end
    ensures PointsOf(period, Upto(first, end), values) == SeriesOf(period, first, end, values)
  {
    hide LabelOf, PointAt;
  }

  lemma NextBucketIs(period: Period, n: int)
    ensures BucketStart(period, ShownBucket(period, n) + 1)
      == if period.Daily? then AddUtcDays(BucketStart(period, n), 1) else AddUtcMonths(BucketStart(period, n), 1)
  {
    hide MonthStart, AddUtcDays, AddUtcMonths, Ms, ShownDay, ShownMonth;
    DayArithmetic(n, 1);
    MonthArithmetic(n, 1);
  }

  lemma BucketsInOrder(period: Period, i: int, j: int)
    ensures BucketStart(period, i) < BucketStart(period, j) <==> i < j
  {
    hide MonthStart;
    MonthsInOrder(j, i);
  }

  method MapOf(rows: seq<Row>) returns (values: map<string, Value>)
    ensures values == ValuesOf(rows)
  {
    hide NormalizeDecimal;
    values := map[];
    for k := 0 to |rows|
      invariant values == ValuesOf(rows[..k])
    {
      assert rows[..k + 1][..k] == rows[..k];
      values := values[rows[k].bucket := Value(rows[k].count, NormalizeDecimal(rows[k].amount))];
    }
    assert rows[..|rows|] == rows;
  }

  /**
   * The series of a range: the buckets that the loop goes through, with the rows'
   * numbers where there are any. They are the days, or months, of the range once
   * each and in order exactly when the loop does not go on from a two-digit year.
   * `first` and `end` are the numbers of the first bucket and of the one after the last.
   */
  method BuildSeries(period: Period, range: DateRange, rows: seq<Row>, ghost first: int, ghost end: int)
    returns (series: seq<Point>)
    requires range == SpanOf(period, first, end)
    ensures series == PointsOf(period, Walk(period, first, end), ValuesOf(rows))
    ensures first <= end && (forall n | first <= n < end - 1 :: !TwoDigitBucket(period, n)) ==>
      series == SeriesOf(period, first, end, ValuesOf(rows))
  {
    hide *;
    hide AddUtcDays, AddUtcMonths, FormatDay, FormatMonth;
    var values := MapOf(rows);
    series := [];
    var cursor := range.start;
    ghost var n := first;
    SpanEnds(period, first, end);
    ghost var whole := PointsOf(period, Walk(period, first, end), values);
    assert series + whole == whole;
    while cursor < range.endExclusive
      invariant cursor == BucketStart(period, n)
      invariant series + PointsOf(period, Walk(period, n, end), values) == whole
      decreases end - n
    {
      BucketsInOrder(period, n, end);
      LabelIs(period, n);
      PointIs(LabelOf(period, n), values);
      WalkOn(period, n, end, values);
      var bucket := if period.Daily? then FormatDay(cursor) else FormatMonth(cursor);
      var point :=
        if bucket in values then Point(bucket, values[bucket].count, values[bucket].amount) else Point(bucket, 0, ZERO);
      PointsAssoc(series, [point], PointsOf(period, Walk(period, ShownBucket(period, n) + 1, end), values));
      series := series + [point];
      NextBucketIs(period, n);
      ShownGrows(period, n);
      cursor := if period.Daily? then AddUtcDays(cursor, 1) else AddUtcMonths(cursor, 1);
      n := ShownBucket(period, n) + 1;
    }
    BucketsInOrder(period, n, end);
    WalkEnds(period, n, end, values);
    assert series + [] == series;
    if first <= end {
      WalkIsUpto(period, first, end);
      SeriesIsUpto(period, first, end, values);
    }
  }

  lemma PointIs(bucket: string, values: map<string, Value>)
    ensures PointAt(bucket, values)
      == if bucket in values then Point(bucket, values[bucket].count, values[bucket].amount) else Point(bucket, 0, ZERO)
  {
  }

  lemma WalkOn(period: Period, n: int, end: int, values: map<string, Value>)
    requires n < end
    ensures PointsOf(period, Walk(period, n, end), values)
      == [PointAt(LabelOf(period, n), values)] + PointsOf(period, Walk(period, ShownBucket(period, n) + 1, end), values)
  {
    hide ShownBucket, PointsOf, LabelOf, PointAt;
    PointsAppend(period, n, Walk(period, ShownBucket(period, n) + 1, end), values);
  }

  lemma WalkEnds(period: Period, n: int, end: int, values: map<string, Value>)
    requires n >= end
    ensures PointsOf(period, Walk(period, n, end), values) == []
  {
  }

  lemma PointsAssoc(a: seq<Point>, b: seq<Point>, c: seq<Point>)
    ensures a + (b + c) == (a + b) + c
  {
  }

  lemma SpanEnds(period: Period, first: int, end: int)
    ensures SpanOf(period, first, end) == DateRange(BucketStart(period, first), BucketStart(period, end))
  {
  }

  lemma LabelIs(period: Period, n: int)
    ensures LabelOf(period, n)
      == if period.Daily? then FormatDay(BucketStart(period, n)) else FormatMonth(BucketStart(period, n))
  {
  }

  // ── sums ──

  /** What is summed up: the counts, or the amounts in millionths. */
  datatype Measure = Counts | Units

  function OrZero(units: Option<int>): int {
    match units case Some(n) => n case None => 0
  }

  /** A point's amount is a normalized text already. */
  function PointWorth(point: Point, measure: Measure): int {
    if measure.Counts? then point.count else OrZero(UnitsOfNormalized(point.amount))
  }

  function RowWorth(row: Row, measure: Measure): int {
    if measure.Counts? then row.count else OrZero(DecimalToUnits(row.amount))
  }

  function TotalOf(series: seq<Point>, measure: Measure): int {
    if series == [] then 0 else TotalOf(series[..|series| - 1], measure) + PointWorth(series[|series| - 1], measure)
  }

  predicate InRange(period: Period, first: int, end: int, bucket: string) {
    exists n | first <= n < end :: LabelOf(period, n) == bucket
  }

  /** What the rows with a bucket in the range are worth together. */
  function RowTotal(rows: seq<Row>, period: Period, first: int, end: int, measure: Measure): int {
    if rows == [] then 0
    else
      var row := rows[|rows| - 1];
      RowTotal(rows[..|rows| - 1], period, first, end, measure)
        + if InRange(period, first, end, row.bucket) then RowWorth(row, measure) else 0
  }

  /** GROUP BY: no two rows have the same bucket. */
  predicate Grouped(rows: seq<Row>) {
    forall i, j | 0 <= i < j < |rows| :: rows[i].bucket != rows[j].bucket
  }

  predicate Labelled(period: Period, n: int) {
    if period.Daily? then FourDigitYear(n) else 0 <= n < 120_000
  }

  /** The label of a bucket names its day or its month. */
  lemma BucketLabelSays(period: Period, n: int)
    requires Labelled(period, n)
    ensures period.Daily? ==> NamesDay(LabelOf(period, n), n)
    ensures period.Monthly? ==> SaysMonth(LabelOf(period, n), n / 12, n % 12 + 1)
  {
    hide MonthOf, MonthStart, FormatMonth, FormatDay, SaysMonth, NamesDay, IsoMonth, FourDigitYear;
    if period.Daily? {
      DayOfMs(n);
      DayLabelSays(Ms(n));
    } else {
      DayOfMs(MonthStart(n));
      MonthOfStart(n);
      FourDigitMonth(MonthStart(n));
      FormatMonthIs(Ms(MonthStart(n)));
      IsoMonthSays(n);
    }
    hide Ms, DayOf;
  }

  /** Different buckets have different labels. */
  lemma LabelTells(period: Period, i: int, j: int)
    requires Labelled(period, i) && Labelled(period, j)
    ensures LabelOf(period, i) == LabelOf(period, j) ==> i == j
  {
    hide MonthOf, MonthStart, FormatDay, FormatMonth;
    if period.Daily? {
      DayOfMs(i);
      DayOfMs(j);
      DayLabelTells(Ms(i), Ms(j));
    } else {
      DayOfMs(MonthStart(i));
      DayOfMs(MonthStart(j));
      MonthOfStart(i);
      MonthOfStart(j);
      FourDigitMonth(MonthStart(i));
      FourDigitMonth(MonthStart(j));
      MonthLabelTells(Ms(MonthStart(i)), Ms(MonthStart(j)));
    }
    hide Ms, DayOf;
  }

  predicate HasBucket(rows: seq<Row>, bucket: string) {
    exists i | 0 <= i < |rows| :: rows[i].bucket == bucket
  }

  lemma HasAppend(front: seq<Row>, row: Row, bucket: string)
    ensures HasBucket(front + [row], bucket) <==> HasBucket(front, bucket) || row.bucket == bucket
  {
    assert (front + [row])[|front|] == row;
    assert forall i | 0 <= i < |front| :: (front + [row])[i] == front[i];
  }

  lemma {:induction false} BucketsOfValues(rows: seq<Row>, bucket: string)
    ensures bucket in ValuesOf(rows) <==> HasBucket(rows, bucket)
  {
    hide NormalizeDecimal, HasBucket;
    if rows == [] {
      hide ValuesOf;
      NoBucket(bucket);
    } else {
      var front, row := rows[..|rows| - 1], rows[|rows| - 1];
      BucketsOfValues(front, bucket);
      HasAppend(front, row, bucket);
      assert rows == front + [row];
    }
  }

  lemma NoBucket(bucket: string)
    ensures !HasBucket([], bucket) && bucket !in ValuesOf([])
  {
  }

  lemma ZeroIsNothing(bucket: string, measure: Measure)
    ensures PointWorth(Point(bucket, 0, ZERO), measure) == 0
  {
    ZeroUnits();
  }

  lemma PadIsZeros()
    ensures Zeros(1) == "0" && Zeros(6) == PAD
  {
    assert Zeros(1) == "0" + Zeros(0);
    assert Zeros(3) == "0" + ("0" + Zeros(1));
    assert Zeros(6) == "0" + ("0" + ("0" + Zeros(3)));
  }

  lemma ZeroUnits()
    ensures UnitsOfNormalized(ZERO) == Some(0)
  {
    PadIsZeros();
    hide Zeros, NatOf, AllDigits, UnitsOfNormalized;
    NatOfZeros(1);
    NatOfZeros(6);
    UnitsOfNormal("", "0", PAD);
    assert "" + "0" + "." + PAD == ZERO;
  }

  /** The point of a bucket is worth what its row is, or nothing. */
  lemma PointIsRow(bucket: string, front: seq<Row>, row: Row, measure: Measure)
    requires !HasBucket(front, row.bucket)
    ensures PointWorth(PointAt(bucket, ValuesOf(front + [row])), measure)
      == PointWorth(PointAt(bucket, ValuesOf(front)), measure)
         + if row.bucket == bucket then RowWorth(row, measure) else 0
  {
    BucketsOfValues(front, row.bucket);
    assert (front + [row])[..|front|] == front;
    ZeroIsNothing(bucket, measure);
    hide HasBucket, UnitsOfNormalized, NormalizeDecimal;
  }

  lemma GroupedFront(front: seq<Row>, row: Row)
    requires Grouped(front + [row])
    ensures Grouped(front) && !HasBucket(front, row.bucket)
  {
    var rows := front + [row];
    assert forall i | 0 <= i < |front| :: rows[i] == front[i];
    assert rows[|front|] == row;
  }

  lemma RowTotalAppend(front: seq<Row>, row: Row, period: Period, first: int, end: int, measure: Measure)
    ensures RowTotal(front + [row], period, first, end, measure) == RowTotal(front, period, first, end, measure)
      + if InRange(period, first, end, row.bucket) then RowWorth(row, measure) else 0
  {
    assert (front + [row])[..|front|] == front;
    hide InRange, RowWorth;
  }

  lemma NoRows(period: Period, first: int, end: int, measure: Measure)
    ensures RowTotal([], period, first, end, measure) == 0
  {
  }

  lemma NoPoint(bucket: string, measure: Measure)
    ensures PointWorth(PointAt(bucket, ValuesOf([])), measure) == 0
  {
    assert PointAt(bucket, map[]) == Point(bucket, 0, ZERO);
    hide PointWorth;
    ZeroIsNothing(bucket, measure);
  }

  /** One bucket more adds what its row is worth. */
  lemma {:induction false} OneBucketMore(rows: seq<Row>, period: Period, first: int, end: int, measure: Measure)
    requires Grouped(rows) && !InRange(period, first, end, LabelOf(period, end)) && first <= end
    ensures RowTotal(rows, period, first, end + 1, measure) == RowTotal(rows, period, first, end, measure)
      + PointWorth(PointAt(LabelOf(period, end), ValuesOf(rows)), measure)
  {
    hide *;
    if rows == [] {
      NoRows(period, first, end, measure);
      NoRows(period, first, end + 1, measure);
      NoPoint(LabelOf(period, end), measure);
    } else {
      var front, row := rows[..|rows| - 1], rows[|rows| - 1];
      assert rows == front + [row];
      GroupedFront(front, row);
      OneBucketMore(front, period, first, end, measure);
      PointIsRow(LabelOf(period, end), front, row, measure);
      RowTotalAppend(front, row, period, first, end, measure);
      RowTotalAppend(front, row, period, first, end + 1, measure);
      RangeGrows(period, first, end, row.bucket);
    }
  }

  lemma RangeGrows(period: Period, first: int, end: int, bucket: string)
    requires first <= end
    ensures InRange(period, first, end + 1, bucket) <==>
      InRange(period, first, end, bucket) || LabelOf(period, end) == bucket
  {
    hide LabelOf;
  }

  /** The counts, and the amounts, of the series add up to those of the rows of its range. */
  lemma {:induction false} SeriesAddsUp(rows: seq<Row>, period: Period, first: int, end: int, measure: Measure)
    requires Grouped(rows) && first <= end
    requires forall n | first <= n < end :: Labelled(period, n)
    ensures TotalOf(SeriesOf(period, first, end, ValuesOf(rows)), measure)
      == RowTotal(rows, period, first, end, measure)
    decreases end - first
  {
    hide LabelOf, Labelled, ValuesOf, PointWorth, RowWorth;
    if first == end {
      NothingInRange(rows, period, first, measure);
    } else {
      SeriesAddsUp(rows, period, first, end - 1, measure);
      forall n | first <= n < end - 1 ensures LabelOf(period, n) != LabelOf(period, end - 1) {
        LabelTells(period, n, end - 1);
      }
      OneBucketMore(rows, period, first, end - 1, measure);
      var shorter := SeriesOf(period, first, end - 1, ValuesOf(rows));
      assert SeriesOf(period, first, end, ValuesOf(rows))
        == shorter + [PointAt(LabelOf(period, end - 1), ValuesOf(rows))];
      assert (shorter + [PointAt(LabelOf(period, end - 1), ValuesOf(rows))])[..|shorter|] == shorter;
    }
  }

  lemma {:induction false} NothingInRange(rows: seq<Row>, period: Period, first: int, measure: Measure)
    ensures RowTotal(rows, period, first, first, measure) == 0
  {
    if rows != [] {
      NothingInRange(rows[..|rows| - 1], period, first, measure);
    }
  }

  /** Every instant of a range falls into exactly one bucket of the series. */
  lemma OneBucketPerInstant(period: Period, first: int, end: int, t: int)
    requires SpanOf(period, first, end).start <= t < SpanOf(period, first, end).endExclusive
    requires forall n | first <= n < end :: Labelled(period, n)
    ensures exists n | first <= n < end ::
      && LabelOf(period, n) == Label(period, t)
      && forall m | first <= m < end && m != n :: LabelOf(period, m) != Label(period, t)
  {
    var n := BucketOf(period, first, end, t);
    forall m | first <= m < end && m != n ensures LabelOf(period, m) != LabelOf(period, n) {
      LabelTells(period, m, n);
    }
  }

  lemma BucketOf(period: Period, first: int, end: int, t: int) returns (n: int)
    requires SpanOf(period, first, end).start <= t < SpanOf(period, first, end).endExclusive
    requires forall n | first <= n < end :: Labelled(period, n)
    ensures first <= n < end && LabelOf(period, n) == Label(period, t)
  {
    hide MonthOf, MonthStart, Slice, IsoDay, FormatMonth;
    if period.Daily? {
      n := DayOf(t);
      DayOfMs(n);
    } else {
      n := MonthOf(DayOf(t));
      MonthHolds(DayOf(t));
      MonthOfStart(n);
      DayOfMs(MonthStart(n));
      MonthsInOrder(n + 1, first);
      MonthsInOrder(end, n);
      assert Labelled(period, n);
      FourDigitMonth(DayOf(t));
      FourDigitMonth(MonthStart(n));
      MonthLabelTells(Ms(MonthStart(n)), t);
    }
  }
}
