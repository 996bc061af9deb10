/** What becomes of every period expression of app/agent/period_resolver.py, as a table on the
    expression and the current moment: it overflows, it is refused, it begins before the first
    moment that UTC can represent, or it is too long; and which instants it holds. */
module PeriodFates {
  import opened Common
  import opened PeriodResolving

  /** Years that do not fit 32 bits overflow; others outside 1 to 9999 are refused. */
  const LEAST_YEAR: int := -0x8000_0000

  const EARLIEST: int := TOKYO_OFFSET

  const LIMIT_DAYS: int := 90

  function UnitLength(unit: Unit): int {
    match unit
    case Hours => HOUR
    case Days => DAY
    case Weeks => 7 * DAY
    case Months => 0
    case Years => 0
  }

  predicate IsCalendarUnit(unit: Unit) {
    unit == Months || unit == Years
  }

  function MonthsIn(count: int, unit: Unit): int {
    if unit == Years then 12 * count else count
  }

  // --- The table ---

  /** OverflowError while the expression is read. */
  predicate Overflows(token: Token, now: DateTime)
    requires now.Valid()
  {
    match token
    case Yesterday => now.DayNumber() < 1
    case DayBeforeYesterday => now.DayNumber() < 2
    case LastWeek => now.DayNumber() < 7
    case LastWeekend => now.DayNumber() < 7
    case Rolling(count, unit) =>
      count > 0 && if IsCalendarUnit(unit) then now.Index() - MonthsIn(count, unit) < 12 * LEAST_YEAR
                   else now.Instant() < count * UnitLength(unit)
    case ExplicitDay(year, month, day) => year == 9999 && month == 12 && day == 31
    case MonthDay(month, day) => now.year == 9999 && month == 12 && day == 31
    case _ => false
  }

  /** ValueError: an empty period or an impossible date. */
  predicate Refused(token: Token, now: DateTime)
    requires now.Valid()
  {
    match token
    case Today => now.micros == 0
    case ThisWeek => now.DayNumber() % 7 == 0 && now.micros == 0
    case ThisMonth => now.day == 1 && now.micros == 0
    case ThisYear => now.month == 1 && now.day == 1 && now.micros == 0
    case LastMonth => now.Index() == 12
    case LastYear => now.year == 1
    case Rolling(count, unit) =>
      count == 0 || (IsCalendarUnit(unit) && 12 * LEAST_YEAR <= now.Index() - MonthsIn(count, unit) < 12)
    case ExplicitDay(year, month, day) => !ValidDate(year, month, day)
    case ExplicitMonth(year, month) => !ValidDate(year, month, 1) || (year == 9999 && month == 12)
    case MonthDay(month, day) => !ValidDate(now.year, month, day)
    case _ => false
  }

  predicate Returns(token: Token, now: DateTime)
    requires now.Valid()
  {
    !Overflows(token, now) && !Refused(token, now)
  }

  /** The period begins before 0001-01-01 09:00, so converting it to UTC overflows. */
  predicate StartsEarly(token: Token, now: DateTime)
    requires now.Valid()
  {
    match token
    case Today => now.DayNumber() == 0
    case Yesterday => now.DayNumber() == 1
    case DayBeforeYesterday => now.DayNumber() == 2
    case ThisWeek => now.DayNumber() < 7
    case LastWeek => now.DayNumber() < 14
    case LastWeekend => false
    case ThisMonth => now.Index() == 12
    case LastMonth => now.Index() == 13
    case ThisYear => now.year == 1
    case LastYear => now.year == 2
    case Rolling(count, unit) =>
      if IsCalendarUnit(unit) then now.Index() - MonthsIn(count, unit) == 12 && now.day == 1 && now.micros < EARLIEST
      else now.Instant() < count * UnitLength(unit) + EARLIEST
    case ExplicitDay(year, month, day) => year == 1 && month == 1 && day == 1
    case ExplicitMonth(year, month) => year == 1 && month == 1
    case MonthDay(month, day) => now.year == 1 && month == 1 && day == 1
  }

  /** How many days a shift by some months goes back. */
  function DaysBack(now: DateTime, months: int): int
    requires now.Valid() && now.Index() - months >= 12
  {
    var index := now.Index() - months;
    MonthStart(now.Index()) + now.day - MonthStart(index) - Min(now.day, DaysInMonth(index / 12, index % 12 + 1))
  }

  /** The period is longer than ninety days. */
  predicate IsTooLong(token: Token, now: DateTime)
    requires now.Valid()
  {
    match token
    case ThisYear => now.Instant() > (MonthStart(MonthIndex(now.year, 1)) + LIMIT_DAYS) * DAY
    case LastYear => true
    case Rolling(count, Months) => now.Index() - count >= 12 && DaysBack(now, count) > LIMIT_DAYS
    case Rolling(count, Years) => true
    case Rolling(count, unit) => count * UnitLength(unit) > LIMIT_DAYS * DAY
    case _ => false
  }

  // --- The table is right ---

  /** One expression has the fate that the table gives it. */
  predicate FateIsRight(token: Token, now: DateTime)
    requires now.Valid()
  {
    var p := ResolveToken(token, now);
    && (p == OverflowError <==> Overflows(token, now))
    && (p == ValueError <==> !Overflows(token, now) && Refused(token, now))
    && (p.Done? ==> (p.value.start < EARLIEST <==> StartsEarly(token, now)))
    && (p.Done? ==> (p.value.end - p.value.start > LIMIT_DAYS * DAY <==> IsTooLong(token, now)))
  }

  lemma DayFate(token: Token, now: DateTime)
    requires now.Valid() && (token.Today? || token.Yesterday? || token.DayBeforeYesterday?)
    ensures FateIsRight(token, now)
  {
  }

  lemma WeekStartsBefore(now: DateTime)
    requires now.Valid()
    ensures WeekStart(now) == 7 * (now.DayNumber() / 7) * 86_400_000_000
    ensures WeekStart(now) == now.Instant() <==> now.DayNumber() % 7 == 0 && now.micros == 0
    ensures 0 <= WeekStart(now) <= now.Instant() < WeekStart(now) + 7 * DAY
  {
    WeekArithmetic(now.DayNumber());
  }

  /** The first two weeks of the calendar, and all after them. */
  lemma WeekStartByWeeks(now: DateTime)
    requires now.Valid()
    ensures now.DayNumber() < 7 ==> WeekStart(now) == 0
    ensures 7 <= now.DayNumber() < 14 ==> WeekStart(now) == 604_800_000_000
    ensures now.DayNumber() >= 14 ==> WeekStart(now) >= 1_209_600_000_000
    ensures WeekStart(now) == now.Instant() <==> now.DayNumber() % 7 == 0 && now.micros == 0
    ensures 0 <= WeekStart(now) <= now.Instant() < WeekStart(now) + 604_800_000_000
  {
    WeekStartsBefore(now);
  }

  lemma ThisWeekFate(now: DateTime)
    requires now.Valid()
    ensures FateIsRight(ThisWeek, now)
  {
    WeekStartByWeeks(now);
  }

  lemma LastWeekFate(now: DateTime)
    requires now.Valid()
    ensures FateIsRight(LastWeek, now)
  {
    WeekStartByWeeks(now);
  }

  lemma LastWeekendFate(now: DateTime)
    requires now.Valid()
    ensures FateIsRight(LastWeekend, now)
  {
    WeekStartByWeeks(now);
  }

  lemma {:induction false} FirstMonthOnly(index: int)
    requires index >= 12
    ensures MonthStart(index) == 0 <==> index == 12
    ensures index > 12 ==> MonthStart(index) >= 28
  {
    MonthsAreLong(12, index);
  }

  lemma {:induction false} ThisMonthFate(now: DateTime)
    requires now.Valid()
    ensures FateIsRight(ThisMonth, now)
  {
    FirstOfMonth(now.year, now.month);
    FirstMonthOnly(now.Index());
  }

  lemma {:induction false} PreviousMonthOutcome(now: DateTime)
    requires now.Valid()
    ensures var p := PreviousMonth(now);
            && p != OverflowError && (p == ValueError <==> now.Index() == 12)
            && (p.Done? ==> now.Index() > 12 && p.value == MonthSpan(now.Index() - 1))
  {
    var first := DateTime(now.year, now.month, 1, 0);
    var shifted := ShiftMonths(first, -1);
    if shifted.Done? {
      ShiftMovesIndex(first, -1);
      EarlierMonth(shifted.value, first);
      PreviousMonthSpan(now);
    }
  }

  lemma {:induction false} LastMonthFate(now: DateTime)
    requires now.Valid()
    ensures FateIsRight(LastMonth, now)
  {
    MonthTokens(1, 1, now);
    PreviousMonthOutcome(now);
    if now.Index() > 12 {
      FirstMonthOnly(now.Index() - 1);
      MonthsAreLong(now.Index() - 1, now.Index());
    }
  }

  lemma {:induction false} ThisYearFate(now: DateTime)
    requires now.Valid()
    ensures FateIsRight(ThisYear, now)
  {
    FirstOfMonth(now.year, 1);
    FirstMonthOnly(MonthIndex(now.year, 1));
    if now.month > 1 {
      MonthsAreLong(MonthIndex(now.year, 1), now.Index());
    }
  }

  lemma {:induction false} LastYearFate(now: DateTime)
    requires now.Valid()
    ensures FateIsRight(LastYear, now)
  {
    if now.year > 1 {
      LastYearIsLong(now);
      FirstOfMonth(now.year - 1, 1);
      FirstMonthOnly(MonthIndex(now.year - 1, 1));
    }
  }

  lemma ClockFate(count: nat, unit: Unit, now: DateTime)
    requires now.Valid() && !IsCalendarUnit(unit)
    ensures FateIsRight(Rolling(count, unit), now)
  {
  }

  lemma ShiftOutcome(now: DateTime, months: nat)
    requires now.Valid()
    ensures var shifted := ShiftMonths(now, -(months as int));
            && (shifted == OverflowError <==> now.Index() - months < 12 * LEAST_YEAR)
            && (shifted == ValueError <==> 12 * LEAST_YEAR <= now.Index() - months < 12)
  {
  }

  lemma ShiftedFields(now: DateTime, months: nat)
    requires now.Valid() && ShiftMonths(now, -(months as int)).Done?
    ensures var back := ShiftMonths(now, -(months as int)).value;
            var index := now.Index() - months;
            back.Index() == index && back.micros == now.micros
            && back.day == Min(now.day, DaysInMonth(index / 12, index % 12 + 1))
  {
    ShiftMovesIndex(now, -(months as int));
  }

  lemma DayFromFields(date: DateTime, index: int, day: int)
    requires date.Valid() && date.Index() == index && date.day == day
    ensures index >= 12 && date.DayNumber() == MonthStart(index) + day - 1
  {
  }

  lemma {:induction false} ShiftedDay(now: DateTime, months: nat)
    requires now.Valid() && ShiftMonths(now, -(months as int)).Done?
    ensures now.Index() - months >= 12
    ensures now.DayNumber() - ShiftMonths(now, -(months as int)).value.DayNumber() == DaysBack(now, months)
  {
    var index := now.Index() - months;
    ShiftedFields(now, months);
    DayFromFields(ShiftMonths(now, -(months as int)).value, index,
                  Min(now.day, DaysInMonth(index / 12, index % 12 + 1)));
    DayFromFields(now, now.Index(), now.day);
  }

  lemma SameTimeOfDay(a: DateTime, b: DateTime, days: int)
    requires a.Valid() && b.Valid() && a.micros == b.micros && a.DayNumber() - b.DayNumber() == days
    ensures a.Instant() - b.Instant() == days * 86_400_000_000
  {
  }

  lemma {:induction false} ShiftSpan(now: DateTime, months: nat)
    requires now.Valid() && ShiftMonths(now, -(months as int)).Done?
    ensures now.Index() - months >= 12
    ensures now.Instant() - ShiftMonths(now, -(months as int)).value.Instant() == DaysBack(now, months) * DAY
  {
    ShiftedDay(now, months);
    DayIsCutALittle(now, -(months as int));
    SameTimeOfDay(now, ShiftMonths(now, -(months as int)).value, DaysBack(now, months));
  }

  lemma {:induction false} ShiftFate(now: DateTime, months: nat)
    requires now.Valid() && months > 0
    ensures var shifted := ShiftMonths(now, -(months as int));
            && (shifted == OverflowError <==> now.Index() - months < 12 * LEAST_YEAR)
            && (shifted == ValueError <==> 12 * LEAST_YEAR <= now.Index() - months < 12)
            && (shifted.Done? ==>
                  && shifted.value.Instant() < now.Instant()
                  && now.Instant() - shifted.value.Instant() == DaysBack(now, months) * DAY)
  {
    ShiftOutcome(now, months);
    if ShiftMonths(now, -(months as int)).Done? {
      ShiftIsEarlier(now, -(months as int));
      ShiftSpan(now, months);
    }
  }

  lemma {:induction false} ShiftStart(now: DateTime, months: nat)
    requires now.Valid() && months > 0 && ShiftMonths(now, -(months as int)).Done?
    ensures ShiftMonths(now, -(months as int)).value.Instant() < EARLIEST
       <==> now.Index() - months == 12 && now.day == 1 && now.micros < EARLIEST
  {
    var back := ShiftMonths(now, -(months as int)).value;
    ShiftMovesIndex(now, -(months as int));
    FirstMonthOnly(back.Index());
  }

  lemma {:induction false} MonthsFate(count: nat, now: DateTime)
    requires now.Valid()
    ensures FateIsRight(Rolling(count, Months), now)
  {
    if count > 0 {
      ShiftFate(now, count);
      if ShiftMonths(now, -(count as int)).Done? {
        ShiftStart(now, count);
      }
    }
  }

  lemma {:induction false} YearsFate(count: nat, now: DateTime)
    requires now.Valid()
    ensures FateIsRight(Rolling(count, Years), now)
  {
    if count > 0 {
      var months: nat := 12 * count;
      YearsAreTwelveMonths(now, -(count as int));
      ShiftFate(now, months);
      if ShiftMonths(now, -(months as int)).Done? {
        ShiftStart(now, months);
        FarShiftIsLong(now, months);
      }
    }
  }

  lemma {:induction false} DayAfterIsRepresentable(date: DateTime)
    requires date.Valid()
    ensures date.DayNumber() + 1 >= MonthStart(END_OF_MONTHS) <==> date.Index() + 1 == END_OF_MONTHS && date.day == 31
  {
    NextMonthStart(date.year, date.month);
    MonthsAreLong(date.Index() + 1, END_OF_MONTHS);
    if date.Index() + 1 == END_OF_MONTHS {
      assert date.month == 12;
    }
  }

  lemma LastMonthOfAll(year: int, month: int)
    requires 1 <= month <= 12
    ensures MonthIndex(year, month) + 1 == END_OF_MONTHS <==> year == 9999 && month == 12
    ensures MonthIndex(year, month) == 12 <==> year == 1 && month == 1
  {
  }

  lemma {:induction false} DateBounds(date: DateTime)
    requires date.Valid()
    ensures date.DayNumber() + 1 >= MonthStart(END_OF_MONTHS) <==>
            date.year == 9999 && date.month == 12 && date.day == 31
    ensures date.DayNumber() < 1 <==> date.year == 1 && date.month == 1 && date.day == 1
  {
    LastMonthOfAll(date.year, date.month);
    FirstMonthOnly(date.Index());
    DayAfterIsRepresentable(date);
  }

  lemma {:induction false} OneDayFate(year: int, month: int, day: int)
    ensures var p := OneDay(year, month, day);
            && (p == ValueError <==> !ValidDate(year, month, day))
            && (p == OverflowError <==> year == 9999 && month == 12 && day == 31)
            && (p.Done? ==> p.value.end - p.value.start == DAY)
            && (p.Done? ==> (p.value.start < EARLIEST <==> year == 1 && month == 1 && day == 1))
  {
    if ValidDate(year, month, day) {
      var start := DateTime(year, month, day, 0);
      DateBounds(start);
    }
  }

  lemma {:induction false} WholeMonthOutcome(year: nat, month: nat)
    ensures var p := WholeMonth(year, month);
            && p != OverflowError
            && (p == ValueError <==> !ValidDate(year, month, 1) || (year == 9999 && month == 12))
            && (p.Done? ==> ValidDate(year, month, 1) && p.value == MonthSpan(MonthIndex(year, month)))
  {
    if ValidDate(year, month, 1) {
      var first := DateTime(year, month, 1, 0);
      var shifted := ShiftMonths(first, 1);
      if shifted.Done? {
        ShiftMovesIndex(first, 1);
        EarlierMonth(first, shifted.value);
        WholeMonthSpan(year, month);
      }
    }
  }

  lemma {:induction false} WholeMonthFate(year: nat, month: nat, now: DateTime)
    requires now.Valid()
    ensures FateIsRight(ExplicitMonth(year, month), now)
  {
    MonthTokens(year, month, now);
    WholeMonthOutcome(year, month);
    if WholeMonth(year, month).Done? {
      FirstMonthOnly(MonthIndex(year, month));
      NextMonthStart(year, month);
    }
  }

  /** Every expression, at every moment, has the fate that the table gives it. */
  lemma {:induction false} TokenFate(token: Token, now: DateTime)
    requires now.Valid()
    ensures FateIsRight(token, now)
  {
    match token
    case Today => DayFate(token, now);
    case Yesterday => DayFate(token, now);
    case DayBeforeYesterday => DayFate(token, now);
    case ThisWeek => ThisWeekFate(now);
    case LastWeek => LastWeekFate(now);
    case LastWeekend => LastWeekendFate(now);
    case ThisMonth => ThisMonthFate(now);
    case LastMonth => LastMonthFate(now);
    case ThisYear => ThisYearFate(now);
    case LastYear => LastYearFate(now);
    case Rolling(count, Months) => MonthsFate(count, now);
    case Rolling(count, Years) => YearsFate(count, now);
    case Rolling(count, unit) => ClockFate(count, unit, now);
    case ExplicitDay(year, month, day) => OneDayFate(year, month, day);
    case ExplicitMonth(year, month) => WholeMonthFate(year, month, now);
    case MonthDay(month, day) => OneDayFate(now.year, month, day);
  }

  // --- What a question does ---

  predicate AllReturn(tokens: seq<Token>, n: nat, now: DateTime)
    requires now.Valid() && n <= |tokens|
  {
    forall k :: 0 <= k < n ==> Returns(tokens[k], now)
  }

  /** The expressions before it are read without an error, and this one overflows. */
  predicate FirstOverflow(tokens: seq<Token>, i: nat, now: DateTime)
    requires now.Valid() && i < |tokens|
  {
    AllReturn(tokens, i, now) && Overflows(tokens[i], now)
  }

  /** Checking the limit of ninety days overflows. */
  predicate LimitOverflows(question: Question, expectedCount: int, now: DateTime)
    requires now.Valid()
  {
    var tokens := question.tokens;
    if expectedCount == 1 && |tokens| == 1 then StartsEarly(tokens[0], now)
    else if expectedCount == 1 && |tokens| == 2 then question.ranged && StartsEarly(tokens[0], now)
    else if expectedCount == 2 && |tokens| == 2 then
      StartsEarly(tokens[0], now) || (!IsTooLong(tokens[0], now) && StartsEarly(tokens[1], now))
    else false
  }

  lemma {:induction false} TokensReturn(tokens: seq<Token>, now: DateTime)
    requires now.Valid()
    ensures var r := ResolveTokens(tokens, now);
            r.Done? <==> AllReturn(tokens, |tokens|, now)
    ensures var r := ResolveTokens(tokens, now);
            r.Done? ==> |r.value| == |tokens|
                        && forall k :: 0 <= k < |tokens| ==> ResolveToken(tokens[k], now) == Done(r.value[k])
  {
    if tokens != [] {
      TokenFate(tokens[0], now);
      TokensReturn(tokens[1..], now);
      assert forall k :: 1 <= k < |tokens| ==> tokens[k] == tokens[1..][k - 1];
    }
  }

  lemma {:induction false} TokensOverflow(tokens: seq<Token>, now: DateTime)
    requires now.Valid()
    ensures ResolveTokens(tokens, now) == OverflowError <==>
            exists i :: 0 <= i < |tokens| && FirstOverflow(tokens, i, now)
  {
    if tokens != [] {
      TokenFate(tokens[0], now);
      TokensOverflow(tokens[1..], now);
      OverflowShifts(tokens, now);
    }
  }

  lemma {:induction false} OverflowShifts(tokens: seq<Token>, now: DateTime)
    requires now.Valid() && tokens != []
    ensures (exists i :: 0 <= i < |tokens| && FirstOverflow(tokens, i, now)) <==>
            Overflows(tokens[0], now) ||
            (Returns(tokens[0], now) && exists i :: 0 <= i < |tokens[1..]| && FirstOverflow(tokens[1..], i, now))
  {
    var rest := tokens[1..];
    if Overflows(tokens[0], now) {
      assert FirstOverflow(tokens, 0, now);
    } else {
      if i: nat :| i < |tokens| && FirstOverflow(tokens, i, now) {
        assert i > 0 && Returns(tokens[0], now);
        assert forall k :: 0 <= k < i - 1 ==> rest[k] == tokens[k + 1];
        assert FirstOverflow(rest, i - 1, now);
      }
      if i: nat :| i < |rest| && FirstOverflow(rest, i, now) && Returns(tokens[0], now) {
        assert forall k :: 1 <= k < i + 1 ==> tokens[k] == rest[k - 1];
        assert FirstOverflow(tokens, i + 1, now);
      }
    }
  }

  predicate EndsNow(token: Token) {
    token.Today? || token.ThisWeek? || token.ThisMonth? || token.ThisYear? || token.Rolling?
  }

  /** The period runs from one midnight to another. */
  predicate IsWholeDays(p: Period) {
    p.start >= 0 && p.start % 86_400_000_000 == 0 && p.end % 86_400_000_000 == 0
  }

  lemma WholeDays(first: nat, last: nat)
    ensures IsWholeDays(Period(first * 86_400_000_000, last * 86_400_000_000))
  {
  }

  lemma PastDaysAreWhole(token: Token, now: DateTime)
    requires now.Valid() && Returns(token, now) && ResolveToken(token, now).Done?
    requires token.Yesterday? || token.DayBeforeYesterday?
    ensures IsWholeDays(ResolveToken(token, now).value)
  {
    var today := now.DayNumber();
    if token.Yesterday? {
      WholeDays(today - 1, today);
    } else {
      WholeDays(today - 2, today - 1);
    }
  }

  lemma PastWeekIsWhole(token: Token, now: DateTime)
    requires now.Valid() && Returns(token, now) && ResolveToken(token, now).Done?
    requires token.LastWeek? || token.LastWeekend?
    ensures IsWholeDays(ResolveToken(token, now).value)
  {
    var monday := now.DayNumber() - now.DayNumber() % 7;
    WholeDays(if token.LastWeek? then monday - 7 else monday - 2, monday);
  }

  lemma SpanIsWhole(index: int)
    requires index >= 12
    ensures IsWholeDays(MonthSpan(index))
  {
    WholeDays(MonthStart(index), MonthStart(index + 1));
  }

  lemma {:induction false} LastYearIsWhole(now: DateTime)
    requires now.Valid() && ResolveToken(LastYear, now).Done?
    ensures IsWholeDays(ResolveToken(LastYear, now).value)
  {
    var last, current := MonthStart(MonthIndex(now.year - 1, 1)), MonthStart(MonthIndex(now.year, 1));
    FirstOfMonth(now.year, 1);
    FirstOfMonth(now.year - 1, 1);
    WholeDays(last, current);
    assert ResolveToken(LastYear, now).value == Period(last * 86_400_000_000, current * 86_400_000_000);
  }

  lemma OneDayIsWhole(year: int, month: int, day: int)
    requires OneDay(year, month, day).Done?
    ensures IsWholeDays(OneDay(year, month, day).value)
  {
    var date := DateTime(year, month, day, 0);
    WholeDays(date.DayNumber(), date.DayNumber() + 1);
  }

  lemma {:induction false} LastMonthIsWhole(now: DateTime)
    requires now.Valid() && ResolveToken(LastMonth, now).Done?
    ensures IsWholeDays(ResolveToken(LastMonth, now).value)
  {
    MonthTokens(1, 1, now);
    PreviousMonthOutcome(now);
    SpanIsWhole(now.Index() - 1);
  }

  lemma {:induction false} WholeMonthIsWhole(year: nat, month: nat, now: DateTime)
    requires now.Valid() && ResolveToken(ExplicitMonth(year, month), now).Done?
    ensures IsWholeDays(ResolveToken(ExplicitMonth(year, month), now).value)
  {
    MonthTokens(year, month, now);
    WholeMonthOutcome(year, month);
    SpanIsWhole(MonthIndex(year, month));
  }

  lemma DateIsWhole(token: Token, now: DateTime)
    requires now.Valid() && ResolveToken(token, now).Done? && (token.ExplicitDay? || token.MonthDay?)
    ensures IsWholeDays(ResolveToken(token, now).value)
  {
    OneDayIsWhole(if token.ExplicitDay? then token.year else now.year, token.month, token.day);
  }

  lemma {:induction false} PastIsWhole(token: Token, now: DateTime)
    requires now.Valid() && Returns(token, now) && ResolveToken(token, now).Done? && !EndsNow(token)
    ensures IsWholeDays(ResolveToken(token, now).value)
  {
    match token
    case Yesterday => PastDaysAreWhole(token, now);
    case DayBeforeYesterday => PastDaysAreWhole(token, now);
    case LastWeek => PastWeekIsWhole(token, now);
    case LastWeekend => PastWeekIsWhole(token, now);
    case LastMonth => LastMonthIsWhole(now);
    case LastYear => LastYearIsWhole(now);
    case ExplicitDay(_, _, _) => DateIsWhole(token, now);
    case ExplicitMonth(year, month) => WholeMonthIsWhole(year, month, now);
    case MonthDay(_, _) => DateIsWhole(token, now);
  }

  lemma {:induction false} ShiftedIsNotNegative(count: nat, unit: Unit, now: DateTime)
    requires now.Valid() && IsCalendarUnit(unit) && ResolveToken(Rolling(count, unit), now).Done?
    ensures ResolveToken(Rolling(count, unit), now).value.end == now.Instant()
    ensures ResolveToken(Rolling(count, unit), now).value.start >= 0
  {
    RollingMonthsPeriod(now, count, unit);
  }

  lemma ThisEndsNow(token: Token, now: DateTime)
    requires now.Valid() && ResolveToken(token, now).Done? && EndsNow(token)
    ensures ResolveToken(token, now).value.end == now.Instant()
    ensures ResolveToken(token, now).value.start >= 0
  {
    match token
    case Rolling(count, unit) =>
      if IsCalendarUnit(unit) {
        ShiftedIsNotNegative(count, unit, now);
      }
    case ThisMonth => FirstOfMonth(now.year, now.month);
    case ThisYear => FirstOfMonth(now.year, 1);
    case _ =>
  }

  predicate IsRegular(p: Period, now: int) {
    0 <= p.start < p.end && (p.end == now || IsWholeDays(p))
  }

  lemma {:induction false} PeriodIsRegular(token: Token, now: DateTime)
    requires now.Valid() && Returns(token, now) && ResolveToken(token, now).Done?
    ensures IsRegular(ResolveToken(token, now).value, now.Instant())
  {
    if EndsNow(token) {
      ThisEndsNow(token, now);
    } else {
      PastIsWhole(token, now);
    }
  }

  /** A period that begins too early for UTC begins before every other period ends, so the range
      from one to the other is never empty. */
  lemma EarlyStartPrecedes(first: Period, second: Period, now: int)
    requires IsRegular(first, now) && IsRegular(second, now) && first.start < EARLIEST
    ensures first.start < second.end
  {
  }

  lemma {:induction false} LimitOverflow(p: Period)
    requires p.start < p.end
    ensures Limited([p]) == Raised <==> p.start < EARLIEST
  {
    LimitAlone(p);
  }

  lemma {:induction false} LimitOverflowOfTwo(p: Period, q: Period)
    requires p.start < p.end && q.start < q.end
    ensures Limited([p, q]) == Raised <==>
            p.start < EARLIEST || (p.end - p.start <= LIMIT_DAYS * DAY && q.start < EARLIEST)
  {
    assert [p, q][1..] == [q];
    LimitAlone(q);
  }

  lemma {:induction false} ReturnedLimit(question: Question, expectedCount: int, now: DateTime)
    requires now.Valid() && !question.unsupportedSuffix && AllReturn(question.tokens, |question.tokens|, now)
    ensures Resolve(question, expectedCount, now) == Raised <==> LimitOverflows(question, expectedCount, now)
  {
    var tokens := question.tokens;
    TokensReturn(tokens, now);
    var periods := ResolveTokens(tokens, now).value;
    if |tokens| == 1 && expectedCount == 1 {
      TokenFate(tokens[0], now);
      assert periods == [periods[0]];
      LimitOverflow(periods[0]);
    } else if |tokens| == 2 {
      TokenFate(tokens[0], now);
      TokenFate(tokens[1], now);
      assert periods == [periods[0], periods[1]];
      if expectedCount == 2 {
        LimitOverflowOfTwo(periods[0], periods[1]);
      } else if StartsEarly(tokens[0], now) {
        PeriodIsRegular(tokens[0], now);
        PeriodIsRegular(tokens[1], now);
        EarlyStartPrecedes(periods[0], periods[1], now.Instant());
        LimitOverflow(Period(periods[0].start, periods[1].end));
      } else if periods[0].start < periods[1].end {
        LimitOverflow(Period(periods[0].start, periods[1].end));
      }
    }
  }

  /** `resolve` catches only ValueError. For every question: an OverflowError escapes exactly when,
      without an unsupported suffix, some expression overflows and those before it are read, or all
      are read and the period checked against the limit begins too early for UTC. */
  lemma {:induction false} ResolveRaisesExactly(question: Question, expectedCount: int, now: DateTime)
    requires now.Valid()
    ensures Resolve(question, expectedCount, now) == Raised <==>
              && !question.unsupportedSuffix
              && ((exists i :: 0 <= i < |question.tokens| && FirstOverflow(question.tokens, i, now))
                  || (AllReturn(question.tokens, |question.tokens|, now)
                     && LimitOverflows(question, expectedCount, now)))
  {
    var tokens := question.tokens;
    TokensReturn(tokens, now);
    TokensOverflow(tokens, now);
    if !question.unsupportedSuffix && AllReturn(tokens, |tokens|, now) {
      ReturnedLimit(question, expectedCount, now);
    }
  }

  /** The outcome of a question with one expression, read off the table. */
  lemma {:induction false} SingleExpression(token: Token, now: DateTime)
    requires now.Valid()
    ensures var r := Resolve(Alone(token), 1, now);
            && (r == Raised <==> Overflows(token, now) || (!Refused(token, now) && StartsEarly(token, now)))
            && (r.Resolved? <==> Returns(token, now) && !StartsEarly(token, now) && !IsTooLong(token, now))
  {
    TokenFate(token, now);
    ResolveAlone(token, now);
    if ResolveToken(token, now).Done? {
      LimitAlone(ResolveToken(token, now).value);
    }
  }

  /** Some past months resolve exactly while they go back at most ninety days, this year exactly
      until ninety days after its first midnight. */
  lemma {:induction false} NinetyDaysDecide(count: nat, now: DateTime)
    requires now.Valid() && count > 0
    ensures Resolve(Alone(Rolling(count, Months)), 1, now).Resolved? <==>
              && now.Index() - count >= 12
              && DaysBack(now, count) <= LIMIT_DAYS
              && !(now.Index() - count == 12 && now.day == 1 && now.micros < EARLIEST)
    ensures Resolve(Alone(ThisYear), 1, now).Resolved? <==>
              now.year >= 2 && 0 < now.Instant() - MonthStart(MonthIndex(now.year, 1)) * DAY <= LIMIT_DAYS * DAY
  {
    SingleExpression(Rolling(count, Months), now);
    SingleExpression(ThisYear, now);
    YearBegins(now);
  }

  lemma {:induction false} YearBegins(now: DateTime)
    requires now.Valid()
    ensures now.Instant() >= MonthStart(MonthIndex(now.year, 1)) * DAY
    ensures now.Instant() == MonthStart(MonthIndex(now.year, 1)) * DAY <==>
            now.month == 1 && now.day == 1 && now.micros == 0
  {
    if now.month > 1 {
      MonthsAreLong(MonthIndex(now.year, 1), now.Index());
    }
  }

  /** The first and the last day of the calendar raise whenever they are asked for. */
  lemma {:induction false} EndsOfTheCalendarRaise(now: DateTime)
    requires now.Valid()
    ensures Resolve(Alone(ExplicitDay(1, 1, 1)), 1, now) == Raised
    ensures Resolve(Alone(ExplicitDay(9999, 12, 31)), 1, now) == Raised
  {
    SingleExpression(ExplicitDay(1, 1, 1), now);
    SingleExpression(ExplicitDay(9999, 12, 31), now);
  }

  lemma {:induction false} InstantIsBounded(now: DateTime)
    requires now.Valid()
    ensures now.Instant() < 3_720_000 * DAY
  {
    MonthsAreLong(12, now.Index());
  }

  /** So does a large number of past hours, while past years are refused up to two thousand million. */
  lemma {:induction false} ManyPastHoursRaise(now: DateTime)
    requires now.Valid()
    ensures Resolve(Alone(Rolling(100_000_000, Hours)), 1, now) == Raised
    ensures Resolve(Alone(Rolling(2_000_000_000, Years)), 1, now) == Unresolved
    ensures Resolve(Alone(Rolling(3_000_000_000, Years)), 1, now) == Raised
  {
    InstantIsBounded(now);
    SingleExpression(Rolling(100_000_000, Hours), now);
    SingleExpression(Rolling(2_000_000_000, Years), now);
    SingleExpression(Rolling(3_000_000_000, Years), now);
  }

  // --- Which instants a period holds ---

  /** The moment is not before the one that lies some months back. */
  predicate IsSince(t: DateTime, now: DateTime, months: int) {
    var index := now.Index() - months;
    var day := Min(now.day, DaysInMonth(index / 12, index % 12 + 1));
    t.Index() > index || (t.Index() == index && (t.day > day || (t.day == day && t.micros >= now.micros)))
  }

  predicate SameDate(t: DateTime, year: int, month: int, day: int) {
    t.year == year && t.month == month && t.day == day
  }

  /** What an expression says of an instant, in terms of dates. */
  predicate Belongs(token: Token, now: DateTime, t: DateTime)
    requires now.Valid() && t.Valid()
  {
    match token
    case Today => SameDate(t, now.year, now.month, now.day) && t.micros < now.micros
    case Yesterday => t.DayNumber() == now.DayNumber() - 1
    case DayBeforeYesterday => t.DayNumber() == now.DayNumber() - 2
    case ThisWeek => t.DayNumber() / 7 == now.DayNumber() / 7 && t.Instant() < now.Instant()
    case LastWeek => t.DayNumber() / 7 == now.DayNumber() / 7 - 1
    case LastWeekend => t.DayNumber() / 7 == now.DayNumber() / 7 - 1 && t.DayNumber() % 7 >= 5
    case ThisMonth => t.year == now.year && t.month == now.month && t.Instant() < now.Instant()
    case LastMonth => t.Index() == now.Index() - 1
    case ThisYear => t.year == now.year && t.Instant() < now.Instant()
    case LastYear => t.year == now.year - 1
    case Rolling(count, unit) =>
      if IsCalendarUnit(unit) then IsSince(t, now, MonthsIn(count, unit)) && t.Instant() < now.Instant()
      else 0 < now.Instant() - t.Instant() <= count * UnitLength(unit)
    case ExplicitDay(year, month, day) => SameDate(t, year, month, day)
    case ExplicitMonth(year, month) => t.year == year && t.month == month
    case MonthDay(month, day) => SameDate(t, now.year, month, day)
  }

  predicate HoldsWhatItSays(token: Token, now: DateTime, t: DateTime)
    requires now.Valid() && t.Valid()
  {
    ResolveToken(token, now).Done? ==> (Covers(token, now, t) <==> Belongs(token, now, t))
  }

  lemma {:induction false} DaysHold(token: Token, now: DateTime, t: DateTime)
    requires now.Valid() && t.Valid() && (token.Today? || token.Yesterday? || token.DayBeforeYesterday?)
    ensures HoldsWhatItSays(token, now, t)
  {
    DayNumbersAreDates(t, now);
  }

  lemma InWeek(day: int, week: int)
    ensures 7 * week <= day < 7 * week + 7 <==> day / 7 == week
    ensures 7 * week + 5 <= day < 7 * week + 7 <==> day / 7 == week && day % 7 >= 5
  {
  }

  lemma {:induction false} ThisWeekHolds(now: DateTime, t: DateTime)
    requires now.Valid() && t.Valid()
    ensures HoldsWhatItSays(ThisWeek, now, t)
  {
    var week := now.DayNumber() / 7;
    WeekStartsBefore(now);
    InstantInDays(t, 7 * week, 7 * week + 7);
    InWeek(t.DayNumber(), week);
  }

  lemma {:induction false} LastWeekHolds(now: DateTime, t: DateTime)
    requires now.Valid() && t.Valid()
    ensures HoldsWhatItSays(LastWeek, now, t)
  {
    var week := now.DayNumber() / 7;
    WeekStartsBefore(now);
    InstantInDays(t, 7 * (week - 1), 7 * week);
    InWeek(t.DayNumber(), week - 1);
  }

  lemma {:induction false} LastWeekendHolds(now: DateTime, t: DateTime)
    requires now.Valid() && t.Valid()
    ensures HoldsWhatItSays(LastWeekend, now, t)
  {
    var week := now.DayNumber() / 7;
    WeekStartsBefore(now);
    InstantInDays(t, 7 * week - 2, 7 * week);
    InWeek(t.DayNumber(), week - 1);
  }

  lemma {:induction false} ThisMonthHolds(now: DateTime, t: DateTime)
    requires now.Valid() && t.Valid()
    ensures HoldsWhatItSays(ThisMonth, now, t)
  {
    var first := DateTime(now.year, now.month, 1, 0);
    InstantOrder(first, t);
    InstantOrder(now, t);
    SameMonthIndex(t, now.year, now.month);
  }

  lemma {:induction false} FirstOfYear(year: int, t: DateTime)
    requires 1 <= year <= 9999 && t.Valid()
    ensures DateTime(year, 1, 1, 0).Instant() <= t.Instant() <==> year <= t.year
  {
    InstantOrder(DateTime(year, 1, 1, 0), t);
  }

  lemma {:induction false} YearsHold(token: Token, now: DateTime, t: DateTime)
    requires now.Valid() && t.Valid() && (token.ThisYear? || token.LastYear?)
    ensures HoldsWhatItSays(token, now, t)
  {
    FirstOfYear(now.year, t);
    if token.ThisYear? {
      FirstOfYear(t.year, now);
      FirstOfYear(t.year, t);
    } else if now.year > 1 {
      FirstOfYear(now.year - 1, t);
    }
  }

  lemma {:induction false} ShiftHolds(now: DateTime, t: DateTime, months: nat)
    requires now.Valid() && t.Valid() && ShiftMonths(now, -(months as int)).Done?
    ensures ShiftMonths(now, -(months as int)).value.Instant() <= t.Instant() <==> IsSince(t, now, months)
  {
    ShiftedFields(now, months);
    InstantOrder(ShiftMonths(now, -(months as int)).value, t);
  }

  lemma {:induction false} MonthsHold(count: nat, now: DateTime, t: DateTime)
    requires now.Valid() && t.Valid()
    ensures HoldsWhatItSays(Rolling(count, Months), now, t)
  {
    RollingMonthsPeriod(now, count, Months);
    if ResolveToken(Rolling(count, Months), now).Done? {
      ShiftHolds(now, t, count);
    }
  }

  lemma {:induction false} YearsHoldMonths(now: DateTime, t: DateTime, years: nat)
    requires now.Valid() && t.Valid() && ShiftYears(now, -(years as int)).Done?
    ensures ShiftYears(now, -(years as int)).value.Instant() <= t.Instant() <==> IsSince(t, now, 12 * years)
  {
    YearsAreTwelveMonths(now, -(years as int));
    assert 12 * -(years as int) == -((12 * years) as int);
    ShiftHolds(now, t, 12 * years);
  }

  lemma {:induction false} PastYearsHold(count: nat, now: DateTime, t: DateTime)
    requires now.Valid() && t.Valid()
    ensures HoldsWhatItSays(Rolling(count, Years), now, t)
  {
    RollingMonthsPeriod(now, count, Years);
    if ResolveToken(Rolling(count, Years), now).Done? {
      YearsHoldMonths(now, t, count);
    }
  }

  lemma ClockRollingHolds(count: nat, unit: Unit, now: DateTime, t: DateTime)
    requires now.Valid() && t.Valid() && !IsCalendarUnit(unit)
    ensures HoldsWhatItSays(Rolling(count, unit), now, t)
  {
  }

  lemma {:induction false} OneDayHolds(token: Token, now: DateTime, t: DateTime)
    requires now.Valid() && t.Valid() && (token.ExplicitDay? || token.MonthDay?)
    ensures HoldsWhatItSays(token, now, t)
  {
    if ResolveToken(token, now).Done? {
      DayPeriodIsTheDay(if token.ExplicitDay? then token.year else now.year, token.month, token.day, t);
    }
  }

  /** The period of every expression holds exactly the instants that the expression speaks of. */
  lemma {:induction false} PeriodsHoldWhatTheySay(token: Token, now: DateTime, t: DateTime)
    requires now.Valid() && t.Valid()
    ensures HoldsWhatItSays(token, now, t)
  {
    match token
    case Today => DaysHold(token, now, t);
    case Yesterday => DaysHold(token, now, t);
    case DayBeforeYesterday => DaysHold(token, now, t);
    case ThisWeek => ThisWeekHolds(now, t);
    case LastWeek => LastWeekHolds(now, t);
    case LastWeekend => LastWeekendHolds(now, t);
    case ThisMonth => ThisMonthHolds(now, t);
    case LastMonth => LastMonthIsTheMonthBefore(now, t);
    case ThisYear => YearsHold(token, now, t);
    case LastYear => YearsHold(token, now, t);
    case Rolling(count, unit) =>
      if unit == Months {
        MonthsHold(count, now, t);
      } else if unit == Years {
        PastYearsHold(count, now, t);
      } else {
        ClockRollingHolds(count, unit, now, t);
      }
    case ExplicitDay(_, _, _) => OneDayHolds(token, now, t);
    case ExplicitMonth(year, month) => MonthPeriodIsTheMonth(year, month, now, t);
    case MonthDay(_, _) => OneDayHolds(token, now, t);
  }

  // --- Adjacent expressions ---

  /** The expression has a period and the instant lies in it. */
  predicate Holds(token: Token, now: DateTime, t: DateTime)
    requires now.Valid() && t.Valid()
  {
    ResolveToken(token, now).Done? && Covers(token, now, t)
  }

  lemma {:induction false} BeginningHoldsNothing(now: DateTime, t: DateTime)
    requires now.Valid() && t.Valid() && t.Instant() < now.Instant()
    ensures now.micros == 0 ==> t.DayNumber() < now.DayNumber()
    ensures now.micros == 0 && now.day == 1 ==> t.Index() < now.Index()
  {
    InstantOrder(now, t);
  }

  /** Where a relative expression has no period, it speaks of no instant before now. */
  lemma {:induction false} RelativeHolds(token: Token, now: DateTime, t: DateTime)
    requires now.Valid() && t.Valid() && t.Instant() < now.Instant()
    requires !token.Rolling? && !token.ExplicitDay? && !token.ExplicitMonth? && !token.MonthDay?
    ensures Holds(token, now, t) <==> Belongs(token, now, t)
  {
    TokenFate(token, now);
    PeriodsHoldWhatTheySay(token, now, t);
    BeginningHoldsNothing(now, t);
  }

  lemma {:induction false} DaysTile(now: DateTime, t: DateTime)
    requires now.Valid() && t.Valid() && t.Instant() < now.Instant()
    ensures Holds(Today, now, t) <==> t.DayNumber() == now.DayNumber()
    ensures Holds(Yesterday, now, t) <==> t.DayNumber() == now.DayNumber() - 1
    ensures Holds(DayBeforeYesterday, now, t) <==> t.DayNumber() == now.DayNumber() - 2
  {
    RelativeHolds(Today, now, t);
    RelativeHolds(Yesterday, now, t);
    RelativeHolds(DayBeforeYesterday, now, t);
    DayNumbersAreDates(t, now);
  }

  lemma {:induction false} WeeksTile(now: DateTime, t: DateTime)
    requires now.Valid() && t.Valid() && t.Instant() < now.Instant()
    ensures Holds(ThisWeek, now, t) <==> t.DayNumber() / 7 == now.DayNumber() / 7
    ensures Holds(LastWeek, now, t) <==> t.DayNumber() / 7 == now.DayNumber() / 7 - 1
    ensures Holds(LastWeekend, now, t) <==> Holds(LastWeek, now, t) && t.DayNumber() % 7 >= 5
  {
    RelativeHolds(ThisWeek, now, t);
    RelativeHolds(LastWeek, now, t);
    RelativeHolds(LastWeekend, now, t);
  }

  lemma {:induction false} MonthsAndYearsTile(now: DateTime, t: DateTime)
    requires now.Valid() && t.Valid() && t.Instant() < now.Instant()
    ensures Holds(ThisMonth, now, t) <==> t.Index() == now.Index()
    ensures Holds(LastMonth, now, t) <==> t.Index() == now.Index() - 1
    ensures Holds(ThisYear, now, t) <==> t.year == now.year
    ensures Holds(LastYear, now, t) <==> t.year == now.year - 1
  {
    RelativeHolds(ThisMonth, now, t);
    RelativeHolds(LastMonth, now, t);
    RelativeHolds(ThisYear, now, t);
    RelativeHolds(LastYear, now, t);
    SameMonthIndex(t, now.year, now.month);
  }

  /** Adjacent expressions tile the past: each instant before now, back to the start of the earlier
      one, lies in exactly one of them, whether or not both have a period. */
  lemma {:induction false} AdjacentPeriodsTile(now: DateTime, t: DateTime)
    requires now.Valid() && t.Valid() && t.Instant() < now.Instant()
    ensures t.DayNumber() >= now.DayNumber() - 1 <==> Holds(Yesterday, now, t) || Holds(Today, now, t)
    ensures t.DayNumber() >= now.DayNumber() - 2 && !Holds(Today, now, t)
       <==> Holds(DayBeforeYesterday, now, t) || Holds(Yesterday, now, t)
    ensures t.DayNumber() / 7 >= now.DayNumber() / 7 - 1 <==> Holds(LastWeek, now, t) || Holds(ThisWeek, now, t)
    ensures t.Index() >= now.Index() - 1 <==> Holds(LastMonth, now, t) || Holds(ThisMonth, now, t)
    ensures t.year >= now.year - 1 <==> Holds(LastYear, now, t) || Holds(ThisYear, now, t)
    ensures !(Holds(Yesterday, now, t) && Holds(Today, now, t))
    ensures !(Holds(DayBeforeYesterday, now, t) && Holds(Yesterday, now, t))
    ensures !(Holds(LastWeek, now, t) && Holds(ThisWeek, now, t))
    ensures !(Holds(LastMonth, now, t) && Holds(ThisMonth, now, t))
    ensures !(Holds(LastYear, now, t) && Holds(ThisYear, now, t))
  {
    DaysTile(now, t);
    WeeksTile(now, t);
    MonthsAndYearsTile(now, t);
    InstantOrder(t, now);
  }
}
