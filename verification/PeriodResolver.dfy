/** app/agent/period_resolver.py: calendar expressions resolved to half-open periods.

    Asia/Tokyo is a fixed +9 hours. A local instant counts microseconds from 0001-01-01 00:00,
    a Monday; dates are proleptic Gregorian, years 1 to 9999. */
module PeriodResolving {
  import opened Querying
  import opened Common

  // --- The calendar ---

  predicate IsLeap(year: int) {
    year % 4 == 0 && (year % 100 != 0 || year % 400 == 0)
  }

  function DaysInMonth(year: int, month: int): (days: int)
    ensures 28 <= days <= 31
  {
    if month == 2 then (if IsLeap(year) then 29 else 28)
    else if month == 4 || month == 6 || month == 9 || month == 11 then 30
    else 31
  }

  const END_OF_MONTHS: int := 120_000

  function MonthIndex(year: int, month: int): int {
    year * 12 + month - 1
  }

  /** Days from 0001-01-01 to the first day of a month: the lengths of the months between. */
  function MonthStart(index: int): (days: int)
    requires index >= 12
    ensures days >= 0
  {
    if index == 12 then 0
    else MonthStart(index - 1) + DaysInMonth((index - 1) / 12, (index - 1) % 12 + 1)
  }

  datatype DateTime = DateTime(year: int, month: int, day: int, micros: int) {
    predicate Valid() {
      && ValidDate(year, month, day)
      && 0 <= micros < 86_400_000_000
    }

    function Index(): int {
      MonthIndex(year, month)
    }

    function DayNumber(): int
      requires Valid()
    {
      MonthStart(Index()) + day - 1
    }

    function Instant(): int
      requires Valid()
    {
      DayNumber() * 86_400_000_000 + micros
    }
  }

  predicate ValidDate(year: int, month: int, day: int) {
    1 <= year <= 9999 && 1 <= month <= 12 && 1 <= day <= DaysInMonth(year, month)
  }

  // --- Resolution ---

  /** What a call does: return, raise ValueError, or raise OverflowError. */
  datatype Outcome<T> = Done(value: T) | ValueError | OverflowError

  datatype Period = Period(start: int, end: int)

  function MakePeriod(start: int, end: int): (p: Outcome<Period>)
    ensures p.Done? ==> p.value.start < p.value.end
  {
    if start >= end then ValueError else Done(Period(start, end))
  }

  /** `instant - timedelta`. */
  function Minus(instant: int, delta: int): Outcome<int> {
    if instant - delta < 0 then OverflowError else Done(instant - delta)
  }

  function Ending(start: Outcome<int>, end: int): (p: Outcome<Period>)
    ensures p.Done? ==> p.value.start < p.value.end
  {
    match start
    case Done(s) => MakePeriod(s, end)
    case ValueError => ValueError
    case OverflowError => OverflowError
  }

  /** `value.replace(year, month, day)` with the day held to the end of the month. */
  function MoveTo(v: DateTime, year: int, month: int): (moved: Outcome<DateTime>)
    requires v.Valid() && 1 <= month <= 12
    ensures moved.Done? ==> moved.value.Valid()
  {
    if year < -0x8000_0000 || year > 0x7fff_ffff then OverflowError
    else if year < 1 || year > 9999 then ValueError
    else Done(DateTime(year, month, if v.day <= DaysInMonth(year, month) then v.day
      else DaysInMonth(year, month), v.micros))
  }

  function ShiftMonths(v: DateTime, months: int): (shifted: Outcome<DateTime>)
    requires v.Valid()
    ensures shifted.Done? ==> shifted.value.Valid()
  {
    var index := MonthIndex(v.year, v.month) + months;
    MoveTo(v, index / 12, index % 12 + 1)
  }

  function ShiftYears(v: DateTime, years: int): (shifted: Outcome<DateTime>)
    requires v.Valid()
    ensures shifted.Done? ==> shifted.value.Valid()
  {
    MoveTo(v, v.year + years, v.month)
  }

  function InstantOf(moved: Outcome<DateTime>): Outcome<int>
    requires moved.Done? ==> moved.value.Valid()
  {
    match moved
    case Done(v) => Done(v.Instant())
    case ValueError => ValueError
    case OverflowError => OverflowError
  }

  datatype Unit = Hours | Days | Weeks | Months | Years

  datatype Token =
    | Today | Yesterday | DayBeforeYesterday
    | ThisWeek | LastWeek | LastWeekend
    | ThisMonth | LastMonth
    | ThisYear | LastYear
    | Rolling(count: nat, unit: Unit)
    | ExplicitDay(year: nat, month: nat, day: nat)
    | ExplicitMonth(year: nat, month: nat)
    | MonthDay(month: nat, day: nat)

  function Midnight(now: DateTime): int
    requires now.Valid()
  {
    now.DayNumber() * 86_400_000_000
  }

  /** Midnight of the Monday of the current week. */
  function WeekStart(now: DateTime): int
    requires now.Valid()
  {
    (now.DayNumber() - now.DayNumber() % 7) * 86_400_000_000
  }

  function RollingStart(now: DateTime, count: int, unit: Unit): Outcome<int>
    requires now.Valid()
  {
    match unit
    case Hours => Minus(now.Instant(), count * 3_600_000_000)
    case Days => Minus(now.Instant(), count * 86_400_000_000)
    case Weeks => Minus(now.Instant(), count * 604_800_000_000)
    case Months => InstantOf(ShiftMonths(now, -count))
    case Years => InstantOf(ShiftYears(now, -count))
  }

  function OneDay(year: int, month: int, day: int): (p: Outcome<Period>)
    ensures p.Done? ==> p.value.start < p.value.end
  {
    if !ValidDate(year, month, day) then ValueError
    else
      var start := DateTime(year, month, day, 0).Instant();
      if start + DAY >= MonthStart(END_OF_MONTHS) * DAY then OverflowError
      else MakePeriod(start, start + DAY)
  }

  function PreviousMonth(now: DateTime): (p: Outcome<Period>)
    requires now.Valid()
    ensures p.Done? ==> p.value.start < p.value.end
  {
    var thisMonth := DateTime(now.year, now.month, 1, 0);
    Ending(InstantOf(ShiftMonths(thisMonth, -1)), thisMonth.Instant())
  }

  function WholeMonth(year: int, month: int): (p: Outcome<Period>)
    ensures p.Done? ==> p.value.start < p.value.end
  {
    if !ValidDate(year, month, 1) then ValueError
    else
      var start := DateTime(year, month, 1, 0);
      match InstantOf(ShiftMonths(start, 1)) {
        case Done(end) => MakePeriod(start.Instant(), end)
        case ValueError => ValueError
        case OverflowError => OverflowError
      }
  }

  function ResolveToken(token: Token, now: DateTime): (p: Outcome<Period>)
    requires now.Valid()
    ensures p.Done? ==> p.value.start < p.value.end
  {
    var today := Midnight(now);
    match token
    case Today => MakePeriod(today, now.Instant())
    case Yesterday => Ending(Minus(today, DAY), today)
    case DayBeforeYesterday => Ending(Minus(today, 2 * DAY), today - DAY)
    case ThisWeek => MakePeriod(WeekStart(now), now.Instant())
    case LastWeek => Ending(Minus(WeekStart(now), 7 * DAY), WeekStart(now))
    case LastWeekend => Ending(Minus(WeekStart(now), 2 * DAY), WeekStart(now))
    case ThisMonth => MakePeriod(DateTime(now.year, now.month, 1, 0).Instant(), now.Instant())
    case LastMonth => PreviousMonth(now)
    case ThisYear => MakePeriod(DateTime(now.year, 1, 1, 0).Instant(), now.Instant())
    case LastYear =>
      if now.year == 1 then ValueError
      else MakePeriod(DateTime(now.year - 1, 1, 1, 0).Instant(), DateTime(now.year, 1, 1, 0).Instant())
    case Rolling(count, unit) =>
      if count == 0 then ValueError else Ending(RollingStart(now, count, unit), now.Instant())
    case ExplicitDay(year, month, day) => OneDay(year, month, day)
    case ExplicitMonth(year, month) => WholeMonth(year, month)
    case MonthDay(month, day) => OneDay(now.year, month, day)
  }

  /** The tokens are resolved from left to right; the first that raises decides. */
  function ResolveTokens(tokens: seq<Token>, now: DateTime): Outcome<seq<Period>>
    requires now.Valid()
  {
    if tokens == [] then Done([])
    else
      match ResolveToken(tokens[0], now) {
        case ValueError => ValueError
        case OverflowError => OverflowError
        case Done(first) =>
          match ResolveTokens(tokens[1..], now) {
            case Done(rest) => Done([first] + rest)
            case ValueError => ValueError
            case OverflowError => OverflowError
          }
      }
  }

  /** Conversion to UTC raises before 0001-01-01 09:00 local. */
  function WithinLimit(periods: seq<Period>): Outcome<bool> {
    if periods == [] then Done(true)
    else if periods[0].end < TOKYO_OFFSET || periods[0].start < TOKYO_OFFSET then OverflowError
    else if periods[0].end - periods[0].start > MAX_PERIOD then Done(false)
    else WithinLimit(periods[1..])
  }

  /** A question after scanning: its period tokens in order, whether an unsupported suffix
      follows one of them, and whether it carries both range words. */
  datatype Question = Question(tokens: seq<Token>, unsupportedSuffix: bool, ranged: bool)

  /** What `resolve` does: return periods, return None, or raise. */
  datatype Resolution = Resolved(periods: seq<Period>) | Unresolved | Raised

  function Limited(periods: seq<Period>): Resolution {
    match WithinLimit(periods)
    case Done(true) => Resolved(periods)
    case Done(false) => Unresolved
    case ValueError => Unresolved
    case OverflowError => Raised
  }

  function Resolve(question: Question, expectedCount: int, now: DateTime): Resolution
    requires now.Valid()
  {
    if question.unsupportedSuffix then Unresolved
    else
      match ResolveTokens(question.tokens, now) {
        case ValueError => Unresolved
        case OverflowError => Raised
        case Done(periods) =>
          if expectedCount == 1 && |periods| == 1 then Limited(periods)
          else if expectedCount == 1 && |periods| == 2 && question.ranged && periods[0].start < periods[1].end then
            Limited([Period(periods[0].start, periods[1].end)])
          else if expectedCount == 2 && |periods| == 2 then Limited(periods)
          else Unresolved
      }
  }

  // --- Facts about the calendar ---

  lemma {:induction false} MonthsAreLong(first: int, last: int)
    requires 12 <= first <= last
    ensures MonthStart(first) + 28 * (last - first) <= MonthStart(last) <= MonthStart(first) + 31 * (last - first)
    decreases last
  {
    if first < last {
      MonthsAreLong(first, last - 1);
    }
  }

  lemma IndexRoundTrip(year: int, month: int)
    requires 1 <= month <= 12
    ensures MonthIndex(year, month) / 12 == year && MonthIndex(year, month) % 12 + 1 == month
  {
  }

  lemma {:induction false} NextMonthStart(year: int, month: int)
    requires year >= 1 && 1 <= month <= 12
    ensures MonthStart(MonthIndex(year, month) + 1) == MonthStart(MonthIndex(year, month)) + DaysInMonth(year, month)
  {
    IndexRoundTrip(year, month);
  }

  lemma SameMonthIndex(t: DateTime, year: int, month: int)
    requires t.Valid() && 1 <= month <= 12
    ensures t.Index() == MonthIndex(year, month) <==> t.year == year && t.month == month
  {
    IndexRoundTrip(t.year, t.month);
    IndexRoundTrip(year, month);
  }

  lemma {:induction false} MonthsAreOrdered(i: int, j: int)
    requires 12 <= i < j
    ensures MonthStart(i + 1) <= MonthStart(j)
  {
    MonthsAreLong(i + 1, j);
  }

  lemma {:induction false} InOwnMonth(t: DateTime)
    requires t.Valid()
    ensures MonthStart(t.Index()) <= t.DayNumber() < MonthStart(t.Index() + 1)
  {
    NextMonthStart(t.year, t.month);
  }

  /** A date lies in the month that its fields name and in no other. */
  lemma {:induction false} DatesFillMonths(t: DateTime, index: int)
    requires t.Valid() && index >= 12
    ensures MonthStart(index) <= t.DayNumber() < MonthStart(index + 1) <==> t.Index() == index
  {
    InOwnMonth(t);
    if t.Index() < index {
      MonthsAreOrdered(t.Index(), index);
    } else if index < t.Index() {
      MonthsAreOrdered(index, t.Index());
    }
  }

  lemma InstantInDays(t: DateTime, first: int, last: int)
    requires t.Valid()
    ensures first * 86_400_000_000 <= t.Instant() < last * 86_400_000_000 <==> first <= t.DayNumber() < last
  {
  }

  lemma EarlierMonth(u: DateTime, v: DateTime)
    requires u.Valid() && v.Valid() && u.Index() < v.Index()
    ensures u.DayNumber() < v.DayNumber() && u.Instant() < v.Instant()
  {
    NextMonthStart(u.year, u.month);
    MonthsAreLong(u.Index() + 1, v.Index());
  }

  lemma {:induction false} InstantOrder(u: DateTime, v: DateTime)
    requires u.Valid() && v.Valid()
    ensures u.Instant() <= v.Instant() <==>
              u.Index() < v.Index()
                || (u.Index() == v.Index() && (u.day < v.day || (u.day == v.day && u.micros <= v.micros)))
  {
    if u.Index() < v.Index() {
      EarlierMonth(u, v);
    } else if v.Index() < u.Index() {
      EarlierMonth(v, u);
    }
  }

  // --- What a returned period is ---

  lemma {:induction false} LimitMeans(periods: seq<Period>)
    ensures WithinLimit(periods) == Done(true) ==>
              forall p :: p in periods ==> p.start >= TOKYO_OFFSET && p.end - p.start <= MAX_PERIOD
  {
    if periods != [] {
      LimitMeans(periods[1..]);
      assert periods == [periods[0]] + periods[1..];
    }
  }

  lemma {:induction false} TokenPeriodsAreOrdered(tokens: seq<Token>, now: DateTime)
    requires now.Valid()
    ensures var r := ResolveTokens(tokens, now);
            r.Done? ==> |r.value| == |tokens| && forall p :: p in r.value ==> p.start < p.end
  {
    if tokens != [] {
      TokenPeriodsAreOrdered(tokens[1..], now);
    }
  }

  /** A local instant as the query layer receives it, counted from the UTC epoch. */
  function AsMoment(instant: int): Moment {
    Aware(instant - TOKYO_OFFSET - 62_135_596_800_000_000)
  }

  /** Whenever `resolve` returns periods there are as many as expected, each is non-empty and at
      most ninety days long, and the query service accepts it. */
  lemma {:induction false} ReturnedPeriodsAreAccepted(question: Question, expectedCount: int, now: DateTime)
    requires now.Valid() && Resolve(question, expectedCount, now).Resolved?
    ensures var periods := Resolve(question, expectedCount, now).periods;
            && |periods| == expectedCount
            && (forall p :: p in periods ==>
               0 < p.end - p.start <= 90 * DAY && ValidatePeriod(AsMoment(p.start), AsMoment(p.end)).Success?)
  {
    TokenPeriodsAreOrdered(question.tokens, now);
    LimitMeans(Resolve(question, expectedCount, now).periods);
  }

  // --- What a period holds ---

  predicate Covers(token: Token, now: DateTime, t: DateTime)
    requires now.Valid() && t.Valid() && ResolveToken(token, now).Done?
  {
    ResolveToken(token, now).value.start <= t.Instant() < ResolveToken(token, now).value.end
  }

  lemma {:induction false} FirstOfMonth(year: int, month: int)
    requires ValidDate(year, month, 1)
    ensures DateTime(year, month, 1, 0).Instant() == MonthStart(MonthIndex(year, month)) * 86_400_000_000
  {
  }

  lemma {:induction false} ShiftedFirst(year: int, month: int, months: int)
    requires ValidDate(year, month, 1)
    ensures var shifted := ShiftMonths(DateTime(year, month, 1, 0), months);
            shifted.Done? ==>
              && MonthIndex(year, month) + months >= 12
              && shifted.value.Instant() == MonthStart(MonthIndex(year, month) + months) * 86_400_000_000
  {
    var shifted := ShiftMonths(DateTime(year, month, 1, 0), months);
    if shifted.Done? {
      ShiftMovesIndex(DateTime(year, month, 1, 0), months);
      FirstOfMonth(shifted.value.year, shifted.value.month);
    }
  }

  /** The days of one month, as instants. */
  function MonthSpan(index: int): Period
    requires index >= 12
  {
    Period(MonthStart(index) * 86_400_000_000, MonthStart(index + 1) * 86_400_000_000)
  }

  lemma {:induction false} SpanHoldsMonth(index: int, t: DateTime)
    requires index >= 12 && t.Valid()
    ensures MonthSpan(index).start <= t.Instant() < MonthSpan(index).end <==> t.Index() == index
  {
    InstantInDays(t, MonthStart(index), MonthStart(index + 1));
    DatesFillMonths(t, index);
  }

  lemma {:induction false} WholeMonthSpan(year: int, month: int)
    requires WholeMonth(year, month).Done?
    ensures ValidDate(year, month, 1) && WholeMonth(year, month).value == MonthSpan(MonthIndex(year, month))
  {
    FirstOfMonth(year, month);
    ShiftedFirst(year, month, 1);
  }

  lemma {:induction false} PreviousMonthSpan(now: DateTime)
    requires now.Valid() && PreviousMonth(now).Done?
    ensures now.Index() > 12 && PreviousMonth(now).value == MonthSpan(now.Index() - 1)
  {
    FirstOfMonth(now.year, now.month);
    ShiftedFirst(now.year, now.month, -1);
  }

  lemma {:induction false} MonthTokens(year: nat, month: nat, now: DateTime)
    requires now.Valid()
    ensures ResolveToken(ExplicitMonth(year, month), now) == WholeMonth(year, month)
    ensures ResolveToken(LastMonth, now) == PreviousMonth(now)
  {
  }

  /** The period of a month holds exactly the instants whose date is in that month. */
  lemma {:induction false} MonthPeriodIsTheMonth(year: nat, month: nat, now: DateTime, t: DateTime)
    requires now.Valid() && t.Valid()
    ensures ResolveToken(ExplicitMonth(year, month), now).Done? ==>
              (Covers(ExplicitMonth(year, month), now, t) <==> t.year == year && t.month == month)
  {
    MonthTokens(year, month, now);
    if WholeMonth(year, month).Done? {
      WholeMonthSpan(year, month);
      SpanHoldsMonth(MonthIndex(year, month), t);
      SameMonthIndex(t, year, month);
    }
  }

  /** Last month is the month before the current one. */
  lemma {:induction false} LastMonthIsTheMonthBefore(now: DateTime, t: DateTime)
    requires now.Valid() && t.Valid()
    ensures ResolveToken(LastMonth, now).Done? ==> (Covers(LastMonth, now, t) <==> t.Index() == now.Index() - 1)
  {
    MonthTokens(1, 1, now);
    if PreviousMonth(now).Done? {
      PreviousMonthSpan(now);
      SpanHoldsMonth(now.Index() - 1, t);
    }
  }

  lemma {:induction false} DayNumbersAreDates(u: DateTime, v: DateTime)
    requires u.Valid() && v.Valid()
    ensures u.DayNumber() == v.DayNumber() <==> u.year == v.year && u.month == v.month && u.day == v.day
  {
    InOwnMonth(v);
    DatesFillMonths(u, v.Index());
    SameMonthIndex(u, v.year, v.month);
  }

  /** An explicit day, or a day of this year, holds exactly the instants with that date. */
  lemma {:induction false} DayPeriodIsTheDay(year: int, month: int, day: int, t: DateTime)
    requires t.Valid() && OneDay(year, month, day).Done?
    ensures OneDay(year, month, day).value.start <= t.Instant() < OneDay(year, month, day).value.end
       <==> t.year == year && t.month == month && t.day == day
  {
    var first := DateTime(year, month, day, 0);
    InstantInDays(t, first.DayNumber(), first.DayNumber() + 1);
    DayNumbersAreDates(t, first);
  }

  lemma WeekArithmetic(day: int)
    ensures (day - day % 7) * 86_400_000_000 == (day / 7) * 604_800_000_000
    ensures (day / 7) * 604_800_000_000 % 604_800_000_000 == 0
    ensures 7 * (day / 7) <= day < 7 * (day / 7) + 7
  {
    assert day - day % 7 == 7 * (day / 7);
  }

  /** Last week is the seven days from a Monday; last weekend is its Saturday and Sunday. */
  lemma {:induction false} WeeksStartOnMonday(now: DateTime)
    requires now.Valid()
    requires ResolveToken(LastWeek, now).Done? && ResolveToken(LastWeekend, now).Done?
    ensures var week := ResolveToken(LastWeek, now).value;
            var weekend := ResolveToken(LastWeekend, now).value;
            && week.end % (7 * DAY) == 0 && week.end == week.start + 7 * DAY
            && weekend == Period(week.start + 5 * DAY, week.end)
            && week.end <= now.Instant() < week.end + 7 * DAY
  {
    WeekArithmetic(now.DayNumber());
  }

  // --- Shifting ---

  /** Moving by a negative number of months always gives an earlier moment. */
  lemma ShiftIsEarlier(v: DateTime, months: int)
    requires v.Valid() && months < 0 && ShiftMonths(v, months).Done?
    ensures ShiftMonths(v, months).value.Instant() < v.Instant()
  {
    ShiftMovesIndex(v, months);
    EarlierMonth(ShiftMonths(v, months).value, v);
  }

  lemma ShiftMovesIndex(v: DateTime, months: int)
    requires v.Valid() && ShiftMonths(v, months).Done?
    ensures ShiftMonths(v, months).value.Index() == v.Index() + months
  {
  }

  /** Shifting by whole years is shifting by twelve months each, errors included. */
  lemma YearsAreTwelveMonths(v: DateTime, years: int)
    requires v.Valid()
    ensures ShiftYears(v, years) == ShiftMonths(v, 12 * years)
  {
    IndexRoundTrip(v.year + years, v.month);
  }

  /** Two shifts make one exactly when the month passed through did not cut the day below what
      the last month allows. */
  lemma ShiftsAddExactly(v: DateTime, a: int, b: int)
    requires v.Valid() && ShiftMonths(v, a).Done? && ShiftMonths(v, a + b).Done?
    ensures var middle, last := LengthAfter(v, a), LengthAfter(v, a + b);
            ShiftMonths(ShiftMonths(v, a).value, b) == ShiftMonths(v, a + b) <==> !(middle < v.day && middle < last)
  {
    ShiftMovesIndex(v, a);
  }

  function LengthAfter(v: DateTime, months: int): int {
    var index := MonthIndex(v.year, v.month) + months;
    DaysInMonth(index / 12, index % 12 + 1)
  }

  lemma ShiftsAddUpToDay28(v: DateTime, a: int, b: int)
    requires v.Valid() && v.day <= 28 && ShiftMonths(v, a).Done?
    ensures ShiftMonths(ShiftMonths(v, a).value, b) == ShiftMonths(v, a + b)
  {
    ShiftMovesIndex(v, a);
  }

  /** Order is not kept in general: 30 March 23:00 precedes 31 March 01:00, and one month earlier
      the two fall on the same day in the opposite order. */
  lemma ShiftCanInvertOrder()
    ensures var u, v := DateTime(2025, 3, 30, 23 * HOUR), DateTime(2025, 3, 31, HOUR);
            && u.Valid() && v.Valid() && u.Instant() < v.Instant()
            && ShiftMonths(u, -1).Done? && ShiftMonths(v, -1).Done?
            && ShiftMonths(v, -1).value.Instant() < ShiftMonths(u, -1).value.Instant()
  {
    var u, v := DateTime(2025, 3, 30, 23 * HOUR), DateTime(2025, 3, 31, HOUR);
    assert u.Index() == v.Index() == 24302;
    assert ShiftMonths(u, -1) == Done(DateTime(2025, 2, 28, 23 * HOUR));
    assert ShiftMonths(v, -1) == Done(DateTime(2025, 2, 28, HOUR));
  }

  /** Order is kept exactly unless both days are cut to the same last day and the earlier day has
      the later time; in particular it is kept between midnights. */
  lemma {:induction false} ShiftKeepsOrderExactly(u: DateTime, v: DateTime, months: int)
    requires u.Valid() && v.Valid() && u.Instant() <= v.Instant()
    requires ShiftMonths(u, months).Done? && ShiftMonths(v, months).Done?
    ensures ShiftMonths(u, months).value.Instant() <= ShiftMonths(v, months).value.Instant()
       <==> !(u.Index() == v.Index() && LengthAfter(u, months) <= u.day < v.day && v.micros < u.micros)
  {
    InstantOrder(u, v);
    ShiftMovesIndex(u, months);
    ShiftMovesIndex(v, months);
    InstantOrder(ShiftMonths(u, months).value, ShiftMonths(v, months).value);
  }

  // --- Which expressions can resolve ---

  function Alone(token: Token): Question {
    Question([token], false, false)
  }

  lemma ResolveAlone(token: Token, now: DateTime)
    requires now.Valid()
    ensures Resolve(Alone(token), 1, now) ==
            (match ResolveToken(token, now)
             case ValueError => Unresolved
             case OverflowError => Raised
             case Done(p) => Limited([p]))
  {
    assert ResolveTokens(Alone(token).tokens[1..], now) == Done([]);
    if ResolveToken(token, now).Done? {
      assert [ResolveToken(token, now).value] + [] == [ResolveToken(token, now).value];
    }
  }

  lemma {:induction false} DayIsCutALittle(v: DateTime, months: int)
    requires v.Valid() && ShiftMonths(v, months).Done?
    ensures ShiftMonths(v, months).value.day <= v.day <= ShiftMonths(v, months).value.day + 3
    ensures ShiftMonths(v, months).value.micros == v.micros
  {
  }

  /** Going back moves between 28 and 31 days a month, at most three more where the day is cut. */
  lemma {:induction false} ShiftDistance(v: DateTime, months: int)
    requires v.Valid() && months > 0 && ShiftMonths(v, -months).Done?
    ensures var back := ShiftMonths(v, -months).value;
            28 * months <= v.DayNumber() - back.DayNumber() <= 31 * months + 3 && back.micros == v.micros
  {
    var back := ShiftMonths(v, -months).value;
    ShiftMovesIndex(v, -months);
    DayIsCutALittle(v, -months);
    assert back.Index() == v.Index() - months;
    MonthsAreLong(back.Index(), v.Index());
  }

  lemma {:induction false} LastYearIsLong(now: DateTime)
    requires now.Valid() && now.year >= 2
    ensures DateTime(now.year, 1, 1, 0).Instant() - DateTime(now.year - 1, 1, 1, 0).Instant() > MAX_PERIOD
  {
    FirstOfMonth(now.year, 1);
    FirstOfMonth(now.year - 1, 1);
    MonthsAreLong(MonthIndex(now.year - 1, 1), MonthIndex(now.year, 1));
  }

  lemma {:induction false} FarShiftIsLong(now: DateTime, months: int)
    requires now.Valid() && months >= 4 && ShiftMonths(now, -months).Done?
    ensures now.Instant() - ShiftMonths(now, -months).value.Instant() > MAX_PERIOD
  {
    ShiftDistance(now, months);
  }

  lemma {:induction false} RollingMonthsPeriod(now: DateTime, count: nat, unit: Unit)
    requires now.Valid() && (unit == Months || unit == Years)
    ensures var p := ResolveToken(Rolling(count, unit), now);
            var start := if unit == Months then ShiftMonths(now, -(count as int)) else ShiftYears(now, -(count as int));
            p.Done? ==> count > 0 && start.Done? && p.value == Period(start.value.Instant(), now.Instant())
  {
  }

  lemma {:induction false} LongRollingMonths(count: nat, now: DateTime)
    requires now.Valid() && count >= 4 && ResolveToken(Rolling(count, Months), now).Done?
    ensures ResolveToken(Rolling(count, Months), now).value.end
            - ResolveToken(Rolling(count, Months), now).value.start > MAX_PERIOD
  {
    RollingMonthsPeriod(now, count, Months);
    FarShiftIsLong(now, count);
  }

  lemma {:induction false} LongRollingYears(count: nat, now: DateTime)
    requires now.Valid() && ResolveToken(Rolling(count, Years), now).Done?
    ensures ResolveToken(Rolling(count, Years), now).value.end
            - ResolveToken(Rolling(count, Years), now).value.start > MAX_PERIOD
  {
    RollingMonthsPeriod(now, count, Years);
    var n: int := count;
    YearsAreTwelveMonths(now, -n);
    assert 12 * -n == -(12 * n);
    FarShiftIsLong(now, 12 * n);
  }

  lemma {:induction false} LongPeriod(token: Token, now: DateTime)
    requires now.Valid() && ResolveToken(token, now).Done?
    requires token.LastYear? || (token.Rolling? && (token.unit == Years || (token.unit == Months && token.count >= 4)))
    ensures ResolveToken(token, now).value.end - ResolveToken(token, now).value.start > MAX_PERIOD
  {
    if token.LastYear? {
      LastYearIsLong(now);
    } else if token.unit == Months {
      LongRollingMonths(token.count, now);
    } else {
      LongRollingYears(token.count, now);
    }
  }

  /** A whole year never fits into ninety days, so last year and any number of past years can
      not resolve on their own; nor can four or more past months. */
  lemma LongExpressionsNeverResolve(token: Token, now: DateTime)
    requires now.Valid()
    requires token.LastYear? || (token.Rolling? && (token.unit == Years || (token.unit == Months && token.count >= 4)))
    ensures !Resolve(Alone(token), 1, now).Resolved?
  {
    ResolveAlone(token, now);
    if ResolveToken(token, now).Done? {
      LongPeriod(token, now);
      LimitMeans([ResolveToken(token, now).value]);
    }
  }

  lemma {:induction false} ShortPeriod(count: int, now: DateTime)
    requires now.Valid() && now.year >= 2 && 1 <= count <= 2
    ensures var p := ResolveToken(Rolling(count, Months), now);
            p.Done? && TOKYO_OFFSET <= p.value.start < p.value.end && p.value.end - p.value.start <= MAX_PERIOD
  {
    ShiftDistance(now, count);
    MonthsAreLong(12, now.Index() - count);
  }

  /** One or two past months always resolve from year 2 on. */
  lemma TwoMonthsAlwaysResolve(count: int, now: DateTime)
    requires now.Valid() && now.year >= 2 && 1 <= count <= 2
    ensures Resolve(Alone(Rolling(count, Months)), 1, now).Resolved?
  {
    ResolveAlone(Rolling(count, Months), now);
    ShortPeriod(count, now);
    LimitAlone(ResolveToken(Rolling(count, Months), now).value);
  }

  lemma LimitAlone(p: Period)
    ensures WithinLimit([p]) == if p.end < TOKYO_OFFSET || p.start < TOKYO_OFFSET then OverflowError
            else Done(p.end - p.start <= MAX_PERIOD)
  {
    assert WithinLimit([p][1..]) == Done(true);
  }
}
