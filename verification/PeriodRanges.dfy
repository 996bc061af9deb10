/** What the periods of a resolved question of app/agent/period_resolver.py hold: for one expression,
    for two that are compared, and for a range from one expression to another. */
module PeriodRanges {
  import opened Common
  import opened PeriodResolving
  import opened PeriodFates

  // --- Every instant is a moment ---

  lemma {:induction false} MonthHolding(day: int, index: int, end: int) returns (month: int)
    requires 12 <= index < end && MonthStart(index) <= day < MonthStart(end)
    ensures 12 <= month < end && MonthStart(month) <= day < MonthStart(month + 1)
    decreases end - index
  {
    if day < MonthStart(index + 1) {
      month := index;
    } else {
      month := MonthHolding(day, index + 1, end);
    }
  }

  lemma MonthOfIndex(index: int)
    requires 12 <= index < END_OF_MONTHS
    ensures 1 <= index / 12 <= 9999 && 1 <= index % 12 + 1 <= 12 && MonthIndex(index / 12, index % 12 + 1) == index
  {
  }

  lemma {:induction false} MomentAt(day: int, micros: int) returns (t: DateTime)
    requires 0 <= day < MonthStart(END_OF_MONTHS) && 0 <= micros < 86_400_000_000
    ensures t.Valid() && t.DayNumber() == day && t.micros == micros
  {
    FirstMonthOnly(12);
    var month := MonthHolding(day, 12, END_OF_MONTHS);
    MonthOfIndex(month);
    NextMonthStart(month / 12, month % 12 + 1);
    t := DateTime(month / 12, month % 12 + 1, day - MonthStart(month) + 1, micros);
  }

  lemma InstantSplits(instant: int, days: int)
    requires 0 <= instant < days * 86_400_000_000
    ensures 0 <= instant / 86_400_000_000 < days
    ensures instant / 86_400_000_000 * 86_400_000_000 + instant % 86_400_000_000 == instant
  {
  }

  lemma {:induction false} MomentOf(instant: int) returns (t: DateTime)
    requires 0 <= instant < MonthStart(END_OF_MONTHS) * 86_400_000_000
    ensures t.Valid() && t.Instant() == instant
  {
    InstantSplits(instant, MonthStart(END_OF_MONTHS));
    t := MomentAt(instant / 86_400_000_000, instant % 86_400_000_000);
  }

  // --- Every period lies in the calendar ---

  lemma {:induction false} NowIsInCalendar(now: DateTime)
    requires now.Valid()
    ensures Midnight(now) <= now.Instant() < MonthStart(END_OF_MONTHS) * 86_400_000_000
  {
    InOwnMonth(now);
    MonthsAreLong(now.Index() + 1, END_OF_MONTHS);
  }

  lemma OneDayEnds(year: int, month: int, day: int, days: int)
    requires OneDay(year, month, day).Done? && days == MonthStart(END_OF_MONTHS)
    ensures OneDay(year, month, day).value.end < days * 86_400_000_000
  {
  }

  lemma {:induction false} DatesEndInCalendar(token: Token, now: DateTime)
    requires now.Valid() && ResolveToken(token, now).Done? && (token.ExplicitDay? || token.MonthDay?)
    ensures ResolveToken(token, now).value.end <= MonthStart(END_OF_MONTHS) * 86_400_000_000
  {
    var year: int := if token.ExplicitDay? then token.year else now.year;
    OneDayEnds(year, token.month, token.day, MonthStart(END_OF_MONTHS));
  }

  lemma {:induction false} MonthEndsInCalendar(year: nat, month: nat, now: DateTime)
    requires now.Valid() && ResolveToken(ExplicitMonth(year, month), now).Done?
    ensures ResolveToken(ExplicitMonth(year, month), now).value.end <= MonthStart(END_OF_MONTHS) * 86_400_000_000
  {
    MonthTokens(year, month, now);
    WholeMonthOutcome(year, month);
    MonthsAreOrdered(MonthIndex(year, month), END_OF_MONTHS);
  }

  lemma {:induction false} PastEndsByNow(token: Token, now: DateTime)
    requires now.Valid() && ResolveToken(token, now).Done?
    requires !token.ExplicitDay? && !token.MonthDay? && !token.ExplicitMonth?
    ensures ResolveToken(token, now).value.end <= now.Instant()
  {
    if EndsNow(token) {
      ThisEndsNow(token, now);
    } else if token.LastMonth? {
      MonthTokens(1, 1, now);
      PreviousMonthOutcome(now);
    } else if token.LastYear? {
      YearBegins(now);
      FirstOfMonth(now.year, 1);
    } else {
      WeekStartsBefore(now);
    }
  }

  lemma {:induction false} PeriodIsInCalendar(token: Token, now: DateTime)
    requires now.Valid() && ResolveToken(token, now).Done?
    ensures var p := ResolveToken(token, now).value;
            0 <= p.start < p.end <= MonthStart(END_OF_MONTHS) * 86_400_000_000
  {
    TokenFate(token, now);
    PeriodIsRegular(token, now);
    if token.ExplicitMonth? {
      MonthEndsInCalendar(token.year, token.month, now);
    } else if token.ExplicitDay? || token.MonthDay? {
      DatesEndInCalendar(token, now);
    } else {
      PastEndsByNow(token, now);
      NowIsInCalendar(now);
    }
  }

  // --- What an expression covers ---

  /** The moment is not before everything that the expression covers. */
  ghost predicate IsReached(token: Token, now: DateTime, t: DateTime)
    requires now.Valid() && t.Valid()
  {
    exists u: DateTime :: u.Valid() && Holds(token, now, u) && u.Instant() <= t.Instant()
  }

  /** The moment is not after everything that the expression covers. */
  ghost predicate IsNotOver(token: Token, now: DateTime, t: DateTime)
    requires now.Valid() && t.Valid()
  {
    exists u: DateTime :: u.Valid() && Holds(token, now, u) && t.Instant() <= u.Instant()
  }

  lemma {:induction false} MomentCovered(token: Token, now: DateTime, instant: int) returns (u: DateTime)
    requires now.Valid() && ResolveToken(token, now).Done?
    requires ResolveToken(token, now).value.start <= instant < ResolveToken(token, now).value.end
    ensures u.Valid() && u.Instant() == instant && Holds(token, now, u)
  {
    PeriodIsInCalendar(token, now);
    u := MomentOf(instant);
  }

  lemma {:induction false} ReachedFromStart(token: Token, now: DateTime, t: DateTime)
    requires now.Valid() && t.Valid() && ResolveToken(token, now).Done?
    ensures IsReached(token, now, t) <==> ResolveToken(token, now).value.start <= t.Instant()
  {
    if ResolveToken(token, now).value.start <= t.Instant() {
      var u := MomentCovered(token, now, ResolveToken(token, now).value.start);
    }
  }

  lemma {:induction false} NotOverUntilEnd(token: Token, now: DateTime, t: DateTime)
    requires now.Valid() && t.Valid() && ResolveToken(token, now).Done?
    ensures IsNotOver(token, now, t) <==> t.Instant() < ResolveToken(token, now).value.end
  {
    if t.Instant() < ResolveToken(token, now).value.end {
      var u := MomentCovered(token, now, ResolveToken(token, now).value.end - 1);
    }
  }

  // --- What a resolved question holds ---

  predicate Within(p: Period, t: DateTime)
    requires t.Valid()
  {
    p.start <= t.Instant() < p.end
  }

  /** The periods hold what the question says: that of one expression, from the start of the first to
      the end of the second expression of a range, or each of two expressions in turn. */
  ghost predicate SaysWhatIsAsked(
    periods: seq<Period>, question: Question, expectedCount: int, now: DateTime, t: DateTime)
    requires now.Valid() && t.Valid()
  {
    var tokens := question.tokens;
    if expectedCount == 2 then
      && |tokens| == |periods| == 2
      && (Within(periods[0], t) <==> Holds(tokens[0], now, t)) && (Within(periods[1], t) <==> Holds(tokens[1], now, t))
    else
      && expectedCount == 1 && |periods| == 1
      && if |tokens| == 1 then Within(periods[0], t) <==> Holds(tokens[0], now, t)
         else
           && |tokens| == 2 && question.ranged
           && (Within(periods[0], t) <==> IsReached(tokens[0], now, t) && IsNotOver(tokens[1], now, t))
  }

  lemma {:induction false} LimitReturnsItsPeriods(periods: seq<Period>)
    ensures Limited(periods).Resolved? ==> Limited(periods).periods == periods
  {
  }

  /** Whatever `resolve` returns holds exactly the instants that the question asks for. */
  lemma {:induction false} ResolvedPeriodsSayWhatIsAsked(
    question: Question, expectedCount: int, now: DateTime, t: DateTime)
    requires now.Valid() && t.Valid() && Resolve(question, expectedCount, now).Resolved?
    ensures SaysWhatIsAsked(Resolve(question, expectedCount, now).periods, question, expectedCount, now, t)
  {
    var tokens := question.tokens;
    TokensReturn(tokens, now);
    var periods := ResolveTokens(tokens, now).value;
    LimitReturnsItsPeriods(periods);
    if |tokens| == 2 && expectedCount == 1 {
      LimitReturnsItsPeriods([Period(periods[0].start, periods[1].end)]);
      ReachedFromStart(tokens[0], now, t);
      NotOverUntilEnd(tokens[1], now, t);
    }
  }

  // --- Ranges between two dates ---

  /** The date that an expression names, if it names one. */
  predicate NamesDate(token: Token, now: DateTime, date: DateTime) {
    match token
    case ExplicitDay(year, month, day) => SameDate(date, year, month, day)
    case MonthDay(month, day) => SameDate(date, now.year, month, day)
    case _ => false
  }

  /** The date of a is not after the date of b, in fields. */
  predicate DateNotAfter(a: DateTime, b: DateTime) {
    a.year < b.year || (a.year == b.year && (a.month < b.month || (a.month == b.month && a.day <= b.day)))
  }

  lemma {:induction false} DatesInOrder(a: DateTime, b: DateTime)
    requires a.Valid() && b.Valid()
    ensures a.DayNumber() <= b.DayNumber() <==> DateNotAfter(a, b)
  {
    var (first, last) := (a.(micros := 0), b.(micros := 0));
    InstantOrder(first, last);
    assert first.Instant() == a.DayNumber() * 86_400_000_000 && last.Instant() == b.DayNumber() * 86_400_000_000;
    assert a.Index() < b.Index() <==> a.year < b.year || (a.year == b.year && a.month < b.month);
  }

  lemma {:induction false} DatePeriod(token: Token, now: DateTime, date: DateTime)
    requires now.Valid() && date.Valid() && NamesDate(token, now, date) && ResolveToken(token, now).Done?
    ensures ResolveToken(token, now).value.start == date.DayNumber() * 86_400_000_000
    ensures ResolveToken(token, now).value.end == (date.DayNumber() + 1) * 86_400_000_000
  {
    OneDayFate(date.year, date.month, date.day);
  }

  /** A range between two dates holds exactly the moments whose date is neither before the first nor
      after the second. */
  lemma {:induction false} DateRangeHoldsItsDays(
    question: Question, now: DateTime, first: DateTime, last: DateTime, t: DateTime)
    requires now.Valid() && t.Valid() && first.Valid() && last.Valid() && |question.tokens| == 2
    requires NamesDate(question.tokens[0], now, first) && NamesDate(question.tokens[1], now, last)
    requires Resolve(question, 1, now).Resolved?
    ensures |Resolve(question, 1, now).periods| == 1
    ensures Within(Resolve(question, 1, now).periods[0], t) <==> DateNotAfter(first, t) && DateNotAfter(t, last)
  {
    var tokens := question.tokens;
    ResolvedPeriodsSayWhatIsAsked(question, 1, now, t);
    TokensReturn(tokens, now);
    ReachedFromStart(tokens[0], now, t);
    NotOverUntilEnd(tokens[1], now, t);
    DatePeriod(tokens[0], now, first);
    DatePeriod(tokens[1], now, last);
    InstantInDays(t, first.DayNumber(), last.DayNumber() + 1);
    DatesInOrder(first, t);
    DatesInOrder(t, last);
  }

  // --- When two expressions resolve ---

  lemma {:induction false} LimitOfOne(p: Period)
    requires p.start < p.end
    ensures Limited([p]).Resolved? <==> p.start >= EARLIEST && p.end - p.start <= LIMIT_DAYS * DAY
  {
    LimitAlone(p);
  }

  lemma {:induction false} LimitOfTwo(p: Period, q: Period)
    requires p.start < p.end && q.start < q.end
    ensures Limited([p, q]).Resolved? <==>
              && p.start >= EARLIEST && p.end - p.start <= LIMIT_DAYS * DAY
              && q.start >= EARLIEST && q.end - q.start <= LIMIT_DAYS * DAY
  {
    assert [p, q][1..] == [q];
    LimitAlone(q);
  }

  /** Two compared expressions resolve exactly when each would on its own. */
  lemma {:induction false} ComparisonResolvesExactly(a: Token, b: Token, ranged: bool, now: DateTime)
    requires now.Valid()
    ensures Resolve(Question([a, b], false, ranged), 2, now).Resolved? <==>
              Resolve(Alone(a), 1, now).Resolved? && Resolve(Alone(b), 1, now).Resolved?
  {
    var tokens := [a, b];
    SingleExpression(a, now);
    SingleExpression(b, now);
    TokensReturn(tokens, now);
    if AllReturn(tokens, 2, now) {
      var periods := ResolveTokens(tokens, now).value;
      TokenFate(tokens[0], now);
      TokenFate(tokens[1], now);
      assert periods == [periods[0], periods[1]];
      LimitOfTwo(periods[0], periods[1]);
    } else {
      assert !Returns(tokens[0], now) || !Returns(tokens[1], now);
    }
  }

  /** A range between two dates resolves exactly when both are dates of the calendar but its last day,
      the first is not after the second and not the calendar's first day, and it is at most ninety
      days long. */
  lemma {:induction false} DateRangeResolvesExactly(a: Token, b: Token, now: DateTime, first: DateTime, last: DateTime)
    requires now.Valid() && first.Valid() && last.Valid()
    requires NamesDate(a, now, first) && NamesDate(b, now, last)
    ensures Resolve(Question([a, b], false, true), 1, now).Resolved? <==>
              && !SameDate(first, 9999, 12, 31) && !SameDate(last, 9999, 12, 31) && !SameDate(first, 1, 1, 1)
              && 0 <= last.DayNumber() - first.DayNumber() < LIMIT_DAYS
  {
    var tokens := [a, b];
    TokensReturn(tokens, now);
    assert AllReturn(tokens, 2, now) <==> Returns(tokens[0], now) && Returns(tokens[1], now);
    if AllReturn(tokens, 2, now) {
      var periods := ResolveTokens(tokens, now).value;
      TokenFate(tokens[0], now);
      DatePeriod(tokens[0], now, first);
      DatePeriod(tokens[1], now, last);
      if periods[0].start < periods[1].end {
        LimitOfOne(Period(periods[0].start, periods[1].end));
      }
    }
  }
}
