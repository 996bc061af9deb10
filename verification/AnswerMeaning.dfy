/** What the parts of the answer check mean: which record a call number names, what a path's value is
    called and in which unit, which timestamps a result mentions, which texts render an instant and
    which periods a record was made for. */
module AnswerMeaning {
  import opened Wrappers
  import opened AgentRecords
  import opened Common
  import opened AnswerValidation
  import opened VerifiedFallback
  import opened AgentTools
  import Alerting
  import Querying
  import PeriodResolving

  // --- Call numbers ---

  predicate IsNumbered(history: seq<ToolCall>) {
    forall i :: 0 <= i < |history| ==> history[i].index == i + 1
  }

  /** In a history numbered from one a call number names the call of that number, and nothing else. */
  lemma FetchIsByNumber(history: seq<ToolCall>, n: nat)
    requires IsNumbered(history)
    ensures 1 <= n <= |history| ==> Fetch(history, n) == Success(history[n - 1])
    ensures n == 0 || n > |history| ==> Fetch(history, n).Failure?
  {
  }

  // --- Labels and units ---

  /** What the last two components of a path say about the value there. */
  predicate IsCalled(path: Path, shown: Label, unit: Unit)
    requires path != []
  {
    var leaf := path[|path| - 1];
    match shown
    case LatestLabel(Temperature) => leaf == LatestKey(Alerting.Temperature) && unit == Celsius
    case LatestLabel(Humidity) => leaf == LatestKey(Alerting.Humidity) && unit == Percent
    case StatisticLabel(Temperature, statistic) =>
      && |path| >= 2 && path[|path| - 2] == MetricKey(Alerting.Temperature) && leaf == StatisticKey(statistic)
      && unit == (if statistic == Count then Items else Celsius)
    case StatisticLabel(Humidity, statistic) =>
      && |path| >= 2 && path[|path| - 2] == MetricKey(Alerting.Humidity) && leaf == StatisticKey(statistic)
      && unit == (if statistic == Count then Items else Percent)
    case DifferenceLabel(Temperature) => leaf == DifferenceKey(Alerting.Temperature) && unit == Celsius
    case DifferenceLabel(Humidity) => leaf == DifferenceKey(Alerting.Humidity) && unit == Percent
    case AlertTotalLabel => leaf == TotalCountKey && unit == Items
    case AlertValueLabel(_, _) => false
  }

  /** Apart from the values of alerts, a path has a label and unit exactly by that table. */
  lemma MeaningInPlainTerms(call: ToolCall, path: Path, shown: Label, unit: Option<Unit>)
    requires path != [] && !path[|path| - 1].AlertFieldKey?
    ensures MeaningOf(call, path) == Success(Meaning(shown, unit)) <==> unit.Some? && IsCalled(path, shown, unit.value)
  {
  }

  // --- Timestamps ---

  /** A result mentions a timestamp exactly when some path leads to it. */
  lemma {:induction false} MentionsIsReachable(value: Json, stamp: Stamp)
    ensures Mentions(value, stamp) <==> exists path: Path :: ResolvePath(value, path) == Success(Moment(stamp))
  {
    if Mentions(value, stamp) {
      var path := PathTo(value, stamp);
    }
    if path: Path :| ResolvePath(value, path) == Success(Moment(stamp)) {
      ReachedIsMentioned(value, path, stamp);
    }
  }

  lemma {:induction false} PathTo(value: Json, stamp: Stamp) returns (path: Path)
    requires Mentions(value, stamp)
    ensures ResolvePath(value, path) == Success(Moment(stamp))
    decreases value
  {
    match value
    case Moment(_) => path := [];
    case Object(fields) =>
      var k :| k in fields && Mentions(fields[k], stamp);
      var rest := PathTo(fields[k], stamp);
      path := [k] + rest;
      ResolveField(value, k, rest);
    case Array(items) =>
      var i :| 0 <= i < |items| && Mentions(items[i], stamp);
      var rest := PathTo(items[i], stamp);
      path := [Index(i)] + rest;
      ResolveItem(value, i, rest);
  }

  lemma {:induction false} ReachedIsMentioned(value: Json, path: Path, stamp: Stamp)
    requires ResolvePath(value, path) == Success(Moment(stamp))
    ensures Mentions(value, stamp)
    decreases |path|
  {
    if path != [] {
      if value.Object? {
        ReachedIsMentioned(value.fields[path[0]], path[1..], stamp);
      } else {
        ReachedIsMentioned(value.items[path[0].n], path[1..], stamp);
      }
    }
  }

  predicate IsEndOf(point: Point, stamp: Stamp) {
    stamp == point.bucketFrom || stamp == point.bucketTo
  }

  predicate IsTimeOfAlert(alert: Alerting.Alert, stamp: Stamp) {
    && stamp.offset == 0
    && (stamp.at == alert.startedAt || stamp.at == alert.lastDetectedAt || alert.resolvedAt == Some(stamp.at))
  }

  predicate IsTimeOf(dto: Dto, stamp: Stamp) {
    match dto
    case LatestDto(_, _, measuredAt, receivedAt) => measuredAt == Some(stamp) || receivedAt == Some(stamp)
    case StatisticsDto(overall) => IsEndOf(overall, stamp)
    case SeriesDto(from, to, points) =>
      stamp == from || stamp == to || exists k :: 0 <= k < |points| && IsEndOf(points[k], stamp)
    case ComparisonDto(first, second, _, _) => IsEndOf(first, stamp) || IsEndOf(second, stamp)
    case AlertsDto(from, to, _, alerts) =>
      stamp == from || stamp == to || exists k :: 0 <= k < |alerts| && IsTimeOfAlert(alerts[k], stamp)
  }

  /** A result mentions exactly its moments: a measurement's own and its receipt, the ends of its periods and buckets,
      and of each alert the start, the last detection and the resolution. */
  lemma {:induction false} ResultMentionsItsMoments(dto: Dto, stamp: Stamp)
    ensures Mentions(Dump(dto), stamp) <==> IsTimeOf(dto, stamp)
  {
    match dto
    case LatestDto(_, _, _, _) =>
      assert MeasuredAtKey in Dump(dto).fields && OtherKey("received_at") in Dump(dto).fields;
    case StatisticsDto(overall) => PeriodMentions(overall, stamp);
    case SeriesDto(_, _, points) => SeriesMentions(dto, stamp);
    case ComparisonDto(first, second, _, _) =>
      PeriodMentions(first, stamp);
      PeriodMentions(second, stamp);
      assert FirstKey in Dump(dto).fields && SecondKey in Dump(dto).fields;
    case AlertsDto(_, _, _, alerts) => AlertsMention(dto, stamp);
  }

  lemma NoMomentInMetric(m: Querying.MetricStatistics, stamp: Stamp)
    ensures !Mentions(DumpMetric(m), stamp)
  {
  }

  lemma {:induction false} PeriodMentions(point: Point, stamp: Stamp)
    ensures Mentions(DumpPeriod(point), stamp) <==> IsEndOf(point, stamp)
    ensures Mentions(DumpPoint(point), stamp) <==> IsEndOf(point, stamp)
  {
    NoMomentInMetric(point.temperature, stamp);
    NoMomentInMetric(point.humidity, stamp);
    assert PeriodFromKey in DumpPeriod(point).fields && PeriodToKey in DumpPeriod(point).fields;
    assert BucketFromKey in DumpPoint(point).fields && BucketToKey in DumpPoint(point).fields;
  }

  lemma {:induction false} PointsMention(points: seq<Point>, stamp: Stamp)
    ensures Mentions(Array(DumpPoints(points)), stamp) <==> exists k :: 0 <= k < |points| && IsEndOf(points[k], stamp)
  {
    var items := DumpPoints(points);
    forall k | 0 <= k < |items|
      ensures Mentions(items[k], stamp) <==> IsEndOf(points[k], stamp)
    {
      PeriodMentions(points[k], stamp);
    }
  }

  lemma {:induction false} SeriesMentions(dto: Dto, stamp: Stamp)
    requires dto.SeriesDto?
    ensures Mentions(Dump(dto), stamp) <==> IsTimeOf(dto, stamp)
  {
    PointsMention(dto.points, stamp);
    var fields := Dump(dto).fields;
    assert PeriodFromKey in fields && PeriodToKey in fields && PointsKey in fields;
  }

  lemma {:induction false} AlertMentions(alert: Alerting.Alert, stamp: Stamp)
    ensures Mentions(DumpAlert(alert), stamp) <==> IsTimeOfAlert(alert, stamp)
  {
    var fields := DumpAlert(alert).fields;
    assert OtherKey("started_at") in fields && OtherKey("last_detected_at") in fields
        && OtherKey("resolved_at") in fields;
  }

  lemma {:induction false} ListedAlertsMention(alerts: seq<Alerting.Alert>, stamp: Stamp)
    ensures Mentions(Array(DumpAlerts(alerts)), stamp)
       <==> exists k :: 0 <= k < |alerts| && IsTimeOfAlert(alerts[k], stamp)
  {
    var items := DumpAlerts(alerts);
    forall k | 0 <= k < |items|
      ensures Mentions(items[k], stamp) <==> IsTimeOfAlert(alerts[k], stamp)
    {
      AlertMentions(alerts[k], stamp);
    }
  }

  lemma {:induction false} AlertsMention(dto: Dto, stamp: Stamp)
    requires dto.AlertsDto?
    ensures Mentions(Dump(dto), stamp) <==> IsTimeOf(dto, stamp)
  {
    ListedAlertsMention(dto.alerts, stamp);
    var fields := Dump(dto).fields;
    assert PeriodFromKey in fields && PeriodToKey in fields && AlertsKey in fields;
  }

  // --- Dates and times as text ---

  /** A text renders an instant in a zone exactly when it says the date and the time of day of the
      calendar moment that the instant is there. */
  lemma {:induction false} RenderingIsByTheCalendar(
    text: DateText, instant: int, zone: int, t: PeriodResolving.DateTime)
    requires t.Valid() && t.Instant() == instant + zone && !text.IsoText?
    ensures Renders(text, instant, zone) <==>
              (match text
               case DayText(day) => day == t.DayNumber()
               case DayAndClockText(day, hour, minute, second) => day == t.DayNumber()
                 && SaysTime(t, hour, minute, second)
               case MonthDayText(month, dayOfMonth) => month == t.month && dayOfMonth == t.day
               case ClockText(hour, minute, second) => SaysTime(t, hour, minute, second)
               case _ => false)
  {
    DayOfInstant(t, instant + zone);
    match text
    case DayText(_) =>
    case DayAndClockText(_, hour, minute, second) => ClockSaysTime(t, instant + zone, hour, minute, second);
    case MonthDayText(month, dayOfMonth) => MonthDayIsTheDate(t, instant + zone, month, dayOfMonth);
    case ClockText(hour, minute, second) => ClockSaysTime(t, instant + zone, hour, minute, second);
  }

  lemma HourOf(time: int, hour: int)
    ensures hour == time / 3_600_000_000 <==> hour * 3_600_000_000 <= time < (hour + 1) * 3_600_000_000
    ensures time % 3_600_000_000 == time - time / 3_600_000_000 * 3_600_000_000
  {
  }

  lemma MinuteOf(time: int, minute: int)
    ensures minute == time / 60_000_000 <==> minute * 60_000_000 <= time < (minute + 1) * 60_000_000
    ensures time % 60_000_000 == time - time / 60_000_000 * 60_000_000
  {
  }

  lemma SecondOf(time: int, second: int)
    ensures second == time / 1_000_000 <==> second * 1_000_000 <= time < (second + 1) * 1_000_000
  {
  }

  lemma MinutesOfHours(time: int)
    ensures time % 60_000_000 == time % 3_600_000_000 % 60_000_000
  {
  }

  lemma {:induction false} ClockSaysTime(
    t: PeriodResolving.DateTime, local: int, hour: int, minute: int, second: Option<int>)
    requires local % 86_400_000_000 == t.micros
    ensures IsClock(local, hour, minute, second) <==> SaysTime(t, hour, minute, second)
  {
    var time := t.micros;
    HourOf(time, hour);
    MinuteOf(time % 3_600_000_000, minute);
    MinutesOfHours(time);
    SecondOf(time % 60_000_000, if second.Some? then second.value else 0);
  }

  lemma {:induction false} MonthDayIsTheDate(t: PeriodResolving.DateTime, local: int, month: int, dayOfMonth: int)
    requires t.Valid() && local >= 0 && local / 86_400_000_000 == t.DayNumber()
    ensures PeriodResolving.MonthStart(12) == 0
    ensures var index := MonthOf(t.DayNumber(), 12);
            (month == index % 12 + 1 && dayOfMonth == t.DayNumber() - PeriodResolving.MonthStart(index) + 1 <==>
               month == t.month && dayOfMonth == t.day)
  {
    var index := MonthOf(t.DayNumber(), 12);
    PeriodResolving.DatesFillMonths(t, index);
    PeriodResolving.IndexRoundTrip(t.year, t.month);
  }

  /** The time of day in hours, minutes and, when given, seconds. */
  predicate SaysTime(t: PeriodResolving.DateTime, hour: int, minute: int, second: Option<int>) {
    && hour * 3_600_000_000 <= t.micros < (hour + 1) * 3_600_000_000
    && minute * 60_000_000 <= t.micros - hour * 3_600_000_000 < (minute + 1) * 60_000_000
    && (second.Some? ==>
          var rest := t.micros - hour * 3_600_000_000 - minute * 60_000_000;
          second.value * 1_000_000 <= rest < (second.value + 1) * 1_000_000)
  }

  lemma DayOfInstant(t: PeriodResolving.DateTime, local: int)
    requires t.Valid() && t.Instant() == local
    ensures local / 86_400_000_000 == t.DayNumber() && local % 86_400_000_000 == t.micros && local >= 0
    ensures local >= PeriodResolving.MonthStart(12) * 86_400_000_000
  {
  }

  /** An ISO text renders exactly the instants of its second, in its own zone. */
  lemma IsoTextIsItsSecond(at: int, offset: int, instant: int, zone: int)
    ensures Renders(IsoText(at, offset), instant, zone) <==>
              offset == zone && at % 1_000_000 == 0 && at <= instant < at + 1_000_000
  {
  }

  // --- Periods ---

  predicate AreEndsOf(start: int, end: int, span: Span) {
    start == span.start.at && end == span.end.at
  }

  /** The period of the calls that ask for one period. */
  function SpanOf(request: ToolRequest, resolved: seq<Span>): Span
    requires !request.AskLatest? && !request.AskComparison?
  {
    if resolved != [] then resolved[0] else request.span
  }

  /** A record was made for a period exactly when that is the resolved period of the question, or the
      first or second of a comparison; for the latest measurement, the moment of that measurement. */
  lemma {:induction false} RecordedPeriodIsTheQuestions(
    request: ToolRequest, resolved: seq<Span>, call: ToolCall, start: int, end: int)
    requires call.name == NameOf(request) && Arguments(request, resolved) == Success(call.arguments)
    ensures request.AskStatistics? || request.AskSeries? || request.AskAlerts? ==>
              (ContainsPeriod(call, start, end) <==> AreEndsOf(start, end, SpanOf(request, resolved)))
    ensures request.AskComparison? ==>
              (ContainsPeriod(call, start, end) <==>
                 || AreEndsOf(start, end, if resolved != [] then resolved[0] else request.first)
                 || AreEndsOf(start, end, if resolved != [] then resolved[1] else request.second))
    ensures request.AskLatest? && call.result.data.None? ==> !ContainsPeriod(call, start, end)
  {
  }

  lemma {:induction false} LatestPeriodIsItsMoment(call: ToolCall, dto: Dto, start: int, end: int)
    requires call.name == LatestMeasurement && call.result.data == Some(Dump(dto)) && dto.LatestDto?
    ensures ContainsPeriod(call, start, end) <==> dto.measuredAt.Some? && start == end == dto.measuredAt.value.at
  {
  }

  /** The period of an accepted answer belongs to a call that its evidence cites, if it has evidence. */
  lemma {:induction false} PeriodIsOfACitedCall(candidate: Candidate, history: seq<ToolCall>)
    requires Acceptable(candidate, history) && candidate.periodFrom.Some?
    ensures candidate.periodTo.Some?
    ensures exists call ::
              && ContainsPeriod(call, candidate.periodFrom.value.at, candidate.periodTo.value.at)
              && if candidate.evidence == [] then call in history else IsCited(call, candidate.evidence, history)
  {
    var call :|
      && call in RelevantCalls(candidate, history)
      && ContainsPeriod(call, candidate.periodFrom.value.at, candidate.periodTo.value.at);
    if candidate.evidence != [] {
      SomethingIsCited(candidate.evidence, |candidate.evidence|, history);
      SourcesAreCited(candidate.evidence, |candidate.evidence|, history, call);
    }
  }

  predicate IsCited(call: ToolCall, items: seq<Evidence>, history: seq<ToolCall>) {
    exists k :: 0 <= k < |items| && Fetch(history, items[k].callIndex) == Success(call)
  }

  lemma {:induction false} SomethingIsCited(items: seq<Evidence>, n: nat, history: seq<ToolCall>)
    requires 0 < n <= |items| && AllBacked(items, n, history)
    ensures Sources(items, n, history) != []
  {
    assert Backed(items[n - 1], history);
  }

  lemma {:induction false} SourcesAreCited(items: seq<Evidence>, n: nat, history: seq<ToolCall>, call: ToolCall)
    requires n <= |items| && call in Sources(items, n, history)
    ensures IsCited(call, items, history)
  {
    if call !in SourcesOf(items[n - 1], history) {
      SourcesAreCited(items, n - 1, history, call);
    }
  }
}
