/** app/agent/fallback.py: an answer printed from the first tool result alone, and the reason why
    the check of app/agent/validation.py always accepts it. */
module VerifiedFallback {
  import opened Wrappers
  import opened AgentRecords
  import opened Common
  import opened AnswerValidation
  import opened Labels
  import Alerting
  import Querying

  // --- What the tools record ---

  type MetricStatistics = Querying.MetricStatistics

  datatype Point = Point(bucketFrom: Stamp, bucketTo: Stamp, temperature: MetricStatistics,
    humidity: MetricStatistics) {
    function Of(metric: Metric): MetricStatistics {
      if metric == Alerting.Temperature then temperature else humidity
    }
  }

  /** The results of app/schemas/query.py. */
  datatype Dto =
    | LatestDto(temperature: Option<real>, humidity: Option<real>, measuredAt: Option<Stamp>, receivedAt: Option<Stamp>)
    | StatisticsDto(overall: Point)
    | SeriesDto(from: Stamp, to: Stamp, points: seq<Point>)
    | ComparisonDto(first: Point, second: Point, temperatureDifference: Option<real>, humidityDifference: Option<real>)
    | AlertsDto(from: Stamp, to: Stamp, totalCount: nat, alerts: seq<Alerting.Alert>)
  {
    function Latest(metric: Metric): Option<real>
      requires LatestDto?
    {
      if metric == Alerting.Temperature then temperature else humidity
    }

    function Difference(metric: Metric): Option<real>
      requires ComparisonDto?
    {
      if metric == Alerting.Temperature then temperatureDifference else humidityDifference
    }
  }

  function DumpValue(value: Option<real>): Json {
    if value.None? then Null else Number(value.value)
  }

  function StatisticValue(m: MetricStatistics, statistic: Statistic): Option<real> {
    match statistic
    case Minimum => m.minimum
    case Maximum => m.maximum
    case Average => m.average
    case Count => Some(m.count as real)
  }

  function DumpMetric(m: MetricStatistics): Json {
    Object(map[
      StatisticKey(Minimum) := DumpValue(m.minimum),
      StatisticKey(Maximum) := DumpValue(m.maximum),
      StatisticKey(Average) := DumpValue(m.average),
      StatisticKey(Count) := Number(m.count as real)])
  }

  function DumpPeriod(p: Point): Json {
    Object(map[
      PeriodFromKey := Moment(p.bucketFrom),
      PeriodToKey := Moment(p.bucketTo),
      MetricKey(Alerting.Temperature) := DumpMetric(p.temperature),
      MetricKey(Alerting.Humidity) := DumpMetric(p.humidity)])
  }

  function DumpPoint(p: Point): Json {
    Object(map[
      BucketFromKey := Moment(p.bucketFrom),
      BucketToKey := Moment(p.bucketTo),
      MetricKey(Alerting.Temperature) := DumpMetric(p.temperature),
      MetricKey(Alerting.Humidity) := DumpMetric(p.humidity)])
  }

  function DumpPoints(points: seq<Point>): (items: seq<Json>)
    ensures |items| == |points| && forall i :: 0 <= i < |points| ==> items[i] == DumpPoint(points[i])
  {
    seq(|points|, i requires 0 <= i < |points| => DumpPoint(points[i]))
  }

  /** The text of the alert table's metric column. */
  function MetricColumn(metric: Metric): string {
    if metric == Alerting.Temperature then "TEMPERATURE" else "HUMIDITY"
  }

  /** The keys that the check knows metrics by are in lower case. */
  function KeyOf(text: string): Key {
    if text == "temperature" then MetricKey(Alerting.Temperature)
    else if text == "humidity" then MetricKey(Alerting.Humidity)
    else OtherKey(text)
  }

  function FieldValue(alert: Alerting.Alert, field: AlertField): real {
    match field
    case Threshold => alert.thresholdValue
    case Trigger => alert.triggerValue
    case Hysteresis => alert.hysteresis
  }

  function UtcStamp(at: int): Json {
    Moment(Stamp(at, 0))
  }

  function DumpAlert(alert: Alerting.Alert): Json {
    Object(map[
      MetricNameKey := Text(KeyOf(MetricColumn(alert.metric))),
      OtherKey("direction") := Text(OtherKey(if alert.direction == Alerting.Low then "LOW" else "HIGH")),
      OtherKey("status") := Text(OtherKey(if alert.status == Alerting.Open then "OPEN" else "RESOLVED")),
      AlertFieldKey(Threshold) := Number(alert.thresholdValue),
      AlertFieldKey(Trigger) := Number(alert.triggerValue),
      AlertFieldKey(Hysteresis) := Number(alert.hysteresis),
      OtherKey("started_at") := UtcStamp(alert.startedAt),
      OtherKey("last_detected_at") := UtcStamp(alert.lastDetectedAt),
      OtherKey("resolved_at") := if alert.resolvedAt.None? then Null else UtcStamp(alert.resolvedAt.value)])
  }

  function DumpAlerts(alerts: seq<Alerting.Alert>): (items: seq<Json>)
    ensures |items| == |alerts| && forall i :: 0 <= i < |alerts| ==> items[i] == DumpAlert(alerts[i])
  {
    seq(|alerts|, i requires 0 <= i < |alerts| => DumpAlert(alerts[i]))
  }

  /** `model_dump(mode="json")`. */
  function Dump(dto: Dto): Json {
    match dto
    case LatestDto(temperature, humidity, measuredAt, receivedAt) =>
      Object(map[
        LatestKey(Alerting.Temperature) := DumpValue(temperature),
        LatestKey(Alerting.Humidity) := DumpValue(humidity),
        MeasuredAtKey := if measuredAt.None? then Null else Moment(measuredAt.value),
        OtherKey("received_at") := if receivedAt.None? then Null else Moment(receivedAt.value)])
    case StatisticsDto(overall) => DumpPeriod(overall)
    case SeriesDto(from, to, points) =>
      Object(map[PeriodFromKey := Moment(from), PeriodToKey := Moment(to), PointsKey := Array(DumpPoints(points))])
    case ComparisonDto(first, second, temperatureDifference, humidityDifference) =>
      Object(map[
        FirstKey := DumpPeriod(first),
        SecondKey := DumpPeriod(second),
        DifferenceKey(Alerting.Temperature) := DumpValue(temperatureDifference),
        DifferenceKey(Alerting.Humidity) := DumpValue(humidityDifference)])
    case AlertsDto(from, to, totalCount, alerts) =>
      Object(map[PeriodFromKey := Moment(from), PeriodToKey := Moment(to),
        TotalCountKey := Number(totalCount as real), AlertsKey := Array(DumpAlerts(alerts))])
  }

  predicate Filled(m: MetricStatistics) {
    m.minimum.Some? && m.maximum.Some? && m.average.Some?
  }

  predicate FilledPoint(p: Point) {
    Filled(p.temperature) && Filled(p.humidity)
  }

  /** What the query service guarantees of a result that it reports as AVAILABLE. */
  predicate Complete(dto: Dto) {
    match dto
    case LatestDto(temperature, humidity, measuredAt, _) => temperature.Some? && humidity.Some? && measuredAt.Some?
    case StatisticsDto(overall) => FilledPoint(overall)
    case SeriesDto(_, _, points) =>
      points != [] && forall i :: 0 <= i < |points| ==>
        FilledPoint(points[i]) && points[i].bucketFrom.at % 1_000_000 == 0
    case ComparisonDto(first, second, temperatureDifference, humidityDifference) =>
      FilledPoint(first) && FilledPoint(second) && temperatureDifference.Some? && humidityDifference.Some?
    case AlertsDto(_, _, _, alerts) => alerts != []
  }

  predicate Fits(name: ToolName, dto: Dto) {
    match name
    case LatestMeasurement => dto.LatestDto?
    case MeasurementStatistics => dto.StatisticsDto?
    case MeasurementSeries => dto.SeriesDto?
    case ComparePeriods => dto.ComparisonDto?
    case AlertHistory => dto.AlertsDto?
  }

  predicate HasMoment(arguments: map<Key, Json>, key: Key) {
    key in arguments && arguments[key].Moment?
  }

  /** The arguments of a call: one period, or none under these keys. */
  predicate ArgumentsFit(call: ToolCall) {
    if call.name == LatestMeasurement || call.name == ComparePeriods then
      PeriodFromKey !in call.arguments && PeriodToKey !in call.arguments
    else HasMoment(call.arguments, PeriodFromKey) && HasMoment(call.arguments, PeriodToKey)
  }

  predicate Describes(call: ToolCall, dto: Dto) {
    && call.result.data == Some(Dump(dto)) && Fits(call.name, dto)
    && (call.result.status == Available ==> Complete(dto))
  }

  /** The first record of a history as the tools leave it: a result, or a refusal without data. */
  ghost predicate IsFirstRecord(call: ToolCall) {
    && call.index == 1 && ArgumentsFit(call)
    && ((call.result.data.None? && call.result.status == Unavailable) || exists dto :: Describes(call, dto))
  }

  /** A result that the service aggregates from rows is complete. */
  lemma AggregatesAreFilled(rows: seq<Querying.Sample>, column: Querying.Column)
    requires rows != []
    ensures Filled(Querying.Present(Querying.Aggregate(rows, column)))
  {
    Querying.AggregateExtremes(rows, column);
  }

  /** Every point of the service's series is complete and starts on a whole second. */
  lemma {:induction false} SeriesPointsAreFilled(
    rows: seq<Querying.Sample>, indices: seq<int>, g: Querying.Granularity, k: nat)
    requires Querying.Lists(indices, Querying.Indices(rows, g)) && k < |indices|
    ensures var p := Querying.PresentRow(Querying.SeriesRows(rows, indices, g)[k]);
            Filled(p.temperature) && Filled(p.humidity) && p.bucketFrom % 1_000_000 == 0
  {
    var group := Querying.Group(rows, indices[k], g);
    assert indices[k] in indices;
    var s :| s in rows && Querying.BucketIndex(s.at, g) == indices[k];
    Querying.GroupMembers(rows, indices[k], g);
    assert s in group;
    AggregatesAreFilled(group, Querying.TemperatureColumn);
    AggregatesAreFilled(group, Querying.HumidityColumn);
    WholeSeconds(indices[k], g);
  }

  lemma WholeSeconds(index: int, g: Querying.Granularity)
    ensures Querying.BucketFrom(index, g) % 1_000_000 == 0
  {
    assert Querying.BucketFrom(index, g)
           == 1_000_000 * (index * (if g == Querying.Hourly then 3_600 else 86_400) - 32_400);
  }

  // --- The question ---

  /** Which of the words that the printer looks for occur in the question. */
  datatype Question = Question(both: bool, temperature: bool, humidity: bool, highest: bool, lowest: bool, count: bool)

  function Metrics(q: Question): seq<Metric> {
    if q.both || (q.temperature && q.humidity) then [Alerting.Temperature, Alerting.Humidity]
    else if q.humidity then [Alerting.Humidity]
    else [Alerting.Temperature]
  }

  function RequestedStatistic(q: Question): Statistic {
    if q.highest then Maximum else if q.lowest then Minimum else if q.count then Count else Average
  }

  // --- Sampling a series ---

  const MAX_SERIES_DISPLAY_POINTS: int := 12

  /** `round(x / 11)`. */
  function NearestEleventh(x: int): int {
    if 2 * (x % 11) > 11 then x / 11 + 1 else x / 11
  }

  /** It is the one integer strictly nearer than half an eleventh part: no quotient is a tie, so
      the rule for ties is immaterial. */
  lemma NearestIsUnique(x: int, n: int)
    ensures -11 < 2 * (11 * n - x) < 11 <==> n == NearestEleventh(x)
    ensures 2 * (11 * n - x) != 11
  {
  }

  function Position(i: int, count: nat): int {
    NearestEleventh(i * (count - 1))
  }

  function SampleIndices(count: nat): (indices: seq<int>)
    ensures count <= 12 ==> |indices| == count && forall i :: 0 <= i < count ==> indices[i] == i
    ensures count > 12 ==> |indices| == 12 && forall i :: 0 <= i < 12 ==> indices[i] == Position(i, count)
  {
    if count <= MAX_SERIES_DISPLAY_POINTS then seq(count, i => i)
    else seq(12, i => Position(i, count))
  }

  lemma PositionSplits(i: int, count: nat)
    requires 0 <= i <= 11 && count > 12
    ensures Position(i, count) == i * ((count - 1) / 11) + NearestEleventh(i * ((count - 1) % 11))
  {
    EleventhSplits(i, (count - 1) / 11, (count - 1) % 11);
    assert 11 * ((count - 1) / 11) + (count - 1) % 11 == count - 1;
  }

  lemma PositionInRange(i: int, count: nat)
    requires 0 <= i <= 11 && count > 12
    ensures 0 <= Position(i, count) < count
  {
    var x := i * (count - 1);
    assert 0 <= x <= 11 * (count - 1);
  }

  lemma SampledWithin(count: nat)
    ensures forall k :: 0 <= k < |SampleIndices(count)| ==> 0 <= SampleIndices(count)[k] < count
  {
    forall k | 0 <= k < |SampleIndices(count)|
      ensures 0 <= SampleIndices(count)[k] < count
    {
      if count > 12 {
        PositionInRange(k, count);
      }
    }
  }

  /** Position i of twelve over a span of 11 * g + h is i * g and a correction of at most i. */
  lemma {:induction false} EleventhSplits(i: int, g: nat, h: nat)
    requires 0 <= i <= 11 && h < 11
    ensures NearestEleventh(i * (11 * g + h)) == i * g + NearestEleventh(i * h)
    ensures 0 <= NearestEleventh(i * h) <= i
    ensures i < 11 ==> NearestEleventh(i * h) <= NearestEleventh((i + 1) * h) <= NearestEleventh(i * h) + 1
    ensures i == 11 ==> NearestEleventh(i * h) == h
  {
    assert i * (11 * g + h) == 11 * (i * g) + i * h;
    WholeEleventhsAdd(i * g, i * h);
    assert (i + 1) * h == i * h + h;
    ProductIsSmall(i, h);
    NearestIsBounded(i * h, i);
    StepIsSmall(i * h, h);
    if i == 11 {
      WholeEleventhsAdd(h, 0);
    }
  }

  lemma ProductIsSmall(i: int, h: int)
    requires 0 <= i && 0 <= h < 11
    ensures 0 <= i * h <= 10 * i
  {
  }

  lemma NearestIsBounded(t: int, i: int)
    requires 0 <= t <= 10 * i
    ensures 0 <= NearestEleventh(t) <= i
  {
  }

  lemma WholeEleventhsAdd(k: int, t: int)
    ensures NearestEleventh(11 * k + t) == k + NearestEleventh(t)
  {
    assert (11 * k + t) / 11 == k + t / 11 && (11 * k + t) % 11 == t % 11;
  }

  lemma StepIsSmall(t: int, h: int)
    requires 0 <= h < 11
    ensures NearestEleventh(t) <= NearestEleventh(t + h) <= NearestEleventh(t) + 1
  {
  }

  lemma {:induction false} NextPosition(i: int, count: nat)
    requires 0 <= i < 11 && count > 12
    ensures (count - 1) / 11 <= Position(i + 1, count) - Position(i, count) <= (count - 1) / 11 + 1
  {
    var g, h := (count - 1) / 11, (count - 1) % 11;
    PositionSplits(i, count);
    PositionSplits(i + 1, count);
    EleventhSplits(i, g, h);
    NextMultiple(i, g);
  }

  lemma NextMultiple(i: int, g: int)
    ensures (i + 1) * g == i * g + g
  {
  }

  lemma {:induction false} LastPosition(count: nat)
    requires count > 12
    ensures Position(0, count) == 0 && Position(11, count) == count - 1
  {
    PositionSplits(11, count);
    EleventhSplits(11, (count - 1) / 11, (count - 1) % 11);
  }

  /** For more than twelve points: exactly twelve indices, from the first to the last, strictly
      increasing, whose gaps take at most two consecutive values. */
  lemma {:induction false} SamplingIsEven(count: nat)
    requires count > 12
    ensures var s := SampleIndices(count);
            && |s| == 12 && s[0] == 0 && s[11] == count - 1
            && (forall i :: 0 <= i < 11 ==> s[i] < s[i + 1])
            && (forall i :: 0 <= i < 11 ==> (count - 1) / 11 <= s[i + 1] - s[i] <= (count - 1) / 11 + 1)
  {
    var s := SampleIndices(count);
    LastPosition(count);
    forall i | 0 <= i < 11
      ensures (count - 1) / 11 <= s[i + 1] - s[i] <= (count - 1) / 11 + 1
    {
      NextPosition(i, count);
    }
  }

  // --- What the printer shows ---

  /** A recorded value that the question asks for. */
  datatype Item = Item(shown: Label, unit: Unit, path: Path, value: real, observedAt: Option<Stamp>)

  function ValueOr0(value: Option<real>): real {
    if value.None? then 0.0 else value.value
  }

  function StatisticUnit(metric: Metric, statistic: Statistic): Unit {
    if statistic == Count then Items else UnitOf(metric)
  }

  function PointItem(metric: Metric, points: seq<Point>, index: int): Item
    requires 0 <= index < |points|
  {
    Item(StatisticLabel(metric, Average), UnitOf(metric),
         [DataKey, PointsKey, Index(index), MetricKey(metric), StatisticKey(Average)],
         ValueOr0(points[index].Of(metric).average), Some(points[index].bucketFrom))
  }

  function PointItems(metric: Metric, points: seq<Point>, indices: seq<int>, n: nat): (items: seq<Item>)
    requires n <= |indices| && forall k :: 0 <= k < |indices| ==> 0 <= indices[k] < |points|
    ensures |items| == n && forall k :: 0 <= k < n ==> items[k] == PointItem(metric, points, indices[k])
  {
    seq(n, k requires 0 <= k < n => PointItem(metric, points, indices[k]))
  }

  function ComparisonItem(metric: Metric, period: Key, p: Point): Item {
    Item(StatisticLabel(metric, Average), UnitOf(metric), [DataKey, period, MetricKey(metric), StatisticKey(Average)],
         ValueOr0(p.Of(metric).average), None)
  }

  /** The recorded values that answer a question about one metric, in the order of printing. */
  function ItemsFor(metric: Metric, q: Question, dto: Dto): seq<Item> {
    match dto
    case LatestDto(_, _, _, _) =>
      [Item(LatestLabel(metric), UnitOf(metric), [DataKey, LatestKey(metric)], ValueOr0(dto.Latest(metric)), None)]
    case StatisticsDto(overall) =>
      var statistic := RequestedStatistic(q);
      [Item(StatisticLabel(metric, statistic), StatisticUnit(metric, statistic),
            [DataKey, MetricKey(metric), StatisticKey(statistic)],
              ValueOr0(StatisticValue(overall.Of(metric), statistic)), None)]
    case SeriesDto(_, _, points) =>
      SampledWithin(|points|);
      PointItems(metric, points, SampleIndices(|points|), |SampleIndices(|points|)|)
    case ComparisonDto(first, second, _, _) =>
      [ComparisonItem(metric, FirstKey, first),
       ComparisonItem(metric, SecondKey, second),
       Item(DifferenceLabel(metric), UnitOf(metric), [DataKey, DifferenceKey(metric)],
         ValueOr0(dto.Difference(metric)), None)]
    case AlertsDto(_, _, totalCount, _) =>
      [Item(AlertTotalLabel, Items, [DataKey, TotalCountKey], totalCount as real, None)]
  }

  function ItemsForAll(metrics: seq<Metric>, n: nat, q: Question, dto: Dto): seq<Item>
    requires n <= |metrics|
  {
    if n == 0 then [] else ItemsForAll(metrics, n - 1, q, dto) + ItemsFor(metrics[n - 1], q, dto)
  }

  /** All recorded values that answer a question. */
  function ItemsOf(q: Question, dto: Dto): seq<Item> {
    if dto.AlertsDto? then ItemsFor(Alerting.Temperature, q, dto) else ItemsForAll(Metrics(q), |Metrics(q)|, q, dto)
  }

  function EvidenceOf(item: Item): Evidence {
    Evidence(Canonical(item.shown), Number(item.value), Some(item.unit), 1, item.path, item.observedAt)
  }

  function SuffixOf(unit: Unit): Suffix {
    match unit
    case Celsius => CelsiusSign
    case Percent => PercentSign
    case Items => ItemsWord
    case OtherUnit(_) => NoSuffix
  }

  function FigureOf(item: Item): Figure {
    Figure(item.value, SuffixOf(item.unit))
  }

  /** The numbers, and the dates, in the first n tokens of an answer. */
  function Figures(answer: seq<Token>, n: nat): seq<Figure>
    requires n <= |answer|
  {
    if n == 0 then []
    else Figures(answer, n - 1) + if answer[n - 1].Numeral? then [answer[n - 1].figure] else []
  }

  function Dates(answer: seq<Token>, n: nat): seq<DateText>
    requires n <= |answer|
  {
    if n == 0 then []
    else Dates(answer, n - 1) + if answer[n - 1].Dated? then [answer[n - 1].text] else []
  }

  function FiguresOf(items: seq<Item>, n: nat): seq<Figure>
    requires n <= |items|
  {
    if n == 0 then [] else FiguresOf(items, n - 1) + [FigureOf(items[n - 1])]
  }

  function DatesOf(items: seq<Item>, n: nat): seq<DateText>
    requires n <= |items|
  {
    if n == 0 then [] else DatesOf(items, n - 1) + DateOf(items[n - 1])
  }

  function DateOf(item: Item): seq<DateText> {
    if item.observedAt.Some? then [IsoText(item.observedAt.value.at, TOKYO_OFFSET)] else []
  }

  /** Evidence and answer print exactly these items: one piece of evidence for each, and the
      numbers and dates of the text are theirs, in order. */
  predicate Prints(evidence: seq<Evidence>, answer: seq<Token>, items: seq<Item>) {
    && |evidence| == |items| && (forall k :: 0 <= k < |items| ==> evidence[k] == EvidenceOf(items[k]))
    && Figures(answer, |answer|) == FiguresOf(items, |items|)
    && Dates(answer, |answer|) == DatesOf(items, |items|)
  }

  lemma {:induction false} PrefixKeepsText(a: seq<Token>, b: seq<Token>, n: nat)
    requires n <= |a|
    ensures Figures(a + b, n) == Figures(a, n) && Dates(a + b, n) == Dates(a, n)
  {
    if n > 0 {
      PrefixKeepsText(a, b, n - 1);
    }
  }

  lemma {:induction false} PrefixKeepsItems(a: seq<Item>, b: seq<Item>, n: nat)
    requires n <= |a|
    ensures FiguresOf(a + b, n) == FiguresOf(a, n) && DatesOf(a + b, n) == DatesOf(a, n)
  {
    if n > 0 {
      PrefixKeepsItems(a, b, n - 1);
    }
  }

  lemma PrintsWords(evidence: seq<Evidence>, answer: seq<Token>, items: seq<Item>)
    requires Prints(evidence, answer, items)
    ensures Prints(evidence, answer + [Words], items)
  {
    PrefixKeepsText(answer, [Words], |answer|);
  }

  lemma PrintsNumber(evidence: seq<Evidence>, answer: seq<Token>, items: seq<Item>, item: Item)
    requires Prints(evidence, answer, items) && item.observedAt.None?
    ensures Prints(evidence + [EvidenceOf(item)], answer + [Numeral(FigureOf(item))], items + [item])
  {
    PrefixKeepsText(answer, [Numeral(FigureOf(item))], |answer|);
    PrefixKeepsItems(items, [item], |items|);
  }

  lemma PrintsEntry(evidence: seq<Evidence>, answer: seq<Token>, items: seq<Item>, item: Item)
    requires Prints(evidence, answer, items) && item.observedAt.Some?
    ensures Prints(evidence + [EvidenceOf(item)],
                   answer + [Dated(IsoText(item.observedAt.value.at, TOKYO_OFFSET)), Numeral(FigureOf(item))],
                     items + [item])
  {
    var tokens := [Dated(IsoText(item.observedAt.value.at, TOKYO_OFFSET)), Numeral(FigureOf(item))];
    PrefixKeepsText(answer, tokens, |answer|);
    PrefixKeepsItems(items, [item], |items|);
    var longer := answer + tokens;
    assert Figures(longer, |answer| + 1) == Figures(answer, |answer|);
    assert Dates(longer, |answer| + 1) == Dates(answer, |answer|) + [tokens[0].text];
  }

  // --- Why the check accepts it ---

  /** An item is what the record holds: printer and check agree on path, value, label and unit. */
  predicate IsTrue(item: Item, call: ToolCall) {
    && ResolvePath(call.result.Envelope(), item.path) == Success(Number(item.value))
    && MeaningOf(call, item.path) == Success(Meaning(item.shown, Some(item.unit)))
    && !item.unit.OtherUnit?
    && (item.observedAt.Some? ==> Observed(call, item.observedAt.value) && item.observedAt.value.at % 1_000_000 == 0)
  }

  lemma {:induction false} TrueIsBacked(item: Item, call: ToolCall)
    requires IsTrue(item, call) && call.index == 1
    ensures Backed(EvidenceOf(item), [call])
  {
    assert SourceOf(EvidenceOf(item), [call]) == call;
  }

  lemma {:induction false} ValueIsAllowed(items: seq<Evidence>, k: nat, n: nat, unit: Option<Unit>)
    requires k < n <= |items| && items[k].value.Number? && (unit.None? || items[k].unit == unit)
    ensures items[k].value.amount in EvidenceValues(items, n, unit)
  {
    if k < n - 1 {
      ValueIsAllowed(items, k, n - 1, unit);
    }
  }

  lemma {:induction false} InstantIsAllowed(items: seq<Evidence>, k: nat, n: nat)
    requires k < n <= |items| && items[k].observedAt.Some?
    ensures items[k].observedAt.value.at in ObservedInstants(items, n)
  {
    if k < n - 1 {
      InstantIsAllowed(items, k, n - 1);
    }
  }

  lemma {:induction false} FigureHasItem(items: seq<Item>, n: nat, figure: Figure)
    requires n <= |items| && figure in FiguresOf(items, n)
    ensures exists k :: 0 <= k < n && FigureOf(items[k]) == figure
  {
    if figure != FigureOf(items[n - 1]) {
      FigureHasItem(items, n - 1, figure);
    }
  }

  lemma {:induction false} DateHasItem(items: seq<Item>, n: nat, text: DateText)
    requires n <= |items| && text in DatesOf(items, n)
    ensures exists k ::
              0 <= k < n && items[k].observedAt.Some? && text == IsoText(items[k].observedAt.value.at, TOKYO_OFFSET)
  {
    if text !in DateOf(items[n - 1]) {
      DateHasItem(items, n - 1, text);
    }
  }

  /** Once its dates are verified, the scanner sees the printed numbers and nothing else. */
  lemma {:induction false} ScanSeesFigures(answer: seq<Token>, n: nat, instants: set<int>)
    requires n <= |answer| && forall text :: text in Dates(answer, n) ==> HasDate(text) && IsVerified(text, instants)
    ensures Scan(answer, n, instants) == Figures(answer, n)
    ensures DatesVerified(answer, n, instants)
  {
    if n > 0 {
      ScanSeesFigures(answer, n - 1, instants);
    }
  }

  lemma {:induction false} AllowEach(figures: seq<Figure>, n: nat, candidate: Candidate, history: seq<ToolCall>)
    requires n <= |figures| && forall f :: f in figures ==> FigureAllowed(f, candidate, history)
    ensures FiguresAllowed(figures, n, candidate, history)
  {
    if n > 0 {
      AllowEach(figures, n - 1, candidate, history);
    }
  }

  lemma SuffixNamesUnit(unit: Unit)
    ensures RecognisedUnit(SuffixOf(unit)).None? || RecognisedUnit(SuffixOf(unit)) == Some(unit)
  {
  }

  lemma {:induction false} PrintedFigureIsAllowed(
    candidate: Candidate, call: ToolCall, items: seq<Item>, figure: Figure)
    requires Prints(candidate.evidence, candidate.answer, items) && figure in FiguresOf(items, |items|)
    ensures FigureAllowed(figure, candidate, [call])
  {
    FigureHasItem(items, |items|, figure);
    var k :| 0 <= k < |items| && FigureOf(items[k]) == figure;
    SuffixNamesUnit(items[k].unit);
    assert candidate.evidence[k] == EvidenceOf(items[k]);
    ValueIsAllowed(candidate.evidence, k, |candidate.evidence|, RecognisedUnit(figure.suffix));
  }

  lemma {:induction false} PrintedDateIsVerified(candidate: Candidate, call: ToolCall, items: seq<Item>, text: DateText)
    requires Prints(candidate.evidence, candidate.answer, items)
             && (forall k :: 0 <= k < |items| ==> IsTrue(items[k], call))
    requires text in DatesOf(items, |items|)
    ensures HasDate(text) && IsVerified(text, AllowedInstants(candidate))
  {
    DateHasItem(items, |items|, text);
    var k :| 0 <= k < |items| && items[k].observedAt.Some?
      && text == IsoText(items[k].observedAt.value.at, TOKYO_OFFSET);
    InstantIsAllowed(candidate.evidence, k, |candidate.evidence|);
    assert IsVariant(text, items[k].observedAt.value.at);
  }

  lemma {:induction false} OnlySource(items: seq<Evidence>, n: nat, call: ToolCall)
    requires n <= |items| && forall k :: 0 <= k < |items| ==> Cited(items[k], [call])
    ensures forall c :: c in Sources(items, n, [call]) ==> c == call
    ensures n > 0 ==> call in Sources(items, n, [call])
  {
    if n > 0 {
      OnlySource(items, n - 1, call);
      assert SourceOf(items[n - 1], [call]) == call;
    }
  }

  lemma {:induction false} CallIsRelevant(candidate: Candidate, call: ToolCall)
    requires AllBacked(candidate.evidence, |candidate.evidence|, [call])
    ensures call in RelevantCalls(candidate, [call])
  {
    forall k | 0 <= k < |candidate.evidence|
      ensures Cited(candidate.evidence[k], [call])
    {
      assert Backed(candidate.evidence[k], [call]);
    }
    OnlySource(candidate.evidence, |candidate.evidence|, call);
  }

  /** Whatever prints true items of one record, with that record's status and period, is accepted. */
  lemma {:induction false} PrintedIsAcceptable(candidate: Candidate, call: ToolCall, items: seq<Item>)
    requires call.index == 1 && Prints(candidate.evidence, candidate.answer, items)
    requires forall k :: 0 <= k < |items| ==> IsTrue(items[k], call)
    requires candidate.timezone == "Asia/Tokyo" && candidate.calculations == []
             && candidate.status == call.result.status
    requires PeriodBacked(candidate, [call])
    ensures Acceptable(candidate, [call])
  {
    forall k | 0 <= k < |candidate.evidence|
      ensures Backed(candidate.evidence[k], [call])
    {
      TrueIsBacked(items[k], call);
    }
    CallIsRelevant(candidate, call);
    forall text | text in Dates(candidate.answer, |candidate.answer|)
      ensures HasDate(text) && IsVerified(text, AllowedInstants(candidate))
    {
      PrintedDateIsVerified(candidate, call, items, text);
    }
    ScanSeesFigures(candidate.answer, |candidate.answer|, AllowedInstants(candidate));
    forall f | f in VisibleFigures(candidate)
      ensures FigureAllowed(f, candidate, [call])
    {
      PrintedFigureIsAllowed(candidate, call, items, f);
    }
    AllowEach(VisibleFigures(candidate), |VisibleFigures(candidate)|, candidate, [call]);
  }

  // --- Printer and check agree on every path ---

  lemma ResolveField(value: Json, key: Key, rest: Path)
    requires value.Object? && key in value.fields
    ensures ResolvePath(value, [key] + rest) == ResolvePath(value.fields[key], rest)
  {
    assert ([key] + rest)[1..] == rest;
  }

  lemma ResolveItem(value: Json, n: nat, rest: Path)
    requires value.Array? && n < |value.items|
    ensures ResolvePath(value, [Index(n)] + rest) == ResolvePath(value.items[n], rest)
  {
    assert ([Index(n)] + rest)[1..] == rest;
  }

  lemma ResolveData(call: ToolCall, rest: Path)
    requires call.result.data.Some?
    ensures ResolvePath(call.result.Envelope(), [DataKey] + rest) == ResolvePath(call.result.data.value, rest)
  {
    ResolveField(call.result.Envelope(), DataKey, rest);
  }

  /** The path of a metric's statistic below an object that holds the dumped metric. */
  lemma ResolveStatistic(value: Json, metric: Metric, m: MetricStatistics, statistic: Statistic)
    requires value.Object? && MetricKey(metric) in value.fields && value.fields[MetricKey(metric)] == DumpMetric(m)
    ensures ResolvePath(value, [MetricKey(metric), StatisticKey(statistic)])
            == Success(DumpValue(StatisticValue(m, statistic)))
  {
    ResolveField(value, MetricKey(metric), [StatisticKey(statistic)]);
    assert [MetricKey(metric)] + [StatisticKey(statistic)] == [MetricKey(metric), StatisticKey(statistic)];
    ResolveField(DumpMetric(m), StatisticKey(statistic), []);
    assert [StatisticKey(statistic)] + [] == [StatisticKey(statistic)];
  }

  lemma ResolveDirect(value: Json, key: Key)
    requires value.Object? && key in value.fields
    ensures ResolvePath(value, [key]) == Success(value.fields[key])
  {
    ResolveField(value, key, []);
    assert [key] + [] == [key];
  }

  lemma LatestIsTrue(call: ToolCall, q: Question, dto: Dto, metric: Metric)
    requires Describes(call, dto) && call.result.status == Available && dto.LatestDto?
    ensures IsTrue(ItemsFor(metric, q, dto)[0], call)
    ensures ResolvePath(Dump(dto), [LatestKey(metric)]) == Success(Number(ItemsFor(metric, q, dto)[0].value))
  {
    ResolveDirect(Dump(dto), LatestKey(metric));
    ResolveData(call, [LatestKey(metric)]);
    assert [DataKey] + [LatestKey(metric)] == [DataKey, LatestKey(metric)];
  }

  lemma StatisticIsTrue(call: ToolCall, q: Question, dto: Dto, metric: Metric)
    requires Describes(call, dto) && call.result.status == Available && dto.StatisticsDto?
    ensures IsTrue(ItemsFor(metric, q, dto)[0], call)
    ensures ResolvePath(Dump(dto), [MetricKey(metric), StatisticKey(RequestedStatistic(q))])
            == Success(Number(ItemsFor(metric, q, dto)[0].value))
  {
    var rest := [MetricKey(metric), StatisticKey(RequestedStatistic(q))];
    ResolveStatistic(Dump(dto), metric, dto.overall.Of(metric), RequestedStatistic(q));
    ResolveData(call, rest);
    assert [DataKey] + rest == [DataKey, MetricKey(metric), StatisticKey(RequestedStatistic(q))];
  }

  lemma ResolvePeriodAverage(dto: Dto, metric: Metric, period: Key, p: Point)
    requires dto.ComparisonDto? && ((period == FirstKey && p == dto.first) || (period == SecondKey && p == dto.second))
    ensures ResolvePath(Dump(dto), [period, MetricKey(metric), StatisticKey(Average)])
            == Success(DumpValue(p.Of(metric).average))
  {
    var rest := [MetricKey(metric), StatisticKey(Average)];
    ResolveStatistic(DumpPeriod(p), metric, p.Of(metric), Average);
    ResolveField(Dump(dto), period, rest);
    assert [period] + rest == [period, MetricKey(metric), StatisticKey(Average)];
  }

  lemma PeriodAverageIsTrue(call: ToolCall, dto: Dto, metric: Metric, period: Key, p: Point)
    requires Describes(call, dto) && dto.ComparisonDto? && FilledPoint(p)
    requires (period == FirstKey && p == dto.first) || (period == SecondKey && p == dto.second)
    ensures IsTrue(ComparisonItem(metric, period, p), call)
  {
    var rest := [period, MetricKey(metric), StatisticKey(Average)];
    ResolvePeriodAverage(dto, metric, period, p);
    ResolveData(call, rest);
    assert [DataKey] + rest == [DataKey, period, MetricKey(metric), StatisticKey(Average)];
  }

  lemma DifferenceIsTrue(call: ToolCall, q: Question, dto: Dto, metric: Metric)
    requires Describes(call, dto) && call.result.status == Available && dto.ComparisonDto?
    ensures IsTrue(ItemsFor(metric, q, dto)[2], call)
    ensures ResolvePath(Dump(dto), [DifferenceKey(metric)]) == Success(Number(ItemsFor(metric, q, dto)[2].value))
  {
    ResolveDirect(Dump(dto), DifferenceKey(metric));
    ResolveData(call, [DifferenceKey(metric)]);
    assert [DataKey] + [DifferenceKey(metric)] == [DataKey, DifferenceKey(metric)];
  }

  lemma ComparisonIsTrue(call: ToolCall, q: Question, dto: Dto, metric: Metric)
    requires Describes(call, dto) && call.result.status == Available && dto.ComparisonDto?
    ensures forall item :: item in ItemsFor(metric, q, dto) ==> IsTrue(item, call)
  {
    PeriodAverageIsTrue(call, dto, metric, FirstKey, dto.first);
    PeriodAverageIsTrue(call, dto, metric, SecondKey, dto.second);
    DifferenceIsTrue(call, q, dto, metric);
  }

  lemma TotalIsTrue(call: ToolCall, q: Question, dto: Dto)
    requires Describes(call, dto) && dto.AlertsDto?
    ensures IsTrue(ItemsOf(q, dto)[0], call)
    ensures ResolvePath(Dump(dto), [TotalCountKey]) == Success(Number(dto.totalCount as real))
  {
    ResolveDirect(Dump(dto), TotalCountKey);
    ResolveData(call, [TotalCountKey]);
    assert [DataKey] + [TotalCountKey] == [DataKey, TotalCountKey];
  }

  lemma BucketIsObserved(call: ToolCall, dto: Dto, index: nat)
    requires Describes(call, dto) && dto.SeriesDto? && index < |dto.points|
    ensures Observed(call, dto.points[index].bucketFrom)
  {
    var stamp := dto.points[index].bucketFrom;
    var point := DumpPoint(dto.points[index]);
    assert BucketFromKey in point.fields && Mentions(point.fields[BucketFromKey], stamp);
    assert Mentions(point, stamp);
    var items := DumpPoints(dto.points);
    assert items[index] == point;
    assert Mentions(Array(items), stamp);
    assert PointsKey in Dump(dto).fields && Mentions(Dump(dto).fields[PointsKey], stamp);
  }

  lemma PointIsTrue(call: ToolCall, dto: Dto, metric: Metric, index: nat)
    requires Describes(call, dto) && call.result.status == Available && dto.SeriesDto? && index < |dto.points|
    ensures IsTrue(PointItem(metric, dto.points, index), call)
    ensures ResolvePath(Dump(dto), [PointsKey, Index(index), MetricKey(metric), StatisticKey(Average)])
         == Success(Number(PointItem(metric, dto.points, index).value))
    ensures ResolvePath(Dump(dto), [PointsKey, Index(index), BucketFromKey])
            == Success(Moment(dto.points[index].bucketFrom))
  {
    var point := dto.points[index];
    var points := Array(DumpPoints(dto.points));
    assert FilledPoint(point);
    var rest := [MetricKey(metric), StatisticKey(Average)];
    ResolveStatistic(DumpPoint(point), metric, point.Of(metric), Average);
    ResolveItem(points, index, rest);
    ResolveField(Dump(dto), PointsKey, [Index(index)] + rest);
    assert [PointsKey] + ([Index(index)] + rest) == [PointsKey, Index(index), MetricKey(metric), StatisticKey(Average)];
    ResolveData(call, [PointsKey, Index(index), MetricKey(metric), StatisticKey(Average)]);
    assert [DataKey] + [PointsKey, Index(index), MetricKey(metric), StatisticKey(Average)]
        == [DataKey, PointsKey, Index(index), MetricKey(metric), StatisticKey(Average)];
    BucketPath(dto, index);
    BucketIsObserved(call, dto, index);
  }

  lemma BucketPath(dto: Dto, index: nat)
    requires dto.SeriesDto? && index < |dto.points|
    ensures ResolvePath(Dump(dto), [PointsKey, Index(index), BucketFromKey])
            == Success(Moment(dto.points[index].bucketFrom))
  {
    var points := Array(DumpPoints(dto.points));
    ResolveDirect(DumpPoint(dto.points[index]), BucketFromKey);
    ResolveItem(points, index, [BucketFromKey]);
    ResolveField(Dump(dto), PointsKey, [Index(index)] + [BucketFromKey]);
    assert [PointsKey] + ([Index(index)] + [BucketFromKey]) == [PointsKey, Index(index), BucketFromKey];
  }

  // --- The printer ---

  /** The first record of a history, with a complete result. */
  predicate Ready(call: ToolCall, dto: Dto) {
    call.index == 1 && ArgumentsFit(call) && Describes(call, dto) && call.result.status == Available
  }

  function Endpoint(call: ToolCall, key: Key): Option<Stamp> {
    if HasMoment(call.arguments, key) then Some(call.arguments[key].stamp) else None
  }

  /** A candidate that prints what the question asks for, with the period of its record. */
  predicate Answers(c: Candidate, q: Question, call: ToolCall, dto: Dto) {
    && Prints(c.evidence, c.answer, ItemsOf(q, dto))
    && c.timezone == "Asia/Tokyo" && c.calculations == [] && c.status == call.result.status
    && c.periodFrom == (if dto.LatestDto? then dto.measuredAt else Endpoint(call, PeriodFromKey))
    && c.periodTo == (if dto.LatestDto? then dto.measuredAt else Endpoint(call, PeriodToKey))
  }

  lemma ItemsForAreTrue(call: ToolCall, q: Question, dto: Dto, metric: Metric)
    requires Ready(call, dto)
    ensures forall item :: item in ItemsFor(metric, q, dto) ==> IsTrue(item, call)
  {
    match dto
    case LatestDto(_, _, _, _) => LatestIsTrue(call, q, dto, metric);
    case StatisticsDto(_) => StatisticIsTrue(call, q, dto, metric);
    case ComparisonDto(_, _, _, _) => ComparisonIsTrue(call, q, dto, metric);
    case AlertsDto(_, _, _, _) => TotalIsTrue(call, q, dto);
    case SeriesDto(_, _, points) =>
      var indices := SampleIndices(|points|);
      SampledWithin(|points|);
      var items := PointItems(metric, points, indices, |indices|);
      forall item | item in items
        ensures IsTrue(item, call)
      {
        var k :| 0 <= k < |items| && items[k] == item;
        PointIsTrue(call, dto, metric, indices[k]);
      }
  }

  lemma {:induction false} ItemsForAllAreTrue(metrics: seq<Metric>, n: nat, call: ToolCall, q: Question, dto: Dto)
    requires n <= |metrics| && Ready(call, dto)
    ensures forall item :: item in ItemsForAll(metrics, n, q, dto) ==> IsTrue(item, call)
  {
    if n > 0 {
      ItemsForAllAreTrue(metrics, n - 1, call, q, dto);
      ItemsForAreTrue(call, q, dto, metrics[n - 1]);
    }
  }

  lemma ItemsAreTrue(call: ToolCall, q: Question, dto: Dto)
    requires Ready(call, dto)
    ensures forall item :: item in ItemsOf(q, dto) ==> IsTrue(item, call)
  {
    ItemsForAreTrue(call, q, dto, Alerting.Temperature);
    ItemsForAllAreTrue(Metrics(q), |Metrics(q)|, call, q, dto);
  }

  lemma PeriodIsBacked(c: Candidate, q: Question, call: ToolCall, dto: Dto)
    requires Ready(call, dto) && Answers(c, q, call, dto)
    ensures PeriodBacked(c, [call])
  {
    if c.periodFrom.Some? {
      assert ContainsPeriod(call, c.periodFrom.value.at, c.periodTo.value.at);
      assert call in [call];
    }
  }

  /** Completeness: for every question and every complete record, whatever answers the question
      from the record passes the check. */
  lemma {:induction false} AnswerIsAcceptable(c: Candidate, q: Question, call: ToolCall, dto: Dto)
    requires Ready(call, dto) && Answers(c, q, call, dto)
    ensures Acceptable(c, [call])
  {
    ItemsAreTrue(call, q, dto);
    PeriodIsBacked(c, q, call, dto);
    PrintedIsAcceptable(c, call, ItemsOf(q, dto));
  }
}
