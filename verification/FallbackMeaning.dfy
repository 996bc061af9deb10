/** Which numbers app/agent/fallback.py prints for a question, told by the words of the question and the
    fields of the recorded result. */
module FallbackMeaning {
  import opened Wrappers
  import opened AgentRecords
  import opened AnswerValidation
  import opened VerifiedFallback
  import opened Common
  import Alerting

  /** The numbers about temperature, about humidity, or both in turn. */
  function Asked(q: Question, temperature: seq<Figure>, humidity: seq<Figure>): seq<Figure> {
    if q.both || (q.temperature && q.humidity) then temperature + humidity
    else if q.humidity then humidity
    else temperature
  }

  /** The statistic that the question asks for: the highest, the lowest, how many, or the average. */
  function Wanted(q: Question, m: MetricStatistics, sign: Suffix): Figure {
    if q.highest then Figure(ValueOr0(m.maximum), sign)
    else if q.lowest then Figure(ValueOr0(m.minimum), sign)
    else if q.count then Figure(m.count as real, ItemsWord)
    else Figure(ValueOr0(m.average), sign)
  }

  /** The averages of the sampled points, in order. */
  function SampledAverages(points: seq<Point>, n: nat, humid: bool): seq<Figure>
    requires n <= |SampleIndices(|points|)| && forall k :: 0 <= k < n ==> 0 <= SampleIndices(|points|)[k] < |points|
  {
    if n == 0 then []
    else
      var p := points[SampleIndices(|points|)[n - 1]];
      SampledAverages(points, n - 1, humid)
      + [if humid then Figure(ValueOr0(p.humidity.average), PercentSign)
         else Figure(ValueOr0(p.temperature.average), CelsiusSign)]
  }

  /** The numbers of an answer to the question from the result. */
  function ExpectedFigures(q: Question, dto: Dto): seq<Figure> {
    match dto
    case LatestDto(temperature, humidity, _, _) =>
      Asked(q, [Figure(ValueOr0(temperature), CelsiusSign)], [Figure(ValueOr0(humidity), PercentSign)])
    case StatisticsDto(overall) =>
      Asked(q, [Wanted(q, overall.temperature, CelsiusSign)], [Wanted(q, overall.humidity, PercentSign)])
    case SeriesDto(_, _, points) =>
      SampledWithin(|points|);
      Asked(q, SampledAverages(points, |SampleIndices(|points|)|, false),
               SampledAverages(points, |SampleIndices(|points|)|, true))
    case ComparisonDto(first, second, temperatureDifference, humidityDifference) =>
      Asked(q,
        [Figure(ValueOr0(first.temperature.average), CelsiusSign),
         Figure(ValueOr0(second.temperature.average), CelsiusSign),
         Figure(ValueOr0(temperatureDifference), CelsiusSign)],
        [Figure(ValueOr0(first.humidity.average), PercentSign),
         Figure(ValueOr0(second.humidity.average), PercentSign),
         Figure(ValueOr0(humidityDifference), PercentSign)])
    case AlertsDto(_, _, totalCount, _) => [Figure(totalCount as real, ItemsWord)]
  }

  lemma {:induction false} FiguresOfBoth(a: seq<Item>, b: seq<Item>, n: nat)
    requires n <= |b|
    ensures FiguresOf(a + b, |a| + n) == FiguresOf(a, |a|) + FiguresOf(b, n)
  {
    if n == 0 {
      PrefixKeepsItems(a, b, |a|);
    } else {
      FiguresOfBoth(a, b, n - 1);
    }
  }

  lemma ItemsOfMetrics(metrics: seq<Metric>, q: Question, dto: Dto)
    ensures |metrics| == 1 ==> ItemsForAll(metrics, 1, q, dto) == ItemsFor(metrics[0], q, dto)
    ensures |metrics| == 2 ==>
            ItemsForAll(metrics, 2, q, dto) == ItemsFor(metrics[0], q, dto) + ItemsFor(metrics[1], q, dto)
  {
    if |metrics| > 0 {
      assert ItemsForAll(metrics, 0, q, dto) == [];
      assert ItemsForAll(metrics, 1, q, dto) == ItemsFor(metrics[0], q, dto);
    }
  }

  lemma {:induction false} ItemsInTurn(q: Question, dto: Dto, t: seq<Item>, h: seq<Item>, items: seq<Item>)
    requires !dto.AlertsDto? && items == ItemsOf(q, dto)
    requires t == ItemsFor(Alerting.Temperature, q, dto) && h == ItemsFor(Alerting.Humidity, q, dto)
    ensures FiguresOf(items, |items|) == Asked(q, FiguresOf(t, |t|), FiguresOf(h, |h|))
  {
    ItemsByQuestion(q, dto, t, h, items);
    if |Metrics(q)| == 2 {
      FiguresOfBoth(t, h, |h|);
    }
  }

  lemma ItemsByQuestion(q: Question, dto: Dto, t: seq<Item>, h: seq<Item>, items: seq<Item>)
    requires !dto.AlertsDto? && items == ItemsOf(q, dto)
    requires t == ItemsFor(Alerting.Temperature, q, dto) && h == ItemsFor(Alerting.Humidity, q, dto)
    ensures items == if q.both || (q.temperature && q.humidity) then t + h else if q.humidity then h else t
    ensures |Metrics(q)| == 2 <==> q.both || (q.temperature && q.humidity)
  {
    ItemsOfMetrics(Metrics(q), q, dto);
  }

  lemma {:induction false} SeriesFigures(metric: Metric, points: seq<Point>, n: nat)
    requires n <= |SampleIndices(|points|)|
    requires forall k :: 0 <= k < |SampleIndices(|points|)| ==> 0 <= SampleIndices(|points|)[k] < |points|
    ensures FiguresOf(PointItems(metric, points, SampleIndices(|points|), |SampleIndices(|points|)|), n)
         == SampledAverages(points, n, metric == Alerting.Humidity)
  {
    if n > 0 {
      SeriesFigures(metric, points, n - 1);
    }
  }

  lemma OneFigure(a: Item)
    ensures FiguresOf([a], 1) == [FigureOf(a)]
  {
    assert FiguresOf([a], 0) == [];
  }

  lemma ThreeFigures(a: Item, b: Item, c: Item)
    ensures FiguresOf([a, b, c], 3) == [FigureOf(a), FigureOf(b), FigureOf(c)]
  {
    var items := [a, b, c];
    assert FiguresOf(items, 0) == [] && FiguresOf(items, 1) == [FigureOf(a)];
    assert FiguresOf(items, 2) == [FigureOf(a), FigureOf(b)];
  }

  /** One metric's items carry that metric's own fields. */
  lemma {:induction false} MetricFigures(metric: Metric, q: Question, dto: Dto)
    ensures var items := ItemsFor(metric, q, dto);
            var only := Question(false, metric == Alerting.Temperature, metric == Alerting.Humidity,
                                 q.highest, q.lowest, q.count);
            FiguresOf(items, |items|) == ExpectedFigures(only, dto)
  {
    var items := ItemsFor(metric, q, dto);
    match dto
    case LatestDto(_, _, _, _) => OneFigure(items[0]);
    case StatisticsDto(_) => OneFigure(items[0]);
    case SeriesDto(_, _, points) =>
      SampledWithin(|points|);
      SeriesFigures(metric, points, |SampleIndices(|points|)|);
    case ComparisonDto(_, _, _, _) => ThreeFigures(items[0], items[1], items[2]);
    case AlertsDto(_, _, _, _) => OneFigure(items[0]);
  }

  /** The numbers printed for a question are those that it asks for, from the fields of that metric. */
  lemma {:induction false} ItemsSayWhatIsAsked(q: Question, dto: Dto)
    ensures FiguresOf(ItemsOf(q, dto), |ItemsOf(q, dto)|) == ExpectedFigures(q, dto)
  {
    MetricFigures(Alerting.Temperature, q, dto);
    MetricFigures(Alerting.Humidity, q, dto);
    if !dto.AlertsDto? {
      ItemsInTurn(q, dto, ItemsFor(Alerting.Temperature, q, dto), ItemsFor(Alerting.Humidity, q, dto), ItemsOf(q, dto));
    }
  }

  /** So does every answer that the printer gives from a record. */
  lemma {:induction false} AnswersSayWhatIsAsked(c: Candidate, q: Question, call: ToolCall, dto: Dto)
    requires Answers(c, q, call, dto)
    ensures Figures(c.answer, |c.answer|) == ExpectedFigures(q, dto)
  {
    ItemsSayWhatIsAsked(q, dto);
  }
}
