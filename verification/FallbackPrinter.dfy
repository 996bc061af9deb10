/** app/agent/fallback.py: the five candidate builders and the printer itself. */
module FallbackPrinting {
  import opened Wrappers
  import opened AgentRecords
  import opened Common
  import opened AnswerValidation
  import opened Labels
  import opened VerifiedFallback
  import Alerting

  /** Why the printer raises instead of returning. */
  datatype Refusal = EmptyHistory | MissingValue | MissingTimestamp | Rejected(rule: Rule)

  lemma {:induction false} PrintsPhrase(evidence: seq<Evidence>, answer: seq<Token>, items: seq<Item>, item: Item)
    requires Prints(evidence, answer, items) && item.observedAt.None?
    ensures Prints(evidence + [EvidenceOf(item)], answer + [Words, Numeral(FigureOf(item)), Words], items + [item])
  {
    PrintsWords(evidence, answer, items);
    PrintsNumber(evidence, answer + [Words], items, item);
    PrintsWords(evidence + [EvidenceOf(item)], answer + [Words] + [Numeral(FigureOf(item))], items + [item]);
    assert answer + [Words, Numeral(FigureOf(item)), Words] == answer + [Words] + [Numeral(FigureOf(item))] + [Words];
  }

  function NumberAt(data: Json, path: Path): Option<real> {
    match ResolvePath(data, path)
    case Success(Number(amount)) => Some(amount)
    case _ => None
  }

  method LatestCandidate(q: Question, call: ToolCall, ghost dto: Dto) returns (r: Result<Candidate, Refusal>)
    requires call.result.data.Some?
    ensures Ready(call, dto) && dto.LatestDto? ==> r.Success? && Answers(r.value, q, call, dto)
  {
    ghost var ready := Ready(call, dto) && dto.LatestDto?;
    var data := call.result.data.value;
    var evidence: seq<Evidence>, answer: seq<Token> := [], [];
    var metrics := Metrics(q);
    for i := 0 to |metrics|
      invariant ready ==> Prints(evidence, answer, ItemsForAll(metrics, i, q, dto))
    {
      var metric := metrics[i];
      ghost var items := ItemsForAll(metrics, i, q, dto);
      if ready {
        LatestIsTrue(call, q, dto, metric);
        PrintsPhrase(evidence, answer, items, ItemsFor(metric, q, dto)[0]);
      }
      var value := NumberAt(data, [LatestKey(metric)]);
      if value.Some? {
        var unit := UnitOf(metric);
        evidence := evidence + [
          Evidence(Canonical(LatestLabel(metric)), Number(value.value), Some(unit), 1,
                   [DataKey, LatestKey(metric)], None)];
        answer := answer + [Words, Numeral(Figure(value.value, SuffixOf(unit))), Words];
      }
    }
    if answer == [] {
      return Failure(MissingValue);
    }
    var measuredAt := match ResolvePath(data, [MeasuredAtKey]) {
      case Success(Moment(stamp)) => Some(stamp)
      case _ => None
    };
    if ready {
      ResolveDirect(data, MeasuredAtKey);
    }
    return Success(Candidate(answer, measuredAt, measuredAt, "Asia/Tokyo", evidence, [], call.result.status));
  }

  lemma {:induction false} PrintsNextStatistic(
    evidence: seq<Evidence>, answer: seq<Token>, i: nat, q: Question, call: ToolCall, dto: Dto)
    requires Ready(call, dto) && dto.StatisticsDto? && i < |Metrics(q)|
    requires Prints(evidence, answer, ItemsForAll(Metrics(q), i, q, dto))
    ensures var item := ItemsFor(Metrics(q)[i], q, dto)[0];
            Prints(evidence + [EvidenceOf(item)], answer + [Words, Numeral(FigureOf(item)), Words],
                   ItemsForAll(Metrics(q), i + 1, q, dto))
  {
    PrintsPhrase(evidence, answer, ItemsForAll(Metrics(q), i, q, dto), ItemsFor(Metrics(q)[i], q, dto)[0]);
  }

  method StatisticsCandidate(q: Question, call: ToolCall, ghost dto: Dto) returns (r: Result<Candidate, Refusal>)
    requires call.result.data.Some?
    ensures Ready(call, dto) && dto.StatisticsDto? ==> r.Success? && Answers(r.value, q, call, dto)
  {
    ghost var ready := Ready(call, dto) && dto.StatisticsDto?;
    var data := call.result.data.value;
    var statistic := RequestedStatistic(q);
    var evidence: seq<Evidence>, answer: seq<Token> := [], [];
    var metrics := Metrics(q);
    for i := 0 to |metrics|
      invariant ready ==> Prints(evidence, answer, ItemsForAll(metrics, i, q, dto))
    {
      var metric := metrics[i];
      if ready {
        StatisticIsTrue(call, q, dto, metric);
        PrintsNextStatistic(evidence, answer, i, q, call, dto);
      }
      var unit := if statistic == Count then Items else UnitOf(metric);
      var value := NumberAt(data, [MetricKey(metric), StatisticKey(statistic)]);
      if value.None? {
        return Failure(MissingValue);
      }
      var item :=
        Evidence(Canonical(StatisticLabel(metric, statistic)), Number(value.value), Some(unit), 1,
                 [DataKey, MetricKey(metric), StatisticKey(statistic)], None);
      assert ready ==> item == EvidenceOf(ItemsFor(metric, q, dto)[0]);
      evidence := evidence + [item];
      answer := answer + [Words, Numeral(Figure(value.value, SuffixOf(unit))), Words];
    }
    return Success(Candidate(answer, Endpoint(call, PeriodFromKey), Endpoint(call, PeriodToKey), "Asia/Tokyo",
                             evidence, [], call.result.status));
  }

  lemma {:induction false} PrintsPoint(evidence: seq<Evidence>, answer: seq<Token>, items: seq<Item>, item: Item)
    requires Prints(evidence, answer, items) && item.observedAt.Some?
    ensures Prints(evidence + [EvidenceOf(item)],
                   answer + [Dated(IsoText(item.observedAt.value.at, TOKYO_OFFSET)), Numeral(FigureOf(item)), Words],
                     items + [item])
  {
    var tokens := [Dated(IsoText(item.observedAt.value.at, TOKYO_OFFSET)), Numeral(FigureOf(item))];
    PrintsEntry(evidence, answer, items, item);
    PrintsWords(evidence + [EvidenceOf(item)], answer + tokens, items + [item]);
    assert answer + (tokens + [Words]) == answer + tokens + [Words];
    assert tokens + [Words] == [Dated(IsoText(item.observedAt.value.at, TOKYO_OFFSET)), Numeral(FigureOf(item)), Words];
  }

  function PointEvidence(metric: Metric, index: nat, value: real, observedAt: Stamp): Evidence {
    Evidence(Canonical(StatisticLabel(metric, Average)), Number(value), Some(UnitOf(metric)), 1,
             [DataKey, PointsKey, Index(index), MetricKey(metric), StatisticKey(Average)], Some(observedAt))
  }

  lemma {:induction false} PrintsNextPoint(
    evidence: seq<Evidence>, answer: seq<Token>, items: seq<Item>, metric: Metric, points: seq<Point>,
    indices: seq<int>, k: nat)
    requires k < |indices| && forall j :: 0 <= j < |indices| ==> 0 <= indices[j] < |points|
    requires Prints(evidence, answer, items + PointItems(metric, points, indices, k))
    ensures var item := PointItem(metric, points, indices[k]);
            Prints(evidence + [PointEvidence(metric, indices[k], item.value, points[indices[k]].bucketFrom)],
                   answer + [Dated(IsoText(points[indices[k]].bucketFrom.at, TOKYO_OFFSET)),
                             Numeral(Figure(item.value, SuffixOf(UnitOf(metric)))), Words],
                   items + PointItems(metric, points, indices, k + 1))
  {
    var item := PointItem(metric, points, indices[k]);
    PrintsPoint(evidence, answer, items + PointItems(metric, points, indices, k), item);
    assert items + PointItems(metric, points, indices, k) + [item]
           == items + PointItems(metric, points, indices, k + 1);
  }

  lemma PointReads(call: ToolCall, dto: Dto, metric: Metric, index: nat)
    requires Ready(call, dto) && dto.SeriesDto? && index < |dto.points|
    ensures NumberAt(Dump(dto), [PointsKey, Index(index), MetricKey(metric), StatisticKey(Average)])
         == Some(PointItem(metric, dto.points, index).value)
    ensures ResolvePath(Dump(dto), [PointsKey, Index(index), BucketFromKey])
            == Success(Moment(dto.points[index].bucketFrom))
  {
    PointIsTrue(call, dto, metric, index);
  }

  /** The entries of one metric: a local timestamp and a value for each sampled point. */
  method SeriesEntries(metric: Metric, call: ToolCall, ghost dto: Dto, ghost items: seq<Item>, count: nat,
                       evidence0: seq<Evidence>, answer0: seq<Token>)
    returns (r: Result<(seq<Evidence>, seq<Token>), Refusal>)
    requires call.result.data.Some?
    requires Ready(call, dto) && dto.SeriesDto? ==> count == |dto.points| && Prints(evidence0, answer0, items)
    ensures Ready(call, dto) && dto.SeriesDto? ==>
              r.Success? && Prints(r.value.0, r.value.1, items + SeriesItems(metric, dto.points))
  {
    ghost var ready := Ready(call, dto) && dto.SeriesDto?;
    var data := call.result.data.value;
    var evidence, answer := evidence0, answer0;
    var indices := SampleIndices(count);
    SampledWithin(count);
    assert ready ==> items + PointItems(metric, dto.points, indices, 0) == items;
    for k := 0 to |indices|
      invariant ready ==> Prints(evidence, answer, items + PointItems(metric, dto.points, indices, k))
    {
      var index := indices[k];
      if ready {
        PointReads(call, dto, metric, index);
        PrintsNextPoint(evidence, answer, items, metric, dto.points, indices, k);
      }
      var value := NumberAt(data, [PointsKey, Index(index), MetricKey(metric), StatisticKey(Average)]);
      if value.None? {
        return Failure(MissingValue);
      }
      var observed := ResolvePath(data, [PointsKey, Index(index), BucketFromKey]);
      if observed.Failure? || !observed.value.Moment? {
        return Failure(MissingTimestamp);
      }
      var observedAt := observed.value.stamp;
      evidence := evidence + [PointEvidence(metric, index, value.value, observedAt)];
      answer := answer + [
        Dated(IsoText(observedAt.at, TOKYO_OFFSET)), Numeral(Figure(value.value, SuffixOf(UnitOf(metric)))), Words];
    }
    return Success((evidence, answer));
  }

  function SeriesItems(metric: Metric, points: seq<Point>): seq<Item> {
    SampledWithin(|points|);
    PointItems(metric, points, SampleIndices(|points|), |SampleIndices(|points|)|)
  }

  method SeriesCandidate(q: Question, call: ToolCall, ghost dto: Dto) returns (r: Result<Candidate, Refusal>)
    requires call.result.data.Some?
    ensures Ready(call, dto) && dto.SeriesDto? ==> r.Success? && Answers(r.value, q, call, dto)
  {
    ghost var ready := Ready(call, dto) && dto.SeriesDto?;
    if ready {
      ResolveDirect(Dump(dto), PointsKey);
    }
    var points := ResolvePath(call.result.data.value, [PointsKey]);
    if points.Failure? || !points.value.Array? {
      return Failure(MissingValue);
    }
    var evidence: seq<Evidence>, answer: seq<Token> := [], [];
    var metrics := Metrics(q);
    for i := 0 to |metrics|
      invariant ready ==> Prints(evidence, answer, ItemsForAll(metrics, i, q, dto))
    {
      ghost var items := ItemsForAll(metrics, i, q, dto);
      if ready {
        PrintsWords(evidence, answer, items);
      }
      answer := answer + [Words];
      var entries := SeriesEntries(metrics[i], call, dto, items, |points.value.items|, evidence, answer);
      if entries.Failure? {
        return Failure(entries.error);
      }
      if ready {
        PrintsWords(entries.value.0, entries.value.1, ItemsForAll(metrics, i + 1, q, dto));
      }
      evidence, answer := entries.value.0, entries.value.1 + [Words];
    }
    return Success(Candidate(answer, Endpoint(call, PeriodFromKey), Endpoint(call, PeriodToKey), "Asia/Tokyo",
                             evidence, [], call.result.status));
  }

  method ComparisonCandidate(q: Question, call: ToolCall, ghost dto: Dto) returns (r: Result<Candidate, Refusal>)
    requires call.result.data.Some?
    ensures Ready(call, dto) && dto.ComparisonDto? ==> r.Success? && Answers(r.value, q, call, dto)
  {
    ghost var ready := Ready(call, dto) && dto.ComparisonDto?;
    var data := call.result.data.value;
    var evidence: seq<Evidence>, answer: seq<Token> := [], [];
    var metrics := Metrics(q);
    for i := 0 to |metrics|
      invariant ready ==> Prints(evidence, answer, ItemsForAll(metrics, i, q, dto))
    {
      var metric := metrics[i];
      var unit := UnitOf(metric);
      ghost var items := ItemsForAll(metrics, i, q, dto);
      if ready {
        ComparisonReads(call, q, dto, metric);
        PrintsThree(evidence, answer, items, ItemsFor(metric, q, dto));
      }
      var first := NumberAt(data, [FirstKey, MetricKey(metric), StatisticKey(Average)]);
      var second := NumberAt(data, [SecondKey, MetricKey(metric), StatisticKey(Average)]);
      var difference := NumberAt(data, [DifferenceKey(metric)]);
      if first.None? || second.None? || difference.None? {
        return Failure(MissingValue);
      }
      evidence := evidence + [
        Evidence(Canonical(StatisticLabel(metric, Average)), Number(first.value), Some(unit), 1,
                 [DataKey, FirstKey, MetricKey(metric), StatisticKey(Average)], None),
        Evidence(Canonical(StatisticLabel(metric, Average)), Number(second.value), Some(unit), 1,
                 [DataKey, SecondKey, MetricKey(metric), StatisticKey(Average)], None),
        Evidence(Canonical(DifferenceLabel(metric)), Number(difference.value), Some(unit), 1,
          [DataKey, DifferenceKey(metric)], None)];
      answer := answer + [
        Words, Numeral(Figure(first.value, SuffixOf(unit))), Words,
        Words, Numeral(Figure(second.value, SuffixOf(unit))), Words,
        Words, Numeral(Figure(difference.value, SuffixOf(unit))), Words];
    }
    return Success(Candidate(answer, None, None, "Asia/Tokyo", evidence, [], call.result.status));
  }

  lemma PeriodReads(call: ToolCall, dto: Dto, metric: Metric, period: Key, p: Point)
    requires Ready(call, dto) && dto.ComparisonDto?
    requires (period == FirstKey && p == dto.first) || (period == SecondKey && p == dto.second)
    ensures NumberAt(Dump(dto), [period, MetricKey(metric), StatisticKey(Average)])
            == Some(ComparisonItem(metric, period, p).value)
  {
    ResolvePeriodAverage(dto, metric, period, p);
    assert FilledPoint(p);
  }

  lemma ComparisonReads(call: ToolCall, q: Question, dto: Dto, metric: Metric)
    requires Ready(call, dto) && dto.ComparisonDto?
    ensures NumberAt(Dump(dto), [FirstKey, MetricKey(metric), StatisticKey(Average)])
            == Some(ItemsFor(metric, q, dto)[0].value)
    ensures NumberAt(Dump(dto), [SecondKey, MetricKey(metric), StatisticKey(Average)])
            == Some(ItemsFor(metric, q, dto)[1].value)
    ensures NumberAt(Dump(dto), [DifferenceKey(metric)]) == Some(ItemsFor(metric, q, dto)[2].value)
  {
    PeriodReads(call, dto, metric, FirstKey, dto.first);
    PeriodReads(call, dto, metric, SecondKey, dto.second);
    DifferenceIsTrue(call, q, dto, metric);
  }

  function PhraseOf(item: Item): seq<Token> {
    [Words, Numeral(FigureOf(item)), Words]
  }

  lemma AppendThree<T>(s: seq<T>, x: seq<T>, y: seq<T>, z: seq<T>)
    ensures s + x + y + z == s + (x + y + z)
  {
  }

  lemma ThreePhrases(a: Item, b: Item, c: Item)
    ensures PhraseOf(a) + PhraseOf(b) + PhraseOf(c)
         == [Words, Numeral(FigureOf(a)), Words, Words, Numeral(FigureOf(b)), Words, Words, Numeral(FigureOf(c)), Words]
  {
  }

  lemma {:induction false} PrintsThree(evidence: seq<Evidence>, answer: seq<Token>, items: seq<Item>, more: seq<Item>)
    requires Prints(evidence, answer, items) && |more| == 3 && forall k :: 0 <= k < 3 ==> more[k].observedAt.None?
    ensures Prints(evidence + [EvidenceOf(more[0]), EvidenceOf(more[1]), EvidenceOf(more[2])],
                   answer + [Words, Numeral(FigureOf(more[0])), Words, Words, Numeral(FigureOf(more[1])), Words,
                             Words, Numeral(FigureOf(more[2])), Words],
                   items + more)
  {
    var (a, b, c) := (more[0], more[1], more[2]);
    var (e0, e1, e2) := (EvidenceOf(a), EvidenceOf(b), EvidenceOf(c));
    PrintsPhrase(evidence, answer, items, a);
    PrintsPhrase(evidence + [e0], answer + PhraseOf(a), items + [a], b);
    PrintsPhrase(evidence + [e0] + [e1], answer + PhraseOf(a) + PhraseOf(b), items + [a] + [b], c);
    AppendThree(evidence, [e0], [e1], [e2]);
    AppendThree(answer, PhraseOf(a), PhraseOf(b), PhraseOf(c));
    AppendThree(items, [a], [b], [c]);
    ThreePhrases(a, b, c);
    assert [e0] + [e1] + [e2] == [e0, e1, e2];
    assert [a] + [b] + [c] == more;
  }

  lemma {:induction false} PrintsTotal(call: ToolCall, q: Question, dto: Dto)
    requires Ready(call, dto) && dto.AlertsDto?
    ensures var item := ItemsOf(q, dto)[0];
            && item == Item(AlertTotalLabel, Items, [DataKey, TotalCountKey], dto.totalCount as real, None)
            && Prints([EvidenceOf(item)], [Words, Numeral(FigureOf(item)), Words], ItemsOf(q, dto))
    ensures NumberAt(Dump(dto), [TotalCountKey]) == Some(dto.totalCount as real)
  {
    var item := ItemsOf(q, dto)[0];
    TotalIsTrue(call, q, dto);
    PrintsPhrase([], [], [], item);
    assert [] + [item] == ItemsOf(q, dto);
    assert [] + [EvidenceOf(item)] == [EvidenceOf(item)];
    assert [] + [Words, Numeral(FigureOf(item)), Words] == [Words, Numeral(FigureOf(item)), Words];
  }

  method AlertCandidate(q: Question, call: ToolCall, ghost dto: Dto) returns (r: Result<Candidate, Refusal>)
    requires call.result.data.Some?
    ensures Ready(call, dto) && dto.AlertsDto? ==> r.Success? && Answers(r.value, q, call, dto)
  {
    if Ready(call, dto) && dto.AlertsDto? {
      PrintsTotal(call, q, dto);
    }
    var count := NumberAt(call.result.data.value, [TotalCountKey]);
    if count.None? {
      return Failure(MissingValue);
    }
    return Success(Candidate(
      [Words, Numeral(Figure(count.value, ItemsWord)), Words],
      Endpoint(call, PeriodFromKey), Endpoint(call, PeriodToKey), "Asia/Tokyo",
      [Evidence(Canonical(AlertTotalLabel), Number(count.value), Some(Items), 1, [DataKey, TotalCountKey], None)], [],
      call.result.status));
  }

  /** A record without available data is answered with a fixed sentence. */
  function PlainCandidate(call: ToolCall): Candidate {
    Candidate([Words], Endpoint(call, PeriodFromKey), Endpoint(call, PeriodToKey), "Asia/Tokyo", [], [],
      call.result.status)
  }

  lemma {:induction false} PlainIsAcceptable(call: ToolCall)
    requires call.index == 1 && ArgumentsFit(call)
    ensures Acceptable(PlainCandidate(call), [call])
  {
    var c := PlainCandidate(call);
    if c.periodFrom.Some? {
      assert ContainsPeriod(call, c.periodFrom.value.at, c.periodTo.value.at);
      assert call in [call];
    }
    assert Prints([], [Words], []) by {
      assert Figures([Words], 1) == Figures([Words], 0) && Dates([Words], 1) == Dates([Words], 0);
    }
    PrintedIsAcceptable(c, call, []);
  }

  /** The display that the printer makes from a complete record: what answers the question. */
  ghost predicate IsAnswerFrom(display: Display, q: Question, call: ToolCall, deviceId: string) {
    exists dto: Dto, c: Candidate :: Ready(call, dto) && Answers(c, q, call, dto)
      && display == DisplayOf(c, [call], deviceId)
  }

  /** The printer returns for every question and every history that the tools can leave, however
      complete its first result; it refuses only an empty history. */
  method BuildVerifiedFallback(q: Question, history: seq<ToolCall>, deviceId: string)
    returns (r: Result<Display, Refusal>)
    requires history != [] ==> IsFirstRecord(history[0])
    ensures r.Failure? <==> history == []
    ensures history != [] && history[0].result.status == Available ==> IsAnswerFrom(r.value, q, history[0], deviceId)
    ensures history != [] && history[0].result.status != Available ==>
            r.value == DisplayOf(PlainCandidate(history[0]), [history[0]], deviceId)
  {
    if history == [] {
      return Failure(EmptyHistory);
    }
    var record := history[0];
    if record.result.status != Available || record.result.data.None? {
      PlainIsAcceptable(record);
      var plain := ValidateAndBuildDisplay(PlainCandidate(record), [record], deviceId);
      return Success(plain.value);
    }
    ghost var dto :| Describes(record, dto);
    var built: Result<Candidate, Refusal>;
    match record.name {
      case LatestMeasurement => built := LatestCandidate(q, record, dto);
      case MeasurementStatistics => built := StatisticsCandidate(q, record, dto);
      case MeasurementSeries => built := SeriesCandidate(q, record, dto);
      case ComparePeriods => built := ComparisonCandidate(q, record, dto);
      case AlertHistory => built := AlertCandidate(q, record, dto);
    }
    var candidate := built.value;
    AnswerIsAcceptable(candidate, q, record, dto);
    var display := ValidateAndBuildDisplay(candidate, [record], deviceId);
    return Success(display.value);
  }
}
