/** The label texts of app/agent/validation.py, and which of them name more than one label. */
module Labels {
  import opened Wrappers
  import opened AgentRecords
  import Alerting

  function MetricText(metric: Metric): string {
    if metric == Alerting.Temperature then "温度" else "湿度"
  }

  function StatisticText(statistic: Statistic): string {
    match statistic
    case Minimum => "最小値"
    case Maximum => "最大値"
    case Average => "平均値"
    case Count => "測定件数"
  }

  function AlertFieldText(field: AlertField): string {
    match field
    case Threshold => "閾値"
    case Trigger => "検出値"
    case Hysteresis => "ヒステリシス"
  }

  /** The text that is shown for a label. */
  function Canonical(shown: Label): string {
    match shown
    case LatestLabel(metric) => "最新" + MetricText(metric)
    case StatisticLabel(metric, statistic) => MetricText(metric) + StatisticText(statistic)
    case DifferenceLabel(metric) => MetricText(metric) + "平均との差"
    case AlertTotalLabel => "アラート総件数"
    case AlertValueLabel(measured, field) =>
      (if measured.None? then "測定値" else MetricText(measured.value)) + AlertFieldText(field)
  }

  /** LABEL_ALIASES: what a candidate may write beside the canonical text. */
  function Synonyms(shown: Label): set<string> {
    match shown
    case LatestLabel(Temperature) => {"現在温度", "現在の温度"}
    case LatestLabel(Humidity) => {"現在湿度", "現在の湿度"}
    case StatisticLabel(Temperature, Minimum) => {"最小温度", "最低温度"}
    case StatisticLabel(Temperature, Maximum) => {"最大温度", "最高温度"}
    case StatisticLabel(Temperature, Average) => {"平均温度"}
    case StatisticLabel(Temperature, Count) => {"温度件数", PLAIN_COUNT}
    case StatisticLabel(Humidity, Minimum) => {"最小湿度", "最低湿度"}
    case StatisticLabel(Humidity, Maximum) => {"最大湿度", "最高湿度"}
    case StatisticLabel(Humidity, Average) => {"平均湿度"}
    case StatisticLabel(Humidity, Count) => {"湿度件数", PLAIN_COUNT}
    case _ => {}
  }

  const PLAIN_COUNT: string := "測定件数"

  predicate Accepts(shown: Label, text: string) {
    text == Canonical(shown) || text in Synonyms(shown)
  }

  // --- Reading a label back from its text ---

  function ReadMetric(text: string): Metric {
    if '温' in text then Alerting.Temperature else Alerting.Humidity
  }

  function ReadField(text: string): AlertField {
    if '閾' in text then Threshold else if '検' in text then Trigger else Hysteresis
  }

  function ReadStatistic(text: string): Statistic {
    if '小' in text || '低' in text then Minimum
    else if '大' in text || '高' in text then Maximum
    else if '均' in text then Average
    else Count
  }

  /** The label that a text names, told from single characters of it. */
  function Read(text: string): Label {
    if '新' in text || '現' in text then LatestLabel(ReadMetric(text))
    else if '差' in text then DifferenceLabel(ReadMetric(text))
    else if '総' in text then AlertTotalLabel
    else if '閾' in text || '検' in text || 'ヒ' in text then
      AlertValueLabel(if '温' in text || '湿' in text then Some(ReadMetric(text)) else None, ReadField(text))
    else StatisticLabel(ReadMetric(text), ReadStatistic(text))
  }

  lemma {:induction false} CanonicalReads(shown: Label)
    ensures Read(Canonical(shown)) == shown
  {
    match shown
    case LatestLabel(metric) => LatestReads(metric);
    case StatisticLabel(metric, statistic) => StatisticReads(metric, statistic);
    case DifferenceLabel(metric) => DifferenceReads(metric);
    case AlertTotalLabel => TotalReads();
    case AlertValueLabel(measured, field) => AlertValueReads(measured, field);
  }

  lemma LatestReads(metric: Metric)
    ensures Read(Canonical(LatestLabel(metric))) == LatestLabel(metric)
  {
  }

  /** The text holds none of the characters that tell the other labels. */
  predicate IsStatistic(text: string) {
    && '新' !in text && '現' !in text && '差' !in text && '総' !in text
    && '閾' !in text && '検' !in text && 'ヒ' !in text
  }

  lemma StatisticReads(metric: Metric, statistic: Statistic)
    ensures Read(Canonical(StatisticLabel(metric, statistic))) == StatisticLabel(metric, statistic)
  {
    var text := Canonical(StatisticLabel(metric, statistic));
    MetricReads(metric, statistic);
    StatisticTextReads(metric, statistic);
    PartsArePlain(metric, statistic);
    assert IsStatistic(text);
  }

  lemma PartsArePlain(metric: Metric, statistic: Statistic)
    ensures IsStatistic(MetricText(metric)) && IsStatistic(StatisticText(statistic))
  {
  }

  lemma MetricReads(metric: Metric, statistic: Statistic)
    ensures ReadMetric(MetricText(metric) + StatisticText(statistic)) == metric
  {
  }

  lemma StatisticTextReads(metric: Metric, statistic: Statistic)
    ensures ReadStatistic(MetricText(metric) + StatisticText(statistic)) == statistic
  {
  }

  lemma DifferenceReads(metric: Metric)
    ensures Read(Canonical(DifferenceLabel(metric))) == DifferenceLabel(metric)
  {
  }

  lemma TotalReads()
    ensures Read(Canonical(AlertTotalLabel)) == AlertTotalLabel
  {
  }

  /** The text holds none of the characters that tell the labels before an alert's value. */
  predicate IsAlertValue(text: string) {
    '新' !in text && '現' !in text && '差' !in text && '総' !in text
  }

  lemma FieldReads(field: AlertField)
    ensures var text := AlertFieldText(field);
            && IsAlertValue(text) && ReadField(text) == field && '温' !in text && '湿' !in text
            && ('閾' in text || '検' in text || 'ヒ' in text)
  {
  }

  lemma PrefixReads(measured: Option<Metric>)
    ensures var text := if measured.None? then "測定値" else MetricText(measured.value);
            && IsAlertValue(text) && '閾' !in text && '検' !in text && 'ヒ' !in text
            && ('温' in text || '湿' in text <==> measured.Some?)
            && (measured.Some? ==> ReadMetric(text) == measured.value)
  {
  }

  lemma AlertValueReads(measured: Option<Metric>, field: AlertField)
    ensures Read(Canonical(AlertValueLabel(measured, field))) == AlertValueLabel(measured, field)
  {
    var before := if measured.None? then "測定値" else MetricText(measured.value);
    var after := AlertFieldText(field);
    FieldReads(field);
    PrefixReads(measured);
    ConcatReads(before, after, measured, field);
  }

  lemma ConcatReads(before: string, after: string, measured: Option<Metric>, field: AlertField)
    requires IsAlertValue(before) && IsAlertValue(after)
    requires '温' !in after && '湿' !in after && ('閾' in after || '検' in after || 'ヒ' in after)
    requires '閾' !in before && '検' !in before && ReadField(after) == field
    requires '温' in before || '湿' in before <==> measured.Some?
    requires measured.Some? ==> ReadMetric(before) == measured.value
    ensures Read(before + after) == AlertValueLabel(measured, field)
  {
  }

  lemma ShortReads(metric: Metric, text: string)
    requires text in Synonyms(LatestLabel(metric))
    ensures Read(text) == LatestLabel(metric)
  {
  }

  lemma MinimumReads(metric: Metric, text: string)
    requires text in Synonyms(StatisticLabel(metric, Minimum))
    ensures IsStatistic(text) && ReadMetric(text) == metric && ReadStatistic(text) == Minimum
  {
  }

  lemma MaximumReads(metric: Metric, text: string)
    requires text in Synonyms(StatisticLabel(metric, Maximum))
    ensures IsStatistic(text) && ReadMetric(text) == metric && ReadStatistic(text) == Maximum
  {
  }

  lemma AverageReads(metric: Metric, text: string)
    requires text in Synonyms(StatisticLabel(metric, Average))
    ensures IsStatistic(text) && ReadMetric(text) == metric && ReadStatistic(text) == Average
  {
  }

  lemma CountReads(metric: Metric, text: string)
    requires text in Synonyms(StatisticLabel(metric, Count)) && text != PLAIN_COUNT
    ensures IsStatistic(text) && ReadMetric(text) == metric && ReadStatistic(text) == Count
  {
  }

  lemma SynonymReads(shown: Label, text: string)
    requires text in Synonyms(shown) && text != PLAIN_COUNT
    ensures Read(text) == shown
  {
    match shown
    case LatestLabel(metric) => ShortReads(metric, text);
    case StatisticLabel(metric, Minimum) => MinimumReads(metric, text);
    case StatisticLabel(metric, Maximum) => MaximumReads(metric, text);
    case StatisticLabel(metric, Average) => AverageReads(metric, text);
    case StatisticLabel(metric, Count) => CountReads(metric, text);
    case _ =>
  }

  lemma PlainCountReads()
    ensures Read(PLAIN_COUNT).StatisticLabel? && Read(PLAIN_COUNT).statistic == Count
  {
  }

  /** A text is admitted for two labels exactly when it is the plain count and these are the counts
      of the two metrics. */
  lemma LabelsAreUnambiguous(a: Label, b: Label, text: string)
    requires a != b
    ensures Accepts(a, text) && Accepts(b, text) <==>
            text == PLAIN_COUNT && a.StatisticLabel? && b.StatisticLabel? && a.statistic == b.statistic == Count
  {
    TextReads(a, text);
    TextReads(b, text);
  }

  lemma TextReads(shown: Label, text: string)
    ensures Accepts(shown, text) && text != PLAIN_COUNT ==> Read(text) == shown
    ensures Accepts(shown, PLAIN_COUNT) <==> shown.StatisticLabel? && shown.statistic == Count
  {
    CanonicalReads(shown);
    PlainCountReads();
    if text in Synonyms(shown) && text != PLAIN_COUNT {
      SynonymReads(shown, text);
    }
    PlainIsNotCanonical(shown);
    PlainIsOnlyACount(shown);
  }

  lemma PlainIsNotCanonical(shown: Label)
    ensures Canonical(shown) != PLAIN_COUNT
  {
    CanonicalReads(shown);
    PlainCountReads();
  }

  lemma PlainIsOnlyACount(shown: Label)
    ensures PLAIN_COUNT in Synonyms(shown) <==> shown.StatisticLabel? && shown.statistic == Count
  {
  }
}
