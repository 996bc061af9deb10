/** Thresholds, trigger values and hysteresis of alerts in a candidate answer. The check of
    app/agent/validation.py knows metrics by lower-case names, the alert table writes them in upper
    case: so these values never get the label or the unit of their metric. */
module AlertValues {
  import opened Wrappers
  import opened AgentRecords
  import opened Labels
  import opened AnswerValidation
  import opened AnswerSoundness
  import opened VerifiedFallback
  import Alerting

  predicate IsAlertPath(path: Path) {
    path != [] && path[|path| - 1].AlertFieldKey?
  }

  /** Where the check looks for the metric of an alert's value. */
  function Sibling(path: Path): Path
    requires IsAlertPath(path)
  {
    path[..|path| - 1] + [MetricNameKey]
  }

  /** The meaning of an alert's value whose metric the check does not know. */
  function Unmeasured(field: AlertField): Meaning {
    Meaning(AlertValueLabel(None, field), None)
  }

  /** An alert's value takes its metric's label and unit exactly when the metric is written as one
      of the two lower-case names; every other text leaves it without both. */
  lemma MetricIsTakenExactly(call: ToolCall, path: Path, text: string)
    requires IsAlertPath(path) && ResolvePath(call.result.Envelope(), Sibling(path)) == Success(Text(KeyOf(text)))
    ensures var field := path[|path| - 1].field;
            MeaningOf(call, path) == Success(
              if text == "temperature" then Meaning(AlertValueLabel(Some(Alerting.Temperature), field), Some(Celsius))
              else if text == "humidity" then Meaning(AlertValueLabel(Some(Alerting.Humidity), field), Some(Percent))
              else Unmeasured(field))
  {
  }

  // --- What the tools record ---

  /** A result that a tool leaves: none, or the dump of what the query service returned. */
  ghost predicate IsToolRecord(call: ToolCall) {
    call.result.data.None? || exists dto :: call.result.data == Some(Dump(dto))
  }

  predicate NamesMetric(value: Json) {
    value.Text? && value.name.MetricKey?
  }

  /** No object in the value holds a lower-case metric name. */
  predicate Unlabelled(value: Json) {
    match value
    case Object(fields) =>
      && (MetricNameKey in fields ==> !NamesMetric(fields[MetricNameKey]))
      && forall k :: k in fields ==> Unlabelled(fields[k])
    case Array(items) => forall i :: 0 <= i < |items| ==> Unlabelled(items[i])
    case _ => true
  }

  lemma {:induction false} NoMetricBelow(value: Json, parent: Path)
    requires Unlabelled(value)
    ensures var r := ResolvePath(value, parent + [MetricNameKey]); r.Success? ==> !NamesMetric(r.value)
    decreases |parent|
  {
    var path := parent + [MetricNameKey];
    if parent == [] {
      assert path == [MetricNameKey] && path[1..] == [];
    } else {
      var key, rest := parent[0], parent[1..];
      assert path[1..] == rest + [MetricNameKey];
      if value.Object? && key in value.fields {
        NoMetricBelow(value.fields[key], rest);
      } else if value.Array? && key.Index? && key.n < |value.items| {
        NoMetricBelow(value.items[key.n], rest);
      }
    }
  }

  lemma MetricIsUnlabelled(m: MetricStatistics)
    ensures Unlabelled(DumpMetric(m))
  {
  }

  lemma PeriodIsUnlabelled(p: Point)
    ensures Unlabelled(DumpPeriod(p)) && Unlabelled(DumpPoint(p))
  {
    MetricIsUnlabelled(p.temperature);
    MetricIsUnlabelled(p.humidity);
  }

  lemma AlertIsUnlabelled(alert: Alerting.Alert)
    ensures Unlabelled(DumpAlert(alert))
  {
    ColumnIsUpperCase(alert.metric);
  }

  lemma ColumnIsUpperCase(metric: Metric)
    ensures KeyOf(MetricColumn(metric)) == OtherKey(MetricColumn(metric))
  {
    assert MetricColumn(metric)[0] != "temperature"[0] && MetricColumn(metric)[0] != "humidity"[0];
  }

  lemma {:induction false} DumpIsUnlabelled(dto: Dto)
    ensures Unlabelled(Dump(dto))
  {
    match dto
    case LatestDto(_, _, _, _) =>
    case StatisticsDto(overall) => PeriodIsUnlabelled(overall);
    case SeriesDto(_, _, points) =>
      forall i | 0 <= i < |points|
        ensures Unlabelled(DumpPoint(points[i]))
      {
        PeriodIsUnlabelled(points[i]);
      }
      assert Unlabelled(Array(DumpPoints(points)));
    case ComparisonDto(first, second, _, _) =>
      PeriodIsUnlabelled(first);
      PeriodIsUnlabelled(second);
    case AlertsDto(_, _, _, alerts) =>
      forall i | 0 <= i < |alerts|
        ensures Unlabelled(DumpAlert(alerts[i]))
      {
        AlertIsUnlabelled(alerts[i]);
      }
      assert Unlabelled(Array(DumpAlerts(alerts)));
  }

  lemma RecordIsUnlabelled(call: ToolCall)
    requires IsToolRecord(call)
    ensures Unlabelled(call.result.Envelope())
  {
    if call.result.data.Some? {
      var dto :| call.result.data == Some(Dump(dto));
      DumpIsUnlabelled(dto);
    }
  }

  /** In every record of every tool, at every path, an alert's value has no metric and no unit. */
  lemma AlertValuesHaveNoUnit(call: ToolCall, path: Path)
    requires IsToolRecord(call) && IsAlertPath(path)
    ensures MeaningOf(call, path).Success? ==> MeaningOf(call, path).value == Unmeasured(path[|path| - 1].field)
  {
    RecordIsUnlabelled(call);
    NoMetricBelow(call.result.Envelope(), path[..|path| - 1]);
  }

  // --- The values themselves ---

  function AlertPath(index: nat, field: AlertField): Path {
    [DataKey, AlertsKey, Index(index), AlertFieldKey(field)]
  }

  lemma AlertFieldIsDumped(dto: Dto, index: nat, key: Key)
    requires dto.AlertsDto? && index < |dto.alerts| && key in DumpAlert(dto.alerts[index]).fields
    ensures ResolvePath(Dump(dto), [AlertsKey, Index(index), key])
         == Success(DumpAlert(dto.alerts[index]).fields[key])
  {
    var items := Array(DumpAlerts(dto.alerts));
    ResolveDirect(DumpAlert(dto.alerts[index]), key);
    ResolveItem(items, index, [key]);
    ResolveField(Dump(dto), AlertsKey, [Index(index)] + [key]);
    assert [AlertsKey] + ([Index(index)] + [key]) == [AlertsKey, Index(index), key];
  }

  lemma AlertFieldIsRead(call: ToolCall, dto: Dto, index: nat, key: Key)
    requires call.result.data == Some(Dump(dto)) && dto.AlertsDto? && index < |dto.alerts|
    requires key in DumpAlert(dto.alerts[index]).fields
    ensures ResolvePath(call.result.Envelope(), [DataKey, AlertsKey, Index(index), key])
         == Success(DumpAlert(dto.alerts[index]).fields[key])
  {
    AlertFieldIsDumped(dto, index, key);
    ResolveData(call, [AlertsKey, Index(index), key]);
    assert [DataKey] + [AlertsKey, Index(index), key] == [DataKey, AlertsKey, Index(index), key];
  }

  /** Each of the three values of a recorded alert can be cited, without metric and unit. */
  lemma AlertValueIsCitable(call: ToolCall, dto: Dto, index: nat, field: AlertField)
    requires call.result.data == Some(Dump(dto)) && dto.AlertsDto? && index < |dto.alerts|
    ensures ReadsAt(call, AlertPath(index, field), FieldValue(dto.alerts[index], field), None)
    ensures field == Threshold ==> ReadsAt(call, AlertPath(index, field), dto.alerts[index].thresholdValue, None)
    ensures field == Trigger ==> ReadsAt(call, AlertPath(index, field), dto.alerts[index].triggerValue, None)
    ensures field == Hysteresis ==> ReadsAt(call, AlertPath(index, field), dto.alerts[index].hysteresis, None)
    ensures MeaningOf(call, AlertPath(index, field)) == Success(Unmeasured(field))
  {
    AlertFieldIsRead(call, dto, index, AlertFieldKey(field));
    AlertFieldIsRead(call, dto, index, MetricNameKey);
    var path := AlertPath(index, field);
    assert Sibling(path) == [DataKey, AlertsKey, Index(index), MetricNameKey];
    MetricIsTakenExactly(call, path, MetricColumn(dto.alerts[index].metric));
    ColumnIsUpperCase(dto.alerts[index].metric);
  }

  /** The words of a recorded alert are those of its row. */
  lemma AlertWordsAreRead(call: ToolCall, dto: Dto, index: nat)
    requires call.result.data == Some(Dump(dto)) && dto.AlertsDto? && index < |dto.alerts|
    ensures ResolvePath(call.result.Envelope(), [DataKey, AlertsKey, Index(index), OtherKey("direction")])
         == Success(Text(OtherKey(match dto.alerts[index].direction case Low => "LOW" case High => "HIGH")))
    ensures ResolvePath(call.result.Envelope(), [DataKey, AlertsKey, Index(index), OtherKey("status")])
         == Success(Text(OtherKey(match dto.alerts[index].status case Open => "OPEN" case Resolved => "RESOLVED")))
  {
    AlertFieldIsRead(call, dto, index, OtherKey("direction"));
    AlertFieldIsRead(call, dto, index, OtherKey("status"));
  }

  // --- What an answer can say with them ---

  /** A record holds the value in this unit at a path that is not an alert's value. */
  ghost predicate Measured(history: seq<ToolCall>, value: real, unit: Unit) {
    exists call, path: Path :: call in history && ReadsAt(call, path, value, Some(unit)) && !IsAlertPath(path)
  }

  ghost predicate AllToolRecords(history: seq<ToolCall>) {
    forall call :: call in history ==> IsToolRecord(call)
  }

  lemma UnitMeansMeasured(history: seq<ToolCall>, value: real, unit: Unit)
    requires AllToolRecords(history) && Holds(history, value, Some(unit))
    ensures Measured(history, value, unit)
  {
    var call, path: Path :| call in history && ReadsAt(call, path, value, Some(unit));
    if IsAlertPath(path) {
      AlertValuesHaveNoUnit(call, path);
    }
  }

  /** The value is, to two decimals, the difference of two measured values of the unit. */
  ghost predicate IsMeasuredDifference(history: seq<ToolCall>, value: real, unit: Unit) {
    exists first, second ::
      && Measured(history, first, unit) && Measured(history, second, unit)
      && IsDifference(first, second, value)
  }

  /** The value is, to two decimals, the change in per cent between two values of one unit. */
  ghost predicate IsPercentChange(history: seq<ToolCall>, value: real) {
    exists first, second, unit ::
      && Holds(history, first, unit) && Holds(history, second, unit) && IsChange(first, second, value)
  }

  /** A number with a recognised unit is never backed by an alert's value itself: it is a measured
      value of that unit, a difference of two such, or, as a percentage, a change between two
      recorded values. */
  lemma {:induction false} UnitsNeverComeFromAlerts(candidate: Candidate, history: seq<ToolCall>, figure: Figure)
    requires AllToolRecords(history) && Acceptable(candidate, history) && figure in VisibleFigures(candidate)
    requires figure.Figure? && RecognisedUnit(figure.suffix).Some?
    ensures var unit := RecognisedUnit(figure.suffix).value;
            || Measured(history, figure.value, unit)
            || IsMeasuredDifference(history, figure.value, unit)
            || (unit == Percent && IsPercentChange(history, figure.value))
  {
    var unit := RecognisedUnit(figure.suffix).value;
    NumberIsGrounded(candidate, history, figure);
    if Holds(history, figure.value, Some(unit)) {
      UnitMeansMeasured(history, figure.value, unit);
    } else {
      var operation, first, second, operandUnit :|
        Follows(history, operation, first, second, operandUnit, figure.value)
          && ResultUnit(operation, operandUnit) == Some(unit);
      if operation == AbsoluteDifference {
        UnitMeansMeasured(history, first, unit);
        UnitMeansMeasured(history, second, unit);
      }
    }
  }

  /** Two alert values always count as values of one unit, whatever their metrics are: a calculation
      on them passes exactly when its arithmetic is right. */
  lemma AlertValuesCountAsOneUnit(
    history: seq<ToolCall>, n: nat, call: ToolCall, dto: Dto, calculation: Calculation,
    i: nat, j: nat, f: AlertField, g: AlertField)
    requires call.result.data == Some(Dump(dto)) && dto.AlertsDto? && i < |dto.alerts| && j < |dto.alerts|
    requires Fetch(history, n) == Success(call)
    requires calculation.first == Operand(CallNumber(n), AlertPath(i, f))
    requires calculation.second == Operand(CallNumber(n), AlertPath(j, g))
    ensures var first, second := FieldValue(dto.alerts[i], f), FieldValue(dto.alerts[j], g);
            Reproducible(calculation, history) <==>
              && (if calculation.operation == AbsoluteDifference then calculation.expression == AbsoluteDifferenceText
                  else calculation.expression == PercentChangeText)
              && Agrees(calculation.operation, first, second, calculation.result)
              && Quantizable(calculation.result)
    ensures CalculationUnit(calculation, history) == if calculation.operation == PercentChange then Some(Percent)
            else None
  {
    AlertValueIsCitable(call, dto, i, f);
    AlertValueIsCitable(call, dto, j, g);
    ReproducibleInPlainTerms(calculation, history);
  }
}
