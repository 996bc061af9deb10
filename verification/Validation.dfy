/** app/agent/validation.py: a candidate answer is shown only if its values, units, timestamps,
    period and every number in its text are backed by the history of tool calls. */
module AnswerValidation {
  import opened Wrappers
  import opened AgentRecords
  import opened Common
  import opened Labels
  import Alerting
  import PeriodResolving

  /** The rule that a refused candidate breaks, or the exception other than the check's own that
      ends the check. */
  datatype Rule =
    | TimezoneOrHistory | UnknownCall | CallOrdering | UnknownPath | NotDisplayable
    | EvidenceMismatch | LabelOrUnit | EvidenceTimestamp | StatusNotBacked
    | OperandSyntax | OperandNotNumeric | OperandUnits | WrongExpression | DivisionByZero | NotReproducible
    | PeriodUnpaired | PeriodUnknown | UnverifiedDatetime | UnverifiedNumber
    | DigitsUnreadable | NaNCompared | QuantizeOverflow | ExponentOutOfRange

  /** ValueError of `int`, or InvalidOperation of a decimal, which the check does not turn into its
      own exception. */
  predicate Escapes(rule: Rule) {
    rule.DigitsUnreadable? || rule.NaNCompared? || rule.QuantizeOverflow? || rule.ExponentOutOfRange?
  }

  // --- Reading the history ---

  /** A Python list index: call 0 reads the last record. */
  function Fetch(history: seq<ToolCall>, index: nat): Result<ToolCall, Rule> {
    if index > |history| || history == [] then Failure(UnknownCall)
    else
      var call := if index == 0 then history[|history| - 1] else history[index - 1];
      if call.index != index then Failure(CallOrdering) else Success(call)
  }

  function ResolvePath(value: Json, path: Path): (r: Result<Json, Rule>)
    ensures r.Failure? ==> r.error == UnknownPath || r.error == DigitsUnreadable
  {
    if path == [] then Success(value)
    else if value.Object? && path[0] in value.fields then ResolvePath(value.fields[path[0]], path[1..])
    else if value.Array? && path[0].UnreadableIndex? then Failure(DigitsUnreadable)
    else if value.Array? && path[0].Index? && path[0].n < |value.items|
      then ResolvePath(value.items[path[0].n], path[1..])
    else Failure(UnknownPath)
  }

  function UnitOf(metric: Metric): Unit {
    if metric == Alerting.Temperature then Celsius else Percent
  }

  datatype Meaning = Meaning(shown: Label, unit: Option<Unit>)

  function MeaningOf(call: ToolCall, path: Path): Result<Meaning, Rule> {
    if path == [] then Failure(NotDisplayable)
    else
      var leaf := path[|path| - 1];
      var parent := if |path| >= 2 then path[|path| - 2] else OtherKey("");
      if leaf.LatestKey? then Success(Meaning(LatestLabel(leaf.metric), Some(UnitOf(leaf.metric))))
      else if parent.MetricKey? && leaf.StatisticKey? then
        Success(Meaning(StatisticLabel(parent.metric, leaf.statistic),
          Some(if leaf.statistic == Count then Items else UnitOf(parent.metric))))
      else if leaf.DifferenceKey? then Success(Meaning(DifferenceLabel(leaf.metric), Some(UnitOf(leaf.metric))))
      else if leaf.TotalCountKey? then Success(Meaning(AlertTotalLabel, Some(Items)))
      else if leaf.AlertFieldKey? then
        match ResolvePath(call.result.Envelope(), path[..|path| - 1] + [MetricNameKey]) {
          case Failure(rule) => Failure(rule)
          case Success(Text(MetricKey(m))) => Success(Meaning(AlertValueLabel(Some(m), leaf.field), Some(UnitOf(m))))
          case Success(_) => Success(Meaning(AlertValueLabel(None, leaf.field), None))
        }
      else Failure(NotDisplayable)
  }

  /** Looking up an alert's metric beside a value that was found reads no further digits. */
  lemma {:induction false} SiblingDoesNotEscape(value: Json, path: Path)
    requires path != [] && ResolvePath(value, path) != Failure(DigitsUnreadable)
    ensures ResolvePath(value, path[..|path| - 1] + [MetricNameKey]) != Failure(DigitsUnreadable)
  {
    var sibling := path[..|path| - 1] + [MetricNameKey];
    if |path| == 1 {
      assert sibling == [MetricNameKey];
    } else {
      assert sibling[0] == path[0] && sibling[1..] == path[1..][..|path| - 2] + [MetricNameKey];
      if value.Object? && path[0] in value.fields {
        SiblingDoesNotEscape(value.fields[path[0]], path[1..]);
      } else if value.Array? && path[0].Index? && path[0].n < |value.items| {
        SiblingDoesNotEscape(value.items[path[0].n], path[1..]);
      }
    }
  }

  lemma MeaningDoesNotEscape(call: ToolCall, path: Path)
    requires ResolvePath(call.result.Envelope(), path) != Failure(DigitsUnreadable)
    ensures MeaningOf(call, path).Failure? ==> !Escapes(MeaningOf(call, path).error)
  {
    if path != [] {
      SiblingDoesNotEscape(call.result.Envelope(), path);
    }
  }

  /** Some prefix of the path leads to a list, and what follows it are digits that are no number. */
  lemma {:induction false} PathEscapesExactly(value: Json, path: Path)
    ensures ResolvePath(value, path) == Failure(DigitsUnreadable) <==> exists n: nat :: MeetsDigits(value, path, n)
  {
    if path != [] {
      MeetsDigitsFirst(value, path);
      if value.Object? && path[0] in value.fields {
        PathEscapesExactly(value.fields[path[0]], path[1..]);
        assert forall rest :: ([path[0]] + rest)[1..] == rest;
        MeetsDigitsLater(value, value.fields[path[0]], path);
      } else if value.Array? && path[0].Index? && path[0].n < |value.items| {
        PathEscapesExactly(value.items[path[0].n], path[1..]);
        assert forall rest :: ([path[0]] + rest)[1..] == rest;
        MeetsDigitsLater(value, value.items[path[0].n], path);
      } else {
        forall n: nat | 0 < n < |path|
          ensures ResolvePath(value, path[..n]).Failure?
        {
          assert path[..n][0] == path[0];
        }
      }
    }
  }

  predicate MeetsDigits(value: Json, path: Path, n: nat) {
    && n < |path| && path[n].UnreadableIndex?
    && ResolvePath(value, path[..n]).Success? && ResolvePath(value, path[..n]).value.Array?
  }

  lemma MeetsDigitsFirst(value: Json, path: Path)
    requires path != []
    ensures MeetsDigits(value, path, 0) <==> value.Array? && path[0].UnreadableIndex?
  {
    assert path[..0] == [];
  }

  lemma {:induction false} MeetsDigitsLater(value: Json, below: Json, path: Path)
    requires path != [] && !(value.Array? && path[0].UnreadableIndex?)
    requires forall rest :: ResolvePath(value, [path[0]] + rest) == ResolvePath(below, rest)
    ensures (exists n: nat :: MeetsDigits(value, path, n)) <==> (exists n: nat :: MeetsDigits(below, path[1..], n))
  {
    forall n: nat | n < |path| - 1
      ensures MeetsDigits(value, path, n + 1) <==> MeetsDigits(below, path[1..], n)
    {
      assert path[..n + 1] == [path[0]] + path[1..][..n];
    }
    MeetsDigitsFirst(value, path);
    if n: nat :| MeetsDigits(value, path, n) {
      assert n > 0 && MeetsDigits(below, path[1..], n - 1);
    }
    if n: nat :| MeetsDigits(below, path[1..], n) {
      assert MeetsDigits(value, path, n + 1);
    }
  }

  function Rendered(value: Json): Option<Key> {
    match value
    case Text(name) => Some(name)
    case Null => Some(OtherKey("None"))
    case Flag(b) => Some(OtherKey(if b then "True" else "False"))
    case _ => None
  }

  predicate SameValue(actual: Json, proposed: Json) {
    if actual.Number? && proposed.Number? then actual.amount == proposed.amount
    else Rendered(actual).Some? && Rendered(actual) == Rendered(proposed)
  }

  /** A timestamp, written in that offset, occurs somewhere in a result. */
  predicate Mentions(value: Json, stamp: Stamp) {
    match value
    case Moment(s) => s == stamp
    case Object(fields) => exists k :: k in fields && Mentions(fields[k], stamp)
    case Array(items) => exists i :: 0 <= i < |items| && Mentions(items[i], stamp)
    case _ => false
  }

  predicate Observed(call: ToolCall, stamp: Stamp) {
    call.result.data.Some? && Mentions(call.result.data.value, stamp)
  }

  // --- Evidence ---

  predicate Cited(item: Evidence, history: seq<ToolCall>) {
    Fetch(history, item.callIndex).Success?
  }

  function SourceOf(item: Evidence, history: seq<ToolCall>): ToolCall
    requires Cited(item, history)
  {
    Fetch(history, item.callIndex).value
  }

  /** An item of evidence agrees with what a call's result holds at its path. */
  predicate BackedBy(item: Evidence, call: ToolCall) {
    var actual := ResolvePath(call.result.Envelope(), item.path);
    var meaning := MeaningOf(call, item.path);
    && actual.Success? && meaning.Success?
    && SameValue(actual.value, item.value)
    && Accepts(meaning.value.shown, item.wording) && item.unit == meaning.value.unit
    && (item.observedAt.Some? ==> Observed(call, item.observedAt.value))
  }

  predicate Backed(item: Evidence, history: seq<ToolCall>) {
    Cited(item, history) && BackedBy(item, SourceOf(item, history))
  }

  predicate IsDecimal(value: Json) {
    value.Number? || value.SignallingNaN?
  }

  /** `==` between decimals raises on a signalling NaN. */
  predicate ComparisonEscapes(actual: Json, proposed: Json) {
    IsDecimal(actual) && IsDecimal(proposed) && (actual.SignallingNaN? || proposed.SignallingNaN?)
  }

  /** The item's path meets digits that are no number, or its value cannot be compared. */
  predicate ItemEscapes(item: Evidence, history: seq<ToolCall>) {
    && Cited(item, history)
    && var call := SourceOf(item, history);
       var actual := ResolvePath(call.result.Envelope(), item.path);
       || actual == Failure(DigitsUnreadable)
       || (actual.Success? && MeaningOf(call, item.path).Success? && ComparisonEscapes(actual.value, item.value))
  }

  predicate AllBacked(items: seq<Evidence>, n: nat, history: seq<ToolCall>)
    requires n <= |items|
  {
    forall k :: 0 <= k < n ==> Backed(items[k], history)
  }

  /** The values that the first n items allow for a number with this unit; None stands for a
      number of any unit. */
  function EvidenceValues(items: seq<Evidence>, n: nat, unit: Option<Unit>): set<real>
    requires n <= |items|
  {
    if n == 0 then {}
    else EvidenceValues(items, n - 1, unit) + ValuesOf(items[n - 1], unit)
  }

  function ValuesOf(item: Evidence, unit: Option<Unit>): set<real> {
    if item.value.Number? && (unit.None? || item.unit == unit) then {item.value.amount} else {}
  }

  function CalculationUnit(calculation: Calculation, history: seq<ToolCall>): Option<Unit> {
    if calculation.operation == PercentChange then Some(Percent)
    else
      match ReadOperand(calculation.first, history) {
        case Failure(_) => None
        case Success(reading) => reading.unit
      }
  }

  function CalculationValues(
    calculations: seq<Calculation>, n: nat, history: seq<ToolCall>, unit: Option<Unit>): set<real>
    requires n <= |calculations|
  {
    if n == 0 then {}
    else
      CalculationValues(calculations, n - 1, history, unit)
      + if unit.None? || CalculationUnit(calculations[n - 1], history) == unit then {calculations[n - 1].result} else {}
  }

  function ObservedInstants(items: seq<Evidence>, n: nat): set<int>
    requires n <= |items|
  {
    if n == 0 then {} else ObservedInstants(items, n - 1) + InstantsOf(items[n - 1])
  }

  function InstantsOf(item: Evidence): set<int> {
    if item.observedAt.Some? then {item.observedAt.value.at} else {}
  }

  /** The calls that the first n items come from. */
  function Sources(items: seq<Evidence>, n: nat, history: seq<ToolCall>): seq<ToolCall>
    requires n <= |items|
  {
    if n == 0 then [] else Sources(items, n - 1, history) + SourcesOf(items[n - 1], history)
  }

  function SourcesOf(item: Evidence, history: seq<ToolCall>): seq<ToolCall> {
    if Cited(item, history) then [SourceOf(item, history)] else []
  }

  // --- Calculations ---

  /** Rounding to two decimals, ties to even. */
  function Quantize(x: real): real {
    HalfEven(x * 100.0) as real / 100.0
  }

  function HalfEven(x: real): int {
    var low := x.Floor;
    var rest := x - low as real;
    if rest < 0.5 then low else if rest > 0.5 then low + 1 else if low % 2 == 0 then low else low + 1
  }

  /** Beyond 28 digits quantize raises. */
  const QUANTIZE_LIMIT: int := 10_000_000_000_000_000_000_000_000_000

  predicate Quantizable(x: real) {
    -QUANTIZE_LIMIT < HalfEven(x * 100.0) < QUANTIZE_LIMIT
  }

  /** Those are the values that round to fewer than 29 digits. */
  lemma QuantizableExactly(x: real)
    ensures Quantizable(x) <==>
              -99_999_999_999_999_999_999_999_999.995 < x < 99_999_999_999_999_999_999_999_999.995
  {
    var limit := 10_000_000_000_000_000_000_000_000_000;
    assert HalfEven(x * 100.0) < limit <==> x * 100.0 < limit as real - 0.5;
    assert -limit < HalfEven(x * 100.0) <==> -(limit as real) + 0.5 < x * 100.0;
  }

  datatype Reading = Reading(value: real, unit: Option<Unit>)

  function ReadOperand(operand: Operand, history: seq<ToolCall>): Result<Reading, Rule> {
    if operand.call.NoCallNumber? then Failure(OperandSyntax)
    else if operand.call.UnreadableCallNumber? then Failure(DigitsUnreadable)
    else
      match Fetch(history, operand.call.n) {
        case Failure(rule) => Failure(rule)
        case Success(call) =>
          match ResolvePath(call.result.Envelope(), operand.path) {
            case Failure(rule) => Failure(rule)
            case Success(Number(amount)) =>
              (match MeaningOf(call, operand.path)
               case Failure(rule) => Failure(rule)
               case Success(meaning) => Success(Reading(amount, meaning.unit)))
            case Success(_) => Failure(OperandNotNumeric)
          }
      }
  }

  function Formula(operation: Operation, first: real, second: real): real
    requires operation == PercentChange ==> first != 0.0
  {
    match operation
    case AbsoluteDifference => if second >= first then second - first else first - second
    case PercentChange => (second - first) / first * 100.0
  }

  predicate MakesDifference(first: real, second: real, d: real) {
    d >= 0.0 && (first + d == second || second + d == first)
  }

  predicate MakesChange(first: real, second: real, percent: real) {
    first != 0.0 && first + first * percent / 100.0 == second
  }

  /** The value rounds, to two decimals, like the distance between the two values. */
  ghost predicate IsDifference(first: real, second: real, value: real) {
    exists d: real :: MakesDifference(first, second, d) && Quantize(d) == Quantize(value)
  }

  /** The value rounds, to two decimals, like the percentage that leads from the first to the second. */
  ghost predicate IsChange(first: real, second: real, value: real) {
    exists p: real :: MakesChange(first, second, p) && Quantize(p) == Quantize(value)
  }

  ghost predicate Agrees(operation: Operation, first: real, second: real, value: real) {
    match operation
    case AbsoluteDifference => IsDifference(first, second, value)
    case PercentChange => IsChange(first, second, value)
  }

  lemma Cancel(x: real, a: real, b: real)
    requires x != 0.0 && x * a == x * b
    ensures a == b
  {
    assert x * (a - b) == 0.0;
  }

  /** The program's quotient is that percentage, and there is no other. */
  lemma ChangeIsUnique(first: real, second: real, percent: real)
    requires first != 0.0
    ensures MakesChange(first, second, percent) <==> percent == (second - first) / first * 100.0
  {
    var q := (second - first) / first;
    assert first * q == second - first;
    assert first * percent / 100.0 == first * (percent / 100.0);
    if MakesChange(first, second, percent) {
      Cancel(first, percent / 100.0, q);
    }
    if percent == q * 100.0 {
      assert percent / 100.0 == q;
    }
  }

  lemma FormulaAgrees(operation: Operation, first: real, second: real, value: real)
    requires operation == PercentChange ==> first != 0.0
    ensures Agrees(operation, first, second, value)
       <==> Quantize(Formula(operation, first, second)) == Quantize(value)
  {
    var e := Formula(operation, first, second);
    match operation
    case AbsoluteDifference =>
      assert MakesDifference(first, second, e);
      assert forall d :: MakesDifference(first, second, d) ==> d == e;
    case PercentChange =>
      ChangeIsUnique(first, second, e);
      forall p | MakesChange(first, second, p)
        ensures p == e
      {
        ChangeIsUnique(first, second, p);
      }
  }

  predicate ExpressionFits(operation: Operation, expression: Expression) {
    match operation
    case AbsoluteDifference => expression == AbsoluteDifferenceText
    case PercentChange => expression == PercentChangeText
  }

  /** A calculation reads two values of one unit from the history and states the formula of its
      operation. */
  predicate WellFormed(calculation: Calculation, history: seq<ToolCall>) {
    var first := ReadOperand(calculation.first, history);
    var second := ReadOperand(calculation.second, history);
    && first.Success? && second.Success? && first.value.unit == second.value.unit
    && ExpressionFits(calculation.operation, calculation.expression)
    && (calculation.operation == PercentChange ==> first.value.value != 0.0)
  }

  function Expected(calculation: Calculation, history: seq<ToolCall>): real
    requires WellFormed(calculation, history)
  {
    Formula(calculation.operation, ReadOperand(calculation.first, history).value.value,
            ReadOperand(calculation.second, history).value.value)
  }

  /** The stated result then agrees with the formula to two decimals. */
  predicate Reproducible(calculation: Calculation, history: seq<ToolCall>) {
    && WellFormed(calculation, history)
    && Quantizable(Expected(calculation, history)) && Quantizable(calculation.result)
    && Quantize(Expected(calculation, history)) == Quantize(calculation.result)
  }

  /** Reading the operands meets digits that are no number, or a value is too large to be rounded. */
  predicate CalculationEscapes(calculation: Calculation, history: seq<ToolCall>) {
    || ReadOperand(calculation.first, history) == Failure(DigitsUnreadable)
    || (ReadOperand(calculation.first, history).Success?
        && ReadOperand(calculation.second, history) == Failure(DigitsUnreadable))
    || (WellFormed(calculation, history)
        && !(Quantizable(Expected(calculation, history)) && Quantizable(calculation.result)))
  }

  lemma QuantizableAlike(x: real, y: real)
    requires Quantize(x) == Quantize(y)
    ensures Quantizable(x) <==> Quantizable(y)
  {
    assert Quantize(x) * 100.0 == HalfEven(x * 100.0) as real && Quantize(y) * 100.0 == HalfEven(y * 100.0) as real;
  }

  /** A calculation is accepted exactly when it reads two recorded values of one unit, writes the
      expression of its operation, and its result agrees, to two decimals, with the distance between
      the two or with the percentage that leads from the first to the second. */
  lemma ReproducibleInPlainTerms(calculation: Calculation, history: seq<ToolCall>)
    ensures var (first, second) := (ReadOperand(calculation.first, history), ReadOperand(calculation.second, history));
            Reproducible(calculation, history) <==>
              && first.Success? && second.Success? && first.value.unit == second.value.unit
              && (if calculation.operation == AbsoluteDifference then calculation.expression == AbsoluteDifferenceText
                  else calculation.expression == PercentChangeText)
              && Agrees(calculation.operation, first.value.value, second.value.value, calculation.result)
              && Quantizable(calculation.result)
  {
    if WellFormed(calculation, history) {
      var (first, second) :=
        (ReadOperand(calculation.first, history).value, ReadOperand(calculation.second, history).value);
      FormulaAgrees(calculation.operation, first.value, second.value, calculation.result);
      if Quantize(Expected(calculation, history)) == Quantize(calculation.result) {
        QuantizableAlike(Expected(calculation, history), calculation.result);
      }
    }
  }

  lemma OperandEscapes(operand: Operand, history: seq<ToolCall>)
    ensures var r := ReadOperand(operand, history); r.Failure? && Escapes(r.error) ==> r.error == DigitsUnreadable
  {
    if operand.call.CallNumber? && Fetch(history, operand.call.n).Success? {
      var call := Fetch(history, operand.call.n).value;
      if ResolvePath(call.result.Envelope(), operand.path).Success? {
        MeaningDoesNotEscape(call, operand.path);
      }
    }
  }

  method ValidateCalculation(calculation: Calculation, history: seq<ToolCall>)
    returns (result: Result<(real, Option<Unit>), Rule>)
    ensures result.Success? <==> Reproducible(calculation, history)
    ensures result.Failure? && Escapes(result.error) <==> CalculationEscapes(calculation, history)
    ensures result.Success? ==> result.value == (calculation.result, CalculationUnit(calculation, history))
    ensures result.Success? ==>
              var (first, second) :=
                (ReadOperand(calculation.first, history), ReadOperand(calculation.second, history));
              && first.Success? && second.Success?
              && Agrees(calculation.operation, first.value.value, second.value.value, calculation.result)
  {
    var readings: seq<Reading> := [];
    var operands := [calculation.first, calculation.second];
    for i := 0 to 2
      invariant |readings| == i
      invariant forall k :: 0 <= k < i ==> ReadOperand(operands[k], history) == Success(readings[k])
    {
      var reading := ReadOperand(operands[i], history);
      OperandEscapes(operands[i], history);
      if reading.Failure? {
        if i == 0 {
          assert operands[i] == calculation.first;
        } else {
          assert operands[0] == calculation.first && operands[i] == calculation.second;
        }
        return Failure(reading.error);
      }
      readings := readings + [reading.value];
    }
    assert ReadOperand(operands[0], history) == Success(readings[0]);
    assert ReadOperand(operands[1], history) == Success(readings[1]);
    if readings[0].unit != readings[1].unit {
      return Failure(OperandUnits);
    }
    var unit := readings[0].unit;
    if !ExpressionFits(calculation.operation, calculation.expression) {
      return Failure(WrongExpression);
    }
    if calculation.operation == PercentChange {
      if readings[0].value == 0.0 {
        return Failure(DivisionByZero);
      }
      unit := Some(Percent);
    }
    var expected := Formula(calculation.operation, readings[0].value, readings[1].value);
    if !Quantizable(expected) || !Quantizable(calculation.result) {
      return Failure(QuantizeOverflow);
    }
    if Quantize(expected) != Quantize(calculation.result) {
      return Failure(NotReproducible);
    }
    ReproducibleInPlainTerms(calculation, history);
    return Success((calculation.result, unit));
  }

  // --- Period ---

  predicate IsMoment(value: Json, instant: int) {
    value.Moment? && value.stamp.at == instant
  }

  predicate HasArgument(call: ToolCall, key: Key, instant: int) {
    key in call.arguments && IsMoment(call.arguments[key], instant)
  }

  predicate ContainsPeriod(call: ToolCall, start: int, end: int) {
    if call.name == LatestMeasurement && call.result.data.Some? then
      && call.result.data.value.Object? && MeasuredAtKey in call.result.data.value.fields
      && IsMoment(call.result.data.value.fields[MeasuredAtKey], start)
      && IsMoment(call.result.data.value.fields[MeasuredAtKey], end)
    else
      || (HasArgument(call, PeriodFromKey, start) && HasArgument(call, PeriodToKey, end))
      || (HasArgument(call, FirstFromKey, start) && HasArgument(call, FirstToKey, end))
      || (HasArgument(call, SecondFromKey, start) && HasArgument(call, SecondToKey, end))
  }

  predicate PeriodBacked(candidate: Candidate, calls: seq<ToolCall>) {
    || (candidate.periodFrom.None? && candidate.periodTo.None?)
    || (candidate.periodFrom.Some? && candidate.periodTo.Some?
        && exists call ::
             call in calls && ContainsPeriod(call, candidate.periodFrom.value.at, candidate.periodTo.value.at))
  }

  method ValidatePeriod(candidate: Candidate, calls: seq<ToolCall>) returns (result: Result<Option<(int, int)>, Rule>)
    ensures result.Success? <==> PeriodBacked(candidate, calls)
    ensures result.Success? ==> result.value == PeriodOf(candidate)
    ensures result.Failure? ==> !Escapes(result.error)
  {
    if candidate.periodFrom.None? && candidate.periodTo.None? {
      return Success(None);
    }
    if candidate.periodFrom.None? || candidate.periodTo.None? {
      return Failure(PeriodUnpaired);
    }
    var start, end := candidate.periodFrom.value.at, candidate.periodTo.value.at;
    for i := 0 to |calls|
      invariant forall k :: 0 <= k < i ==> !ContainsPeriod(calls[k], start, end)
    {
      if ContainsPeriod(calls[i], start, end) {
        return Success(Some((start, end)));
      }
    }
    return Failure(PeriodUnknown);
  }

  // --- The answer's text ---

  /** The month that holds a day, searching from month `index` on. */
  function MonthOf(day: int, index: int): (month: int)
    requires index >= 12 && PeriodResolving.MonthStart(index) <= day
    ensures month >= 12 && PeriodResolving.MonthStart(month) <= day < PeriodResolving.MonthStart(month + 1)
    decreases day - PeriodResolving.MonthStart(index)
  {
    if day < PeriodResolving.MonthStart(index + 1) then index else MonthOf(day, index + 1)
  }

  predicate IsClock(local: int, hour: int, minute: int, second: Option<int>) {
    var time := local % 86_400_000_000;
    && hour == time / 3_600_000_000
    && minute == time % 3_600_000_000 / 60_000_000
    && (second.Some? ==> second.value == time % 60_000_000 / 1_000_000)
  }

  /** A text is one of the renderings of an instant in one zone. */
  predicate Renders(text: DateText, instant: int, zone: int) {
    var local := instant + zone;
    match text
    case IsoText(at, offset) => at == instant - instant % 1_000_000 && offset == zone
    case DayText(day) => day == local / 86_400_000_000
    case DayAndClockText(day, hour, minute, second) => day == local / 86_400_000_000
      && IsClock(local, hour, minute, second)
    case MonthDayText(month, dayOfMonth) =>
      && local >= 0
      && var index := MonthOf(local / 86_400_000_000, 12);
         month == index % 12 + 1 && dayOfMonth == local / 86_400_000_000 - PeriodResolving.MonthStart(index) + 1
    case ClockText(hour, minute, second) => IsClock(local, hour, minute, second)
  }

  /** In UTC or in Tokyo time. */
  predicate IsVariant(text: DateText, instant: int) {
    Renders(text, instant, 0) || Renders(text, instant, TOKYO_OFFSET)
  }

  predicate IsVerified(text: DateText, instants: set<int>) {
    exists i :: i in instants && IsVariant(text, i)
  }

  /** Whether an unmasked text is found by the date pattern. */
  predicate HasDate(text: DateText) {
    text.IsoText? || text.DayText? || text.DayAndClockText?
  }

  /** The figures that the number pattern finds in an unmasked text without a date. */
  function FiguresIn(text: DateText): seq<Figure> {
    match text
    case MonthDayText(month, day) => [Figure(month as real, NoSuffix), Figure(day as real, NoSuffix)]
    case ClockText(hour, minute, second) =>
      [Figure(hour as real, NoSuffix), Figure(minute as real, NoSuffix)]
      + if second.Some? then [Figure(second.value as real, NoSuffix)] else []
    case _ => []
  }

  /** What the scanner still sees of a token once verified datetimes are masked. */
  function Visible(token: Token, instants: set<int>): seq<Figure> {
    match token
    case Words => []
    case Numeral(figure) => [figure]
    case Glued(_) => []
    case Dated(text) => if IsVerified(text, instants) then [] else FiguresIn(text)
  }

  function Scan(answer: seq<Token>, n: nat, instants: set<int>): seq<Figure>
    requires n <= |answer|
  {
    if n == 0 then [] else Scan(answer, n - 1, instants) + Visible(answer[n - 1], instants)
  }

  predicate DateVerified(token: Token, instants: set<int>) {
    token.Dated? && HasDate(token.text) ==> IsVerified(token.text, instants)
  }

  predicate DatesVerified(answer: seq<Token>, n: nat, instants: set<int>)
    requires n <= |answer|
  {
    n == 0 || (DatesVerified(answer, n - 1, instants) && DateVerified(answer[n - 1], instants))
  }

  /** The unit that the scanner recognises behind a number. The prefixes are compared with text in
      which the Celsius sign has been decomposed, so that sign is not among them. */
  function RecognisedUnit(suffix: Suffix): Option<Unit> {
    match suffix
    case NoSuffix => None
    case CelsiusSign => None
    case DegreeWord => Some(Celsius)
    case PercentSign => Some(Percent)
    case PercentWord => Some(Percent)
    case ItemsWord => Some(Items)
    case TimesWord => Some(Items)
  }

  function AllowedValues(candidate: Candidate, history: seq<ToolCall>, unit: Option<Unit>): set<real> {
    EvidenceValues(candidate.evidence, |candidate.evidence|, unit)
    + CalculationValues(candidate.calculations, |candidate.calculations|, history, unit)
  }

  function AllowedInstants(candidate: Candidate): set<int> {
    ObservedInstants(candidate.evidence, |candidate.evidence|)
    + if candidate.periodFrom.Some? && candidate.periodTo.Some?
      then {candidate.periodFrom.value.at, candidate.periodTo.value.at} else {}
  }

  method MaskVerifiedDatetimes(answer: seq<Token>, instants: set<int>) returns (result: Result<seq<Figure>, Rule>)
    ensures result.Success? <==> DatesVerified(answer, |answer|, instants)
    ensures result.Success? ==> result.value == Scan(answer, |answer|, instants)
    ensures result.Failure? ==> !Escapes(result.error)
  {
    var visible: seq<Figure> := [];
    for i := 0 to |answer|
      invariant DatesVerified(answer, i, instants)
      invariant visible == Scan(answer, i, instants)
    {
      if !DateVerified(answer[i], instants) {
        NotAllDates(answer, i, |answer|, instants);
        return Failure(UnverifiedDatetime);
      }
      visible := visible + Visible(answer[i], instants);
    }
    return Success(visible);
  }

  lemma {:induction false} NotAllDates(answer: seq<Token>, i: nat, n: nat, instants: set<int>)
    requires i < n <= |answer| && !DateVerified(answer[i], instants)
    ensures !DatesVerified(answer, n, instants)
  {
    if i < n - 1 {
      NotAllDates(answer, i, n - 1, instants);
    }
  }

  predicate FigureAllowed(figure: Figure, candidate: Candidate, history: seq<ToolCall>) {
    figure.Figure? && figure.value in AllowedValues(candidate, history, RecognisedUnit(figure.suffix))
  }

  predicate FiguresAllowed(figures: seq<Figure>, n: nat, candidate: Candidate, history: seq<ToolCall>)
    requires n <= |figures|
  {
    n == 0 || (FiguresAllowed(figures, n - 1, candidate, history) && FigureAllowed(figures[n - 1], candidate, history))
  }

  lemma {:induction false} NotAllFigures(
    figures: seq<Figure>, i: nat, n: nat, candidate: Candidate, history: seq<ToolCall>)
    requires i < n <= |figures| && !FigureAllowed(figures[i], candidate, history)
    ensures !FiguresAllowed(figures, n, candidate, history)
  {
    if i < n - 1 {
      NotAllFigures(figures, i, n - 1, candidate, history);
    }
  }

  // --- The whole check ---

  predicate StatusBacked(candidate: Candidate, calls: seq<ToolCall>) {
    exists call :: call in calls && call.result.status == candidate.status
  }

  function RelevantCalls(candidate: Candidate, history: seq<ToolCall>): seq<ToolCall> {
    var calls := Sources(candidate.evidence, |candidate.evidence|, history);
    if calls != [] then calls else history
  }

  predicate AllReproducible(calculations: seq<Calculation>, n: nat, history: seq<ToolCall>)
    requires n <= |calculations|
  {
    forall k :: 0 <= k < n ==> Reproducible(calculations[k], history)
  }

  function VisibleFigures(candidate: Candidate): seq<Figure> {
    Scan(candidate.answer, |candidate.answer|, AllowedInstants(candidate))
  }

  /** What the check demands, as one condition. */
  predicate Acceptable(candidate: Candidate, history: seq<ToolCall>) {
    && candidate.timezone == "Asia/Tokyo" && history != []
    && AllBacked(candidate.evidence, |candidate.evidence|, history)
    && StatusBacked(candidate, RelevantCalls(candidate, history))
    && AllReproducible(candidate.calculations, |candidate.calculations|, history)
    && PeriodBacked(candidate, RelevantCalls(candidate, history))
    && DatesVerified(candidate.answer, |candidate.answer|, AllowedInstants(candidate))
    && FiguresAllowed(VisibleFigures(candidate), |VisibleFigures(candidate)|, candidate, history)
  }

  // --- Where another exception ends the check ---

  ghost predicate EvidenceEscapes(items: seq<Evidence>, history: seq<ToolCall>) {
    exists i :: 0 <= i < |items| && AllBacked(items, i, history) && ItemEscapes(items[i], history)
  }

  ghost predicate CalculationsEscape(calculations: seq<Calculation>, history: seq<ToolCall>) {
    exists i :: 0 <= i < |calculations| && AllReproducible(calculations, i, history)
                && CalculationEscapes(calculations[i], history)
  }

  ghost predicate FiguresEscape(figures: seq<Figure>, candidate: Candidate, history: seq<ToolCall>) {
    exists i :: 0 <= i < |figures| && FiguresAllowed(figures, i, candidate, history) && figures[i].OutOfRange?
  }

  /** The check ends neither in a display nor in its own exception: everything before passes, and it
      reaches digits that are no number, a signalling NaN, a value too large to be rounded or a
      number whose exponent is out of range. */
  ghost predicate CheckRaises(candidate: Candidate, history: seq<ToolCall>) {
    && candidate.timezone == "Asia/Tokyo" && history != []
    && (|| EvidenceEscapes(candidate.evidence, history)
        || (AllBacked(candidate.evidence, |candidate.evidence|, history) && RaisesLater(candidate, history)))
  }

  /** The check as far as the evidence has passed. */
  ghost predicate RaisesLater(candidate: Candidate, history: seq<ToolCall>) {
    && StatusBacked(candidate, RelevantCalls(candidate, history))
    && (|| CalculationsEscape(candidate.calculations, history)
        || (&& AllReproducible(candidate.calculations, |candidate.calculations|, history)
            && RaisesInText(candidate, history)))
  }

  ghost predicate RaisesInText(candidate: Candidate, history: seq<ToolCall>) {
    && PeriodBacked(candidate, RelevantCalls(candidate, history))
    && DatesVerified(candidate.answer, |candidate.answer|, AllowedInstants(candidate))
    && FiguresEscape(VisibleFigures(candidate), candidate, history)
  }

  lemma EvidenceDecides(candidate: Candidate, history: seq<ToolCall>)
    requires candidate.timezone == "Asia/Tokyo" && history != []
    ensures !AllBacked(candidate.evidence, |candidate.evidence|, history) ==>
              (CheckRaises(candidate, history) <==> EvidenceEscapes(candidate.evidence, history))
    ensures AllBacked(candidate.evidence, |candidate.evidence|, history) ==>
              (CheckRaises(candidate, history) <==> RaisesLater(candidate, history))
  {
    if i :| 0 <= i < |candidate.evidence| && AllBacked(candidate.evidence, i, history)
            && ItemEscapes(candidate.evidence[i], history) {
      ItemDecides(candidate.evidence, i, history);
    }
  }

  lemma CalculationsDecide(candidate: Candidate, history: seq<ToolCall>)
    requires StatusBacked(candidate, RelevantCalls(candidate, history))
    ensures !AllReproducible(candidate.calculations, |candidate.calculations|, history) ==>
              (RaisesLater(candidate, history) <==> CalculationsEscape(candidate.calculations, history))
    ensures AllReproducible(candidate.calculations, |candidate.calculations|, history) ==>
              (RaisesLater(candidate, history) <==> RaisesInText(candidate, history))
  {
    if i :| 0 <= i < |candidate.calculations| && AllReproducible(candidate.calculations, i, history)
            && CalculationEscapes(candidate.calculations[i], history) {
      CalculationDecides(candidate.calculations, i, history);
    }
  }

  lemma ItemDecides(items: seq<Evidence>, i: nat, history: seq<ToolCall>)
    requires i < |items| && AllBacked(items, i, history) && !Backed(items[i], history)
    ensures !AllBacked(items, |items|, history)
    ensures EvidenceEscapes(items, history) <==> ItemEscapes(items[i], history)
  {
    if j :| 0 <= j < |items| && AllBacked(items, j, history) && ItemEscapes(items[j], history) {
      assert !Backed(items[j], history);
      assert j == i;
    }
  }

  lemma CalculationDecides(calculations: seq<Calculation>, i: nat, history: seq<ToolCall>)
    requires i < |calculations| && AllReproducible(calculations, i, history) && !Reproducible(calculations[i], history)
    ensures !AllReproducible(calculations, |calculations|, history)
    ensures CalculationsEscape(calculations, history) <==> CalculationEscapes(calculations[i], history)
  {
    if j :| 0 <= j < |calculations| && AllReproducible(calculations, j, history)
            && CalculationEscapes(calculations[j], history) {
      assert !Reproducible(calculations[j], history);
      assert j == i;
    }
  }

  lemma {:induction false} FigureDecides(figures: seq<Figure>, i: nat, candidate: Candidate, history: seq<ToolCall>)
    requires i < |figures| && FiguresAllowed(figures, i, candidate, history)
    requires !FigureAllowed(figures[i], candidate, history)
    ensures !FiguresAllowed(figures, |figures|, candidate, history)
    ensures FiguresEscape(figures, candidate, history) <==> figures[i].OutOfRange?
  {
    NotAllFigures(figures, i, |figures|, candidate, history);
    if j :| 0 <= j < |figures| && FiguresAllowed(figures, j, candidate, history) && figures[j].OutOfRange? {
      if i < j {
        NotAllFigures(figures, i, j, candidate, history);
      } else if j < i {
        NotAllFigures(figures, j, i, candidate, history);
      }
    }
  }

  lemma {:induction false} AllowedMeansNoEscape(figures: seq<Figure>, candidate: Candidate, history: seq<ToolCall>)
    requires FiguresAllowed(figures, |figures|, candidate, history)
    ensures !FiguresEscape(figures, candidate, history)
  {
    if j :| 0 <= j < |figures| && FiguresAllowed(figures, j, candidate, history) && figures[j].OutOfRange? {
      NotAllFigures(figures, j, |figures|, candidate, history);
    }
  }

  datatype Line = Line(shown: Label, value: Json, unit: Option<Unit>) | NothingFound

  datatype Display = Display(answer: seq<Token>, deviceId: string, period: Option<(int, int)>, evidence: seq<Line>)

  /** The line shown for an item: the canonical label and the unit of its path. */
  function LinesOf(item: Evidence, history: seq<ToolCall>): seq<Line> {
    if !Cited(item, history) then []
    else
      match MeaningOf(SourceOf(item, history), item.path) {
        case Failure(_) => []
        case Success(meaning) => [Line(meaning.shown, item.value, meaning.unit)]
      }
  }

  function Lines(items: seq<Evidence>, n: nat, history: seq<ToolCall>): seq<Line>
    requires n <= |items|
  {
    if n == 0 then [] else Lines(items, n - 1, history) + LinesOf(items[n - 1], history)
  }

  function Lookup(byUnit: map<Option<Unit>, set<real>>, unit: Option<Unit>): set<real> {
    if unit in byUnit then byUnit[unit] else {}
  }

  function WithValue(
    byUnit: map<Option<Unit>, set<real>>, unit: Option<Unit>, value: real): map<Option<Unit>, set<real>> {
    byUnit[unit := Lookup(byUnit, unit) + {value}]
  }

  /** The two collections of allowed values after some items and calculations. */
  ghost predicate Collected(any: set<real>, byUnit: map<Option<Unit>, set<real>>, items: seq<Evidence>, n: nat,
                            calculations: seq<Calculation>, m: nat, history: seq<ToolCall>)
    requires n <= |items| && m <= |calculations|
  {
    && any == EvidenceValues(items, n, None) + CalculationValues(calculations, m, history, None)
    && forall u: Unit ::
       Lookup(byUnit, Some(u))
         == EvidenceValues(items, n, Some(u)) + CalculationValues(calculations, m, history, Some(u))
  }

  lemma ItemCollected(
    any: set<real>, byUnit: map<Option<Unit>, set<real>>, items: seq<Evidence>, n: nat, history: seq<ToolCall>)
    requires n < |items| && Collected(any, byUnit, items, n, [], 0, history)
    ensures var item := items[n];
            if item.value.Number? then
              Collected(any + {item.value.amount}, WithValue(byUnit, item.unit, item.value.amount),
                        items, n + 1, [], 0, history)
            else Collected(any, byUnit, items, n + 1, [], 0, history)
  {
  }

  lemma CalculationCollected(any: set<real>, byUnit: map<Option<Unit>, set<real>>, items: seq<Evidence>,
                             calculations: seq<Calculation>, m: nat, history: seq<ToolCall>)
    requires m < |calculations| && Collected(any, byUnit, items, |items|, calculations, m, history)
    ensures Collected(any + {calculations[m].result},
                      WithValue(byUnit, CalculationUnit(calculations[m], history), calculations[m].result),
                      items, |items|, calculations, m + 1, history)
  {
  }

  /** What the loop over the evidence collects. */
  datatype Gathered = Gathered(
    lines: seq<Line>,
    calls: seq<ToolCall>,
    any: set<real>,
    byUnit: map<Option<Unit>, set<real>>,
    instants: set<int>)

  ghost predicate Gathers(g: Gathered, items: seq<Evidence>, n: nat, history: seq<ToolCall>)
    requires n <= |items|
  {
    && g.calls == Sources(items, n, history)
    && g.lines == Lines(items, n, history)
    && Collected(g.any, g.byUnit, items, n, [], 0, history)
    && g.instants == ObservedInstants(items, n)
  }

  function Gather(g: Gathered, item: Evidence, call: ToolCall, line: Line): Gathered {
    Gathered(
      g.lines + [line],
      g.calls + [call],
      if item.value.Number? then g.any + {item.value.amount} else g.any,
      if item.value.Number? then WithValue(g.byUnit, item.unit, item.value.amount) else g.byUnit,
      if item.observedAt.Some? then g.instants + {item.observedAt.value.at} else g.instants)
  }

  lemma GatherExtends(g: Gathered, items: seq<Evidence>, n: nat, history: seq<ToolCall>, call: ToolCall, line: Line)
    requires n < |items| && Gathers(g, items, n, history)
    requires SourcesOf(items[n], history) == [call] && LinesOf(items[n], history) == [line]
    ensures Gathers(Gather(g, items[n], call, line), items, n + 1, history)
  {
    ItemCollected(g.any, g.byUnit, items, n, history);
  }

  method CheckItem(item: Evidence, history: seq<ToolCall>) returns (result: Result<(ToolCall, Line), Rule>)
    ensures result.Success? <==> Backed(item, history)
    ensures result.Failure? && Escapes(result.error) <==> ItemEscapes(item, history)
    ensures result.Success? ==>
            SourcesOf(item, history) == [result.value.0] && LinesOf(item, history) == [result.value.1]
  {
    var fetched := Fetch(history, item.callIndex);
    if fetched.Failure? {
      return Failure(fetched.error);
    }
    var call := fetched.value;
    var actual := ResolvePath(call.result.Envelope(), item.path);
    if actual.Failure? {
      return Failure(actual.error);
    }
    var meaning := MeaningOf(call, item.path);
    if meaning.Failure? {
      MeaningDoesNotEscape(call, item.path);
      return Failure(meaning.error);
    }
    if ComparisonEscapes(actual.value, item.value) {
      return Failure(NaNCompared);
    }
    if !SameValue(actual.value, item.value) {
      return Failure(EvidenceMismatch);
    }
    if !Accepts(meaning.value.shown, item.wording) || item.unit != meaning.value.unit {
      return Failure(LabelOrUnit);
    }
    if item.observedAt.Some? && !Observed(call, item.observedAt.value) {
      return Failure(EvidenceTimestamp);
    }
    return Success((call, Line(meaning.value.shown, item.value, meaning.value.unit)));
  }

  method CheckEvidence(items: seq<Evidence>, history: seq<ToolCall>) returns (result: Result<Gathered, Rule>)
    ensures result.Success? <==> AllBacked(items, |items|, history)
    ensures result.Failure? && Escapes(result.error) <==> EvidenceEscapes(items, history)
    ensures result.Success? ==> Gathers(result.value, items, |items|, history)
  {
    var g := Gathered([], [], {}, map[], {});
    for i := 0 to |items|
      invariant AllBacked(items, i, history)
      invariant Gathers(g, items, i, history)
    {
      var item := items[i];
      var checked := CheckItem(item, history);
      if checked.Failure? {
        ItemDecides(items, i, history);
        return Failure(checked.error);
      }
      var (call, line) := checked.value;
      GatherExtends(g, items, i, history, call, line);
      g := Gather(g, item, call, line);
    }
    return Success(g);
  }

  method CheckCalculations(g: Gathered, items: seq<Evidence>, calculations: seq<Calculation>, history: seq<ToolCall>)
    returns (result: Result<(set<real>, map<Option<Unit>, set<real>>), Rule>)
    requires Collected(g.any, g.byUnit, items, |items|, calculations, 0, history)
    ensures result.Success? <==> AllReproducible(calculations, |calculations|, history)
    ensures result.Failure? && Escapes(result.error) <==> CalculationsEscape(calculations, history)
    ensures result.Success? ==>
            Collected(result.value.0, result.value.1, items, |items|, calculations, |calculations|, history)
  {
    var any, byUnit := g.any, g.byUnit;
    for i := 0 to |calculations|
      invariant AllReproducible(calculations, i, history)
      invariant Collected(any, byUnit, items, |items|, calculations, i, history)
    {
      var checked := ValidateCalculation(calculations[i], history);
      if checked.Failure? {
        CalculationDecides(calculations, i, history);
        return Failure(checked.error);
      }
      var (value, unit) := checked.value;
      CalculationCollected(any, byUnit, items, calculations, i, history);
      any := any + {value};
      byUnit := WithValue(byUnit, unit, value);
    }
    return Success((any, byUnit));
  }

  method ValidateAnswerNumbers(figures: seq<Figure>, any: set<real>, byUnit: map<Option<Unit>, set<real>>,
                               candidate: Candidate, history: seq<ToolCall>)
    returns (result: Result<(), Rule>)
    requires Collected(any, byUnit, candidate.evidence, |candidate.evidence|,
                       candidate.calculations, |candidate.calculations|, history)
    ensures result.Success? <==> FiguresAllowed(figures, |figures|, candidate, history)
    ensures result.Failure? && Escapes(result.error) <==> FiguresEscape(figures, candidate, history)
  {
    for i := 0 to |figures|
      invariant FiguresAllowed(figures, i, candidate, history)
    {
      if figures[i].OutOfRange? {
        FigureDecides(figures, i, candidate, history);
        return Failure(ExponentOutOfRange);
      }
      var unit := RecognisedUnit(figures[i].suffix);
      var allowed := if unit.Some? then Lookup(byUnit, unit) else any;
      assert allowed == AllowedValues(candidate, history, unit);
      if figures[i].value !in allowed {
        FigureDecides(figures, i, candidate, history);
        return Failure(UnverifiedNumber);
      }
    }
    AllowedMeansNoEscape(figures, candidate, history);
    return Success(());
  }

  /** The period and the text, once evidence and calculations have passed. */
  method CheckAnswer(candidate: Candidate, history: seq<ToolCall>, calls: seq<ToolCall>, observed: set<int>,
                     any: set<real>, byUnit: map<Option<Unit>, set<real>>)
    returns (result: Result<Option<(int, int)>, Rule>)
    requires calls == RelevantCalls(candidate, history)
    requires observed == ObservedInstants(candidate.evidence, |candidate.evidence|)
    requires Collected(any, byUnit, candidate.evidence, |candidate.evidence|,
                       candidate.calculations, |candidate.calculations|, history)
    ensures result.Success? <==>
              && PeriodBacked(candidate, calls)
              && DatesVerified(candidate.answer, |candidate.answer|, AllowedInstants(candidate))
              && FiguresAllowed(VisibleFigures(candidate), |VisibleFigures(candidate)|, candidate, history)
    ensures result.Success? ==> result.value == PeriodOf(candidate)
    ensures result.Failure? && Escapes(result.error) <==> RaisesInText(candidate, history)
  {
    var period := ValidatePeriod(candidate, calls);
    if period.Failure? {
      return Failure(period.error);
    }
    var instants := observed;
    if candidate.periodFrom.Some? && candidate.periodTo.Some? {
      instants := instants + {candidate.periodFrom.value.at, candidate.periodTo.value.at};
    }
    assert instants == AllowedInstants(candidate);
    var masked := MaskVerifiedDatetimes(candidate.answer, instants);
    if masked.Failure? {
      return Failure(masked.error);
    }
    var numbers := ValidateAnswerNumbers(masked.value, any, byUnit, candidate, history);
    if numbers.Failure? {
      return Failure(numbers.error);
    }
    return Success(period.value);
  }

  /** The check returns exactly for acceptable candidates; it then shows the answer unchanged, the
      candidate's period, and one canonical line for each item of evidence. It ends in another
      exception than its own exactly where `CheckRaises` says so. */
  method ValidateAndBuildDisplay(candidate: Candidate, history: seq<ToolCall>, deviceId: string)
    returns (result: Result<Display, Rule>)
    ensures result.Success? <==> Acceptable(candidate, history)
    ensures result.Failure? && Escapes(result.error) <==> CheckRaises(candidate, history)
    ensures result.Success? ==> result.value == DisplayOf(candidate, history, deviceId)
    ensures result.Success? ==>
              && result.value.answer == candidate.answer && result.value.deviceId == deviceId
              && (candidate.periodFrom.None? <==> result.value.period.None?)
              && (candidate.periodFrom.Some? ==>
                    candidate.periodTo.Some?
                    && result.value.period == Some((candidate.periodFrom.value.at, candidate.periodTo.value.at)))
  {
    if candidate.timezone != "Asia/Tokyo" || history == [] {
      return Failure(TimezoneOrHistory);
    }
    EvidenceDecides(candidate, history);
    var evidence := CheckEvidence(candidate.evidence, history);
    if evidence.Failure? {
      return Failure(evidence.error);
    }
    var g := evidence.value;
    var relevantCalls := if g.calls != [] then g.calls else history;
    assert relevantCalls == RelevantCalls(candidate, history);
    if !StatusBacked(candidate, relevantCalls) {
      return Failure(StatusNotBacked);
    }
    CalculationsDecide(candidate, history);
    var sets := CheckCalculations(g, candidate.evidence, candidate.calculations, history);
    if sets.Failure? {
      return Failure(sets.error);
    }
    var (any, byUnit) := sets.value;
    var period := CheckAnswer(candidate, history, relevantCalls, g.instants, any, byUnit);
    if period.Failure? {
      return Failure(period.error);
    }
    var rebuilt := g.lines;
    if candidate.status == NoData && rebuilt == [] {
      rebuilt := rebuilt + [NothingFound];
    }
    return Success(Display(candidate.answer, deviceId, period.value, rebuilt));
  }

  function PeriodOf(candidate: Candidate): Option<(int, int)> {
    if candidate.periodFrom.Some? && candidate.periodTo.Some?
    then Some((candidate.periodFrom.value.at, candidate.periodTo.value.at)) else None
  }

  function DisplayOf(candidate: Candidate, history: seq<ToolCall>, deviceId: string): Display {
    var lines := Lines(candidate.evidence, |candidate.evidence|, history);
    Display(
      candidate.answer,
      deviceId,
      PeriodOf(candidate),
      if candidate.status == NoData && lines == [] then [NothingFound] else lines)
  }
}
