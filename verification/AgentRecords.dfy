/** app/agent/schemas.py and app/schemas/query.py: tool results, the history of tool calls, and
    the candidate answers that are checked against it.

    A JSON string that reads as a decimal is a `Number`, one that reads as a datetime a `Moment`,
    and a name that the code looks at is a key of its own. An answer is a sequence of tokens. */
module AgentRecords {
  import opened Wrappers
  import Alerting

  type Metric = Alerting.Metric

  datatype DataStatus = Available | NoData | Unavailable

  datatype Unit = Celsius | Percent | Items | OtherUnit(text: string)

  datatype Statistic = Minimum | Maximum | Average | Count

  datatype AlertField = Threshold | Trigger | Hysteresis

  /** An object key or one component of a source path. `Index` is a string of digits; a string of
      digits that cannot be read as a number, such as a superscript or one of more than 4300
      digits, is an `UnreadableIndex`. */
  datatype Key =
    | DataKey | StatusKey | ErrorCodeKey | RetryableKey
    | LatestKey(metric: Metric) | MetricKey(metric: Metric) | StatisticKey(statistic: Statistic)
    | DifferenceKey(metric: Metric) | TotalCountKey
    | AlertFieldKey(field: AlertField) | MetricNameKey
    | FirstKey | SecondKey | PointsKey | AlertsKey
    | MeasuredAtKey | ReceivedAtKey | BucketFromKey | BucketToKey
    | PeriodFromKey | PeriodToKey | FirstFromKey | FirstToKey | SecondFromKey | SecondToKey
    | DeviceIdKey | Index(n: nat) | UnreadableIndex(text: string) | OtherKey(text: string)

  type Path = seq<Key>

  /** An aware datetime: its instant, in microseconds from 0001-01-01 00:00 UTC, and the offset
      in which it is written. */
  datatype Stamp = Stamp(at: int, offset: int)

  /** A text that reads as a signalling NaN is one only in a candidate: no tool returns it. */
  datatype Json =
    | Null
    | Flag(value: bool)
    | Number(amount: real)
    | SignallingNaN
    | Text(name: Key)
    | Moment(stamp: Stamp)
    | Object(fields: map<Key, Json>)
    | Array(items: seq<Json>)

  // --- Tool calls ---

  datatype ToolName = LatestMeasurement | MeasurementStatistics | MeasurementSeries | ComparePeriods | AlertHistory

  datatype ToolErrorCode = InvalidInput | DataUnavailable

  datatype ToolResult = ToolResult(status: DataStatus, data: Option<Json>, errorCode: Option<ToolErrorCode>,
    retryable: bool) {
    /** The envelope that source paths start from. */
    function Envelope(): Json {
      Object(map[
        StatusKey := Text(OtherKey("status")),
        DataKey := if data.None? then Null else data.value,
        ErrorCodeKey := if errorCode.None? then Null else Text(OtherKey("error")),
        RetryableKey := Flag(retryable)])
    }
  }

  datatype ToolCall = ToolCall(index: int, name: ToolName, arguments: map<Key, Json>, result: ToolResult)

  // --- Candidates ---

  /** What a value means on display. */
  datatype Label =
    | LatestLabel(metric: Metric)
    | StatisticLabel(metric: Metric, statistic: Statistic)
    | DifferenceLabel(metric: Metric)
    | AlertTotalLabel
    | AlertValueLabel(measured: Option<Metric>, field: AlertField)

  datatype Evidence = Evidence(
    wording: string,
    value: Json,
    unit: Option<Unit>,
    callIndex: nat,
    path: Path,
    observedAt: Option<Stamp>)

  datatype Operation = AbsoluteDifference | PercentChange

  datatype Expression = AbsoluteDifferenceText | PercentChangeText | OtherExpression(text: string)

  /** What stands before the colon of an operand: no string of digits, one that cannot be read as a
      number, or a number. */
  datatype CallText = NoCallNumber | UnreadableCallNumber | CallNumber(n: nat)

  /** An operand, written as a call number, a colon and a path. */
  datatype Operand = Operand(call: CallText, path: Path)

  datatype Calculation = Calculation(operation: Operation, expression: Expression, result: real, first: Operand,
    second: Operand)

  /** What stands behind a number in the answer. */
  datatype Suffix = NoSuffix | CelsiusSign | DegreeWord | PercentSign | PercentWord | ItemsWord | TimesWord

  /** A date or a time of day as text. Days are counted from 0001-01-01. */
  datatype DateText =
    | IsoText(at: int, offset: int)
    | DayText(day: int)
    | DayAndClockText(day: int, hour: int, minute: int, second: Option<int>)
    | MonthDayText(month: int, dayOfMonth: int)
    | ClockText(hour: int, minute: int, second: Option<int>)

  /** A number in the answer with what stands behind it, or one whose exponent no decimal can have. */
  datatype Figure = Figure(value: real, suffix: Suffix) | OutOfRange

  /** Words carry no digits. `Glued` is a whole number that touches a Latin letter, as in 28C. */
  datatype Token = Words | Numeral(figure: Figure) | Glued(whole: nat) | Dated(text: DateText)

  datatype Candidate = Candidate(
    answer: seq<Token>,
    periodFrom: Option<Stamp>,
    periodTo: Option<Stamp>,
    timezone: string,
    evidence: seq<Evidence>,
    calculations: seq<Calculation>,
    status: DataStatus)
}
