/** app/agent/tools.py: the query tools of one question, with their bounded, numbered history. */
module AgentTools {
  import opened Wrappers
  import opened AgentRecords
  import opened VerifiedFallback

  datatype Span = Span(start: Stamp, end: Stamp)

  /** A call that the model makes, with the arguments it supplies. */
  datatype ToolRequest =
    | AskLatest(device: string)
    | AskStatistics(device: string, span: Span)
    | AskSeries(device: string, span: Span)
    | AskComparison(device: string, first: Span, second: Span)
    | AskAlerts(device: string, span: Span)

  /** What the query service does with a call: it returns a result of the tool's type, rejects
      the conditions, or fails on the database or otherwise. */
  datatype QueryOutcome = Returned(status: DataStatus, dto: Dto) | Rejected | DatabaseFailed | OtherwiseFailed

  datatype ToolFailure = MissingPeriod | NotAllowed | LimitExceeded | QueryFailed

  function NameOf(request: ToolRequest): ToolName {
    match request
    case AskLatest(_) => LatestMeasurement
    case AskStatistics(_, _) => MeasurementStatistics
    case AskSeries(_, _) => MeasurementSeries
    case AskComparison(_, _, _) => ComparePeriods
    case AskAlerts(_, _) => AlertHistory
  }

  /** The result types and the completeness that the query service guarantees. */
  predicate OutcomeFits(request: ToolRequest, outcome: QueryOutcome) {
    outcome.Returned? ==> Fits(NameOf(request), outcome.dto) && (outcome.status == Available ==> Complete(outcome.dto))
  }

  /** A resolved period replaces what the model supplied. */
  function ForcedPeriod(resolved: seq<Span>, index: nat, supplied: Span): Result<Span, ToolFailure> {
    if resolved == [] then Success(supplied)
    else if index < |resolved| then Success(resolved[index])
    else Failure(MissingPeriod)
  }

  function PeriodArguments(device: Key, fromKey: Key, toKey: Key, span: Span): map<Key, Json> {
    map[DeviceIdKey := Text(device), fromKey := Moment(span.start), toKey := Moment(span.end)]
  }

  function Arguments(request: ToolRequest, resolved: seq<Span>): Result<map<Key, Json>, ToolFailure> {
    match request
    case AskLatest(device) => Success(map[DeviceIdKey := Text(OtherKey(device))])
    case AskComparison(device, first, second) =>
      (match (ForcedPeriod(resolved, 0, first), ForcedPeriod(resolved, 1, second))
       case (Success(a), Success(b)) =>
         Success(map[
           DeviceIdKey := Text(OtherKey(device)),
           FirstFromKey := Moment(a.start), FirstToKey := Moment(a.end),
           SecondFromKey := Moment(b.start), SecondToKey := Moment(b.end)])
       case _ => Failure(MissingPeriod))
    case _ =>
      match ForcedPeriod(resolved, 0, request.span)
      case Success(a) => Success(PeriodArguments(OtherKey(request.device), PeriodFromKey, PeriodToKey, a))
      case Failure(e) => Failure(e)
  }

  predicate HasSpan(call: ToolCall, fromKey: Key, toKey: Key, span: Span) {
    && fromKey in call.arguments && call.arguments[fromKey] == Moment(span.start)
    && toKey in call.arguments && call.arguments[toKey] == Moment(span.end)
  }

  /** A record was made for exactly the resolved periods. */
  predicate UsesResolved(call: ToolCall, resolved: seq<Span>) {
    if resolved == [] || call.name == LatestMeasurement then true
    else if call.name == ComparePeriods then
      && |resolved| >= 2
      && HasSpan(call, FirstFromKey, FirstToKey, resolved[0]) && HasSpan(call, SecondFromKey, SecondToKey, resolved[1])
    else HasSpan(call, PeriodFromKey, PeriodToKey, resolved[0])
  }

  /** A record as the tools make it: a refusal without data, or what the service returned. */
  ghost predicate IsRecord(call: ToolCall, allowed: set<ToolName>, resolved: seq<Span>) {
    && call.name in allowed && ArgumentsFit(call) && UsesResolved(call, resolved)
    && ((call.result.data.None? && call.result.status == Unavailable) || exists dto :: Describes(call, dto))
  }

  lemma ArgumentsAreForced(request: ToolRequest, resolved: seq<Span>, call: ToolCall)
    requires call.name == NameOf(request) && Arguments(request, resolved) == Success(call.arguments)
    ensures ArgumentsFit(call) && UsesResolved(call, resolved)
  {
  }

  lemma ResultIsRecord(
    request: ToolRequest, outcome: QueryOutcome, allowed: set<ToolName>, resolved: seq<Span>, call: ToolCall)
    requires OutcomeFits(request, outcome) && NameOf(request) in allowed
    requires call.name == NameOf(request) && Arguments(request, resolved) == Success(call.arguments)
    requires || (call.result.data.None? && call.result.status == Unavailable)
             || (outcome.Returned? && call.result == ToolResult(outcome.status, Some(Dump(outcome.dto)), None, false))
    ensures IsRecord(call, allowed, resolved)
  {
    ArgumentsAreForced(request, resolved, call);
    if call.result.data.Some? {
      assert Describes(call, outcome.dto);
    }
  }

  class ReadOnlyTools {
    const deviceId: string
    const maxCalls: nat
    const allowed: set<ToolName>
    const resolved: seq<Span>
    var history: seq<ToolCall>

    constructor (deviceId: string, maxCalls: nat, allowed: set<ToolName>, resolved: seq<Span>)
      ensures this.deviceId == deviceId && this.maxCalls == maxCalls && this.allowed == allowed
              && this.resolved == resolved
      ensures history == [] && Valid()
    {
      this.deviceId, this.maxCalls, this.allowed, this.resolved := deviceId, maxCalls, allowed, resolved;
      history := [];
    }

    /** The tool of the request is among the allowed ones. */
    predicate IsAllowed(request: ToolRequest) {
      || (request.AskLatest? && LatestMeasurement in allowed)
      || (request.AskStatistics? && MeasurementStatistics in allowed)
      || (request.AskSeries? && MeasurementSeries in allowed)
      || (request.AskComparison? && ComparePeriods in allowed)
      || (request.AskAlerts? && AlertHistory in allowed)
    }

    /** The history is numbered from one, within the limit, of allowed tools and resolved periods. */
    ghost predicate Valid()
      reads this
    {
      && |history| <= maxCalls
      && forall i :: 0 <= i < |history| ==> history[i].index == i + 1 && IsRecord(history[i], allowed, resolved)
    }

    method Record(name: ToolName, arguments: map<Key, Json>, result: ToolResult)
      requires Valid() && |history| < maxCalls
      requires IsRecord(ToolCall(|history| + 1, name, arguments, result), allowed, resolved)
      modifies this
      ensures Valid() && history == old(history) + [ToolCall(|old(history)| + 1, name, arguments, result)]
    {
      history := history + [ToolCall(|history| + 1, name, arguments, result)];
    }

    /** What becomes of the query service's outcome, which is asked for the configured device only. */
    method Answer(request: ToolRequest, outcome: QueryOutcome) returns (r: Result<ToolResult, ToolFailure>)
      ensures r.Failure? <==> request.device == deviceId && outcome.OtherwiseFailed?
      ensures r.Failure? ==> r.error == QueryFailed
      ensures request.device != deviceId || outcome.Rejected? ==>
                r == Success(ToolResult(Unavailable, None, Some(InvalidInput), false))
      ensures request.device == deviceId && outcome.DatabaseFailed? ==>
                r == Success(ToolResult(Unavailable, None, Some(DataUnavailable), true))
      ensures request.device == deviceId && outcome.Returned? ==>
                r == Success(ToolResult(outcome.status, Some(Dump(outcome.dto)), None, false))
    {
      if request.device != deviceId {
        return Success(ToolResult(Unavailable, None, Some(InvalidInput), false));
      }
      match outcome {
        case Returned(status, dto) => return Success(ToolResult(status, Some(Dump(dto)), None, false));
        case Rejected => return Success(ToolResult(Unavailable, None, Some(InvalidInput), false));
        case DatabaseFailed => return Success(ToolResult(Unavailable, None, Some(DataUnavailable), true));
        case OtherwiseFailed => return Failure(QueryFailed);
      }
    }

    /** One tool call. It is recorded exactly when it returns, and then with the result it returns;
        a call that is not allowed or beyond the limit leaves no record. */
    method Call(request: ToolRequest, outcome: QueryOutcome) returns (r: Result<ToolResult, ToolFailure>)
      requires Valid() && OutcomeFits(request, outcome)
      modifies this
      ensures Valid()
      ensures r.Failure? ==> history == old(history)
      ensures r.Success? ==>
                && |history| == |old(history)| + 1 && history[..|old(history)|] == old(history)
                && var last := history[|old(history)|];
                   last.name == NameOf(request) && last.result == r.value
                     && Success(last.arguments) == Arguments(request, resolved)
      ensures var missing := request.AskComparison? && |resolved| == 1;
              && (r == Failure(MissingPeriod) <==> missing)
              && (r == Failure(NotAllowed) <==> !missing && !IsAllowed(request))
              && (r == Failure(LimitExceeded) <==> !missing && IsAllowed(request) && |old(history)| == maxCalls)
              && (r == Failure(QueryFailed) <==>
                    && !missing && IsAllowed(request) && |old(history)| < maxCalls
                    && request.device == deviceId && outcome.OtherwiseFailed?)
      ensures r.Success? && request.device != deviceId ==>
              r.value == ToolResult(Unavailable, None, Some(InvalidInput), false)
      ensures r.Success? && request.device == deviceId && outcome.Rejected? ==>
                r.value == ToolResult(Unavailable, None, Some(InvalidInput), false)
      ensures r.Success? && request.device == deviceId && outcome.DatabaseFailed? ==>
                r.value == ToolResult(Unavailable, None, Some(DataUnavailable), true)
      ensures r.Success? && request.device == deviceId && outcome.Returned? ==>
                r.value == ToolResult(outcome.status, Some(Dump(outcome.dto)), None, false)
    {
      var name := NameOf(request);
      var arguments := Arguments(request, resolved);
      if arguments.Failure? {
        return Failure(arguments.error);
      }
      if name !in allowed {
        return Failure(NotAllowed);
      }
      if |history| >= maxCalls {
        return Failure(LimitExceeded);
      }
      var answered := Answer(request, outcome);
      if answered.Failure? {
        return answered;
      }
      var result := answered.value;
      ResultIsRecord(request, outcome, allowed, resolved, ToolCall(|history| + 1, name, arguments.value, result));
      Record(name, arguments.value, result);
      return Success(result);
    }
  }
}
