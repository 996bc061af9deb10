/** app/agent/service.py: one question from routing to its recorded outcome. The backend is an
    arbitrary sequence of tool calls that ends in a candidate or an error. */
module AgentRuns {
  import opened Wrappers
  import opened AgentRecords
  import opened Common
  import opened AgentTools
  import opened AnswerValidation
  import opened AnswerSoundness
  import opened FallbackPrinting
  import opened VerifiedFallback
  import PeriodResolving

  // --- Recorded requests ---

  datatype RequestStatus = Running | Succeeded | Failed

  datatype ErrorCode = LIMIT_EXCEEDED | AI_RESPONSE_INVALID | AI_UNAVAILABLE

  datatype AIRequest = AIRequest(
    status: RequestStatus,
    answer: Option<seq<Token>>,
    errorCode: Option<ErrorCode>,
    completed: bool,
    toolCalls: nat)
  {
    /** The constraint `status_result` of the table. */
    predicate StatusResult() {
      || (status == Running && answer.None? && errorCode.None? && !completed)
      || (status == Succeeded && answer.Some? && errorCode.None? && completed)
      || (status == Failed && answer.None? && errorCode.Some? && completed)
    }

    predicate IsTerminal() {
      status != Running
    }
  }

  class AIRequestRepository {
    var rows: seq<AIRequest>
    /** How often each row was given a terminal state. */
    ghost var terminalWrites: seq<nat>

    ghost predicate Valid()
      reads this
    {
      && |terminalWrites| == |rows|
      && forall i :: 0 <= i < |rows| ==> rows[i].StatusResult() && (rows[i].IsTerminal() <==> terminalWrites[i] > 0)
    }

    method Start() returns (id: nat)
      requires Valid()
      modifies this
      ensures Valid() && id == |old(rows)|
      ensures rows == old(rows) + [AIRequest(Running, None, None, false, 0)]
      ensures terminalWrites == old(terminalWrites) + [0]
    {
      id := |rows|;
      rows := rows + [AIRequest(Running, None, None, false, 0)];
      terminalWrites := terminalWrites + [0];
    }

    method Succeed(id: nat, answer: seq<Token>, toolCalls: nat)
      requires Valid() && id < |rows| && rows[id].status == Running
      modifies this
      ensures Valid()
      ensures rows == old(rows)[id := AIRequest(Succeeded, Some(answer), None, true, toolCalls)]
      ensures terminalWrites == old(terminalWrites)[id := old(terminalWrites)[id] + 1]
    {
      rows := rows[id :=
        rows[id].(status := Succeeded, answer := Some(answer), toolCalls := toolCalls, completed := true)];
      terminalWrites := terminalWrites[id := terminalWrites[id] + 1];
    }

    method Fail(id: nat, errorCode: ErrorCode, toolCalls: nat)
      requires Valid() && id < |rows| && rows[id].status == Running
      modifies this
      ensures Valid()
      ensures rows == old(rows)[id := AIRequest(Failed, None, Some(errorCode), true, toolCalls)]
      ensures terminalWrites == old(terminalWrites)[id := old(terminalWrites)[id] + 1]
    {
      rows := rows[id :=
        rows[id].(status := Failed, errorCode := Some(errorCode), toolCalls := toolCalls, completed := true)];
      terminalWrites := terminalWrites[id := terminalWrites[id] + 1];
    }
  }

  // --- The backend ---

  datatype Ending =
    | Answered(candidate: Candidate)
    | ConnectionError
    | ApiError(code: Option<int>)
    | TimedOut
    | TurnLimit
    | ToolLimit
    | OtherError

  /** One backend run: the tool calls that it attempts, and how it ends. */
  datatype BackendRun = BackendRun(calls: seq<(ToolRequest, QueryOutcome)>, ending: Ending) {
    predicate Fits() {
      forall i :: 0 <= i < |calls| ==> OutcomeFits(calls[i].0, calls[i].1)
    }
  }

  predicate IsTransient(ending: Ending) {
    || ending.ConnectionError?
    || (ending.ApiError? && ending.code.Some?
       && (ending.code.value == 408 || ending.code.value == 429 || 500 <= ending.code.value <= 599))
  }

  method RunBackend(run: BackendRun, tools: ReadOnlyTools) returns (ending: Ending)
    requires run.Fits() && tools.Valid()
    modifies tools
    ensures tools.Valid() && ending == run.ending
    ensures old(tools.history) <= tools.history && |tools.history| <= |old(tools.history)| + |run.calls|
  {
    for i := 0 to |run.calls|
      invariant tools.Valid() && old(tools.history) <= tools.history && |tools.history| <= |old(tools.history)| + i
    {
      var returned := tools.Call(run.calls[i].0, run.calls[i].1);
    }
    return run.ending;
  }

  /** At most two backend runs, the second only after a transient error that left no record: the
      history then holds no more records than the second run made calls. */
  method RunWithOneRetry(first: BackendRun, second: BackendRun, tools: ReadOnlyTools)
    returns (ending: Ending, backendCalls: nat)
    requires first.Fits() && second.Fits() && tools.Valid() && tools.history == []
    modifies tools
    ensures tools.Valid()
    ensures 1 <= backendCalls <= 2
    ensures backendCalls == 2 ==> ending == second.ending && |tools.history| <= |second.calls|
    ensures backendCalls == 2 ==>
              || first.ending.ConnectionError?
              || (first.ending.ApiError? && first.ending.code.Some?
                  && var code := first.ending.code.value; code == 408 || code == 429 || 500 <= code <= 599)
    ensures backendCalls == 2 ==> IsTransient(first.ending)
    ensures backendCalls == 1 ==> ending == first.ending && (IsTransient(first.ending) ==> tools.history != [])
    ensures backendCalls == 1 && tools.history == [] ==>
              && !first.ending.ConnectionError?
              && (first.ending.ApiError? && first.ending.code.Some? ==>
                    var code := first.ending.code.value; code != 408 && code != 429 && !(500 <= code <= 599))
  {
    ending := RunBackend(first, tools);
    backendCalls := 1;
    if IsTransient(ending) {
      if tools.history != [] {
        return;
      }
      ending := RunBackend(second, tools);
      backendCalls := 2;
    }
  }

  // --- One question ---

  /** A question after classification: its length, the tool it is routed to, its period words and
      the words that the printer looks for. */
  datatype Asked = Asked(length: nat, tool: Option<ToolName>, periods: PeriodResolving.Question, words: Question)

  datatype Outcome = Shown(display: Display) | LocalAnswer | AgentUnavailable | QuestionRejected | Raised

  function PeriodCount(tool: ToolName): nat {
    match tool
    case LatestMeasurement => 0
    case ComparePeriods => 2
    case _ => 1
  }

  function StampOf(instant: int): Stamp {
    Stamp(instant - TOKYO_OFFSET, TOKYO_OFFSET)
  }

  function Spans(periods: seq<PeriodResolving.Period>): (spans: seq<Span>)
    ensures |spans| == |periods|
    ensures forall i :: 0 <= i < |periods| ==> spans[i] == Span(StampOf(periods[i].start), StampOf(periods[i].end))
  {
    seq(|periods|, i requires 0 <= i < |periods| => Span(StampOf(periods[i].start), StampOf(periods[i].end)))
  }

  /** What is settled before any request is recorded: the periods, or the outcome. */
  function Settle(asked: Asked, now: PeriodResolving.DateTime): Result<seq<Span>, Outcome>
    requires now.Valid()
  {
    if !(1 <= asked.length <= 2000) then Failure(QuestionRejected)
    else if asked.tool.None? then Failure(LocalAnswer)
    else if PeriodCount(asked.tool.value) == 0 then Success([])
    else
      match PeriodResolving.Resolve(asked.periods, PeriodCount(asked.tool.value), now)
      case Unresolved => Failure(LocalAnswer)
      case Raised => Failure(Outcome.Raised)
      case Resolved(periods) => Success(Spans(periods))
  }

  function CodeOf(ending: Ending): ErrorCode {
    if ending.TimedOut? || ending.TurnLimit? || ending.ToolLimit? then LIMIT_EXCEEDED else AI_UNAVAILABLE
  }

  /** What may be shown for a finished run: the checked candidate, or the printed first record. */
  ghost predicate IsSound(display: Display, asked: Asked, ending: Ending, history: seq<ToolCall>, deviceId: string) {
    ending.Answered? && !CheckRaises(ending.candidate, history)
    && if Acceptable(ending.candidate, history) then display == DisplayOf(ending.candidate, history, deviceId)
       else history != []
            && if history[0].result.status == Available then IsAnswerFrom(display, asked.words, history[0], deviceId)
               else display == DisplayOf(PlainCandidate(history[0]), [history[0]], deviceId)
  }

  lemma FirstRecordIsComplete(tools: ReadOnlyTools)
    requires tools.Valid() && tools.history != []
    ensures IsFirstRecord(tools.history[0])
  {
    assert IsRecord(tools.history[0], tools.allowed, tools.resolved);
  }

  /** The checked candidate and the printed record are both grounded in the run's records. */
  lemma {:induction false} SoundIsGrounded(
    display: Display, asked: Asked, ending: Ending, history: seq<ToolCall>, deviceId: string)
    requires IsSound(display, asked, ending, history, deviceId)
    ensures IsGroundedAnswer(display.answer, history)
  {
    if Acceptable(ending.candidate, history) {
      AnswersAreGrounded(ending.candidate, history);
    } else if history[0].result.status == Available {
      var call := history[0];
      var dto: Dto, c: Candidate :|
        Ready(call, dto) && Answers(c, asked.words, call, dto) && display == DisplayOf(c, [call], deviceId);
      AnswerIsAcceptable(c, asked.words, call, dto);
      AnswersAreGrounded(c, [call]);
      AnswerGroundedInMore([call], history, c.answer);
    }
  }

  /** A run fails when the backend does, when the check ends in another exception than its own, or
      when it refuses the candidate and there is no record to print from. */
  ghost predicate Fails(ending: Ending, history: seq<ToolCall>) {
    || !ending.Answered?
    || CheckRaises(ending.candidate, history)
    || (history == [] && !Acceptable(ending.candidate, history))
  }

  ghost function FailureCode(ending: Ending, history: seq<ToolCall>): ErrorCode {
    if ending.TimedOut? || ending.TurnLimit? || ending.ToolLimit? then LIMIT_EXCEEDED
    else if !ending.Answered? then AI_UNAVAILABLE
    else if CheckRaises(ending.candidate, history) then AI_UNAVAILABLE
    else AI_RESPONSE_INVALID
  }

  /** The row that a finished run leaves. */
  ghost predicate IsFinalRow(row: AIRequest, outcome: Outcome, ending: Ending, history: seq<ToolCall>) {
    && row.IsTerminal() && row.StatusResult() && row.toolCalls == |history|
    && (outcome.Shown? || outcome.AgentUnavailable?)
    && (row.status == Succeeded <==> outcome.Shown?)
    && (outcome.Shown? ==> row.answer == Some(outcome.display.answer))
    && (row.status == Failed <==> Fails(ending, history))
    && (row.status == Failed ==> row.errorCode == Some(FailureCode(ending, history)))
  }

  /** What a finished run shows, or the code that it fails with. */
  ghost predicate IsVerdict(
    r: Result<Display, ErrorCode>, asked: Asked, ending: Ending, history: seq<ToolCall>, deviceId: string) {
    && (r.Failure? <==> Fails(ending, history))
    && (r.Failure? ==> r.error == FailureCode(ending, history))
    && (r.Success? ==> IsSound(r.value, asked, ending, history, deviceId))
  }

  method Judge(asked: Asked, ending: Ending, tools: ReadOnlyTools) returns (r: Result<Display, ErrorCode>)
    requires tools.Valid()
    ensures IsVerdict(r, asked, ending, tools.history, tools.deviceId)
  {
    if !ending.Answered? {
      return Failure(CodeOf(ending));
    }
    var checked := ValidateAndBuildDisplay(ending.candidate, tools.history, tools.deviceId);
    if checked.Success? {
      return Success(checked.value);
    }
    if Escapes(checked.error) {
      return Failure(AI_UNAVAILABLE);
    }
    if tools.history != [] {
      FirstRecordIsComplete(tools);
    }
    var printed := BuildVerifiedFallback(asked.words, tools.history, tools.deviceId);
    if printed.Failure? {
      return Failure(AI_RESPONSE_INVALID);
    }
    return Success(printed.value);
  }

  /** Writes the verdict into the request's row. */
  method Close(r: Result<Display, ErrorCode>, repository: AIRequestRepository, id: nat, calls: nat)
    returns (outcome: Outcome)
    requires repository.Valid() && id < |repository.rows| && repository.rows[id].status == Running
    modifies repository
    ensures repository.Valid()
    ensures repository.rows == old(repository.rows)[id := ClosedRow(r, calls)]
    ensures repository.terminalWrites == old(repository.terminalWrites)[id := old(repository.terminalWrites)[id] + 1]
    ensures outcome == match r case Success(display) => Shown(display) case Failure(_) => AgentUnavailable
  {
    match r
    case Success(display) =>
      repository.Succeed(id, display.answer, calls);
      return Shown(display);
    case Failure(code) =>
      repository.Fail(id, code, calls);
      return AgentUnavailable;
  }

  function ClosedRow(r: Result<Display, ErrorCode>, calls: nat): AIRequest {
    match r
    case Success(display) => AIRequest(Succeeded, Some(display.answer), None, true, calls)
    case Failure(code) => AIRequest(Failed, None, Some(code), true, calls)
  }

  lemma {:induction false} VerdictIsFinal(
    r: Result<Display, ErrorCode>, asked: Asked, ending: Ending, history: seq<ToolCall>, deviceId: string)
    requires IsVerdict(r, asked, ending, history, deviceId)
    ensures r.Success? ==>
              && IsFinalRow(ClosedRow(r, |history|), Shown(r.value), ending, history)
              && IsSound(r.value, asked, ending, history, deviceId)
              && IsGroundedAnswer(r.value.answer, history)
    ensures r.Failure? ==> IsFinalRow(ClosedRow(r, |history|), AgentUnavailable, ending, history)
  {
    if r.Success? {
      SoundIsGrounded(r.value, asked, ending, history, deviceId);
    }
  }

  method Finish(asked: Asked, ending: Ending, tools: ReadOnlyTools, repository: AIRequestRepository, id: nat)
    returns (outcome: Outcome)
    requires tools.Valid() && repository.Valid() && id < |repository.rows| && repository.rows[id].status == Running
    modifies repository
    ensures repository.Valid()
    ensures |repository.rows| == |old(repository.rows)|
            && repository.rows == old(repository.rows)[id := repository.rows[id]]
    ensures repository.terminalWrites == old(repository.terminalWrites)[id := old(repository.terminalWrites)[id] + 1]
    ensures IsFinalRow(repository.rows[id], outcome, ending, tools.history)
    ensures outcome.Shown? ==> IsSound(outcome.display, asked, ending, tools.history, tools.deviceId)
    ensures outcome.Shown? ==> IsGroundedAnswer(outcome.display.answer, tools.history)
  {
    var judged := Judge(asked, ending, tools);
    VerdictIsFinal(judged, asked, ending, tools.history, tools.deviceId);
    outcome := Close(judged, repository, id, |tools.history|);
  }

  /** One question. Either nothing is recorded and nothing is asked of the backend, or exactly one
      request is started and given exactly one terminal state. */
  method Run(asked: Asked, now: PeriodResolving.DateTime, deviceId: string, first: BackendRun, second: BackendRun,
             repository: AIRequestRepository)
    returns (outcome: Outcome, backendCalls: nat, tools: ReadOnlyTools?)
    requires now.Valid() && first.Fits() && second.Fits() && repository.Valid()
    modifies repository
    ensures repository.Valid()
    ensures asked.length < 1 || asked.length > 2000 ==> outcome == QuestionRejected
    ensures 1 <= asked.length <= 2000 && asked.tool.None? ==> outcome == LocalAnswer
    ensures 1 <= asked.length <= 2000 && asked.tool.Some? && !asked.tool.value.LatestMeasurement? ==>
              var resolved := PeriodResolving.Resolve(
                asked.periods, if asked.tool.value.ComparePeriods? then 2 else 1, now);
              && (resolved.Unresolved? ==> outcome == LocalAnswer)
              && (resolved.Raised? ==> outcome == Outcome.Raised)
              && (resolved.Resolved? ==> outcome.Shown? || outcome.AgentUnavailable?)
    ensures 1 <= asked.length <= 2000 && asked.tool == Some(LatestMeasurement) ==>
              outcome.Shown? || outcome.AgentUnavailable?
    ensures Settle(asked, now).Failure? ==>
              outcome == Settle(asked, now).error && backendCalls == 0 && tools == null
              && repository.rows == old(repository.rows) && repository.terminalWrites == old(repository.terminalWrites)
    ensures Settle(asked, now).Success? ==>
              && tools != null && fresh(tools) && tools.Valid() && tools.maxCalls == 5 && tools.deviceId == deviceId
              && tools.allowed == {asked.tool.value} && tools.resolved == Settle(asked, now).value
              && 1 <= backendCalls <= 2
              && (backendCalls == 2 ==> IsTransient(first.ending) && |tools.history| <= |second.calls|)
              && (backendCalls == 1 && IsTransient(first.ending) ==> tools.history != [])
              && |repository.rows| == |old(repository.rows)| + 1
                 && repository.rows[..|old(repository.rows)|] == old(repository.rows)
              && repository.terminalWrites == old(repository.terminalWrites) + [1]
              && var ending := if backendCalls == 2 then second.ending else first.ending;
                 IsFinalRow(repository.rows[|old(repository.rows)|], outcome, ending, tools.history)
                 && (outcome.Shown? ==> IsSound(outcome.display, asked, ending, tools.history, deviceId))
                 && (outcome.Shown? ==> IsGroundedAnswer(outcome.display.answer, tools.history))
  {
    backendCalls, tools := 0, null;
    var settled := Settle(asked, now);
    if settled.Failure? {
      return settled.error, 0, null;
    }
    var id := repository.Start();
    tools := new ReadOnlyTools(deviceId, 5, {asked.tool.value}, settled.value);
    var ending: Ending;
    ending, backendCalls := RunWithOneRetry(first, second, tools);
    outcome := Finish(asked, ending, tools, repository, id);
  }

  // --- What a run implies ---

  /** Whatever the backend does, each record of a run is of the routed tool and of exactly the
      resolved periods, and the query service accepts those periods. */
  lemma {:induction false} RecordsAreOfTheQuestion(
    asked: Asked, now: PeriodResolving.DateTime, tools: ReadOnlyTools, i: nat)
    requires now.Valid() && Settle(asked, now).Success? && tools.Valid()
    requires tools.allowed == {asked.tool.value} && tools.resolved == Settle(asked, now).value && i < |tools.history|
    ensures tools.history[i].index == i + 1 && tools.history[i].name == asked.tool.value
    ensures UsesResolved(tools.history[i], tools.resolved)
    ensures |tools.resolved|
         == if asked.tool.value.LatestMeasurement? then 0 else if asked.tool.value.ComparePeriods? then 2 else 1
    ensures forall k :: 0 <= k < |tools.resolved| ==>
              0 < tools.resolved[k].end.at - tools.resolved[k].start.at <= 90 * DAY
    ensures !asked.tool.value.LatestMeasurement? ==>
              var r := PeriodResolving.Resolve(
                asked.periods, if asked.tool.value.ComparePeriods? then 2 else 1, now);
              && r.Resolved? && |r.periods| == |tools.resolved|
              && forall k :: 0 <= k < |r.periods| ==>
                   && tools.resolved[k].start == Stamp(r.periods[k].start - 32_400_000_000, 32_400_000_000)
                   && tools.resolved[k].end == Stamp(r.periods[k].end - 32_400_000_000, 32_400_000_000)
  {
    assert IsRecord(tools.history[i], tools.allowed, tools.resolved);
    var count := PeriodCount(asked.tool.value);
    if count > 0 {
      PeriodResolving.ReturnedPeriodsAreAccepted(asked.periods, count, now);
      var periods := PeriodResolving.Resolve(asked.periods, count, now).periods;
      forall k | 0 <= k < |tools.resolved|
        ensures 0 < tools.resolved[k].end.at - tools.resolved[k].start.at <= 90 * DAY
      {
        assert periods[k] in periods;
      }
    }
  }
}
