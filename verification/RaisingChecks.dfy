/** Candidates that app/agent/validation.py neither accepts nor refuses: the check ends in an exception
    that it does not turn into its own. One example of each cause, on records as the tools leave them. */
module RaisingChecks {
  import opened Wrappers
  import opened AgentRecords
  import opened AnswerValidation
  import opened VerifiedFallback
  import opened AgentRuns
  import Alerting

  const LATEST_TEMPERATURE: Path := [DataKey, LatestKey(Alerting.Temperature)]

  const ANY_QUESTION: Question := Question(false, true, false, false, false, false)

  function CandidateWith(answer: seq<Token>, evidence: seq<Evidence>, calculations: seq<Calculation>): Candidate {
    Candidate(answer, None, None, "Asia/Tokyo", evidence, calculations, Available)
  }

  /** A latest measurement as the first record. */
  predicate IsLatest(call: ToolCall, dto: Dto) {
    Ready(call, dto) && dto.LatestDto?
  }

  // --- A result too large to be rounded ---

  function HugeDifference(): Calculation {
    var operand := Operand(CallNumber(1), LATEST_TEMPERATURE);
    Calculation(AbsoluteDifference, AbsoluteDifferenceText, 1_000_000_000_000_000_000_000_000_000_000.0,
                operand, operand)
  }

  lemma HugeIsNotQuantizable()
    ensures !Quantizable(1_000_000_000_000_000_000_000_000_000_000.0)
  {
  }

  lemma {:induction false} HugeResultRaises(call: ToolCall, dto: Dto)
    requires IsLatest(call, dto)
    ensures CheckRaises(CandidateWith([Words], [], [HugeDifference()]), [call])
  {
    var c := CandidateWith([Words], [], [HugeDifference()]);
    LatestIsTrue(call, ANY_QUESTION, dto, Alerting.Temperature);
    HugeIsNotQuantizable();
    assert WellFormed(HugeDifference(), [call]);
    assert CalculationEscapes(c.calculations[0], [call]);
    assert RelevantCalls(c, [call]) == [call] && call in [call];
  }

  // --- Digits that are no number ---

  const SUPERSCRIPT: Key := UnreadableIndex("²")

  lemma {:induction false} SuperscriptRaises(call: ToolCall, dto: Dto, value: Json)
    requires Ready(call, dto) && dto.SeriesDto?
    ensures var path := [DataKey, PointsKey, SUPERSCRIPT];
            CheckRaises(CandidateWith([Words], [Evidence("", value, None, 1, path, None)], []), [call])
  {
    var path := [DataKey, PointsKey, SUPERSCRIPT];
    var item := Evidence("", value, None, 1, path, None);
    ResolveField(Dump(dto), PointsKey, [SUPERSCRIPT]);
    assert [PointsKey] + [SUPERSCRIPT] == [PointsKey, SUPERSCRIPT];
    ResolveData(call, [PointsKey, SUPERSCRIPT]);
    assert [DataKey] + [PointsKey, SUPERSCRIPT] == path;
    assert SourceOf(item, [call]) == call;
    assert ItemEscapes([item][0], [call]);
  }

  // --- A signalling NaN ---

  lemma {:induction false} SignallingNaNRaises(call: ToolCall, dto: Dto)
    requires IsLatest(call, dto)
    ensures var item := Evidence("", SignallingNaN, None, 1, LATEST_TEMPERATURE, None);
            CheckRaises(CandidateWith([Words], [item], []), [call])
  {
    var item := Evidence("", SignallingNaN, None, 1, LATEST_TEMPERATURE, None);
    LatestIsTrue(call, ANY_QUESTION, dto, Alerting.Temperature);
    assert SourceOf(item, [call]) == call;
    assert ItemEscapes([item][0], [call]);
  }

  // --- An exponent that no decimal has ---

  lemma {:induction false} HugeExponentRaises(call: ToolCall)
    requires call.result.status == Available
    ensures CheckRaises(CandidateWith([Numeral(OutOfRange)], [], []), [call])
  {
    var c := CandidateWith([Numeral(OutOfRange)], [], []);
    assert RelevantCalls(c, [call]) == [call] && call in [call];
    assert Scan(c.answer, 0, AllowedInstants(c)) == [] && Visible(c.answer[0], AllowedInstants(c)) == [OutOfRange];
    assert VisibleFigures(c) == [OutOfRange];
    assert FiguresAllowed(VisibleFigures(c), 0, c, [call]);
    assert DatesVerified(c.answer, 0, AllowedInstants(c)) && DateVerified(c.answer[0], AllowedInstants(c));
    assert RaisesInText(c, [call]);
  }

  // --- What becomes of the run ---

  /** A question whose run answers with the huge result fails as if the backend were unavailable,
      although a record was there to print from. */
  lemma {:induction false} HugeResultFailsTheRun(call: ToolCall, dto: Dto, row: AIRequest, outcome: Outcome)
    requires IsLatest(call, dto)
    requires IsFinalRow(row, outcome, Answered(CandidateWith([Words], [], [HugeDifference()])), [call])
    ensures row.status == Failed && row.errorCode == Some(AI_UNAVAILABLE) && outcome == AgentUnavailable
  {
    HugeResultRaises(call, dto);
  }
}
