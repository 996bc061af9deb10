/** What an accepted answer is worth: every number, unit and date that it shows comes from the
    history of tool calls. */
module AnswerSoundness {
  import opened Wrappers
  import opened AgentRecords
  import opened AnswerValidation
  import opened Labels
  import Alerting

  // --- What the history supports, stated without the candidate ---

  predicate ReadsAt(call: ToolCall, path: Path, value: real, unit: Option<Unit>) {
    && ResolvePath(call.result.Envelope(), path) == Success(Number(value))
    && MeaningOf(call, path).Success? && MeaningOf(call, path).value.unit == unit
  }

  /** A recorded result holds this value at a displayable path of this unit. */
  ghost predicate Holds(history: seq<ToolCall>, value: real, unit: Option<Unit>) {
    exists call, path: Path :: call in history && ReadsAt(call, path, value, unit)
  }

  function Distance(x: real, y: real): real {
    if x >= y then x - y else y - x
  }

  ghost predicate Follows(
    history: seq<ToolCall>, operation: Operation, first: real, second: real, unit: Option<Unit>, value: real) {
    && Holds(history, first, unit) && Holds(history, second, unit)
    && Agrees(operation, first, second, value)
  }

  function ResultUnit(operation: Operation, unit: Option<Unit>): Option<Unit> {
    if operation == PercentChange then Some(Percent) else unit
  }

  /** A value that agrees, to two decimals, with an allowed formula over two recorded values of
      one unit. */
  ghost predicate Computed(history: seq<ToolCall>, value: real, wanted: Option<Unit>) {
    exists operation, first, second, unit ::
      Follows(history, operation, first, second, unit, value)
        && (wanted.Some? ==> ResultUnit(operation, unit) == wanted)
  }

  /** A value is recorded, or computed from recorded values; when a unit is wanted, in that unit. */
  ghost predicate Grounded(history: seq<ToolCall>, value: real, wanted: Option<Unit>) {
    || (exists unit :: Holds(history, value, unit) && (wanted.Some? ==> unit == wanted))
    || Computed(history, value, wanted)
  }

  // --- Rounding ---

  lemma QuantizeIsNear(x: real)
    ensures Distance(Quantize(x), x) <= 0.005
  {
    var scaled := x * 100.0;
    HalfEvenIsNear(scaled);
    assert Quantize(x) * 100.0 == HalfEven(scaled) as real;
  }

  /** The nearest integer; of two equally near ones the even one. */
  lemma HalfEvenIsNear(x: real)
    ensures Distance(HalfEven(x) as real, x) <= 0.5
    ensures Distance(HalfEven(x) as real, x) == 0.5 ==> HalfEven(x) % 2 == 0
  {
  }

  lemma EqualQuantaAreNear(x: real, y: real)
    requires Quantize(x) == Quantize(y)
    ensures Distance(x, y) <= 0.01
  {
    QuantizeIsNear(x);
    QuantizeIsNear(y);
  }

  // --- Numbers ---

  lemma FetchedIsRecorded(history: seq<ToolCall>, index: nat)
    ensures Fetch(history, index).Success? ==>
            Fetch(history, index).value in history && Fetch(history, index).value.index == index
  {
  }

  lemma {:induction false} EvidenceValueHasItem(items: seq<Evidence>, n: nat, unit: Option<Unit>, value: real)
    requires n <= |items| && value in EvidenceValues(items, n, unit)
    ensures exists k :: 0 <= k < n && items[k].value == Number(value) && (unit.None? || items[k].unit == unit)
  {
    if value !in ValuesOf(items[n - 1], unit) {
      EvidenceValueHasItem(items, n - 1, unit, value);
    }
  }

  lemma BackedIsHeld(item: Evidence, history: seq<ToolCall>, value: real)
    requires Backed(item, history) && item.value == Number(value)
    ensures Holds(history, value, item.unit)
  {
    FetchedIsRecorded(history, item.callIndex);
    assert ReadsAt(SourceOf(item, history), item.path, value, item.unit);
  }

  lemma {:induction false} CalculationValueHasItem(
    calculations: seq<Calculation>, n: nat, history: seq<ToolCall>, unit: Option<Unit>, value: real)
    requires n <= |calculations| && value in CalculationValues(calculations, n, history, unit)
    ensures exists k ::
              && 0 <= k < n && calculations[k].result == value
              && (unit.None? || CalculationUnit(calculations[k], history) == unit)
  {
    if !(calculations[n - 1].result == value && (unit.None? || CalculationUnit(calculations[n - 1], history) == unit)) {
      CalculationValueHasItem(calculations, n - 1, history, unit, value);
    }
  }

  lemma OperandIsHeld(operand: Operand, history: seq<ToolCall>)
    ensures ReadOperand(operand, history).Success? ==>
              Holds(history, ReadOperand(operand, history).value.value, ReadOperand(operand, history).value.unit)
  {
    var reading := ReadOperand(operand, history);
    if reading.Success? {
      FetchedIsRecorded(history, operand.call.n);
      var call := Fetch(history, operand.call.n).value;
      assert ReadsAt(call, operand.path, reading.value.value, reading.value.unit);
    }
  }

  lemma ReproducibleIsComputed(calculation: Calculation, history: seq<ToolCall>, wanted: Option<Unit>)
    requires Reproducible(calculation, history)
    requires wanted.None? || CalculationUnit(calculation, history) == wanted
    ensures Computed(history, calculation.result, wanted)
  {
    OperandIsHeld(calculation.first, history);
    OperandIsHeld(calculation.second, history);
    var first := ReadOperand(calculation.first, history).value;
    var second := ReadOperand(calculation.second, history).value;
    ReproducibleInPlainTerms(calculation, history);
    assert Follows(history, calculation.operation, first.value, second.value, first.unit, calculation.result);
  }

  /** The main soundness result: every number that the scanner finds in an accepted answer is a
      recorded value or a correct calculation on recorded values, and a number with a recognised
      unit is of that unit. */
  lemma {:induction false} NumbersAreGrounded(candidate: Candidate, history: seq<ToolCall>)
    ensures Acceptable(candidate, history) ==>
              forall figure :: figure in VisibleFigures(candidate) ==>
                figure.Figure? && Grounded(history, figure.value, RecognisedUnit(figure.suffix))
  {
    if Acceptable(candidate, history) {
      forall figure | figure in VisibleFigures(candidate)
        ensures figure.Figure? && Grounded(history, figure.value, RecognisedUnit(figure.suffix))
      {
        NumberIsGrounded(candidate, history, figure);
      }
    }
  }

  lemma {:induction false} NumberIsGrounded(candidate: Candidate, history: seq<ToolCall>, figure: Figure)
    requires Acceptable(candidate, history) && figure in VisibleFigures(candidate)
    ensures figure.Figure? && Grounded(history, figure.value, RecognisedUnit(figure.suffix))
  {
    var figures := VisibleFigures(candidate);
    var i :| 0 <= i < |figures| && figures[i] == figure;
    AllowedEach(figures, i, |figures|, candidate, history);
    var wanted := RecognisedUnit(figure.suffix);
    if figure.value in EvidenceValues(candidate.evidence, |candidate.evidence|, wanted) {
      EvidenceValueHasItem(candidate.evidence, |candidate.evidence|, wanted, figure.value);
      var k :| 0 <= k < |candidate.evidence| && candidate.evidence[k].value == Number(figure.value)
               && (wanted.None? || candidate.evidence[k].unit == wanted);
      BackedIsHeld(candidate.evidence[k], history, figure.value);
    } else {
      CalculationValueHasItem(candidate.calculations, |candidate.calculations|, history, wanted, figure.value);
      var k :| 0 <= k < |candidate.calculations| && candidate.calculations[k].result == figure.value
               && (wanted.None? || CalculationUnit(candidate.calculations[k], history) == wanted);
      ReproducibleIsComputed(candidate.calculations[k], history, wanted);
    }
  }

  lemma {:induction false} AllowedEach(
    figures: seq<Figure>, i: nat, n: nat, candidate: Candidate, history: seq<ToolCall>)
    requires i < n <= |figures| && FiguresAllowed(figures, n, candidate, history)
    ensures FigureAllowed(figures[i], candidate, history)
  {
    if i < n - 1 {
      AllowedEach(figures, i, n - 1, candidate, history);
    }
  }

  // --- Dates ---

  ghost predicate IsRecordedInstant(history: seq<ToolCall>, instant: int) {
    || (exists call, stamp: Stamp :: call in history && Observed(call, stamp) && stamp.at == instant)
    || (exists call, start, end ::
          call in history && ContainsPeriod(call, start, end) && (instant == start || instant == end))
  }

  lemma {:induction false} ObservedHasItem(items: seq<Evidence>, n: nat, instant: int)
    requires n <= |items| && instant in ObservedInstants(items, n)
    ensures exists k :: 0 <= k < n && items[k].observedAt.Some? && items[k].observedAt.value.at == instant
  {
    if instant !in InstantsOf(items[n - 1]) {
      ObservedHasItem(items, n - 1, instant);
    }
  }

  lemma {:induction false} SourcesAreRecorded(items: seq<Evidence>, n: nat, history: seq<ToolCall>)
    requires n <= |items|
    ensures forall call :: call in Sources(items, n, history) ==> call in history
  {
    if n > 0 {
      SourcesAreRecorded(items, n - 1, history);
      FetchedIsRecorded(history, items[n - 1].callIndex);
    }
  }

  lemma {:induction false} AllowedInstantIsRecorded(candidate: Candidate, history: seq<ToolCall>, instant: int)
    requires Acceptable(candidate, history) && instant in AllowedInstants(candidate)
    ensures IsRecordedInstant(history, instant)
  {
    if instant in ObservedInstants(candidate.evidence, |candidate.evidence|) {
      ObservedHasItem(candidate.evidence, |candidate.evidence|, instant);
      var k :| 0 <= k < |candidate.evidence| && candidate.evidence[k].observedAt.Some?
        && candidate.evidence[k].observedAt.value.at == instant;
      var item := candidate.evidence[k];
      assert Backed(item, history);
      FetchedIsRecorded(history, item.callIndex);
      assert Observed(SourceOf(item, history), item.observedAt.value);
    } else {
      SourcesAreRecorded(candidate.evidence, |candidate.evidence|, history);
      var start, end := candidate.periodFrom.value.at, candidate.periodTo.value.at;
      var call :| call in RelevantCalls(candidate, history) && ContainsPeriod(call, start, end);
      assert call in history;
    }
  }

  /** Every date in an accepted answer renders, in UTC or Tokyo time, an instant that a tool
      returned or an end of a period that a tool was asked for. */
  lemma {:induction false} DatesAreGrounded(candidate: Candidate, history: seq<ToolCall>)
    ensures Acceptable(candidate, history) ==>
              forall token :: token in candidate.answer && token.Dated? && HasDate(token.text) ==>
                IsGroundedDate(token.text, history)
  {
    if Acceptable(candidate, history) {
      forall token | token in candidate.answer && token.Dated? && HasDate(token.text)
        ensures IsGroundedDate(token.text, history)
      {
        var i :| 0 <= i < |candidate.answer| && candidate.answer[i] == token;
        DateIsGrounded(candidate, history, i);
      }
    }
  }

  ghost predicate IsGroundedDate(text: DateText, history: seq<ToolCall>) {
    exists instant :: IsVariant(text, instant) && IsRecordedInstant(history, instant)
  }

  lemma {:induction false} DateIsGrounded(candidate: Candidate, history: seq<ToolCall>, i: nat)
    requires Acceptable(candidate, history) && i < |candidate.answer|
    requires candidate.answer[i].Dated? && HasDate(candidate.answer[i].text)
    ensures IsGroundedDate(candidate.answer[i].text, history)
  {
    VerifiedEach(candidate.answer, i, |candidate.answer|, AllowedInstants(candidate));
    var instant :| instant in AllowedInstants(candidate) && IsVariant(candidate.answer[i].text, instant);
    AllowedInstantIsRecorded(candidate, history, instant);
  }

  lemma {:induction false} VerifiedEach(answer: seq<Token>, i: nat, n: nat, instants: set<int>)
    requires i < n <= |answer| && DatesVerified(answer, n, instants)
    ensures DateVerified(answer[i], instants)
  {
    if i < n - 1 {
      VerifiedEach(answer, i, n - 1, instants);
    }
  }

  // --- The shown evidence ---

  ghost predicate LineIsRecorded(line: Line, history: seq<ToolCall>) {
    exists call, path: Path :: call in history && LineReads(line, call, path)
  }

  predicate LineReads(line: Line, call: ToolCall, path: Path) {
    && line.Line?
    && MeaningOf(call, path) == Success(Meaning(line.shown, line.unit))
    && ResolvePath(call.result.Envelope(), path).Success?
    && SameValue(ResolvePath(call.result.Envelope(), path).value, line.value)
  }

  lemma ItemLineIsRecorded(item: Evidence, history: seq<ToolCall>)
    requires Backed(item, history)
    ensures |LinesOf(item, history)| == 1
    ensures LineIsRecorded(LinesOf(item, history)[0], history) && LinesOf(item, history)[0].value == item.value
  {
    FetchedIsRecorded(history, item.callIndex);
    assert LineReads(LinesOf(item, history)[0], SourceOf(item, history), item.path);
  }

  predicate IsLineOf(line: Line, item: Evidence) {
    line.Line? && line.value == item.value
  }

  lemma {:induction false} LineAt(items: seq<Evidence>, n: nat, history: seq<ToolCall>)
    requires n <= |items| && forall k :: 0 <= k < n ==> |LinesOf(items[k], history)| == 1
    ensures |Lines(items, n, history)| == n
    ensures forall k :: 0 <= k < n ==> Lines(items, n, history)[k] == LinesOf(items[k], history)[0]
  {
    if n > 0 {
      LineAt(items, n - 1, history);
    }
  }

  lemma {:induction false} LinesAreRecorded(items: seq<Evidence>, history: seq<ToolCall>)
    requires AllBacked(items, |items|, history)
    ensures |Lines(items, |items|, history)| == |items|
    ensures forall k :: 0 <= k < |items| ==>
              LineIsRecorded(Lines(items, |items|, history)[k], history)
                && IsLineOf(Lines(items, |items|, history)[k], items[k])
  {
    forall k | 0 <= k < |items|
      ensures |LinesOf(items[k], history)| == 1
      ensures LineIsRecorded(LinesOf(items[k], history)[0], history)
              && IsLineOf(LinesOf(items[k], history)[0], items[k])
    {
      ItemLineIsRecorded(items[k], history);
    }
    LineAt(items, |items|, history);
  }

  ghost predicate ShowsRecorded(lines: seq<Line>, candidate: Candidate, history: seq<ToolCall>) {
    if candidate.evidence == [] then lines == (if candidate.status == NoData then [NothingFound] else [])
    else
      && |lines| == |candidate.evidence|
      && forall k :: 0 <= k < |lines| ==> LineIsRecorded(lines[k], history) && IsLineOf(lines[k], candidate.evidence[k])
  }

  /** The evidence shown beside an accepted answer: one line for each item, in order, whose
      label, unit and value are those of a recorded path; a single notice when there is none. */
  lemma {:induction false} ShownEvidenceIsRecorded(candidate: Candidate, history: seq<ToolCall>, deviceId: string)
    ensures Acceptable(candidate, history) ==>
            ShowsRecorded(DisplayOf(candidate, history, deviceId).evidence, candidate, history)
  {
    if Acceptable(candidate, history) {
      LinesAreRecorded(candidate.evidence, history);
    }
  }

  // --- The whole answer ---

  /** What the text of an answer says is recorded. A number that touches a Latin letter may say
      anything. */
  ghost predicate IsGroundedToken(token: Token, history: seq<ToolCall>) {
    match token
    case Words => true
    case Glued(_) => true
    case Numeral(figure) => figure.Figure? && Grounded(history, figure.value, RecognisedUnit(figure.suffix))
    case Dated(text) =>
      || IsGroundedDate(text, history)
      || (text.MonthDayText?
          && Grounded(history, text.month as real, None) && Grounded(history, text.dayOfMonth as real, None))
      || (text.ClockText?
          && Grounded(history, text.hour as real, None) && Grounded(history, text.minute as real, None)
          && (text.second.Some? ==> Grounded(history, text.second.value as real, None)))
  }

  ghost predicate IsGroundedAnswer(answer: seq<Token>, history: seq<ToolCall>) {
    forall token :: token in answer ==> IsGroundedToken(token, history)
  }

  lemma {:induction false} ScanIncludes(answer: seq<Token>, i: nat, n: nat, instants: set<int>)
    requires i < n <= |answer|
    ensures forall f :: f in Visible(answer[i], instants) ==> f in Scan(answer, n, instants)
  {
    if i < n - 1 {
      ScanIncludes(answer, i, n - 1, instants);
    }
  }

  lemma {:induction false} SeenIsGrounded(candidate: Candidate, history: seq<ToolCall>, text: DateText, i: nat)
    requires Acceptable(candidate, history) && i < |candidate.answer| && candidate.answer[i] == Dated(text)
    requires !IsVerified(text, AllowedInstants(candidate))
    ensures forall v: real :: Figure(v, NoSuffix) in FiguresIn(text) ==> Grounded(history, v, None)
  {
    ScanIncludes(candidate.answer, i, |candidate.answer|, AllowedInstants(candidate));
    forall v: real | Figure(v, NoSuffix) in FiguresIn(text)
      ensures Grounded(history, v, None)
    {
      NumberIsGrounded(candidate, history, Figure(v, NoSuffix));
    }
  }

  lemma {:induction false} TokenIsGrounded(candidate: Candidate, history: seq<ToolCall>, i: nat)
    requires Acceptable(candidate, history) && i < |candidate.answer|
    ensures IsGroundedToken(candidate.answer[i], history)
  {
    var token, instants := candidate.answer[i], AllowedInstants(candidate);
    ScanIncludes(candidate.answer, i, |candidate.answer|, instants);
    if token.Numeral? {
      NumberIsGrounded(candidate, history, token.figure);
    } else if token.Dated? {
      VerifiedEach(candidate.answer, i, |candidate.answer|, instants);
      if IsVerified(token.text, instants) {
        var instant :| instant in instants && IsVariant(token.text, instant);
        AllowedInstantIsRecorded(candidate, history, instant);
      } else {
        SeenIsGrounded(candidate, history, token.text, i);
        match token.text {
          case MonthDayText(month, day) =>
            assert FiguresIn(token.text)[0] == Figure(month as real, NoSuffix);
            assert FiguresIn(token.text)[1] == Figure(day as real, NoSuffix);
          case ClockText(hour, minute, second) =>
            assert FiguresIn(token.text)[0] == Figure(hour as real, NoSuffix);
            assert FiguresIn(token.text)[1] == Figure(minute as real, NoSuffix);
            if second.Some? {
              assert FiguresIn(token.text)[2] == Figure(second.value as real, NoSuffix);
            }
          case _ =>
        }
      }
    }
  }

  /** Every number and every date in an accepted answer is grounded in the history. */
  lemma {:induction false} AnswersAreGrounded(candidate: Candidate, history: seq<ToolCall>)
    ensures Acceptable(candidate, history) ==> IsGroundedAnswer(candidate.answer, history)
  {
    if Acceptable(candidate, history) {
      forall token | token in candidate.answer
        ensures IsGroundedToken(token, history)
      {
        var i :| 0 <= i < |candidate.answer| && candidate.answer[i] == token;
        TokenIsGrounded(candidate, history, i);
      }
    }
  }

  lemma {:induction false} HoldsInMore(few: seq<ToolCall>, more: seq<ToolCall>, value: real, unit: Option<Unit>)
    requires (forall call :: call in few ==> call in more) && Holds(few, value, unit)
    ensures Holds(more, value, unit)
  {
    var call, path: Path :| call in few && ReadsAt(call, path, value, unit);
    assert call in more;
  }

  lemma {:induction false} ComputedInMore(few: seq<ToolCall>, more: seq<ToolCall>, value: real, wanted: Option<Unit>)
    requires (forall call :: call in few ==> call in more) && Computed(few, value, wanted)
    ensures Computed(more, value, wanted)
  {
    var operation, first, second, unit :|
      Follows(few, operation, first, second, unit, value) && (wanted.Some? ==> ResultUnit(operation, unit) == wanted);
    HoldsInMore(few, more, first, unit);
    HoldsInMore(few, more, second, unit);
    assert Follows(more, operation, first, second, unit, value);
  }

  lemma {:induction false} GroundedInMore(few: seq<ToolCall>, more: seq<ToolCall>, value: real, wanted: Option<Unit>)
    requires (forall call :: call in few ==> call in more) && Grounded(few, value, wanted)
    ensures Grounded(more, value, wanted)
  {
    if Computed(few, value, wanted) {
      ComputedInMore(few, more, value, wanted);
    } else {
      var unit :| Holds(few, value, unit) && (wanted.Some? ==> unit == wanted);
      HoldsInMore(few, more, value, unit);
    }
  }

  lemma {:induction false} RecordedInMore(few: seq<ToolCall>, more: seq<ToolCall>, instant: int)
    requires (forall call :: call in few ==> call in more) && IsRecordedInstant(few, instant)
    ensures IsRecordedInstant(more, instant)
  {
    if call, stamp: Stamp :| call in few && Observed(call, stamp) && stamp.at == instant {
      assert call in more;
    } else {
      var call, start, end :|
        call in few && ContainsPeriod(call, start, end) && (instant == start || instant == end);
      assert call in more;
    }
  }

  lemma {:induction false} AnswerGroundedInMore(few: seq<ToolCall>, more: seq<ToolCall>, answer: seq<Token>)
    requires (forall call :: call in few ==> call in more) && IsGroundedAnswer(answer, few)
    ensures IsGroundedAnswer(answer, more)
  {
    forall token | token in answer
      ensures IsGroundedToken(token, more)
    {
      TokenGroundedInMore(few, more, token);
    }
  }

  lemma {:induction false} TokenGroundedInMore(few: seq<ToolCall>, more: seq<ToolCall>, token: Token)
    requires (forall call :: call in few ==> call in more) && IsGroundedToken(token, few)
    ensures IsGroundedToken(token, more)
  {
    if token.Numeral? {
      GroundedInMore(few, more, token.figure.value, RecognisedUnit(token.figure.suffix));
    } else if token.Dated? {
      if IsGroundedDate(token.text, few) {
        var instant :| IsVariant(token.text, instant) && IsRecordedInstant(few, instant);
        RecordedInMore(few, more, instant);
      } else {
        match token.text {
          case MonthDayText(month, day) =>
            GroundedInMore(few, more, month as real, None);
            GroundedInMore(few, more, day as real, None);
          case ClockText(hour, minute, second) =>
            GroundedInMore(few, more, hour as real, None);
            GroundedInMore(few, more, minute as real, None);
            if second.Some? {
              GroundedInMore(few, more, second.value as real, None);
            }
          case _ =>
        }
      }
    }
  }
}
