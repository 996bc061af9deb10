/** When an answer is accepted, read off the candidate and the history alone: item by item, calculation
    by calculation and token by token, without the collections that the check builds on its way. */
module AcceptedAnswers {
  import opened Wrappers
  import opened AgentRecords
  import opened Common
  import opened AnswerValidation
  import opened AnswerMeaning
  import opened Labels

  // --- What a candidate admits into its text ---

  ghost predicate StatesNumber(item: Evidence, value: real, unit: Option<Unit>) {
    item.value == Number(value) && (unit.None? || item.unit == unit)
  }

  ghost predicate StatesResult(calculation: Calculation, history: seq<ToolCall>, value: real, unit: Option<Unit>) {
    && calculation.result == value
    && (unit.Some? ==>
          if calculation.operation == PercentChange then unit.value == Percent
          else exists first :: ReadOperand(calculation.first, history) == Success(Reading(first, unit)))
  }

  /** A number of the text stands in an item of evidence or is the result of a calculation; with a
      recognised unit, of that unit. */
  ghost predicate Admits(candidate: Candidate, history: seq<ToolCall>, value: real, unit: Option<Unit>) {
    || (exists k :: 0 <= k < |candidate.evidence| && StatesNumber(candidate.evidence[k], value, unit))
    || (exists k :: 0 <= k < |candidate.calculations|
          && StatesResult(candidate.calculations[k], history, value, unit))
  }

  ghost predicate IsSeenAt(item: Evidence, at: int) {
    item.observedAt.Some? && item.observedAt.value.at == at
  }

  /** An instant of the text is the timestamp of an item of evidence or an end of the period. */
  ghost predicate AdmitsInstant(candidate: Candidate, at: int) {
    || (exists k :: 0 <= k < |candidate.evidence| && IsSeenAt(candidate.evidence[k], at))
    || (candidate.periodFrom.Some? && candidate.periodTo.Some?
        && (at == candidate.periodFrom.value.at || at == candidate.periodTo.value.at))
  }

  ghost predicate RendersAdmitted(candidate: Candidate, text: DateText) {
    exists at :: AdmitsInstant(candidate, at) && (Renders(text, at, 0) || Renders(text, at, 32_400_000_000))
  }

  /** A number is admitted with its unit, a date renders an admitted instant in UTC or Tokyo time, and
      the parts of a clock time or of a day without a year do so or are admitted numbers. */
  ghost predicate TokenPasses(token: Token, candidate: Candidate, history: seq<ToolCall>) {
    match token
    case Words => true
    case Glued(_) => true
    case Numeral(OutOfRange) => false
    case Numeral(Figure(value, suffix)) => Admits(candidate, history, value, RecognisedUnit(suffix))
    case Dated(text) =>
      RendersAdmitted(candidate, text)
      || match text
         case MonthDayText(month, day) =>
           Admits(candidate, history, month as real, None) && Admits(candidate, history, day as real, None)
         case ClockText(hour, minute, second) =>
           && Admits(candidate, history, hour as real, None) && Admits(candidate, history, minute as real, None)
           && (second.Some? ==> Admits(candidate, history, second.value as real, None))
         case _ => false
  }

  /** A record that the evidence cites; any record, if there is no evidence. */
  ghost predicate IsRelevant(call: ToolCall, candidate: Candidate, history: seq<ToolCall>) {
    if |candidate.evidence| == 0 then call in history else IsCited(call, candidate.evidence, history)
  }

  ghost predicate PeriodPasses(candidate: Candidate, history: seq<ToolCall>) {
    match (candidate.periodFrom, candidate.periodTo)
    case (None, None) => true
    case (Some(from), Some(to)) =>
      exists call :: IsRelevant(call, candidate, history) && ContainsPeriod(call, from.at, to.at)
    case _ => false
  }

  /** A text that names an absent value or a flag in words. */
  ghost predicate Names(text: Json, value: Json) {
    text.Text?
    && match value
       case Null => text.name == OtherKey("None")
       case Flag(b) => text.name == OtherKey(if b then "True" else "False")
       case _ => false
  }

  ghost predicate ValuePasses(actual: Json, proposed: Json) {
    || (actual == proposed && (actual.Number? || actual.Text? || actual.Null? || actual.Flag?))
    || Names(actual, proposed) || Names(proposed, actual)
  }

  /** An item says what the record holds at its path, by one of the names that the path has. */
  ghost predicate ItemPasses(item: Evidence, history: seq<ToolCall>) {
    match Fetch(history, item.callIndex)
    case Failure(_) => false
    case Success(call) =>
      match (ResolvePath(call.result.Envelope(), item.path), MeaningOf(call, item.path))
      case (Success(actual), Success(meaning)) =>
        && ValuePasses(actual, item.value)
        && Accepts(meaning.shown, item.wording) && item.unit == meaning.unit
        && (item.observedAt.Some? ==>
              call.result.data.Some? && Mentions(call.result.data.value, item.observedAt.value))
      case _ => false
  }

  /** A calculation reads two numbers of one unit, states the formula of its operation and agrees with
      it to two decimals. */
  ghost predicate CalculationPasses(calculation: Calculation, history: seq<ToolCall>) {
    match (ReadOperand(calculation.first, history), ReadOperand(calculation.second, history))
    case (Success(Reading(first, unit)), Success(Reading(second, sameUnit))) =>
      && unit == sameUnit && ExpressionFits(calculation.operation, calculation.expression)
      && Agrees(calculation.operation, first, second, calculation.result)
      && -99_999_999_999_999_999_999_999_999.995 < calculation.result < 99_999_999_999_999_999_999_999_999.995
    case _ => false
  }

  lemma ValuePassesExactly(actual: Json, proposed: Json)
    ensures SameValue(actual, proposed) <==> ValuePasses(actual, proposed)
  {
  }

  lemma ItemPassesExactly(item: Evidence, history: seq<ToolCall>)
    ensures Backed(item, history) <==> ItemPasses(item, history)
  {
    if Cited(item, history) {
      var call := SourceOf(item, history);
      var actual := ResolvePath(call.result.Envelope(), item.path);
      if actual.Success? {
        ValuePassesExactly(actual.value, item.value);
      }
    }
  }

  lemma CalculationPassesExactly(calculation: Calculation, history: seq<ToolCall>)
    ensures Reproducible(calculation, history) <==> CalculationPasses(calculation, history)
  {
    ReproducibleInPlainTerms(calculation, history);
    QuantizableExactly(calculation.result);
  }

  // --- What the check collects ---

  lemma {:induction false} EvidenceValuesExactly(items: seq<Evidence>, n: nat, value: real, unit: Option<Unit>)
    requires n <= |items|
    ensures value in EvidenceValues(items, n, unit) <==> exists k :: 0 <= k < n && StatesNumber(items[k], value, unit)
  {
    if n > 0 {
      EvidenceValuesExactly(items, n - 1, value, unit);
      assert value in ValuesOf(items[n - 1], unit) <==> StatesNumber(items[n - 1], value, unit);
    }
  }

  lemma StatesResultExactly(calculation: Calculation, history: seq<ToolCall>, value: real, unit: Option<Unit>)
    ensures StatesResult(calculation, history, value, unit) <==>
              calculation.result == value && (unit.None? || CalculationUnit(calculation, history) == unit)
  {
    var read := ReadOperand(calculation.first, history);
    if unit.Some? && read.Success? && read.value.unit == unit {
      assert read == Success(Reading(read.value.value, unit));
    }
  }

  lemma {:induction false} CalculationValuesExactly(
    calculations: seq<Calculation>, n: nat, history: seq<ToolCall>, value: real, unit: Option<Unit>)
    requires n <= |calculations|
    ensures value in CalculationValues(calculations, n, history, unit)
       <==> exists k :: 0 <= k < n && StatesResult(calculations[k], history, value, unit)
  {
    if n > 0 {
      CalculationValuesExactly(calculations, n - 1, history, value, unit);
      StatesResultExactly(calculations[n - 1], history, value, unit);
    }
  }

  lemma FigureAllowedExactly(candidate: Candidate, history: seq<ToolCall>, figure: Figure)
    ensures FigureAllowed(figure, candidate, history) <==>
              figure.Figure? && Admits(candidate, history, figure.value, RecognisedUnit(figure.suffix))
  {
    if figure.Figure? {
      var unit := RecognisedUnit(figure.suffix);
      EvidenceValuesExactly(candidate.evidence, |candidate.evidence|, figure.value, unit);
      CalculationValuesExactly(candidate.calculations, |candidate.calculations|, history, figure.value, unit);
    }
  }

  lemma {:induction false} InstantsExactly(items: seq<Evidence>, n: nat, at: int)
    requires n <= |items|
    ensures at in ObservedInstants(items, n) <==> exists k :: 0 <= k < n && IsSeenAt(items[k], at)
  {
    if n > 0 {
      InstantsExactly(items, n - 1, at);
    }
  }

  lemma VerifiedExactly(candidate: Candidate, text: DateText)
    ensures IsVerified(text, AllowedInstants(candidate)) <==> RendersAdmitted(candidate, text)
  {
    forall at: int
      ensures at in AllowedInstants(candidate) <==> AdmitsInstant(candidate, at)
    {
      InstantsExactly(candidate.evidence, |candidate.evidence|, at);
    }
  }

  lemma {:induction false} SourcesExactly(items: seq<Evidence>, n: nat, history: seq<ToolCall>, call: ToolCall)
    requires n <= |items|
    ensures call in Sources(items, n, history) <==>
              exists k :: 0 <= k < n && Fetch(history, items[k].callIndex) == Success(call)
  {
    if n > 0 {
      SourcesExactly(items, n - 1, history, call);
    }
  }

  lemma {:induction false} RelevantExactly(candidate: Candidate, history: seq<ToolCall>, call: ToolCall)
    requires AllBacked(candidate.evidence, |candidate.evidence|, history)
    ensures call in RelevantCalls(candidate, history) <==> IsRelevant(call, candidate, history)
  {
    if |candidate.evidence| > 0 {
      SomethingIsCited(candidate.evidence, |candidate.evidence|, history);
      SourcesExactly(candidate.evidence, |candidate.evidence|, history, call);
    }
  }

  // --- The text, token by token ---

  ghost predicate Allows(figures: seq<Figure>, candidate: Candidate, history: seq<ToolCall>) {
    forall k :: 0 <= k < |figures| ==> FigureAllowed(figures[k], candidate, history)
  }

  lemma {:induction false} FiguresAllowedExactly(
    figures: seq<Figure>, n: nat, candidate: Candidate, history: seq<ToolCall>)
    requires n <= |figures|
    ensures FiguresAllowed(figures, n, candidate, history)
       <==> forall k :: 0 <= k < n ==> FigureAllowed(figures[k], candidate, history)
  {
    if n > 0 {
      FiguresAllowedExactly(figures, n - 1, candidate, history);
    }
  }

  lemma AllowsBoth(a: seq<Figure>, b: seq<Figure>, candidate: Candidate, history: seq<ToolCall>)
    ensures Allows(a + b, candidate, history) <==> Allows(a, candidate, history) && Allows(b, candidate, history)
  {
    if Allows(a + b, candidate, history) {
      forall k | 0 <= k < |a|
        ensures FigureAllowed(a[k], candidate, history)
      {
        assert (a + b)[k] == a[k];
      }
      forall k | 0 <= k < |b|
        ensures FigureAllowed(b[k], candidate, history)
      {
        assert (a + b)[|a| + k] == b[k];
      }
    }
  }

  /** What the check asks of one token. */
  ghost predicate TokenAllowed(token: Token, candidate: Candidate, history: seq<ToolCall>) {
    && DateVerified(token, AllowedInstants(candidate))
    && Allows(Visible(token, AllowedInstants(candidate)), candidate, history)
  }

  /** What it asks of the first n tokens. */
  ghost predicate TextAllowed(candidate: Candidate, history: seq<ToolCall>, n: nat)
    requires n <= |candidate.answer|
  {
    && DatesVerified(candidate.answer, n, AllowedInstants(candidate))
    && Allows(Scan(candidate.answer, n, AllowedInstants(candidate)), candidate, history)
  }

  lemma {:induction false} TextAllowedExactly(candidate: Candidate, history: seq<ToolCall>, n: nat)
    requires n <= |candidate.answer|
    ensures TextAllowed(candidate, history, n)
       <==> forall i :: 0 <= i < n ==> TokenAllowed(candidate.answer[i], candidate, history)
  {
    if n > 0 {
      TextAllowedExactly(candidate, history, n - 1);
      NextTokenAllowed(candidate, history, n);
    }
  }

  lemma {:induction false} NextTokenAllowed(candidate: Candidate, history: seq<ToolCall>, n: nat)
    requires 0 < n <= |candidate.answer|
    ensures TextAllowed(candidate, history, n) <==>
            TextAllowed(candidate, history, n - 1) && TokenAllowed(candidate.answer[n - 1], candidate, history)
  {
    var (answer, instants) := (candidate.answer, AllowedInstants(candidate));
    AllowsBoth(Scan(answer, n - 1, instants), Visible(answer[n - 1], instants), candidate, history);
  }

  lemma NumbersAllowedExactly(candidate: Candidate, history: seq<ToolCall>, whole: seq<int>, figures: seq<Figure>)
    requires |figures| == |whole| && forall k :: 0 <= k < |whole| ==> figures[k] == Figure(whole[k] as real, NoSuffix)
    ensures Allows(figures, candidate, history)
       <==> forall k :: 0 <= k < |whole| ==> Admits(candidate, history, whole[k] as real, None)
  {
    forall k | 0 <= k < |whole|
      ensures FigureAllowed(figures[k], candidate, history) <==> Admits(candidate, history, whole[k] as real, None)
    {
      FigureAllowedExactly(candidate, history, figures[k]);
    }
  }

  lemma TokenPassesExactly(token: Token, candidate: Candidate, history: seq<ToolCall>)
    ensures TokenAllowed(token, candidate, history) <==> TokenPasses(token, candidate, history)
  {
    match token
    case Words =>
    case Glued(_) =>
    case Numeral(figure) => NumeralPassesExactly(figure, candidate, history);
    case Dated(text) => DatePassesExactly(text, candidate, history);
  }

  lemma NumeralPassesExactly(figure: Figure, candidate: Candidate, history: seq<ToolCall>)
    ensures TokenAllowed(Numeral(figure), candidate, history) <==> TokenPasses(Numeral(figure), candidate, history)
  {
    FigureAllowedExactly(candidate, history, figure);
    assert Visible(Numeral(figure), AllowedInstants(candidate))[0] == figure;
  }

  lemma DatePassesExactly(text: DateText, candidate: Candidate, history: seq<ToolCall>)
    ensures TokenAllowed(Dated(text), candidate, history) <==> TokenPasses(Dated(text), candidate, history)
  {
    VerifiedExactly(candidate, text);
    match text
    case MonthDayText(month, day) =>
      var whole := [month, day];
      assert whole[0] == month && whole[1] == day;
      NumbersAllowedExactly(candidate, history, whole, FiguresIn(text));
    case ClockText(hour, minute, second) =>
      var whole := if second.Some? then [hour, minute, second.value] else [hour, minute];
      assert whole[0] == hour && whole[1] == minute && (second.Some? ==> whole[2] == second.value);
      NumbersAllowedExactly(candidate, history, whole, FiguresIn(text));
    case _ =>
  }

  /** A candidate is accepted exactly when each item of evidence, each calculation and each token of
      its text passes, some relevant record has its status and some relevant record its period. */
  lemma {:induction false} AcceptedExactly(candidate: Candidate, history: seq<ToolCall>)
    ensures Acceptable(candidate, history) <==>
              && candidate.timezone == "Asia/Tokyo" && history != []
              && (forall k :: 0 <= k < |candidate.evidence| ==> ItemPasses(candidate.evidence[k], history))
              && (exists call :: IsRelevant(call, candidate, history) && call.result.status == candidate.status)
              && (forall k :: 0 <= k < |candidate.calculations| ==>
                    CalculationPasses(candidate.calculations[k], history))
              && PeriodPasses(candidate, history)
              && (forall i :: 0 <= i < |candidate.answer| ==> TokenPasses(candidate.answer[i], candidate, history))
  {
    forall k | 0 <= k < |candidate.evidence|
      ensures Backed(candidate.evidence[k], history) <==> ItemPasses(candidate.evidence[k], history)
    {
      ItemPassesExactly(candidate.evidence[k], history);
    }
    forall k | 0 <= k < |candidate.calculations|
      ensures Reproducible(candidate.calculations[k], history)
         <==> CalculationPasses(candidate.calculations[k], history)
    {
      CalculationPassesExactly(candidate.calculations[k], history);
    }
    if AllBacked(candidate.evidence, |candidate.evidence|, history) {
      RecordsPassExactly(candidate, history);
    }
    TextPassesExactly(candidate, history);
  }

  lemma {:induction false} TextPassesExactly(candidate: Candidate, history: seq<ToolCall>)
    ensures DatesVerified(candidate.answer, |candidate.answer|, AllowedInstants(candidate))
            && FiguresAllowed(VisibleFigures(candidate), |VisibleFigures(candidate)|, candidate, history)
       <==> forall i :: 0 <= i < |candidate.answer| ==> TokenPasses(candidate.answer[i], candidate, history)
  {
    FiguresAllowedExactly(VisibleFigures(candidate), |VisibleFigures(candidate)|, candidate, history);
    TextAllowedExactly(candidate, history, |candidate.answer|);
    forall i | 0 <= i < |candidate.answer|
      ensures TokenAllowed(candidate.answer[i], candidate, history)
         <==> TokenPasses(candidate.answer[i], candidate, history)
    {
      TokenPassesExactly(candidate.answer[i], candidate, history);
    }
  }

  lemma {:induction false} RecordsPassExactly(candidate: Candidate, history: seq<ToolCall>)
    requires AllBacked(candidate.evidence, |candidate.evidence|, history)
    ensures StatusBacked(candidate, RelevantCalls(candidate, history))
       <==> exists call :: IsRelevant(call, candidate, history) && call.result.status == candidate.status
    ensures PeriodBacked(candidate, RelevantCalls(candidate, history)) <==> PeriodPasses(candidate, history)
  {
    forall call
      ensures call in RelevantCalls(candidate, history) <==> IsRelevant(call, candidate, history)
    {
      RelevantExactly(candidate, history, call);
    }
  }
}
