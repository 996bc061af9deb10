/** Which numbers the check of app/agent/validation.py looks at, and with which unit. */
module UnitChecking {
  import opened Wrappers
  import opened AgentRecords
  import opened Labels
  import opened AnswerValidation
  import opened AnswerSoundness
  import opened VerifiedFallback
  import opened AlertValues
  import Alerting

  // --- Which units are really checked ---

  /** The unit that a reader takes a suffix to mean. */
  function Meant(suffix: Suffix): Option<Unit> {
    if suffix == CelsiusSign || suffix == DegreeWord then Some(Celsius)
    else if suffix == PercentSign || suffix == PercentWord then Some(Percent)
    else if suffix == ItemsWord || suffix == TimesWord then Some(Items)
    else None
  }

  ghost predicate UnitIsChecked(suffix: Suffix) {
    forall candidate, history, figure ::
      AllToolRecords(history) && IsAcceptedFigure(candidate, history, figure, suffix)
      ==> Grounded(history, figure.value, Meant(suffix))
  }

  predicate IsAcceptedFigure(candidate: Candidate, history: seq<ToolCall>, figure: Figure, suffix: Suffix) {
    && Acceptable(candidate, history) && figure in VisibleFigures(candidate)
    && figure.Figure? && figure.suffix == suffix
  }

  function HumidityCall(): ToolCall {
    ToolCall(1, LatestMeasurement, map[], ToolResult(Available, Some(HumidityData()), None, false))
  }

  function HumidityData(): Json {
    Dump(LatestDto(Some(20.0), Some(50.0), Some(Stamp(0, 0)), Some(Stamp(0, 0))))
  }

  function HumidityEvidence(): Evidence {
    Evidence(Canonical(LatestLabel(Alerting.Humidity)), Number(50.0), Some(Percent), 1,
      [DataKey, LatestKey(Alerting.Humidity)], None)
  }

  /** Fifty per cent of humidity, reported as fifty degrees. */
  function HumidityAsDegrees(): Candidate {
    Candidate([Numeral(Figure(50.0, CelsiusSign))], None, None, "Asia/Tokyo", [HumidityEvidence()], [], Available)
  }

  lemma HumidityIsBacked()
    ensures Backed(HumidityEvidence(), [HumidityCall()])
  {
    var path := [DataKey, LatestKey(Alerting.Humidity)];
    assert path[1..] == [LatestKey(Alerting.Humidity)] && path[1..][1..] == [];
    assert ResolvePath(HumidityData(), path[1..]) == Success(Number(50.0));
    assert ResolvePath(HumidityCall().result.Envelope(), path) == Success(Number(50.0));
  }

  lemma HumidityAsDegreesIsAccepted()
    ensures Acceptable(HumidityAsDegrees(), [HumidityCall()])
    ensures Figure(50.0, CelsiusSign) in VisibleFigures(HumidityAsDegrees())
  {
    var c, history := HumidityAsDegrees(), [HumidityCall()];
    HumidityIsBacked();
    assert SourcesOf(c.evidence[0], history) == [HumidityCall()];
    assert Sources(c.evidence, 1, history) == [HumidityCall()];
    assert RelevantCalls(c, history) == [HumidityCall()];
    assert HumidityCall() in RelevantCalls(c, history);
    assert Visible(c.answer[0], AllowedInstants(c)) == [Figure(50.0, CelsiusSign)];
    assert VisibleFigures(c) == [Figure(50.0, CelsiusSign)];
    assert EvidenceValues(c.evidence, 1, None) == {50.0};
  }

  lemma LeafHasNoPath(value: Json, path: Path)
    requires !value.Object? && !value.Array?
    ensures ResolvePath(value, path).Success? ==> path == [] && ResolvePath(value, path).value == value
  {
  }

  lemma {:induction false} NumbersOfHumidityCall(path: Path, value: real)
    requires ResolvePath(HumidityCall().result.Envelope(), path) == Success(Number(value))
    ensures |path| == 2 && path[0] == DataKey && path[1].LatestKey?
    ensures path[1].metric == Alerting.Temperature ==> value == 20.0
  {
    assert path != [];
    var rest := path[1..];
    var below := HumidityCall().result.Envelope().fields[path[0]];
    assert ResolvePath(below, rest) == Success(Number(value));
    if path[0] != DataKey {
      LeafHasNoPath(below, rest);
    } else {
      assert rest != [];
      LeafHasNoPath(HumidityData().fields[rest[0]], rest[1..]);
    }
  }

  lemma OnlyTwentyDegrees(value: real)
    requires Holds([HumidityCall()], value, Some(Celsius))
    ensures value == 20.0
  {
    var call, path: Path :| call in [HumidityCall()] && ReadsAt(call, path, value, Some(Celsius));
    NumbersOfHumidityCall(path, value);
  }

  lemma FiftyDegreesAreNotGrounded()
    ensures !Grounded([HumidityCall()], 50.0, Some(Celsius))
  {
    var history := [HumidityCall()];
    if Holds(history, 50.0, Some(Celsius)) {
      OnlyTwentyDegrees(50.0);
    }
    forall operation, first, second, unit |
      Follows(history, operation, first, second, unit, 50.0) && ResultUnit(operation, unit) == Some(Celsius)
      ensures false
    {
      OnlyTwentyDegrees(first);
      OnlyTwentyDegrees(second);
    }
  }

  lemma {:induction false} OtherUnitsAreChecked(suffix: Suffix)
    requires suffix != CelsiusSign
    ensures UnitIsChecked(suffix)
  {
    assert Meant(suffix) == RecognisedUnit(suffix);
    forall candidate, history, figure |
      AllToolRecords(history) && IsAcceptedFigure(candidate, history, figure, suffix)
      ensures Grounded(history, figure.value, Meant(suffix))
    {
      NumbersAreGrounded(candidate, history);
    }
  }

  lemma {:induction false} CelsiusSignIsUnchecked()
    ensures !UnitIsChecked(CelsiusSign)
  {
    HumidityAsDegreesIsAccepted();
    FiftyDegreesAreNotGrounded();
    var figure := Figure(50.0, CelsiusSign);
    var dto := LatestDto(Some(20.0), Some(50.0), Some(Stamp(0, 0)), Some(Stamp(0, 0)));
    assert HumidityCall().result.data == Some(Dump(dto));
    assert AllToolRecords([HumidityCall()]);
    assert IsAcceptedFigure(HumidityAsDegrees(), [HumidityCall()], figure, CelsiusSign);
    assert figure in VisibleFigures(HumidityAsDegrees())
           && !Grounded([HumidityCall()], figure.value, Meant(CelsiusSign));
  }

  /** The unit that a reader sees is checked for every suffix except the Celsius sign, which the
      scanner does not recognise: humidity can be reported as a temperature. */
  lemma {:induction false} UnitIsCheckedExactly(suffix: Suffix)
    ensures UnitIsChecked(suffix) <==> suffix != CelsiusSign
  {
    if suffix == CelsiusSign {
      CelsiusSignIsUnchecked();
    } else {
      OtherUnitsAreChecked(suffix);
    }
  }

  // --- Numbers that are not looked at ---

  function WithGlued(answer: seq<Token>, i: nat, whole: nat): seq<Token>
    requires i <= |answer|
  {
    answer[..i] + [Glued(whole)] + answer[i..]
  }

  lemma {:induction false} ScanSkipsGlued(answer: seq<Token>, i: nat, whole: nat, n: nat, instants: set<int>)
    requires i <= |answer| && n <= |answer|
    ensures var longer := WithGlued(answer, i, whole);
            && (n <= i ==> Scan(longer, n, instants) == Scan(answer, n, instants)
                           && (DatesVerified(longer, n, instants) <==> DatesVerified(answer, n, instants)))
            && (n >= i ==> Scan(longer, n + 1, instants) == Scan(answer, n, instants)
                           && (DatesVerified(longer, n + 1, instants) <==> DatesVerified(answer, n, instants)))
  {
    if n > 0 {
      ScanSkipsGlued(answer, i, whole, n - 1, instants);
    }
  }

  lemma {:induction false} FiguresAllowedAlike(
    figures: seq<Figure>, n: nat, a: Candidate, b: Candidate, history: seq<ToolCall>)
    requires n <= |figures| && a.evidence == b.evidence && a.calculations == b.calculations
    ensures FiguresAllowed(figures, n, a, history) <==> FiguresAllowed(figures, n, b, history)
  {
    if n > 0 {
      FiguresAllowedAlike(figures, n - 1, a, b, history);
    }
  }

  /** What the check demands of the text alone. */
  predicate TextPasses(candidate: Candidate, history: seq<ToolCall>) {
    && DatesVerified(candidate.answer, |candidate.answer|, AllowedInstants(candidate))
    && FiguresAllowed(VisibleFigures(candidate), |VisibleFigures(candidate)|, candidate, history)
  }

  lemma {:induction false} TextPassesAlike(
    candidate: Candidate, other: Candidate, history: seq<ToolCall>, i: nat, whole: nat)
    requires i <= |candidate.answer| && other == candidate.(answer := WithGlued(candidate.answer, i, whole))
    ensures TextPasses(other, history) <==> TextPasses(candidate, history)
  {
    var instants := AllowedInstants(candidate);
    ScanSkipsGlued(candidate.answer, i, whole, |candidate.answer|, instants);
    assert AllowedInstants(other) == instants && |other.answer| == |candidate.answer| + 1;
    var figures := VisibleFigures(candidate);
    assert VisibleFigures(other) == figures;
    FiguresAllowedAlike(figures, |figures|, candidate, other, history);
  }

  lemma AcceptableByText(candidate: Candidate, history: seq<ToolCall>)
    ensures Acceptable(candidate, history) ==> TextPasses(candidate, history)
  {
  }

  lemma AcceptableAlike(candidate: Candidate, other: Candidate, history: seq<ToolCall>)
    requires other == candidate.(answer := other.answer)
    requires Acceptable(candidate, history) && TextPasses(other, history)
    ensures Acceptable(other, history)
  {
    assert RelevantCalls(other, history) == RelevantCalls(candidate, history);
  }

  /** A whole number that touches a Latin letter, as in 28C, is never looked at: it may be put anywhere
      into an answer, with any value, and the check decides as before. */
  lemma {:induction false} GluedNumbersAreUnchecked(candidate: Candidate, history: seq<ToolCall>, i: nat, whole: nat)
    requires i <= |candidate.answer|
    ensures Acceptable(candidate.(answer := WithGlued(candidate.answer, i, whole)), history)
       <==> Acceptable(candidate, history)
  {
    var other := candidate.(answer := WithGlued(candidate.answer, i, whole));
    TextPassesAlike(candidate, other, history, i, whole);
    AcceptableByText(candidate, history);
    AcceptableByText(other, history);
    if Acceptable(candidate, history) {
      AcceptableAlike(candidate, other, history);
    }
    if Acceptable(other, history) {
      AcceptableAlike(other, candidate, history);
    }
  }
}
