/** app/services/alert_service.py: the two-metric hysteresis automaton over one device's
    alert rows, and what its rows mean after any sequence of evaluations. */
module Alerting {
  import opened Wrappers
  import opened Decimals

  datatype Metric = Temperature | Humidity

  datatype Direction = Low | High

  datatype Status = Open | Resolved

  /** Thresholds as app/config.py admits them. */
  datatype Thresholds = Thresholds(lower: real, upper: real, hysteresis: real, minimum: real, maximum: real) {
    predicate Valid() {
      && minimum <= lower < upper <= maximum
      && 0.0 < hysteresis < (upper - lower) / 2.0
    }

    /** The table's CHECK demands a positive hysteresis of the rounded column value. */
    predicate Storable() {
      Numeric2(hysteresis) > 0.0
    }

    function Crossed(direction: Direction): real {
      if direction == Low then lower else upper
    }
  }

  datatype Settings = Settings(temperature: Thresholds, humidity: Thresholds) {
    predicate Valid() {
      temperature.Valid() && humidity.Valid()
    }

    predicate Storable() {
      temperature.Storable() && humidity.Storable()
    }

    function For(metric: Metric): Thresholds {
      if metric == Temperature then temperature else humidity
    }
  }

  /** A row of the alert table; its three values have the precision of their columns. */
  datatype Alert = Alert(
    metric: Metric,
    direction: Direction,
    status: Status,
    thresholdValue: real,
    triggerValue: real,
    hysteresis: real,
    startedAt: int,
    lastDetectedAt: int,
    resolvedAt: Option<int>)

  function Continues(direction: Direction, value: real, thresholds: Thresholds): bool {
    if direction == Low then value < thresholds.lower + thresholds.hysteresis
    else value > thresholds.upper - thresholds.hysteresis
  }

  function NewDirection(value: real, thresholds: Thresholds): Option<Direction> {
    if value < thresholds.lower then Some(Low)
    else if value > thresholds.upper then Some(High)
    else None
  }

  function NewAlert(metric: Metric, direction: Direction, at: int, value: real, thresholds: Thresholds): Alert {
    Alert(metric, direction, Open, Numeric2(thresholds.Crossed(direction)), Numeric2(value),
          Numeric2(thresholds.hysteresis), at, at, None)
  }

  function Resolve(alert: Alert, at: int): Alert {
    alert.(status := Resolved, resolvedAt := Some(at))
  }

  // --- One evaluation as a function of the rows ---

  predicate IsOpen(alert: Alert, metric: Metric) {
    alert.metric == metric && alert.status == Open
  }

  /** The row the query for an OPEN alert of the metric returns. */
  function FindOpen(alerts: seq<Alert>, metric: Metric): (found: Option<nat>)
    ensures found.Some? ==> found.value < |alerts| && IsOpen(alerts[found.value], metric)
    ensures found.None? ==> forall i :: 0 <= i < |alerts| ==> !IsOpen(alerts[i], metric)
  {
    if alerts == [] then None
    else
      var n := |alerts| - 1;
      if IsOpen(alerts[n], metric) then Some(n) else FindOpen(alerts[..n], metric)
  }

  function Start(alerts: seq<Alert>, metric: Metric, at: int, value: real, thresholds: Thresholds): seq<Alert> {
    match NewDirection(value, thresholds)
    case None => alerts
    case Some(direction) => alerts + [NewAlert(metric, direction, at, value, thresholds)]
  }

  function EvaluateMetric(
    alerts: seq<Alert>, metric: Metric, at: int, value: real, thresholds: Thresholds): seq<Alert> {
    match FindOpen(alerts, metric)
    case None => Start(alerts, metric, at, value, thresholds)
    case Some(i) =>
      if Continues(alerts[i].direction, value, thresholds) then alerts[i := alerts[i].(lastDetectedAt := at)]
      else Start(alerts[i := Resolve(alerts[i], at)], metric, at, value, thresholds)
  }

  predicate HasOpen(alerts: seq<Alert>, metric: Metric, direction: Direction) {
    var open := FindOpen(alerts, metric);
    open.Some? && alerts[open.value].direction == direction
  }

  /** One evaluated measurement. */
  datatype Observation = Observation(at: int, temperature: real, humidity: real) {
    function Value(metric: Metric): real {
      if metric == Temperature then temperature else humidity
    }
  }

  function Evaluate(alerts: seq<Alert>, o: Observation, settings: Settings): seq<Alert> {
    var afterTemperature := EvaluateMetric(alerts, Temperature, o.at, o.temperature, settings.temperature);
    EvaluateMetric(afterTemperature, Humidity, o.at, o.humidity, settings.humidity)
  }

  /** The rows after evaluating `obs` in order on an empty table. */
  function Replay(obs: seq<Observation>, settings: Settings): seq<Alert> {
    if obs == [] then []
    else Evaluate(Replay(obs[..|obs| - 1], settings), obs[|obs| - 1], settings)
  }

  // --- The CHECK on inserted rows ---

  /** Every row inserted by an evaluation satisfies the table's CHECK on the hysteresis. */
  predicate InsertsHold(before: seq<Alert>, after: seq<Alert>) {
    forall i :: |before| <= i < |after| ==> after[i].hysteresis > 0.0
  }

  predicate Inserts(alerts: seq<Alert>, metric: Metric, value: real, thresholds: Thresholds) {
    var open := FindOpen(alerts, metric);
    && NewDirection(value, thresholds).Some?
    && (open.Some? ==> !Continues(alerts[open.value].direction, value, thresholds))
  }

  lemma RowsInserted(alerts: seq<Alert>, metric: Metric, at: int, value: real, thresholds: Thresholds)
    ensures var after := EvaluateMetric(alerts, metric, at, value, thresholds);
            && |after| == |alerts| + (if Inserts(alerts, metric, value, thresholds) then 1 else 0)
            && (forall i :: |alerts| <= i < |after| ==> after[i].hysteresis == Numeric2(thresholds.hysteresis))
  {
  }

  /** An evaluation passes the CHECK exactly when no metric inserts a row whose hysteresis rounds
      to zero; with settings that can be stored it always passes. */
  lemma {:induction false} InsertsHoldExactly(alerts: seq<Alert>, o: Observation, settings: Settings)
    ensures var mid := EvaluateMetric(alerts, Temperature, o.at, o.temperature, settings.temperature);
            InsertsHold(alerts, Evaluate(alerts, o, settings)) <==>
            && (Inserts(alerts, Temperature, o.temperature, settings.temperature) ==> settings.temperature.Storable())
            && (Inserts(mid, Humidity, o.humidity, settings.humidity) ==> settings.humidity.Storable())
    ensures settings.Storable() ==> InsertsHold(alerts, Evaluate(alerts, o, settings))
  {
    var mid := EvaluateMetric(alerts, Temperature, o.at, o.temperature, settings.temperature);
    var after := Evaluate(alerts, o, settings);
    RowsInserted(alerts, Temperature, o.at, o.temperature, settings.temperature);
    RowsInserted(mid, Humidity, o.at, o.humidity, settings.humidity);
    HumidityKeepsTemperatureRows(mid, o, settings);
    if Inserts(alerts, Temperature, o.temperature, settings.temperature) {
      assert after[|alerts|].hysteresis == Numeric2(settings.temperature.hysteresis);
    }
    if Inserts(mid, Humidity, o.humidity, settings.humidity) {
      assert after[|mid|].hysteresis == Numeric2(settings.humidity.hysteresis);
    }
  }

  lemma HumidityKeepsTemperatureRows(mid: seq<Alert>, o: Observation, settings: Settings)
    ensures var after := EvaluateMetric(mid, Humidity, o.at, o.humidity, settings.humidity);
            |after| >= |mid| && forall i :: 0 <= i < |mid| ==> after[i].hysteresis == mid[i].hysteresis
  {
  }

  predicate StrictlyLater(obs: seq<Observation>) {
    forall i, j :: 0 <= i < j < |obs| ==> obs[i].at < obs[j].at
  }

  // --- Timelines ---

  /** A row on its own: RESOLVED exactly when a resolution time is set, and its times in order. */
  predicate RowOk(a: Alert, until: int) {
    && (a.status == Resolved <==> a.resolvedAt.Some?)
    && a.startedAt <= a.lastDetectedAt <= until
    && (a.resolvedAt.Some? ==> a.lastDetectedAt < a.resolvedAt.value <= until)
  }

  /** Two rows of one metric, the first stored earlier: the first is over before the second
      starts, and they touch only when the direction flips. */
  predicate InOrder(a: Alert, b: Alert) {
    && a.resolvedAt.Some?
    && a.resolvedAt.value <= b.startedAt
    && (a.resolvedAt.value == b.startedAt ==> a.direction != b.direction)
  }

  ghost predicate TimelineOk(alerts: seq<Alert>, metric: Metric, until: int) {
    && (forall i :: 0 <= i < |alerts| && alerts[i].metric == metric ==> RowOk(alerts[i], until))
    && (forall i, j :: 0 <= i < j < |alerts| && alerts[i].metric == alerts[j].metric == metric ==>
       InOrder(alerts[i], alerts[j]))
  }

  /** The database's partial unique index over OPEN rows. */
  ghost predicate OpenIndexHolds(alerts: seq<Alert>) {
    forall i, j :: 0 <= i < j < |alerts| && alerts[i].status == Open && alerts[j].status == Open ==>
      alerts[i].metric != alerts[j].metric || alerts[i].direction != alerts[j].direction
  }

  lemma EarlierIsResolved(alerts: seq<Alert>, metric: Metric, until: int, i: nat, j: nat)
    requires TimelineOk(alerts, metric, until)
    requires i < j < |alerts| && alerts[i].metric == alerts[j].metric == metric
    ensures alerts[i].status == Resolved
  {
    assert InOrder(alerts[i], alerts[j]) && RowOk(alerts[i], until);
  }

  lemma AtMostOneOpen(alerts: seq<Alert>, metric: Metric, until: int, i: nat, j: nat)
    requires TimelineOk(alerts, metric, until)
    requires i < |alerts| && j < |alerts| && IsOpen(alerts[i], metric) && IsOpen(alerts[j], metric)
    ensures i == j
  {
    if i < j {
      EarlierIsResolved(alerts, metric, until, i, j);
    } else if j < i {
      EarlierIsResolved(alerts, metric, until, j, i);
    }
  }

  lemma EvaluateMetricKeepsTimeline(
    alerts: seq<Alert>, metric: Metric, before: int, at: int, value: real, thresholds: Thresholds)
    requires thresholds.Valid() && TimelineOk(alerts, metric, before) && before < at
    ensures TimelineOk(EvaluateMetric(alerts, metric, at, value, thresholds), metric, at)
  {
    match FindOpen(alerts, metric)
    case None =>
      StartKeepsTimeline(alerts, metric, before, at, value, thresholds);
    case Some(i) =>
      OpenIsLast(alerts, metric, before, i);
      if !Continues(alerts[i].direction, value, thresholds) {
        StartKeepsTimeline(alerts[i := Resolve(alerts[i], at)], metric, at, at, value, thresholds);
      }
  }

  lemma OpenIsLast(alerts: seq<Alert>, metric: Metric, until: int, i: nat)
    requires TimelineOk(alerts, metric, until) && i < |alerts| && IsOpen(alerts[i], metric)
    ensures forall j :: i < j < |alerts| ==> alerts[j].metric != metric
  {
    forall j | i < j < |alerts|
      ensures alerts[j].metric != metric
    {
      if alerts[j].metric == metric {
        EarlierIsResolved(alerts, metric, until, i, j);
      }
    }
  }

  lemma StartKeepsTimeline(
    alerts: seq<Alert>, metric: Metric, before: int, at: int, value: real, thresholds: Thresholds)
    requires TimelineOk(alerts, metric, before) && before <= at
    requires forall i :: 0 <= i < |alerts| && alerts[i].metric == metric ==>
               alerts[i].resolvedAt.Some?
               && (alerts[i].resolvedAt.value == at ==> NewDirection(value, thresholds) != Some(alerts[i].direction))
    ensures TimelineOk(Start(alerts, metric, at, value, thresholds), metric, at)
  {
  }

  lemma EvaluateMetricFramesOther(
    alerts: seq<Alert>, metric: Metric, at: int, value: real, thresholds: Thresholds, other: Metric, until: int)
    requires other != metric
    ensures TimelineOk(alerts, other, until) ==>
            TimelineOk(EvaluateMetric(alerts, metric, at, value, thresholds), other, until)
  {
  }

  lemma {:induction false} EvaluateKeepsTimelines(alerts: seq<Alert>, before: int, o: Observation, settings: Settings)
    requires settings.Valid() && before < o.at
    requires TimelineOk(alerts, Temperature, before) && TimelineOk(alerts, Humidity, before)
    ensures TimelineOk(Evaluate(alerts, o, settings), Temperature, o.at)
    ensures TimelineOk(Evaluate(alerts, o, settings), Humidity, o.at)
  {
    var mid := EvaluateMetric(alerts, Temperature, o.at, o.temperature, settings.temperature);
    EvaluateMetricKeepsTimeline(alerts, Temperature, before, o.at, o.temperature, settings.temperature);
    EvaluateMetricFramesOther(alerts, Temperature, o.at, o.temperature, settings.temperature, Humidity, before);
    EvaluateMetricKeepsTimeline(mid, Humidity, before, o.at, o.humidity, settings.humidity);
    EvaluateMetricFramesOther(mid, Humidity, o.at, o.humidity, settings.humidity, Temperature, o.at);
  }

  /** After any sequence of evaluations, each metric's alerts form a timeline: at most one open
      and last, every other resolved strictly after its last detection and no later than the
      next start, touching only on a change of direction. */
  lemma {:induction false} ReplayKeepsTimelines(obs: seq<Observation>, settings: Settings)
    requires settings.Valid() && StrictlyLater(obs) && obs != []
    ensures TimelineOk(Replay(obs, settings), Temperature, obs[|obs| - 1].at)
    ensures TimelineOk(Replay(obs, settings), Humidity, obs[|obs| - 1].at)
  {
    var n := |obs| - 1;
    var before := if n > 0 then obs[n - 1].at else obs[n].at - 1;
    var prior := Replay(obs[..n], settings);
    if n > 0 {
      ReplayKeepsTimelines(obs[..n], settings);
    }
    assert TimelineOk(prior, Temperature, before) && TimelineOk(prior, Humidity, before);
    EvaluateKeepsTimelines(prior, before, obs[n], settings);
  }

  /** Whichever of the new row's INSERT and the old row's UPDATE reaches the database first, the
      partial unique index is satisfied before, between and after them. */
  lemma FlushOrderCannotViolateIndex(
    alerts: seq<Alert>, metric: Metric, until: int, at: int, value: real, thresholds: Thresholds, i: nat)
    requires thresholds.Valid()
    requires TimelineOk(alerts, Temperature, until) && TimelineOk(alerts, Humidity, until)
    requires FindOpen(alerts, metric) == Some(i) && !Continues(alerts[i].direction, value, thresholds)
    ensures OpenIndexHolds(alerts)
    ensures OpenIndexHolds(Start(alerts, metric, at, value, thresholds))
    ensures OpenIndexHolds(alerts[i := Resolve(alerts[i], at)])
    ensures OpenIndexHolds(EvaluateMetric(alerts, metric, at, value, thresholds))
  {
    OpenRowsDiffer(alerts, until);
    var inserted := Start(alerts, metric, at, value, thresholds);
    forall k, l | 0 <= k < l < |inserted| && inserted[k].status == Open && inserted[l].status == Open
      ensures inserted[k].metric != inserted[l].metric || inserted[k].direction != inserted[l].direction
    {
      if l == |alerts| && inserted[k].metric == metric {
        AtMostOneOpen(alerts, metric, until, i, k);
      }
    }
  }

  lemma OpenRowsDiffer(alerts: seq<Alert>, until: int)
    requires TimelineOk(alerts, Temperature, until) && TimelineOk(alerts, Humidity, until)
    ensures OpenIndexHolds(alerts)
  {
    forall i, j | 0 <= i < j < |alerts| && alerts[i].status == Open && alerts[j].status == Open
      ensures alerts[i].metric != alerts[j].metric
    {
      if alerts[i].metric == alerts[j].metric {
        AtMostOneOpen(alerts, alerts[i].metric, until, i, j);
      }
    }
  }

  // --- What an open alert means ---

  predicate Breaches(direction: Direction, value: real, thresholds: Thresholds) {
    if direction == Low then value < thresholds.lower else value > thresholds.upper
  }

  /** From observation `i` on, the metric breached the threshold and never recovered. */
  ghost predicate Episode(obs: seq<Observation>, metric: Metric, direction: Direction, thresholds: Thresholds, i: nat) {
    && i < |obs|
    && Breaches(direction, obs[i].Value(metric), thresholds)
    && forall j :: i <= j < |obs| ==> Continues(direction, obs[j].Value(metric), thresholds)
  }

  ghost predicate Unrecovered(obs: seq<Observation>, settings: Settings, metric: Metric, direction: Direction) {
    exists i: nat :: Episode(obs, metric, direction, settings.For(metric), i)
  }

  ghost predicate FirstEpisode(
    obs: seq<Observation>, metric: Metric, direction: Direction, thresholds: Thresholds, i: nat) {
    && Episode(obs, metric, direction, thresholds, i)
    && forall k: nat :: k < i ==> !Episode(obs, metric, direction, thresholds, k)
  }

  /** The open row is the one its earliest unrecovered breach would write. */
  ghost predicate ExplainsOpen(alerts: seq<Alert>, obs: seq<Observation>, metric: Metric, thresholds: Thresholds) {
    match FindOpen(alerts, metric)
    case None => forall direction, i: nat :: !Episode(obs, metric, direction, thresholds, i)
    case Some(k) =>
      exists i: nat :: FirstEpisode(obs, metric, alerts[k].direction, thresholds, i)
        && alerts[k] == NewAlert(metric, alerts[k].direction, obs[i].at, obs[i].Value(metric), thresholds)
                          .(lastDetectedAt := obs[|obs| - 1].at)
  }

  lemma EpisodeStep(obs: seq<Observation>, metric: Metric, direction: Direction, thresholds: Thresholds, i: nat)
    requires thresholds.Valid() && obs != []
    ensures var n := |obs| - 1;
            Episode(obs, metric, direction, thresholds, i) <==>
            (i < n && Episode(obs[..n], metric, direction, thresholds, i)
              && Continues(direction, obs[n].Value(metric), thresholds))
            || (i == n && Breaches(direction, obs[n].Value(metric), thresholds))
  {
    var n := |obs| - 1;
    if i < n && Episode(obs[..n], metric, direction, thresholds, i)
      && Continues(direction, obs[n].Value(metric), thresholds) {
      forall j | i <= j < |obs|
        ensures Continues(direction, obs[j].Value(metric), thresholds)
      {
        assert j < n ==> obs[..n][j] == obs[j];
      }
    }
    if i < n && Episode(obs, metric, direction, thresholds, i) {
      assert forall j :: 0 <= j < n ==> obs[..n][j] == obs[j];
    }
  }

  /** What one evaluation does to the open row of its metric. */
  predicate OpenStep(
    before: seq<Alert>, after: seq<Alert>, metric: Metric, at: int, value: real, thresholds: Thresholds) {
    var open := FindOpen(before, metric);
    var found := FindOpen(after, metric);
    if open.Some? && Continues(before[open.value].direction, value, thresholds) then
      found.Some? && after[found.value] == before[open.value].(lastDetectedAt := at)
    else if NewDirection(value, thresholds).Some? then
      && found.Some?
      && after[found.value] == NewAlert(metric, NewDirection(value, thresholds).value, at, value, thresholds)
    else
      found.None?
  }

  lemma {:induction false} OpenAfterEvaluation(
    alerts: seq<Alert>, metric: Metric, until: int, at: int, value: real, thresholds: Thresholds)
    requires TimelineOk(alerts, metric, until)
    ensures OpenStep(alerts, EvaluateMetric(alerts, metric, at, value, thresholds), metric, at, value, thresholds)
  {
    var before := FindOpen(alerts, metric);
    var after := EvaluateMetric(alerts, metric, at, value, thresholds);
    if before.Some? {
      var i := before.value;
      forall j | 0 <= j < |alerts| && IsOpen(alerts[j], metric)
        ensures j == i
      {
        AtMostOneOpen(alerts, metric, until, i, j);
      }
      if Continues(alerts[i].direction, value, thresholds) {
        OnlyOpen(after, metric, i);
      } else if NewDirection(value, thresholds).Some? {
        OnlyOpen(after, metric, |after| - 1);
      }
    } else if NewDirection(value, thresholds).Some? {
      OnlyOpen(after, metric, |after| - 1);
    }
  }

  lemma OnlyOpen(alerts: seq<Alert>, metric: Metric, i: nat)
    requires i < |alerts| && IsOpen(alerts[i], metric)
    requires forall j :: 0 <= j < |alerts| && IsOpen(alerts[j], metric) ==> j == i
    ensures FindOpen(alerts, metric) == Some(i)
  {
  }

  lemma {:induction false} OpenFramed(
    alerts: seq<Alert>, metric: Metric, at: int, value: real, thresholds: Thresholds, other: Metric, until: int)
    requires other != metric && TimelineOk(alerts, other, until)
    ensures var before := FindOpen(alerts, other);
            var after := EvaluateMetric(alerts, metric, at, value, thresholds);
            var found := FindOpen(after, other);
            found == before && (found.Some? ==> after[found.value] == alerts[before.value])
  {
    var before := FindOpen(alerts, other);
    var after := EvaluateMetric(alerts, metric, at, value, thresholds);
    if before.Some? {
      forall j | 0 <= j < |after| && IsOpen(after[j], other)
        ensures j == before.value
      {
        AtMostOneOpen(alerts, other, until, before.value, j);
      }
      OnlyOpen(after, other, before.value);
    }
  }

  lemma EpisodesContinue(obs: seq<Observation>, metric: Metric, direction: Direction, thresholds: Thresholds, i: nat)
    requires thresholds.Valid() && obs != []
    requires FirstEpisode(obs[..|obs| - 1], metric, direction, thresholds, i)
    requires Continues(direction, obs[|obs| - 1].Value(metric), thresholds)
    ensures FirstEpisode(obs, metric, direction, thresholds, i)
  {
    forall k: nat | k <= i
      ensures Episode(obs, metric, direction, thresholds, k) <==>
              Episode(obs[..|obs| - 1], metric, direction, thresholds, k)
    {
      EpisodeStep(obs, metric, direction, thresholds, k);
    }
  }

  /** If the open row does not continue, no earlier episode survives the newest value. */
  lemma EarlierEpisodesEnd(
    before: seq<Alert>, obs: seq<Observation>, metric: Metric, thresholds: Thresholds, direction: Direction, i: nat)
    requires thresholds.Valid() && obs != [] && i < |obs| - 1
    requires ExplainsOpen(before, obs[..|obs| - 1], metric, thresholds)
    requires var open := FindOpen(before, metric);
             open.Some? ==> !Continues(before[open.value].direction, obs[|obs| - 1].Value(metric), thresholds)
    ensures !Episode(obs, metric, direction, thresholds, i)
  {
    EpisodeStep(obs, metric, direction, thresholds, i);
    if Episode(obs[..|obs| - 1], metric, direction, thresholds, i) {
      OneDirection(before, obs[..|obs| - 1], metric, thresholds, direction, i);
    }
  }

  lemma ExplainsNext(
    before: seq<Alert>, after: seq<Alert>, obs: seq<Observation>, metric: Metric, thresholds: Thresholds)
    requires thresholds.Valid() && obs != []
    requires ExplainsOpen(before, obs[..|obs| - 1], metric, thresholds)
    requires OpenStep(before, after, metric, obs[|obs| - 1].at, obs[|obs| - 1].Value(metric), thresholds)
    ensures ExplainsOpen(after, obs, metric, thresholds)
  {
    var n := |obs| - 1;
    var v := obs[n].Value(metric);
    var open := FindOpen(before, metric);
    if open.Some? && Continues(before[open.value].direction, v, thresholds) {
      var direction := before[open.value].direction;
      var i: nat :| FirstEpisode(obs[..n], metric, direction, thresholds, i)
        && before[open.value] == NewAlert(metric, direction, obs[..n][i].at, obs[..n][i].Value(metric), thresholds)
                                   .(lastDetectedAt := obs[..n][n - 1].at);
      EpisodesContinue(obs, metric, direction, thresholds, i);
    } else {
      forall direction, i: nat | i < n
        ensures !Episode(obs, metric, direction, thresholds, i)
      {
        EarlierEpisodesEnd(before, obs, metric, thresholds, direction, i);
      }
      NewestEpisode(obs, metric, thresholds);
    }
  }

  lemma NewestEpisode(obs: seq<Observation>, metric: Metric, thresholds: Thresholds)
    requires thresholds.Valid() && obs != []
    ensures forall direction :: Episode(obs, metric, direction, thresholds, |obs| - 1)
              <==> NewDirection(obs[|obs| - 1].Value(metric), thresholds) == Some(direction)
  {
  }

  /** An unrecovered breach is always the open row's: the two directions cannot both persist. */
  lemma OneDirection(
    alerts: seq<Alert>, obs: seq<Observation>, metric: Metric, thresholds: Thresholds, direction: Direction, i: nat)
    requires thresholds.Valid() && ExplainsOpen(alerts, obs, metric, thresholds)
    requires Episode(obs, metric, direction, thresholds, i)
    ensures HasOpen(alerts, metric, direction)
  {
    assert Continues(direction, obs[|obs| - 1].Value(metric), thresholds);
    if FindOpen(alerts, metric).Some? {
      var open := alerts[FindOpen(alerts, metric).value].direction;
      var k: nat :| FirstEpisode(obs, metric, open, thresholds, k);
      assert Continues(open, obs[|obs| - 1].Value(metric), thresholds);
    }
  }

  lemma {:induction false} ReplayExplained(obs: seq<Observation>, settings: Settings, metric: Metric)
    requires settings.Valid() && StrictlyLater(obs)
    ensures ExplainsOpen(Replay(obs, settings), obs, metric, settings.For(metric))
  {
    if obs != [] {
      var n := |obs| - 1;
      var prior := Replay(obs[..n], settings);
      ReplayExplained(obs[..n], settings, metric);
      var until := if n > 0 then obs[n - 1].at else obs[n].at - 1;
      if n > 0 {
        ReplayKeepsTimelines(obs[..n], settings);
      }
      assert TimelineOk(prior, Temperature, until) && TimelineOk(prior, Humidity, until);
      var o := obs[n];
      var mid := EvaluateMetric(prior, Temperature, o.at, o.temperature, settings.temperature);
      EvaluateMetricKeepsTimeline(prior, Temperature, until, o.at, o.temperature, settings.temperature);
      EvaluateMetricFramesOther(prior, Temperature, o.at, o.temperature, settings.temperature, Humidity, until);
      if metric == Temperature {
        OpenAfterEvaluation(prior, Temperature, until, o.at, o.temperature, settings.temperature);
        OpenFramed(mid, Humidity, o.at, o.humidity, settings.humidity, Temperature, o.at);
      } else {
        OpenFramed(prior, Temperature, o.at, o.temperature, settings.temperature, Humidity, until);
        OpenAfterEvaluation(mid, Humidity, until, o.at, o.humidity, settings.humidity);
      }
      ExplainsNext(prior, Replay(obs, settings), obs, metric, settings.For(metric));
    }
  }

  /** A metric has an open alert in a direction exactly when some evaluated value breached that
      threshold and no value since reached the recovery level. */
  lemma OpenIffUnrecoveredBreach(obs: seq<Observation>, settings: Settings, metric: Metric, direction: Direction)
    requires settings.Valid() && StrictlyLater(obs)
    ensures HasOpen(Replay(obs, settings), metric, direction)
       <==> Unrecovered(obs, settings, metric, direction)
  {
    ReplayExplained(obs, settings, metric);
    forall i: nat | Episode(obs, metric, direction, settings.For(metric), i)
      ensures HasOpen(Replay(obs, settings), metric, direction)
    {
      OneDirection(Replay(obs, settings), obs, metric, settings.For(metric), direction, i);
    }
  }

  // --- The same in plain terms ---

  /** The table holds an open row of the metric and direction. */
  predicate OpenRow(alerts: seq<Alert>, metric: Metric, direction: Direction, k: nat) {
    && k < |alerts| && alerts[k].metric == metric && alerts[k].direction == direction && alerts[k].status == Open
  }

  function TemperaturesOf(obs: seq<Observation>): (values: seq<real>)
    ensures |values| == |obs| && forall i :: 0 <= i < |obs| ==> values[i] == obs[i].temperature
  {
    seq(|obs|, i requires 0 <= i < |obs| => obs[i].temperature)
  }

  function HumiditiesOf(obs: seq<Observation>): (values: seq<real>)
    ensures |values| == |obs| && forall i :: 0 <= i < |obs| ==> values[i] == obs[i].humidity
  {
    seq(|obs|, i requires 0 <= i < |obs| => obs[i].humidity)
  }

  /** From value `i` on: below the lower threshold, and never again up by the hysteresis. */
  predicate LowSince(values: seq<real>, lower: real, hysteresis: real, i: nat) {
    i < |values| && values[i] < lower && forall j :: i <= j < |values| ==> values[j] < lower + hysteresis
  }

  /** From value `i` on: above the upper threshold, and never again down by the hysteresis. */
  predicate HighSince(values: seq<real>, upper: real, hysteresis: real, i: nat) {
    i < |values| && values[i] > upper && forall j :: i <= j < |values| ==> values[j] > upper - hysteresis
  }

  /** When an alert of one metric is open, by its values and thresholds alone. */
  ghost predicate OpenInPlainTerms(alerts: seq<Alert>, metric: Metric, values: seq<real>, th: Thresholds) {
    && ((exists k: nat :: OpenRow(alerts, metric, Low, k)) <==>
          exists i: nat :: LowSince(values, th.lower, th.hysteresis, i))
    && ((exists k: nat :: OpenRow(alerts, metric, High, k)) <==>
          exists i: nat :: HighSince(values, th.upper, th.hysteresis, i))
  }

  lemma {:induction false} OpenRowIsFound(
    obs: seq<Observation>, settings: Settings, metric: Metric, direction: Direction)
    requires settings.Valid() && StrictlyLater(obs)
    ensures HasOpen(Replay(obs, settings), metric, direction)
       <==> exists k: nat :: OpenRow(Replay(obs, settings), metric, direction, k)
  {
    var alerts := Replay(obs, settings);
    var open := FindOpen(alerts, metric);
    if HasOpen(alerts, metric, direction) {
      assert OpenRow(alerts, metric, direction, open.value);
    }
    if k: nat :| OpenRow(alerts, metric, direction, k) {
      ReplayKeepsTimelines(obs, settings);
      assert IsOpen(alerts[k], metric);
      AtMostOneOpen(alerts, metric, obs[|obs| - 1].at, k, open.value);
    }
  }

  lemma {:induction false} EpisodesInPlainTerms(
    obs: seq<Observation>, settings: Settings, metric: Metric, values: seq<real>)
    requires |values| == |obs| && forall i :: 0 <= i < |obs| ==> values[i] == obs[i].Value(metric)
    ensures var th := settings.For(metric);
            && (Unrecovered(obs, settings, metric, Low) <==>
                  exists i: nat :: LowSince(values, th.lower, th.hysteresis, i))
            && (Unrecovered(obs, settings, metric, High) <==>
                  exists i: nat :: HighSince(values, th.upper, th.hysteresis, i))
  {
    var th := settings.For(metric);
    forall i: nat
      ensures Episode(obs, metric, Low, th, i) <==> LowSince(values, th.lower, th.hysteresis, i)
      ensures Episode(obs, metric, High, th, i) <==> HighSince(values, th.upper, th.hysteresis, i)
    {
    }
  }

  /** A LOW alert of the temperature is open exactly when some evaluated temperature was below the
      lower threshold and none since reached that threshold plus the hysteresis; a HIGH one and those
      of the humidity likewise. */
  lemma {:induction false} AlertsInPlainTerms(obs: seq<Observation>, settings: Settings)
    requires settings.Valid() && StrictlyLater(obs)
    ensures OpenInPlainTerms(Replay(obs, settings), Temperature, TemperaturesOf(obs), settings.temperature)
    ensures OpenInPlainTerms(Replay(obs, settings), Humidity, HumiditiesOf(obs), settings.humidity)
  {
    MetricInPlainTerms(obs, settings, Temperature, TemperaturesOf(obs));
    MetricInPlainTerms(obs, settings, Humidity, HumiditiesOf(obs));
  }

  lemma {:induction false} MetricInPlainTerms(
    obs: seq<Observation>, settings: Settings, metric: Metric, values: seq<real>)
    requires settings.Valid() && StrictlyLater(obs)
    requires |values| == |obs| && forall i :: 0 <= i < |obs| ==> values[i] == obs[i].Value(metric)
    ensures OpenInPlainTerms(Replay(obs, settings), metric, values, settings.For(metric))
  {
    EpisodesInPlainTerms(obs, settings, metric, values);
    OpenRowIsFound(obs, settings, metric, Low);
    OpenRowIsFound(obs, settings, metric, High);
    OpenIffUnrecoveredBreach(obs, settings, metric, Low);
    OpenIffUnrecoveredBreach(obs, settings, metric, High);
  }

  /** What an open row says: the threshold that was crossed, the value that crossed it and the
      hysteresis, each in column precision, since when, and when it was last evaluated. */
  ghost predicate RowSays(a: Alert, value: real, th: Thresholds, startedAt: int, evaluatedAt: int) {
    && RoundsTo(if a.direction == Low then th.lower else th.upper, a.thresholdValue)
    && RoundsTo(value, a.triggerValue) && RoundsTo(th.hysteresis, a.hysteresis)
    && a.startedAt == startedAt && a.lastDetectedAt == evaluatedAt && a.resolvedAt.None?
  }

  /** The values since the breach that an open row stands for. */
  ghost predicate Explains(a: Alert, values: seq<real>, th: Thresholds, i: nat) {
    if a.direction == Low then LowSince(values, th.lower, th.hysteresis, i)
      else HighSince(values, th.upper, th.hysteresis, i)
  }

  /** An open row stands for the earliest breach from which its metric has not recovered. */
  ghost predicate SaysItsBreach(a: Alert, obs: seq<Observation>, values: seq<real>, th: Thresholds, i: nat) {
    && |values| == |obs| && Explains(a, values, th, i) && (forall k: nat :: k < i ==> !Explains(a, values, th, k))
    && RowSays(a, values[i], th, obs[i].at, obs[|obs| - 1].at)
  }

  lemma {:induction false} EpisodesExplain(
    obs: seq<Observation>, metric: Metric, values: seq<real>, th: Thresholds, a: Alert)
    requires |values| == |obs| && forall j :: 0 <= j < |obs| ==> values[j] == obs[j].Value(metric)
    ensures forall j: nat :: Episode(obs, metric, a.direction, th, j) <==> Explains(a, values, th, j)
  {
    forall j: nat
      ensures Episode(obs, metric, a.direction, th, j) <==> Explains(a, values, th, j)
    {
    }
  }

  lemma NewAlertSays(
    metric: Metric, direction: Direction, startedAt: int, value: real, th: Thresholds, evaluatedAt: int)
    ensures RowSays(NewAlert(metric, direction, startedAt, value, th).(lastDetectedAt := evaluatedAt),
                    value, th, startedAt, evaluatedAt)
  {
    Numeric2Rounds(if direction == Low then th.lower else th.upper);
    Numeric2Rounds(value);
    Numeric2Rounds(th.hysteresis);
  }

  /** The row is the one that the breach at `i` wrote, and `i` is the earliest not recovered from. */
  ghost predicate WrittenAt(a: Alert, obs: seq<Observation>, metric: Metric, th: Thresholds, i: nat) {
    && FirstEpisode(obs, metric, a.direction, th, i)
    && a == NewAlert(metric, a.direction, obs[i].at, obs[i].Value(metric), th)
              .(lastDetectedAt := obs[|obs| - 1].at)
  }

  lemma {:induction false} WrittenRowSaysItsBreach(
    a: Alert, obs: seq<Observation>, metric: Metric, values: seq<real>, th: Thresholds, i: nat)
    requires |values| == |obs| && forall j :: 0 <= j < |obs| ==> values[j] == obs[j].Value(metric)
    requires WrittenAt(a, obs, metric, th, i)
    ensures SaysItsBreach(a, obs, values, th, i)
  {
    EpisodesExplain(obs, metric, values, th, a);
    NewAlertSays(metric, a.direction, obs[i].at, values[i], th, obs[|obs| - 1].at);
  }

  lemma ExplainedRowIsWritten(
    alerts: seq<Alert>, obs: seq<Observation>, metric: Metric, th: Thresholds, k: nat) returns (i: nat)
    requires FindOpen(alerts, metric) == Some(k) && ExplainsOpen(alerts, obs, metric, th)
    ensures WrittenAt(alerts[k], obs, metric, th, i)
  {
    i :| FirstEpisode(obs, metric, alerts[k].direction, th, i)
         && alerts[k] == NewAlert(metric, alerts[k].direction, obs[i].at, obs[i].Value(metric), th)
                           .(lastDetectedAt := obs[|obs| - 1].at);
  }

  lemma {:induction false} OpenRowIsTheFoundOne(alerts: seq<Alert>, metric: Metric, until: int, k: nat)
    requires TimelineOk(alerts, metric, until)
    requires k < |alerts| && IsOpen(alerts[k], metric)
    ensures FindOpen(alerts, metric) == Some(k)
  {
    AtMostOneOpen(alerts, metric, until, k, FindOpen(alerts, metric).value);
  }

  lemma {:induction false} OpenRowSaysItsBreach(
    obs: seq<Observation>, settings: Settings, metric: Metric, values: seq<real>, k: nat) returns (i: nat)
    requires settings.Valid() && StrictlyLater(obs)
    requires |values| == |obs| && forall j :: 0 <= j < |obs| ==> values[j] == obs[j].Value(metric)
    requires k < |Replay(obs, settings)| && IsOpen(Replay(obs, settings)[k], metric)
    ensures SaysItsBreach(Replay(obs, settings)[k], obs, values, settings.For(metric), i)
  {
    var alerts := Replay(obs, settings);
    ReplayExplained(obs, settings, metric);
    ReplayKeepsTimelines(obs, settings);
    OpenRowIsTheFoundOne(alerts, metric, obs[|obs| - 1].at, k);
    i := ExplainedRowIsWritten(alerts, obs, metric, settings.For(metric), k);
    WrittenRowSaysItsBreach(alerts[k], obs, metric, values, settings.For(metric), i);
  }

  /** Each open row of either metric stands for the earliest breach not recovered from, and says its
      threshold, value, hysteresis and times. */
  lemma {:induction false} OpenRowsInPlainTerms(obs: seq<Observation>, settings: Settings, k: nat) returns (i: nat)
    requires settings.Valid() && StrictlyLater(obs)
    requires k < |Replay(obs, settings)| && Replay(obs, settings)[k].status == Open
    ensures var a := Replay(obs, settings)[k];
            && (a.metric == Temperature ==> SaysItsBreach(a, obs, TemperaturesOf(obs), settings.temperature, i))
            && (a.metric == Humidity ==> SaysItsBreach(a, obs, HumiditiesOf(obs), settings.humidity, i))
  {
    if Replay(obs, settings)[k].metric == Temperature {
      i := OpenRowSaysItsBreach(obs, settings, Temperature, TemperaturesOf(obs), k);
    } else {
      i := OpenRowSaysItsBreach(obs, settings, Humidity, HumiditiesOf(obs), k);
    }
  }

  // --- The service over the session's rows ---

  class AlertService {
    const settings: Settings
    var alerts: seq<Alert>

    constructor (settings: Settings, alerts: seq<Alert>)
      ensures this.settings == settings && this.alerts == alerts
    {
      this.settings := settings;
      this.alerts := alerts;
    }

    method FindOpenRow(metric: Metric) returns (found: Option<nat>)
      ensures found == FindOpen(alerts, metric)
    {
      var n := |alerts|;
      assert alerts[..n] == alerts;
      while n > 0
        invariant 0 <= n <= |alerts|
        invariant FindOpen(alerts, metric) == FindOpen(alerts[..n], metric)
      {
        assert alerts[..n][..n - 1] == alerts[..n - 1];
        if IsOpen(alerts[n - 1], metric) {
          return Some(n - 1);
        }
        n := n - 1;
      }
      return None;
    }

    method EvaluateOne(metric: Metric, at: int, value: real, thresholds: Thresholds)
      modifies this`alerts
      ensures alerts == EvaluateMetric(old(alerts), metric, at, value, thresholds)
    {
      var current := FindOpenRow(metric);
      if current.Some? {
        var i := current.value;
        if Continues(alerts[i].direction, value, thresholds) {
          alerts := alerts[i := alerts[i].(lastDetectedAt := at)];
          return;
        }
        alerts := alerts[i := alerts[i].(status := Resolved, resolvedAt := Some(at))];
      }
      var direction := NewDirection(value, thresholds);
      if direction.None? {
        return;
      }
      var threshold := if direction.value == Low then thresholds.lower else thresholds.upper;
      alerts := alerts + [Alert(metric, direction.value, Open, Numeric2(threshold), Numeric2(value),
                                Numeric2(thresholds.hysteresis), at, at, None)];
    }

    method EvaluateBoth(at: int, temperature: real, humidity: real)
      modifies this`alerts
      ensures alerts == Evaluate(old(alerts), Observation(at, temperature, humidity), settings)
    {
      EvaluateOne(Temperature, at, temperature, settings.temperature);
      EvaluateOne(Humidity, at, humidity, settings.humidity);
    }
  }
}
