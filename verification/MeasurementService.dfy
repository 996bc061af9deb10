/** app/services/measurement_service.py: idempotent acceptance of one measurement, and what the
    database of one device means after any sequence of acceptances. */
module Acceptance {
  import opened Wrappers
  import opened Alerting
  import opened Common
  import opened Decimals

  /** A validated request; its values are as the device sent them. */
  datatype Request = Request(messageId: MessageId, deviceId: string, measuredAt: int, temperature: real,
    humidity: real) {
    function Observed(): Observation {
      Observation(measuredAt, temperature, humidity)
    }
  }

  datatype Row = Row(messageId: MessageId, measuredAt: int, temperature: real, humidity: real)

  function Stored(r: Request): Row {
    Row(r.messageId, r.measuredAt, Numeric2(r.temperature), Numeric2(r.humidity))
  }

  /** A row keeps a measurement: its id and time, and each value in column precision. */
  ghost predicate Keeps(row: Row, messageId: MessageId, measuredAt: int, temperature: real, humidity: real) {
    && row.messageId == messageId && row.measuredAt == measuredAt
    && RoundsTo(temperature, row.temperature) && RoundsTo(humidity, row.humidity)
  }

  ghost predicate KeepsRequest(row: Row, r: Request) {
    Keeps(row, r.messageId, r.measuredAt, r.temperature, r.humidity)
  }

  lemma StoredKeeps(r: Request)
    ensures KeepsRequest(Stored(r), r)
  {
    Numeric2Rounds(r.temperature);
    Numeric2Rounds(r.humidity);
  }

  /** The rows after a measurement was stored: those before, and one that keeps it. */
  ghost predicate AddsRow(before: seq<Row>, after: seq<Row>, r: Request) {
    |after| == |before| + 1 && after[..|before|] == before && KeepsRequest(after[|before|], r)
  }

  /** Everything the database holds about one registered device. */
  datatype DeviceData = DeviceData(lastEvaluatedAt: Option<int>, rows: seq<Row>, alerts: seq<Alert>)

  const NEW_DEVICE := DeviceData(None, [], [])

  type Database = map<string, DeviceData>

  datatype AcceptanceResult = Created | AlreadyAccepted

  datatype ServiceError = DatabaseUnavailable | MeasurementPersistence

  /** How the database connection may fail during one call: at the lock or the lookup, at a later
      statement, or during COMMIT, which may or may not have made the transaction durable. */
  datatype Fault = NoFault | LostBeforeLookup | LostBeforeCommit | LostDuringCommit(durable: bool)

  predicate Known(d: DeviceData, id: MessageId) {
    exists i :: 0 <= i < |d.rows| && d.rows[i].messageId == id
  }

  predicate MustEvaluate(d: DeviceData, measuredAt: int) {
    d.lastEvaluatedAt.None? || measuredAt > d.lastEvaluatedAt.value
  }

  /** The alert that the request would open violates the CHECK of its table. */
  predicate Refused(d: DeviceData, r: Request, settings: Settings) {
    && !Known(d, r.messageId) && MustEvaluate(d, r.measuredAt)
    && !InsertsHold(d.alerts, Evaluate(d.alerts, r.Observed(), settings))
  }

  /** The committed effect of one acceptance on its device. */
  function Accepted(d: DeviceData, r: Request, settings: Settings): DeviceData {
    if Known(d, r.messageId) || Refused(d, r, settings) then d
    else
      var stored := d.(rows := d.rows + [Stored(r)]);
      if MustEvaluate(d, r.measuredAt) then
        stored.(alerts := Evaluate(d.alerts, r.Observed(), settings), lastEvaluatedAt := Some(r.measuredAt))
      else stored
  }

  // --- The service ---

  class MeasurementService {
    const settings: Settings
    var database: Database

    constructor (settings: Settings, database: Database)
      ensures this.settings == settings && this.database == database
    {
      this.settings := settings;
      this.database := database;
    }

    method FindByMessageId(device: DeviceData, id: MessageId) returns (found: bool)
      ensures found <==> Known(device, id)
    {
      found := false;
      var i := 0;
      while i < |device.rows|
        invariant 0 <= i <= |device.rows|
        invariant !found ==> forall k :: 0 <= k < i ==> device.rows[k].messageId != id
        invariant found ==> Known(device, id)
      {
        if device.rows[i].messageId == id {
          found := true;
        }
        i := i + 1;
      }
    }

    /** One transaction: lock and read the device, look the message up, add the row, evaluate
        only what is newer than everything evaluated, commit. */
    method Accept(request: Request, fault: Fault) returns (result: Result<AcceptanceResult, ServiceError>)
      modifies this`database
      ensures result == Success(Created) ==>
                && request.deviceId in old(database) && request.deviceId in database
                && AddsRow(old(database)[request.deviceId].rows, database[request.deviceId].rows, request)
      ensures fault == LostBeforeLookup ==> result == Failure(DatabaseUnavailable) && database == old(database)
      ensures fault != LostBeforeLookup && request.deviceId !in old(database) ==>
                result == Failure(MeasurementPersistence) && database == old(database)
      ensures fault != LostBeforeLookup && request.deviceId in old(database) ==>
                var before := old(database)[request.deviceId];
                var committed := old(database)[request.deviceId := Accepted(before, request, settings)];
                if Known(before, request.messageId) then
                  result == Success(AlreadyAccepted) && database == old(database)
                else if fault != LostBeforeCommit && Refused(before, request, settings) then
                  result == Failure(MeasurementPersistence) && database == old(database)
                else
                  match fault
                  case NoFault => result == Success(Created) && database == committed
                  case LostBeforeLookup => true
                  case LostBeforeCommit => result == Failure(DatabaseUnavailable) && database == old(database)
                  case LostDuringCommit(durable) =>
                    result == Failure(DatabaseUnavailable) && database == if durable then committed else old(database)
    {
      if fault == LostBeforeLookup {
        return Failure(DatabaseUnavailable);
      }
      if request.deviceId !in database {
        return Failure(MeasurementPersistence);
      }
      var device := database[request.deviceId];
      var existing := FindByMessageId(device, request.messageId);
      if existing {
        return Success(AlreadyAccepted);
      }
      var rows := device.rows + [
        Row(request.messageId, request.measuredAt, Numeric2(request.temperature), Numeric2(request.humidity))];
      var lastEvaluatedAt := device.lastEvaluatedAt;
      var alertService := new AlertService(settings, device.alerts);
      if device.lastEvaluatedAt.None? || request.measuredAt > device.lastEvaluatedAt.value {
        alertService.EvaluateBoth(request.measuredAt, request.temperature, request.humidity);
        lastEvaluatedAt := Some(request.measuredAt);
      }
      if fault == LostBeforeCommit {
        return Failure(DatabaseUnavailable);
      }
      if !InsertsHold(device.alerts, alertService.alerts) {
        return Failure(MeasurementPersistence);
      }
      if fault == LostDuringCommit(false) {
        return Failure(DatabaseUnavailable);
      }
      StoredKeeps(request);
      database := database[request.deviceId := DeviceData(lastEvaluatedAt, rows, alertService.alerts)];
      if fault == LostDuringCommit(true) {
        return Failure(DatabaseUnavailable);
      }
      return Success(Created);
    }
  }

  // --- Sequences of acceptances ---

  function AcceptAll(d: DeviceData, requests: seq<Request>, settings: Settings): DeviceData {
    if requests == [] then d
    else Accepted(AcceptAll(d, requests[..|requests| - 1], settings), requests[|requests| - 1], settings)
  }

  /** The requests that were the first to carry their message id. */
  function FirstArrivals(requests: seq<Request>): seq<Request> {
    if requests == [] then []
    else
      var rest := FirstArrivals(requests[..|requests| - 1]);
      var r := requests[|requests| - 1];
      if exists q :: q in rest && q.messageId == r.messageId then rest else rest + [r]
  }

  /** The requests whose row was stored: first arrivals that the alert table did not refuse. */
  function Taken(requests: seq<Request>, settings: Settings): seq<Request> {
    if requests == [] then []
    else
      var before := requests[..|requests| - 1];
      var d := AcceptAll(NEW_DEVICE, before, settings);
      var r := requests[|requests| - 1];
      if Known(d, r.messageId) || Refused(d, r, settings) then Taken(before, settings)
        else Taken(before, settings) + [r]
  }

  /** The requests measured strictly later than every request before them. */
  function RunningMaxima(requests: seq<Request>): seq<Request> {
    if requests == [] then []
    else
      var rest := RunningMaxima(requests[..|requests| - 1]);
      var r := requests[|requests| - 1];
      if rest == [] || r.measuredAt > rest[|rest| - 1].measuredAt then rest + [r] else rest
  }

  function Observations(requests: seq<Request>): (obs: seq<Observation>)
    ensures |obs| == |requests|
    ensures forall i :: 0 <= i < |obs| ==> obs[i] == requests[i].Observed()
  {
    seq(|requests|, i requires 0 <= i < |requests| => requests[i].Observed())
  }

  function StoredRows(requests: seq<Request>): (rows: seq<Row>)
    ensures |rows| == |requests|
    ensures forall i :: 0 <= i < |rows| ==> rows[i] == Stored(requests[i])
  {
    seq(|requests|, i requires 0 <= i < |requests| => Stored(requests[i]))
  }

  predicate IsLatest(at: Option<int>, requests: seq<Request>) {
    && (requests == [] <==> at.None?)
    && (at.Some? ==> exists r :: r in requests && r.measuredAt == at.value)
    && (at.Some? ==> forall r :: r in requests ==> r.measuredAt <= at.value)
  }

  function LastMaximum(requests: seq<Request>): Option<int> {
    var m := RunningMaxima(requests);
    if m == [] then None else Some(m[|m| - 1].measuredAt)
  }

  lemma {:induction false} MaximaAreStrictlyLater(requests: seq<Request>)
    ensures StrictlyLater(Observations(RunningMaxima(requests)))
  {
    if requests != [] {
      var n := |requests| - 1;
      MaximaAreStrictlyLater(requests[..n]);
      var m := RunningMaxima(requests[..n]);
      if m == [] || requests[n].measuredAt > m[|m| - 1].measuredAt {
        LaterAppend(m, requests[n]);
      }
    }
  }

  lemma {:induction false} LastMaximumIsLatest(requests: seq<Request>)
    ensures IsLatest(LastMaximum(requests), requests)
  {
    if requests != [] {
      var n := |requests| - 1;
      LastMaximumIsLatest(requests[..n]);
      assert requests == requests[..n] + [requests[n]];
      LatestAppend(LastMaximum(requests[..n]), requests[..n], requests[n]);
    }
  }

  lemma LaterAppend(m: seq<Request>, r: Request)
    requires StrictlyLater(Observations(m))
    requires m == [] || r.measuredAt > m[|m| - 1].measuredAt
    ensures StrictlyLater(Observations(m + [r]))
  {
    var obs := Observations(m);
    var longer := Observations(m + [r]);
    forall i, j | 0 <= i < j < |longer|
      ensures longer[i].at < longer[j].at
    {
      if j == |m| {
        assert i < |m| - 1 ==> obs[i].at < obs[|m| - 1].at;
      } else {
        assert obs[i].at < obs[j].at;
      }
    }
  }

  lemma ObservationsAppend(requests: seq<Request>, r: Request)
    ensures Observations(requests + [r])[..|requests|] == Observations(requests)
    ensures Observations(requests + [r])[|requests|] == r.Observed()
  {
  }

  lemma ReplayAppend(requests: seq<Request>, r: Request, settings: Settings)
    ensures Replay(Observations(requests + [r]), settings)
            == Evaluate(Replay(Observations(requests), settings), r.Observed(), settings)
  {
    ObservationsAppend(requests, r);
  }

  ghost predicate Means(d: DeviceData, stored: seq<Request>, settings: Settings) {
    && d.rows == StoredRows(stored)
    && IsLatest(d.lastEvaluatedAt, stored)
    && d.alerts == Replay(Observations(RunningMaxima(stored)), settings)
  }

  /** After any sequence of acceptances: the rows are the requests taken, the last evaluated time
      is the latest stored measurement time, and the alerts are the automaton run over the strict
      running maxima alone. */
  lemma {:induction false} AcceptAllMeaning(requests: seq<Request>, settings: Settings)
    ensures Means(AcceptAll(NEW_DEVICE, requests, settings), Taken(requests, settings), settings)
  {
    if requests == [] {
      assert Observations([]) == [];
    } else {
      var n := |requests| - 1;
      AcceptAllMeaning(requests[..n], settings);
      var d := AcceptAll(NEW_DEVICE, requests[..n], settings);
      if !Known(d, requests[n].messageId) && !Refused(d, requests[n], settings) {
        NewArrival(d, Taken(requests[..n], settings), requests[n], settings);
      }
    }
  }

  /** In particular each stored row keeps the request it was taken from. */
  lemma {:induction false} RowsKeepRequests(requests: seq<Request>, settings: Settings)
    ensures var rows := AcceptAll(NEW_DEVICE, requests, settings).rows;
            var taken := Taken(requests, settings);
            |rows| == |taken| && forall i :: 0 <= i < |rows| ==> KeepsRequest(rows[i], taken[i])
  {
    AcceptAllMeaning(requests, settings);
    var taken := Taken(requests, settings);
    forall i | 0 <= i < |taken|
      ensures KeepsRequest(StoredRows(taken)[i], taken[i])
    {
      StoredKeeps(taken[i]);
    }
  }

  /** With settings that can be stored, the requests taken are exactly the first arrivals. */
  lemma {:induction false} FirstArrivalsAreTaken(requests: seq<Request>, settings: Settings)
    requires settings.Storable()
    ensures Taken(requests, settings) == FirstArrivals(requests)
  {
    if requests != [] {
      var n := |requests| - 1;
      FirstArrivalsAreTaken(requests[..n], settings);
      AcceptAllMeaning(requests[..n], settings);
      var d := AcceptAll(NEW_DEVICE, requests[..n], settings);
      KnownIffArrived(d, Taken(requests[..n], settings), requests[n].messageId);
      InsertsHoldExactly(d.alerts, requests[n].Observed(), settings);
    }
  }

  /** What the request schema lets through. */
  predicate Receivable(r: Request) {
    -40.0 <= r.temperature <= 85.0 && 0.0 <= r.humidity <= 100.0
  }

  /** Some value of the range lies beyond a threshold. */
  predicate CanBreach(th: Thresholds, least: real, greatest: real) {
    least < th.lower || th.upper < greatest
  }

  function BreachOf(th: Thresholds, least: real, greatest: real): real {
    if least < th.lower then least else greatest
  }

  /** A breaching first measurement of the metric whose hysteresis rounds to zero. */
  function Breach(settings: Settings, metric: Metric): Request {
    if metric == Temperature then Request("", "", 0, BreachOf(settings.temperature, -40.0, 85.0), 50.0)
    else Request("", "", 0, 20.0, BreachOf(settings.humidity, 0.0, 100.0))
  }

  /** A measurement that passes the request schema can be refused by the CHECK, however often it is
      sent, exactly when a hysteresis is below half a hundredth and its thresholds leave room for a
      breach; the settings admit that. */
  lemma {:induction false} RefusalExactly(settings: Settings)
    requires settings.Valid()
    ensures (exists d, r :: Receivable(r) && Refused(d, r, settings)) <==>
            || (settings.temperature.hysteresis < 0.005 && CanBreach(settings.temperature, -40.0, 85.0))
            || (settings.humidity.hysteresis < 0.005 && CanBreach(settings.humidity, 0.0, 100.0))
  {
    StorableExactly(settings.temperature);
    StorableExactly(settings.humidity);
    if d: DeviceData, r: Request :| Receivable(r) && Refused(d, r, settings) {
      InsertsHoldExactly(d.alerts, r.Observed(), settings);
      if NewDirection(r.temperature, settings.temperature).Some? {
        BreachNeedsRoom(r.temperature, settings.temperature, -40.0, 85.0);
      }
      if NewDirection(r.humidity, settings.humidity).Some? {
        BreachNeedsRoom(r.humidity, settings.humidity, 0.0, 100.0);
      }
    }
    if !settings.temperature.Storable() && CanBreach(settings.temperature, -40.0, 85.0) {
      BreachIsRefused(settings, Temperature);
    } else if !settings.humidity.Storable() && CanBreach(settings.humidity, 0.0, 100.0) {
      BreachIsRefused(settings, Humidity);
    }
  }

  lemma BreachNeedsRoom(v: real, th: Thresholds, least: real, greatest: real)
    requires least <= v <= greatest && NewDirection(v, th).Some?
    ensures CanBreach(th, least, greatest)
  {
  }

  lemma StorableExactly(thresholds: Thresholds)
    requires thresholds.hysteresis > 0.0
    ensures thresholds.Storable() <==> thresholds.hysteresis >= 0.005
  {
    StoredBelowExactly(thresholds.hysteresis, 1);
  }

  lemma {:induction false} BreachIsRefused(settings: Settings, metric: Metric)
    requires settings.Valid() && !settings.For(metric).Storable()
    requires metric == Temperature ==> CanBreach(settings.temperature, -40.0, 85.0)
    requires metric == Humidity ==> CanBreach(settings.humidity, 0.0, 100.0)
    ensures Receivable(Breach(settings, metric)) && Refused(NEW_DEVICE, Breach(settings, metric), settings)
  {
    var r := Breach(settings, metric);
    InsertsHoldExactly([], r.Observed(), settings);
    var mid := EvaluateMetric([], Temperature, 0, r.temperature, settings.temperature);
    assert FindOpen(mid, Humidity).None?;
  }

  lemma MaximaAppend(stored: seq<Request>, r: Request)
    ensures RunningMaxima(stored + [r])
         == if LastMaximum(stored).None? || r.measuredAt > LastMaximum(stored).value then RunningMaxima(stored) + [r]
           else RunningMaxima(stored)
  {
    assert (stored + [r])[..|stored|] == stored;
  }

  lemma {:induction false} NewArrival(d: DeviceData, stored: seq<Request>, r: Request, settings: Settings)
    requires Means(d, stored, settings) && !Known(d, r.messageId) && !Refused(d, r, settings)
    ensures Means(Accepted(d, r, settings), stored + [r], settings)
  {
    LatestIsLastMaximum(d.lastEvaluatedAt, stored);
    LatestAppend(d.lastEvaluatedAt, stored, r);
    MaximaAppend(stored, r);
    assert StoredRows(stored + [r]) == StoredRows(stored) + [Stored(r)];
    if MustEvaluate(d, r.measuredAt) {
      ReplayAppend(RunningMaxima(stored), r, settings);
    }
  }

  lemma KnownIffArrived(d: DeviceData, arrived: seq<Request>, id: MessageId)
    requires d.rows == StoredRows(arrived)
    ensures Known(d, id) <==> exists q :: q in arrived && q.messageId == id
  {
    if Known(d, id) {
      var i :| 0 <= i < |d.rows| && d.rows[i].messageId == id;
      assert arrived[i] in arrived && arrived[i].messageId == id;
    }
    forall q | q in arrived && q.messageId == id
      ensures Known(d, id)
    {
      var i :| 0 <= i < |arrived| && arrived[i] == q;
      assert d.rows[i].messageId == id;
    }
  }

  lemma LatestIsLastMaximum(at: Option<int>, requests: seq<Request>)
    requires IsLatest(at, requests)
    ensures at == LastMaximum(requests)
  {
    LastMaximumIsLatest(requests);
  }

  lemma LatestAppend(at: Option<int>, requests: seq<Request>, r: Request)
    requires IsLatest(at, requests)
    ensures IsLatest(if at.None? || r.measuredAt > at.value then Some(r.measuredAt) else at, requests + [r])
  {
    assert r in requests + [r];
    if at.Some? && r.measuredAt <= at.value {
      var q :| q in requests && q.measuredAt == at.value;
      assert q in requests + [r];
    }
  }

  /** An open alert after any sequence of acceptances: some running maximum breached the
      threshold and every running maximum since stayed short of recovery. */
  lemma OpenAfterAcceptances(requests: seq<Request>, settings: Settings, metric: Metric, direction: Direction)
    requires settings.Valid()
    ensures HasOpen(AcceptAll(NEW_DEVICE, requests, settings).alerts, metric, direction)
       <==> Unrecovered(Evaluations(requests, settings), settings, metric, direction)
  {
    AcceptAllMeaning(requests, settings);
    MaximaAreStrictlyLater(Taken(requests, settings));
    OpenIffUnrecoveredBreach(Evaluations(requests, settings), settings, metric, direction);
  }

  /** A running maximum is a request measured strictly later than every one taken before it. */
  lemma {:induction false} RunningMaximaExactly(requests: seq<Request>, r: Request)
    ensures RunningMaxima(requests + [r])
         == if forall q :: q in requests ==> q.measuredAt < r.measuredAt then RunningMaxima(requests) + [r]
            else RunningMaxima(requests)
  {
    MaximaAppend(requests, r);
    LastMaximumIsLatest(requests);
  }

  function TemperaturesAt(requests: seq<Request>): (values: seq<real>)
    ensures |values| == |requests| && forall i :: 0 <= i < |requests| ==> values[i] == requests[i].temperature
  {
    seq(|requests|, i requires 0 <= i < |requests| => requests[i].temperature)
  }

  function HumiditiesAt(requests: seq<Request>): (values: seq<real>)
    ensures |values| == |requests| && forall i :: 0 <= i < |requests| ==> values[i] == requests[i].humidity
  {
    seq(|requests|, i requires 0 <= i < |requests| => requests[i].humidity)
  }

  /** The open alerts after any sequence of acceptances, by the temperatures and humidities of the
      running maxima and the thresholds alone. */
  lemma {:induction false} AlertsAfterAcceptances(requests: seq<Request>, settings: Settings)
    requires settings.Valid()
    ensures var alerts := AcceptAll(NEW_DEVICE, requests, settings).alerts;
            var maxima := RunningMaxima(Taken(requests, settings));
            && OpenInPlainTerms(alerts, Temperature, TemperaturesAt(maxima), settings.temperature)
            && OpenInPlainTerms(alerts, Humidity, HumiditiesAt(maxima), settings.humidity)
  {
    var maxima := RunningMaxima(Taken(requests, settings));
    AcceptAllMeaning(requests, settings);
    MaximaAreStrictlyLater(Taken(requests, settings));
    AlertsInPlainTerms(Observations(maxima), settings);
    assert TemperaturesOf(Observations(maxima)) == TemperaturesAt(maxima);
    assert HumiditiesOf(Observations(maxima)) == HumiditiesAt(maxima);
  }

  /** The observations the automaton really saw. */
  function Evaluations(requests: seq<Request>, settings: Settings): seq<Observation> {
    Observations(RunningMaxima(Taken(requests, settings)))
  }

  /** After any sequence of acceptances each metric's alerts form one timeline. */
  lemma {:induction false} TimelinesAfterAcceptances(requests: seq<Request>, settings: Settings, metric: Metric)
    requires settings.Valid()
    ensures var d := AcceptAll(NEW_DEVICE, requests, settings);
            match d.lastEvaluatedAt
            case None => d.alerts == []
            case Some(until) => TimelineOk(d.alerts, metric, until)
  {
    AcceptAllMeaning(requests, settings);
    var stored := Taken(requests, settings);
    MaximaAreStrictlyLater(stored);
    LatestIsLastMaximum(AcceptAll(NEW_DEVICE, requests, settings).lastEvaluatedAt, stored);
    if Evaluations(requests, settings) != [] {
      ReplayKeepsTimelines(Evaluations(requests, settings), settings);
    }
  }

  /** Redelivery changes nothing. */
  lemma AcceptIsIdempotent(d: DeviceData, r: Request, settings: Settings)
    ensures Known(Accepted(d, r, settings), r.messageId) <==> !Refused(d, r, settings)
    ensures Accepted(Accepted(d, r, settings), r, settings) == Accepted(d, r, settings)
  {
    if !Known(d, r.messageId) && !Refused(d, r, settings) {
      assert Accepted(d, r, settings).rows[|d.rows|].messageId == r.messageId;
    }
  }

  lemma KnownAfter(d: DeviceData, r: Request, settings: Settings, id: MessageId)
    ensures Known(Accepted(d, r, settings), id) <==> Known(d, id) || (id == r.messageId && !Refused(d, r, settings))
  {
    AcceptIsIdempotent(d, r, settings);
    var after := Accepted(d, r, settings);
    if Known(d, id) {
      var i :| 0 <= i < |d.rows| && d.rows[i].messageId == id;
      assert after.rows[i].messageId == id;
    }
    if Known(after, id) && id != r.messageId {
      var i :| 0 <= i < |after.rows| && after.rows[i].messageId == id;
      assert i < |d.rows| && d.rows[i].messageId == id;
    }
  }

  /** A measurement that arrives late never matters to the alerts: leaving it out of the
      sequence gives the same alerts and the same last evaluated time. */
  lemma {:induction false} LateArrivalsNeverMatter(
    d: DeviceData, late: Request, later: seq<Request>, settings: Settings)
    requires !MustEvaluate(d, late.measuredAt)
    requires forall r :: r in later && r.messageId == late.messageId ==> r == late
    ensures var with := AcceptAll(Accepted(d, late, settings), later, settings);
            var without := AcceptAll(d, later, settings);
            && with.alerts == without.alerts
            && with.lastEvaluatedAt == without.lastEvaluatedAt
            && !MustEvaluate(without, late.measuredAt)
            && forall id :: Known(with, id) <==> Known(without, id) || id == late.messageId
  {
    if later == [] {
      forall id
        ensures Known(Accepted(d, late, settings), id) <==> Known(d, id) || id == late.messageId
      {
        KnownAfter(d, late, settings, id);
      }
    } else {
      var n := |later| - 1;
      LateArrivalsNeverMatter(d, late, later[..n], settings);
      var with := AcceptAll(Accepted(d, late, settings), later[..n], settings);
      var without := AcceptAll(d, later[..n], settings);
      forall id
        ensures Known(Accepted(with, later[n], settings), id) <==>
                Known(Accepted(without, later[n], settings), id) || id == late.messageId
      {
        KnownAfter(with, later[n], settings, id);
        KnownAfter(without, later[n], settings, id);
      }
    }
  }

  // --- What rounding to the column type does ---

  /** The alerts are not a function of the stored rows: 9.996 degrees opens a LOW alert against
      the default threshold of 10, and is stored as 10.00, which would not. */
  lemma StoredRowsCanHideABreach()
    ensures var th := Thresholds(10.0, 35.0, 0.5, -40.0, 85.0);
            && th.Valid()
            && NewDirection(9.996, th) == Some(Low)
            && Numeric2(9.996) == 10.0
            && NewDirection(Numeric2(9.996), th) == None
  {
    assert (9.996 * 100.0 + 0.5).Floor == 1000;
  }

  /** Nor can a stored row be trusted to have breached: against a threshold of 10.004 the value
      10.0045 is normal, and its stored value 10.00 is not. */
  lemma StoredRowsCanInventABreach()
    ensures var th := Thresholds(10.004, 35.0, 0.5, -40.0, 85.0);
            && th.Valid()
            && NewDirection(10.0045, th) == None
            && NewDirection(Numeric2(10.0045), th) == Some(Low)
  {
    assert (10.0045 * 100.0 + 0.5).Floor == 1000;
  }

  /** The least hundredth that is not below x, and the greatest that is not above it. */
  function UpToHundredth(x: real): int {
    -(-100.0 * x).Floor
  }

  function DownToHundredth(x: real): int {
    (100.0 * x).Floor
  }

  /** The value rounds to fewer than `m` hundredths: it lies below the midpoint before `m`, or on
      it where halves round down. */
  predicate RoundsBelow(v: real, m: int) {
    100.0 * v < m as real - 0.5 || (100.0 * v == m as real - 0.5 && m <= 0)
  }

  lemma {:induction false} StoredBelowThreshold(v: real, threshold: real)
    ensures Numeric2(v) < threshold <==> RoundsBelow(v, UpToHundredth(threshold))
    ensures Numeric2(v) > threshold <==> !RoundsBelow(v, DownToHundredth(threshold) + 1)
  {
    StoredBelowExactly(v, UpToHundredth(threshold));
    StoredBelowExactly(v, DownToHundredth(threshold) + 1);
    HundredthsAgainst(Hundredths(v), 100.0 * threshold);
    assert Numeric2(v) * 100.0 == Hundredths(v) as real;
  }

  lemma HundredthsAgainst(m: int, x: real)
    ensures m as real < x <==> m < -(-x).Floor
    ensures m as real > x <==> m > x.Floor
  {
  }

  /** How the stored value is judged, in terms of the value that was sent: LOW exactly below one
      midpoint and HIGH exactly beyond another, whatever the thresholds. */
  lemma {:induction false} StoredJudgementExactly(v: real, th: Thresholds)
    ensures NewDirection(Numeric2(v), th)
         == if RoundsBelow(v, UpToHundredth(th.lower)) then Some(Low)
            else if !RoundsBelow(v, DownToHundredth(th.upper) + 1) then Some(High)
            else None
  {
    StoredBelowThreshold(v, th.lower);
    StoredBelowThreshold(v, th.upper);
  }

  /** A breach is hidden, or invented, exactly for the values between a threshold and the midpoint
      next to it: hidden where the midpoint lies outside the threshold, invented where inside. */
  lemma {:induction false} StoredValueMisjudgesExactly(v: real, th: Thresholds)
    requires th.Valid()
    ensures NewDirection(Numeric2(v), th) != NewDirection(v, th) <==>
              || (v < th.lower && !RoundsBelow(v, UpToHundredth(th.lower)))
              || (th.lower <= v && RoundsBelow(v, UpToHundredth(th.lower)))
              || (th.upper < v && RoundsBelow(v, DownToHundredth(th.upper) + 1))
              || (v <= th.upper && !RoundsBelow(v, DownToHundredth(th.upper) + 1))
  {
    StoredJudgementExactly(v, th);
    MidpointsAreOrdered(v, th);
  }

  /** Recovery is judged on the sent value too: whether the stored value would keep an alert open
      differs exactly between the level of recovery and the midpoint next to it. */
  lemma {:induction false} StoredRecoveryMisjudgesExactly(v: real, th: Thresholds, direction: Direction)
    ensures Continues(direction, Numeric2(v), th) != Continues(direction, v, th) <==>
              if direction == Low then
                var level := th.lower + th.hysteresis;
                || (v < level && !RoundsBelow(v, UpToHundredth(level)))
                || (level <= v && RoundsBelow(v, UpToHundredth(level)))
              else
                var level := th.upper - th.hysteresis;
                || (v > level && RoundsBelow(v, DownToHundredth(level) + 1))
                || (v <= level && !RoundsBelow(v, DownToHundredth(level) + 1))
  {
    StoredBelowThreshold(v, th.lower + th.hysteresis);
    StoredBelowThreshold(v, th.upper - th.hysteresis);
  }

  /** 10.496 keeps an alert open that recovers at 10.5, and is stored as 10.50, which would not. */
  lemma StoredRowsCanLookRecovered()
    ensures var th := Thresholds(10.0, 35.0, 0.5, -40.0, 85.0);
            th.Valid() && Continues(Low, 10.496, th) && !Continues(Low, Numeric2(10.496), th)
  {
    assert (10.496 * 100.0 + 0.5).Floor == 1050;
  }

  lemma {:induction false} MidpointsAreOrdered(v: real, th: Thresholds)
    requires th.Valid()
    ensures RoundsBelow(v, UpToHundredth(th.lower)) ==> RoundsBelow(v, DownToHundredth(th.upper) + 1)
  {
    StoredBelowThreshold(v, th.lower);
    StoredBelowThreshold(v, th.upper);
  }

  /** With two-decimal thresholds breaches are only hidden, never invented, and exactly when the
      value rounds onto the threshold itself. */
  lemma {:induction false} TwoDecimalThresholdsOnlyHide(v: real, th: Thresholds)
    requires th.Valid() && IsHundredth(th.lower) && IsHundredth(th.upper)
    ensures NewDirection(Numeric2(v), th) != NewDirection(v, th)
       <==> NewDirection(v, th).Some? && Numeric2(v) == th.Crossed(NewDirection(v, th).value)
    ensures NewDirection(Numeric2(v), th) != NewDirection(v, th) ==> NewDirection(Numeric2(v), th) == None
  {
    if v < th.lower {
      Numeric2IsMonotone(v, th.lower);
    } else if v > th.upper {
      Numeric2IsMonotone(th.upper, v);
    } else {
      Numeric2IsMonotone(th.lower, v);
      Numeric2IsMonotone(v, th.upper);
    }
  }
}
