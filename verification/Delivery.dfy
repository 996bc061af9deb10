/** Device, network and server together. The device is the one of whole runs, the server the one of
    interleaved transactions; requests and responses may be lost, a request may be processed long
    after the device gave up on it, and a response is taken only from a finished transaction. */
module Delivery {
  import opened Wrappers
  import opened Common
  import opened WrappingClock
  import opened Alerting
  import R = Retrying
  import App = Application
  import Runs = DeviceRuns
  import A = Acceptance
  import C = ConcurrentAcceptance

  /** `begun` is the pass whose request is on the wire. `attempts` lists every request ever put
      there; it never shrinks: the server may pick up any of them at any time, any number of
      times. `served` says which attempt a transaction processes. */
  datatype Network = Network(
    deviceId: string,
    trace: Runs.Trace,
    begun: Option<App.Pass>,
    attempts: seq<R.Measurement>,
    served: map<C.TxnId, nat>,
    responses: set<(nat, int)>,
    system: C.System)
  {
    /** The device's log, with what the pass under way has queued. */
    function Log(): seq<App.Event> {
      if begun.Some? then Runs.AfterMeasure(trace, begun.value).log else trace.log
    }
  }

  datatype Action =
    | Quiet(pass: App.Pass)
    | Depart(pass: App.Pass)
    | Arrive(pass: App.Pass)
    | Serve(attempt: nat, t: C.TxnId)
    | Server(action: C.Action)
    | Respond(t: C.TxnId)
    | Refuse(attempt: nat, status: int)

  function ToRequest(m: R.Measurement): A.Request {
    A.Request(m.messageId, m.deviceId, m.measuredAt, m.temperature, m.humidity)
  }

  predicate IsSuccess(status: int) {
    status == 200 || status == 201
  }

  /** The status the measurement endpoint answers for each way a call of `accept` ends. */
  function StatusOf(outcome: C.Outcome, unavailable: bool): int {
    match outcome
    case Returned(Created) => 201
    case Returned(AlreadyAccepted) => 200
    case LostReply => 503
    case RolledBack => if unavailable then 503 else 500
  }

  /** Everything of a pass that is known when its request leaves. */
  predicate SameStart(begun: App.Pass, pass: App.Pass) {
    pass == begun.(resultAt := pass.resultAt, transportSucceeded := pass.transportSucceeded,
      httpStatus := pass.httpStatus,
                   retryAfterSeconds := pass.retryAfterSeconds, random := pass.random)
  }

  predicate Transmits(n: Network, pass: App.Pass) {
    n.trace.device.running && Runs.AfterMeasure(n.trace, pass).device.Transmits(pass)
  }

  /** A pass may begin: time goes on, and its message id is new to device and server. */
  predicate MayBegin(n: Network, pass: App.Pass) {
    && n.begun.None? && Runs.PassFollows(n.trace, pass) && n.trace.device.Valid()
    && n.deviceId in n.system.db && !A.Known(n.system.db[n.deviceId], pass.freshId)
  }

  ghost predicate Enabled(n: Network, a: Action, settings: Settings) {
    match a
    case Quiet(pass) => MayBegin(n, pass) && !Transmits(n, pass)
    case Depart(pass) => MayBegin(n, pass) && Transmits(n, pass)
    case Arrive(pass) =>
      && n.begun.Some? && SameStart(n.begun.value, pass) && Runs.PassFollows(n.trace, pass) && n.trace.device.Valid()
      && (pass.transportSucceeded ==> (|n.attempts| - 1, pass.httpStatus) in n.responses)
    case Serve(k, t) => k < |n.attempts| && t !in n.system.txns
    case Server(action) =>
      C.Enabled(n.system, action, settings) && (action.Begin? ==> action.request.deviceId != n.deviceId)
    case Respond(t) => t in n.served && t in n.system.txns && n.system.txns[t].stage.Done?
    case Refuse(k, status) => k < |n.attempts| && !IsSuccess(status)
  }

  ghost function Step(n: Network, a: Action, settings: Settings, unavailable: bool): Network
    requires Enabled(n, a, settings)
  {
    match a
    case Quiet(pass) => n.(trace := Runs.Extend(n.trace, pass))
    case Depart(pass) =>
      n.(begun := Some(pass), attempts := n.attempts + [Runs.AfterMeasure(n.trace, pass).device.retry.pending.value])
    case Arrive(pass) => n.(trace := Runs.Extend(n.trace, pass), begun := None)
    case Serve(k, t) =>
      n.(system := C.Step(n.system, C.Begin(t, ToRequest(n.attempts[k])), settings), served := n.served[t := k])
    case Server(action) => n.(system := C.Step(n.system, action, settings))
    case Respond(t) =>
      n.(responses := n.responses + {(n.served[t], StatusOf(n.system.txns[t].stage.outcome, unavailable))})
    case Refuse(k, status) => n.(responses := n.responses + {(k, status)})
  }

  ghost predicate Follows(n: Network, a: Action, next: Network, settings: Settings) {
    Enabled(n, a, settings) && exists unavailable :: next == Step(n, a, settings, unavailable)
  }

  function Start(deviceId: string, at: int, initial: A.Database): Network {
    Network(deviceId, Runs.StartOfRun(deviceId, true, at), None, [], map[], {}, C.System(initial, map[], map[], []))
  }

  /** Runs of a registered device from `begin()` at time `at`, against a server with `initial` data. */
  ghost predicate IsRun(
    deviceId: string, at: int, initial: A.Database, actions: seq<Action>, states: seq<Network>, settings: Settings)
  {
    && deviceId in initial && UniqueRows(initial[deviceId].rows)
    && |states| == |actions| + 1
    && states[0] == Start(deviceId, at, initial)
    && forall i :: 0 <= i < |actions| ==> Follows(states[i], actions[i], states[i + 1], settings)
  }

  // --- The invariant ---

  /** At most one row per message id. */
  predicate UniqueRows(rows: seq<A.Row>) {
    forall i, j :: 0 <= i < j < |rows| ==> rows[i].messageId != rows[j].messageId
  }

  predicate IsStored(server: A.DeviceData, m: R.Measurement) {
    A.Stored(ToRequest(m)) in server.rows
  }

  /** A row holds the payload that the device created. */
  ghost predicate HoldsPayload(row: A.Row, m: R.Measurement) {
    A.Keeps(row, m.messageId, m.measuredAt, m.temperature, m.humidity)
  }

  /** What the device has queued: its own measurements, one for each message id. */
  ghost predicate QueuedOk(log: seq<App.Event>, deviceId: string) {
    && (forall m :: Runs.WasQueued(log, m) ==> m.deviceId == deviceId)
    && (forall m, o :: Runs.WasQueued(log, m) && Runs.WasQueued(log, o) && m.messageId == o.messageId ==> m == o)
  }

  /** A stored row of a queued message holds that message's payload. */
  ghost predicate RowsOk(rows: seq<A.Row>, log: seq<App.Event>) {
    && UniqueRows(rows)
    && forall row, m :: row in rows && Runs.WasQueued(log, m) && m.messageId == row.messageId ==>
       row == A.Stored(ToRequest(m))
  }

  ghost predicate WireOk(n: Network) {
    && (forall k :: 0 <= k < |n.attempts| ==> Runs.WasQueued(n.Log(), n.attempts[k]))
    && (n.begun.Some? ==>
          && Transmits(n, n.begun.value)
          && |n.attempts| > 0
             && Some(n.attempts[|n.attempts| - 1]) == Runs.AfterMeasure(n.trace, n.begun.value).device.retry.pending)
  }

  predicate IsServed(n: Network, t: C.TxnId)
    requires t in n.system.txns
  {
    t in n.served && n.served[t] < |n.attempts| && n.system.txns[t].request == ToRequest(n.attempts[n.served[t]])
  }

  /** The device's transactions process its attempts, and whatever took effect is stored. */
  ghost predicate ServerOk(n: Network) {
    && n.deviceId in n.system.db
    && (forall t :: t in n.system.txns && n.system.Device(t) == n.deviceId ==> IsServed(n, t))
    && (forall t :: t in n.served ==> t in n.system.txns && n.system.Device(t) == n.deviceId)
    && (forall t :: t in n.system.txns && n.system.Device(t) == n.deviceId && n.system.txns[t].Effective() ==>
          A.Known(n.system.db[n.deviceId], n.system.txns[t].request.messageId))
  }

  /** Good news is true: a success response or an acknowledgement means that the row is there. */
  ghost predicate NewsOk(n: Network)
    requires n.deviceId in n.system.db
  {
    && (forall k, status :: (k, status) in n.responses && IsSuccess(status) ==>
          k < |n.attempts| && A.Known(n.system.db[n.deviceId], n.attempts[k].messageId))
    && (forall a :: App.Sent(a) in n.trace.log && a.update == R.WasAccepted ==>
          A.Known(n.system.db[n.deviceId], a.measurement.messageId))
  }

  ghost predicate DeviceOk(n: Network) {
    && Runs.Inv(n.trace) && n.trace.device.deviceId == n.deviceId
    && QueuedOk(n.Log(), n.deviceId)
    && WireOk(n)
  }

  ghost predicate Inv(n: Network, initial: A.Database, settings: Settings) {
    && DeviceOk(n)
    && C.Inv(n.system, initial, settings)
    && ServerOk(n)
    && RowsOk(n.system.db[n.deviceId].rows, n.Log())
    && NewsOk(n)
  }

  lemma KnownMeansStored(n: Network, m: R.Measurement)
    requires n.deviceId in n.system.db && RowsOk(n.system.db[n.deviceId].rows, n.Log())
    requires Runs.WasQueued(n.Log(), m) && A.Known(n.system.db[n.deviceId], m.messageId)
    ensures IsStored(n.system.db[n.deviceId], m)
  {
    var rows := n.system.db[n.deviceId].rows;
    var i :| 0 <= i < |rows| && rows[i].messageId == m.messageId;
    assert rows[i] in rows;
  }

  // --- Device steps ---

  /** Measuring adds at most one event: the queueing of a new message of this device. */
  lemma {:induction false} MeasureLog(tr: Runs.Trace, pass: App.Pass)
    ensures var log := Runs.AfterMeasure(tr, pass).log;
            || log == tr.log
            || exists m: R.Measurement ::
                 log == tr.log + [App.Queued(m, pass.now)] && m.messageId == pass.freshId
                   && m.deviceId == tr.device.deviceId
  {
    var events := tr.device.Measure(pass).1;
    if events != [] {
      assert events == [App.Queued(events[0].measurement, pass.now)];
      assert Runs.AfterMeasure(tr, pass).log == tr.log + [App.Queued(events[0].measurement, pass.now)];
    } else {
      assert tr.log + events == tr.log;
    }
  }

  lemma {:induction false} QueuedIn(log: seq<App.Event>, e: App.Event, m: R.Measurement)
    ensures Runs.WasQueued(log + [e], m) <==> Runs.WasQueued(log, m) || (e.Queued? && e.measurement == m)
  {
    if Runs.WasQueued(log + [e], m) {
      var at :| App.Queued(m, at) in log + [e];
      assert App.Queued(m, at) in log || App.Queued(m, at) == e;
    }
    if Runs.WasQueued(log, m) {
      var at :| App.Queued(m, at) in log;
      assert App.Queued(m, at) in log + [e];
    }
    if e.Queued? && e.measurement == m {
      assert App.Queued(m, e.at) in log + [e];
    }
  }

  lemma {:induction false} QueuedIdIsUsed(tr: Runs.Trace, m: R.Measurement)
    requires Runs.Inv(tr) && Runs.WasQueued(tr.log, m)
    ensures m.messageId in tr.ids
  {
    var at :| App.Queued(m, at) in tr.log;
    assert Runs.IdIn(App.Queued(m, at), tr.ids);
  }

  /** What measuring queues keeps the log and the stored rows consistent. */
  lemma {:induction false} MeasureKeepsLog(n: Network, pass: App.Pass)
    requires Runs.Inv(n.trace) && n.trace.device.deviceId == n.deviceId && MayBegin(n, pass)
    requires QueuedOk(n.trace.log, n.deviceId) && RowsOk(n.system.db[n.deviceId].rows, n.trace.log)
    ensures var log := Runs.AfterMeasure(n.trace, pass).log;
            && QueuedOk(log, n.deviceId) && RowsOk(n.system.db[n.deviceId].rows, log)
            && (forall m :: Runs.WasQueued(n.trace.log, m) ==> Runs.WasQueued(log, m))
            && (forall a :: App.Sent(a) in log <==> App.Sent(a) in n.trace.log)
  {
    MeasureLog(n.trace, pass);
    var log := Runs.AfterMeasure(n.trace, pass).log;
    if log != n.trace.log {
      var m :| log == n.trace.log + [App.Queued(m, pass.now)] && m.messageId == pass.freshId
        && m.deviceId == n.deviceId;
      forall o
        ensures Runs.WasQueued(log, o) <==> Runs.WasQueued(n.trace.log, o) || o == m
      {
        QueuedIn(n.trace.log, App.Queued(m, pass.now), o);
      }
      forall o | Runs.WasQueued(n.trace.log, o)
        ensures o.messageId != m.messageId
      {
        QueuedIdIsUsed(n.trace, o);
      }
      forall row | row in n.system.db[n.deviceId].rows
        ensures row.messageId != m.messageId
      {
        var i :| 0 <= i < |n.system.db[n.deviceId].rows| && n.system.db[n.deviceId].rows[i] == row;
      }
    }
  }

  lemma {:induction false} PendingWasQueued(tr: Runs.Trace, pass: App.Pass)
    requires Runs.Inv(tr) && Runs.PassFollows(tr, pass) && tr.device.running
    ensures var measured := Runs.AfterMeasure(tr, pass);
            measured.device.retry.pending.Some? ==> Runs.WasQueued(measured.log, measured.device.retry.pending.value)
  {
    Runs.MeasureKeepsInv(tr, pass);
  }

  /** A pass that sends nothing leaves exactly what measuring queued. */
  lemma {:induction false} QuietLog(tr: Runs.Trace, pass: App.Pass)
    requires tr.device.Valid() && tr.device.running && !Runs.AfterMeasure(tr, pass).device.Transmits(pass)
    ensures Runs.Extend(tr, pass).log == Runs.AfterMeasure(tr, pass).log
    ensures Runs.Extend(tr, pass).device.deviceId == tr.device.deviceId
  {
  }

  /** A pass that sends adds one attempt with what was pending. */
  lemma {:induction false} SendingLog(tr: Runs.Trace, pass: App.Pass) returns (a: App.Attempt)
    requires tr.device.Valid() && tr.device.running && Runs.AfterMeasure(tr, pass).device.Transmits(pass)
    ensures Runs.Extend(tr, pass).log == Runs.AfterMeasure(tr, pass).log + [App.Sent(a)]
    ensures Runs.Extend(tr, pass).device.deviceId == tr.device.deviceId
    ensures Some(a.measurement) == Runs.AfterMeasure(tr, pass).device.retry.pending
    ensures a.update == R.WasAccepted ==> pass.transportSucceeded && IsSuccess(pass.httpStatus)
  {
    a := Runs.AfterMeasure(tr, pass).device.Send(pass).1[0].attempt;
  }

  lemma {:induction false} QuietKeepsInv(n: Network, pass: App.Pass, initial: A.Database, settings: Settings)
    requires Inv(n, initial, settings) && Enabled(n, Quiet(pass), settings)
    ensures Inv(Step(n, Quiet(pass), settings, false), initial, settings)
  {
    Runs.ExtendKeepsInv(n.trace, pass);
    if n.trace.device.running {
      QuietLog(n.trace, pass);
      MeasureKeepsLog(n, pass);
    }
  }

  lemma {:induction false} DepartKeepsInv(n: Network, pass: App.Pass, initial: A.Database, settings: Settings)
    requires Inv(n, initial, settings) && Enabled(n, Depart(pass), settings)
    ensures Inv(Step(n, Depart(pass), settings, false), initial, settings)
  {
    MeasureKeepsLog(n, pass);
    PendingWasQueued(n.trace, pass);
    var next := Step(n, Depart(pass), settings, false);
    AttemptsGrow(n, next);
  }

  /** More attempts and a longer log keep what was known of transactions and responses. */
  lemma {:induction false} AttemptsGrow(n: Network, next: Network)
    requires ServerOk(n) && NewsOk(n) && n.attempts <= next.attempts
    requires next.(begun := n.begun, attempts := n.attempts) == n
    ensures ServerOk(next) && NewsOk(next)
  {
    forall t | t in next.system.txns && next.system.Device(t) == next.deviceId
      ensures IsServed(next, t)
    {
      assert IsServed(n, t);
    }
  }

  lemma {:induction false} StartDecides(tr: Runs.Trace, begun: App.Pass, pass: App.Pass)
    requires SameStart(begun, pass)
    ensures Runs.AfterMeasure(tr, pass) == Runs.AfterMeasure(tr, begun)
    ensures Runs.AfterMeasure(tr, begun).device.Transmits(pass) <==>
            Runs.AfterMeasure(tr, begun).device.Transmits(begun)
  {
  }

  /** The end of a sending pass adds one event, the send of the attempt in flight. */
  lemma {:induction false} ArriveKeepsDevice(n: Network, pass: App.Pass, settings: Settings) returns (a: App.Attempt)
    requires DeviceOk(n) && Enabled(n, Arrive(pass), settings)
    ensures var next := Step(n, Arrive(pass), settings, false);
            && DeviceOk(next) && next.trace.log == n.Log() + [App.Sent(a)]
            && |n.attempts| > 0 && a.measurement == n.attempts[|n.attempts| - 1]
            && (a.update == R.WasAccepted ==> pass.transportSucceeded && IsSuccess(pass.httpStatus))
            && forall b :: App.Sent(b) in next.trace.log ==> App.Sent(b) in n.trace.log || b == a
  {
    Runs.ExtendKeepsInv(n.trace, pass);
    StartDecides(n.trace, n.begun.value, pass);
    a := SendingLog(n.trace, pass);
    SentKeepsLog(n.Log(), App.Sent(a), n.deviceId, []);
    MeasureAddsNoSend(n.trace, n.begun.value);
  }

  lemma {:induction false} ArriveKeepsInv(n: Network, pass: App.Pass, initial: A.Database, settings: Settings)
    requires Inv(n, initial, settings) && Enabled(n, Arrive(pass), settings)
    ensures Inv(Step(n, Arrive(pass), settings, false), initial, settings)
  {
    var a := ArriveKeepsDevice(n, pass, settings);
    SentKeepsLog(n.Log(), App.Sent(a), n.deviceId, n.system.db[n.deviceId].rows);
  }

  lemma {:induction false} MeasureAddsNoSend(tr: Runs.Trace, pass: App.Pass)
    ensures forall a :: App.Sent(a) in Runs.AfterMeasure(tr, pass).log ==> App.Sent(a) in tr.log
  {
    MeasureLog(tr, pass);
  }

  lemma {:induction false} SentKeepsLog(log: seq<App.Event>, e: App.Event, deviceId: string, rows: seq<A.Row>)
    requires QueuedOk(log, deviceId) && RowsOk(rows, log) && e.Sent?
    ensures QueuedOk(log + [e], deviceId) && RowsOk(rows, log + [e])
    ensures forall m :: Runs.WasQueued(log + [e], m) <==> Runs.WasQueued(log, m)
  {
    forall m
      ensures Runs.WasQueued(log + [e], m) <==> Runs.WasQueued(log, m)
    {
      QueuedIn(log, e, m);
    }
  }

  // --- Server steps ---

  /** A step of the server changes a device's rows only by committing one of its transactions,
      and then appends the row of a message that was not known. */
  lemma {:induction false} ServerRows(
    s: C.System, action: C.Action, initial: A.Database, settings: Settings, device: string)
    requires C.Inv(s, initial, settings) && C.Enabled(s, action, settings) && device in s.db
    ensures var next := C.Step(s, action, settings);
            && device in next.db
            && (next.db[device].rows == s.db[device].rows
                || (action.Commit? && s.Device(action.t) == device
                   && !A.Known(s.db[device], s.txns[action.t].request.messageId)
                    && next.db[device].rows == s.db[device].rows + [A.Stored(s.txns[action.t].request)]))
  {
    if action.Commit? {
      assert C.SnapshotOk(s, action.t, settings);
    }
  }

  /** A transaction that newly took effect has its message stored. */
  lemma {:induction false} NewEffects(
    s: C.System, action: C.Action, initial: A.Database, settings: Settings, t: C.TxnId)
    requires C.Inv(s, initial, settings) && C.Enabled(s, action, settings) && !action.FailInsert?
    requires var next := C.Step(s, action, settings);
             t in next.txns && next.txns[t].Effective() && !(t in s.txns && s.txns[t].Effective())
    ensures var next := C.Step(s, action, settings);
            next.Device(t) in next.db && A.Known(next.db[next.Device(t)], next.txns[t].request.messageId)
  {
    var next := C.Step(s, action, settings);
    if action.Commit? {
      var rows := next.db[s.Device(t)].rows;
      assert rows[|rows| - 1] == A.Stored(s.txns[t].request);
    }
  }

  lemma KnownStays(d: A.DeviceData, row: A.Row, after: A.DeviceData, id: MessageId)
    requires after.rows == d.rows || after.rows == d.rows + [row]
    ensures A.Known(d, id) ==> A.Known(after, id)
  {
    if A.Known(d, id) {
      var i :| 0 <= i < |d.rows| && d.rows[i].messageId == id;
      assert after.rows[i].messageId == id;
    }
  }

  lemma {:induction false} RowAppended(
    rows: seq<A.Row>, log: seq<App.Event>, deviceId: string, m: R.Measurement, d: A.DeviceData)
    requires RowsOk(rows, log) && QueuedOk(log, deviceId) && Runs.WasQueued(log, m)
    requires d.rows == rows && !A.Known(d, m.messageId)
    ensures RowsOk(rows + [A.Stored(ToRequest(m))], log)
  {
  }

  /** The transactions of a step: the same requests, and a new one only where one begins. */
  lemma {:induction false} ServerRequests(s: C.System, action: C.Action, settings: Settings)
    requires C.Enabled(s, action, settings)
    ensures var next := C.Step(s, action, settings);
            && (forall t :: t in s.txns ==> t in next.txns && next.txns[t].request == s.txns[t].request)
            && (forall t :: t in next.txns && t !in s.txns ==>
                  action.Begin? && t == action.t && next.txns[t] == C.Txn(action.request, C.Waiting))
  {
  }

  lemma {:induction false} ServerKeepsRows(n: Network, action: C.Action, initial: A.Database, settings: Settings)
    requires Inv(n, initial, settings) && C.Enabled(n.system, action, settings)
    ensures var db := C.Step(n.system, action, settings).db;
            && n.deviceId in db && RowsOk(db[n.deviceId].rows, n.Log())
            && (forall id :: A.Known(n.system.db[n.deviceId], id) ==> A.Known(db[n.deviceId], id))
  {
    var s := n.system;
    var db := C.Step(s, action, settings).db;
    ServerRows(s, action, initial, settings, n.deviceId);
    if db[n.deviceId].rows != s.db[n.deviceId].rows {
      assert IsServed(n, action.t);
      var m := n.attempts[n.served[action.t]];
      RowAppended(s.db[n.deviceId].rows, n.Log(), n.deviceId, m, s.db[n.deviceId]);
      forall id
        ensures A.Known(s.db[n.deviceId], id) ==> A.Known(db[n.deviceId], id)
      {
        KnownStays(s.db[n.deviceId], A.Stored(ToRequest(m)), db[n.deviceId], id);
      }
    }
  }

  lemma {:induction false} ServerKeepsServer(n: Network, action: C.Action, initial: A.Database, settings: Settings)
    requires Inv(n, initial, settings) && C.Enabled(n.system, action, settings)
    requires action.Begin? ==> action.request.deviceId != n.deviceId
    ensures ServerOk(n.(system := C.Step(n.system, action, settings)))
  {
    var s, next := n.system, C.Step(n.system, action, settings);
    C.StepKeepsInv(s, action, initial, settings);
    ServerKeepsRows(n, action, initial, settings);
    ServerRequests(s, action, settings);
    forall t | t in next.txns && next.Device(t) == n.deviceId
      ensures IsServed(n.(system := next), t)
      ensures next.txns[t].Effective() ==> A.Known(next.db[n.deviceId], next.txns[t].request.messageId)
    {
      assert t in s.txns && IsServed(n, t);
      if next.txns[t].Effective() && !s.txns[t].Effective() {
        NewEffects(s, action, initial, settings, t);
      }
    }
  }

  /** Steps of the server leave the device's side alone. */
  lemma {:induction false} DeviceFramed(n: Network, next: Network)
    requires DeviceOk(n)
    requires next.deviceId == n.deviceId && next.trace == n.trace && next.begun == n.begun
             && next.attempts == n.attempts
    ensures DeviceOk(next) && next.Log() == n.Log()
  {
  }

  lemma {:induction false} NewsStays(n: Network, next: Network)
    requires n.deviceId in n.system.db && NewsOk(n)
    requires next.deviceId == n.deviceId && next.deviceId in next.system.db
    requires next.trace == n.trace && next.attempts == n.attempts && next.responses == n.responses
    requires forall id :: A.Known(n.system.db[n.deviceId], id) ==> A.Known(next.system.db[n.deviceId], id)
    ensures NewsOk(next)
  {
  }

  lemma {:induction false} ServerFramed(n: Network, next: Network)
    requires ServerOk(n)
    requires next.deviceId == n.deviceId && next.attempts == n.attempts && next.served == n.served
             && next.system == n.system
    ensures ServerOk(next)
  {
    forall t | t in next.system.txns && next.system.Device(t) == next.deviceId
      ensures IsServed(next, t)
    {
      assert IsServed(n, t);
    }
  }

  lemma {:induction false} ServerKeepsInv(n: Network, action: C.Action, initial: A.Database, settings: Settings)
    requires Inv(n, initial, settings) && Enabled(n, Server(action), settings)
    ensures Inv(Step(n, Server(action), settings, false), initial, settings)
  {
    var next := Step(n, Server(action), settings, false);
    C.StepKeepsInv(n.system, action, initial, settings);
    ServerKeepsRows(n, action, initial, settings);
    ServerKeepsServer(n, action, initial, settings);
    DeviceFramed(n, next);
    NewsStays(n, next);
  }

  lemma {:induction false} ServeKeepsServer(n: Network, k: nat, t: C.TxnId, settings: Settings)
    requires ServerOk(n) && Enabled(n, Serve(k, t), settings) && n.attempts[k].deviceId == n.deviceId
    ensures ServerOk(Step(n, Serve(k, t), settings, false))
  {
    var next := Step(n, Serve(k, t), settings, false);
    forall u | u in next.system.txns && next.system.Device(u) == n.deviceId
      ensures IsServed(next, u)
    {
      assert u != t ==> IsServed(n, u);
    }
  }

  lemma {:induction false} ServeKeepsInv(n: Network, k: nat, t: C.TxnId, initial: A.Database, settings: Settings)
    requires Inv(n, initial, settings) && Enabled(n, Serve(k, t), settings)
    ensures Inv(Step(n, Serve(k, t), settings, false), initial, settings)
  {
    var next := Step(n, Serve(k, t), settings, false);
    C.StepKeepsInv(n.system, C.Begin(t, ToRequest(n.attempts[k])), initial, settings);
    assert Runs.WasQueued(n.Log(), n.attempts[k]);
    ServeKeepsServer(n, k, t, settings);
    DeviceFramed(n, next);
    NewsStays(n, next);
  }

  lemma {:induction false} ResponseIsTrue(n: Network, t: C.TxnId, unavailable: bool)
    requires ServerOk(n) && t in n.served && n.system.txns[t].stage.Done?
    requires IsSuccess(StatusOf(n.system.txns[t].stage.outcome, unavailable))
    ensures n.served[t] < |n.attempts| && A.Known(n.system.db[n.deviceId], n.attempts[n.served[t]].messageId)
  {
    assert IsServed(n, t);
  }

  lemma {:induction false} RespondKeepsInv(
    n: Network, t: C.TxnId, initial: A.Database, settings: Settings, unavailable: bool)
    requires Inv(n, initial, settings) && Enabled(n, Respond(t), settings)
    ensures Inv(Step(n, Respond(t), settings, unavailable), initial, settings)
  {
    var next := Step(n, Respond(t), settings, unavailable);
    if IsSuccess(StatusOf(n.system.txns[t].stage.outcome, unavailable)) {
      ResponseIsTrue(n, t, unavailable);
    }
    DeviceFramed(n, next);
    ServerFramed(n, next);
  }

  lemma {:induction false} RefuseKeepsInv(n: Network, k: nat, status: int, initial: A.Database, settings: Settings)
    requires Inv(n, initial, settings) && Enabled(n, Refuse(k, status), settings)
    ensures Inv(Step(n, Refuse(k, status), settings, false), initial, settings)
  {
    var next := Step(n, Refuse(k, status), settings, false);
    DeviceFramed(n, next);
    ServerFramed(n, next);
  }

  lemma {:induction false} StepKeepsInv(
    n: Network, a: Action, initial: A.Database, settings: Settings, unavailable: bool)
    requires Inv(n, initial, settings) && Enabled(n, a, settings)
    ensures Inv(Step(n, a, settings, unavailable), initial, settings)
  {
    match a
    case Quiet(pass) => QuietKeepsInv(n, pass, initial, settings);
    case Depart(pass) => DepartKeepsInv(n, pass, initial, settings);
    case Arrive(pass) => ArriveKeepsInv(n, pass, initial, settings);
    case Serve(k, t) => ServeKeepsInv(n, k, t, initial, settings);
    case Server(action) => ServerKeepsInv(n, action, initial, settings);
    case Respond(t) => RespondKeepsInv(n, t, initial, settings, unavailable);
    case Refuse(k, status) => RefuseKeepsInv(n, k, status, initial, settings);
  }

  lemma {:induction false} StartIsInv(deviceId: string, at: int, initial: A.Database, settings: Settings)
    requires deviceId in initial && UniqueRows(initial[deviceId].rows)
    ensures Inv(Start(deviceId, at, initial), initial, settings)
  {
  }

  lemma {:induction false} FollowsKeepsInv(
    n: Network, a: Action, next: Network, initial: A.Database, settings: Settings)
    requires Inv(n, initial, settings) && Follows(n, a, next, settings)
    ensures Inv(next, initial, settings) && next.deviceId == n.deviceId
  {
    var unavailable :| next == Step(n, a, settings, unavailable);
    StepKeepsInv(n, a, initial, settings, unavailable);
  }

  lemma {:induction false} InvHolds(
    deviceId: string, at: int, initial: A.Database, actions: seq<Action>, states: seq<Network>, settings: Settings,
    i: nat)
    requires IsRun(deviceId, at, initial, actions, states, settings) && i <= |actions|
    ensures Inv(states[i], initial, settings) && states[i].deviceId == deviceId
  {
    if i == 0 {
      StartIsInv(deviceId, at, initial, settings);
    } else {
      InvHolds(deviceId, at, initial, actions, states, settings, i - 1);
      assert Follows(states[i - 1], actions[i - 1], states[i - 1 + 1], settings);
      FollowsKeepsInv(states[i - 1], actions[i - 1], states[i], initial, settings);
    }
  }

  /** The device takes each answer of the endpoint for what it is: a call that returned is accepted,
      whether it stored the row or found it, and one that did not is worth another attempt. */
  lemma RepliesAreUnderstood(outcome: C.Outcome, unavailable: bool, retryAfterSeconds: uint32)
    ensures var disposition :=
            R.ClassifySendResult(true, StatusOf(outcome, unavailable), retryAfterSeconds).disposition;
            disposition == if outcome.Returned? then R.Disposition.Accepted else R.Disposition.Retryable
    ensures outcome == C.Returned(A.Created) <==> StatusOf(outcome, unavailable) == 201
    ensures IsSuccess(StatusOf(outcome, unavailable)) <==> outcome.Returned?
  {
  }

  // --- Main results ---

  /** In every run the server holds at most one row per message id, every row of a message that
      the device queued holds that measurement's payload, each value rounded to its column, and
      every measurement that the device dropped as accepted is held by some row. */
  lemma {:induction false} DeliveryIsExactlyOnce(
    deviceId: string, at: int, initial: A.Database, actions: seq<Action>, states: seq<Network>, settings: Settings)
    requires IsRun(deviceId, at, initial, actions, states, settings)
    ensures var n := states[|actions|];
            && deviceId in n.system.db && UniqueRows(n.system.db[deviceId].rows)
            && (forall row, m ::
                  row in n.system.db[deviceId].rows && Runs.WasQueued(n.trace.log, m)
                    && m.messageId == row.messageId ==>
                    HoldsPayload(row, m))
            && (forall a :: App.Sent(a) in n.trace.log && a.update == R.WasAccepted ==>
                  exists row :: row in n.system.db[deviceId].rows && HoldsPayload(row, a.measurement))
  {
    InvHolds(deviceId, at, initial, actions, states, settings, |actions|);
    var n := states[|actions|];
    LogGrows(n.trace, n.begun, n.Log());
    forall row, m |
      row in n.system.db[deviceId].rows && Runs.WasQueued(n.trace.log, m) && m.messageId == row.messageId
      ensures HoldsPayload(row, m)
    {
      PayloadIsHeld(m);
    }
    forall a | App.Sent(a) in n.trace.log && a.update == R.WasAccepted
      ensures exists row :: row in n.system.db[deviceId].rows && HoldsPayload(row, a.measurement)
    {
      KnownMeansStored(n, a.measurement);
      PayloadIsHeld(a.measurement);
    }
  }

  lemma PayloadIsHeld(m: R.Measurement)
    ensures HoldsPayload(A.Stored(ToRequest(m)), m)
  {
    A.StoredKeeps(ToRequest(m));
  }

  lemma {:induction false} LogGrows(tr: Runs.Trace, begun: Option<App.Pass>, log: seq<App.Event>)
    requires Runs.Inv(tr)
    requires log == if begun.Some? then Runs.AfterMeasure(tr, begun.value).log else tr.log
    ensures forall m :: Runs.WasQueued(tr.log, m) ==> Runs.WasQueued(log, m)
  {
    if begun.Some? {
      MeasureLog(tr, begun.value);
      forall m | Runs.WasQueued(tr.log, m)
        ensures Runs.WasQueued(log, m)
      {
        if log != tr.log {
          QueuedIn(tr.log, log[|log| - 1], m);
        }
      }
    }
  }

  /** The moment the device drops its pending measurement as accepted, the row is already there,
      committed by a transaction that had finished: acknowledgement never runs ahead of commit. */
  lemma {:induction false} AcknowledgedAfterCommit(
    deviceId: string, at: int, initial: A.Database, actions: seq<Action>, states: seq<Network>, settings: Settings,
    i: nat)
    requires IsRun(deviceId, at, initial, actions, states, settings) && i < |actions|
    ensures deviceId in states[i].system.db
    ensures forall a ::
              (&& App.Sent(a) in states[i + 1].trace.log && App.Sent(a) !in states[i].trace.log
               && a.update == R.WasAccepted) ==>
                exists row :: row in states[i].system.db[deviceId].rows && HoldsPayload(row, a.measurement)
  {
    InvHolds(deviceId, at, initial, actions, states, settings, i);
    InvHolds(deviceId, at, initial, actions, states, settings, i + 1);
    assert Follows(states[i], actions[i], states[i + 1], settings);
    AcknowledgementNeedsRow(states[i], actions[i], states[i + 1], initial, settings);
    forall a |
      && App.Sent(a) in states[i + 1].trace.log && App.Sent(a) !in states[i].trace.log
      && a.update == R.WasAccepted
      ensures exists row :: row in states[i].system.db[deviceId].rows && HoldsPayload(row, a.measurement)
    {
      PayloadIsHeld(a.measurement);
    }
  }

  lemma {:induction false} AcknowledgementNeedsRow(
    n: Network, action: Action, next: Network, initial: A.Database, settings: Settings)
    requires Inv(n, initial, settings) && Inv(next, initial, settings) && Follows(n, action, next, settings)
    ensures forall a :: App.Sent(a) in next.trace.log && App.Sent(a) !in n.trace.log && a.update == R.WasAccepted ==>
              IsStored(n.system.db[n.deviceId], a.measurement)
  {
    forall a | App.Sent(a) in next.trace.log && App.Sent(a) !in n.trace.log && a.update == R.WasAccepted
      ensures IsStored(n.system.db[n.deviceId], a.measurement)
    {
      if action.Quiet? && n.trace.device.running {
        QuietLog(n.trace, action.pass);
        MeasureAddsNoSend(n.trace, action.pass);
      }
      assert next.system.db == n.system.db && next.deviceId == n.deviceId;
      LogGrows(next.trace, next.begun, next.Log());
      KnownMeansStored(next, a.measurement);
    }
  }

  // --- Both sides are runs of their own ---

  /** The device's side of a run is a run of the device loop, so all that is proved of such runs
      holds of it. */
  lemma {:induction false} DeviceSideIsARun(
    deviceId: string, at: int, initial: A.Database, actions: seq<Action>, states: seq<Network>, settings: Settings)
    returns (passes: seq<App.Pass>, trace: seq<Runs.Trace>)
    requires IsRun(deviceId, at, initial, actions, states, settings)
    ensures Runs.IsRun(deviceId, true, at, passes, trace) && trace[|passes|] == states[|actions|].trace
    decreases |actions|
  {
    if actions == [] {
      passes, trace := [], [states[0].trace];
    } else {
      var last := |actions| - 1;
      PrefixIsRun(deviceId, at, initial, actions, states, settings);
      passes, trace := DeviceSideIsARun(deviceId, at, initial, actions[..last], states[..last + 1], settings);
      assert Follows(states[last], actions[last], states[last + 1], settings);
      if actions[last].Quiet? || actions[last].Arrive? {
        var pass := actions[last].pass;
        Runs.RunsContinue(deviceId, true, at, passes, trace, pass);
        passes, trace := passes + [pass], trace + [Runs.Extend(trace[|passes|], pass)];
      }
    }
  }

  lemma {:induction false} PrefixIsRun(
    deviceId: string, at: int, initial: A.Database, actions: seq<Action>, states: seq<Network>, settings: Settings)
    requires IsRun(deviceId, at, initial, actions, states, settings) && actions != []
    ensures IsRun(deviceId, at, initial, actions[..|actions| - 1], states[..|actions|], settings)
  {
    var last := |actions| - 1;
    forall i | 0 <= i < last
      ensures Follows(states[..last + 1][i], actions[..last][i], states[..last + 1][i + 1], settings)
    {
      assert Follows(states[i], actions[i], states[i + 1], settings);
    }
  }

  /** The server's side is a run of interleaved transactions, so it is equivalent to serial
      execution in lock order. */
  lemma {:induction false} ServerSideIsARun(
    deviceId: string, at: int, initial: A.Database, actions: seq<Action>, states: seq<Network>, settings: Settings)
    returns (steps: seq<C.Action>, systems: seq<C.System>)
    requires IsRun(deviceId, at, initial, actions, states, settings)
    ensures C.IsRun(initial, steps, systems, settings) && systems[|steps|] == states[|actions|].system
    decreases |actions|
  {
    if actions == [] {
      steps, systems := [], [states[0].system];
    } else {
      var last := |actions| - 1;
      PrefixIsRun(deviceId, at, initial, actions, states, settings);
      steps, systems := ServerSideIsARun(deviceId, at, initial, actions[..last], states[..last + 1], settings);
      assert Follows(states[last], actions[last], states[last + 1], settings);
      var a := actions[last];
      if a.Server? || a.Serve? {
        var step := if a.Server? then a.action else C.Begin(a.t, ToRequest(states[last].attempts[a.attempt]));
        SystemRunExtends(initial, steps, systems, settings, step, states[last + 1].system);
        steps, systems := steps + [step], systems + [states[last + 1].system];
      }
    }
  }

  lemma {:induction false} SystemRunExtends(
    initial: A.Database, steps: seq<C.Action>, systems: seq<C.System>, settings: Settings, step: C.Action,
    next: C.System)
    requires C.IsRun(initial, steps, systems, settings) && C.Follows(systems[|steps|], step, next, settings)
    ensures C.IsRun(initial, steps + [step], systems + [next], settings)
  {
    var longer, more := systems + [next], steps + [step];
    forall i | 0 <= i < |more|
      ensures C.Follows(longer[i], more[i], longer[i + 1], settings)
    {
      if i < |steps| {
        assert C.Follows(systems[i], steps[i], systems[i + 1], settings);
      }
    }
  }

  /** End to end: in every run a message is sent at most seven times, its retries are spaced and
      carry one payload, and the server's data is the result of accepting, one after the other in
      lock order, the calls that took effect. */
  lemma {:induction false} EndToEnd(
    deviceId: string, at: int, initial: A.Database, actions: seq<Action>, states: seq<Network>, settings: Settings,
    id: MessageId)
    requires IsRun(deviceId, at, initial, actions, states, settings)
    ensures var n := states[|actions|];
            && Runs.WellSpaced(Runs.Sends(n.trace.log, id))
            && deviceId in n.system.db
            && n.system.db[deviceId]
               == A.AcceptAll(initial[deviceId], C.Calls(deviceId, n.system.lockOrder, n.system.txns), settings)
  {
    var passes, trace := DeviceSideIsARun(deviceId, at, initial, actions, states, settings);
    Runs.AttemptsAreBoundedAndSpaced(deviceId, true, at, passes, trace, id);
    var steps, systems := ServerSideIsARun(deviceId, at, initial, actions, states, settings);
    C.EveryInterleavingIsSerial(initial, steps, systems, settings);
    var s := states[|actions|].system;
    C.SerialIsSequence(deviceId, initial[deviceId], s.lockOrder, s.txns, settings);
  }
}
