/** Concurrent `accept` transactions as interleaved lock, read, write and commit steps under
    READ COMMITTED, and their equivalence to one-at-a-time execution in lock order. */
module ConcurrentAcceptance {
  import opened Wrappers
  import opened Alerting
  import opened Acceptance
  import opened Common

  type TxnId = nat

  /** How a finished call ended. `LostReply` is a durable commit whose reply never came back. */
  datatype Outcome = Returned(result: AcceptanceResult) | LostReply | RolledBack

  /** Where a transaction stands, with what it has read and written so far. */
  datatype Stage =
    | Waiting
    | Locked(lastEvaluatedAt: Option<int>)
    | Absent(lastEvaluatedAt: Option<int>)
    | Inserted(lastEvaluatedAt: Option<int>)
    | Evaluated(newLast: Option<int>, newAlerts: seq<Alert>)
    | Done(outcome: Outcome)
  {
    predicate HoldsLock() {
      !Waiting? && !Done?
    }

    predicate HasInserted() {
      Inserted? || Evaluated?
    }
  }

  datatype Txn = Txn(request: Request, stage: Stage) {
    predicate Effective() {
      stage.Done? && !stage.outcome.RolledBack?
    }

    predicate AddedRow() {
      stage.Done? && (stage.outcome == Returned(Created) || stage.outcome == LostReply)
    }
  }

  datatype System = System(
    db: Database,
    holders: map<string, TxnId>,
    txns: map<TxnId, Txn>,
    lockOrder: seq<TxnId>)
  {
    function Device(t: TxnId): string
      requires t in txns
    {
      txns[t].request.deviceId
    }

    function At(t: TxnId, stage: Stage): System
      requires t in txns
    {
      this.(txns := txns[t := txns[t].(stage := stage)])
    }

    function Finish(t: TxnId, outcome: Outcome): System
      requires t in txns
    {
      At(t, Done(outcome)).(holders := holders - {Device(t)})
    }

    /** The unique constraint would fire: the key is committed, or another transaction has it in flight. */
    ghost predicate Conflict(t: TxnId)
      requires t in txns && Device(t) in db
    {
      || Known(db[Device(t)], txns[t].request.messageId)
      || exists other :: other in txns && other != t && txns[other].stage.HasInserted()
           && Device(other) == Device(t) && txns[other].request.messageId == txns[t].request.messageId
    }
  }

  datatype Action =
    | Begin(t: TxnId, request: Request)
    | RejectUnregistered(t: TxnId)
    | Lock(t: TxnId)
    | Find(t: TxnId)
    | Insert(t: TxnId)
    | FailInsert(t: TxnId)
    | EvaluateAlerts(t: TxnId)
    | FailCheck(t: TxnId)
    | Commit(t: TxnId, replyArrives: bool)
    | Abort(t: TxnId)

  /** The alert rows that a transaction has in its session after evaluating its measurement. */
  function SessionAlerts(s: System, t: TxnId, settings: Settings): seq<Alert>
    requires t in s.txns && s.txns[t].stage.Inserted? && s.Device(t) in s.db
  {
    var request := s.txns[t].request;
    var last := s.txns[t].stage.lastEvaluatedAt;
    if last.None? || request.measuredAt > last.value
      then Evaluate(s.db[request.deviceId].alerts, request.Observed(), settings)
    else s.db[request.deviceId].alerts
  }

  predicate PassesCheck(s: System, t: TxnId, settings: Settings)
    requires t in s.txns && s.txns[t].stage.Inserted? && s.Device(t) in s.db
  {
    InsertsHold(s.db[s.Device(t)].alerts, SessionAlerts(s, t, settings))
  }

  ghost predicate Enabled(s: System, a: Action, settings: Settings) {
    match a
    case Begin(t, _) => t !in s.txns
    case RejectUnregistered(t) => t in s.txns && s.txns[t].stage == Waiting && s.Device(t) !in s.db
    case Lock(t) => t in s.txns && s.txns[t].stage == Waiting && s.Device(t) in s.db && s.Device(t) !in s.holders
    case Find(t) => t in s.txns && s.txns[t].stage.Locked? && s.Device(t) in s.db
    case Insert(t) => t in s.txns && s.txns[t].stage.Absent? && s.Device(t) in s.db && !s.Conflict(t)
    case FailInsert(t) => t in s.txns && s.txns[t].stage.Absent? && s.Device(t) in s.db && s.Conflict(t)
    case EvaluateAlerts(t) =>
      t in s.txns && s.txns[t].stage.Inserted? && s.Device(t) in s.db && PassesCheck(s, t, settings)
    case FailCheck(t) =>
      t in s.txns && s.txns[t].stage.Inserted? && s.Device(t) in s.db && !PassesCheck(s, t, settings)
    case Commit(t, _) => t in s.txns && s.txns[t].stage.Evaluated? && s.Device(t) in s.db
    case Abort(t) => t in s.txns && !s.txns[t].stage.Done?
  }

  ghost function Step(s: System, a: Action, settings: Settings): System
    requires Enabled(s, a, settings)
  {
    match a
    case Begin(t, request) => s.(txns := s.txns[t := Txn(request, Waiting)])
    case RejectUnregistered(t) => s.At(t, Done(RolledBack))
    case Lock(t) =>
      s.At(t, Locked(s.db[s.Device(t)].lastEvaluatedAt))
       .(holders := s.holders[s.Device(t) := t], lockOrder := s.lockOrder + [t])
    case Find(t) =>
      if Known(s.db[s.Device(t)], s.txns[t].request.messageId) then s.Finish(t, Returned(AlreadyAccepted))
      else s.At(t, Absent(s.txns[t].stage.lastEvaluatedAt))
    case Insert(t) => s.At(t, Inserted(s.txns[t].stage.lastEvaluatedAt))
    case FailInsert(t) =>
      s.Finish(t, if Known(s.db[s.Device(t)], s.txns[t].request.messageId) then Returned(AlreadyAccepted)
        else RolledBack)
    case EvaluateAlerts(t) =>
      var request := s.txns[t].request;
      var last := s.txns[t].stage.lastEvaluatedAt;
      var evaluated := last.None? || request.measuredAt > last.value;
      s.At(t, Evaluated(if evaluated then Some(request.measuredAt) else last, SessionAlerts(s, t, settings)))
    case FailCheck(t) => s.Finish(t, RolledBack)
    case Commit(t, replyArrives) =>
      var request := s.txns[t].request;
      var stage := s.txns[t].stage;
      var d := DeviceData(stage.newLast, s.db[request.deviceId].rows + [Stored(request)], stage.newAlerts);
      s.Finish(t, if replyArrives then Returned(Created) else LostReply).(db := s.db[request.deviceId := d])
    case Abort(t) =>
      if s.txns[t].stage.HoldsLock() then s.Finish(t, RolledBack) else s.At(t, Done(RolledBack))
  }

  ghost predicate IsRun(initial: Database, actions: seq<Action>, states: seq<System>, settings: Settings) {
    && |states| == |actions| + 1
    && states[0] == System(initial, map[], map[], [])
    && forall n :: 0 <= n < |actions| ==> Follows(states[n], actions[n], states[n + 1], settings)
  }

  ghost predicate Follows(s: System, a: Action, next: System, settings: Settings) {
    Enabled(s, a, settings) && next == Step(s, a, settings)
  }

  // --- One-at-a-time execution ---

  /** The device after running, one at a time and in `order`, the calls that took effect on it. */
  function SerialOn(
    device: string, d: DeviceData, order: seq<TxnId>, txns: map<TxnId, Txn>, settings: Settings): DeviceData {
    if order == [] then d
    else
      var before := SerialOn(device, d, order[..|order| - 1], txns, settings);
      var t := order[|order| - 1];
      if t in txns && txns[t].request.deviceId == device && txns[t].Effective()
        then Accepted(before, txns[t].request, settings)
      else before
  }

  function RowsAdded(device: string, order: seq<TxnId>, txns: map<TxnId, Txn>): nat {
    if order == [] then 0
    else
      var t := order[|order| - 1];
      RowsAdded(device, order[..|order| - 1], txns)
      + if t in txns && txns[t].request.deviceId == device && txns[t].AddedRow() then 1 else 0
  }

  lemma SerialAppend(
    device: string, d: DeviceData, order: seq<TxnId>, t: TxnId, txns: map<TxnId, Txn>, settings: Settings)
    ensures SerialOn(device, d, order + [t], txns, settings)
         == if t in txns && txns[t].request.deviceId == device && txns[t].Effective()
            then Accepted(SerialOn(device, d, order, txns, settings), txns[t].request, settings)
            else SerialOn(device, d, order, txns, settings)
  {
    assert (order + [t])[..|order|] == order;
  }

  /** Serial execution depends only on the effective calls of the device. */
  lemma {:induction false} SerialSame(
    device: string, d: DeviceData, order: seq<TxnId>, txns: map<TxnId, Txn>, other: map<TxnId, Txn>, settings: Settings)
    requires forall t :: t in order ==>
               SameFor(device, t, txns, other)
    ensures SerialOn(device, d, order, txns, settings) == SerialOn(device, d, order, other, settings)
  {
    if order != [] {
      var n := |order| - 1;
      forall t | t in order[..n]
        ensures SameFor(device, t, txns, other)
      {
        assert t in order;
      }
      assert SameFor(device, order[n], txns, other);
      SerialSame(device, d, order[..n], txns, other, settings);
    }
  }

  predicate SameFor(device: string, t: TxnId, txns: map<TxnId, Txn>, other: map<TxnId, Txn>) {
    var here := t in txns && txns[t].request.deviceId == device && txns[t].Effective();
    var there := t in other && other[t].request.deviceId == device && other[t].Effective();
    here == there && (here ==> txns[t].request == other[t].request)
  }

  /** Entries of other devices after position `p` do not matter. */
  lemma {:induction false} SerialSkipsOthers(
    device: string, d: DeviceData, order: seq<TxnId>, p: nat, txns: map<TxnId, Txn>, settings: Settings)
    requires p <= |order|
    requires forall q :: p <= q < |order| ==> order[q] in txns && txns[order[q]].request.deviceId != device
    ensures SerialOn(device, d, order, txns, settings) == SerialOn(device, d, order[..p], txns, settings)
  {
    if p < |order| {
      var n := |order| - 1;
      SerialSkipsOthers(device, d, order[..n], p, txns, settings);
      assert order[..n][..p] == order[..p];
    } else {
      assert order[..p] == order;
    }
  }

  // --- The invariant ---

  ghost predicate LockedBy(s: System, t: TxnId) {
    t in s.txns && s.Device(t) in s.holders && s.holders[s.Device(t)] == t
  }

  /** The row lock: exactly the transactions inside their critical section hold it. */
  ghost predicate LocksOk(s: System) {
    && (forall t :: t in s.txns && s.txns[t].stage.HoldsLock() ==> LockedBy(s, t) && s.Device(t) in s.db)
    && (forall device :: device in s.holders ==>
          s.holders[device] in s.txns && s.Device(s.holders[device]) == device
            && s.txns[s.holders[device]].stage.HoldsLock())
  }

  /** What a lock holder has read is still what the database holds. */
  ghost predicate SnapshotOk(s: System, t: TxnId, settings: Settings)
    requires t in s.txns && s.Device(t) in s.db
  {
    var d := s.db[s.Device(t)];
    var request := s.txns[t].request;
    match s.txns[t].stage
    case Waiting => true
    case Done(_) => true
    case Locked(last) => last == d.lastEvaluatedAt
    case Absent(last) => last == d.lastEvaluatedAt && !Known(d, request.messageId)
    case Inserted(last) => last == d.lastEvaluatedAt && !Known(d, request.messageId)
    case Evaluated(last, alerts) =>
      !Known(d, request.messageId) && !Refused(d, request, settings)
        && DeviceData(last, d.rows + [Stored(request)], alerts) == Accepted(d, request, settings)
  }

  ghost predicate SnapshotsOk(s: System, settings: Settings)
    requires LocksOk(s)
  {
    forall t :: t in s.txns && s.txns[t].stage.HoldsLock() ==> SnapshotOk(s, t, settings)
  }

  /** Lock order: every entry has locked, every call that locked is in it once, and on one device
      everything before an entry has finished. */
  ghost predicate OrderOk(s: System) {
    && (forall p :: 0 <= p < |s.lockOrder| ==> s.lockOrder[p] in s.txns && !s.txns[s.lockOrder[p]].stage.Waiting?)
    && (forall p, q :: 0 <= p < q < |s.lockOrder| ==> s.lockOrder[p] != s.lockOrder[q])
    && (forall p, q :: 0 <= p < q < |s.lockOrder| && s.Device(s.lockOrder[p]) == s.Device(s.lockOrder[q]) ==>
          s.txns[s.lockOrder[p]].stage.Done?)
    && (forall t :: t in s.txns && (s.txns[t].stage.HoldsLock() || s.txns[t].Effective()) ==> t in s.lockOrder)
  }

  /** An effective call ended as it would have on device data `d`. */
  predicate RanOn(d: DeviceData, txn: Txn, settings: Settings)
    requires txn.Effective()
  {
    && (txn.stage.outcome == Returned(AlreadyAccepted) <==> Known(d, txn.request.messageId))
    && !Refused(d, txn.request, settings)
  }

  /** Each effective call returned what it would return when run alone at its place in lock order. */
  ghost predicate ResultOk(s: System, initial: Database, settings: Settings, p: nat)
    requires p < |s.lockOrder| && s.lockOrder[p] in s.txns
  {
    var t := s.lockOrder[p];
    var device := s.Device(t);
    device in initial && s.txns[t].Effective() ==>
      RanOn(SerialOn(device, initial[device], s.lockOrder[..p], s.txns, settings), s.txns[t], settings)
  }

  ghost predicate SerialOk(s: System, initial: Database, settings: Settings) {
    && s.db.Keys == initial.Keys
    && forall device :: device in s.db ==>
       s.db[device] == SerialOn(device, initial[device], s.lockOrder, s.txns, settings)
  }

  ghost predicate ResultsOk(s: System, initial: Database, settings: Settings)
    requires OrderOk(s)
  {
    forall p :: 0 <= p < |s.lockOrder| ==> ResultOk(s, initial, settings, p)
  }

  ghost predicate Inv(s: System, initial: Database, settings: Settings) {
    && LocksOk(s)
    && OrderOk(s)
    && SnapshotsOk(s, settings)
    && SerialOk(s, initial, settings)
    && ResultsOk(s, initial, settings)
  }

  // --- Frames ---

  /** Holders other than `t` are untouched, so what they read is still current. */
  lemma SnapshotsFramed(s: System, next: System, t: TxnId, settings: Settings)
    requires LocksOk(s) && SnapshotsOk(s, settings) && LocksOk(next)
    requires forall u :: u in next.txns && u != t && next.txns[u].stage.HoldsLock() ==>
               u in s.txns && s.txns[u] == next.txns[u] && next.db[next.Device(u)] == s.db[s.Device(u)]
    requires t in next.txns && next.txns[t].stage.HoldsLock() ==> SnapshotOk(next, t, settings)
    ensures SnapshotsOk(next, settings)
  {
    forall u | u in next.txns && next.txns[u].stage.HoldsLock()
      ensures SnapshotOk(next, u, settings)
    {
      if u != t {
        assert SnapshotOk(s, u, settings);
      }
    }
  }

  /** A call that takes no effect leaves every serial result as it was. */
  lemma SerialFramed(
    device: string, d: DeviceData, order: seq<TxnId>, t: TxnId, txns: map<TxnId, Txn>, changed: Txn, settings: Settings)
    requires t in txns ==> !txns[t].Effective()
    requires !changed.Effective()
    ensures SerialOn(device, d, order, txns[t := changed], settings) == SerialOn(device, d, order, txns, settings)
  {
    SerialSame(device, d, order, txns, txns[t := changed], settings);
  }

  /** Every step that commits nothing and grows no order keeps the invariant, if it keeps the locks. */
  lemma IneffectiveStep(s: System, next: System, initial: Database, settings: Settings, t: TxnId)
    requires Inv(s, initial, settings)
    requires next.db == s.db && next.lockOrder == s.lockOrder
    requires t in next.txns && next.txns == s.txns[t := next.txns[t]] && !next.txns[t].Effective()
    requires t in s.txns ==> !s.txns[t].Effective()
    requires LocksOk(next) && OrderOk(next)
    requires next.txns[t].stage.HoldsLock() ==> SnapshotOk(next, t, settings)
    ensures Inv(next, initial, settings)
  {
    SnapshotsFramed(s, next, t, settings);
    forall device | device in next.db
      ensures next.db[device] == SerialOn(device, initial[device], next.lockOrder, next.txns, settings)
    {
      SerialFramed(device, initial[device], s.lockOrder, t, s.txns, next.txns[t], settings);
    }
    forall p | 0 <= p < |next.lockOrder|
      ensures ResultOk(next, initial, settings, p)
    {
      ResultFramed(s, next, initial, settings, t, p);
    }
  }

  lemma ResultFramed(s: System, next: System, initial: Database, settings: Settings, t: TxnId, p: nat)
    requires p < |s.lockOrder| && s.lockOrder <= next.lockOrder
    requires s.lockOrder[p] in s.txns && ResultOk(s, initial, settings, p)
    requires t in next.txns && next.txns == s.txns[t := next.txns[t]] && !next.txns[t].Effective()
    requires t in s.txns ==> !s.txns[t].Effective()
    ensures ResultOk(next, initial, settings, p)
  {
    var u := s.lockOrder[p];
    assert next.lockOrder[..p] == s.lockOrder[..p];
    if u != t && s.Device(u) in initial {
      SerialFramed(s.Device(u), initial[s.Device(u)], s.lockOrder[..p], t, s.txns, next.txns[t], settings);
    }
  }

  /** Changing the stage of one call without locking or unlocking keeps the locks. */
  lemma LocksFramed(s: System, next: System, t: TxnId)
    requires LocksOk(s) && next.db == s.db && next.holders == s.holders
    requires t in next.txns && next.txns == s.txns[t := next.txns[t]]
    requires t in s.txns ==> next.txns[t].request == s.txns[t].request
    requires next.txns[t].stage.HoldsLock() <==> t in s.txns && s.txns[t].stage.HoldsLock()
    ensures LocksOk(next)
  {
    forall u | u in next.txns && next.txns[u].stage.HoldsLock()
      ensures LockedBy(next, u) && next.Device(u) in next.db
    {
      assert LockedBy(s, u);
    }
  }

  /** Moving one unfinished call forward keeps the lock order. */
  lemma OrderFramed(s: System, next: System, t: TxnId)
    requires OrderOk(s) && next.lockOrder == s.lockOrder
    requires t in next.txns && next.txns == s.txns[t := next.txns[t]]
    requires t in s.txns ==> next.txns[t].request == s.txns[t].request && !s.txns[t].stage.Done?
    requires t in s.lockOrder ==> !next.txns[t].stage.Waiting?
    requires next.txns[t].stage.HoldsLock() || next.txns[t].Effective() ==> t in s.lockOrder
    ensures OrderOk(next)
  {
    forall p, q | 0 <= p < q < |s.lockOrder| && next.Device(s.lockOrder[p]) == next.Device(s.lockOrder[q])
      ensures next.txns[s.lockOrder[p]].stage.Done?
    {
      assert s.Device(s.lockOrder[p]) == s.Device(s.lockOrder[q]);
      assert s.txns[s.lockOrder[p]].stage.Done?;
    }
  }

  lemma OneHolderPerDevice(s: System, t: TxnId, u: TxnId)
    requires LocksOk(s) && t in s.txns && u in s.txns && t != u
    requires s.txns[t].stage.HoldsLock() && s.txns[u].stage.HoldsLock()
    ensures s.Device(t) != s.Device(u)
  {
    assert LockedBy(s, t) && LockedBy(s, u);
  }

  // --- Every step keeps the invariant ---

  lemma BeginKeepsInv(s: System, initial: Database, settings: Settings, t: TxnId, request: Request)
    requires Inv(s, initial, settings) && t !in s.txns
    ensures Inv(s.(txns := s.txns[t := Txn(request, Waiting)]), initial, settings)
  {
    var next := s.(txns := s.txns[t := Txn(request, Waiting)]);
    LocksFramed(s, next, t);
    OrderFramed(s, next, t);
    IneffectiveStep(s, next, initial, settings, t);
  }

  lemma LeaveQueueKeepsInv(s: System, initial: Database, settings: Settings, t: TxnId)
    requires Inv(s, initial, settings) && t in s.txns && s.txns[t].stage == Waiting
    ensures Inv(s.At(t, Done(RolledBack)), initial, settings)
  {
    var next := s.At(t, Done(RolledBack));
    LocksFramed(s, next, t);
    OrderFramed(s, next, t);
    IneffectiveStep(s, next, initial, settings, t);
  }

  lemma StageKeepsInv(s: System, initial: Database, settings: Settings, t: TxnId, stage: Stage)
    requires Inv(s, initial, settings) && t in s.txns && s.txns[t].stage.HoldsLock() && stage.HoldsLock()
    requires s.Device(t) in s.db && SnapshotOk(s.At(t, stage), t, settings)
    ensures Inv(s.At(t, stage), initial, settings)
  {
    var next := s.At(t, stage);
    LocksFramed(s, next, t);
    OrderFramed(s, next, t);
    IneffectiveStep(s, next, initial, settings, t);
  }

  /** `t` ends and gives its device's lock back. */
  ghost predicate Ends(s: System, next: System, t: TxnId) {
    && t in s.txns && s.txns[t].stage.HoldsLock()
    && t in next.txns && next.txns == s.txns[t := next.txns[t]]
    && next.txns[t].request == s.txns[t].request && next.txns[t].stage.Done?
    && next.holders == s.holders - {s.Device(t)}
    && next.lockOrder == s.lockOrder
    && next.db.Keys == s.db.Keys
  }

  lemma EndUnlocks(s: System, next: System, t: TxnId)
    requires LocksOk(s) && OrderOk(s) && Ends(s, next, t)
    ensures LocksOk(next) && OrderOk(next)
  {
    OrderFramed(s, next, t);
    assert LockedBy(s, t);
    forall u | u in next.txns && next.txns[u].stage.HoldsLock()
      ensures LockedBy(next, u) && next.Device(u) in next.db
    {
      assert LockedBy(s, u);
      OneHolderPerDevice(s, t, u);
    }
  }

  lemma {:induction false} RollbackKeepsInv(s: System, initial: Database, settings: Settings, t: TxnId)
    requires Inv(s, initial, settings) && t in s.txns && s.txns[t].stage.HoldsLock()
    ensures Inv(s.Finish(t, RolledBack), initial, settings)
  {
    EndUnlocks(s, s.Finish(t, RolledBack), t);
    IneffectiveStep(s, s.Finish(t, RolledBack), initial, settings, t);
  }

  lemma {:induction false} LockKeepsInv(s: System, initial: Database, settings: Settings, t: TxnId)
    requires Inv(s, initial, settings) && Enabled(s, Lock(t), settings)
    ensures Inv(Step(s, Lock(t), settings), initial, settings)
  {
    var next := Step(s, Lock(t), settings);
    LockTaken(s, next, t);
    LockOrderGrows(s, next, t);
    SnapshotsFramed(s, next, t, settings);
    LockKeepsSerial(s, next, initial, settings, t);
    LockKeepsResults(s, next, initial, settings, t);
  }

  lemma LockKeepsSerial(s: System, next: System, initial: Database, settings: Settings, t: TxnId)
    requires SerialOk(s, initial, settings) && t in s.txns && !s.txns[t].Effective()
    requires next.db == s.db && next.lockOrder == s.lockOrder + [t]
    requires t in next.txns && next.txns == s.txns[t := next.txns[t]] && !next.txns[t].Effective()
    ensures SerialOk(next, initial, settings)
  {
    forall device | device in next.db
      ensures next.db[device] == SerialOn(device, initial[device], next.lockOrder, next.txns, settings)
    {
      SerialFramed(device, initial[device], s.lockOrder, t, s.txns, next.txns[t], settings);
      SerialAppend(device, initial[device], s.lockOrder, t, next.txns, settings);
    }
  }

  lemma LockKeepsResults(s: System, next: System, initial: Database, settings: Settings, t: TxnId)
    requires OrderOk(s) && OrderOk(next) && ResultsOk(s, initial, settings)
    requires t in s.txns && !s.txns[t].Effective() && next.lockOrder == s.lockOrder + [t]
    requires t in next.txns && next.txns == s.txns[t := next.txns[t]] && !next.txns[t].Effective()
    ensures ResultsOk(next, initial, settings)
  {
    forall p | 0 <= p < |next.lockOrder|
      ensures ResultOk(next, initial, settings, p)
    {
      if p < |s.lockOrder| {
        ResultFramed(s, next, initial, settings, t, p);
      }
    }
  }

  lemma LockTaken(s: System, next: System, t: TxnId)
    requires LocksOk(s) && t in s.txns && s.txns[t].stage == Waiting && s.Device(t) in s.db && s.Device(t) !in s.holders
    requires next.db == s.db && next.holders == s.holders[s.Device(t) := t]
    requires t in next.txns && next.txns == s.txns[t := next.txns[t]]
    requires next.txns[t].request == s.txns[t].request && next.txns[t].stage.HoldsLock()
    ensures LocksOk(next)
  {
    forall u | u in next.txns && next.txns[u].stage.HoldsLock()
      ensures LockedBy(next, u) && next.Device(u) in next.db
    {
      if u != t {
        assert LockedBy(s, u);
      }
    }
  }

  lemma LockOrderGrows(s: System, next: System, t: TxnId)
    requires LocksOk(s) && OrderOk(s)
    requires t in s.txns && s.txns[t].stage == Waiting && s.Device(t) !in s.holders
    requires next.lockOrder == s.lockOrder + [t]
    requires t in next.txns && next.txns == s.txns[t := next.txns[t]]
    requires next.txns[t].request == s.txns[t].request && next.txns[t].stage.HoldsLock()
    ensures OrderOk(next)
  {
    EarlierAreDone(s, t);
    forall p, q | 0 <= p < q < |next.lockOrder| && next.Device(next.lockOrder[p]) == next.Device(next.lockOrder[q])
      ensures next.txns[next.lockOrder[p]].stage.Done?
    {
      assert next.lockOrder[p] == s.lockOrder[p] && s.lockOrder[p] != t;
      assert q < |s.lockOrder| ==> next.lockOrder[q] == s.lockOrder[q];
    }
    assert next.lockOrder[|s.lockOrder|] == t;
  }

  lemma EarlierAreDone(s: System, t: TxnId)
    requires LocksOk(s) && OrderOk(s) && t in s.txns && s.Device(t) !in s.holders
    ensures forall p :: 0 <= p < |s.lockOrder| && s.Device(s.lockOrder[p]) == s.Device(t) ==>
            s.txns[s.lockOrder[p]].stage.Done?
  {
    forall p | 0 <= p < |s.lockOrder| && s.Device(s.lockOrder[p]) == s.Device(t)
      ensures s.txns[s.lockOrder[p]].stage.Done?
    {
      var u := s.lockOrder[p];
      assert s.txns[u].stage.HoldsLock() ==> LockedBy(s, u);
    }
  }

  lemma HolderPosition(s: System, t: TxnId) returns (p: nat)
    requires OrderOk(s) && t in s.txns && s.txns[t].stage.HoldsLock()
    ensures LastAt(s, t, p)
  {
    p :| 0 <= p < |s.lockOrder| && s.lockOrder[p] == t;
    forall q | p < q < |s.lockOrder|
      ensures s.lockOrder[q] in s.txns && s.Device(s.lockOrder[q]) != s.Device(t)
    {
      LaterIsOther(s, p, q);
    }
  }

  lemma LaterIsOther(s: System, p: nat, q: nat)
    requires OrderOk(s) && p < q < |s.lockOrder| && !s.txns[s.lockOrder[p]].stage.Done?
    ensures s.Device(s.lockOrder[q]) != s.Device(s.lockOrder[p])
  {
  }

  /** The call holding a device's lock: nobody of its device follows it in lock order, so the
      database is the serial result up to its place. */
  lemma HolderIsLast(s: System, initial: Database, settings: Settings, t: TxnId) returns (p: nat)
    requires OrderOk(s) && SerialOk(s, initial, settings)
    requires t in s.txns && s.txns[t].stage.HoldsLock() && s.Device(t) in s.db
    ensures LastAt(s, t, p)
    ensures s.db[s.Device(t)] == SerialOn(s.Device(t), initial[s.Device(t)], s.lockOrder[..p], s.txns, settings)
  {
    p := HolderPosition(s, t);
    SerialUpToHolder(s, initial[s.Device(t)], settings, t, p);
  }

  lemma SerialUpToHolder(s: System, d0: DeviceData, settings: Settings, t: TxnId, p: nat)
    requires t in s.txns && s.txns[t].stage.HoldsLock() && LastAt(s, t, p)
    ensures SerialOn(s.Device(t), d0, s.lockOrder, s.txns, settings)
            == SerialOn(s.Device(t), d0, s.lockOrder[..p], s.txns, settings)
  {
    SerialSkipsOthers(s.Device(t), d0, s.lockOrder, p + 1, s.txns, settings);
    assert s.lockOrder[..p + 1] == s.lockOrder[..p] + [t];
    SerialAppend(s.Device(t), d0, s.lockOrder[..p], t, s.txns, settings);
  }

  ghost predicate LastAt(s: System, t: TxnId, p: nat)
    requires t in s.txns
  {
    && p < |s.lockOrder| && s.lockOrder[p] == t && t !in s.lockOrder[..p]
    && forall q :: p < q < |s.lockOrder| ==> s.lockOrder[q] in s.txns && s.Device(s.lockOrder[q]) != s.Device(t)
  }

  /** A lock holder ends with the effect of `Accepted` and the matching result. */
  lemma {:induction false} EffectKeepsInv(
    s: System, next: System, initial: Database, settings: Settings, t: TxnId, d: DeviceData)
    requires Inv(s, initial, settings) && Ends(s, next, t) && s.Device(t) in s.db && next.txns[t].Effective()
    requires RanOn(s.db[s.Device(t)], next.txns[t], settings)
    requires d == Accepted(s.db[s.Device(t)], s.txns[t].request, settings) && next.db == s.db[s.Device(t) := d]
    ensures Inv(next, initial, settings)
  {
    EndUnlocks(s, next, t);
    EndKeepsSnapshots(s, next, settings, t, d);
    EffectKeepsHistory(s, next, initial, settings, t);
  }

  lemma EndKeepsSnapshots(s: System, next: System, settings: Settings, t: TxnId, d: DeviceData)
    requires LocksOk(s) && SnapshotsOk(s, settings) && LocksOk(next) && Ends(s, next, t)
    requires s.Device(t) in s.db && next.db == s.db[s.Device(t) := d]
    ensures SnapshotsOk(next, settings)
  {
    forall u | u in next.txns && next.txns[u].stage.HoldsLock()
      ensures s.Device(u) != s.Device(t)
    {
      OneHolderPerDevice(s, t, u);
    }
    SnapshotsFramed(s, next, t, settings);
  }

  lemma EffectKeepsHistory(s: System, next: System, initial: Database, settings: Settings, t: TxnId)
    requires OrderOk(s) && OrderOk(next) && SerialOk(s, initial, settings) && ResultsOk(s, initial, settings)
    requires t in s.txns && s.txns[t].stage.HoldsLock() && s.Device(t) in s.db
    requires t in next.txns && next.txns == s.txns[t := next.txns[t]]
    requires next.txns[t].request == s.txns[t].request && next.txns[t].Effective() && next.lockOrder == s.lockOrder
    requires RanOn(s.db[s.Device(t)], next.txns[t], settings)
    requires next.db == s.db[s.Device(t) := Accepted(s.db[s.Device(t)], s.txns[t].request, settings)]
    ensures SerialOk(next, initial, settings) && ResultsOk(next, initial, settings)
  {
    var p := HolderIsLast(s, initial, settings, t);
    EffectIsSerial(s, next, initial, settings, t, p);
    EffectKeepsResults(s, next, initial, settings, t, p);
  }

  lemma EffectKeepsResults(s: System, next: System, initial: Database, settings: Settings, t: TxnId, p: nat)
    requires OrderOk(s) && OrderOk(next) && ResultsOk(s, initial, settings)
    requires t in s.txns && !s.txns[t].Effective() && LastAt(s, t, p)
    requires t in next.txns && next.txns == s.txns[t := next.txns[t]]
    requires next.txns[t].request == s.txns[t].request && next.lockOrder == s.lockOrder
    requires ResultOk(next, initial, settings, p)
    ensures ResultsOk(next, initial, settings)
  {
    forall q | 0 <= q < |next.lockOrder|
      ensures ResultOk(next, initial, settings, q)
    {
      if q != p {
        EffectKeepsResult(s, next, initial, settings, t, p, q);
      }
    }
  }

  /** On the device of the ending call, serial execution up to its place is unchanged, and up to
      the end it now has that call's effect. */
  lemma {:induction false} EffectOnItsDevice(
    s: System, next: System, d0: DeviceData, settings: Settings, t: TxnId, p: nat)
    requires t in s.txns && !s.txns[t].Effective() && LastAt(s, t, p)
    requires t in next.txns && next.txns == s.txns[t := next.txns[t]]
    requires next.txns[t].request == s.txns[t].request && next.txns[t].Effective() && next.lockOrder == s.lockOrder
    ensures var before := SerialOn(s.Device(t), d0, s.lockOrder[..p], s.txns, settings);
            && SerialOn(s.Device(t), d0, s.lockOrder[..p], next.txns, settings) == before
            && SerialOn(s.Device(t), d0, s.lockOrder, next.txns, settings)
               == Accepted(before, s.txns[t].request, settings)
  {
    var device := s.Device(t);
    SerialSame(device, d0, s.lockOrder[..p], s.txns, next.txns, settings);
    SerialAppend(device, d0, s.lockOrder[..p], t, next.txns, settings);
    assert s.lockOrder[..p + 1] == s.lockOrder[..p] + [t];
    SerialSkipsOthers(device, d0, s.lockOrder, p + 1, next.txns, settings);
  }

  /** On every other device nothing changes. */
  lemma {:induction false} EffectOnOthers(
    s: System, next: System, other: string, d0: DeviceData, settings: Settings, t: TxnId)
    requires t in s.txns && t in next.txns && next.txns == s.txns[t := next.txns[t]]
    requires next.txns[t].request == s.txns[t].request && s.Device(t) != other
    ensures SerialOn(other, d0, s.lockOrder, next.txns, settings) == SerialOn(other, d0, s.lockOrder, s.txns, settings)
  {
    SerialSame(other, d0, s.lockOrder, s.txns, next.txns, settings);
  }

  lemma {:induction false} EffectIsSerial(
    s: System, next: System, initial: Database, settings: Settings, t: TxnId, p: nat)
    requires SerialOk(s, initial, settings) && t in s.txns && s.Device(t) in s.db && !s.txns[t].Effective()
    requires LastAt(s, t, p)
    requires s.db[s.Device(t)] == SerialOn(s.Device(t), initial[s.Device(t)], s.lockOrder[..p], s.txns, settings)
    requires t in next.txns && next.txns == s.txns[t := next.txns[t]]
    requires next.txns[t].request == s.txns[t].request && next.txns[t].Effective()
    requires next.lockOrder == s.lockOrder
    requires next.db == s.db[s.Device(t) := Accepted(s.db[s.Device(t)], s.txns[t].request, settings)]
    ensures SerialOk(next, initial, settings)
    ensures SerialOn(s.Device(t), initial[s.Device(t)], s.lockOrder[..p], next.txns, settings) == s.db[s.Device(t)]
  {
    EffectOnItsDevice(s, next, initial[s.Device(t)], settings, t, p);
    forall other | other in s.db && other != s.Device(t)
      ensures SerialOn(other, initial[other], s.lockOrder, next.txns, settings) == s.db[other]
    {
      EffectOnOthers(s, next, other, initial[other], settings, t);
    }
  }

  lemma EffectKeepsResult(s: System, next: System, initial: Database, settings: Settings, t: TxnId, p: nat, q: nat)
    requires t in s.txns && !s.txns[t].Effective() && LastAt(s, t, p) && q < |s.lockOrder| && q != p
    requires s.lockOrder[q] in s.txns && s.lockOrder[q] != t && ResultOk(s, initial, settings, q)
    requires t in next.txns && next.txns == s.txns[t := next.txns[t]]
    requires next.txns[t].request == s.txns[t].request && next.lockOrder == s.lockOrder
    ensures ResultOk(next, initial, settings, q)
  {
    var device := s.Device(s.lockOrder[q]);
    if device in initial {
      if q < p {
        assert s.lockOrder[..p][..q] == s.lockOrder[..q];
        assert forall v :: v in s.lockOrder[..q] ==> v in s.lockOrder[..p];
      }
      SerialSame(device, initial[device], s.lockOrder[..q], s.txns, next.txns, settings);
    }
  }

  lemma NoConflictAfterFind(s: System, initial: Database, settings: Settings, t: TxnId)
    requires Inv(s, initial, settings) && t in s.txns && s.txns[t].stage.Absent? && s.Device(t) in s.db
    ensures !s.Conflict(t)
  {
    assert SnapshotOk(s, t, settings);
    forall other | other in s.txns && other != t && s.txns[other].stage.HasInserted()
      ensures s.Device(other) != s.Device(t)
    {
      OneHolderPerDevice(s, t, other);
    }
  }

  lemma {:induction false} FindKeepsInv(s: System, initial: Database, settings: Settings, t: TxnId)
    requires Inv(s, initial, settings) && Enabled(s, Find(t), settings)
    ensures Inv(Step(s, Find(t), settings), initial, settings)
  {
    assert SnapshotOk(s, t, settings);
    if Known(s.db[s.Device(t)], s.txns[t].request.messageId) {
      assert s.db[s.Device(t) := s.db[s.Device(t)]] == s.db;
      EffectKeepsInv(s, s.Finish(t, Returned(AlreadyAccepted)), initial, settings, t, s.db[s.Device(t)]);
    } else {
      StageKeepsInv(s, initial, settings, t, Absent(s.txns[t].stage.lastEvaluatedAt));
    }
  }

  lemma {:induction false} EvaluateKeepsInv(s: System, initial: Database, settings: Settings, t: TxnId)
    requires Inv(s, initial, settings) && Enabled(s, EvaluateAlerts(t), settings)
    ensures Inv(Step(s, EvaluateAlerts(t), settings), initial, settings)
  {
    assert SnapshotOk(s, t, settings);
    StageKeepsInv(s, initial, settings, t, Step(s, EvaluateAlerts(t), settings).txns[t].stage);
  }

  lemma {:induction false} CommitKeepsInv(
    s: System, initial: Database, settings: Settings, t: TxnId, replyArrives: bool)
    requires Inv(s, initial, settings) && Enabled(s, Commit(t, replyArrives), settings)
    ensures Inv(Step(s, Commit(t, replyArrives), settings), initial, settings)
  {
    assert SnapshotOk(s, t, settings);
    var next := Step(s, Commit(t, replyArrives), settings);
    EffectKeepsInv(s, next, initial, settings, t, next.db[s.Device(t)]);
  }

  lemma {:induction false} StepKeepsInv(s: System, a: Action, initial: Database, settings: Settings)
    requires Inv(s, initial, settings) && Enabled(s, a, settings)
    ensures !a.FailInsert?
    ensures Inv(Step(s, a, settings), initial, settings)
  {
    match a
    case Begin(t, request) => BeginKeepsInv(s, initial, settings, t, request);
    case RejectUnregistered(t) => LeaveQueueKeepsInv(s, initial, settings, t);
    case Lock(t) => LockKeepsInv(s, initial, settings, t);
    case Find(t) => FindKeepsInv(s, initial, settings, t);
    case Insert(t) =>
      assert SnapshotOk(s, t, settings);
      StageKeepsInv(s, initial, settings, t, Inserted(s.txns[t].stage.lastEvaluatedAt));
    case FailInsert(t) => NoConflictAfterFind(s, initial, settings, t);
    case EvaluateAlerts(t) => EvaluateKeepsInv(s, initial, settings, t);
    case FailCheck(t) => RollbackKeepsInv(s, initial, settings, t);
    case Commit(t, replyArrives) => CommitKeepsInv(s, initial, settings, t, replyArrives);
    case Abort(t) =>
      if s.txns[t].stage.HoldsLock() {
        RollbackKeepsInv(s, initial, settings, t);
      } else {
        LeaveQueueKeepsInv(s, initial, settings, t);
      }
  }

  lemma {:induction false} InvHolds(
    initial: Database, actions: seq<Action>, states: seq<System>, settings: Settings, n: nat)
    requires IsRun(initial, actions, states, settings) && n <= |actions|
    ensures Inv(states[n], initial, settings)
  {
    if n > 0 {
      InvHolds(initial, actions, states, settings, n - 1);
      assert Follows(states[n - 1], actions[n - 1], states[n - 1 + 1], settings);
      StepKeepsInv(states[n - 1], actions[n - 1], initial, settings);
    }
  }

  // --- Main results ---

  /** Every interleaving is equivalent to one-at-a-time execution in lock order: each device
      holds what that execution leaves, and each call returned what it returns there. */
  lemma EveryInterleavingIsSerial(initial: Database, actions: seq<Action>, states: seq<System>, settings: Settings)
    requires IsRun(initial, actions, states, settings)
    ensures var s := states[|actions|];
            && s.db.Keys == initial.Keys
            && (forall device :: device in s.db ==>
               s.db[device] == SerialOn(device, initial[device], s.lockOrder, s.txns, settings))
            && (forall p :: 0 <= p < |s.lockOrder| ==> s.lockOrder[p] in s.txns && ResultOk(s, initial, settings, p))
            && (forall t :: t in s.txns && s.txns[t].Effective() ==> t in s.lockOrder)
  {
    InvHolds(initial, actions, states, settings, |actions|);
  }

  /** The requests of the calls that took effect on a device, in lock order. */
  function Calls(device: string, order: seq<TxnId>, txns: map<TxnId, Txn>): seq<Request> {
    if order == [] then []
    else
      var t := order[|order| - 1];
      var rest := Calls(device, order[..|order| - 1], txns);
      if t in txns && txns[t].request.deviceId == device && txns[t].Effective() then rest + [txns[t].request] else rest
  }

  /** So concurrent histories inherit everything proved about sequences of acceptances. */
  lemma {:induction false} SerialIsSequence(
    device: string, d: DeviceData, order: seq<TxnId>, txns: map<TxnId, Txn>, settings: Settings)
    ensures SerialOn(device, d, order, txns, settings) == AcceptAll(d, Calls(device, order, txns), settings)
  {
    if order != [] {
      var rest := Calls(device, order[..|order| - 1], txns);
      SerialIsSequence(device, d, order[..|order| - 1], txns, settings);
      var t := order[|order| - 1];
      if t in txns {
        assert (rest + [txns[t].request])[..|rest|] == rest;
      }
    }
  }

  /** While every writer takes the row lock, the unique constraint never fires. */
  lemma DuplicateKeyBranchIsUnreachable(
    initial: Database, actions: seq<Action>, states: seq<System>, settings: Settings, n: nat)
    requires IsRun(initial, actions, states, settings) && n < |actions|
    ensures !actions[n].FailInsert?
  {
    InvHolds(initial, actions, states, settings, n);
    assert Follows(states[n], actions[n], states[n + 1], settings);
    StepKeepsInv(states[n], actions[n], initial, settings);
  }

  /** The rows added to a device are exactly its CREATED replies plus the commits whose reply was lost. */
  lemma CreatedRepliesCountRows(
    initial: Database, actions: seq<Action>, states: seq<System>, settings: Settings, device: string)
    requires IsRun(initial, actions, states, settings) && device in initial
    ensures var s := states[|actions|];
            device in s.db && |s.db[device].rows| == |initial[device].rows| + RowsAdded(device, s.lockOrder, s.txns)
  {
    InvHolds(initial, actions, states, settings, |actions|);
    var s := states[|actions|];
    assert s.lockOrder[..|s.lockOrder|] == s.lockOrder;
    RowsCounted(s, initial, settings, device, |s.lockOrder|);
  }

  lemma {:induction false} RowsCounted(s: System, initial: Database, settings: Settings, device: string, n: nat)
    requires Inv(s, initial, settings) && device in initial && n <= |s.lockOrder|
    ensures |SerialOn(device, initial[device], s.lockOrder[..n], s.txns, settings).rows|
         == |initial[device].rows| + RowsAdded(device, s.lockOrder[..n], s.txns)
  {
    if n > 0 {
      var before := s.lockOrder[..n - 1];
      var t := s.lockOrder[n - 1];
      assert s.lockOrder[..n] == before + [t];
      RowsCounted(s, initial, settings, device, n - 1);
      SerialAppend(device, initial[device], before, t, s.txns, settings);
      RowsAppend(device, before, t, s.txns);
      assert ResultOk(s, initial, settings, n - 1);
      if t in s.txns {
        AddsUnlessKnown(s.txns[t]);
        AcceptedRows(SerialOn(device, initial[device], before, s.txns, settings), s.txns[t].request, settings);
      }
    } else {
      assert s.lockOrder[..0] == [];
    }
  }

  lemma AddsUnlessKnown(txn: Txn)
    ensures txn.AddedRow() <==> txn.Effective() && txn.stage.outcome != Returned(AlreadyAccepted)
  {
    if txn.Effective() && txn.stage.outcome.Returned? {
      assert txn.stage.outcome.result == Created || txn.stage.outcome.result == AlreadyAccepted;
    }
  }

  lemma AcceptedRows(d: DeviceData, r: Request, settings: Settings)
    ensures |Accepted(d, r, settings).rows|
         == |d.rows| + if Known(d, r.messageId) || Refused(d, r, settings) then 0 else 1
  {
  }

  lemma RowsAppend(device: string, order: seq<TxnId>, t: TxnId, txns: map<TxnId, Txn>)
    ensures RowsAdded(device, order + [t], txns)
         == RowsAdded(device, order, txns)
            + if t in txns && txns[t].request.deviceId == device && txns[t].AddedRow() then 1 else 0
  {
    assert (order + [t])[..|order|] == order;
  }
}
