/** Whole runs of the device loop: what the log of queued and sent measurements always looks
    like, for every sequence of `update()` passes over a clock that only moves forward and
    message ids that are never reused. */
module DeviceRuns {
  import opened Wrappers
  import opened WrappingClock
  import opened Common
  import opened Retrying
  import opened Application

  /** A device together with its history. `clock`, `dueAt` and `scheduleAt` are true times:
      now, the pending measurement's next attempt and the next measurement. */
  datatype Trace = Trace(
    device: Device,
    log: seq<Event>,
    ids: set<MessageId>,
    clock: int,
    dueAt: int,
    scheduleAt: int)

  predicate PassFollows(tr: Trace, pass: Pass) {
    tr.clock <= pass.now <= pass.resultAt && pass.freshId !in tr.ids
  }

  function AfterMeasure(tr: Trace, pass: Pass): Trace {
    var (device, events) := tr.device.Measure(pass);
    Trace(device,
          tr.log + events,
          tr.ids + {pass.freshId},
          pass.now,
          if events == [] then tr.dueAt else pass.now,
          if tr.device.MeasurementDue(pass)
          then tr.scheduleAt + MEASUREMENT_INTERVAL_MS * CatchUpSteps(Wrap(pass.now), tr.device.nextMeasurementMs)
          else tr.scheduleAt)
  }

  function AfterSend(tr: Trace, pass: Pass): Trace
    requires tr.device.retry.Valid()
  {
    var (device, events) := tr.device.Send(pass);
    tr.(device := device,
        log := tr.log + events,
        clock := pass.resultAt,
        dueAt := if events != [] && events[0].attempt.update == RetryScheduled
                 then pass.resultAt
                   + Interval(tr.device.retry.retryCount + 1, pass.Result().retryAfterSeconds, pass.random)
                 else tr.dueAt)
  }

  /** One `update()`, recorded. */
  function Extend(tr: Trace, pass: Pass): Trace
    requires tr.device.Valid()
  {
    if !tr.device.running then tr.(clock := pass.resultAt)
    else
      var sent := AfterSend(AfterMeasure(tr, pass), pass);
      sent.(device := sent.device.Display(pass))
  }

  lemma ExtendIsUpdate(tr: Trace, pass: Pass)
    requires tr.device.Valid()
    ensures Extend(tr, pass).device == tr.device.Update(pass).0
    ensures Extend(tr, pass).log == tr.log + tr.device.Update(pass).1
  {
  }

  function StartOfRun(deviceId: string, configurationValid: bool, at: int): Trace {
    Trace(Begin(deviceId, configurationValid, at), [], {}, at, at, at + MEASUREMENT_INTERVAL_MS)
  }

  /** `trace` lists the states of one run from `begin()` at time `at` through `passes`. */
  ghost predicate IsRun(deviceId: string, configurationValid: bool, at: int, passes: seq<Pass>, trace: seq<Trace>) {
    && |trace| == |passes| + 1
    && trace[0] == StartOfRun(deviceId, configurationValid, at)
    && forall n :: 0 <= n < |passes| ==> Continues(trace[n], passes[n], trace[n + 1])
  }

  ghost predicate Continues(tr: Trace, pass: Pass, next: Trace) {
    PassFollows(tr, pass) && tr.device.Valid() && next == Extend(tr, pass)
  }

  /** No pass is ever refused: a run can always be continued. */
  lemma RunsContinue(
    deviceId: string, configurationValid: bool, at: int, passes: seq<Pass>, trace: seq<Trace>, pass: Pass)
    requires IsRun(deviceId, configurationValid, at, passes, trace)
    requires PassFollows(trace[|passes|], pass)
    ensures trace[|passes|].device.Valid()
    ensures IsRun(deviceId, configurationValid, at, passes + [pass], trace + [Extend(trace[|passes|], pass)])
  {
    InvHolds(deviceId, configurationValid, at, passes, trace, |passes|);
    var longer := trace + [Extend(trace[|passes|], pass)];
    forall n | 0 <= n < |passes + [pass]|
      ensures Continues(longer[n], (passes + [pass])[n], longer[n + 1])
    {
      if n < |passes| {
        assert Continues(trace[n], passes[n], trace[n + 1]);
      }
    }
  }

  // --- The send history of one message ---

  function Sends(log: seq<Event>, id: MessageId): seq<Attempt> {
    if log == [] then []
    else
      var last := log[|log| - 1];
      var rest := Sends(log[..|log| - 1], id);
      if last.Sent? && last.attempt.measurement.messageId == id then rest + [last.attempt] else rest
  }

  lemma SendsExtend(log: seq<Event>, e: Event, id: MessageId)
    ensures Sends(log + [e], id)
         == if e.Sent? && e.attempt.measurement.messageId == id then Sends(log, id) + [e.attempt] else Sends(log, id)
  {
    assert (log + [e])[..|log|] == log;
  }

  lemma {:induction false} SendsAreInLog(log: seq<Event>, id: MessageId)
    ensures forall a :: a in Sends(log, id) ==> Sent(a) in log && a.measurement.messageId == id
  {
    if log != [] {
      SendsAreInLog(log[..|log| - 1], id);
      assert log == log[..|log| - 1] + [log[|log| - 1]];
    }
  }

  /** No response, 429 or a server error: the failures that are worth another attempt. */
  predicate FailedTransiently(a: Attempt) {
    !a.responded || a.httpStatus == 429 || 500 <= a.httpStatus <= 599
  }

  /** The wait that a 429 asks for, at most a day. */
  function AskedWait(a: Attempt): int {
    if a.responded && a.httpStatus == 429 then 1_000 * Min(a.retryAfterSeconds, 86_400) else 0
  }

  /** Attempt `k` repeats attempt `k - 1`'s payload after a transient failure and no sooner than
      the doubled backoff, nor than the wait that a 429 asked for. */
  predicate IsRetry(s: seq<Attempt>, k: nat)
    requires 1 <= k < |s|
  {
    && s[k].measurement == s[k - 1].measurement
    && FailedTransiently(s[k - 1])
    && s[k].start >= s[k - 1].end + ExactBackoff(k)
    && s[k].start >= s[k - 1].end + AskedWait(s[k - 1])
  }

  ghost predicate WellSpaced(s: seq<Attempt>) {
    && |s| <= MAXIMUM_RETRY_COUNT + 1
    && forall k :: 1 <= k < |s| ==> IsRetry(s, k)
  }

  lemma WellSpacedExtends(s: seq<Attempt>, a: Attempt)
    requires WellSpaced(s) && |s| <= MAXIMUM_RETRY_COUNT
    requires |s| > 0 ==> IsRetry(s + [a], |s|)
    ensures WellSpaced(s + [a])
  {
    forall k | 1 <= k < |s + [a]|
      ensures IsRetry(s + [a], k)
    {
      if k < |s| {
        assert IsRetry(s, k);
      }
    }
  }

  /** The server answered 401 or 403. */
  predicate StopsTransmission(e: Event) {
    e.Sent? && e.attempt.responded && (e.attempt.httpStatus == 401 || e.attempt.httpStatus == 403)
  }

  ghost predicate WasQueued(log: seq<Event>, m: Measurement) {
    exists at :: Queued(m, at) in log
  }

  predicate IdIn(e: Event, ids: set<MessageId>) {
    match e
    case Queued(m, _) => m.messageId in ids
    case Sent(a) => a.measurement.messageId in ids
  }

  // --- The invariant ---

  /** The pending slot and its retry counter are what the send history says. */
  ghost predicate SlotMatchesHistory(tr: Trace) {
    tr.device.retry.pending.Some? ==>
      var m := tr.device.retry.pending.value;
      var s := Sends(tr.log, m.messageId);
      && m.messageId in tr.ids
      && WasQueued(tr.log, m)
      && tr.device.retry.nextAttemptMs == Wrap(tr.dueAt)
      && tr.dueAt <= tr.clock + 86_400_000
      && |s| == tr.device.retry.retryCount
      && (|s| > 0 ==> AwaitsRetry(s, m, tr.dueAt, tr.clock))
  }

  predicate AwaitsRetry(s: seq<Attempt>, m: Measurement, dueAt: int, clock: int)
    requires |s| > 0
  {
    var last := s[|s| - 1];
    && last.measurement == m
    && FailedTransiently(last)
    && last.end <= clock
    && dueAt >= last.end + ExactBackoff(|s|)
    && dueAt >= last.end + AskedWait(last)
  }

  ghost predicate LogIsWellFormed(log: seq<Event>, ids: set<MessageId>) {
    && (forall e :: e in log ==> IdIn(e, ids))
    && (forall a :: Sent(a) in log ==> WasQueued(log, a.measurement))
    && (forall id :: WellSpaced(Sends(log, id)))
    && (forall i :: 0 <= i < |log| - 1 ==> !StopsTransmission(log[i]))
  }

  /** A device that is about to send has just queued its pending measurement; one that waits has
      just failed to send it. */
  predicate StateNamesEvent(device: Device, log: seq<Event>) {
    && (device.state == PendingSend ==>
          log != [] && log[|log| - 1].Queued? && device.retry.pending == Some(log[|log| - 1].measurement))
    && (device.state == RetryWait ==>
          log != [] && log[|log| - 1].Sent? && FailedTransiently(log[|log| - 1].attempt)
          && device.retry.pending == Some(log[|log| - 1].attempt.measurement))
  }

  ghost predicate Inv(tr: Trace) {
    && tr.device.Valid()
    && StateNamesEvent(tr.device, tr.log)
    && tr.device.state != Measuring
    && SlotMatchesHistory(tr)
    && LogIsWellFormed(tr.log, tr.ids)
    && (tr.device.state == TransmissionStopped <==> tr.log != [] && StopsTransmission(tr.log[|tr.log| - 1]))
    && (!tr.device.running ==> tr.log == [])
  }

  lemma LogTakesEvent(log: seq<Event>, ids: set<MessageId>, e: Event)
    requires LogIsWellFormed(log, ids)
    requires IdIn(e, ids)
    requires log != [] ==> !StopsTransmission(log[|log| - 1])
    requires e.Sent? ==> WasQueued(log, e.attempt.measurement)
                         && WellSpaced(Sends(log, e.attempt.measurement.messageId) + [e.attempt])
    ensures LogIsWellFormed(log + [e], ids)
  {
    forall id
      ensures WellSpaced(Sends(log + [e], id))
    {
      SendsExtend(log, e, id);
    }
    forall a | Sent(a) in log + [e]
      ensures WasQueued(log + [e], a.measurement)
    {
      assert WasQueued(log, a.measurement);
      QueuedStays(log, e, a.measurement);
    }
  }

  lemma QueuedStays(log: seq<Event>, e: Event, m: Measurement)
    requires WasQueued(log, m)
    ensures WasQueued(log + [e], m)
  {
    var at :| Queued(m, at) in log;
    assert Queued(m, at) in log + [e];
  }

  lemma MoreIds(log: seq<Event>, ids: set<MessageId>, more: set<MessageId>)
    requires LogIsWellFormed(log, ids) && ids <= more
    ensures LogIsWellFormed(log, more)
  {
    forall e | e in log
      ensures IdIn(e, more)
    {
      assert IdIn(e, ids);
    }
  }

  lemma SentIdsAreUsed(log: seq<Event>, ids: set<MessageId>, id: MessageId)
    requires LogIsWellFormed(log, ids)
    ensures Sends(log, id) != [] ==> id in ids
  {
    SendsAreInLog(log, id);
    if Sends(log, id) != [] {
      assert IdIn(Sent(Sends(log, id)[0]), ids);
    }
  }

  lemma QuietMeasureKeepsInv(tr: Trace, pass: Pass)
    requires Inv(tr) && PassFollows(tr, pass) && tr.device.running && tr.device.Measure(pass).1 == []
    ensures Inv(AfterMeasure(tr, pass))
  {
    var next := AfterMeasure(tr, pass);
    assert next.log == tr.log;
    MoreIds(tr.log, tr.ids, next.ids);
    assert SlotMatchesHistory(next);
  }

  /** The log takes the queueing of a message with a fresh id. */
  lemma LogTakesMeasurement(tr: Trace, pass: Pass, m: Measurement)
    requires Inv(tr) && PassFollows(tr, pass) && m.messageId == pass.freshId
    requires tr.device.state != TransmissionStopped
    ensures var log := tr.log + [Queued(m, pass.now)];
            LogIsWellFormed(log, tr.ids + {pass.freshId}) && Sends(log, m.messageId) == [] && WasQueued(log, m)
  {
    var e := Queued(m, pass.now);
    MoreIds(tr.log, tr.ids, tr.ids + {pass.freshId});
    SentIdsAreUsed(tr.log, tr.ids, pass.freshId);
    SendsExtend(tr.log, e, pass.freshId);
    LogTakesEvent(tr.log, tr.ids + {pass.freshId}, e);
    assert e in tr.log + [e];
  }

  lemma MeasureKeepsInv(tr: Trace, pass: Pass)
    requires Inv(tr) && PassFollows(tr, pass) && tr.device.running
    ensures Inv(AfterMeasure(tr, pass))
  {
    var next := AfterMeasure(tr, pass);
    var events := tr.device.Measure(pass).1;
    if events == [] {
      QuietMeasureKeepsInv(tr, pass);
    } else {
      var m := events[0].measurement;
      assert next.log == tr.log + [Queued(m, pass.now)];
      LogTakesMeasurement(tr, pass, m);
    }
  }

  lemma QuietSendKeepsInv(tr: Trace, pass: Pass)
    requires Inv(tr) && tr.clock == pass.now <= pass.resultAt && tr.device.running && !tr.device.Transmits(pass)
    ensures Inv(AfterSend(tr, pass))
  {
    var next := AfterSend(tr, pass);
    assert next.log == tr.log && next.device == tr.device;
    assert SlotMatchesHistory(next);
  }

  /** What sending does to the state, apart from the log of earlier events. */
  lemma SentState(tr: Trace, pass: Pass)
    requires Inv(tr) && tr.clock == pass.now <= pass.resultAt && tr.device.running && tr.device.Transmits(pass)
    ensures var next := AfterSend(tr, pass);
            var a := tr.device.Send(pass).1[0].attempt;
            && next.log == tr.log + [Sent(a)] && next.ids == tr.ids && next.device.running
            && next.device.Valid() && next.device.state != Measuring
            && StateNamesEvent(next.device, next.log)
            && (next.device.state == TransmissionStopped <==> StopsTransmission(Sent(a)))
            && WasQueued(tr.log, a.measurement) && IdIn(Sent(a), tr.ids)
  {
  }

  lemma SendKeepsInv(tr: Trace, pass: Pass)
    requires Inv(tr) && tr.clock == pass.now <= pass.resultAt && tr.device.running
    ensures Inv(AfterSend(tr, pass))
  {
    if !tr.device.Transmits(pass) {
      QuietSendKeepsInv(tr, pass);
    } else {
      SentState(tr, pass);
      AttemptIsSpaced(tr, pass);
      LogTakesEvent(tr.log, tr.ids, Sent(tr.device.Send(pass).1[0].attempt));
      SlotAfterSend(tr, pass);
    }
  }

  lemma {:induction false} SlotAfterSend(tr: Trace, pass: Pass)
    requires Inv(tr) && tr.clock == pass.now <= pass.resultAt && tr.device.Transmits(pass)
    ensures SlotMatchesHistory(AfterSend(tr, pass))
  {
    if tr.device.Send(pass).1[0].attempt.update == RetryScheduled {
      SlotAfterRetry(tr, pass);
    } else {
      SlotIsFree(tr, pass);
    }
  }

  lemma SlotIsFree(tr: Trace, pass: Pass)
    requires tr.device.Valid() && tr.device.Transmits(pass)
    requires tr.device.Send(pass).1[0].attempt.update != RetryScheduled
    ensures AfterSend(tr, pass).device.retry.pending.None?
  {
  }

  lemma {:induction false} SlotAfterRetry(tr: Trace, pass: Pass)
    requires Inv(tr) && tr.clock == pass.now <= pass.resultAt && tr.device.Transmits(pass)
    requires tr.device.Send(pass).1[0].attempt.update == RetryScheduled
    ensures SlotMatchesHistory(AfterSend(tr, pass))
  {
    var a := tr.device.Send(pass).1[0].attempt;
    var k := tr.device.retry.retryCount + 1;
    var wait := Interval(k, pass.Result().retryAfterSeconds, pass.random);
    NextAttempt(k, pass);
    assert tr.device.Send(pass).0.retry == RetryState(Some(a.measurement), k, Wrap(Wrap(pass.resultAt) + wait));
    SlotAwaitsRetry(tr, AfterSend(tr, pass), a);
  }

  lemma SlotAwaitsRetry(tr: Trace, next: Trace, a: Attempt)
    requires SlotMatchesHistory(tr) && tr.device.retry.pending == Some(a.measurement)
    requires FailedTransiently(a) && a.end == next.clock
    requires next.log == tr.log + [Sent(a)] && next.ids == tr.ids
    requires next.device.retry == RetryState(Some(a.measurement), tr.device.retry.retryCount + 1, Wrap(next.dueAt))
    requires tr.device.retry.retryCount >= 0
    requires next.clock + ExactBackoff(next.device.retry.retryCount) <= next.dueAt <= next.clock + 86_400_000
    requires next.clock + AskedWait(a) <= next.dueAt
    ensures SlotMatchesHistory(next)
  {
    SendsExtend(tr.log, Sent(a), a.measurement.messageId);
    QueuedStays(tr.log, Sent(a), a.measurement);
  }

  lemma AttemptIsSpaced(tr: Trace, pass: Pass)
    requires Inv(tr) && tr.clock == pass.now && tr.device.Transmits(pass)
    ensures var a := tr.device.Send(pass).1[0].attempt;
            WellSpaced(Sends(tr.log, a.measurement.messageId) + [a])
  {
    var a := tr.device.Send(pass).1[0].attempt;
    var s := Sends(tr.log, a.measurement.messageId);
    DeadlineIsNeverEarly(pass.now, tr.dueAt);
    WellSpacedExtends(s, a);
  }

  lemma {:induction false} NextAttempt(k: int, pass: Pass)
    requires 1 <= k <= MAXIMUM_RETRY_COUNT
    ensures var wait := Interval(k, pass.Result().retryAfterSeconds, pass.random);
            && ExactBackoff(k) <= wait <= 86_400_000
            && (pass.transportSucceeded && pass.httpStatus == 429 ==>
               1_000 * Min(pass.retryAfterSeconds, 86_400) <= wait)
            && Wrap(Wrap(pass.resultAt) + wait) == Wrap(pass.resultAt + wait)
  {
    var wait := Interval(k, pass.Result().retryAfterSeconds, pass.random);
    IntervalIsBounded(k, pass.Result().retryAfterSeconds, pass.random);
    WrapSum(pass.resultAt, wait);
  }

  lemma ExtendKeepsInv(tr: Trace, pass: Pass)
    requires Inv(tr) && PassFollows(tr, pass)
    ensures Inv(Extend(tr, pass))
  {
    if tr.device.running {
      MeasureKeepsInv(tr, pass);
      SendKeepsInv(AfterMeasure(tr, pass), pass);
    }
  }

  lemma {:induction false} InvHolds(
    deviceId: string, configurationValid: bool, at: int, passes: seq<Pass>, trace: seq<Trace>, n: nat)
    requires IsRun(deviceId, configurationValid, at, passes, trace) && n <= |passes|
    ensures Inv(trace[n])
  {
    if n > 0 {
      InvHolds(deviceId, configurationValid, at, passes, trace, n - 1);
      assert Continues(trace[n - 1], passes[n - 1], trace[n - 1 + 1]);
      ExtendKeepsInv(trace[n - 1], passes[n - 1]);
    }
  }

  // --- Main results ---

  /** In every run, every message id is sent at most seven times, always with the payload it was
      queued with, and its k-th retry starts at least 5000 * 2^(k-1) ms after the result before it. */
  lemma AttemptsAreBoundedAndSpaced(
    deviceId: string, configurationValid: bool, at: int, passes: seq<Pass>, trace: seq<Trace>, id: MessageId)
    requires IsRun(deviceId, configurationValid, at, passes, trace)
    ensures var log := trace[|passes|].log;
            var s := Sends(log, id);
            && |s| <= 7
            && (forall k :: 1 <= k < |s| ==> IsRetry(s, k))
            && (forall a :: a in s ==> a.measurement.messageId == id && WasQueued(log, a.measurement))
  {
    InvHolds(deviceId, configurationValid, at, passes, trace, |passes|);
    SendsAreInLog(trace[|passes|].log, id);
  }

  /** A pending or waiting state always has a measurement behind it, and the controller never
      rests while measuring. After one 401 or 403 the log has ended for good: nothing is queued
      or sent any more. */
  lemma AuthenticationFailureIsFinal(
    deviceId: string, configurationValid: bool, at: int, passes: seq<Pass>, trace: seq<Trace>)
    requires IsRun(deviceId, configurationValid, at, passes, trace)
    ensures var tr := trace[|passes|];
            && tr.device.state != Measuring
            && (tr.device.state in {PendingSend, RetryWait} ==> tr.device.retry.pending.Some?)
            && (forall i :: 0 <= i < |tr.log| && StopsTransmission(tr.log[i]) ==>
                  i == |tr.log| - 1 && tr.device.state == TransmissionStopped)
  {
    InvHolds(deviceId, configurationValid, at, passes, trace, |passes|);
  }

  /** In every run the state names the last event of the log: a pending send follows the queueing of
      the pending measurement, a retry wait follows its transient failure, and transmission is
      stopped exactly when the last event is a 401 or 403. */
  lemma StateNamesLastEvent(deviceId: string, configurationValid: bool, at: int, passes: seq<Pass>, trace: seq<Trace>)
    requires IsRun(deviceId, configurationValid, at, passes, trace)
    ensures var tr := trace[|passes|];
            && StateNamesEvent(tr.device, tr.log)
            && (tr.device.state == TransmissionStopped <==> tr.log != [] && StopsTransmission(tr.log[|tr.log| - 1]))
  {
    InvHolds(deviceId, configurationValid, at, passes, trace, |passes|);
  }

  // --- The schedule ---

  /** The measurement schedule never drifts: in every run, however late and irregular the
      passes, the next measurement stands a whole number of minutes after `begin()`. */
  lemma {:induction false} ScheduleNeverDrifts(deviceId: string, at: int, passes: seq<Pass>, trace: seq<Trace>, n: nat)
    requires IsRun(deviceId, true, at, passes, trace) && n <= |passes|
    ensures var tr := trace[n];
            && tr.device.running
            && tr.device.nextMeasurementMs == Wrap(tr.scheduleAt)
            && (tr.scheduleAt - at) % 60_000 == 0
            && tr.scheduleAt >= at + 60_000
  {
    if n > 0 {
      ScheduleNeverDrifts(deviceId, at, passes, trace, n - 1);
      assert Continues(trace[n - 1], passes[n - 1], trace[n - 1 + 1]);
      ScheduleStep(trace[n - 1], passes[n - 1], at);
    }
  }

  lemma ScheduleStep(tr: Trace, pass: Pass, at: int)
    requires tr.device.Valid() && tr.device.running
    requires tr.device.nextMeasurementMs == Wrap(tr.scheduleAt)
    ensures var next := Extend(tr, pass);
            && next.device.running
            && next.device.nextMeasurementMs == Wrap(next.scheduleAt)
            && tr.scheduleAt <= next.scheduleAt
            && (tr.scheduleAt - at) % MEASUREMENT_INTERVAL_MS == (next.scheduleAt - at) % MEASUREMENT_INTERVAL_MS
  {
    var steps := CatchUpSteps(Wrap(pass.now), tr.device.nextMeasurementMs);
    WrapSum(tr.scheduleAt, MEASUREMENT_INTERVAL_MS * steps);
    MultiplesAdd(tr.scheduleAt - at, steps);
  }

  lemma MultiplesAdd(offset: int, steps: int)
    ensures (offset + MEASUREMENT_INTERVAL_MS * steps) % MEASUREMENT_INTERVAL_MS == offset % MEASUREMENT_INTERVAL_MS
  {
  }

  function PreviousPass(at: int, passes: seq<Pass>, n: nat): int
    requires n <= |passes|
  {
    if n == 0 then at else passes[n - 1].now
  }

  /** The loop comes round at least once every 2^31 ms. */
  predicate Polled(at: int, passes: seq<Pass>) {
    forall n :: 0 <= n < |passes| ==> IsInTime(at, passes, n)
  }

  predicate IsInTime(at: int, passes: seq<Pass>, n: nat)
    requires n < |passes|
  {
    passes[n].now - PreviousPass(at, passes, n) <= HALF
  }

  /** The next measurement stands ahead of a pass, by at most a minute. */
  predicate IsNear(tr: Trace, now: int) {
    0 < tr.scheduleAt - now <= MEASUREMENT_INTERVAL_MS && now <= tr.clock
  }

  lemma {:induction false} NearStep(tr: Trace, pass: Pass, previous: int)
    requires tr.device.Valid() && tr.device.running && tr.device.nextMeasurementMs == Wrap(tr.scheduleAt)
    requires IsNear(tr, previous) && tr.clock <= pass.now <= pass.resultAt && pass.now - previous <= HALF
    ensures IsNear(Extend(tr, pass), pass.now)
    ensures tr.device.MeasurementDue(pass) <==> tr.scheduleAt <= pass.now
    ensures pass.now < tr.scheduleAt ==> Extend(tr, pass).scheduleAt == tr.scheduleAt
  {
    ScheduleMet(tr, pass);
    EndsAfterPass(tr, pass);
  }

  lemma EndsAfterPass(tr: Trace, pass: Pass)
    requires tr.device.Valid()
    ensures Extend(tr, pass).clock == pass.resultAt
  {
  }

  lemma {:induction false} ScheduleIsNear(deviceId: string, at: int, passes: seq<Pass>, trace: seq<Trace>, n: nat)
    requires IsRun(deviceId, true, at, passes, trace) && Polled(at, passes) && n <= |passes|
    ensures IsNear(trace[n], PreviousPass(at, passes, n))
  {
    if n == 0 {
      StartIsNear(deviceId, at);
    } else {
      ScheduleIsNear(deviceId, at, passes, trace, n - 1);
      PassIsNear(deviceId, at, passes, trace, n - 1);
    }
  }

  lemma StartIsNear(deviceId: string, at: int)
    ensures IsNear(StartOfRun(deviceId, true, at), at)
  {
  }

  lemma {:induction false} PassIsNear(deviceId: string, at: int, passes: seq<Pass>, trace: seq<Trace>, n: nat)
    requires IsRun(deviceId, true, at, passes, trace) && Polled(at, passes) && n < |passes|
    requires IsNear(trace[n], PreviousPass(at, passes, n))
    ensures IsNear(trace[n + 1], passes[n].now)
    ensures trace[n].device.MeasurementDue(passes[n]) <==> trace[n].scheduleAt <= passes[n].now
    ensures passes[n].now < trace[n].scheduleAt ==> trace[n + 1].scheduleAt == trace[n].scheduleAt
  {
    InvHolds(deviceId, true, at, passes, trace, n);
    ScheduleNeverDrifts(deviceId, at, passes, trace, n);
    assert Continues(trace[n], passes[n], trace[n + 1]) && IsInTime(at, passes, n);
    NearStep(trace[n], passes[n], PreviousPass(at, passes, n));
  }

  /** In every run of a loop that comes round at least once every 2^31 ms, a pass measures exactly
      when the true schedule has been reached, and leaves the next measurement in (now, now + 60000]. */
  lemma PassMeetsSchedule(deviceId: string, at: int, passes: seq<Pass>, trace: seq<Trace>, n: nat)
    requires IsRun(deviceId, true, at, passes, trace) && Polled(at, passes) && n < |passes|
    ensures trace[n].device.MeasurementDue(passes[n]) <==> trace[n].scheduleAt <= passes[n].now
    ensures 0 < trace[n + 1].scheduleAt - passes[n].now <= 60_000
    ensures passes[n].now < trace[n].scheduleAt ==> trace[n + 1].scheduleAt == trace[n].scheduleAt
  {
    ScheduleIsNear(deviceId, at, passes, trace, n);
    PassIsNear(deviceId, at, passes, trace, n);
  }

  lemma {:induction false} ScheduleMet(tr: Trace, pass: Pass)
    requires tr.device.Valid() && tr.device.running
    requires tr.device.nextMeasurementMs == Wrap(tr.scheduleAt)
    requires -HALF <= pass.now - tr.scheduleAt < HALF
    ensures tr.device.MeasurementDue(pass) <==> tr.scheduleAt <= pass.now
    ensures tr.scheduleAt <= pass.now ==> 0 < Extend(tr, pass).scheduleAt - pass.now <= MEASUREMENT_INTERVAL_MS
    ensures pass.now < tr.scheduleAt ==> Extend(tr, pass).scheduleAt == tr.scheduleAt
  {
    DeadlineIsExact(pass.now, tr.scheduleAt);
    if tr.scheduleAt <= pass.now {
      ElapsedIsExact(pass.now, tr.scheduleAt);
      OneStepPast(pass.now - tr.scheduleAt);
    }
  }

  lemma OneStepPast(late: nat)
    ensures 0 < MEASUREMENT_INTERVAL_MS * (late / MEASUREMENT_INTERVAL_MS + 1) - late <= MEASUREMENT_INTERVAL_MS
  {
  }
}
