/** What one pass of the device loop does in every run, told by what the sensor, the clock, the network
    and the server answered and not by the names of the program's own functions. */
module DeviceOutcomes {
  import opened Wrappers
  import opened WrappingClock
  import opened Common
  import opened Retrying
  import opened Application
  import opened DeviceRuns

  // --- Measuring ---

  /** The measurement is the reading of the pass, at its UTC time, under its fresh id. */
  predicate CarriesReading(m: Measurement, deviceId: string, pass: Pass) {
    && pass.reading.Some? && pass.utcNow.Some?
    && m.temperature == pass.reading.value.temperature && m.humidity == pass.reading.value.humidity
    && m.measuredAt == pass.utcNow.value && m.messageId == pass.freshId && m.deviceId == deviceId
  }

  /** The schedule is reached, transmission is not stopped, and sensor and clock are good. */
  predicate MustQueue(tr: Trace, pass: Pass) {
    && tr.scheduleAt <= pass.now && tr.device.state != TransmissionStopped
    && pass.timeValid && pass.utcNow.Some? && pass.reading.Some?
    && -40.0 <= pass.reading.value.temperature <= 85.0
    && 0.0 <= pass.reading.value.humidity <= 100.0
  }

  /** The first event that the pass added is the queueing of its measurement. */
  predicate Queues(tr: Trace, pass: Pass, next: Trace) {
    && |next.log| > |tr.log| && next.log[|tr.log|].Queued? && next.log[|tr.log|].at == pass.now
    && CarriesReading(next.log[|tr.log|].measurement, tr.device.deviceId, pass)
  }

  // --- Sending ---

  /** Connected, with valid time and not stopped, and a measurement is new or its time has come. */
  predicate MustSend(tr: Trace, pass: Pass) {
    && tr.device.state != TransmissionStopped && pass.wifiConnected && pass.timeValid
    && (MustQueue(tr, pass) || (tr.device.retry.pending.Some? && tr.dueAt <= pass.now))
  }

  /** The failures that another attempt may mend: no response, 429, or a server error. */
  predicate IsTransient(pass: Pass) {
    !pass.transportSucceeded || pass.httpStatus == 429 || 500 <= pass.httpStatus <= 599
  }

  /** What the answer to the attempt `a`, the last event, does to it. */
  predicate Decides(pass: Pass, a: Attempt, next: Trace) {
    var d := next.device;
    if IsTransient(pass) then
      if |Sends(next.log, a.measurement.messageId)| < 7 then
        a.update == RetryScheduled && d.state == RetryWait && d.retry.pending == Some(a.measurement)
      else a.update == RetriesExhausted && d.state == Ready && d.retry.pending.None?
    else if pass.httpStatus == 200 || pass.httpStatus == 201 then
      a.update == WasAccepted && d.state == Ready && d.retry.pending.None?
    else if pass.httpStatus == 401 || pass.httpStatus == 403 then
      a.update == AuthenticationFailed && d.state == TransmissionStopped && d.retry.pending.None?
    else
      a.update == Discarded && d.state == Ready && d.retry.pending.None?
  }

  /** When the next attempt is due after the k-th send: the doubled backoff with at most a fifth more,
      or the wait that a 429 asks for, whichever is longer. */
  predicate DueAfter(pass: Pass, k: nat, dueAt: int)
    requires k >= 1
  {
    var asked := if pass.transportSucceeded && pass.httpStatus == 429
      then 1_000 * Min(pass.retryAfterSeconds, 86_400) else 0;
    var wait := dueAt - pass.resultAt;
    && Max(ExactBackoff(k), asked) <= wait
    && (wait == asked || 5 * wait <= 6 * ExactBackoff(k))
  }

  /** The last event of the pass is a send: of the new measurement, or else of the pending one. */
  predicate SendsNow(tr: Trace, pass: Pass, next: Trace) {
    && |next.log| > |tr.log| && next.log[|next.log| - 1].Sent?
    && var a := next.log[|next.log| - 1].attempt;
       && a.start == pass.now && a.end == pass.resultAt && a.responded == pass.transportSucceeded
       && a.httpStatus == pass.httpStatus && a.retryAfterSeconds == pass.retryAfterSeconds
       && (MustQueue(tr, pass) ==> CarriesReading(a.measurement, tr.device.deviceId, pass))
       && (!MustQueue(tr, pass) ==> tr.device.retry.pending == Some(a.measurement))
       && Decides(pass, a, next)
       && (a.update == RetryScheduled ==>
             |Sends(next.log, a.measurement.messageId)| >= 1
             && DueAfter(pass, |Sends(next.log, a.measurement.messageId)|, next.dueAt))
  }

  /** The state after a pass that sends nothing. */
  function StateWithoutSend(tr: Trace, pass: Pass): DeviceState {
    if tr.device.state == TransmissionStopped then TransmissionStopped
    else if MustQueue(tr, pass) then PendingSend
    else if tr.scheduleAt <= pass.now then Ready
    else if tr.device.state == Initializing && pass.displayDue && pass.displayReady then Ready
    else tr.device.state
  }

  lemma MeasureInPlainTerms(tr: Trace, pass: Pass)
    requires tr.device.MeasurementDue(pass) <==> tr.scheduleAt <= pass.now
    ensures var (device, events) := tr.device.Measure(pass);
            && (MustQueue(tr, pass) <==> events != [])
            && (MustQueue(tr, pass) ==>
                  && |events| == 1 && events[0].Queued? && events[0].at == pass.now
                  && CarriesReading(events[0].measurement, tr.device.deviceId, pass)
                  && device.state == PendingSend
                  && device.retry == RetryState(Some(events[0].measurement), 0, Wrap(pass.now)))
            && (!MustQueue(tr, pass) ==> device.retry == tr.device.retry)
            && (device.state == TransmissionStopped <==> tr.device.state == TransmissionStopped)
  {
  }

  // --- One pass ---

  /** The wrapped tests of this pass agree with true time. */
  ghost predicate InWindow(tr: Trace, pass: Pass) {
    && Inv(tr) && tr.device.running && PassFollows(tr, pass)
    && (tr.device.MeasurementDue(pass) <==> tr.scheduleAt <= pass.now)
    && (tr.device.retry.pending.Some? ==> pass.now - tr.dueAt < HALF)
  }

  lemma {:induction false} TransmitsInPlainTerms(tr: Trace, pass: Pass)
    requires InWindow(tr, pass)
    ensures AfterMeasure(tr, pass).device.Transmits(pass) <==> MustSend(tr, pass)
  {
    MeasureInPlainTerms(tr, pass);
    if MustQueue(tr, pass) {
      DeadlineIsExact(pass.now, pass.now);
    } else if tr.device.retry.pending.Some? {
      DeadlineIsExact(pass.now, tr.dueAt);
    }
  }

  lemma {:induction false} LogInPlainTerms(tr: Trace, pass: Pass)
    requires InWindow(tr, pass)
    ensures var next := Extend(tr, pass);
            && tr.log <= next.log
            && |next.log| == |tr.log| + (if MustQueue(tr, pass) then 1 else 0) + (if MustSend(tr, pass) then 1 else 0)
            && (MustQueue(tr, pass) ==> Queues(tr, pass, next))
  {
    MeasureInPlainTerms(tr, pass);
    TransmitsInPlainTerms(tr, pass);
  }

  lemma {:induction false} QuietInPlainTerms(tr: Trace, pass: Pass)
    requires InWindow(tr, pass) && !MustSend(tr, pass)
    ensures Extend(tr, pass).device.state == StateWithoutSend(tr, pass)
  {
    MeasureInPlainTerms(tr, pass);
    TransmitsInPlainTerms(tr, pass);
  }

  /** What comes back decides what becomes of the attempt. */
  lemma {:induction false} AnswerDecides(measured: Trace, pass: Pass)
    requires Inv(measured) && measured.clock == pass.now <= pass.resultAt && measured.device.Transmits(pass)
    ensures var sent := AfterSend(measured, pass);
            && |sent.log| == |measured.log| + 1 && sent.log[|measured.log|].Sent?
            && var a := sent.log[|measured.log|].attempt;
               && a.start == pass.now && a.end == pass.resultAt && a.responded == pass.transportSucceeded
               && a.httpStatus == pass.httpStatus && a.retryAfterSeconds == pass.retryAfterSeconds
               && measured.device.retry.pending == Some(a.measurement)
               && |Sends(sent.log, a.measurement.messageId)| == measured.device.retry.retryCount + 1
               && Decides(pass, a, sent)
  {
    var a := measured.device.Send(pass).1[0].attempt;
    assert AfterSend(measured, pass).log == measured.log + [Sent(a)];
    SendsExtend(measured.log, Sent(a), a.measurement.messageId);
  }

  lemma {:induction false} RetryIsDue(measured: Trace, pass: Pass)
    requires Inv(measured) && measured.clock == pass.now <= pass.resultAt && measured.device.Transmits(pass)
    requires measured.device.Send(pass).1[0].attempt.update == RetryScheduled
    ensures DueAfter(pass, measured.device.retry.retryCount + 1, AfterSend(measured, pass).dueAt)
  {
    IntervalIsBounded(measured.device.retry.retryCount + 1, pass.Result().retryAfterSeconds, pass.random);
  }

  lemma {:induction false} SendInPlainTerms(tr: Trace, pass: Pass)
    requires InWindow(tr, pass) && MustSend(tr, pass)
    ensures SendsNow(tr, pass, Extend(tr, pass))
  {
    var measured := AfterMeasure(tr, pass);
    MeasureInPlainTerms(tr, pass);
    TransmitsInPlainTerms(tr, pass);
    MeasureKeepsInv(tr, pass);
    AnswerDecides(measured, pass);
    if measured.device.Send(pass).1[0].attempt.update == RetryScheduled {
      RetryIsDue(measured, pass);
    }
  }

  // --- Whole runs ---

  lemma {:induction false} RunIsInWindow(deviceId: string, at: int, passes: seq<Pass>, trace: seq<Trace>, n: nat)
    requires IsRun(deviceId, true, at, passes, trace) && Polled(at, passes) && n < |passes|
    requires trace[n].device.retry.pending.Some? ==> passes[n].now - trace[n].dueAt < HALF
    ensures InWindow(trace[n], passes[n]) && trace[n + 1] == Extend(trace[n], passes[n])
  {
    InvHolds(deviceId, true, at, passes, trace, n);
    ScheduleNeverDrifts(deviceId, at, passes, trace, n);
    PassMeetsSchedule(deviceId, at, passes, trace, n);
    assert Continues(trace[n], passes[n], trace[n + 1]);
  }

  /** In every run a pass queues exactly when its minute has come, transmission is not stopped and
      sensor and clock are good, and what it queues is the reading of that pass; it sends exactly when
      it is connected with valid time and has a new measurement or one whose time has come; and the
      answer decides what becomes of it, in plain statuses. */
  lemma {:induction false} PassInPlainTerms(deviceId: string, at: int, passes: seq<Pass>, trace: seq<Trace>, n: nat)
    requires IsRun(deviceId, true, at, passes, trace) && Polled(at, passes) && n < |passes|
    requires trace[n].device.retry.pending.Some? ==> passes[n].now - trace[n].dueAt < HALF
    ensures var (tr, pass, next) := (trace[n], passes[n], trace[n + 1]);
            && tr.log <= next.log
            && |next.log| == |tr.log| + (if MustQueue(tr, pass) then 1 else 0) + (if MustSend(tr, pass) then 1 else 0)
            && (MustQueue(tr, pass) ==> Queues(tr, pass, next))
            && (MustSend(tr, pass) ==> SendsNow(tr, pass, next))
            && (!MustSend(tr, pass) ==> next.device.state == StateWithoutSend(tr, pass))
  {
    RunIsInWindow(deviceId, at, passes, trace, n);
    LogInPlainTerms(trace[n], passes[n]);
    if MustSend(trace[n], passes[n]) {
      SendInPlainTerms(trace[n], passes[n]);
    } else {
      QuietInPlainTerms(trace[n], passes[n]);
    }
  }

  /** A transient failure is never the end before the seventh attempt: it leaves the same measurement
      pending. */
  lemma {:induction false} TransientFailuresAreRetried(
    deviceId: string, at: int, passes: seq<Pass>, trace: seq<Trace>, n: nat)
    requires IsRun(deviceId, true, at, passes, trace) && n < |passes|
    requires |trace[n + 1].log| > 0 && trace[n + 1].log[|trace[n + 1].log| - 1].Sent?
    requires |trace[n + 1].log| > |trace[n].log| && IsTransient(passes[n])
    ensures var next := trace[n + 1];
            var m := next.log[|next.log| - 1].attempt.measurement;
            if |Sends(next.log, m.messageId)| < 7 then
              next.device.state == RetryWait && next.device.retry.pending == Some(m)
            else next.device.state == Ready && next.device.retry.pending.None?
  {
    InvHolds(deviceId, true, at, passes, trace, n);
    ScheduleNeverDrifts(deviceId, at, passes, trace, n);
    assert Continues(trace[n], passes[n], trace[n + 1]);
    MeasureKeepsInv(trace[n], passes[n]);
    AnswerDecidesIfSent(trace[n], passes[n]);
  }

  lemma {:induction false} AnswerDecidesIfSent(tr: Trace, pass: Pass)
    requires Inv(tr) && tr.device.running && PassFollows(tr, pass)
    requires var next := Extend(tr, pass); |next.log| > |tr.log| && next.log[|next.log| - 1].Sent?
    ensures var next := Extend(tr, pass); Decides(pass, next.log[|next.log| - 1].attempt, next)
  {
    MeasureKeepsInv(tr, pass);
    if AfterMeasure(tr, pass).device.Transmits(pass) {
      AnswerDecides(AfterMeasure(tr, pass), pass);
    }
  }
}
