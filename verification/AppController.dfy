/** firmware/src/app_controller.cpp: the device state machine, its drift-free measurement
    schedule and the one transmission slot it drives.

    Wi-Fi, NTP, sensor and HTTP drivers are the inputs of a pass: one `Pass` value holds what
    they answer during one call of `update()`. */
module Application {
  import opened Wrappers
  import opened WrappingClock
  import opened Common
  import opened Retrying

  const MEASUREMENT_INTERVAL_MS: int := 60_000

  datatype DeviceState =
    | Initializing
    | Ready
    | Measuring
    | PendingSend
    | RetryWait
    | TransmissionStopped
    | ConfigurationError

  datatype Reading = Reading(temperature: real, humidity: real)

  /** What the outside world answers during one `update()`; times are true milliseconds. */
  datatype Pass = Pass(
    now: int,
    resultAt: int,
    reading: Option<Reading>,
    timeValid: bool,
    utcNow: Option<int>,
    wifiConnected: bool,
    displayDue: bool,
    displayReady: bool,
    freshId: MessageId,
    transportSucceeded: bool,
    httpStatus: int,
    retryAfterSeconds: uint32,
    random: uint32)
  {
    function Result(): SendResult {
      ClassifySendResult(transportSucceeded, httpStatus, retryAfterSeconds)
    }
  }

  /** One send, what came back, and what the retry controller made of it. */
  datatype Attempt = Attempt(
    measurement: Measurement,
    start: int,
    end: int,
    responded: bool,
    httpStatus: int,
    retryAfterSeconds: uint32,
    update: RetryUpdate)

  datatype Event =
    | Queued(measurement: Measurement, at: int)
    | Sent(attempt: Attempt)

  predicate IsValidMeasurement(reading: Reading) {
    -40.0 <= reading.temperature <= 85.0 && 0.0 <= reading.humidity <= 100.0
  }

  /** The measurement a pass would create, when reading, clock and formatting all succeed. */
  function NewMeasurement(deviceId: string, pass: Pass): Option<Measurement> {
    if pass.reading.Some? && IsValidMeasurement(pass.reading.value) && pass.timeValid && pass.utcNow.Some? then
      Some(Measurement(pass.freshId, deviceId, pass.utcNow.value, pass.reading.value.temperature,
        pass.reading.value.humidity))
    else None
  }

  /** How many intervals the catch-up loop adds at counter value `now`. */
  function CatchUpSteps(now: uint32, next: uint32): nat {
    Elapsed(now, next) / MEASUREMENT_INTERVAL_MS + 1
  }

  // --- The device as a value ---

  datatype Device = Device(
    deviceId: string,
    running: bool,
    state: DeviceState,
    retry: RetryState,
    nextMeasurementMs: uint32)
  {
    predicate Valid() {
      retry.Valid() && (state in {PendingSend, RetryWait} ==> retry.pending.Some?)
    }

    predicate MeasurementDue(pass: Pass) {
      DeadlineReached(Wrap(pass.now), nextMeasurementMs)
    }

    function Measure(pass: Pass): (Device, seq<Event>) {
      if !MeasurementDue(pass) then (this, [])
      else
        var next := Wrap(nextMeasurementMs + MEASUREMENT_INTERVAL_MS * CatchUpSteps(Wrap(pass.now), nextMeasurementMs));
        var scheduled := this.(nextMeasurementMs := next);
        var measurement := NewMeasurement(deviceId, pass);
        if state == TransmissionStopped then (scheduled, [])
        else if measurement.None? then (scheduled.(state := Ready), [])
        else (scheduled.(state := PendingSend, retry := retry.Replace(measurement.value, Wrap(pass.now))),
              [Queued(measurement.value, pass.now)])
    }

    predicate Transmits(pass: Pass) {
      state != TransmissionStopped && pass.wifiConnected && pass.timeValid && retry.IsDue(Wrap(pass.now))
    }

    function Send(pass: Pass): (Device, seq<Event>)
      requires retry.Valid()
    {
      if !Transmits(pass) then (this, [])
      else
        var sent := retry.pending.value;
        var (retry', update) := retry.ApplyResult(sent.messageId, pass.Result(), Wrap(pass.resultAt), pass.random);
        var state' := match update
          case WasAccepted => Ready
          case Discarded => Ready
          case AuthenticationFailed => TransmissionStopped
          case RetryScheduled => RetryWait
          case RetriesExhausted => Ready
          case Ignored => PendingSend;
        (this.(retry := retry', state := state'),
          [Sent(Attempt(sent, pass.now, pass.resultAt, pass.transportSucceeded, pass.httpStatus,
                        pass.retryAfterSeconds, update))])
    }

    function Display(pass: Pass): Device {
      if pass.displayDue && state == Initializing && pass.displayReady then this.(state := Ready) else this
    }

    /** One `update()` of a device. */
    function Update(pass: Pass): (Device, seq<Event>)
      requires Valid()
    {
      if !running then (this, [])
      else
        var (measured, queued) := Measure(pass);
        var (transmitted, sent) := measured.Send(pass);
        (transmitted.Display(pass), queued + sent)
    }
  }

  /** The device right after `begin()` at true time `at`. */
  function Begin(deviceId: string, configurationValid: bool, at: int): Device {
    if configurationValid then
      Device(deviceId, true, Initializing, INITIAL_RETRY_STATE, Wrap(at + MEASUREMENT_INTERVAL_MS))
    else
      Device(deviceId, false, ConfigurationError, INITIAL_RETRY_STATE, 0)
  }

  /** Every `update()` keeps the device valid and never rests in the measuring state. */
  lemma UpdateKeepsValid(d: Device, pass: Pass)
    requires d.Valid() && d.state != Measuring
    ensures d.Update(pass).0.Valid() && d.Update(pass).0.state != Measuring
  {
    if d.running {
      var (measured, _) := d.Measure(pass);
      assert measured.Valid() && measured.state != Measuring;
      if measured.Transmits(pass) && pass.Result().disposition == Retryable
        && measured.retry.retryCount < MAXIMUM_RETRY_COUNT {
        IntervalIsBounded(measured.retry.retryCount + 1, pass.Result().retryAfterSeconds, pass.random);
      }
    }
  }

  // --- The device as the firmware's object ---

  class AppController {
    const deviceId: string
    const retryController: RetryController
    var running: bool
    var state: DeviceState
    var nextMeasurementMs: uint32

    ghost predicate Valid()
      reads this, retryController
    {
      View().Valid()
    }

    ghost function View(): Device
      reads this, retryController
    {
      Device(deviceId, running, state, retryController.View(), nextMeasurementMs)
    }

    constructor (deviceId: string, configurationValid: bool, now: int)
      ensures Valid() && fresh(retryController)
      ensures View() == Begin(deviceId, configurationValid, now)
    {
      this.deviceId := deviceId;
      retryController := new RetryController();
      if configurationValid {
        running := true;
        state := Initializing;
        nextMeasurementMs := Wrap(Wrap(now) + MEASUREMENT_INTERVAL_MS);
      } else {
        running := false;
        state := ConfigurationError;
        nextMeasurementMs := 0;
      }
      new;
      WrapSum(now, MEASUREMENT_INTERVAL_MS);
    }

    /** The do/while catch-up loop: it always ends, on the first interval end after `now`. */
    method CatchUp(now: uint32)
      requires DeadlineReached(now, nextMeasurementMs)
      modifies this`nextMeasurementMs
      ensures nextMeasurementMs
              == Wrap(old(nextMeasurementMs) + MEASUREMENT_INTERVAL_MS * CatchUpSteps(now, old(nextMeasurementMs)))
      ensures !DeadlineReached(now, nextMeasurementMs)
    {
      ghost var first := nextMeasurementMs;
      ghost var late := Elapsed(now, first);
      ghost var steps, added := 1, MEASUREMENT_INTERVAL_MS;
      nextMeasurementMs := Wrap(nextMeasurementMs + MEASUREMENT_INTERVAL_MS);
      StepsLate(now, first, steps);
      while DeadlineReached(now, nextMeasurementMs)
        invariant steps >= 1 && added == MEASUREMENT_INTERVAL_MS * steps && added - MEASUREMENT_INTERVAL_MS <= late
        invariant nextMeasurementMs == Wrap(first + added)
        invariant DeadlineReached(now, nextMeasurementMs) <==> added <= late
        invariant !DeadlineReached(now, nextMeasurementMs) ==> steps == CatchUpSteps(now, first)
        decreases late - added
      {
        WrapSum(first + added, MEASUREMENT_INTERVAL_MS);
        nextMeasurementMs := Wrap(nextMeasurementMs + MEASUREMENT_INTERVAL_MS);
        steps, added := steps + 1, added + MEASUREMENT_INTERVAL_MS;
        StepsLate(now, first, steps);
      }
    }

    method UpdateMeasurement(pass: Pass) returns (queued: seq<Event>)
      requires Valid()
      modifies this, retryController
      ensures (View(), queued) == old(View()).Measure(pass)
    {
      var now := Wrap(pass.now);
      if !DeadlineReached(now, nextMeasurementMs) {
        return [];
      }
      CatchUp(now);
      var transmissionStopped := state == TransmissionStopped;
      if !transmissionStopped {
        state := Measuring;
      }
      if pass.reading.None? || !IsValidMeasurement(pass.reading.value) {
        if !transmissionStopped {
          state := Ready;
        }
        return [];
      }
      if !pass.timeValid {
        if !transmissionStopped {
          state := Ready;
        }
        return [];
      }
      if pass.utcNow.None? {
        if !transmissionStopped {
          state := Ready;
        }
        return [];
      }
      if transmissionStopped {
        return [];
      }
      var measurement :=
        Measurement(pass.freshId, deviceId, pass.utcNow.value, pass.reading.value.temperature,
          pass.reading.value.humidity);
      retryController.Replace(measurement, now);
      state := PendingSend;
      return [Queued(measurement, pass.now)];
    }

    method SendPending(pass: Pass) returns (events: seq<Event>)
      requires retryController.Valid()
      modifies this, retryController
      ensures (View(), events) == old(View()).Send(pass)
    {
      if state == TransmissionStopped || !pass.wifiConnected || !pass.timeValid {
        return [];
      }
      var due := retryController.IsDue(Wrap(pass.now));
      if !due {
        return [];
      }
      var sent := retryController.pending.value;
      state := PendingSend;
      var result := ClassifySendResult(pass.transportSucceeded, pass.httpStatus, pass.retryAfterSeconds);
      var update := retryController.ApplyResult(sent.messageId, result, Wrap(pass.resultAt), pass.random);
      RecordSendResult(update);
      return [Sent(Attempt(sent, pass.now, pass.resultAt, pass.transportSucceeded, pass.httpStatus,
                           pass.retryAfterSeconds, update))];
    }

    method RecordSendResult(update: RetryUpdate)
      modifies this`state
      ensures state == match update
                case WasAccepted => Ready
                case Discarded => Ready
                case AuthenticationFailed => TransmissionStopped
                case RetryScheduled => RetryWait
                case RetriesExhausted => Ready
                case Ignored => old(state)
    {
      match update
      case WasAccepted => state := Ready;
      case Discarded => state := Ready;
      case AuthenticationFailed => state := TransmissionStopped;
      case RetryScheduled => state := RetryWait;
      case RetriesExhausted => state := Ready;
      case Ignored =>
    }

    method UpdateDisplay(pass: Pass)
      modifies this`state
      ensures View() == old(View()).Display(pass)
      ensures state == if old(state) == Initializing && pass.displayDue && pass.displayReady then Ready else old(state)
    {
      if !pass.displayDue {
        return;
      }
      if state == Initializing && pass.displayReady {
        state := Ready;
      }
    }

    method Update(pass: Pass) returns (events: seq<Event>)
      requires Valid() && state != Measuring
      modifies this, retryController
      ensures Valid() && state != Measuring
      ensures (View(), events) == old(View()).Update(pass)
    {
      UpdateKeepsValid(View(), pass);
      if !running {
        return [];
      }
      var queued := UpdateMeasurement(pass);
      var sent := SendPending(pass);
      UpdateDisplay(pass);
      return queued + sent;
    }
  }

  /** While the schedule is `steps` intervals past a reached deadline, the wrapped test still
      measures the remaining lateness. */
  lemma StepsLate(now: uint32, first: uint32, steps: nat)
    requires DeadlineReached(now, first)
    requires steps >= 1 && MEASUREMENT_INTERVAL_MS * (steps - 1) <= Elapsed(now, first)
    ensures DeadlineReached(now, Wrap(first + MEASUREMENT_INTERVAL_MS * steps))
       <==> MEASUREMENT_INTERVAL_MS * steps <= Elapsed(now, first)
    ensures !DeadlineReached(now, Wrap(first + MEASUREMENT_INTERVAL_MS * steps)) ==> steps == CatchUpSteps(now, first)
  {
    var late := Elapsed(now, first);
    var added := MEASUREMENT_INTERVAL_MS * steps;
    LateDistance(now, first, added);
    WrapNear(late - added);
    if late < added {
      LastStep(late, steps);
    }
  }

  lemma LateDistance(now: uint32, first: uint32, added: int)
    ensures DeadlineReached(now, Wrap(first + added)) <==> Wrap(Elapsed(now, first) - added) < HALF
  {
    assert Wrap(now) == now;
    DeadlineByDistance(now, first + added);
    assert now - (first + added) == (now - first) + (-added);
    WrapSum(now - first, -added);
  }

  lemma WrapNear(distance: int)
    requires -HALF <= distance < HALF
    ensures Wrap(distance) < HALF <==> 0 <= distance
  {
  }

  lemma LastStep(late: nat, steps: nat)
    requires steps >= 1
    requires MEASUREMENT_INTERVAL_MS * (steps - 1) <= late < MEASUREMENT_INTERVAL_MS * steps
    ensures steps == late / MEASUREMENT_INTERVAL_MS + 1
  {
  }
}
