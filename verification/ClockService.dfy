/** firmware/src/clock_service.cpp and firmware/src/sensor_freshness.cpp: UTC kept between NTP
    synchronisations and sensor readings that go stale, both judged on the wrapping counter. */
module DeviceTime {
  import opened Wrappers
  import opened WrappingClock

  const CLOCK_RETRY_INTERVAL_MS: uint32 := 30_000
  const CLOCK_RESYNC_INTERVAL_MS: uint32 := 21_600_000
  const CLOCK_VALIDITY_MS: uint32 := 86_400_000
  const MINIMUM_VALID_EPOCH: int := 1_609_459_200
  const MAXIMUM_SENSOR_READING_AGE_MS: uint32 := 5_000

  // --- The clock as a value ---

  datatype ClockState = ClockState(
    hasSynchronized: bool,
    inProgress: bool,
    requestedAtMs: uint32,
    synchronizedAtMs: uint32,
    synchronizedEpoch: int,
    lastEmitted: int)
  {
    function Request(now: uint32): ClockState {
      this.(inProgress := true, requestedAtMs := now)
    }

    /** `answer` is the system time when the notification flag was raised, if it was. */
    function Update(now: uint32, answer: Option<int>): ClockState {
      if answer.None? then
        if inProgress && Elapsed(now, requestedAtMs) >= CLOCK_RETRY_INTERVAL_MS then this.(inProgress := false)
          else this
      else if answer.value < MINIMUM_VALID_EPOCH then this.(inProgress := false)
      else this.(synchronizedEpoch := answer.value, synchronizedAtMs := now, hasSynchronized := true,
        inProgress := false)
    }

    predicate ShouldResynchronize(now: uint32) {
      !hasSynchronized || Elapsed(now, synchronizedAtMs) >= CLOCK_RESYNC_INTERVAL_MS
    }

    predicate IsTimeValid(now: uint32) {
      hasSynchronized && Elapsed(now, synchronizedAtMs) <= CLOCK_VALIDITY_MS
    }

    function UtcNow(now: uint32): (ClockState, Option<int>) {
      if !IsTimeValid(now) then (this, None)
      else
        var candidate := synchronizedEpoch + Elapsed(now, synchronizedAtMs) / 1_000;
        var emitted := if candidate < lastEmitted then lastEmitted else candidate;
        (this.(lastEmitted := emitted), Some(emitted))
    }
  }

  const UNSYNCHRONIZED := ClockState(false, false, 0, 0, 0, 0)

  class ClockService {
    var hasSynchronized: bool
    var inProgress: bool
    var requestedAtMs: uint32
    var synchronizedAtMs: uint32
    var synchronizedEpoch: int
    var lastEmitted: int

    ghost function View(): ClockState
      reads this
    {
      ClockState(hasSynchronized, inProgress, requestedAtMs, synchronizedAtMs, synchronizedEpoch, lastEmitted)
    }

    constructor ()
      ensures View() == UNSYNCHRONIZED
    {
      hasSynchronized, inProgress := false, false;
      requestedAtMs, synchronizedAtMs := 0, 0;
      synchronizedEpoch, lastEmitted := 0, 0;
    }

    method RequestSynchronization(now: uint32)
      modifies this
      ensures View() == old(View()).Request(now)
    {
      inProgress := true;
      requestedAtMs := now;
    }

    method Update(now: uint32, answer: Option<int>)
      modifies this
      ensures View() == old(View()).Update(now, answer)
      ensures answer.Some? && answer.value >= 1_609_459_200 ==>
                hasSynchronized && synchronizedEpoch == answer.value && synchronizedAtMs == now && !inProgress
      ensures answer.Some? && answer.value < 1_609_459_200 ==> !inProgress
      ensures answer.None? ==> inProgress == (old(inProgress) && Elapsed(now, requestedAtMs) < 30_000)
      ensures answer.None? || answer.value < 1_609_459_200 ==>
                && hasSynchronized == old(hasSynchronized) && synchronizedEpoch == old(synchronizedEpoch)
                && synchronizedAtMs == old(synchronizedAtMs)
      ensures requestedAtMs == old(requestedAtMs) && lastEmitted == old(lastEmitted)
    {
      if answer.None? {
        if inProgress && Elapsed(now, requestedAtMs) >= CLOCK_RETRY_INTERVAL_MS {
          inProgress := false;
        }
        return;
      }
      if answer.value < MINIMUM_VALID_EPOCH {
        inProgress := false;
        return;
      }
      synchronizedEpoch := answer.value;
      synchronizedAtMs := now;
      hasSynchronized := true;
      inProgress := false;
    }

    method UtcNow(now: uint32) returns (utc: Option<int>)
      modifies this`lastEmitted
      ensures (View(), utc) == old(View()).UtcNow(now)
    {
      var valid := hasSynchronized && Elapsed(now, synchronizedAtMs) <= CLOCK_VALIDITY_MS;
      if !valid {
        return None;
      }
      var elapsedSeconds := Elapsed(now, synchronizedAtMs) / 1_000;
      var candidate := synchronizedEpoch + elapsedSeconds;
      lastEmitted := if candidate < lastEmitted then lastEmitted else candidate;
      return Some(lastEmitted);
    }
  }

  // --- Runs of the clock ---

  /** The clock with its history: the true time of its last synchronisation and every emitted
      UTC second, in order. */
  datatype ClockTrace = ClockTrace(state: ClockState, syncedAt: int, emitted: seq<int>, clock: int)

  datatype ClockAction =
    | Request(at: int)
    | Update(at: int, answer: Option<int>)
    | Read(at: int)

  function ClockStep(tr: ClockTrace, a: ClockAction): ClockTrace {
    match a
    case Request(at) => tr.(state := tr.state.Request(Wrap(at)), clock := at)
    case Update(at, answer) =>
      tr.(state := tr.state.Update(Wrap(at), answer),
          syncedAt := if answer.Some? && answer.value >= MINIMUM_VALID_EPOCH then at else tr.syncedAt,
          clock := at)
    case Read(at) =>
      var (state, utc) := tr.state.UtcNow(Wrap(at));
      tr.(state := state, emitted := if utc.Some? then tr.emitted + [utc.value] else tr.emitted, clock := at)
  }

  ghost predicate IsClockRun(at: int, actions: seq<ClockAction>, trace: seq<ClockTrace>) {
    && |trace| == |actions| + 1
    && trace[0] == ClockTrace(UNSYNCHRONIZED, at, [], at)
    && forall n :: 0 <= n < |actions| ==> ClockFollows(trace[n], actions[n], trace[n + 1])
  }

  ghost predicate ClockFollows(tr: ClockTrace, a: ClockAction, next: ClockTrace) {
    a.at >= tr.clock && next == ClockStep(tr, a)
  }

  predicate Nondecreasing(s: seq<int>) {
    forall i, j :: 0 <= i <= j < |s| ==> s[i] <= s[j]
  }

  ghost predicate ClockInv(tr: ClockTrace) {
    && (tr.state.hasSynchronized ==>
          tr.state.synchronizedAtMs == Wrap(tr.syncedAt) && tr.syncedAt <= tr.clock
            && tr.state.synchronizedEpoch >= MINIMUM_VALID_EPOCH)
    && Nondecreasing(tr.emitted)
    && (forall i :: 0 <= i < |tr.emitted| ==> MINIMUM_VALID_EPOCH <= tr.emitted[i] <= tr.state.lastEmitted)
  }

  lemma {:induction false} ClockInvHolds(at: int, actions: seq<ClockAction>, trace: seq<ClockTrace>, n: nat)
    requires IsClockRun(at, actions, trace) && n <= |actions|
    ensures ClockInv(trace[n])
  {
    if n > 0 {
      ClockInvHolds(at, actions, trace, n - 1);
      assert ClockFollows(trace[n - 1], actions[n - 1], trace[n - 1 + 1]);
    }
  }

  /** Whatever NTP answers, the UTC seconds handed out in a run never go back. */
  lemma EmittedTimeNeverGoesBack(at: int, actions: seq<ClockAction>, trace: seq<ClockTrace>)
    requires IsClockRun(at, actions, trace)
    ensures Nondecreasing(trace[|actions|].emitted)
    ensures forall e :: e in trace[|actions|].emitted ==> e >= MINIMUM_VALID_EPOCH
  {
    ClockInvHolds(at, actions, trace, |actions|);
  }

  /** When the last answer of 2021 or later came, and what it said. */
  function LastAnswer(actions: seq<ClockAction>): Option<(int, int)> {
    if |actions| == 0 then None
    else
      var last := actions[|actions| - 1];
      if last.Update? && last.answer.Some? && last.answer.value >= 1_609_459_200 then Some((last.at, last.answer.value))
      else LastAnswer(actions[..|actions| - 1])
  }

  /** In every run the clock goes by the last plausible answer, whatever else came. */
  lemma {:induction false} ClockGoesByLastAnswer(at: int, actions: seq<ClockAction>, trace: seq<ClockTrace>)
    requires IsClockRun(at, actions, trace)
    ensures var tr := trace[|actions|];
            match LastAnswer(actions)
            case None => !tr.state.hasSynchronized
            case Some((answeredAt, epoch)) =>
              tr.state.hasSynchronized && tr.syncedAt == answeredAt && tr.state.synchronizedEpoch == epoch
  {
    if |actions| > 0 {
      var n := |actions| - 1;
      assert ClockFollows(trace[n], actions[n], trace[n + 1]);
      forall k | 0 <= k < n
        ensures ClockFollows(trace[..n + 1][k], actions[..n][k], trace[..n + 1][k + 1])
      {
        assert ClockFollows(trace[k], actions[k], trace[k + 1]);
      }
      ClockGoesByLastAnswer(at, actions[..n], trace[..n + 1]);
    }
  }

  /** Within 49.7 days of the last synchronisation the clock is trusted exactly for 24 hours, asks
      again exactly after 6, and reads the synchronised time plus the true elapsed seconds,
      held back only by what it already emitted. */
  lemma ClockIsExact(at: int, actions: seq<ClockAction>, trace: seq<ClockTrace>, now: int)
    requires IsClockRun(at, actions, trace)
    requires var tr := trace[|actions|];
             tr.state.hasSynchronized && tr.clock <= now < tr.syncedAt + MODULUS
    ensures var tr := trace[|actions|];
            var age := now - tr.syncedAt;
            var utc := tr.state.UtcNow(Wrap(now)).1;
            && (tr.state.ShouldResynchronize(Wrap(now)) <==> age >= 21_600_000)
            && (utc.Some? <==> age <= 86_400_000)
            && (utc.Some? ==>
                  var reading := tr.state.synchronizedEpoch + age / 1_000;
                  utc.value == if reading < tr.state.lastEmitted then tr.state.lastEmitted else reading)
  {
    ClockInvHolds(at, actions, trace, |actions|);
    ElapsedIsExact(now, trace[|actions|].syncedAt);
  }

  /** Beyond that the wrapped age comes back: at any later moment of a run validity is wrong exactly
      when the true age is at least 2^32 ms and its remainder is within 24 hours. */
  lemma ValidityIsWrongExactly(at: int, actions: seq<ClockAction>, trace: seq<ClockTrace>, now: int)
    requires IsClockRun(at, actions, trace)
    requires var tr := trace[|actions|]; tr.state.hasSynchronized && tr.clock <= now
    ensures var tr := trace[|actions|];
            var age := now - tr.syncedAt;
            !(tr.state.IsTimeValid(Wrap(now)) <==> age <= 86_400_000) <==> age >= MODULUS && age % MODULUS <= 86_400_000
  {
    ClockInvHolds(at, actions, trace, |actions|);
    var tr := trace[|actions|];
    AgeTestIsExact(now, tr.syncedAt, CLOCK_VALIDITY_MS);
    assert Wrap(now - tr.syncedAt) == (now - tr.syncedAt) % MODULUS;
  }

  /** A run in which that happens: synchronised once, read 2^32 ms later, the clock hands out the
      time of its synchronisation. */
  lemma {:induction false} UnsynchronizedClockRevives() returns (actions: seq<ClockAction>, trace: seq<ClockTrace>)
    ensures IsClockRun(0, actions, trace)
    ensures actions == [ClockAction.Update(0, Some(1_700_000_000)), Read(MODULUS)]
    ensures trace[1].emitted == [] && trace[2].emitted == [1_700_000_000]
  {
    var start := ClockTrace(UNSYNCHRONIZED, 0, [], 0);
    actions := [ClockAction.Update(0, Some(1_700_000_000)), Read(MODULUS)];
    var synced := ClockStep(start, actions[0]);
    assert Wrap(0) == 0 && Wrap(MODULUS) == 0;
    trace := [start, synced, ClockStep(synced, actions[1])];
    forall n | 0 <= n < 2
      ensures ClockFollows(trace[n], actions[n], trace[n + 1])
    {
      assert n == 0 || n == 1;
    }
  }

  // --- Sensor freshness ---

  function HasReadingExpired(now: uint32, initializedAt: uint32, hasReading: bool, readingAt: uint32): bool {
    Elapsed(now, if hasReading then readingAt else initializedAt) > MAXIMUM_SENSOR_READING_AGE_MS
  }

  datatype Freshness = Freshness(ready: bool, hasReading: bool, initializedAt: uint32, readingAt: uint32) {
    function Initialized(now: uint32): Freshness {
      Freshness(true, false, now, 0)
    }

    predicate IsExpired(now: uint32) {
      HasReadingExpired(now, initializedAt, hasReading, readingAt)
    }

    /** One poll of the sensor: a new reading, or a check that the last one is not too old. */
    function Poll(now: uint32, updated: bool): Freshness {
      if !ready then this
      else if updated then this.(hasReading := true, readingAt := now)
      else if IsExpired(now) then this.(ready := false, hasReading := false)
      else this
    }

    /** A reading is offered to the measurement loop. */
    predicate Offers(now: uint32) {
      ready && hasReading && !IsExpired(now)
    }

    function Reference(): uint32 {
      if hasReading then readingAt else initializedAt
    }
  }

  class SensorFreshnessTracker {
    var ready: bool
    var hasReading: bool
    var initializedAt: uint32
    var readingAt: uint32

    ghost function View(): Freshness
      reads this
    {
      Freshness(ready, hasReading, initializedAt, readingAt)
    }

    constructor ()
      ensures View() == Freshness(false, false, 0, 0)
    {
      ready, hasReading, initializedAt, readingAt := false, false, 0, 0;
    }

    method MarkInitialized(now: uint32)
      modifies this
      ensures View() == old(View()).Initialized(now)
    {
      ready := true;
      hasReading := false;
      initializedAt := now;
      readingAt := 0;
    }

    method MarkReading(now: uint32)
      modifies this
      ensures View() == if old(ready) then old(View()).(hasReading := true, readingAt := now) else old(View())
    {
      if !ready {
        return;
      }
      hasReading := true;
      readingAt := now;
    }

    method MarkUnavailable()
      modifies this
      ensures View() == old(View()).(ready := false, hasReading := false)
    {
      ready := false;
      hasReading := false;
    }

    method InvalidateIfExpired(now: uint32) returns (invalidated: bool)
      modifies this
      ensures invalidated <==> old(ready) && old(View()).IsExpired(now)
      ensures View() == if invalidated then old(View()).(ready := false, hasReading := false) else old(View())
    {
      if !ready || !HasReadingExpired(now, initializedAt, hasReading, readingAt) {
        return false;
      }
      MarkUnavailable();
      return true;
    }

    method Poll(now: uint32, updated: bool)
      modifies this
      ensures View() == old(View()).Poll(now, updated)
    {
      if !ready {
        return;
      }
      if updated {
        MarkReading(now);
        return;
      }
      var _ := InvalidateIfExpired(now);
    }
  }

  datatype SensorAction = Initialize(at: int) | PollSensor(at: int, updated: bool)

  /** The tracker with the true time of its reference instant and of the last call. */
  datatype SensorTrace = SensorTrace(state: Freshness, reference: int, clock: int)

  function SensorStep(tr: SensorTrace, a: SensorAction): SensorTrace {
    match a
    case Initialize(at) => SensorTrace(tr.state.Initialized(Wrap(at)), at, at)
    case PollSensor(at, updated) =>
      SensorTrace(tr.state.Poll(Wrap(at), updated), if tr.state.ready && updated then at else tr.reference, at)
  }

  /** Runs of the loop, called again less than 49.7 days minus 5 seconds after each call. */
  ghost predicate IsSensorRun(at: int, actions: seq<SensorAction>, trace: seq<SensorTrace>) {
    && |trace| == |actions| + 1
    && trace[0] == SensorTrace(Freshness(false, false, 0, 0), at, at)
    && forall n :: 0 <= n < |actions| ==> SensorFollows(trace[n], actions[n], trace[n + 1])
  }

  ghost predicate SensorFollows(tr: SensorTrace, a: SensorAction, next: SensorTrace) {
    tr.clock <= a.at < tr.clock + MODULUS - MAXIMUM_SENSOR_READING_AGE_MS && next == SensorStep(tr, a)
  }

  ghost predicate SensorInv(tr: SensorTrace) {
    tr.state.ready ==>
      && tr.state.Reference() == Wrap(tr.reference)
      && tr.reference <= tr.clock <= tr.reference + MAXIMUM_SENSOR_READING_AGE_MS
  }

  lemma SensorStepKeepsInv(tr: SensorTrace, a: SensorAction)
    requires SensorInv(tr) && tr.clock <= a.at < tr.clock + MODULUS - MAXIMUM_SENSOR_READING_AGE_MS
    ensures SensorInv(SensorStep(tr, a))
  {
    if tr.state.ready {
      ElapsedIsExact(a.at, tr.reference);
    }
  }

  lemma {:induction false} SensorInvHolds(at: int, actions: seq<SensorAction>, trace: seq<SensorTrace>, n: nat)
    requires IsSensorRun(at, actions, trace) && n <= |actions|
    ensures SensorInv(trace[n])
  {
    if n > 0 {
      SensorInvHolds(at, actions, trace, n - 1);
      assert SensorFollows(trace[n - 1], actions[n - 1], trace[n - 1 + 1]);
      SensorStepKeepsInv(trace[n - 1], actions[n - 1]);
    }
  }

  /** In such a run a reading is offered exactly while its true age is at most five seconds: the
      loop retires a stale reading before its wrapped age can come back. */
  lemma OfferedReadingsAreFresh(at: int, actions: seq<SensorAction>, trace: seq<SensorTrace>, now: int)
    requires IsSensorRun(at, actions, trace)
    requires var tr := trace[|actions|]; tr.clock <= now < tr.clock + MODULUS - MAXIMUM_SENSOR_READING_AGE_MS
    ensures var tr := trace[|actions|];
            tr.state.Offers(Wrap(now)) <==> tr.state.ready && tr.state.hasReading && now - tr.reference <= 5_000
  {
    SensorInvHolds(at, actions, trace, |actions|);
    var tr := trace[|actions|];
    if tr.state.ready {
      ElapsedIsExact(now, tr.reference);
    }
  }
}
