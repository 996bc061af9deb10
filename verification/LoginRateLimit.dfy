/** app/security/login_rate_limit.py: the sliding-window login limiter with its per-key lock,
    purge and capacity eviction, and the bound it enforces over whole runs.

    Times are microseconds of one nondecreasing clock. Keys stand for the keyed hashes of an
    IP address or a user name. */
module LoginLimiting {
  import opened Wrappers

  type Key = string

  datatype AttemptState = AttemptState(failures: seq<int>, lockedUntil: Option<int>, updatedAt: Option<int>)

  const FRESH := AttemptState([], None, None)

  /** Limiter settings; app/config.py keeps every one of them positive. */
  datatype Limits = Limits(window: int, maxAttempts: int, lockTime: int, maxKeys: int) {
    predicate Valid() {
      window > 0 && maxAttempts > 0 && lockTime > 0 && maxKeys >= 0
    }
  }

  type States = map<Key, AttemptState>

  function KeyOf(kind: string, value: string): Key {
    kind + ":" + value
  }

  function Keys(ip: string, username: string): seq<Key> {
    [KeyOf("ip", ip), KeyOf("username", username)]
  }

  // --- One call as a function of the stored states ---

  /** Drops the failures that have left the window. */
  function Trim(failures: seq<int>, now: int, window: int): seq<int> {
    if failures != [] && now - failures[0] >= window then Trim(failures[1..], now, window) else failures
  }

  function Purged(state: AttemptState, now: int, window: int): AttemptState {
    AttemptState(
      Trim(state.failures, now, window),
      if state.lockedUntil.Some? && state.lockedUntil.value <= now then None else state.lockedUntil,
      state.updatedAt)
  }

  predicate Removable(state: AttemptState, now: int, window: int) {
    var p := Purged(state, now, window);
    p.failures == [] && p.lockedUntil.None?
  }

  function PurgeExpired(states: States, now: int, window: int): States {
    map key | key in states && !Removable(states[key], now, window) :: Purged(states[key], now, window)
  }

  function Lookup(states: States, key: Key): AttemptState {
    if key in states then states[key] else FRESH
  }

  function Failed(state: AttemptState, now: int, limits: Limits): AttemptState {
    var failures := Trim(state.failures, now, limits.window) + [now];
    AttemptState(failures,
                 if |failures| >= limits.maxAttempts then Some(now + limits.lockTime) else state.lockedUntil,
                 Some(now))
  }

  function RecordedOne(states: States, key: Key, now: int, limits: Limits): States {
    states[key := Failed(Lookup(states, key), now, limits)]
  }

  /** Recording one failure, before capacity is enforced. */
  function Recorded(states: States, ip: string, username: string, now: int, limits: Limits): States {
    var purged := PurgeExpired(states, now, limits.window);
    RecordedOne(RecordedOne(purged, KeyOf("ip", ip), now, limits), KeyOf("username", username), now, limits)
  }

  predicate OlderOrEqual(a: Option<int>, b: Option<int>) {
    a.None? || (b.Some? && a.value <= b.value)
  }

  /** Eviction keeps at most `maxKeys` states and drops only those updated longest ago. */
  ghost predicate IsEviction(before: States, after: States, maxKeys: int) {
    && after.Keys <= before.Keys
    && (forall key :: key in after ==> after[key] == before[key])
    && |after| == (if |before| > maxKeys then maxKeys else |before|)
    && (forall gone, kept :: gone in before && gone !in after && kept in after ==>
          before[gone].updatedAt.None?
          || (before[kept].updatedAt.Some? && before[gone].updatedAt.value <= before[kept].updatedAt.value))
  }

  lemma RemoveOne(states: States, key: Key)
    requires key in states
    ensures |states - {key}| == |states| - 1
  {
    assert (states - {key}).Keys == states.Keys - {key};
    assert |states| == |states.Keys| && |states - {key}| == |(states - {key}).Keys|;
  }

  function Remaining(state: AttemptState, now: int): Option<int> {
    if state.lockedUntil.None? || state.lockedUntil.value <= now then None
    else
      var seconds := (state.lockedUntil.value - now) / 1_000_000;
      Some(if seconds < 1 then 1 else seconds)
  }

  /** Whole seconds of a remaining lock, in microseconds; less than one second counts as one. */
  predicate SecondsLeft(seconds: int, left: int) {
    left < (seconds + 1) * 1_000_000 && (seconds * 1_000_000 <= left || seconds == 1)
  }

  lemma RemainingInPlainTerms(states: States, key: Key, now: int)
    ensures var r := Remaining(Lookup(states, key), now);
            && (r.Some? <==> IsLocked(states, key, now))
            && (r.Some? ==> r.value >= 1 && SecondsLeft(r.value, states[key].lockedUntil.value - now))
  {
  }

  lemma {:induction false} TrimEmptiesExactly(failures: seq<int>, now: int, window: int)
    ensures Trim(failures, now, window) == [] <==> forall f :: f in failures ==> now - f >= window
  {
    if |failures| > 0 {
      assert failures == [failures[0]] + failures[1..] && failures[0] in failures;
      if now - failures[0] >= window {
        TrimEmptiesExactly(failures[1..], now, window);
        assert Trim(failures, now, window) == Trim(failures[1..], now, window);
        assert forall f :: f in failures <==> f == failures[0] || f in failures[1..];
      }
    }
  }

  /** A purge keeps exactly the keys with a failure inside the window or a lock that still runs. */
  lemma {:induction false} PurgeKeepsExactly(states: States, now: int, window: int, key: Key)
    ensures key in PurgeExpired(states, now, window) <==>
              && key in states
              && ((exists f :: f in states[key].failures && now - f < window) || IsLocked(states, key, now))
  {
    if key in states {
      TrimEmptiesExactly(states[key].failures, now, window);
    }
  }

  /** Trimming drops from the front while the first failure has left the window. */
  lemma {:induction false} TrimDropsFront(failures: seq<int>, now: int, window: int) returns (k: nat)
    ensures k <= |failures| && Trim(failures, now, window) == failures[k..]
    ensures forall i :: 0 <= i < k ==> now - failures[i] >= window
    ensures k < |failures| ==> now - failures[k] < window
  {
    if |failures| > 0 && now - failures[0] >= window {
      k := TrimDropsFront(failures[1..], now, window);
      k := k + 1;
    } else {
      k := 0;
    }
  }

  /** The first of these failures that is still inside the window, and all after it. */
  ghost predicate IsWindowOf(kept: seq<int>, failures: seq<int>, now: int, window: int) {
    exists k: nat ::
      && k <= |failures| && kept == failures[k..]
      && (forall i :: 0 <= i < k ==> now - failures[i] >= window)
      && (k < |failures| ==> now - failures[k] < window)
  }

  lemma {:induction false} TrimKeepsWindow(failures: seq<int>, now: int, window: int)
    ensures IsWindowOf(Trim(failures, now, window), failures, now, window)
    ensures Trim(Trim(failures, now, window), now, window) == Trim(failures, now, window)
  {
    var k := TrimDropsFront(failures, now, window);
  }

  lemma KeysInWords(ip: string, username: string)
    ensures KeyOf("ip", ip) == "ip:" + ip && KeyOf("username", username) == "username:" + username
    ensures KeyOf("ip", ip) != KeyOf("username", username)
  {
    assert "ip" + ":" == "ip:" && "username" + ":" == "username:";
    assert KeyOf("ip", ip)[0] == 'i' && KeyOf("username", username)[0] == 'u';
  }

  /** A state after a failed login, by the state before: the failures left in the window and this one,
      with a lock for the lock time from the limit on, and below it a lock that still runs. */
  ghost predicate FailedFrom(after: AttemptState, states: States, key: Key, now: int, limits: Limits) {
    var n := |after.failures| - 1;
    && after.updatedAt == Some(now) && n >= 0 && after.failures[n] == now
    && IsWindowOf(after.failures[..n], if key in states then states[key].failures else [], now, limits.window)
    && after.lockedUntil == if n + 1 >= limits.maxAttempts then Some(now + limits.lockTime)
                            else if IsLocked(states, key, now) then states[key].lockedUntil else None
  }

  lemma {:induction false} FailedAfterPurge(states: States, key: Key, now: int, limits: Limits)
    requires limits.Valid()
    ensures FailedFrom(Failed(Lookup(PurgeExpired(states, now, limits.window), key), now, limits), states, key, now,
                       limits)
  {
    var before := Lookup(states, key);
    var purged := PurgeExpired(states, now, limits.window);
    var after := Failed(Lookup(purged, key), now, limits);
    TrimKeepsWindow(before.failures, now, limits.window);
    if key in states && !Removable(before, now, limits.window) {
      assert Lookup(purged, key) == Purged(before, now, limits.window);
    } else {
      assert Lookup(purged, key) == FRESH;
    }
    assert after.failures == Trim(before.failures, now, limits.window) + [now];
    assert after.failures[..|after.failures| - 1] == Trim(before.failures, now, limits.window);
  }

  lemma {:induction false} RecordedInPlainTerms(
    states: States, ip: string, username: string, now: int, limits: Limits, key: Key)
    requires limits.Valid() && (key == "ip:" + ip || key == "username:" + username)
    ensures var after := Recorded(states, ip, username, now, limits);
            key in after && FailedFrom(after[key], states, key, now, limits)
  {
    KeysInWords(ip, username);
    FailedAfterPurge(states, key, now, limits);
  }

  predicate IsLocked(states: States, key: Key, now: int) {
    key in states && states[key].lockedUntil.Some? && states[key].lockedUntil.value > now
  }

  // --- The limiter as the program's object ---

  class LoginRateLimiter {
    const limits: Limits
    var states: States

    constructor (limits: Limits)
      ensures this.limits == limits && states == map[]
    {
      this.limits := limits;
      states := map[];
    }

    /** None exactly when neither key is locked; otherwise the longer remaining lock. */
    method RetryAfter(ip: string, username: string, now: int) returns (seconds: Option<int>)
      ensures seconds.None? <==> forall key :: key in Keys(ip, username) ==> !IsLocked(states, key, now)
      ensures seconds.Some? ==>
              && seconds.value >= 1
              && exists key :: key in Keys(ip, username) && IsLocked(states, key, now)
                               && SecondsLeft(seconds.value, states[key].lockedUntil.value - now)
      ensures forall key :: key in Keys(ip, username) && IsLocked(states, key, now) ==>
                seconds.Some? && states[key].lockedUntil.value - now < (seconds.value + 1) * 1_000_000
    {
      seconds := None;
      var keys := Keys(ip, username);
      var i := 0;
      while i < |keys|
        invariant 0 <= i <= |keys|
        invariant seconds.None? <==> forall k :: 0 <= k < i ==> !IsLocked(states, keys[k], now)
        invariant seconds.Some? ==>
                  && seconds.value >= 1
                  && exists k :: 0 <= k < i && IsLocked(states, keys[k], now)
                                 && SecondsLeft(seconds.value, states[keys[k]].lockedUntil.value - now)
        invariant forall k :: 0 <= k < i && IsLocked(states, keys[k], now) ==>
                    seconds.Some? && states[keys[k]].lockedUntil.value - now < (seconds.value + 1) * 1_000_000
      {
        if keys[i] in states {
          var remaining := Remaining(states[keys[i]], now);
          RemainingInPlainTerms(states, keys[i], now);
          if remaining.Some? && (seconds.None? || remaining.value > seconds.value) {
            seconds := remaining;
          }
        }
        i := i + 1;
      }
    }

    method TrimFailures(failures: seq<int>, now: int) returns (kept: seq<int>)
      ensures kept == Trim(failures, now, limits.window)
    {
      kept := failures;
      while kept != [] && now - kept[0] >= limits.window
        invariant Trim(failures, now, limits.window) == Trim(kept, now, limits.window)
        decreases |kept|
      {
        kept := kept[1..];
      }
    }

    method PurgeStates(now: int)
      modifies this`states
      ensures states == PurgeExpired(old(states), now, limits.window)
    {
      ghost var before := states;
      var todo := states.Keys;
      var removable: set<Key> := {};
      while todo != {}
        invariant todo <= states.Keys == before.Keys
        invariant removable <= before.Keys - todo
        invariant forall key :: key in before.Keys - todo ==> states[key] == Purged(before[key], now, limits.window)
        invariant forall key :: key in todo ==> states[key] == before[key]
        invariant forall key :: key in before.Keys - todo ==>
                  (key in removable <==> Removable(before[key], now, limits.window))
        decreases todo
      {
        var key :| key in todo;
        todo := todo - {key};
        var failures := TrimFailures(states[key].failures, now);
        var lockedUntil := states[key].lockedUntil;
        if lockedUntil.Some? && lockedUntil.value <= now {
          lockedUntil := None;
        }
        states := states[key := AttemptState(failures, lockedUntil, states[key].updatedAt)];
        if failures == [] && lockedUntil.None? {
          removable := removable + {key};
        }
      }
      states := states - removable;
      assert states == PurgeExpired(before, now, limits.window);
    }

    method RecordKey(key: Key, now: int)
      modifies this`states
      ensures states == RecordedOne(old(states), key, now, limits)
    {
      var state := if key in states then states[key] else FRESH;
      var failures := TrimFailures(state.failures, now);
      failures := failures + [now];
      var lockedUntil := state.lockedUntil;
      if |failures| >= limits.maxAttempts {
        lockedUntil := Some(now + limits.lockTime);
      }
      states := states[key := AttemptState(failures, lockedUntil, Some(now))];
    }

    method EnforceCapacity()
      requires limits.Valid()
      modifies this`states
      ensures IsEviction(old(states), states, limits.maxKeys)
    {
      while |states| > limits.maxKeys
        invariant states.Keys <= old(states).Keys
        invariant forall key :: key in states ==> states[key] == old(states)[key]
        invariant |states| >= (if |old(states)| > limits.maxKeys then limits.maxKeys else |old(states)|)
        invariant |old(states)| <= limits.maxKeys ==> states == old(states)
        invariant |states| <= |old(states)|
        invariant forall gone, kept :: gone in old(states) && gone !in states && kept in states ==>
                    OlderOrEqual(old(states)[gone].updatedAt, old(states)[kept].updatedAt)
        decreases |states|
      {
        var oldest := Oldest();
        RemoveOne(states, oldest);
        states := states - {oldest};
      }
    }

    method Oldest() returns (oldest: Key)
      requires |states| > 0
      ensures oldest in states
      ensures forall key :: key in states ==> OlderOrEqual(states[oldest].updatedAt, states[key].updatedAt)
    {
      oldest :| oldest in states;
      var todo := states.Keys - {oldest};
      while todo != {}
        invariant todo <= states.Keys && oldest in states
        invariant forall key :: key in states.Keys - todo ==>
                  OlderOrEqual(states[oldest].updatedAt, states[key].updatedAt)
        decreases todo
      {
        var key :| key in todo;
        todo := todo - {key};
        if !OlderOrEqual(states[oldest].updatedAt, states[key].updatedAt) {
          oldest := key;
        }
      }
    }

    method RecordFailure(ip: string, username: string, now: int)
      requires limits.Valid()
      modifies this`states
      ensures IsEviction(Recorded(old(states), ip, username, now, limits), states, limits.maxKeys)
    {
      PurgeStates(now);
      RecordKey(KeyOf("ip", ip), now);
      RecordKey(KeyOf("username", username), now);
      EnforceCapacity();
    }

    method Clear(ip: string, username: string)
      modifies this`states
      ensures states == old(states) - {KeyOf("ip", ip), KeyOf("username", username)}
    {
      states := states - {KeyOf("ip", ip)};
      states := states - {KeyOf("username", username)};
    }
  }
}
