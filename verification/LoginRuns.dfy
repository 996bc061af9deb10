/** Whole runs of the login page against the limiter: the bound on recorded failures. */
module LoginRuns {
  import opened Wrappers
  import opened LoginLimiting

  /** One POST to the login page: the limiter is asked at `checkAt`; if it does not refuse, the
      password decides, and a failure is recorded at `recordAt`. `kept` is what survives eviction. */
  datatype Attempt = Attempt(ip: string, username: string, checkAt: int, passwordOk: bool, recordAt: int, kept: States)

  /** The limiter with its history: per key, every failure recorded since the key was last
      cleared or evicted, and the time of the last purge. */
  datatype Trace = Trace(states: States, log: map<Key, seq<int>>, purgedAt: int, clock: int)

  function LogOf(log: map<Key, seq<int>>, key: Key): seq<int> {
    if key in log then log[key] else []
  }

  predicate Refused(states: States, a: Attempt) {
    IsLocked(states, KeyOf("ip", a.ip), a.checkAt) || IsLocked(states, KeyOf("username", a.username), a.checkAt)
  }

  ghost predicate Possible(tr: Trace, a: Attempt, limits: Limits) {
    && tr.clock <= a.checkAt <= a.recordAt
    && (!Refused(tr.states, a) && !a.passwordOk ==>
          IsEviction(Recorded(tr.states, a.ip, a.username, a.recordAt, limits), a.kept, limits.maxKeys))
  }

  /** Appends the failure to both keys' logs and starts the evicted keys' logs afresh. */
  function LogAfter(log: map<Key, seq<int>>, a: Attempt, recorded: States): map<Key, seq<int>> {
    var ipKey := KeyOf("ip", a.ip);
    var userKey := KeyOf("username", a.username);
    log[ipKey := LogOf(log, ipKey) + [a.recordAt]][userKey := LogOf(log, userKey) + [a.recordAt]]
    - (recorded.Keys - a.kept.Keys)
  }

  function AfterFailure(tr: Trace, a: Attempt, limits: Limits): Trace {
    Trace(a.kept, LogAfter(tr.log, a, Recorded(tr.states, a.ip, a.username, a.recordAt, limits)), a.recordAt,
      a.recordAt)
  }

  function Step(tr: Trace, a: Attempt, limits: Limits): Trace {
    var keys := {KeyOf("ip", a.ip), KeyOf("username", a.username)};
    if Refused(tr.states, a) then tr.(clock := a.recordAt)
    else if a.passwordOk then Trace(tr.states - keys, tr.log - keys, tr.purgedAt, a.recordAt)
    else AfterFailure(tr, a, limits)
  }

  ghost predicate IsRun(limits: Limits, at: int, attempts: seq<Attempt>, trace: seq<Trace>) {
    && |trace| == |attempts| + 1
    && trace[0] == Trace(map[], map[], at, at)
    && forall n :: 0 <= n < |attempts| ==> Follows(trace[n], attempts[n], trace[n + 1], limits)
  }

  ghost predicate Follows(tr: Trace, a: Attempt, next: Trace, limits: Limits) {
    Possible(tr, a, limits) && next == Step(tr, a, limits)
  }

  // --- Trimming ---

  predicate SortedUpTo(log: seq<int>, until: int) {
    && (forall i, j :: 0 <= i <= j < |log| ==> log[i] <= log[j])
    && (forall i :: 0 <= i < |log| ==> log[i] <= until)
  }

  /** Trimming a sorted log leaves exactly the suffix still inside the window. */
  lemma {:induction false} TrimIsWindow(log: seq<int>, now: int, window: int) returns (k: nat)
    requires SortedUpTo(log, now)
    ensures k <= |log| && Trim(log, now, window) == log[k..]
    ensures forall i :: 0 <= i < |log| ==> (i < k <==> now - log[i] >= window)
  {
    if log != [] && now - log[0] >= window {
      var rest := TrimIsWindow(log[1..], now, window);
      k := rest + 1;
      assert log[1..][rest..] == log[k..];
      forall i | 0 <= i < |log|
        ensures i < k <==> now - log[i] >= window
      {
        if i > 0 {
          assert log[1..][i - 1] == log[i];
        }
      }
    } else {
      k := 0;
    }
  }

  lemma {:induction false} TrimAgain(log: seq<int>, before: int, now: int, window: int)
    requires before <= now
    ensures Trim(Trim(log, before, window), now, window) == Trim(log, now, window)
  {
    if log != [] && before - log[0] >= window {
      TrimAgain(log[1..], before, now, window);
    }
  }

  lemma {:induction false} TrimAppend(log: seq<int>, now: int, window: int)
    requires window > 0
    ensures Trim(log + [now], now, window) == Trim(log, now, window) + [now]
  {
    if log == [] {
      assert [] + [now] == [now];
    } else {
      assert (log + [now])[0] == log[0];
      assert (log + [now])[1..] == log[1..] + [now];
      if now - log[0] >= window {
        TrimAppend(log[1..], now, window);
      }
    }
  }

  // --- One key ---

  /** The newest `maxAttempts` failures lie inside one window. */
  predicate Full(log: seq<int>, limits: Limits)
    requires limits.Valid()
  {
    |log| >= limits.maxAttempts && log[|log| - 1] - log[|log| - limits.maxAttempts] < limits.window
  }

  predicate Spaced(log: seq<int>, limits: Limits)
    requires limits.Valid()
  {
    forall i :: 0 <= i < |log| - limits.maxAttempts ==> FarApart(log, i, limits)
  }

  predicate FarApart(log: seq<int>, i: nat, limits: Limits)
    requires limits.Valid() && i + limits.maxAttempts < |log|
  {
    log[i + limits.maxAttempts] - log[i] >= limits.window
  }

  /** What a key's stored state says about its failure log as of the last purge. */
  predicate KeyOk(state: AttemptState, log: seq<int>, purgedAt: int, limits: Limits)
    requires limits.Valid()
  {
    && SortedUpTo(log, purgedAt)
    && state.failures == Trim(log, purgedAt, limits.window)
    && (state.lockedUntil.Some? ==> Full(log, limits) && state.lockedUntil.value == log[|log| - 1] + limits.lockTime)
    && (Full(log, limits) && state.lockedUntil.None? ==> log[|log| - 1] + limits.lockTime <= purgedAt)
  }

  ghost predicate TraceOk(tr: Trace, limits: Limits)
    requires limits.Valid()
  {
    && tr.purgedAt <= tr.clock
    && forall key :: KeyOk(Lookup(tr.states, key), LogOf(tr.log, key), tr.purgedAt, limits)
  }

  ghost predicate Bounded(tr: Trace, limits: Limits)
    requires limits.Valid()
  {
    forall key :: Spaced(LogOf(tr.log, key), limits)
  }

  lemma PurgeKeepsKey(states: States, key: Key, log: seq<int>, purgedAt: int, now: int, limits: Limits)
    requires limits.Valid() && purgedAt <= now && KeyOk(Lookup(states, key), log, purgedAt, limits)
    ensures KeyOk(Lookup(PurgeExpired(states, now, limits.window), key), log, now, limits)
  {
    TrimAgain(log, purgedAt, now, limits.window);
  }

  lemma FailureKeepsKey(state: AttemptState, log: seq<int>, now: int, limits: Limits)
    requires limits.Valid() && KeyOk(state, log, now, limits) && state.lockedUntil.None?
    ensures KeyOk(Failed(state, now, limits), log + [now], now, limits)
  {
    TrimAgain(log, now, now, limits.window);
    TrimAppend(log, now, limits.window);
    var longer := log + [now];
    var k := TrimIsWindow(longer, now, limits.window);
    assert |Failed(state, now, limits).failures| == |longer| - k;
    if |longer| >= limits.maxAttempts {
      assert |longer| - limits.maxAttempts < k <==> now - longer[|longer| - limits.maxAttempts] >= limits.window;
    }
  }

  /** A key that is not locked when the login is checked can take one more failure. */
  lemma FailureKeepsSpacing(state: AttemptState, log: seq<int>, purgedAt: int, checkAt: int, now: int, limits: Limits)
    requires limits.Valid() && limits.lockTime >= limits.window
    requires purgedAt <= checkAt <= now && KeyOk(state, log, purgedAt, limits) && Spaced(log, limits)
    requires state.lockedUntil.None? || state.lockedUntil.value <= checkAt
    ensures Spaced(log + [now], limits)
  {
    var longer := log + [now];
    forall i: nat | i < |longer| - limits.maxAttempts
      ensures FarApart(longer, i, limits)
    {
      if i + limits.maxAttempts < |log| {
        assert FarApart(log, i, limits);
      } else {
        assert log[i] <= log[|log| - 1] <= now;
      }
    }
  }

  lemma UnlockedAfterPurge(states: States, key: Key, checkAt: int, now: int, limits: Limits)
    requires !IsLocked(states, key, checkAt) && checkAt <= now
    ensures Lookup(PurgeExpired(states, now, limits.window), key).lockedUntil.None?
  {
  }

  // --- Every step ---

  lemma KeysDiffer(ip: string, username: string)
    ensures KeyOf("ip", ip) != KeyOf("username", username)
  {
    assert KeyOf("ip", ip)[0] == 'i' && KeyOf("username", username)[0] == 'u';
  }

  lemma RecordedKeepsKey(tr: Trace, a: Attempt, limits: Limits, key: Key)
    requires limits.Valid() && TraceOk(tr, limits) && tr.clock <= a.checkAt <= a.recordAt && !Refused(tr.states, a)
    ensures var recorded := Recorded(tr.states, a.ip, a.username, a.recordAt, limits);
            var log := LogOf(tr.log, key) + if key in Keys(a.ip, a.username) then [a.recordAt] else [];
            KeyOk(Lookup(recorded, key), log, a.recordAt, limits)
  {
    var log := LogOf(tr.log, key);
    var purged := PurgeExpired(tr.states, a.recordAt, limits.window);
    KeysDiffer(a.ip, a.username);
    PurgeKeepsKey(tr.states, key, log, tr.purgedAt, a.recordAt, limits);
    if key in Keys(a.ip, a.username) {
      UnlockedAfterPurge(tr.states, key, a.checkAt, a.recordAt, limits);
      FailureKeepsKey(Lookup(purged, key), log, a.recordAt, limits);
    } else {
      assert log + [] == log;
    }
  }

  lemma KeyAfterFailure(log: map<Key, seq<int>>, a: Attempt, recorded: States, maxKeys: int, key: Key)
    requires IsEviction(recorded, a.kept, maxKeys)
    ensures var after := LogOf(LogAfter(log, a, recorded), key);
            if key in recorded && key !in a.kept then
              Lookup(a.kept, key) == FRESH && after == []
            else
              && Lookup(a.kept, key) == Lookup(recorded, key)
              && after == LogOf(log, key) + if key in Keys(a.ip, a.username) then [a.recordAt] else []
  {
    KeysDiffer(a.ip, a.username);
    assert LogOf(log, key) + [] == LogOf(log, key);
  }

  lemma {:induction false} FailureKeepsTrace(tr: Trace, a: Attempt, limits: Limits)
    requires limits.Valid() && TraceOk(tr, limits) && Possible(tr, a, limits) && !Refused(tr.states, a) && !a.passwordOk
    ensures TraceOk(AfterFailure(tr, a, limits), limits)
  {
    var next := AfterFailure(tr, a, limits);
    var recorded := Recorded(tr.states, a.ip, a.username, a.recordAt, limits);
    forall key
      ensures KeyOk(Lookup(next.states, key), LogOf(next.log, key), a.recordAt, limits)
    {
      KeyAfterFailure(tr.log, a, recorded, limits.maxKeys, key);
      if key !in recorded || key in a.kept {
        RecordedKeepsKey(tr, a, limits, key);
      }
    }
  }

  lemma FailureKeepsBound(tr: Trace, a: Attempt, limits: Limits)
    requires limits.Valid() && limits.lockTime >= limits.window
    requires TraceOk(tr, limits) && Bounded(tr, limits) && Possible(tr, a, limits) && !Refused(tr.states, a)
             && !a.passwordOk
    ensures Bounded(AfterFailure(tr, a, limits), limits)
  {
    var next := AfterFailure(tr, a, limits);
    forall key
      ensures Spaced(LogOf(next.log, key), limits)
    {
      var log := LogOf(tr.log, key);
      KeyAfterFailure(tr.log, a, Recorded(tr.states, a.ip, a.username, a.recordAt, limits), limits.maxKeys, key);
      assert Spaced(log, limits) && KeyOk(Lookup(tr.states, key), log, tr.purgedAt, limits);
      if key in Keys(a.ip, a.username) {
        FailureKeepsSpacing(Lookup(tr.states, key), log, tr.purgedAt, a.checkAt, a.recordAt, limits);
      } else {
        assert log + [] == log;
      }
    }
  }

  lemma {:induction false} StepKeepsTrace(tr: Trace, a: Attempt, limits: Limits)
    requires limits.Valid() && TraceOk(tr, limits) && Possible(tr, a, limits)
    ensures TraceOk(Step(tr, a, limits), limits)
    ensures limits.lockTime >= limits.window && Bounded(tr, limits) ==> Bounded(Step(tr, a, limits), limits)
  {
    if !Refused(tr.states, a) && !a.passwordOk {
      FailureKeepsTrace(tr, a, limits);
      if limits.lockTime >= limits.window && Bounded(tr, limits) {
        FailureKeepsBound(tr, a, limits);
      }
    } else {
      var next := Step(tr, a, limits);
      forall key
        ensures KeyOk(Lookup(next.states, key), LogOf(next.log, key), next.purgedAt, limits)
      {
        assert KeyOk(Lookup(tr.states, key), LogOf(tr.log, key), tr.purgedAt, limits);
      }
      forall key | Bounded(tr, limits)
        ensures Spaced(LogOf(next.log, key), limits)
      {
        assert Spaced(LogOf(tr.log, key), limits);
      }
    }
  }

  lemma {:induction false} RunKeepsTrace(limits: Limits, at: int, attempts: seq<Attempt>, trace: seq<Trace>, n: nat)
    requires limits.Valid() && IsRun(limits, at, attempts, trace) && n <= |attempts|
    ensures TraceOk(trace[n], limits)
    ensures limits.lockTime >= limits.window ==> Bounded(trace[n], limits)
  {
    if n > 0 {
      RunKeepsTrace(limits, at, attempts, trace, n - 1);
      assert Follows(trace[n - 1], attempts[n - 1], trace[n - 1 + 1], limits);
      StepKeepsTrace(trace[n - 1], attempts[n - 1], limits);
    }
  }

  // --- Main results ---

  /** In every run each key's deque is exactly the part of its failure log still inside the
      window at the last purge, and a key is locked only after a full window of failures. */
  lemma DequeIsWindowOfLog(limits: Limits, at: int, attempts: seq<Attempt>, trace: seq<Trace>, key: Key)
    requires limits.Valid() && IsRun(limits, at, attempts, trace)
    ensures var tr := trace[|attempts|];
            var log := LogOf(tr.log, key);
            var state := Lookup(tr.states, key);
            && (exists k: nat :: k <= |log| && state.failures == log[k..]
                  && forall i :: 0 <= i < |log| ==> (i < k <==> tr.purgedAt - log[i] >= limits.window))
            && (state.lockedUntil.Some? ==>
               Full(log, limits) && state.lockedUntil.value == log[|log| - 1] + limits.lockTime)
  {
    RunKeepsTrace(limits, at, attempts, trace, |attempts|);
    var tr := trace[|attempts|];
    assert KeyOk(Lookup(tr.states, key), LogOf(tr.log, key), tr.purgedAt, limits);
    var k := TrimIsWindow(LogOf(tr.log, key), tr.purgedAt, limits.window);
  }

  /** When the lock lasts at least as long as the window, no run ever records more than
      `maxAttempts` failures of one key inside any span shorter than the window. */
  lemma FailuresAreBounded(limits: Limits, at: int, attempts: seq<Attempt>, trace: seq<Trace>, key: Key, i: nat, j: nat)
    requires limits.Valid() && limits.lockTime >= limits.window && IsRun(limits, at, attempts, trace)
    requires var log := LogOf(trace[|attempts|].log, key);
             i <= j < |log| && log[j] - log[i] < limits.window
    ensures j - i + 1 <= limits.maxAttempts
  {
    RunKeepsTrace(limits, at, attempts, trace, |attempts|);
    var tr := trace[|attempts|];
    var log := LogOf(tr.log, key);
    assert KeyOk(Lookup(tr.states, key), log, tr.purgedAt, limits) && Spaced(log, limits);
    if j - i >= limits.maxAttempts {
      SpacedSpan(log, limits, i, j);
    }
  }

  lemma SpacedSpan(log: seq<int>, limits: Limits, i: nat, j: nat)
    requires limits.Valid() && Spaced(log, limits) && j < |log| && i + limits.maxAttempts <= j
    requires SortedUpTo(log, log[|log| - 1])
    ensures log[j] - log[i] >= limits.window
  {
    assert FarApart(log, i, limits);
    assert log[i + limits.maxAttempts] <= log[j];
  }

  // --- The bound needs the lock to outlast the window ---

  /** Who logs in: the login form admits user names of 1 to 128 characters. */
  datatype Caller = Caller(ip: string, username: string) {
    predicate Admitted() {
      1 <= |username| <= 128
    }
  }

  predicate AllAdmitted(attempts: seq<Attempt>) {
    forall n :: 0 <= n < |attempts| ==> Caller(attempts[n].ip, attempts[n].username).Admitted()
  }

  /** `n` failures of one login form at time 0. */
  function Burst(limits: Limits, n: nat): AttemptState {
    AttemptState(seq(n, _ => 0), if n >= limits.maxAttempts then Some(limits.lockTime) else None, Some(0))
  }

  function BurstStates(limits: Limits, who: Caller, n: nat): States {
    if n == 0 then map[]
    else map[KeyOf("ip", who.ip) := Burst(limits, n), KeyOf("username", who.username) := Burst(limits, n)]
  }

  function BurstTrace(limits: Limits, who: Caller, n: nat): Trace {
    var log := seq(n, _ => 0);
    Trace(BurstStates(limits, who, n), if n == 0 then map[]
      else map[KeyOf("ip", who.ip) := log, KeyOf("username", who.username) := log], 0, 0)
  }

  function BurstAttempt(limits: Limits, who: Caller, n: nat): Attempt {
    Attempt(who.ip, who.username, 0, false, 0, BurstStates(limits, who, n + 1))
  }

  lemma {:induction false} TrimZeros(n: nat, window: int)
    requires window > 0
    ensures Trim(seq(n, _ => 0), 0, window) == seq(n, _ => 0)
  {
  }

  lemma BurstRecorded(limits: Limits, who: Caller, n: nat)
    requires limits.Valid()
    ensures Recorded(BurstStates(limits, who, n), who.ip, who.username, 0, limits) == BurstStates(limits, who, n + 1)
  {
    KeysDiffer(who.ip, who.username);
    TrimZeros(n, limits.window);
    var states := BurstStates(limits, who, n);
    assert seq(n, _ => 0) + [0] == seq(n + 1, _ => 0);
    var purged := PurgeExpired(states, 0, limits.window);
    forall key | key in states
      ensures key in purged && Lookup(purged, key) == states[key]
    {
      assert n > 0 ==> Trim(states[key].failures, 0, limits.window) != [];
    }
    TrimAgain(seq(n, _ => 0), 0, 0, limits.window);
  }

  lemma NoEviction(states: States, maxKeys: int)
    requires |states| <= maxKeys
    ensures IsEviction(states, states, maxKeys)
  {
  }

  lemma {:induction false} BurstStep(limits: Limits, who: Caller, n: nat)
    requires limits.Valid() && limits.maxKeys >= 2 && n < limits.maxAttempts
    ensures Follows(BurstTrace(limits, who, n), BurstAttempt(limits, who, n), BurstTrace(limits, who, n + 1), limits)
  {
    KeysDiffer(who.ip, who.username);
    BurstRecorded(limits, who, n);
    BurstIsKept(limits, who, n + 1);
    BurstLog(limits, who, n);
  }

  lemma BurstIsKept(limits: Limits, who: Caller, n: nat)
    requires limits.maxKeys >= 2
    ensures IsEviction(BurstStates(limits, who, n), BurstStates(limits, who, n), limits.maxKeys)
  {
    var states := BurstStates(limits, who, n);
    assert states.Keys <= {KeyOf("ip", who.ip), KeyOf("username", who.username)};
    SubsetSize(states.Keys, {KeyOf("ip", who.ip), KeyOf("username", who.username)});
    assert |states| == |states.Keys|;
    NoEviction(states, limits.maxKeys);
  }

  lemma SubsetSize(a: set<Key>, b: set<Key>)
    requires a <= b
    ensures |a| <= |b|
  {
    assert b == a + (b - a);
  }

  lemma BurstLog(limits: Limits, who: Caller, n: nat)
    ensures LogAfter(BurstTrace(limits, who, n).log, BurstAttempt(limits, who, n), BurstStates(limits, who, n + 1))
            == BurstTrace(limits, who, n + 1).log
  {
    KeysDiffer(who.ip, who.username);
    assert seq(n, _ => 0) + [0] == seq(n + 1, _ => 0);
    assert n == 0 ==> [] + [0] == seq(1, _ => 0);
  }

  /** When the lock is shorter than the window the bound fails for whoever logs in: `maxAttempts`
      failures at once, and one more the moment the lock ends, all lie inside one window. */
  lemma ShortLockBreaksBound(limits: Limits, who: Caller) returns (attempts: seq<Attempt>, trace: seq<Trace>)
    requires limits.Valid() && limits.maxKeys >= 2 && limits.lockTime < limits.window
    ensures IsRun(limits, 0, attempts, trace)
    ensures forall n :: 0 <= n < |attempts| ==> Caller(attempts[n].ip, attempts[n].username) == who
    ensures var log := LogOf(trace[|attempts|].log, KeyOf("ip", who.ip));
            |log| == limits.maxAttempts + 1 && log[|log| - 1] - log[0] < limits.window
  {
    var m := limits.maxAttempts;
    attempts, trace := BurstRun(limits, who, m);
    var last := Attempt(who.ip, who.username, limits.lockTime, false, limits.lockTime, LastStates(limits, who));
    LastStep(limits, who);
    RunExtends(limits, 0, attempts, trace, last, Step(trace[m], last, limits));
    attempts, trace := attempts + [last], trace + [Step(trace[m], last, limits)];
  }

  lemma RunExtends(limits: Limits, at: int, attempts: seq<Attempt>, trace: seq<Trace>, a: Attempt, next: Trace)
    requires IsRun(limits, at, attempts, trace) && Follows(trace[|attempts|], a, next, limits)
    ensures IsRun(limits, at, attempts + [a], trace + [next])
  {
    forall n | 0 <= n < |attempts + [a]|
      ensures Follows((trace + [next])[n], (attempts + [a])[n], (trace + [next])[n + 1], limits)
    {
      if n < |attempts| {
        assert Follows(trace[n], attempts[n], trace[n + 1], limits);
      }
    }
  }

  lemma {:induction false} BurstRun(limits: Limits, who: Caller, n: nat)
    returns (attempts: seq<Attempt>, trace: seq<Trace>)
    requires limits.Valid() && limits.maxKeys >= 2 && n <= limits.maxAttempts
    ensures IsRun(limits, 0, attempts, trace) && |attempts| == n && trace[n] == BurstTrace(limits, who, n)
    ensures forall k :: 0 <= k < n ==> Caller(attempts[k].ip, attempts[k].username) == who
  {
    if n == 0 {
      attempts, trace := [], [BurstTrace(limits, who, 0)];
    } else {
      attempts, trace := BurstRun(limits, who, n - 1);
      BurstStep(limits, who, n - 1);
      RunExtends(limits, 0, attempts, trace, BurstAttempt(limits, who, n - 1), BurstTrace(limits, who, n));
      attempts, trace := attempts + [BurstAttempt(limits, who, n - 1)], trace + [BurstTrace(limits, who, n)];
    }
  }

  function LastStates(limits: Limits, who: Caller): States
    requires limits.Valid()
  {
    Recorded(BurstStates(limits, who, limits.maxAttempts), who.ip, who.username, limits.lockTime, limits)
  }

  lemma LastStep(limits: Limits, who: Caller)
    requires limits.Valid() && limits.maxKeys >= 2 && limits.lockTime < limits.window
    ensures var last := Attempt(who.ip, who.username, limits.lockTime, false, limits.lockTime, LastStates(limits, who));
            var tr := BurstTrace(limits, who, limits.maxAttempts);
            && Possible(tr, last, limits)
            && LogOf(Step(tr, last, limits).log, KeyOf("ip", who.ip))
               == seq(limits.maxAttempts, _ => 0) + [limits.lockTime]
  {
    var states := LastStates(limits, who);
    KeysDiffer(who.ip, who.username);
    SubsetSize(states.Keys, {KeyOf("ip", who.ip), KeyOf("username", who.username)});
    assert |states| == |states.Keys|;
    NoEviction(states, limits.maxKeys);
    KeyAfterFailure(BurstTrace(limits, who, limits.maxAttempts).log,
                    Attempt(who.ip, who.username, limits.lockTime, false, limits.lockTime, states), states,
                    limits.maxKeys, KeyOf("ip", who.ip));
  }

  ghost predicate NeverExceeds(limits: Limits)
    requires limits.Valid()
  {
    forall at: int, attempts: seq<Attempt>, trace: seq<Trace>, key: Key, i: nat, j: nat ::
      (&& IsRun(limits, at, attempts, trace) && AllAdmitted(attempts)
       && WithinWindow(limits, LogOf(trace[|attempts|].log, key), i, j)) ==>
        j - i + 1 <= limits.maxAttempts
  }

  predicate WithinWindow(limits: Limits, log: seq<int>, i: nat, j: nat) {
    i <= j < |log| && log[j] - log[i] < limits.window
  }

  /** The limiter keeps its promise in every run exactly when its lock lasts at least a window.
      The settings check each of the two on its own and admit both cases. */
  lemma BoundHoldsExactlyWithLongLock(limits: Limits)
    requires limits.Valid() && limits.maxKeys >= 2
    ensures NeverExceeds(limits) <==> limits.lockTime >= limits.window
  {
    if limits.lockTime >= limits.window {
      forall at: int, attempts: seq<Attempt>, trace: seq<Trace>, key: Key, i: nat, j: nat |
        IsRun(limits, at, attempts, trace) && WithinWindow(limits, LogOf(trace[|attempts|].log, key), i, j)
        ensures j - i + 1 <= limits.maxAttempts
      {
        FailuresAreBounded(limits, at, attempts, trace, key, i, j);
      }
    } else {
      var who := Caller("", "a");
      var attempts, trace := ShortLockBreaksBound(limits, who);
      assert WithinWindow(limits, LogOf(trace[|attempts|].log, KeyOf("ip", who.ip)), 0, limits.maxAttempts);
    }
  }
}
