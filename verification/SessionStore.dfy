/** app/security/session.py: authenticated sessions and their bounded one-time form tokens.

    Times are microseconds. The keyed digest of a session id is an injective relabelling, so the
    store is keyed by the id itself; generated ids and tokens are fresh. */
module SessionStore {
  import opened Wrappers

  type SessionId = string
  type Token = string

  const FORM_LIFETIME: int := 1_800_000_000
  const MAXIMUM_FORM_TOKENS: int := 5

  /** One remembered form token; the list is in issue order, oldest first. */
  datatype Entry = Entry(token: Token, issuedAt: int)

  // --- The token list as a value ---

  function Unexpired(store: seq<Entry>, now: int): (live: seq<Entry>)
    ensures |live| <= |store|
  {
    if store == [] then []
    else if now - store[0].issuedAt >= FORM_LIFETIME then Unexpired(store[1..], now)
    else [store[0]] + Unexpired(store[1..], now)
  }

  /** Drops oldest entries until at most five are left. */
  function Newest(store: seq<Entry>): seq<Entry> {
    if |store| > MAXIMUM_FORM_TOKENS then store[|store| - MAXIMUM_FORM_TOKENS..] else store
  }

  function Issued(store: seq<Entry>, token: Token, now: int): seq<Entry> {
    Newest(Unexpired(store, now) + [Entry(token, now)])
  }

  predicate Has(store: seq<Entry>, token: Token) {
    exists i :: 0 <= i < |store| && store[i].token == token
  }

  function Without(store: seq<Entry>, token: Token): seq<Entry> {
    if store == [] then []
    else if store[0].token == token then store[1..]
    else [store[0]] + Without(store[1..], token)
  }

  function Consumed(store: seq<Entry>, supplied: Option<Token>, now: int): (seq<Entry>, bool) {
    if supplied.None? || supplied.value == "" then (store, false)
    else
      var live := Unexpired(store, now);
      if Has(live, supplied.value) then (Without(live, supplied.value), true) else (live, false)
  }

  predicate IsAscii(text: string) {
    forall i :: 0 <= i < |text| ==> text[i] < '\U{80}'
  }

  /** Generated tokens are ASCII. */
  predicate AllAscii(store: seq<Entry>) {
    forall i :: 0 <= i < |store| ==> IsAscii(store[i].token)
  }

  /** The constant-time comparison raises TypeError for text beyond ASCII, once there is a remembered
      token to compare with. */
  predicate ComparisonRaises(store: seq<Entry>, supplied: Option<Token>, now: int) {
    supplied.Some? && !IsAscii(supplied.value) && Unexpired(store, now) != []
  }

  datatype ComparisonError = TypeError

  lemma {:induction false} UnexpiredStaysAscii(store: seq<Entry>, now: int)
    requires AllAscii(store)
    ensures AllAscii(Unexpired(store, now))
  {
    if store != [] {
      UnexpiredStaysAscii(store[1..], now);
    }
  }

  lemma {:induction false} WithoutStaysAscii(store: seq<Entry>, token: Token)
    requires AllAscii(store)
    ensures AllAscii(Without(store, token))
  {
    if store != [] {
      WithoutStaysAscii(store[1..], token);
    }
  }

  lemma AsciiTokensDiffer(store: seq<Entry>, supplied: Token)
    requires AllAscii(store) && !IsAscii(supplied)
    ensures !Has(store, supplied)
  {
  }

  // --- Session lifetimes as a value ---

  datatype Life = Life(createdAt: int, lastSeenAt: int)

  type Lives = map<SessionId, Life>

  datatype Lifetimes = Lifetimes(idle: int, absolute: int)

  predicate Names(supplied: Option<SessionId>, id: SessionId) {
    supplied == Some(id) && id != ""
  }

  predicate IsAlive(life: Life, now: int, limits: Lifetimes) {
    now - life.lastSeenAt < limits.idle && now - life.createdAt < limits.absolute
  }

  function Created(lives: Lives, replaced: Option<SessionId>, id: SessionId, now: int): Lives {
    (lives - if replaced.Some? && replaced.value != "" then {replaced.value} else {})[id := Life(now, now)]
  }

  function Got(lives: Lives, supplied: Option<SessionId>, now: int, touch: bool, limits: Lifetimes): (Lives, bool) {
    if supplied.None? || supplied.value == "" || supplied.value !in lives then (lives, false)
    else if !IsAlive(lives[supplied.value], now, limits) then (lives - {supplied.value}, false)
    else (if touch then lives[supplied.value := lives[supplied.value].(lastSeenAt := now)] else lives, true)
  }

  function Revoked(lives: Lives, supplied: Option<SessionId>): (Lives, bool) {
    if supplied.None? || supplied.value == "" || supplied.value !in lives then (lives, false)
    else (lives - {supplied.value}, true)
  }

  // --- The objects ---

  class WebSession {
    const createdAt: int
    const csrfToken: Token
    var lastSeenAt: int
    var formTokens: seq<Entry>

    constructor (now: int, csrfToken: Token)
      ensures createdAt == lastSeenAt == now && this.csrfToken == csrfToken && formTokens == []
    {
      createdAt := now;
      lastSeenAt := now;
      this.csrfToken := csrfToken;
      formTokens := [];
    }
  }

  class SessionManager {
    const idleLifetime: int
    const absoluteLifetime: int
    var sessions: map<SessionId, WebSession>

    /** Every id has a session of its own. */
    ghost predicate Valid()
      reads this
    {
      forall a, b :: a in sessions && b in sessions && a != b ==> sessions[a] != sessions[b]
    }

    ghost function View(): Lives
      reads this, sessions.Values
    {
      map id | id in sessions :: Life(sessions[id].createdAt, sessions[id].lastSeenAt)
    }

    function Limits(): Lifetimes {
      Lifetimes(idleLifetime, absoluteLifetime)
    }

    constructor (idleLifetime: int, absoluteLifetime: int)
      ensures Valid() && View() == map[]
      ensures this.idleLifetime == idleLifetime && this.absoluteLifetime == absoluteLifetime && sessions == map[]
    {
      this.idleLifetime := idleLifetime;
      this.absoluteLifetime := absoluteLifetime;
      sessions := map[];
    }

    method Create(oldSessionId: Option<SessionId>, sessionId: SessionId, csrfToken: Token, now: int)
      returns (session: WebSession)
      requires Valid()
      modifies this`sessions
      ensures Valid() && View() == Created(old(View()), oldSessionId, sessionId, now)
      ensures fresh(session) && session.createdAt == session.lastSeenAt == now && session.csrfToken == csrfToken
              && session.formTokens == []
      ensures var removed := if oldSessionId.Some? && oldSessionId.value != "" then {oldSessionId.value} else {};
              sessions == (old(sessions) - removed)[sessionId := session]
    {
      session := new WebSession(now, csrfToken);
      if oldSessionId.Some? && oldSessionId.value != "" {
        sessions := sessions - {oldSessionId.value};
      }
      sessions := sessions[sessionId := session];
    }

    /** Returns the session exactly while both lifetimes hold; an expired one is removed for good. */
    method Get(sessionId: Option<SessionId>, now: int, touch: bool) returns (session: WebSession?)
      requires Valid()
      ensures Valid() && (View(), session != null) == Got(old(View()), sessionId, now, touch, Limits())
      modifies this`sessions, sessions.Values`lastSeenAt
      ensures var known := sessionId.Some? && sessionId.value != "" && sessionId.value in old(sessions);
              if !known then session == null && sessions == old(sessions)
              else
                var s := old(sessions)[sessionId.value];
                if now - old(s.lastSeenAt) < idleLifetime && now - s.createdAt < absoluteLifetime then
                  session == s && sessions == old(sessions)
                    && s.lastSeenAt == (if touch then now else old(s.lastSeenAt))
                else
                  session == null && sessions == old(sessions) - {sessionId.value}
      ensures forall s :: s in old(sessions).Values && s != session ==> s.lastSeenAt == old(s.lastSeenAt)
    {
      if sessionId.None? || sessionId.value == "" {
        return null;
      }
      if sessionId.value !in sessions {
        return null;
      }
      var found := sessions[sessionId.value];
      if now - found.lastSeenAt >= idleLifetime || now - found.createdAt >= absoluteLifetime {
        sessions := sessions - {sessionId.value};
        assert View() == old(View()) - {sessionId.value};
        return null;
      }
      if touch {
        found.lastSeenAt := now;
      }
      assert View() == Got(old(View()), sessionId, now, touch, Limits()).0;
      return found;
    }

    method Revoke(sessionId: Option<SessionId>) returns (existed: bool)
      requires Valid()
      modifies this`sessions
      ensures Valid() && (View(), existed) == Revoked(old(View()), sessionId)
      ensures existed <==> sessionId.Some? && sessionId.value != "" && sessionId.value in old(sessions)
      ensures sessions == if existed then old(sessions) - {sessionId.value} else old(sessions)
    {
      if sessionId.None? || sessionId.value == "" {
        return false;
      }
      existed := sessionId.value in sessions;
      if existed {
        sessions := sessions - {sessionId.value};
        assert View() == old(View()) - {sessionId.value};
      }
    }

    method PurgeExpiredFormTokens(session: WebSession, now: int)
      modifies session`formTokens
      ensures session.formTokens == Unexpired(old(session.formTokens), now)
    {
      var rest := session.formTokens;
      var live: seq<Entry> := [];
      while rest != []
        invariant live + Unexpired(rest, now) == Unexpired(session.formTokens, now)
        decreases |rest|
      {
        if now - rest[0].issuedAt < FORM_LIFETIME {
          assert live + ([rest[0]] + Unexpired(rest[1..], now)) == (live + [rest[0]]) + Unexpired(rest[1..], now);
          live := live + [rest[0]];
        }
        rest := rest[1..];
      }
      assert live + [] == live;
      session.formTokens := live;
    }

    method IssueFormToken(session: WebSession, token: Token, now: int)
      requires AllAscii(session.formTokens) && IsAscii(token)
      modifies session`formTokens
      ensures session.formTokens == Issued(old(session.formTokens), token, now)
      ensures AllAscii(session.formTokens)
    {
      UnexpiredStaysAscii(session.formTokens, now);
      PurgeExpiredFormTokens(session, now);
      session.formTokens := session.formTokens + [Entry(token, now)];
      while |session.formTokens| > MAXIMUM_FORM_TOKENS
        invariant Newest(session.formTokens) == Issued(old(session.formTokens), token, now)
        invariant AllAscii(session.formTokens)
        decreases |session.formTokens|
      {
        session.formTokens := session.formTokens[1..];
      }
    }

    /** Whether it succeeds, fails or raises, the expired tokens are gone. */
    method ConsumeFormToken(session: WebSession, supplied: Option<Token>, now: int)
      returns (result: Result<bool, ComparisonError>)
      requires AllAscii(session.formTokens)
      modifies session`formTokens
      ensures (session.formTokens, result == Success(true)) == Consumed(old(session.formTokens), supplied, now)
      ensures result.Failure? <==> ComparisonRaises(old(session.formTokens), supplied, now)
      ensures AllAscii(session.formTokens)
    {
      if supplied.None? || supplied.value == "" {
        return Success(false);
      }
      UnexpiredStaysAscii(session.formTokens, now);
      PurgeExpiredFormTokens(session, now);
      var live := session.formTokens;
      WithoutStaysAscii(live, supplied.value);
      var i := 0;
      while i < |live|
        invariant 0 <= i <= |live| && session.formTokens == live
        invariant i > 0 ==> IsAscii(supplied.value)
        invariant forall k :: 0 <= k < i ==> live[k].token != supplied.value
        invariant live[..i] + Without(live[i..], supplied.value) == Without(live, supplied.value)
      {
        if !IsAscii(supplied.value) {
          AsciiTokensDiffer(live, supplied.value);
          return Failure(TypeError);
        }
        if live[i].token == supplied.value {
          session.formTokens := live[..i] + live[i + 1..];
          assert live[i..][1..] == live[i + 1..];
          return Success(true);
        }
        assert live[i..] == [live[i]] + live[i + 1..];
        assert live[..i] + ([live[i]] + Without(live[i + 1..], supplied.value))
               == live[..i + 1] + Without(live[i + 1..], supplied.value);
        i := i + 1;
      }
      return Success(false);
    }
  }

  // --- Whole runs ---

  /** Where a token came from: its session, its issue time and its number among that session's tokens. */
  datatype Origin = Origin(session: SessionId, at: int, serial: nat)

  datatype Use = Use(token: Token, session: SessionId, at: int)

  /** All stores with their history: every token ever issued and every successful use, in order. */
  datatype Trace = Trace(
    stores: map<SessionId, seq<Entry>>,
    issued: map<Token, Origin>,
    counts: map<SessionId, nat>,
    uses: seq<Use>,
    clock: int)

  datatype Action =
    | Issue(session: SessionId, token: Token, at: int)
    | Submit(session: SessionId, supplied: Option<Token>, at: int)

  function StoreOf(tr: Trace, session: SessionId): seq<Entry> {
    if session in tr.stores then tr.stores[session] else []
  }

  function CountOf(tr: Trace, session: SessionId): nat {
    if session in tr.counts then tr.counts[session] else 0
  }

  predicate Enabled(tr: Trace, a: Action) {
    a.at >= tr.clock && (a.Issue? ==> a.token !in tr.issued)
  }

  function Step(tr: Trace, a: Action): Trace {
    match a
    case Issue(session, token, at) =>
      Trace(tr.stores[session := Issued(StoreOf(tr, session), token, at)],
            tr.issued[token := Origin(session, at, CountOf(tr, session))],
            tr.counts[session := CountOf(tr, session) + 1],
            tr.uses,
            at)
    case Submit(session, supplied, at) =>
      var (store, ok) := Consumed(StoreOf(tr, session), supplied, at);
      tr.(stores := tr.stores[session := store],
          uses := if ok then tr.uses + [Use(supplied.value, session, at)] else tr.uses,
          clock := at)
  }

  ghost predicate IsRun(at: int, actions: seq<Action>, trace: seq<Trace>) {
    && |trace| == |actions| + 1
    && trace[0] == Trace(map[], map[], map[], [], at)
    && forall n :: 0 <= n < |actions| ==> Follows(trace[n], actions[n], trace[n + 1])
  }

  ghost predicate Follows(tr: Trace, a: Action, next: Trace) {
    Enabled(tr, a) && next == Step(tr, a)
  }

  predicate WasUsed(uses: seq<Use>, token: Token) {
    exists i :: 0 <= i < |uses| && uses[i].token == token
  }

  predicate EntryOk(tr: Trace, session: SessionId, e: Entry) {
    && e.token in tr.issued
    && tr.issued[e.token].session == session
    && tr.issued[e.token].at == e.issuedAt
    && tr.issued[e.token].serial < CountOf(tr, session)
    && !WasUsed(tr.uses, e.token)
  }

  predicate Earlier(issued: map<Token, Origin>, a: Entry, b: Entry) {
    && a.token in issued && b.token in issued
    && issued[a.token].serial < issued[b.token].serial
    && a.issuedAt <= b.issuedAt
  }

  predicate Ordered(issued: map<Token, Origin>, store: seq<Entry>) {
    store == [] || ((forall e :: e in store[1..] ==> Earlier(issued, store[0], e)) && Ordered(issued, store[1..]))
  }

  /** At most five entries, all this session's own unused tokens, strictly in issue order. */
  predicate StoreOk(tr: Trace, session: SessionId, store: seq<Entry>) {
    && |store| <= 5
    && (forall e :: e in store ==> EntryOk(tr, session, e))
    && Ordered(tr.issued, store)
  }

  predicate UseOk(tr: Trace, use: Use) {
    && use.token in tr.issued
    && tr.issued[use.token].session == use.session
    && tr.issued[use.token].at <= use.at < tr.issued[use.token].at + 1_800_000_000
  }

  /** A token among its session's five newest, unused and unexpired, is still remembered. */
  ghost predicate Remembers(tr: Trace, token: Token)
    requires token in tr.issued
  {
    var o := tr.issued[token];
    o.serial + 5 >= CountOf(tr, o.session) && !WasUsed(tr.uses, token)
      && tr.clock - o.at < 1_800_000_000 ==>
      Has(StoreOf(tr, o.session), token)
  }

  ghost predicate Inv(tr: Trace) {
    && (forall session :: session in tr.stores ==> StoreOk(tr, session, tr.stores[session]))
    && (forall token :: token in tr.issued ==>
       tr.issued[token].at <= tr.clock && tr.issued[token].serial < CountOf(tr, tr.issued[token].session))
    && (forall i :: 0 <= i < |tr.uses| ==> UseOk(tr, tr.uses[i]))
    && (forall i, j :: 0 <= i < j < |tr.uses| ==> tr.uses[i].token != tr.uses[j].token)
    && (forall token :: token in tr.issued ==> Remembers(tr, token))
  }

  // --- Lists ---

  lemma {:induction false} UnexpiredKeeps(store: seq<Entry>, now: int)
    ensures forall e :: e in Unexpired(store, now) <==> e in store && now - e.issuedAt < FORM_LIFETIME
  {
    if store != [] {
      UnexpiredKeeps(store[1..], now);
      assert store == [store[0]] + store[1..];
    }
  }

  lemma {:induction false} UnexpiredIsOrdered(issued: map<Token, Origin>, store: seq<Entry>, now: int)
    requires Ordered(issued, store)
    ensures Ordered(issued, Unexpired(store, now))
  {
    if store != [] {
      UnexpiredIsOrdered(issued, store[1..], now);
      UnexpiredKeeps(store[1..], now);
      assert ([store[0]] + Unexpired(store[1..], now))[1..] == Unexpired(store[1..], now);
    }
  }

  lemma {:induction false} WithoutKeeps(store: seq<Entry>, token: Token)
    ensures forall e :: e in store && e.token != token ==> e in Without(store, token)
    ensures forall e :: e in Without(store, token) ==> e in store
    ensures |Without(store, token)| <= |store|
  {
    if store != [] {
      WithoutKeeps(store[1..], token);
      assert store == [store[0]] + store[1..];
    }
  }

  lemma {:induction false} WithoutIsOrdered(issued: map<Token, Origin>, store: seq<Entry>, token: Token)
    requires Ordered(issued, store)
    ensures Ordered(issued, Without(store, token))
    ensures forall e :: e in Without(store, token) ==> e.token != token
  {
    if store != [] {
      WithoutIsOrdered(issued, store[1..], token);
      WithoutKeeps(store[1..], token);
      assert ([store[0]] + Without(store[1..], token))[1..] == Without(store[1..], token);
    }
  }

  lemma {:induction false} AppendIsOrdered(issued: map<Token, Origin>, store: seq<Entry>, last: Entry)
    requires Ordered(issued, store)
    requires forall e :: e in store ==> Earlier(issued, e, last)
    ensures Ordered(issued, store + [last])
  {
    if store != [] {
      AppendIsOrdered(issued, store[1..], last);
      assert (store + [last])[1..] == store[1..] + [last];
    }
  }

  lemma {:induction false} OrderedAfter(before: map<Token, Origin>, after: map<Token, Origin>, store: seq<Entry>)
    requires Ordered(before, store)
    requires forall e :: e in store && e.token in before ==> e.token in after && after[e.token] == before[e.token]
    ensures Ordered(after, store)
  {
    if store != [] {
      OrderedAfter(before, after, store[1..]);
      assert store[0] in store;
      assert forall e :: e in store[1..] ==> e in store;
    }
  }

  /** Strict order spreads the serial numbers at least as far as the list is long. */
  lemma {:induction false} SerialsSpread(issued: map<Token, Origin>, store: seq<Entry>)
    requires |store| > 0 && Ordered(issued, store)
    requires forall e :: e in store ==> e.token in issued
    ensures issued[store[0].token].serial + |store| - 1 <= issued[store[|store| - 1].token].serial
  {
    if |store| > 1 {
      assert store[1] in store[1..];
      assert forall e :: e in store[1..] ==> e in store;
      SerialsSpread(issued, store[1..]);
    }
  }

  lemma HasMember(store: seq<Entry>, token: Token)
    ensures Has(store, token) <==> exists e :: e in store && e.token == token
  {
  }

  // --- Every step keeps the invariant ---

  lemma PurgedStoreOk(tr: Trace, session: SessionId, store: seq<Entry>, now: int)
    requires StoreOk(tr, session, store)
    ensures StoreOk(tr, session, Unexpired(store, now))
  {
    UnexpiredKeeps(store, now);
    UnexpiredIsOrdered(tr.issued, store, now);
  }

  lemma StoreOfOk(tr: Trace, session: SessionId)
    requires Inv(tr)
    ensures StoreOk(tr, session, StoreOf(tr, session))
  {
  }

  /** The list before the cap is applied: still in order, one entry longer at most. */
  lemma IssuedStore(tr: Trace, a: Action)
    requires Inv(tr) && Enabled(tr, a) && a.Issue?
    ensures var next := Step(tr, a);
            var grown := Unexpired(StoreOf(tr, a.session), a.at) + [Entry(a.token, a.at)];
            && |grown| <= MAXIMUM_FORM_TOKENS + 1
            && Ordered(next.issued, grown)
            && (forall e :: e in grown ==> EntryOk(next, a.session, e))
  {
    var next := Step(tr, a);
    var store := StoreOf(tr, a.session);
    var live := Unexpired(store, a.at);
    StoreOfOk(tr, a.session);
    PurgedStoreOk(tr, a.session, store, a.at);
    OrderedAfter(tr.issued, next.issued, live);
    forall e | e in live
      ensures EntryOk(next, a.session, e) && Earlier(next.issued, e, Entry(a.token, a.at))
    {
      assert EntryOk(tr, a.session, e);
    }
    AppendIsOrdered(next.issued, live, Entry(a.token, a.at));
    UnusedWhenNew(tr, a.token);
  }

  lemma UnusedWhenNew(tr: Trace, token: Token)
    requires Inv(tr) && token !in tr.issued
    ensures !WasUsed(tr.uses, token)
  {
    forall i | 0 <= i < |tr.uses|
      ensures tr.uses[i].token != token
    {
      assert UseOk(tr, tr.uses[i]);
    }
  }

  lemma NewestStoreOk(tr: Trace, session: SessionId, grown: seq<Entry>)
    requires |grown| <= MAXIMUM_FORM_TOKENS + 1 && Ordered(tr.issued, grown)
    requires forall e :: e in grown ==> EntryOk(tr, session, e)
    ensures StoreOk(tr, session, Newest(grown))
    ensures forall e ::
              (&& e in grown && e.token in tr.issued
               && tr.issued[e.token].serial + MAXIMUM_FORM_TOKENS >= CountOf(tr, session)) ==>
                e in Newest(grown)
  {
    if |grown| > MAXIMUM_FORM_TOKENS {
      assert Newest(grown) == grown[1..];
      assert forall e :: e in grown[1..] ==> e in grown;
      SerialsSpread(tr.issued, grown);
      assert grown[|grown| - 1] in grown;
      assert grown == [grown[0]] + grown[1..];
    }
  }

  lemma IssueKeepsStores(tr: Trace, a: Action, session: SessionId)
    requires Inv(tr) && Enabled(tr, a) && a.Issue?
    ensures StoreOk(Step(tr, a), session, StoreOf(Step(tr, a), session))
  {
    var next := Step(tr, a);
    if session == a.session {
      IssuedStore(tr, a);
      NewestStoreOk(next, session, Unexpired(StoreOf(tr, session), a.at) + [Entry(a.token, a.at)]);
    } else {
      var store := StoreOf(tr, session);
      StoreOfOk(tr, session);
      OrderedAfter(tr.issued, next.issued, store);
      forall e | e in store
        ensures EntryOk(next, session, e)
      {
        assert EntryOk(tr, session, e);
      }
    }
  }

  lemma IssueRemembers(tr: Trace, a: Action, token: Token)
    requires Inv(tr) && Enabled(tr, a) && a.Issue? && token in Step(tr, a).issued
    ensures Remembers(Step(tr, a), token)
  {
    var next := Step(tr, a);
    var o := next.issued[token];
    var before := StoreOf(tr, a.session);
    var grown := Unexpired(before, a.at) + [Entry(a.token, a.at)];
    if o.session == a.session {
      IssuedStore(tr, a);
      NewestStoreOk(next, a.session, grown);
      UnexpiredKeeps(before, a.at);
      if token != a.token {
        assert Remembers(tr, token);
        if Has(before, token) && a.at - o.at < FORM_LIFETIME {
          RememberedSurvives(tr, a.session, before, token, a.at);
          assert Entry(token, o.at) in grown;
        }
      } else {
        assert grown[|grown| - 1] == Entry(token, o.at);
      }
      HasMember(StoreOf(next, a.session), token);
    } else {
      assert Remembers(tr, token);
    }
  }

  lemma RememberedSurvives(tr: Trace, session: SessionId, store: seq<Entry>, token: Token, now: int)
    requires StoreOk(tr, session, store) && Has(store, token)
    ensures token in tr.issued
    ensures now - tr.issued[token].at < FORM_LIFETIME ==> Entry(token, tr.issued[token].at) in Unexpired(store, now)
  {
    HasMember(store, token);
    var e :| e in store && e.token == token;
    assert EntryOk(tr, session, e);
    UnexpiredKeeps(store, now);
  }

  lemma IssueKeepsInv(tr: Trace, a: Action)
    requires Inv(tr) && Enabled(tr, a) && a.Issue?
    ensures Inv(Step(tr, a))
  {
    var next := Step(tr, a);
    forall session | session in next.stores
      ensures StoreOk(next, session, next.stores[session])
    {
      IssueKeepsStores(tr, a, session);
    }
    forall token | token in next.issued
      ensures Remembers(next, token)
    {
      IssueRemembers(tr, a, token);
    }
    forall i | 0 <= i < |next.uses|
      ensures UseOk(next, next.uses[i])
    {
      assert UseOk(tr, tr.uses[i]);
    }
  }

  /** What a successful submission takes out was a live entry of its own session. */
  lemma SubmittedEntry(tr: Trace, a: Action)
    requires Inv(tr) && Enabled(tr, a) && a.Submit?
    ensures Consumed(StoreOf(tr, a.session), a.supplied, a.at).1 ==>
              UseOk(tr, Use(a.supplied.value, a.session, a.at)) && !WasUsed(tr.uses, a.supplied.value)
  {
    var store := StoreOf(tr, a.session);
    StoreOfOk(tr, a.session);
    if Consumed(store, a.supplied, a.at).1 {
      UnexpiredKeeps(store, a.at);
      HasMember(Unexpired(store, a.at), a.supplied.value);
      var e :| e in Unexpired(store, a.at) && e.token == a.supplied.value;
      assert EntryOk(tr, a.session, e);
    }
  }

  lemma UsedAfter(uses: seq<Use>, use: Use, token: Token)
    ensures WasUsed(uses + [use], token) <==> WasUsed(uses, token) || use.token == token
  {
    assert (uses + [use])[|uses|] == use;
    if WasUsed(uses, token) {
      var i :| 0 <= i < |uses| && uses[i].token == token;
      assert (uses + [use])[i].token == token;
    }
  }

  lemma SubmitKeepsStores(tr: Trace, a: Action, session: SessionId)
    requires Inv(tr) && Enabled(tr, a) && a.Submit?
    ensures StoreOk(Step(tr, a), session, StoreOf(Step(tr, a), session))
  {
    var next := Step(tr, a);
    var before := StoreOf(tr, session);
    var after := StoreOf(next, session);
    StoreOfOk(tr, session);
    SubmittedEntry(tr, a);
    PurgedStoreOk(tr, session, before, a.at);
    UnexpiredKeeps(before, a.at);
    var ok := Consumed(StoreOf(tr, a.session), a.supplied, a.at).1;
    if session == a.session && ok {
      WithoutKeeps(Unexpired(before, a.at), a.supplied.value);
      WithoutIsOrdered(tr.issued, Unexpired(before, a.at), a.supplied.value);
    }
    forall e | e in after
      ensures EntryOk(next, session, e)
    {
      assert EntryOk(tr, session, e);
      if ok {
        assert session != a.session ==> tr.issued[a.supplied.value].session == a.session;
        UsedAfter(tr.uses, Use(a.supplied.value, a.session, a.at), e.token);
      }
    }
  }

  lemma SubmitRemembers(tr: Trace, a: Action, token: Token)
    requires Inv(tr) && Enabled(tr, a) && a.Submit? && token in tr.issued
    ensures Remembers(Step(tr, a), token)
  {
    var next := Step(tr, a);
    var o := tr.issued[token];
    var before := StoreOf(tr, a.session);
    var ok := Consumed(before, a.supplied, a.at).1;
    assert Remembers(tr, token);
    if ok {
      UsedAfter(tr.uses, Use(a.supplied.value, a.session, a.at), token);
    }
    if o.session == a.session && Has(before, token) && a.at - o.at < FORM_LIFETIME && !WasUsed(next.uses, token) {
      StoreOfOk(tr, a.session);
      RememberedSurvives(tr, a.session, before, token, a.at);
      if ok {
        WithoutKeeps(Unexpired(before, a.at), a.supplied.value);
      }
      HasMember(StoreOf(next, a.session), token);
    }
  }

  lemma SubmitKeepsInv(tr: Trace, a: Action)
    requires Inv(tr) && Enabled(tr, a) && a.Submit?
    ensures Inv(Step(tr, a))
  {
    var next := Step(tr, a);
    SubmittedEntry(tr, a);
    forall session | session in next.stores
      ensures StoreOk(next, session, next.stores[session])
    {
      SubmitKeepsStores(tr, a, session);
    }
    forall token | token in next.issued
      ensures Remembers(next, token)
    {
      SubmitRemembers(tr, a, token);
    }
    forall i | 0 <= i < |next.uses|
      ensures UseOk(next, next.uses[i])
    {
      assert i < |tr.uses| ==> UseOk(tr, tr.uses[i]);
    }
  }

  lemma {:induction false} InvHolds(at: int, actions: seq<Action>, trace: seq<Trace>, n: nat)
    requires IsRun(at, actions, trace) && n <= |actions|
    ensures Inv(trace[n])
  {
    if n > 0 {
      InvHolds(at, actions, trace, n - 1);
      assert Follows(trace[n - 1], actions[n - 1], trace[n - 1 + 1]);
      if actions[n - 1].Issue? {
        IssueKeepsInv(trace[n - 1], actions[n - 1]);
      } else {
        SubmitKeepsInv(trace[n - 1], actions[n - 1]);
      }
    }
  }

  // --- Main results ---

  /** In every run each token is consumed successfully at most once, only by the session it was
      issued to and within 30 minutes; so the handler behind it runs at most once per token. */
  lemma TokensAreOneTime(at: int, actions: seq<Action>, trace: seq<Trace>)
    requires IsRun(at, actions, trace)
    ensures var tr := trace[|actions|];
            && (forall i, j :: 0 <= i < j < |tr.uses| ==> tr.uses[i].token != tr.uses[j].token)
            && (forall i :: 0 <= i < |tr.uses| ==> UseOk(tr, tr.uses[i]))
  {
    InvHolds(at, actions, trace, |actions|);
  }

  /** Every store holds at most five tokens, its own, unused, in issue order. */
  lemma StoresStayBoundedAndOrdered(at: int, actions: seq<Action>, trace: seq<Trace>, session: SessionId)
    requires IsRun(at, actions, trace)
    ensures StoreOk(trace[|actions|], session, StoreOf(trace[|actions|], session))
  {
    InvHolds(at, actions, trace, |actions|);
    StoreOfOk(trace[|actions|], session);
  }

  /** Nothing live is lost early: a token that was never used is accepted from its session at any
      time within 30 minutes, as long as fewer than five newer ones were issued to that session. */
  lemma NewestFiveAreAccepted(at: int, actions: seq<Action>, trace: seq<Trace>, token: Token, now: int)
    requires IsRun(at, actions, trace)
    requires var tr := trace[|actions|];
             && token in tr.issued && token != ""
             && !WasUsed(tr.uses, token)
             && tr.clock <= now < tr.issued[token].at + 1_800_000_000
             && CountOf(tr, tr.issued[token].session) - tr.issued[token].serial <= 5
    ensures var tr := trace[|actions|];
            Consumed(StoreOf(tr, tr.issued[token].session), Some(token), now).1
  {
    InvHolds(at, actions, trace, |actions|);
    var tr := trace[|actions|];
    var store := StoreOf(tr, tr.issued[token].session);
    assert Remembers(tr, token);
    StoreOfOk(tr, tr.issued[token].session);
    RememberedSurvives(tr, tr.issued[token].session, store, token, now);
    HasMember(Unexpired(store, now), token);
  }

  // --- Runs of the session table ---

  datatype SessionAction =
    | CreateSession(replaced: Option<SessionId>, id: SessionId, at: int)
    | GetSession(supplied: Option<SessionId>, at: int, touch: bool)
    | RevokeSession(supplied: Option<SessionId>)

  function SessionStep(lives: Lives, a: SessionAction, limits: Lifetimes): Lives {
    match a
    case CreateSession(replaced, id, at) => Created(lives, replaced, id, at)
    case GetSession(supplied, at, touch) => Got(lives, supplied, at, touch, limits).0
    case RevokeSession(supplied) => Revoked(lives, supplied).0
  }

  ghost predicate IsSessionRun(limits: Lifetimes, actions: seq<SessionAction>, states: seq<Lives>) {
    && |states| == |actions| + 1 && states[0] == map[]
    && forall n :: 0 <= n < |actions| ==> SessionFollows(states[n], actions[n], states[n + 1], limits)
  }

  ghost predicate SessionFollows(lives: Lives, a: SessionAction, next: Lives, limits: Lifetimes) {
    next == SessionStep(lives, a, limits)
  }

  predicate Creates(a: SessionAction, id: SessionId) {
    a.CreateSession? && a.id == id
  }

  /** The id is revoked, found expired, or replaced at login. */
  predicate Ends(lives: Lives, a: SessionAction, id: SessionId, limits: Lifetimes) {
    match a
    case CreateSession(replaced, created, _) => Names(replaced, id) && created != id
    case GetSession(supplied, at, _) => Names(supplied, id) && id in lives && !IsAlive(lives[id], at, limits)
    case RevokeSession(supplied) => Names(supplied, id)
  }

  /** A call returns the session of an id. */
  predicate Returns(lives: Lives, a: SessionAction, id: SessionId, limits: Lifetimes) {
    a.GetSession? && Names(a.supplied, id) && Got(lives, a.supplied, a.at, a.touch, limits).1
  }

  lemma {:induction false} EndedIsGone(lives: Lives, a: SessionAction, id: SessionId, limits: Lifetimes)
    requires Ends(lives, a, id, limits)
    ensures id !in SessionStep(lives, a, limits)
  {
  }

  /** Once a session is revoked, found expired or replaced, its id is never returned again unless
      it is created again. */
  lemma {:induction false} EndedSessionsStayEnded(
    limits: Lifetimes, actions: seq<SessionAction>, states: seq<Lives>, id: SessionId, i: nat, j: nat)
    requires IsSessionRun(limits, actions, states) && i < j < |actions|
    requires Ends(states[i], actions[i], id, limits) && forall k :: i < k < j ==> !Creates(actions[k], id)
    ensures id !in states[j] && !Returns(states[j], actions[j], id, limits)
    decreases j
  {
    if i + 1 == j {
      assert SessionFollows(states[i], actions[i], states[i + 1], limits);
      EndedIsGone(states[i], actions[i], id, limits);
    } else {
      EndedSessionsStayEnded(limits, actions, states, id, i, j - 1);
      assert SessionFollows(states[j - 1], actions[j - 1], states[j - 1 + 1], limits);
    }
  }

  /** Step `i` created the session stored under the id before step `n`, nothing has replaced or
      ended it since, and step `seen` was the last to touch it. */
  ghost predicate IsOrigin(
    limits: Lifetimes, actions: seq<SessionAction>, states: seq<Lives>, id: SessionId, i: nat, seen: nat, n: nat)
    requires |states| == |actions| + 1 && n <= |actions|
  {
    && i <= seen < n && Creates(actions[i], id)
    && (forall k :: i < k < n ==> !Creates(actions[k], id) && !Ends(states[k], actions[k], id, limits))
    && (seen == i || Touches(states[seen], actions[seen], id, limits))
    && (forall k :: seen < k < n ==> !Touches(states[k], actions[k], id, limits))
  }

  predicate Touches(lives: Lives, a: SessionAction, id: SessionId, limits: Lifetimes) {
    Returns(lives, a, id, limits) && a.touch
  }

  function TimeOf(a: SessionAction): int {
    if a.RevokeSession? then 0 else a.at
  }

  lemma {:induction false} SessionsAreCreated(
    limits: Lifetimes, actions: seq<SessionAction>, states: seq<Lives>, id: SessionId, n: nat) returns (i: nat,
    seen: nat)
    requires IsSessionRun(limits, actions, states) && n <= |actions| && id in states[n]
    ensures IsOrigin(limits, actions, states, id, i, seen, n)
    ensures states[n][id] == Life(TimeOf(actions[i]), TimeOf(actions[seen]))
  {
    var last := n - 1;
    assert SessionFollows(states[last], actions[last], states[last + 1], limits);
    if Creates(actions[last], id) {
      i, seen := last, last;
    } else {
      i, seen := SessionsAreCreated(limits, actions, states, id, last);
      if Ends(states[last], actions[last], id, limits) {
        EndedIsGone(states[last], actions[last], id, limits);
      }
      if Touches(states[last], actions[last], id, limits) {
        seen := last;
      }
    }
  }

  /** Whatever session a call returns was created by an earlier call less than the absolute
      lifetime ago, was last touched less than the idle lifetime ago, and has not been replaced,
      revoked or found expired since its creation. */
  lemma {:induction false} ReturnedSessionsAreAlive(
    limits: Lifetimes, actions: seq<SessionAction>, states: seq<Lives>, id: SessionId, n: nat) returns (i: nat,
    seen: nat)
    requires IsSessionRun(limits, actions, states) && n < |actions| && Returns(states[n], actions[n], id, limits)
    ensures IsOrigin(limits, actions, states, id, i, seen, n)
    ensures TimeOf(actions[n]) - TimeOf(actions[i]) < limits.absolute
    ensures TimeOf(actions[n]) - TimeOf(actions[seen]) < limits.idle
  {
    i, seen := SessionsAreCreated(limits, actions, states, id, n);
  }

  /** Conversely a session that was created, not ended since and within both lifetimes is returned. */
  lemma {:induction false} LiveSessionsAreReturned(
    limits: Lifetimes, actions: seq<SessionAction>, states: seq<Lives>, id: SessionId, i: nat, seen: nat, n: nat)
    requires IsSessionRun(limits, actions, states) && n < |actions| && id != ""
    requires IsOrigin(limits, actions, states, id, i, seen, n)
    requires actions[n].GetSession? && actions[n].supplied == Some(id)
    requires actions[n].at - TimeOf(actions[i]) < limits.absolute && actions[n].at - TimeOf(actions[seen]) < limits.idle
    ensures Returns(states[n], actions[n], id, limits)
  {
    OriginIsStored(limits, actions, states, id, i, seen, n);
  }

  lemma {:induction false} OriginIsStored(
    limits: Lifetimes, actions: seq<SessionAction>, states: seq<Lives>, id: SessionId, i: nat, seen: nat, n: nat)
    requires IsSessionRun(limits, actions, states) && n <= |actions| && id != ""
    requires IsOrigin(limits, actions, states, id, i, seen, n)
    ensures id in states[n] && states[n][id] == Life(TimeOf(actions[i]), TimeOf(actions[seen]))
    decreases n
  {
    var last := n - 1;
    assert SessionFollows(states[last], actions[last], states[last + 1], limits);
    if i < last {
      if seen < last {
        OriginIsStored(limits, actions, states, id, i, seen, last);
      } else {
        var before := EarlierTouch(limits, actions, states, id, i, last);
        OriginIsStored(limits, actions, states, id, i, before, last);
      }
    }
  }

  lemma {:induction false} EarlierTouch(
    limits: Lifetimes, actions: seq<SessionAction>, states: seq<Lives>, id: SessionId, i: nat,
    n: nat) returns (seen: nat)
    requires |states| == |actions| + 1 && i < n <= |actions|
    ensures i <= seen < n && (seen == i || Touches(states[seen], actions[seen], id, limits))
    ensures forall k :: seen < k < n ==> !Touches(states[k], actions[k], id, limits)
    decreases n
  {
    seen := n - 1;
    if seen > i && !Touches(states[seen], actions[seen], id, limits) {
      seen := EarlierTouch(limits, actions, states, id, i, n - 1);
    }
  }
}
