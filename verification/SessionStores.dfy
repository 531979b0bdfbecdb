/**
  The two session stores: one keeps sessions in memory and drops expired ones lazily,
  the other leaves expiry to the TTL of Redis keys.  Times are in seconds.
 */
module SessionStores {
  import opened Wrappers

  type Tokens = map<string, string>

  datatype Session = Session(tokens: Tokens, userInfo: string, createdAt: int, expiresAt: int, timeoutSeconds: int)

  type Memory = map<string, Session>

  /** A Redis key with the instant at which its TTL runs out. */
  datatype Entry = Entry(session: Session, deadline: int)

  type Redis = map<string, Entry>

  datatype Op =
    | Create(id: string, tokens: Tokens, userInfo: string, timeout: Option<int>)
    | Get(id: string)
    | Delete(id: string)
    | Refresh(id: string, tokens: Tokens, timeout: Option<int>)
    | Cleanup

  datatype Timed = Timed(op: Op, at: int)

  function Truthy(timeout: Option<int>, default: int): int {
    if timeout.Some? && timeout.value != 0 then timeout.value else default
  }

  function Refreshed(s: Session, tokens: Tokens, timeout: Option<int>, now: int): Session {
    var t := GetOr(timeout, s.timeoutSeconds);
    s.(tokens := s.tokens + tokens, timeoutSeconds := t, expiresAt := now + t)
  }

  /**
    What a refresh makes of a session: new tokens win over old ones, none is lost, the
    timeout is the given one or stays, and the session lives that long from now.
   */
  ghost predicate RenewedBy(s: Session, s': Session, tokens: Tokens, timeout: Option<int>, now: int) {
    && (forall k :: k in tokens ==> k in s'.tokens && s'.tokens[k] == tokens[k])
    && (forall k :: k in s.tokens && k !in tokens ==> k in s'.tokens && s'.tokens[k] == s.tokens[k])
    && (forall k :: k in s'.tokens ==> k in tokens || k in s.tokens)
    && s'.userInfo == s.userInfo && s'.createdAt == s.createdAt
    && s'.timeoutSeconds == (if timeout.Some? then timeout.value else s.timeoutSeconds)
    && s'.expiresAt == now + s'.timeoutSeconds
  }

  /** Two maps that differ at most at one id. */
  ghost predicate SameBut<T>(m: map<string, T>, m': map<string, T>, id: string) {
    forall other :: other != id ==>
      (other in m <==> other in m') && (other in m ==> m'[other] == m[other])
  }

  // ---------------------------------------------------------------- in memory

  function MemoryGet(m: Memory, id: string, now: int): Option<Session> {
    if id in m && m[id].expiresAt >= now then Some(m[id]) else None
  }

  function MemoryStep(m: Memory, default: int, o: Op, now: int): Memory {
    match o
    case Create(id, tokens, user, timeout) =>
      m[id := Session(tokens, user, now, now + GetOr(timeout, default), Truthy(timeout, default))]
    case Get(id) => if MemoryGet(m, id, now).Some? then m else m - {id}
    case Delete(id) => m - {id}
    case Refresh(id, tokens, timeout) => if id in m then m[id := Refreshed(m[id], tokens, timeout, now)] else m
    case Cleanup => map id | id in m && m[id].expiresAt >= now :: m[id]
  }

  class InMemorySessionStore {
    var sessions: Memory
    const defaultTimeout: int

    constructor (defaultTimeout: int)
      ensures sessions == map[] && this.defaultTimeout == defaultTimeout
    {
      sessions := map[];
      this.defaultTimeout := defaultTimeout;
    }

    method CreateSession(id: string, tokens: Tokens, userInfo: string, timeout: Option<int>, now: int)
      modifies this
      ensures sessions == MemoryStep(old(sessions), defaultTimeout, Create(id, tokens, userInfo, timeout), now)
      ensures id in sessions && SameBut(old(sessions), sessions, id)
      ensures sessions[id].tokens == tokens && sessions[id].userInfo == userInfo && sessions[id].createdAt == now
      ensures sessions[id].expiresAt == now + if timeout.Some? then timeout.value else defaultTimeout
      ensures sessions[id].timeoutSeconds
              == if timeout == None || timeout == Some(0) then defaultTimeout else timeout.value
    {
      var lifetime := if timeout.Some? then timeout.value else defaultTimeout;
      var kept := if timeout.Some? && timeout.value != 0 then timeout.value else defaultTimeout;
      sessions := sessions[id := Session(tokens, userInfo, now, now + lifetime, kept)];
    }

    method GetSession(id: string, now: int) returns (session: Option<Session>)
      modifies this
      ensures session == MemoryGet(old(sessions), id, now)
      ensures session.Some? <==> id in old(sessions) && old(sessions)[id].expiresAt >= now
      ensures session.Some? ==> session.value == old(sessions)[id] && id in sessions
      ensures session.None? ==> id !in sessions
      ensures sessions == MemoryStep(old(sessions), defaultTimeout, Get(id), now)
    {
      if id !in sessions {
        assert sessions == sessions - {id};
        return None;
      }
      session := Some(sessions[id]);
      if sessions[id].expiresAt < now {
        DeleteSession(id);
        return None;
      }
    }

    method DeleteSession(id: string)
      modifies this
      ensures sessions == old(sessions) - {id}
    {
      sessions := sessions - {id};
    }

    method RefreshSession(id: string, tokens: Tokens, timeout: Option<int>, now: int)
      modifies this
      ensures sessions == MemoryStep(old(sessions), defaultTimeout, Refresh(id, tokens, timeout), now)
      ensures SameBut(old(sessions), sessions, id) && (id in sessions <==> id in old(sessions))
      ensures id in sessions ==> RenewedBy(old(sessions)[id], sessions[id], tokens, timeout, now)
    {
      if id in sessions {
        var s := sessions[id];
        s := s.(tokens := s.tokens + tokens);
        if timeout.Some? {
          s := s.(timeoutSeconds := timeout.value);
        }
        sessions := sessions[id := s.(expiresAt := now + s.timeoutSeconds)];
      }
    }

    /** Drops exactly the expired sessions and returns how many there were. */
    method CleanupExpiredSessions(now: int) returns (count: nat)
      modifies this
      ensures sessions == MemoryStep(old(sessions), defaultTimeout, Cleanup, now)
      ensures forall id :: id in sessions <==> id in old(sessions) && old(sessions)[id].expiresAt >= now
      ensures forall id :: id in sessions ==> sessions[id] == old(sessions)[id]
      ensures count == |old(sessions)| - |sessions|
    {
      var expired := set id | id in sessions && sessions[id].expiresAt < now;
      var rest := expired;
      while rest != {}
        invariant rest <= expired
        invariant forall id :: id in sessions <==> id in old(sessions) && (id in expired ==> id in rest)
        invariant forall id :: id in sessions ==> sessions[id] == old(sessions)[id]
        decreases rest
      {
        var id :| id in rest;
        DeleteSession(id);
        rest := rest - {id};
      }
      count := |expired|;
      CountRemoved(old(sessions).Keys, sessions.Keys, expired);
    }
  }

  lemma CountRemoved(all: set<string>, left: set<string>, gone: set<string>)
    requires gone <= all && left == all - gone
    ensures |gone| == |all| - |left|
  {
    assert all == left + gone;
  }

  // ---------------------------------------------------------------- Redis

  function RedisGet(r: Redis, id: string, now: int): Option<Session> {
    if id in r && now < r[id].deadline then Some(r[id].session) else None
  }

  /** SETEX: refused by Redis unless the TTL is positive. */
  function SetEx(r: Redis, id: string, ttl: int, s: Session, now: int): Redis {
    if ttl > 0 then r[id := Entry(s, now + ttl)] else r
  }

  function RedisStep(r: Redis, default: int, o: Op, now: int): Redis {
    match o
    case Create(id, tokens, user, timeout) =>
      var t := GetOr(timeout, default);
      SetEx(r, id, t, Session(tokens, user, now, now + t, t), now)
    case Delete(id) => r - {id}
    case Refresh(id, tokens, timeout) =>
      var s := RedisGet(r, id, now);
      if s.None? then r
      else
        var s' := Refreshed(s.value, tokens, timeout, now);
        SetEx(r, id, s'.timeoutSeconds, s', now)
    case _ => r
  }

  class RedisSessionStore {
    var keys: Redis
    const defaultTimeout: int

    constructor (defaultTimeout: int)
      ensures keys == map[] && this.defaultTimeout == defaultTimeout
    {
      keys := map[];
      this.defaultTimeout := defaultTimeout;
    }

    method Store(id: string, ttl: int, s: Session, now: int) returns (ok: bool)
      modifies this
      ensures ok <==> ttl > 0
      ensures keys == SetEx(old(keys), id, ttl, s, now)
    {
      ok := ttl > 0;
      if ok {
        keys := keys[id := Entry(s, now + ttl)];
      }
    }

    method CreateSession(id: string, tokens: Tokens, userInfo: string, timeout: Option<int>, now: int)
      returns (ok: bool)
      modifies this
      ensures ok <==> GetOr(timeout, defaultTimeout) > 0
      ensures keys == RedisStep(old(keys), defaultTimeout, Create(id, tokens, userInfo, timeout), now)
      ensures !ok ==> keys == old(keys)
      ensures ok ==>
        var lifetime := if timeout.Some? then timeout.value else defaultTimeout;
        && id in keys && SameBut(old(keys), keys, id)
        && keys[id] == Entry(Session(tokens, userInfo, now, now + lifetime, lifetime), now + lifetime)
    {
      var t := if timeout.Some? then timeout.value else defaultTimeout;
      ok := Store(id, t, Session(tokens, userInfo, now, now + t, t), now);
    }

    method GetSession(id: string, now: int) returns (session: Option<Session>)
      ensures session == RedisGet(keys, id, now)
      ensures session.Some? <==> id in keys && now < keys[id].deadline
      ensures session.Some? ==> session.value == keys[id].session
    {
      session := if id in keys && now < keys[id].deadline then Some(keys[id].session) else None;
    }

    method DeleteSession(id: string)
      modifies this
      ensures keys == old(keys) - {id}
      ensures forall now :: keys == RedisStep(old(keys), defaultTimeout, Delete(id), now)
    {
      keys := keys - {id};
    }

    method RefreshSession(id: string, tokens: Tokens, timeout: Option<int>, now: int)
      modifies this
      ensures keys == RedisStep(old(keys), defaultTimeout, Refresh(id, tokens, timeout), now)
      ensures
        var live := id in old(keys) && now < old(keys)[id].deadline;
        if live && (if timeout.Some? then timeout.value else old(keys)[id].session.timeoutSeconds) > 0 then
          && id in keys && SameBut(old(keys), keys, id)
          && RenewedBy(old(keys)[id].session, keys[id].session, tokens, timeout, now)
          && keys[id].deadline == keys[id].session.expiresAt
        else keys == old(keys)
    {
      var found := GetSession(id, now);
      if found.None? {
        return;
      }
      var s := found.value;
      s := s.(tokens := s.tokens + tokens);
      if timeout.Some? {
        s := s.(timeoutSeconds := timeout.value);
      }
      s := s.(expiresAt := now + s.timeoutSeconds);
      var _ := Store(id, s.timeoutSeconds, s, now);
    }
  }

  // ---------------------------------------------------------------- one meaning

  predicate PositiveTimeout(o: Op) {
    (o.Create? || o.Refresh?) && o.timeout.Some? ==> o.timeout.value > 0
  }

  function MemoryRun(ops: seq<Timed>, default: int): Memory {
    if ops == [] then map[]
    else MemoryStep(MemoryRun(ops[..|ops| - 1], default), default, ops[|ops| - 1].op, ops[|ops| - 1].at)
  }

  function RedisRun(ops: seq<Timed>, default: int): Redis {
    if ops == [] then map[]
    else RedisStep(RedisRun(ops[..|ops| - 1], default), default, ops[|ops| - 1].op, ops[|ops| - 1].at)
  }

  /** Still kept in memory although its time is over, or just running out. */
  predicate Lapsed(m: Memory, id: string, now: int) {
    id in m && m[id].expiresAt <= now
  }

  ghost predicate InOrder(ops: seq<Timed>) {
    && (forall k :: 0 <= k < |ops| ==> PositiveTimeout(ops[k].op))
    && (forall k :: 0 <= k < |ops| - 1 ==> ops[k].at <= ops[k + 1].at)
  }

  /** No refresh of the run is applied to a session that is no longer live. */
  ghost predicate OnlyLiveRefreshed(ops: seq<Timed>, default: int) {
    forall k :: 0 <= k < |ops| && ops[k].op.Refresh? ==> !Lapsed(MemoryRun(ops[..k], default), ops[k].op.id, ops[k].at)
  }

  /** The stores hold the same live sessions, with the same expiry. */
  ghost predicate Alike(m: Memory, r: Redis, now: int) {
    forall id :: AlikeAt(m, r, id, now)
  }

  predicate AlikeAt(m: Memory, r: Redis, id: string, now: int) {
    && (id in m ==> m[id].timeoutSeconds > 0)
    && (id in m && m[id].expiresAt > now ==> id in r && r[id] == Entry(m[id], m[id].expiresAt))
    && (id in r && r[id].deadline > now ==> id in m && m[id].expiresAt > now)
  }

  lemma StepAlikeAt(m: Memory, r: Redis, default: int, o: Op, id: string, now: int)
    requires default > 0 && PositiveTimeout(o) && AlikeAt(m, r, id, now)
    ensures AlikeAt(MemoryStep(m, default, o, now), RedisStep(r, default, o, now), id, now)
            <==> !(o.Refresh? && o.id == id && Lapsed(m, id, now))
  {
  }

  /**
    From stores that are alike, every operation but a refresh leaves them alike, and a
    refresh does so if and only if it is not applied to a lapsed session.
   */
  lemma StepAlikeIff(m: Memory, r: Redis, default: int, o: Op, now: int)
    requires default > 0 && PositiveTimeout(o) && Alike(m, r, now)
    ensures Alike(MemoryStep(m, default, o, now), RedisStep(r, default, o, now), now)
            <==> !(o.Refresh? && Lapsed(m, o.id, now))
  {
    forall id
      ensures AlikeAt(MemoryStep(m, default, o, now), RedisStep(r, default, o, now), id, now)
              <==> !(o.Refresh? && o.id == id && Lapsed(m, id, now))
    {
      assert AlikeAt(m, r, id, now);
      StepAlikeAt(m, r, default, o, id, now);
    }
  }

  lemma TimePasses(m: Memory, r: Redis, now: int, later: int)
    requires Alike(m, r, now) && now <= later
    ensures Alike(m, r, later)
  {
    forall id
      ensures AlikeAt(m, r, id, later)
    {
      assert AlikeAt(m, r, id, now);
    }
  }

  lemma {:induction false} RunsAlike(ops: seq<Timed>, default: int, now: int)
    requires default > 0 && InOrder(ops) && OnlyLiveRefreshed(ops, default)
    requires ops != [] ==> ops[|ops| - 1].at <= now
    ensures Alike(MemoryRun(ops, default), RedisRun(ops, default), now)
  {
    if ops != [] {
      var init, last := ops[..|ops| - 1], ops[|ops| - 1];
      assert forall k :: 0 <= k < |init| ==> init[k] == ops[k] && init[..k] == ops[..k];
      RunsAlike(init, default, last.at);
      if last.op.Refresh? {
        assert ops[|ops| - 1].op.Refresh? && !Lapsed(MemoryRun(ops[..|ops| - 1], default), last.op.id, last.at);
      }
      StepAlikeIff(MemoryRun(init, default), RedisRun(init, default), default, last.op, last.at);
      TimePasses(MemoryRun(ops, default), RedisRun(ops, default), last.at, now);
    }
  }

  /** The stores are alike after every operation of the run. */
  ghost predicate AlikeThroughout(ops: seq<Timed>, default: int) {
    forall k :: 0 <= k < |ops| ==> AlikeAfter(ops, k, default)
  }

  ghost predicate AlikeAfter(ops: seq<Timed>, k: nat, default: int)
    requires k < |ops|
  {
    Alike(MemoryRun(ops[..k + 1], default), RedisRun(ops[..k + 1], default), ops[k].at)
  }

  /** So they are if and only if the run refreshes live sessions only. */
  lemma AlikeThroughoutIff(ops: seq<Timed>, default: int)
    requires default > 0 && InOrder(ops)
    ensures AlikeThroughout(ops, default) <==> OnlyLiveRefreshed(ops, default)
  {
    if AlikeThroughout(ops, default) {
      forall k | 0 <= k < |ops| && ops[k].op.Refresh?
        ensures !Lapsed(MemoryRun(ops[..k], default), ops[k].op.id, ops[k].at)
      {
        AlikeRefreshesLive(ops, k, default);
      }
    }
    if OnlyLiveRefreshed(ops, default) {
      forall k | 0 <= k < |ops|
        ensures AlikeAfter(ops, k, default)
      {
        var part := ops[..k + 1];
        assert forall j :: 0 <= j < |part| ==> part[j] == ops[j] && part[..j] == ops[..j];
        RunsAlike(part, default, ops[k].at);
      }
    }
  }

  lemma AlikeRefreshesLive(ops: seq<Timed>, k: nat, default: int)
    requires default > 0 && InOrder(ops) && AlikeThroughout(ops, default) && k < |ops| && ops[k].op.Refresh?
    ensures !Lapsed(MemoryRun(ops[..k], default), ops[k].op.id, ops[k].at)
  {
    var m, r, now := MemoryRun(ops[..k], default), RedisRun(ops[..k], default), ops[k].at;
    assert ops[..k + 1][..k] == ops[..k];
    if k > 0 {
      assert AlikeAfter(ops, k - 1, default) && ops[k - 1].at <= ops[k - 1 + 1].at;
      TimePasses(m, r, ops[k - 1].at, now);
    }
    assert AlikeAfter(ops, k, default);
    StepAlikeIff(m, r, default, ops[k].op, now);
  }

  /**
    After any run that refreshes live sessions only, the stores answer a get alike if and
    only if it is not made at the very instant at which that session expires.
   */
  lemma StoresAnswerAlike(ops: seq<Timed>, default: int, id: string, now: int)
    requires default > 0 && InOrder(ops) && OnlyLiveRefreshed(ops, default)
    requires ops != [] ==> ops[|ops| - 1].at <= now
    ensures
      var m := MemoryRun(ops, default);
      MemoryGet(m, id, now) == RedisGet(RedisRun(ops, default), id, now)
      <==> !(id in m && m[id].expiresAt == now)
  {
    RunsAlike(ops, default, now);
    assert AlikeAt(MemoryRun(ops, default), RedisRun(ops, default), id, now);
  }

  /** A refresh of a lapsed session brings it back in memory, and nowhere else. */
  lemma LapsedRefreshSplits(ops: seq<Timed>, default: int, id: string, tokens: Tokens, timeout: Option<int>, now: int)
    requires default > 0 && (timeout.Some? ==> timeout.value > 0) && InOrder(ops) && OnlyLiveRefreshed(ops, default)
    requires ops != [] ==> ops[|ops| - 1].at <= now
    requires Lapsed(MemoryRun(ops, default), id, now)
    ensures
      var more := ops + [Timed(Refresh(id, tokens, timeout), now)];
      MemoryGet(MemoryRun(more, default), id, now).Some? && RedisGet(RedisRun(more, default), id, now).None?
  {
    RunsAlike(ops, default, now);
    assert AlikeAt(MemoryRun(ops, default), RedisRun(ops, default), id, now);
    var more := ops + [Timed(Refresh(id, tokens, timeout), now)];
    assert more[..|more| - 1] == ops;
  }

  /** A cleanup is invisible: whatever is asked afterwards is answered as without it. */
  lemma CleanupInvisible(m: Memory, default: int, at: int, id: string, now: int)
    requires at <= now
    ensures MemoryGet(MemoryStep(m, default, Cleanup, at), id, now) == MemoryGet(m, id, now)
    ensures Lapsed(MemoryStep(m, default, Cleanup, at), id, now) ==> Lapsed(m, id, now)
  {
  }
}
