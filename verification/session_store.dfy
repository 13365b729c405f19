/**
  The access session store of apps/api/src/auth/local-session-store.ts.

  A session record lives under a key derived from its credential; an account index names
  the one credential an account may use per surface.  Each script runs as one atomic step
  on a key space with expiries.  HMAC digests are taken as injective, so keys are the
  digested values themselves.  A key is there through the millisecond it expires at.
*/
module SessionStore {
  import opened Basics

  datatype Surface = InternalH5 | PartTime | Pc

  type Credential = string
  type AccountId = string

  datatype Session = Session(
    absoluteExpiresAtMs: int,
    accountId: AccountId,
    authenticatedAtMs: int,
    createdAtMs: int,
    csrfToken: string,
    currentAssignmentId: Option<string>,
    reauthenticatedUntilMs: Option<int>,
    securityRevision: int,
    sessionId: string,
    surface: Surface,
    workforcePersonId: string)

  datatype SessionKey = SessionKey(surface: Surface, credential: Credential)

  datatype AccountKey = AccountKey(surface: Surface, accountId: AccountId)

  datatype Entry<+V> = Entry(value: V, expiresAtMs: int)

  datatype Keyspace = Keyspace(
    nowMs: nat,
    sessions: map<SessionKey, Entry<Session>>,
    accounts: map<AccountKey, Entry<Credential>>)

  /** One step of the store: time passing, or one command sent to the server. */
  datatype Op =
    | Tick(ms: nat)
    | Create(surface: Surface, credential: Credential, session: Session, ttlMs: int)
    | Rotate(surface: Surface, previous: Credential, next: Credential, session: Session, ttlMs: int, nowMs: int)
    | Touch(surface: Surface, credential: Credential, idleTtlMs: int, nowMs: int)
    | Peek(surface: Surface, credential: Credential, nowMs: int)
    | Fetch(surface: Surface, credential: Credential)
    | CompareDelete(surface: Surface, credential: Credential, raw: Session)

  datatype Reply =
    | Done(accepted: bool)
    | Missing
    | Found(session: Session, ttlMs: int)

  /** The time constraints of parseSession. */
  predicate ValidSession(s: Session, surface: Surface) {
    && s.surface == surface
    && 0 <= s.createdAtMs <= s.authenticatedAtMs < s.absoluteExpiresAtMs
    && 0 <= s.securityRevision
    && (s.reauthenticatedUntilMs.Some? ==> s.authenticatedAtMs <= s.reauthenticatedUntilMs.value)
  }

  function Get<K, V>(m: map<K, Entry<V>>, k: K, nowMs: int): Option<V> {
    if k in m && nowMs <= m[k].expiresAtMs then Some(m[k].value) else None
  }

  function Apply(s: Keyspace, op: Op): (Keyspace, Reply) {
    match op
    case Tick(ms) => (s.(nowMs := s.nowMs + ms), Done(true))
    case Create(surface, credential, session, ttlMs) =>
      if ttlMs <= 0 || !ValidSession(session, surface) then (s, Done(false))
      else (Created(s, surface, credential, session, ttlMs), Done(true))
    case Rotate(surface, previous, next, session, ttlMs, nowMs) =>
      if ttlMs <= 0 || nowMs < 0 || !ValidSession(session, surface) then (s, Done(false))
      else if Get(s.sessions, SessionKey(surface, previous), s.nowMs).None? then (s, Done(false))
      else if Get(s.accounts, AccountKey(surface, session.accountId), s.nowMs) != Some(previous) then (s, Done(false))
      else (Rotated(s, surface, previous, next, session, ttlMs, nowMs), Done(true))
    case Touch(surface, credential, idleTtlMs, nowMs) =>
      var key := SessionKey(surface, credential);
      if idleTtlMs <= 0 || nowMs < 0 || Get(s.sessions, key, s.nowMs).None? then (s, Missing)
      else
        var session := s.sessions[key].value;
        var remaining := session.absoluteExpiresAtMs - nowMs;
        if remaining <= 0 then (s.(sessions := s.sessions - {key}), Missing)
        else
          (s.(sessions := s.sessions[key := Entry(session, s.nowMs + Min(idleTtlMs, remaining))]),
           Found(session, Min(idleTtlMs, remaining)))
    case Peek(surface, credential, nowMs) =>
      var key := SessionKey(surface, credential);
      if nowMs < 0 || Get(s.sessions, key, s.nowMs).None? then (s, Missing)
      else
        var session := s.sessions[key].value;
        var ttlMs := s.sessions[key].expiresAtMs - s.nowMs;
        if session.absoluteExpiresAtMs <= nowMs || ttlMs <= 0 then (s.(sessions := s.sessions - {key}), Missing)
        else (s, Found(session, ttlMs))
    case Fetch(surface, credential) =>
      var key := SessionKey(surface, credential);
      (match Get(s.sessions, key, s.nowMs)
       case None => (s, Missing)
       case Some(session) => (s, Found(session, s.sessions[key].expiresAtMs - s.nowMs)))
    case CompareDelete(surface, credential, raw) =>
      var key := SessionKey(surface, credential);
      if Get(s.sessions, key, s.nowMs) != Some(raw) then (s, Done(false))
      else
        var account := AccountKey(surface, raw.accountId);
        (s.(sessions := s.sessions - {key},
            accounts := if Get(s.accounts, account, s.nowMs) == Some(credential) then s.accounts - {account} else s.accounts),
         Done(true))
  }

  function Created(s: Keyspace, surface: Surface, credential: Credential, session: Session, ttlMs: int): Keyspace {
    var account := AccountKey(surface, session.accountId);
    var previous := Get(s.accounts, account, s.nowMs);
    var kept := if previous.Some? then s.sessions - {SessionKey(surface, previous.value)} else s.sessions;
    var accountTtlMs := Max(ttlMs, session.absoluteExpiresAtMs - session.createdAtMs);
    s.(sessions := kept[SessionKey(surface, credential) := Entry(session, s.nowMs + ttlMs)],
       accounts := s.accounts[account := Entry(credential, s.nowMs + accountTtlMs)])
  }

  function Rotated(s: Keyspace, surface: Surface, previous: Credential, next: Credential, session: Session, ttlMs: int, nowMs: int): Keyspace {
    var accountTtlMs := Max(ttlMs, session.absoluteExpiresAtMs - nowMs);
    s.(sessions := (s.sessions - {SessionKey(surface, previous)})[SessionKey(surface, next) := Entry(session, s.nowMs + ttlMs)],
       accounts := s.accounts[AccountKey(surface, session.accountId) := Entry(next, s.nowMs + accountTtlMs)])
  }

  /** The store itself, changed in place one command at a time. */
  class RedisAccessSessionStore {
    var nowMs: nat
    var sessions: map<SessionKey, Entry<Session>>
    var accounts: map<AccountKey, Entry<Credential>>

    ghost function View(): Keyspace
      reads this
    {
      Keyspace(nowMs, sessions, accounts)
    }

    constructor ()
      ensures View() == Keyspace(0, map[], map[])
    {
      nowMs, sessions, accounts := 0, map[], map[];
    }

    method Advance(ms: nat)
      modifies this`nowMs
      ensures View() == Apply(old(View()), Tick(ms)).0
    {
      nowMs := nowMs + ms;
    }

    method Create(surface: Surface, credential: Credential, session: Session, ttlMs: int) returns (reply: Reply)
      modifies this`sessions, this`accounts
      ensures (View(), reply) == Apply(old(View()), Op.Create(surface, credential, session, ttlMs))
    {
      if ttlMs <= 0 || !ValidSession(session, surface) {
        return Done(false);
      }
      var account := AccountKey(surface, session.accountId);
      var accountTtlMs := Max(ttlMs, session.absoluteExpiresAtMs - session.createdAtMs);
      var previous := Get(accounts, account, nowMs);
      if previous.Some? {
        sessions := sessions - {SessionKey(surface, previous.value)};
      }
      sessions := sessions[SessionKey(surface, credential) := Entry(session, nowMs + ttlMs)];
      accounts := accounts[account := Entry(credential, nowMs + accountTtlMs)];
      return Done(true);
    }

    method Rotate(surface: Surface, previous: Credential, next: Credential, session: Session, ttlMs: int, clientNowMs: int)
      returns (reply: Reply)
      modifies this`sessions, this`accounts
      ensures (View(), reply) == Apply(old(View()), Op.Rotate(surface, previous, next, session, ttlMs, clientNowMs))
    {
      if ttlMs <= 0 || clientNowMs < 0 || !ValidSession(session, surface) {
        return Done(false);
      }
      var account := AccountKey(surface, session.accountId);
      var accountTtlMs := Max(ttlMs, session.absoluteExpiresAtMs - clientNowMs);
      if Get(sessions, SessionKey(surface, previous), nowMs).None? {
        return Done(false);
      }
      if Get(accounts, account, nowMs) != Some(previous) {
        return Done(false);
      }
      sessions := sessions - {SessionKey(surface, previous)};
      sessions := sessions[SessionKey(surface, next) := Entry(session, nowMs + ttlMs)];
      accounts := accounts[account := Entry(next, nowMs + accountTtlMs)];
      return Done(true);
    }

    method Touch(surface: Surface, credential: Credential, idleTtlMs: int, clientNowMs: int) returns (reply: Reply)
      modifies this`sessions
      ensures (View(), reply) == Apply(old(View()), Op.Touch(surface, credential, idleTtlMs, clientNowMs))
    {
      var key := SessionKey(surface, credential);
      if idleTtlMs <= 0 || clientNowMs < 0 {
        return Missing;
      }
      var value := Get(sessions, key, nowMs);
      if value.None? {
        return Missing;
      }
      var remaining := value.value.absoluteExpiresAtMs - clientNowMs;
      if remaining <= 0 {
        sessions := sessions - {key};
        return Missing;
      }
      sessions := sessions[key := Entry(value.value, nowMs + Min(idleTtlMs, remaining))];
      return Found(value.value, Min(idleTtlMs, remaining));
    }

    method Peek(surface: Surface, credential: Credential, clientNowMs: int) returns (reply: Reply)
      modifies this`sessions
      ensures (View(), reply) == Apply(old(View()), Op.Peek(surface, credential, clientNowMs))
    {
      var key := SessionKey(surface, credential);
      if clientNowMs < 0 {
        return Missing;
      }
      var value := Get(sessions, key, nowMs);
      if value.None? {
        return Missing;
      }
      if value.value.absoluteExpiresAtMs <= clientNowMs {
        sessions := sessions - {key};
        return Missing;
      }
      var ttlMs := sessions[key].expiresAtMs - nowMs;
      if ttlMs <= 0 {
        sessions := sessions - {key};
        return Missing;
      }
      return Found(value.value, ttlMs);
    }

    method Fetch(surface: Surface, credential: Credential) returns (reply: Reply)
      ensures (View(), reply) == Apply(View(), Op.Fetch(surface, credential))
    {
      var key := SessionKey(surface, credential);
      var value := Get(sessions, key, nowMs);
      if value.None? {
        return Missing;
      }
      return Found(value.value, sessions[key].expiresAtMs - nowMs);
    }

    method CompareDelete(surface: Surface, credential: Credential, raw: Session) returns (reply: Reply)
      modifies this`sessions, this`accounts
      ensures (View(), reply) == Apply(old(View()), Op.CompareDelete(surface, credential, raw))
    {
      var key := SessionKey(surface, credential);
      var value := Get(sessions, key, nowMs);
      if value != Some(raw) {
        return Done(false);
      }
      sessions := sessions - {key};
      var account := AccountKey(surface, raw.accountId);
      if Get(accounts, account, nowMs) == Some(credential) {
        accounts := accounts - {account};
      }
      return Done(true);
    }

    /** `delete` when no other client gets between its two commands: the record and its index entry go, nothing else. */
    method Delete(surface: Surface, credential: Credential)
      modifies this`sessions, this`accounts
      ensures Get(sessions, SessionKey(surface, credential), nowMs).None?
      ensures forall k :: k != SessionKey(surface, credential) ==>
                (k in sessions <==> k in old(sessions)) && (k in sessions ==> sessions[k] == old(sessions)[k])
      ensures forall a :: a in old(accounts) && old(accounts)[a].value != credential ==> a in accounts && accounts[a] == old(accounts)[a]
    {
      var raw := Fetch(surface, credential);
      if raw.Found? {
        var reply := CompareDelete(surface, credential, raw.session);
      }
    }
  }
}
