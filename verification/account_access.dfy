/**
  Login, resolution, re-authentication, assignment selection and logout of
  apps/api/src/auth/account-access-service.ts on top of the session store.

  Calls run concurrently, so each turn of a call is one event.  A call that rotates works on
  the snapshot of the session its own resolution saw, however old that is.  Password hashing,
  the organization and the audit log are answers from outside.
*/
module AccountAccess {
  import opened Basics
  import opened SessionStore
  import opened SessionSafety

  const IDLE_TTL_MS: int := 30 * 60 * 1000
  const ABSOLUTE_TTL_MS: int := 8 * 60 * 60 * 1000
  const REAUTHENTICATION_TTL_MS: int := 5 * 60 * 1000

  datatype Account = Account(accountId: AccountId, securityRevision: nat, workforcePersonId: string, active: bool)

  /** The random values of one new session. */
  datatype Issued = Issued(credential: Credential, csrfToken: string, sessionId: string)

  datatype Event =
    | Elapse(ms: nat)
    | LoginCreate(surface: Surface, account: Account, assignmentId: Option<string>, issued: Issued, startedMs: nat)
    | ResolveTouch(surface: Surface, credential: Credential, clientNowMs: nat)
    | CurrentPeek(surface: Surface, credential: Credential, clientNowMs: nat)
    | PasswordChecked(surface: Surface, credential: Credential)
    | ReauthenticateRotate(surface: Surface, credential: Credential, seen: Session, issued: Issued, clientNowMs: nat, checkedMs: nat)
    | SelectRotate(surface: Surface, credential: Credential, seen: Session, chosenId: string, issued: Issued, clientNowMs: nat)
    | DeleteFetch(surface: Surface, credential: Credential)
    | DeleteCompare(surface: Surface, credential: Credential, raw: Session)

  function LoginSession(surface: Surface, account: Account, assignmentId: Option<string>, issued: Issued, nowMs: int): Session {
    Session(nowMs + ABSOLUTE_TTL_MS, account.accountId, nowMs, nowMs, issued.csrfToken, assignmentId, None,
            account.securityRevision, issued.sessionId, surface, account.workforcePersonId)
  }

  function Reauthenticated(s: Session, issued: Issued, nowMs: int): Session {
    s.(csrfToken := issued.csrfToken, reauthenticatedUntilMs := Some(nowMs + REAUTHENTICATION_TTL_MS), sessionId := issued.sessionId)
  }

  function Selected(s: Session, issued: Issued, assignmentId: string): Session {
    s.(csrfToken := issued.csrfToken, currentAssignmentId := Some(assignmentId), sessionId := issued.sessionId)
  }

  function RemainingTtl(s: Session, nowMs: int): int { Min(IDLE_TTL_MS, s.absoluteExpiresAtMs - nowMs) }

  /** The command an event sends to the store; a rotation with no time left is not sent. */
  function CommandOf(e: Event): Op {
    match e
    case Elapse(ms) => Tick(ms)
    case LoginCreate(surface, account, assignmentId, issued, startedMs) =>
      Create(surface, issued.credential, LoginSession(surface, account, assignmentId, issued, startedMs), IDLE_TTL_MS)
    case ResolveTouch(surface, credential, nowMs) => Touch(surface, credential, IDLE_TTL_MS, nowMs)
    case CurrentPeek(surface, credential, nowMs) => Peek(surface, credential, nowMs)
    case PasswordChecked(_, _) => Tick(0)
    case ReauthenticateRotate(surface, credential, seen, issued, nowMs, _) =>
      var next := Reauthenticated(seen, issued, nowMs);
      if RemainingTtl(next, nowMs) <= 0 then Tick(0)
      else Rotate(surface, credential, issued.credential, next, RemainingTtl(next, nowMs), nowMs)
    case SelectRotate(surface, credential, seen, assignmentId, issued, nowMs) =>
      var next := Selected(seen, issued, assignmentId);
      if RemainingTtl(next, nowMs) <= 0 then Tick(0)
      else Rotate(surface, credential, issued.credential, next, RemainingTtl(next, nowMs), nowMs)
    case DeleteFetch(surface, credential) => Fetch(surface, credential)
    case DeleteCompare(surface, credential, raw) => CompareDelete(surface, credential, raw)
  }

  /**
    The store and what happened: every credential handed out belongs to the chain of one login;
    a chain is numbered by its login.
  */
  datatype History = History(
    store: Keyspace,
    chains: map<SessionKey, nat>,
    logins: seq<int>,
    checks: set<(nat, int)>,
    seen: set<(SessionKey, Session)>)

  const BEGINNING := History(EMPTY, map[], [], {}, {})

  function Step(h: History, e: Event): History {
    var (store, reply) := Apply(h.store, CommandOf(e));
    match e
    case LoginCreate(surface, _, _, issued, startedMs) =>
      h.(store := store, chains := h.chains[SessionKey(surface, issued.credential) := |h.logins|], logins := h.logins + [startedMs as int])
    case ResolveTouch(surface, credential, nowMs) =>
      h.(store := store, seen := if reply.Found? then h.seen + {(SessionKey(surface, credential), reply.session)} else h.seen)
    case PasswordChecked(surface, credential) =>
      var k := SessionKey(surface, credential);
      h.(store := store, checks := if k in h.chains then h.checks + {(h.chains[k], h.store.nowMs as int)} else h.checks)
    case ReauthenticateRotate(surface, credential, _, issued, _, _) => Continued(h.(store := store), surface, credential, issued.credential)
    case SelectRotate(surface, credential, _, _, issued, _) => Continued(h.(store := store), surface, credential, issued.credential)
    case _ => h.(store := store)
  }

  function Continued(h: History, surface: Surface, previous: Credential, next: Credential): History {
    var k := SessionKey(surface, previous);
    if k in h.chains then h.(chains := h.chains[SessionKey(surface, next) := h.chains[k]]) else h
  }

  predicate Unused(h: History, surface: Surface, issued: Issued) { SessionKey(surface, issued.credential) !in h.chains }

  /**
    What holds of every real event: clocks are read before the command runs, credentials are
    never handed out twice, a rotating call resolved its session earlier, and a
    re-authentication read its clock before its own password check.
  */
  predicate Real(h: History, e: Event) {
    match e
    case LoginCreate(surface, _, _, issued, startedMs) => startedMs <= h.store.nowMs && Unused(h, surface, issued)
    case ResolveTouch(_, _, nowMs) => nowMs <= h.store.nowMs
    case CurrentPeek(_, _, nowMs) => nowMs <= h.store.nowMs
    case ReauthenticateRotate(surface, credential, seen, issued, nowMs, checkedMs) =>
      var k := SessionKey(surface, credential);
      && nowMs <= checkedMs <= h.store.nowMs && Unused(h, surface, issued)
      && (k, seen) in h.seen && k in h.chains && (h.chains[k], checkedMs as int) in h.checks
    case SelectRotate(surface, credential, seen, _, issued, nowMs) =>
      nowMs <= h.store.nowMs && Unused(h, surface, issued) && (SessionKey(surface, credential), seen) in h.seen
    case _ => true
  }

  function HistoryAt(es: seq<Event>, i: nat): History
    requires i <= |es|
  {
    if i == 0 then BEGINNING else Step(HistoryAt(es, i - 1), es[i - 1])
  }

  ghost predicate RealRun(es: seq<Event>) {
    forall i :: 0 <= i < |es| ==> Real(HistoryAt(es, i), es[i])
  }

  /** A password of chain c was checked so late that a flag until `until` is at most five minutes of trust. */
  ghost predicate CheckedFor(h: History, c: nat, until: int) {
    exists t :: (c, t) in h.checks && until <= t + REAUTHENTICATION_TTL_MS
  }

  /** The session carries exactly what its chain allows. */
  ghost predicate Honest(h: History, c: nat, s: Session) {
    && c < |h.logins|
    && s.createdAtMs == s.authenticatedAtMs == h.logins[c]
    && s.absoluteExpiresAtMs == h.logins[c] + ABSOLUTE_TTL_MS
    && (s.reauthenticatedUntilMs.Some? ==> CheckedFor(h, c, s.reauthenticatedUntilMs.value))
  }

  ghost predicate Consistent(h: History) {
    && (forall k :: k in h.store.sessions ==> k in h.chains && Honest(h, h.chains[k], h.store.sessions[k].value))
    && (forall k, s :: (k, s) in h.seen ==> k in h.chains && Honest(h, h.chains[k], s))
    && (forall c, t :: (c, t) in h.checks ==> t <= h.store.nowMs)
    && (forall k :: k in h.chains ==> h.chains[k] < |h.logins|)
  }

  /** Histories only grow: what was honest stays honest. */
  ghost predicate Extends(h: History, g: History) {
    && h.logins <= g.logins
    && h.checks <= g.checks
  }

  lemma HonestStays(h: History, g: History, c: nat, s: Session)
    requires Honest(h, c, s) && Extends(h, g)
    ensures Honest(g, c, s)
  {
    if s.reauthenticatedUntilMs.Some? {
      var t :| (c, t) in h.checks && s.reauthenticatedUntilMs.value <= t + REAUTHENTICATION_TTL_MS;
      assert (c, t) in g.checks;
    }
  }

  /** Where a record of the new store can come from: it was there, or the event wrote it. */
  lemma RecordOrigin(s: Keyspace, op: Op, k: SessionKey)
    requires k in Apply(s, op).0.sessions
    ensures (k in s.sessions && Apply(s, op).0.sessions[k].value == s.sessions[k].value)
            || ((op.Create? && k == SessionKey(op.surface, op.credential) && Apply(s, op).0.sessions[k].value == op.session)
            || (op.Rotate? && k == SessionKey(op.surface, op.next) && Apply(s, op).0.sessions[k].value == op.session))
  {
  }

  lemma StepKeepsConsistent(h: History, e: Event)
    requires Consistent(h) && Real(h, e)
    ensures Consistent(Step(h, e))
  {
    var g := Step(h, e);
    StepExtends(h, e);
    forall k | k in g.store.sessions ensures k in g.chains && Honest(g, g.chains[k], g.store.sessions[k].value) {
      RecordHonest(h, e, k);
    }
    forall k, s | (k, s) in g.seen ensures k in g.chains && Honest(g, g.chains[k], s) {
      SnapshotHonest(h, e, k, s);
    }
    hide Honest;
    ClockStands(h.store, CommandOf(e));
    hide Apply;
  }

  lemma StepExtends(h: History, e: Event)
    requires Real(h, e)
    ensures Extends(h, Step(h, e))
    ensures forall k :: k in h.chains ==> k in Step(h, e).chains && Step(h, e).chains[k] == h.chains[k]
    ensures Step(h, e).store == Apply(h.store, CommandOf(e)).0
  {
    hide Apply;
  }

  lemma RecordHonest(h: History, e: Event, k: SessionKey)
    requires Consistent(h) && Real(h, e) && k in Step(h, e).store.sessions
    ensures var g := Step(h, e); k in g.chains && Honest(g, g.chains[k], g.store.sessions[k].value)
  {
    var g := Step(h, e);
    StepExtends(h, e);
    RecordOrigin(h.store, CommandOf(e), k);
    if k in h.store.sessions && g.store.sessions[k].value == h.store.sessions[k].value {
      HonestStays(h, g, h.chains[k], h.store.sessions[k].value);
    } else {
      WrittenHonest(h, e);
    }
  }

  /** What an event writes is honest in its chain. */
  lemma WrittenHonest(h: History, e: Event)
    requires Consistent(h) && Real(h, e)
    ensures var g := Step(h, e);
            var op := CommandOf(e);
            && (op.Create? ==> SessionKey(op.surface, op.credential) in g.chains
                               && Honest(g, g.chains[SessionKey(op.surface, op.credential)], op.session))
            && (op.Rotate? ==> SessionKey(op.surface, op.next) in g.chains
                               && Honest(g, g.chains[SessionKey(op.surface, op.next)], op.session))
  {
    hide Apply;
    var g := Step(h, e);
    StepExtends(h, e);
    match e {
      case ReauthenticateRotate(surface, credential, seen, issued, nowMs, checkedMs) =>
        var c := h.chains[SessionKey(surface, credential)];
        HonestStays(h, g, c, seen);
        assert (c, checkedMs as int) in g.checks;
        assert CheckedFor(g, c, nowMs + REAUTHENTICATION_TTL_MS);
      case SelectRotate(surface, credential, seen, assignmentId, issued, nowMs) =>
        var c := h.chains[SessionKey(surface, credential)];
        HonestStays(h, g, c, seen);
      case _ =>
    }
  }

  lemma SnapshotHonest(h: History, e: Event, k: SessionKey, s: Session)
    requires Consistent(h) && Real(h, e) && (k, s) in Step(h, e).seen
    ensures var g := Step(h, e); k in g.chains && Honest(g, g.chains[k], s)
  {
    var g := Step(h, e);
    StepExtends(h, e);
    if (k, s) in h.seen {
      HonestStays(h, g, h.chains[k], s);
    } else {
      TouchFinds(h.store, CommandOf(e));
      HonestStays(h, g, h.chains[k], s);
    }
  }

  lemma TouchFinds(s: Keyspace, op: Op)
    ensures op.Touch? && Apply(s, op).1.Found? ==>
              var k := SessionKey(op.surface, op.credential);
              Present(s, k) && Apply(s, op).1.session == s.sessions[k].value && op.nowMs < s.sessions[k].value.absoluteExpiresAtMs
  {
  }

  lemma {:induction false} RunKeepsConsistent(es: seq<Event>, i: nat)
    requires RealRun(es) && i <= |es|
    ensures Consistent(HistoryAt(es, i))
  {
    hide Step, Real, Consistent;
    if i > 0 {
      RunKeepsConsistent(es, i - 1);
      StepKeepsConsistent(HistoryAt(es, i - 1), es[i - 1]);
    } else {
      BeginningConsistent();
    }
  }

  lemma BeginningConsistent()
    ensures Consistent(BEGINNING)
  {
  }

  // ---------------------------------------------------------------- what a chain is promised

  function ReplyTo(es: seq<Event>, i: nat): Reply
    requires i < |es|
  {
    Apply(HistoryAt(es, i).store, CommandOf(es[i])).1
  }

  /** The credential an event presents for authentication. */
  predicate Presents(e: Event, k: SessionKey) {
    (e.ResolveTouch? || e.CurrentPeek?) && k == SessionKey(e.surface, e.credential)
  }

  /** A chain, once it has a credential or a login time, keeps it. */
  lemma {:induction false} ChainsOnlyGrow(es: seq<Event>, i: nat, j: nat)
    requires RealRun(es) && i <= j <= |es|
    ensures HistoryAt(es, i).logins <= HistoryAt(es, j).logins
    ensures forall k :: k in HistoryAt(es, i).chains ==>
              k in HistoryAt(es, j).chains && HistoryAt(es, j).chains[k] == HistoryAt(es, i).chains[k]
    decreases j - i
  {
    hide Step, Real, Apply;
    if i < j {
      ChainsOnlyGrow(es, i, j - 1);
      StepExtends(HistoryAt(es, j - 1), es[j - 1]);
    }
  }

  lemma PeekFinds(s: Keyspace, op: Op)
    ensures op.Peek? && Apply(s, op).1.Found? ==>
              var k := SessionKey(op.surface, op.credential);
              Present(s, k) && Apply(s, op).1.session == s.sessions[k].value && op.nowMs < s.sessions[k].value.absoluteExpiresAtMs
  {
  }

  /** Whoever resolves belongs to one login, and read the clock for it before eight hours had passed since. */
  lemma ResolvedBeforeEnd(es: seq<Event>, i: nat, k: SessionKey)
    requires RealRun(es) && i < |es| && Presents(es[i], k) && ReplyTo(es, i).Found?
    ensures var h := HistoryAt(es, i);
            && k in h.chains && h.chains[k] < |h.logins|
            && ReplyTo(es, i).session.absoluteExpiresAtMs == h.logins[h.chains[k]] + ABSOLUTE_TTL_MS
            && ReplyTo(es, i).session.authenticatedAtMs == h.logins[h.chains[k]]
            && es[i].clientNowMs < h.logins[h.chains[k]] + ABSOLUTE_TTL_MS
  {
    RunKeepsConsistent(es, i);
    TouchFinds(HistoryAt(es, i).store, CommandOf(es[i]));
    PeekFinds(HistoryAt(es, i).store, CommandOf(es[i]));
    hide Apply, Step, HistoryAt;
  }

  /** A re-authentication or assignment selection that the store accepted hands its login's end on to the new credential. */
  lemma RotationStaysInChain(es: seq<Event>, i: nat)
    requires RealRun(es) && i < |es| && CommandOf(es[i]).Rotate? && ReplyTo(es, i) == Done(true)
    ensures var h, g := HistoryAt(es, i), HistoryAt(es, i + 1);
            var previous := SessionKey(es[i].surface, es[i].credential);
            var next := SessionKey(es[i].surface, es[i].issued.credential);
            && previous in h.chains && h.chains[previous] < |h.logins|
            && next in g.chains && g.chains[next] == h.chains[previous]
            && next in g.store.sessions && !Present(g.store, previous)
            && g.store.sessions[next].value.absoluteExpiresAtMs == h.logins[h.chains[previous]] + ABSOLUTE_TTL_MS
  {
    var h, e := HistoryAt(es, i), es[i];
    RunKeepsConsistent(es, i);
    RunKeepsConsistent(es, i + 1);
    assert HistoryAt(es, i + 1) == Step(h, e);
    StepExtends(h, e);
    RotationHandsOver(h.store, CommandOf(e));
    RotationRetires(h.store, CommandOf(e), SessionKey(e.surface, e.credential));
    hide Apply, HistoryAt;
  }

  /** The re-authenticated flag is up only within five minutes of a password check in the same chain. */
  lemma FlagNeedsRecentCheck(es: seq<Event>, i: nat, k: SessionKey, clockMs: int)
    requires RealRun(es) && i < |es| && Presents(es[i], k) && ReplyTo(es, i).Found?
    requires ReplyTo(es, i).session.reauthenticatedUntilMs.Some? && ReplyTo(es, i).session.reauthenticatedUntilMs.value > clockMs
    ensures var h := HistoryAt(es, i);
            k in h.chains && exists t :: (h.chains[k], t) in h.checks && t <= h.store.nowMs && clockMs < t + REAUTHENTICATION_TTL_MS
  {
    RunKeepsConsistent(es, i);
    TouchFinds(HistoryAt(es, i).store, CommandOf(es[i]));
    PeekFinds(HistoryAt(es, i).store, CommandOf(es[i]));
    hide Apply, Step, HistoryAt;
    var h, until := HistoryAt(es, i), ReplyTo(es, i).session.reauthenticatedUntilMs.value;
    assert CheckedFor(h, h.chains[k], until);
    var t :| (h.chains[k], t) in h.checks && until <= t + REAUTHENTICATION_TTL_MS;
    assert t <= h.store.nowMs;
  }

  // ---------------------------------------------------------------- idle expiry

  function Commands(es: seq<Event>): seq<Op> {
    seq(|es|, i requires 0 <= i < |es| => CommandOf(es[i]))
  }

  lemma {:induction false} StoreFollows(es: seq<Event>, i: nat)
    requires RealRun(es) && i <= |es|
    ensures HistoryAt(es, i).store == StateAt(EMPTY, Commands(es), i)
  {
    hide Step, Real, Apply, CommandOf;
    if i > 0 {
      StoreFollows(es, i - 1);
      StepExtends(HistoryAt(es, i - 1), es[i - 1]);
    }
  }

  /** Every command of the service asks for at most thirty idle minutes. */
  lemma CommandsUseIdle(e: Event)
    ensures UsesIdle(CommandOf(e), IDLE_TTL_MS)
  {
  }

  /** No resolution succeeds once the credential went unused for more than thirty minutes. */
  lemma NoResolveAfterIdle(es: seq<Event>, k: SessionKey, i: nat, j: nat)
    requires RealRun(es) && i <= j < |es| && Presents(es[j], k)
    requires forall m :: i <= m < j ==> LeavesAlone(CommandOf(es[m]), k)
    requires HistoryAt(es, j).store.nowMs > HistoryAt(es, i).store.nowMs + IDLE_TTL_MS
    ensures ReplyTo(es, j) == Missing
  {
    assert Resolves(CommandOf(es[j]), k);
    hide Apply, HistoryAt, StateAt, RealRun, CommandOf, LeavesAlone, UsesIdle, Resolves;
    var ops := Commands(es);
    forall m | 0 <= m < |ops| ensures UsesIdle(ops[m], IDLE_TTL_MS) {
      CommandsUseIdle(es[m]);
    }
    forall m | i <= m < j ensures LeavesAlone(ops[m], k) {
    }
    StoreFollows(es, i);
    StoreFollows(es, j);
    IdleSessionEnds(ops, k, i, j, IDLE_TTL_MS);
  }

  /** The idle expiry a call shows its caller. */
  function ReportedIdle(e: Event, reply: Reply): int
    requires e.LoginCreate? || e.ReauthenticateRotate? || e.SelectRotate? || ((e.ResolveTouch? || e.CurrentPeek?) && reply.Found?)
  {
    match e
    case LoginCreate(surface, account, assignmentId, issued, nowMs) =>
      Min(LoginSession(surface, account, assignmentId, issued, nowMs).absoluteExpiresAtMs, nowMs + IDLE_TTL_MS)
    case ReauthenticateRotate(_, _, seen, _, nowMs, _) => Min(seen.absoluteExpiresAtMs, nowMs + RemainingTtl(seen, nowMs))
    case SelectRotate(_, _, seen, _, _, nowMs) => Min(seen.absoluteExpiresAtMs, nowMs + RemainingTtl(seen, nowMs))
    case ResolveTouch(_, _, nowMs) => Min(reply.session.absoluteExpiresAtMs, nowMs + IDLE_TTL_MS)
    case CurrentPeek(_, _, nowMs) => Min(reply.session.absoluteExpiresAtMs, nowMs + reply.ttlMs)
  }

  function ClientNow(e: Event): int
    requires e.LoginCreate? || e.ReauthenticateRotate? || e.SelectRotate? || e.ResolveTouch? || e.CurrentPeek?
  {
    if e.LoginCreate? then e.startedMs else e.clientNowMs
  }

  /** The record the event leaves behind for its caller. */
  function CallersKey(e: Event): SessionKey
    requires e.LoginCreate? || e.ReauthenticateRotate? || e.SelectRotate? || e.ResolveTouch? || e.CurrentPeek?
  {
    if e.ResolveTouch? || e.CurrentPeek? then SessionKey(e.surface, e.credential) else SessionKey(e.surface, e.issued.credential)
  }

  /**
    The reported idle expiry is the one the store holds less the time between the caller's
    clock reading and its command, so it is never late and it is exact when that time is zero.
  */
  lemma ReportedIdleIsHeldLessDelay(h: History, e: Event)
    requires Real(h, e) && (e.LoginCreate? || e.ReauthenticateRotate? || e.SelectRotate? || e.ResolveTouch?)
    requires var op := CommandOf(e);
             var reply := Apply(h.store, op).1;
             !op.Tick? && (reply == Done(true) || reply.Found?)
    ensures var (store, reply) := Apply(h.store, CommandOf(e));
            && CallersKey(e) in store.sessions
            && ReportedIdle(e, reply) == store.sessions[CallersKey(e)].expiresAtMs - (h.store.nowMs - ClientNow(e))
            && (ReportedIdle(e, reply) == store.sessions[CallersKey(e)].expiresAtMs <==> ClientNow(e) == h.store.nowMs)
  {
  }

  /** A login whose command reaches the store five milliseconds after it read the clock reports its expiry five too early. */
  lemma LateLoginReportsEarly() returns (es: seq<Event>)
    ensures RealRun(es) && |es| == 2 && es[0] == Elapse(5) && es[1].LoginCreate? && es[1].startedMs == 0
    ensures ReplyTo(es, 1) == Done(true)
    ensures var store := HistoryAt(es, 2).store;
            && CallersKey(es[1]) in store.sessions
            && store.sessions[CallersKey(es[1])].expiresAtMs == ReportedIdle(es[1], ReplyTo(es, 1)) + 5
  {
    var login := LoginCreate(Pc, Account("a", 0, "p", true), None, Issued("c", "t", "s"), 0);
    es := [Elapse(5), login];
    assert HistoryAt(es, 0) == BEGINNING;
    var h := HistoryAt(es, 1);
    assert h == BEGINNING.(store := EMPTY.(nowMs := 5)) by { assert h == Step(BEGINNING, Elapse(5)); }
    assert HistoryAt(es, 2) == Step(h, login);
    assert ValidSession(LoginSession(Pc, login.account, None, login.issued, 0), Pc);
  }

  /** A look that does not extend the session reports the held expiry less its delay too, cut off at the absolute expiry. */
  lemma PeekedIdleIsHeldLessDelay(h: History, e: Event)
    requires Real(h, e) && e.CurrentPeek? && Apply(h.store, CommandOf(e)).1.Found?
    ensures var reply := Apply(h.store, CommandOf(e)).1;
            var held := h.store.sessions[CallersKey(e)].expiresAtMs;
            && Apply(h.store, CommandOf(e)).0 == h.store
            && ReportedIdle(e, reply) == Min(reply.session.absoluteExpiresAtMs, held - (h.store.nowMs - ClientNow(e)))
            && (ReportedIdle(e, reply) == held <==> ClientNow(e) == h.store.nowMs && held <= reply.session.absoluteExpiresAtMs)
  {
  }
}
