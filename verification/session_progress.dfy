/**
  What the session store and the account access service do grant: the session a call was given is the one later
  calls resolve, for as long as it lasts.
*/
module SessionProgress {
  import opened Basics
  import opened SessionStore
  import opened SessionSafety
  import opened AccountAccess

  // ---------------------------------------------------------------- what the store accepts

  /** Times in order, and a flag that is not older than the login. */
  predicate InOrder(s: Session) {
    && 0 <= s.createdAtMs <= s.authenticatedAtMs < s.absoluteExpiresAtMs
    && match s.reauthenticatedUntilMs
       case None => true
       case Some(until) => s.authenticatedAtMs <= until
  }

  /** The record is there, or the index names the credential, through the millisecond its expiry names. */
  predicate Holds(s: Keyspace, surface: Surface, credential: Credential) {
    var k := SessionKey(surface, credential);
    k in s.sessions && s.nowMs <= s.sessions[k].expiresAtMs
  }

  predicate Names(s: Keyspace, surface: Surface, accountId: AccountId, credential: Credential) {
    var a := AccountKey(surface, accountId);
    a in s.accounts && s.accounts[a].value == credential && s.nowMs <= s.accounts[a].expiresAtMs
  }

  /** A login's session is taken iff its times are in order and it has time; nothing else is asked. */
  lemma CreateAcceptedExactly(s: Keyspace, op: Op)
    requires op.Create?
    ensures var (after, reply) := Apply(s, op);
            && (reply == Done(true) <==> op.ttlMs > 0 && op.session.surface == op.surface && InOrder(op.session) && op.session.securityRevision >= 0)
            && (reply == Done(true) ==>
                  && after.sessions[SessionKey(op.surface, op.credential)] == Entry(op.session, s.nowMs + op.ttlMs)
                  && Names(after, op.surface, op.session.accountId, op.credential))
            && (reply != Done(true) ==> after == s)
  {
  }

  /** A rotation is taken iff, besides, the old record is held and its account's index names it. */
  lemma RotateAcceptedExactly(s: Keyspace, op: Op)
    requires op.Rotate?
    ensures var (after, reply) := Apply(s, op);
            && (reply == Done(true) <==>
                  && op.ttlMs > 0 && op.nowMs >= 0
                  && op.session.surface == op.surface && InOrder(op.session) && op.session.securityRevision >= 0
                  && Holds(s, op.surface, op.previous) && Names(s, op.surface, op.session.accountId, op.previous))
            && (reply == Done(true) ==> after.sessions[SessionKey(op.surface, op.next)] == Entry(op.session, s.nowMs + op.ttlMs))
            && (reply != Done(true) ==> after == s)
  {
  }

  // ---------------------------------------------------------------- a record nobody touches

  /** The operation does not present k, does not put another record in its place, and is no login that replaces it. */
  predicate Spares(s: Keyspace, op: Op, k: SessionKey) {
    match op
    case Create(surface, credential, session, _) =>
      k != SessionKey(surface, credential) && !(k.surface == surface && Names(s, surface, session.accountId, k.credential))
    case Rotate(surface, previous, next, _, _, _) => k != SessionKey(surface, previous) && k != SessionKey(surface, next)
    case Touch(surface, credential, _, _) => k != SessionKey(surface, credential)
    case Peek(surface, credential, _) => k != SessionKey(surface, credential)
    case CompareDelete(surface, credential, _) => k != SessionKey(surface, credential)
    case _ => true
  }

  lemma SparedStays(s: Keyspace, op: Op, k: SessionKey)
    requires k in s.sessions && Spares(s, op, k)
    ensures k in Apply(s, op).0.sessions && Apply(s, op).0.sessions[k] == s.sessions[k]
  {
  }

  lemma {:induction false} SparedThroughout(s: Keyspace, ops: seq<Op>, k: SessionKey, i: nat, j: nat)
    requires i <= j <= |ops| && k in StateAt(s, ops, i).sessions
    requires forall m :: i <= m < j ==> Spares(StateAt(s, ops, m), ops[m], k)
    ensures k in StateAt(s, ops, j).sessions && StateAt(s, ops, j).sessions[k] == StateAt(s, ops, i).sessions[k]
    decreases j - i
  {
    hide Apply, Spares;
    if i < j {
      SparedThroughout(s, ops, k, i, j - 1);
      StateNext(s, ops, j - 1);
      hide StateAt;
      SparedStays(StateAt(s, ops, j - 1), ops[j - 1], k);
    }
  }

  lemma FoundExactly(s: Keyspace, op: Op, k: SessionKey)
    requires Resolves(op, k) && k in s.sessions && op.nowMs >= 0 && (op.Touch? ==> op.idleTtlMs > 0)
    ensures var (after, reply) := Apply(s, op);
            var held := s.sessions[k];
            && (reply.Found? <==> op.nowMs < held.value.absoluteExpiresAtMs
                                  && if op.Touch? then s.nowMs <= held.expiresAtMs else s.nowMs < held.expiresAtMs)
            && (reply.Found? ==> reply.session == held.value && k in after.sessions && after.sessions[k].value == held.value)
            && (reply.Found? && op.Touch? ==>
                  after.sessions[k].expiresAtMs == s.nowMs + Min(op.idleTtlMs, held.value.absoluteExpiresAtMs - op.nowMs))
  {
  }

  /**
    Whatever others do in between, a record that was there resolves until it expires, and only until then, by
    its credential, with its contents.
  */
  lemma ResolvesWhileHeld(s: Keyspace, ops: seq<Op>, k: SessionKey, i: nat, j: nat)
    requires i <= j < |ops| && k in StateAt(s, ops, i).sessions
    requires forall m :: i <= m < j ==> Spares(StateAt(s, ops, m), ops[m], k)
    requires Resolves(ops[j], k) && ops[j].nowMs >= 0 && (ops[j].Touch? ==> ops[j].idleTtlMs > 0)
    ensures var held, now := StateAt(s, ops, i).sessions[k], StateAt(s, ops, j).nowMs;
            && (ReplyAt(s, ops, j).Found? <==> ops[j].nowMs < held.value.absoluteExpiresAtMs
                                               && if ops[j].Touch? then now <= held.expiresAtMs else now < held.expiresAtMs)
            && (ReplyAt(s, ops, j).Found? ==> ReplyAt(s, ops, j).session == held.value)
  {
    hide Apply, StateAt, Spares, Resolves;
    SparedThroughout(s, ops, k, i, j);
    FoundExactly(StateAt(s, ops, j), ops[j], k);
  }

  // ---------------------------------------------------------------- the session a call was given

  predicate Issues(e: Event) { e.LoginCreate? || e.ReauthenticateRotate? || e.SelectRotate? }

  /** Nothing of the session but these has changed since it was seen. */
  predicate SameLogin(s: Session, seen: Session) {
    && s.accountId == seen.accountId && s.workforcePersonId == seen.workforcePersonId && s.securityRevision == seen.securityRevision
    && s.createdAtMs == seen.createdAtMs && s.authenticatedAtMs == seen.authenticatedAtMs && s.absoluteExpiresAtMs == seen.absoluteExpiresAtMs
  }

  /** What the session of this call is to say. */
  predicate Carries(s: Session, e: Event)
    requires Issues(e)
  {
    && s.surface == e.surface && s.csrfToken == e.issued.csrfToken && s.sessionId == e.issued.sessionId
    && match e
       case LoginCreate(_, account, assignmentId, _, startedMs) =>
         && s.accountId == account.accountId && s.workforcePersonId == account.workforcePersonId && s.securityRevision == account.securityRevision
         && s.createdAtMs == startedMs && s.authenticatedAtMs == startedMs && s.absoluteExpiresAtMs == startedMs + 28800000
         && s.currentAssignmentId == assignmentId && s.reauthenticatedUntilMs == None
       case ReauthenticateRotate(_, _, seen, _, clientNowMs, _) =>
         SameLogin(s, seen) && s.currentAssignmentId == seen.currentAssignmentId && s.reauthenticatedUntilMs == Some(clientNowMs + 300000)
       case SelectRotate(_, _, seen, chosenId, _, _) =>
         SameLogin(s, seen) && s.currentAssignmentId == Some(chosenId) && s.reauthenticatedUntilMs == seen.reauthenticatedUntilMs
  }

  /** How long it lasts unused: thirty minutes, or what is left of the eight hours. */
  function LastsMs(e: Event): int
    requires Issues(e)
  {
    if e.LoginCreate? then 1800000 else Min(1800000, e.seen.absoluteExpiresAtMs - e.clientNowMs)
  }

  lemma LoginIsTaken(h: History, e: Event)
    requires Real(h, e) && e.LoginCreate?
    ensures Apply(h.store, CommandOf(e)).1 == Done(true)
  {
    CreateAcceptedExactly(h.store, CommandOf(e));
    hide Apply;
  }

  /** The record a granted call leaves. */
  lemma IssuedRecord(h: History, e: Event)
    requires Consistent(h) && Real(h, e) && Issues(e) && !CommandOf(e).Tick? && Apply(h.store, CommandOf(e)).1 == Done(true)
    ensures var k := SessionKey(e.surface, e.issued.credential);
            var store := Apply(h.store, CommandOf(e)).0;
            && k in store.sessions && Carries(store.sessions[k].value, e)
            && store.sessions[k].expiresAtMs == h.store.nowMs + LastsMs(e) && store.nowMs == h.store.nowMs
  {
    var op := CommandOf(e);
    ClockStands(h.store, op);
    if op.Create? { CreateAcceptedExactly(h.store, op); } else { RotateAcceptedExactly(h.store, op); }
    hide Apply;
  }

  lemma RealCommand(es: seq<Event>, m: nat)
    requires RealRun(es) && m < |es|
    ensures HistoryAt(es, m).store == StateAt(EMPTY, Commands(es), m)
    ensures HistoryAt(es, m + 1).store == Apply(HistoryAt(es, m).store, CommandOf(es[m])).0
    ensures ReplyTo(es, m) == ReplyAt(EMPTY, Commands(es), m)
  {
    hide Apply, RealRun, CommandOf;
    StoreFollows(es, m);
    StoreFollows(es, m + 1);
    StateNext(EMPTY, Commands(es), m);
    hide StateAt, HistoryAt;
  }

  /**
    Whoever was granted a session, by logging in, re-authenticating or selecting an assignment, is resolved by the
    credential issued to it for as long as the session lasts, and only so long, as the one it was granted to; whatever
    calls of others come between, and until it is used, ended or replaced.
  */
  lemma GrantedResolves(es: seq<Event>, i: nat, j: nat)
    requires RealRun(es) && i < j < |es| && Issues(es[i]) && (es[i].LoginCreate? || (!CommandOf(es[i]).Tick? && ReplyTo(es, i) == Done(true)))
    requires Presents(es[j], SessionKey(es[i].surface, es[i].issued.credential))
    requires forall m :: i < m < j ==> Spares(HistoryAt(es, m).store, CommandOf(es[m]), SessionKey(es[i].surface, es[i].issued.credential))
    ensures ReplyTo(es, j).Found? ==> Carries(ReplyTo(es, j).session, es[i])
    ensures var end := if es[i].LoginCreate? then es[i].startedMs + 28800000 else es[i].seen.absoluteExpiresAtMs;
            var unusedMs := HistoryAt(es, j).store.nowMs - HistoryAt(es, i).store.nowMs;
            ReplyTo(es, j).Found? <==>
              es[j].clientNowMs < end && if es[j].ResolveTouch? then unusedMs <= LastsMs(es[i]) else unusedMs < LastsMs(es[i])
  {
    hide *;
    IssuesSession(es[i]);
    var ops, k := Commands(es), SessionKey(es[i].surface, es[i].issued.credential);
    GrantedIsHeld(es, i);
    PresentsCommand(es, j, k);
    RealCommand(es, j);
    StoreFollows(es, i + 1);
    SparedCommands(es, i, j, k);
    ResolvesWhileHeld(EMPTY, ops, k, i + 1, j);
  }

  lemma SparedCommands(es: seq<Event>, i: nat, j: nat, k: SessionKey)
    requires RealRun(es) && i < j < |es| && forall m :: i < m < j ==> Spares(HistoryAt(es, m).store, CommandOf(es[m]), k)
    ensures |Commands(es)| == |es| && forall m :: i + 1 <= m < j ==> Spares(StateAt(EMPTY, Commands(es), m), Commands(es)[m], k)
  {
    hide StateAt, HistoryAt, RealRun, Spares, CommandOf;
    forall m | i + 1 <= m < j ensures Spares(StateAt(EMPTY, Commands(es), m), Commands(es)[m], k) { StoreFollows(es, m); }
  }

  lemma IssuesSession(e: Event)
    requires Issues(e)
    ensures e.LoginCreate? || e.ReauthenticateRotate? || e.SelectRotate?
  {
  }

  lemma PresentsCommand(es: seq<Event>, j: nat, k: SessionKey)
    requires j < |es| && Presents(es[j], k)
    ensures var op := Commands(es)[j];
            Resolves(op, k) && op.nowMs == es[j].clientNowMs && op.nowMs >= 0 && (op.Touch? <==> es[j].ResolveTouch?) && (op.Touch? ==> op.idleTtlMs > 0)
  {
  }

  /** The record that a granted call leaves, and when it ends. */
  lemma GrantedIsHeld(es: seq<Event>, i: nat)
    requires RealRun(es) && i < |es| && Issues(es[i]) && (es[i].LoginCreate? || (!CommandOf(es[i]).Tick? && ReplyTo(es, i) == Done(true)))
    ensures var k := SessionKey(es[i].surface, es[i].issued.credential);
            var store := HistoryAt(es, i + 1).store;
            && k in store.sessions && Carries(store.sessions[k].value, es[i])
            && store.sessions[k].expiresAtMs == HistoryAt(es, i).store.nowMs + LastsMs(es[i])
            && store.sessions[k].value.absoluteExpiresAtMs == if es[i].LoginCreate? then es[i].startedMs + 28800000 else es[i].seen.absoluteExpiresAtMs
  {
    var h, e := HistoryAt(es, i), es[i];
    assert Real(h, e);
    hide Apply, StateAt, HistoryAt, RealRun, Real, CommandOf, ReplyTo, Consistent;
    RunKeepsConsistent(es, i);
    RealCommand(es, i);
    RepliesHere(es, i);
    if e.LoginCreate? {
      LoginIsTaken(h, e);
      LoginCreates(e);
    }
    IssuedRecord(h, e);
  }

  lemma LoginCreates(e: Event)
    requires e.LoginCreate?
    ensures CommandOf(e).Create?
  {
  }

  lemma RepliesHere(es: seq<Event>, i: nat)
    requires i < |es|
    ensures ReplyTo(es, i) == Apply(HistoryAt(es, i).store, CommandOf(es[i])).1
  {
  }
}
