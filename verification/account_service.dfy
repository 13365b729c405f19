/**
  One call of the account access service at a time (apps/api/src/auth/account-access-service.ts):
  which answers from outside let a call through, what it leaves in the store, and what is
  undone when its audit record cannot be written.  AccountAccess has the interleavings.
*/
module AccountService {
  import opened Basics
  import opened SessionStore
  import opened SessionSafety
  import opened LoginRate
  import opened AccountAccess
  import opened SessionProgress

  datatype Failure = InvalidCredentials | RateLimited | AuthenticationRequired | DependencyUnavailable

  datatype Action =
    | LoginFailed | LoginSucceeded | ReauthenticationFailed | ReauthenticationSucceeded
    | AssignmentSelected | LogoutRequested | LoggedOut

  datatype Lookup = Known(account: Account) | Unknown | LookupUnavailable

  datatype Workforce = Resolved(employments: nat, assignments: seq<string>) | NotActive | WorkforceUnavailable

  /** What the ports answer during one call. */
  datatype Answers = Answers(lookup: Lookup, passwordValid: bool, workforce: Workforce, rolesKnown: bool, auditWorks: bool, undoWorks: bool)

  datatype SessionView = SessionView(absoluteExpiresAtMs: int, idleExpiresAtMs: int, authenticatedAtMs: int,
                                     reauthenticatedUntilMs: Option<int>, currentAssignmentId: Option<string>)

  datatype Outcome = Granted(credential: Credential, view: SessionView) | Refused(failure: Failure)

  datatype Resolution = Accepted(session: Session, idleExpiresAtMs: int) | Rejected(failure: Failure)

  function ViewOf(s: Session, idleExpiresAtMs: int): SessionView {
    SessionView(s.absoluteExpiresAtMs, Min(s.absoluteExpiresAtMs, idleExpiresAtMs), s.authenticatedAtMs,
                s.reauthenticatedUntilMs, s.currentAssignmentId)
  }

  /** Somebody employed, with at least one assignment. */
  predicate AtWork(workforce: Workforce) {
    workforce.Resolved? && workforce.employments > 0 && |workforce.assignments| > 0
  }

  predicate LengthWithin(s: string, limit: nat) { 1 <= |s| <= limit }

  /** The account is as it was when the session was made. */
  predicate Unchanged(lookup: Lookup, s: Session) {
    && lookup.Known?
    && lookup.account.active
    && lookup.account.securityRevision == s.securityRevision
    && lookup.account.workforcePersonId == s.workforcePersonId
  }

  function OnlyAssignment(workforce: Workforce): Option<string> {
    if workforce.Resolved? && |workforce.assignments| == 1 then Some(workforce.assignments[0]) else None
  }

  lemma ReauthenticationKeyIs(accountId: AccountId)
    ensures ReauthenticationKey(accountId) == "reauthentication:" + accountId
  {
  }

  function ReauthenticationKey(accountId: AccountId): string { "reauthentication:" + accountId }

  /** The store takes every login's session. */
  lemma LoginStored(s: Keyspace, e: Event)
    requires e.LoginCreate? && e.startedMs == s.nowMs
    ensures var (after, reply) := Apply(s, CommandOf(e));
            && reply == Done(true)
            && CallersKey(e) in after.sessions
            && after.sessions[CallersKey(e)] ==
                 Entry(LoginSession(e.surface, e.account, e.assignmentId, e.issued, s.nowMs), s.nowMs + IDLE_TTL_MS)
  {
  }

  /** Within half an hour the credential resolves, as this account's session with these random values. */
  ghost predicate GoesOn(s: Keyspace, surface: Surface, account: Account, issued: Issued) {
    forall ms: nat :: ms <= 1800000 ==> ResolvesAfter(s, ms, surface, account, issued)
  }

  predicate ResolvesAfter(s: Keyspace, ms: nat, surface: Surface, account: Account, issued: Issued) {
    var reply := Apply(Apply(s, Tick(ms)).0, Touch(surface, issued.credential, 1800000, s.nowMs + ms)).1;
    && reply.Found? && reply.session.surface == surface
    && reply.session.accountId == account.accountId && reply.session.workforcePersonId == account.workforcePersonId
    && reply.session.securityRevision == account.securityRevision
    && reply.session.csrfToken == issued.csrfToken && reply.session.sessionId == issued.sessionId
  }

  lemma LoginGoesOn(s: Keyspace, e: Event)
    requires e.LoginCreate? && e.startedMs == s.nowMs
    ensures GoesOn(Apply(s, CommandOf(e)).0, e.surface, e.account, e.issued)
  {
    LoginStored(s, e);
    ClockStands(s, CommandOf(e));
    var after, k := Apply(s, CommandOf(e)).0, SessionKey(e.surface, e.issued.credential);
    forall ms: nat | ms <= 1800000 ensures ResolvesAfter(after, ms, e.surface, e.account, e.issued) {
      var later := Apply(after, Tick(ms)).0;
      assert later == after.(nowMs := after.nowMs + ms);
      hide Apply, CommandOf;
      FoundExactly(later, Touch(e.surface, e.issued.credential, 1800000, after.nowMs + ms), k);
    }
  }

  /** A live session that its account's index names, and that stays valid as it is to become. */
  predicate Replaceable(s: Keyspace, surface: Surface, credential: Credential, next: Session) {
    && Live(s, SessionKey(surface, credential))
    && Get(s.accounts, AccountKey(surface, next.accountId), s.nowMs) == Some(credential)
    && next.absoluteExpiresAtMs == s.sessions[SessionKey(surface, credential)].value.absoluteExpiresAtMs
    && ValidSession(next, surface)
  }

  /** Such a session resolves, and the rotation right after is accepted. */
  lemma ReplaceableRotates(
      s: Keyspace, surface: Surface, credential: Credential, issued: Credential, next: Session)
    requires Replaceable(s, surface, credential, next)
    ensures var (t, reply) := Apply(s, Touch(surface, credential, IDLE_TTL_MS, s.nowMs));
            && reply.Found? && reply.session == s.sessions[SessionKey(surface, credential)].value
            && RemainingTtl(next, s.nowMs) > 0
            && Apply(t, Op.Rotate(surface, credential, issued, next, RemainingTtl(next, s.nowMs), s.nowMs)).1 == Done(true)
  {
  }

  /** The session goes on under new random values, its flag raised for five minutes. */
  predicate IsRaised(s: Session, seen: Session, issued: Issued, nowMs: int) {
    && SameLogin(s, seen) && s.surface == seen.surface && s.currentAssignmentId == seen.currentAssignmentId
    && s.csrfToken == issued.csrfToken && s.sessionId == issued.sessionId && s.reauthenticatedUntilMs == Some(nowMs + 300000)
  }

  /** The session goes on under new random values, for the chosen assignment. */
  predicate IsChosen(s: Session, seen: Session, issued: Issued, assignmentId: string) {
    && SameLogin(s, seen) && s.surface == seen.surface && s.currentAssignmentId == Some(assignmentId)
    && s.csrfToken == issued.csrfToken && s.sessionId == issued.sessionId && s.reauthenticatedUntilMs == seen.reauthenticatedUntilMs
  }

  lemma NextSessions(s: Session, issued: Issued, nowMs: int, assignmentId: string)
    ensures IsRaised(Reauthenticated(s, issued, nowMs), s, issued, nowMs)
    ensures IsChosen(Selected(s, issued, assignmentId), s, issued, assignmentId)
  {
  }

  class AccountAccessApplicationService {
    const sessions: RedisAccessSessionStore
    const rates: RedisLoginRate
    var audits: seq<Action>

    constructor (sessions: RedisAccessSessionStore, rates: RedisLoginRate)
      ensures this.sessions == sessions && this.rates == rates && audits == []
    {
      this.sessions, this.rates, audits := sessions, rates, [];
    }

    method Audit(action: Action, works: bool)
      modifies this`audits
      ensures audits == if works then old(audits) + [action] else old(audits)
    {
      if works {
        audits := audits + [action];
      }
    }

    /** A session whose audit record cannot be written is deleted again, and only that one. */
    method AuditAfterSessionChange(surface: Surface, credential: Credential, action: Action, answers: Answers) returns (kept: bool)
      modifies this`audits, sessions`sessions, sessions`accounts
      ensures kept == answers.auditWorks
      ensures audits == if kept then old(audits) + [action] else old(audits)
      ensures kept || !answers.undoWorks ==> sessions.View() == old(sessions.View())
      ensures !kept && answers.undoWorks ==> !Present(sessions.View(), SessionKey(surface, credential))
      ensures forall k :: k != SessionKey(surface, credential) ==>
                (k in sessions.sessions <==> k in old(sessions.sessions))
                && (k in sessions.sessions ==> sessions.sessions[k] == old(sessions.sessions)[k])
    {
      Audit(action, answers.auditWorks);
      if !answers.auditWorks && answers.undoWorks {
        sessions.Delete(surface, credential);
      }
      return answers.auditWorks;
    }

    /**
      A login is granted exactly when every check passes; then the store holds the new session
      for thirty idle minutes and eight hours at most.  A login that was refused leaves no session
      behind, unless the store failed to undo one whose audit record was lost.
    */
    method Login(surface: Surface, identifier: string, rateKey: string, source: string, issued: Issued, answers: Answers)
      returns (outcome: Outcome)
      requires SessionKey(surface, issued.credential) !in sessions.sessions
      modifies this`audits, sessions`sessions, sessions`accounts, rates`identifiers, rates`sources
      ensures outcome.Granted? <==>
                && 1 <= |identifier| <= 64 && 1 <= |source| <= 128
                && ApplyRate(old(rates.View()), Attempt(rateKey, source)).1
                && answers.lookup.Known? && answers.lookup.account.active && answers.passwordValid
                && answers.workforce.Resolved? && answers.workforce.employments > 0 && answers.workforce.assignments != []
                && answers.rolesKnown && answers.auditWorks
      ensures outcome.Granted? ==>
                && GoesOn(sessions.View(), surface, answers.lookup.account, issued)
                && outcome.view.absoluteExpiresAtMs == sessions.nowMs + 28800000 && outcome.view.idleExpiresAtMs == sessions.nowMs + 1800000
                && outcome.view.authenticatedAtMs == sessions.nowMs && outcome.view.reauthenticatedUntilMs == None
                && outcome.view.currentAssignmentId ==
                     if |answers.workforce.assignments| == 1 then Some(answers.workforce.assignments[0]) else None
      ensures outcome == Refused(RateLimited) <==>
                && 1 <= |identifier| <= 64 && 1 <= |source| <= 128
                && !ApplyRate(old(rates.View()), Attempt(rateKey, source)).1 && answers.auditWorks
      ensures outcome == Refused(InvalidCredentials) <==>
                || !(1 <= |identifier| <= 64 && 1 <= |source| <= 128)
                || (&& ApplyRate(old(rates.View()), Attempt(rateKey, source)).1 && answers.auditWorks && !answers.lookup.LookupUnavailable?
                    && (|| answers.lookup.Unknown? || !answers.lookup.account.active || !answers.passwordValid
                        || answers.workforce.NotActive?
                        || (answers.workforce.Resolved? && (answers.workforce.employments == 0 || answers.workforce.assignments == []))))
      ensures outcome.Refused? ==> outcome.failure != AuthenticationRequired
      ensures outcome.Granted? ==>
                var e := LoginCreate(surface, answers.lookup.account, OnlyAssignment(answers.workforce), issued, sessions.nowMs);
                && Apply(old(sessions.View()), CommandOf(e)) == (sessions.View(), Done(true))
                && outcome.credential == issued.credential
                && outcome.view.idleExpiresAtMs == sessions.sessions[CallersKey(e)].expiresAtMs
                && outcome.view.absoluteExpiresAtMs == sessions.sessions[CallersKey(e)].value.absoluteExpiresAtMs
                && audits == old(audits) + [LoginSucceeded]
                && rates.View() == ApplyRate(ApplyRate(old(rates.View()), Attempt(rateKey, source)).0, Success(rateKey, source)).0
      ensures !outcome.Granted? && answers.undoWorks ==> !Present(sessions.View(), SessionKey(surface, issued.credential))
      ensures !outcome.Granted? && outcome.failure != DependencyUnavailable ==> sessions.View() == old(sessions.View())
      ensures !outcome.Granted? ==> audits == old(audits) || audits == old(audits) + [LoginFailed]
    {
      hide Apply, ApplyRate;
      var now := sessions.nowMs;
      if !LengthWithin(identifier, 64) || !LengthWithin(source, 128) {
        return Refused(InvalidCredentials);
      }
      var admitted := rates.AdmitLoginAttempt(rateKey, source);
      if !admitted {
        Audit(LoginFailed, answers.auditWorks);
        return Refused(if answers.auditWorks then RateLimited else DependencyUnavailable);
      }
      if answers.lookup.LookupUnavailable? {
        return Refused(DependencyUnavailable);
      }
      if answers.lookup.Unknown? || !answers.passwordValid || !answers.lookup.account.active {
        Audit(LoginFailed, answers.auditWorks);
        return Refused(if answers.auditWorks then InvalidCredentials else DependencyUnavailable);
      }
      if answers.workforce.WorkforceUnavailable? {
        return Refused(DependencyUnavailable);
      }
      if !AtWork(answers.workforce) {
        Audit(LoginFailed, answers.auditWorks);
        return Refused(if answers.auditWorks then InvalidCredentials else DependencyUnavailable);
      }
      var session := LoginSession(surface, answers.lookup.account, OnlyAssignment(answers.workforce), issued, now);
      if !answers.rolesKnown {
        return Refused(DependencyUnavailable);
      }
      LoginStored(sessions.View(), LoginCreate(surface, answers.lookup.account, OnlyAssignment(answers.workforce), issued, now));
      LoginGoesOn(sessions.View(), LoginCreate(surface, answers.lookup.account, OnlyAssignment(answers.workforce), issued, now));
      hide GoesOn;
      var created := sessions.Create(surface, issued.credential, session, IDLE_TTL_MS);
      var kept := AuditAfterSessionChange(surface, issued.credential, LoginSucceeded, answers);
      if !kept {
        return Refused(DependencyUnavailable);
      }
      rates.RecordLoginSuccess(rateKey, source);
      return Granted(issued.credential, ViewOf(session, now + IDLE_TTL_MS));
    }

    /** Only a stored session of an unchanged, active account at work resolves; nothing but that record's expiry moves. */
    method Resolve(surface: Surface, credential: Credential, touch: bool, answers: Answers) returns (resolution: Resolution)
      modifies sessions`sessions
      ensures var e := if touch then ResolveTouch(surface, credential, sessions.nowMs) else CurrentPeek(surface, credential, sessions.nowMs);
              var (store, reply) := Apply(old(sessions.View()), CommandOf(e));
              && sessions.View() == store
              && (resolution.Accepted? <==>
                    && reply.Found? && answers.lookup.Known? && answers.lookup.account.active
                    && answers.lookup.account.securityRevision == reply.session.securityRevision
                    && answers.lookup.account.workforcePersonId == reply.session.workforcePersonId
                    && answers.workforce.Resolved? && answers.workforce.employments > 0 && answers.workforce.assignments != [])
              && (resolution == Rejected(DependencyUnavailable) <==>
                    && reply.Found?
                    && (answers.lookup.LookupUnavailable? || (answers.workforce.WorkforceUnavailable? && Unchanged(answers.lookup, reply.session))))
              && (resolution.Rejected? ==> resolution.failure == DependencyUnavailable || resolution.failure == AuthenticationRequired)
              && (resolution.Accepted? ==>
                    && resolution.session == reply.session
                    && Live(sessions.View(), SessionKey(surface, credential))
                    && sessions.sessions[SessionKey(surface, credential)].value == resolution.session
                    && resolution.idleExpiresAtMs == Min(reply.session.absoluteExpiresAtMs, sessions.sessions[SessionKey(surface, credential)].expiresAtMs))
      ensures forall k :: k in sessions.sessions ==> k in old(sessions.sessions) && sessions.sessions[k].value == old(sessions.sessions)[k].value
    {
      var now := sessions.nowMs;
      var reply;
      if touch {
        reply := sessions.Touch(surface, credential, IDLE_TTL_MS, now);
      } else {
        reply := sessions.Peek(surface, credential, now);
      }
      if !reply.Found? || reply.session.absoluteExpiresAtMs <= now {
        return Rejected(AuthenticationRequired);
      }
      if answers.lookup.LookupUnavailable? {
        return Rejected(DependencyUnavailable);
      }
      if !Unchanged(answers.lookup, reply.session) {
        return Rejected(AuthenticationRequired);
      }
      if answers.workforce.WorkforceUnavailable? {
        return Rejected(DependencyUnavailable);
      }
      if !AtWork(answers.workforce) {
        return Rejected(AuthenticationRequired);
      }
      var idleExpiresAtMs := if touch
        then Min(reply.session.absoluteExpiresAtMs, now + IDLE_TTL_MS)
        else Min(reply.session.absoluteExpiresAtMs, now + reply.ttlMs);
      return Accepted(reply.session, idleExpiresAtMs);
    }

    /** Replaces a resolved session's credential, as both re-authentication and assignment selection end. */
    method Replace(surface: Surface, previous: Credential, issued: Issued, next: Session, action: Action, answers: Answers)
      returns (outcome: Outcome)
      requires SessionKey(surface, issued.credential) !in sessions.sessions && previous != issued.credential
      modifies this`audits, sessions`sessions, sessions`accounts
      ensures outcome.Granted? <==>
                && answers.rolesKnown && answers.auditWorks && RemainingTtl(next, sessions.nowMs) > 0
                && Apply(old(sessions.View()), Op.Rotate(surface, previous, issued.credential, next,
                                                         RemainingTtl(next, sessions.nowMs), sessions.nowMs)).1 == Done(true)
      ensures outcome.Granted? ==>
                && sessions.nowMs < next.absoluteExpiresAtMs
                && Apply(old(sessions.View()), Op.Rotate(surface, previous, issued.credential, next,
                                                         RemainingTtl(next, sessions.nowMs), sessions.nowMs)) == (sessions.View(), Done(true))
                && outcome.credential == issued.credential
                && Live(sessions.View(), SessionKey(surface, issued.credential))
                && sessions.sessions[SessionKey(surface, issued.credential)].value == next
                && outcome.view == ViewOf(next, sessions.sessions[SessionKey(surface, issued.credential)].expiresAtMs)
                && !Present(sessions.View(), SessionKey(surface, previous))
                && audits == old(audits) + [action]
      ensures !outcome.Granted? && answers.undoWorks ==> !Present(sessions.View(), SessionKey(surface, issued.credential))
      ensures !outcome.Granted? ==> audits == old(audits)
      ensures !outcome.Granted? && outcome.failure != DependencyUnavailable ==> sessions.View() == old(sessions.View())
    {
      var now := sessions.nowMs;
      var remainingTtlMs := RemainingTtl(next, now);
      if remainingTtlMs <= 0 {
        return Refused(AuthenticationRequired);
      }
      if !answers.rolesKnown {
        return Refused(DependencyUnavailable);
      }
      var reply := sessions.Rotate(surface, previous, issued.credential, next, remainingTtlMs, now);
      if reply != Done(true) {
        return Refused(AuthenticationRequired);
      }
      var kept := AuditAfterSessionChange(surface, issued.credential, action, answers);
      if !kept {
        return Refused(DependencyUnavailable);
      }
      return Granted(issued.credential, ViewOf(next, now + remainingTtlMs));
    }

    /** The rate limit of the account and the password itself stand between a resolved session and its re-authentication. */
    method CheckPassword(accountId: AccountId, source: string, answers: Answers) returns (failure: Option<Failure>)
      modifies this`audits, rates`identifiers, rates`sources
      ensures failure.None? <==> ApplyRate(old(rates.View()), Attempt("reauthentication:" + accountId, source)).1 && answers.passwordValid
      ensures rates.View() == ApplyRate(old(rates.View()), Attempt("reauthentication:" + accountId, source)).0
      ensures audits == if failure.Some? && answers.auditWorks then old(audits) + [ReauthenticationFailed] else old(audits)
    {
      ReauthenticationKeyIs(accountId);
      hide ApplyRate, ReauthenticationKey;
      var admitted := rates.AdmitLoginAttempt(ReauthenticationKey(accountId), source);
      if admitted && answers.passwordValid {
        return None;
      }
      Audit(ReauthenticationFailed, answers.auditWorks);
      return Some(if !answers.auditWorks then DependencyUnavailable else if admitted then InvalidCredentials else RateLimited);
    }

    /**
      Re-authentication keeps the login's end, raises the flag for five minutes and retires the
      old credential, but only for the right password.
    */
    method Reauthenticate(surface: Surface, credential: Credential, source: string, issued: Issued, answers: Answers)
      returns (outcome: Outcome)
      requires SessionKey(surface, issued.credential) !in sessions.sessions && credential != issued.credential
      modifies this`audits, sessions`sessions, sessions`accounts, rates`identifiers, rates`sources
      ensures outcome.Granted? ==>
                var old_ := old(sessions.View());
                var k := SessionKey(surface, credential);
                && answers.passwordValid && Present(old_, k) && !Present(sessions.View(), k)
                && Unchanged(answers.lookup, old_.sessions[k].value)
                && Live(sessions.View(), SessionKey(surface, issued.credential))
                && IsRaised(sessions.sessions[SessionKey(surface, issued.credential)].value, old_.sessions[k].value, issued, sessions.nowMs)
                && outcome.view == ViewOf(Reauthenticated(old_.sessions[k].value, issued, sessions.nowMs),
                                          sessions.sessions[SessionKey(surface, issued.credential)].expiresAtMs)
                && audits == old(audits) + [ReauthenticationSucceeded]
                && var rateKey := "reauthentication:" + old_.sessions[k].value.accountId;
                   var (admission, admitted) := ApplyRate(old(rates.View()), Attempt(rateKey, source));
                   admitted && rates.View() == ApplyRate(admission, Success(rateKey, source)).0
      ensures var old_ := old(sessions.View());
              var k := SessionKey(surface, credential);
              && LengthWithin(source, 128) && Live(old_, k) && Unchanged(answers.lookup, old_.sessions[k].value) && AtWork(answers.workforce)
              && Replaceable(old_, surface, credential, Reauthenticated(old_.sessions[k].value, issued, sessions.nowMs))
              && ApplyRate(old(rates.View()), Attempt("reauthentication:" + old_.sessions[k].value.accountId, source)).1
              && answers.passwordValid && answers.rolesKnown && answers.auditWorks
              ==> outcome.Granted?
      ensures !outcome.Granted? && answers.undoWorks ==> !Present(sessions.View(), SessionKey(surface, issued.credential))
      ensures !outcome.Granted? ==> audits == old(audits) || audits == old(audits) + [ReauthenticationFailed]
    {
      TouchFinds(sessions.View(), CommandOf(ResolveTouch(surface, credential, sessions.nowMs)));
      ghost var before := sessions.View();
      hide Apply, ApplyRate, ReauthenticationKey, ViewOf, Reauthenticated, Live, Replaceable;
      if !LengthWithin(source, 128) {
        return Refused(InvalidCredentials);
      }
      var resolution := Resolve(surface, credential, true, answers);
      if resolution.Rejected? {
        return Refused(resolution.failure);
      }
      var accountId := resolution.session.accountId;
      ReauthenticationKeyIs(accountId);
      var failure := CheckPassword(accountId, source, answers);
      if failure.Some? {
        return Refused(failure.value);
      }
      var next := Reauthenticated(resolution.session, issued, sessions.nowMs);
      NextSessions(resolution.session, issued, sessions.nowMs, "");
      hide IsRaised;
      if Replaceable(before, surface, credential, next) {
        ReplaceableRotates(before, surface, credential, issued.credential, next);
      }
      outcome := Replace(surface, credential, issued, next, ReauthenticationSucceeded, answers);
      if outcome.Granted? {
        rates.RecordLoginSuccess(ReauthenticationKey(accountId), source);
      }
    }

    /** Selecting one of the person's own assignments keeps the login's end and the flag, and retires the old credential. */
    method SelectAssignment(surface: Surface, credential: Credential, assignmentId: string, issued: Issued, answers: Answers)
      returns (outcome: Outcome)
      requires SessionKey(surface, issued.credential) !in sessions.sessions && credential != issued.credential
      modifies this`audits, sessions`sessions, sessions`accounts
      ensures outcome.Granted? ==>
                var old_ := old(sessions.View());
                var k := SessionKey(surface, credential);
                && answers.workforce.Resolved? && assignmentId in answers.workforce.assignments
                && Present(old_, k) && !Present(sessions.View(), k)
                && outcome.view.absoluteExpiresAtMs == old_.sessions[k].value.absoluteExpiresAtMs
                && outcome.view.reauthenticatedUntilMs == old_.sessions[k].value.reauthenticatedUntilMs
                && outcome.view.currentAssignmentId == Some(assignmentId)
                && Live(sessions.View(), SessionKey(surface, issued.credential))
                && IsChosen(sessions.sessions[SessionKey(surface, issued.credential)].value, old_.sessions[k].value, issued, assignmentId)
                && outcome.view.idleExpiresAtMs == sessions.sessions[SessionKey(surface, issued.credential)].expiresAtMs
                && audits == old(audits) + [AssignmentSelected]
      ensures var old_ := old(sessions.View());
              var k := SessionKey(surface, credential);
              && Live(old_, k) && Unchanged(answers.lookup, old_.sessions[k].value) && AtWork(answers.workforce)
              && assignmentId in answers.workforce.assignments
              && Replaceable(old_, surface, credential, Selected(old_.sessions[k].value, issued, assignmentId))
              && answers.rolesKnown && answers.auditWorks
              ==> outcome.Granted?
      ensures !outcome.Granted? && answers.undoWorks ==> !Present(sessions.View(), SessionKey(surface, issued.credential))
      ensures !outcome.Granted? ==> audits == old(audits)
    {
      ghost var before := sessions.View();
      if Live(before, SessionKey(surface, credential)) {
        var next := Selected(before.sessions[SessionKey(surface, credential)].value, issued, assignmentId);
        if Replaceable(before, surface, credential, next) {
          ReplaceableRotates(before, surface, credential, issued.credential, next);
        }
      }
      var resolution := Resolve(surface, credential, true, answers);
      if resolution.Rejected? {
        return Refused(resolution.failure);
      }
      if assignmentId !in answers.workforce.assignments {
        return Refused(AuthenticationRequired);
      }
      NextSessions(resolution.session, issued, 0, assignmentId);
      hide IsChosen;
      outcome := Replace(surface, credential, issued, Selected(resolution.session, issued, assignmentId), AssignmentSelected, answers);
    }

    /** Logging out always ends the session, whichever of its two records the audit log takes. */
    method Logout(surface: Surface, credential: Option<Credential>, requestAudited: bool, logoutAudited: bool)
      modifies this`audits, sessions`sessions, sessions`accounts
      ensures credential.None? ==> sessions.View() == old(sessions.View()) && audits == old(audits)
      ensures credential.Some? ==>
                var k := SessionKey(surface, credential.value);
                && !Present(sessions.View(), k)
                && (forall other :: other != k ==>
                      (other in sessions.sessions <==> other in old(sessions.sessions))
                      && (other in sessions.sessions ==> sessions.sessions[other] == old(sessions.sessions)[other]))
                && audits == old(audits) + (if requestAudited then [LogoutRequested] else []) + (if logoutAudited then [LoggedOut] else [])
    {
      if credential.None? {
        return;
      }
      var observed := sessions.Peek(surface, credential.value, sessions.nowMs);
      Audit(LogoutRequested, requestAudited);
      sessions.Delete(surface, credential.value);
      Audit(LoggedOut, logoutAudited);
    }
  }
}
