/**
  What administration commands on accounts do when they are let through, and why they are refused
  (apps/api/src/workforce-administration/facade.ts).
*/
module AdministratorOutcomes {
  import opened Basics
  import opened Administrators

  // ---------------------------------------------------------------- who may begin

  datatype Refusal =
    | NoSuchAccount | DeactivatesItself | AdministratorsOnly | CrmAdministratorsOnly | NotForAdministrators | OwnAdministratorAccountOnly
    | Outdated | NotReauthenticated | NeedsAdministrator

  /** A reason to refuse the command. */
  predicate Refused(admins: set<Person>, s: State, principal: Principal, command: Command, targetIsCrm: bool, reason: Refusal) {
    var known, own, actor := command.target in s.accounts, command.target == principal.accountId, principal.person in admins;
    var target := known && s.accounts[command.target].person in admins;
    match reason
    case NoSuchAccount => !known
    case DeactivatesItself => command.kind.Deactivate? && own
    case AdministratorsOnly => target && !actor
    case CrmAdministratorsOnly => targetIsCrm && !actor && !own
    case NotForAdministrators => command.kind.UpdateAccount? && target
    case OwnAdministratorAccountOnly => command.kind.UpdateSystemAccount? && !(target && own)
    case Outdated => known && s.accounts[command.target].revision != command.expectedRevision
    case NotReauthenticated => (command.kind.UpdateSystemAccount? || command.kind.ResetPassword?) && !principal.reauthenticated
    case NeedsAdministrator => command.kind.SetCrmAdministrator? && !actor
  }

  /** A command is let through if and only if it creates an account or there is no reason to refuse it. */
  lemma PermittedExactly(admins: set<Person>, s: State, principal: Principal, command: Command, targetIsCrm: bool)
    ensures Permitted(admins, s, principal, command, targetIsCrm) <==>
              command.kind.CreateAccount? || forall reason :: !Refused(admins, s, principal, command, targetIsCrm, reason)
  {
    if !command.kind.CreateAccount? && (forall reason :: !Refused(admins, s, principal, command, targetIsCrm, reason)) {
      assert !Refused(admins, s, principal, command, targetIsCrm, NoSuchAccount) && !Refused(admins, s, principal, command, targetIsCrm, Outdated);
      assert !Refused(admins, s, principal, command, targetIsCrm, DeactivatesItself)
        && !Refused(admins, s, principal, command, targetIsCrm, AdministratorsOnly)
        && !Refused(admins, s, principal, command, targetIsCrm, CrmAdministratorsOnly)
        && !Refused(admins, s, principal, command, targetIsCrm, NotForAdministrators)
        && !Refused(admins, s, principal, command, targetIsCrm, OwnAdministratorAccountOnly)
        && !Refused(admins, s, principal, command, targetIsCrm, NotReauthenticated)
        && !Refused(admins, s, principal, command, targetIsCrm, NeedsAdministrator);
    }
  }

  // ---------------------------------------------------------------- counting under the lock

  /** Before step i this transaction read the account, and it was then an active one of a system administrator. */
  ghost predicate CountedBefore(admins: set<Person>, states: seq<State>, events: seq<Event>, i: nat, id: TransactionId, account: AccountId)
    requires |states| == |events| + 1 && i <= |events|
  {
    exists j :: 0 <= j < i && events[j] == Read(id, account) && WasAdministrator(admins, states[j], account)
  }

  predicate WasAdministrator(admins: set<Person>, s: State, account: AccountId) {
    account in s.accounts && s.accounts[account].active && s.accounts[account].person in admins
  }

  /** Nothing was counted for a transaction that has not begun to count. */
  predicate YetToCount(s: State, id: TransactionId) { id in s.transactions ==> s.transactions[id].phase.Opened? }

  lemma CountStep(admins: set<Person>, s: State, e: Event, id: TransactionId)
    requires Enabled(admins, s, e) && id in Step(admins, s, e).transactions
    ensures var t := Step(admins, s, e);
            && (t.transactions[id].phase.Counting? ==>
                  if e == Lock(id) then YetToCount(s, id) && t.transactions[id].phase.seen == {}
                  else id in s.transactions && s.transactions[id].phase.Counting?
                       && t.transactions[id].phase.seen == s.transactions[id].phase.seen
                            + if e.Read? && e.id == id && WasAdministrator(admins, s, e.account) then {e.account} else {})
            && (YetToCount(t, id) ==> YetToCount(s, id) && !(e.Read? && e.id == id))
  {
  }

  lemma TransactionsStay(admins: set<Person>, s: State, e: Event, id: TransactionId)
    requires Enabled(admins, s, e) && id in s.transactions
    ensures id in Step(admins, s, e).transactions
  {
  }

  /** The accounts counted are those, and a transaction yet to count has counted none. */
  lemma {:induction false} SeenExactly(
      admins: set<Person>, states: seq<State>, events: seq<Event>, i: nat, id: TransactionId, account: AccountId)
    requires Run(admins, states, events) && i <= |events|
    ensures id in states[i].transactions && states[i].transactions[id].phase.Counting? ==>
              (account in states[i].transactions[id].phase.seen <==> CountedBefore(admins, states, events, i, id, account))
    ensures YetToCount(states[i], id) ==> !CountedBefore(admins, states, events, i, id, account)
    decreases i
  {
    hide Step, Enabled, WasAdministrator;
    if i > 0 {
      SeenExactly(admins, states, events, i - 1, id, account);
      if id in states[i].transactions { CountStep(admins, states[i - 1], events[i - 1], id); }
      else if id in states[i - 1].transactions { TransactionsStay(admins, states[i - 1], events[i - 1], id); }
      if events[i - 1].Read? && events[i - 1].id == id { ReadsOwn(admins, states[i - 1], events[i - 1], id); }
      hide Run;
      assert CountedBefore(admins, states, events, i, id, account) <==>
             CountedBefore(admins, states, events, i - 1, id, account)
             || (events[i - 1] == Read(id, account) && WasAdministrator(admins, states[i - 1], account));
    }
  }

  lemma ReadsOwn(admins: set<Person>, s: State, e: Event, id: TransactionId)
    requires Enabled(admins, s, e) && e.Read? && e.id == id
    ensures id in s.transactions && s.transactions[id].phase.Counting?
  {
  }

  lemma DecideStep(admins: set<Person>, s: State, e: Event)
    requires Enabled(admins, s, e) && e.Decide?
    ensures e.id in s.transactions && s.transactions[e.id].phase.Counting?
    ensures var t := Step(admins, s, e);
            && e.id in t.transactions && t.accounts == s.accounts
            && t.transactions[e.id].phase == if |s.transactions[e.id].phase.seen| >= 2 then Counted else Closed(false)
  {
  }

  lemma TwoOf<T>(all: set<T>)
    ensures |all| >= 2 <==> exists a, b :: a in all && b in all && a != b
  {
    if |all| >= 2 {
      var a :| a in all;
      assert |all - {a}| >= 1;
      var b :| b in all - {a};
    }
    if a, b :| a in all && b in all && a != b {
      SubsetSize({a, b}, all);
    }
  }

  /** A deactivation goes on if and only if two different active accounts of system administrators were counted, and is refused otherwise. */
  lemma DecidedExactly(admins: set<Person>, states: seq<State>, events: seq<Event>, i: nat)
    requires Run(admins, states, events) && i < |events| && events[i].Decide?
    ensures var id := events[i].id;
            && id in states[i + 1].transactions
            && (states[i + 1].transactions[id].phase == Counted <==>
                  exists a, b :: a != b && CountedBefore(admins, states, events, i, id, a) && CountedBefore(admins, states, events, i, id, b))
            && (states[i + 1].transactions[id].phase != Counted ==> states[i + 1].transactions[id].phase == Closed(false))
  {
    var id := events[i].id;
    DecideStep(admins, states[i], events[i]);
    var seen := states[i].transactions[id].phase.seen;
    forall account ensures account in seen <==> CountedBefore(admins, states, events, i, id, account) {
      SeenExactly(admins, states, events, i, id, account);
    }
    TwoOf(seen);
    hide Step, Enabled, CountedBefore;
  }

  // ---------------------------------------------------------------- what is written

  /** The account is still as the command needs it. */
  predicate StillFits(s: State, t: Transaction) {
    match t.kind
    case CreateAccount(_) => t.target !in s.accounts
    case SetCrmAdministrator => true
    case ResetPassword => t.target in s.accounts && s.accounts[t.target].securityRevision == t.securityRevision
    case _ => t.target in s.accounts && s.accounts[t.target].revision == t.revision
  }

  /** A command writes if and only if the account has kept the revision it was read at, a password the security revision. */
  lemma WrittenExactly(admins: set<Person>, states: seq<State>, events: seq<Event>, i: nat)
    requires Run(admins, states, events) && i < |events| && events[i].Write?
    ensures var id := events[i].id;
            && id in states[i].transactions && id in states[i + 1].transactions
            && states[i + 1].transactions[id].phase == (if StillFits(states[i], states[i].transactions[id]) then Written else Closed(false))
            && states[i + 1].accounts == states[i].accounts
  {
    assert Enabled(admins, states[i], events[i]);
  }

  /** The revisions a command goes by are those of its account when it began, the one it was given among them. */
  lemma OpenedExactly(admins: set<Person>, states: seq<State>, events: seq<Event>, i: nat)
    requires Run(admins, states, events) && i < |events| && events[i].Open? && !events[i].command.kind.CreateAccount?
    ensures var command := events[i].command;
            && events[i].id in states[i + 1].transactions && command.target in states[i].accounts
            && var t, account := states[i + 1].transactions[events[i].id], states[i].accounts[command.target];
               && t.kind == command.kind && t.target == command.target && t.actor == events[i].principal
               && t.revision == account.revision == command.expectedRevision && t.securityRevision == account.securityRevision
               && (t.targetIsAdministrator <==> account.person in admins)
  {
    assert Enabled(admins, states[i], events[i]);
  }

  /** The account as the command leaves it. */
  predicate LeftAs(before: Account, after: Account, kind: Kind) {
    && after.person == before.person
    && after.active == (if kind.Deactivate? then false else if kind.Reactivate? then true else before.active)
    && after.revision == before.revision + (if kind.ReleasePhone? || kind.SetCrmAdministrator? then 0 else 1)
    && after.securityRevision == before.securityRevision + if kind.Deactivate? || kind.Reactivate? || kind.ResetPassword? then 1 else 0
  }

  /** A commit leaves its one account as its kind says, a created one active, and every other account alone. */
  lemma CommittedExactly(admins: set<Person>, states: seq<State>, events: seq<Event>, i: nat)
    requires Run(admins, states, events) && i < |events| && events[i].Commit? && ActiveAdministrators(admins, states[0]) != {}
    ensures var s, u, id := states[i], states[i + 1], events[i].id;
            && id in s.transactions && InPhase(u, id, Closed(true))
            && var t := s.transactions[id];
               && (forall a :: a != t.target ==> (a in u.accounts <==> a in s.accounts) && (a in s.accounts ==> u.accounts[a] == s.accounts[a]))
               && t.target in u.accounts
               && (t.kind.CreateAccount? ==> t.target !in s.accounts && u.accounts[t.target] == Account(t.kind.person, true, 0, 0))
               && (!t.kind.CreateAccount? ==> t.target in s.accounts && LeftAs(s.accounts[t.target], u.accounts[t.target], t.kind))
  {
    RunSound(admins, states, events, i);
    assert Enabled(admins, states[i], events[i]) && TransactionSound(admins, states[i], events[i].id);
    hide Sound, TransactionSound, RowsSound, ActiveAdministrators;
  }
}
