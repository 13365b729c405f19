/**
  Administration commands that touch accounts (apps/api/src/workforce-administration/facade.ts), as
  concurrent transactions: the system never loses its last active system administrator.
*/
module Administrators {
  import opened Basics

  // Reads see what has committed; a row another transaction has written makes a writer wait; the
  // advisory lock of the system administrator set is held to the end of the outer transaction.
  // Who is a system administrator is a fixed set of persons: RoleGrants shows that no
  // command changes it.  An account never changes its person.  Whether the target holds the other role,
  // CRM administrator, is the grants' answer at the time of asking, a part of the event.

  type AccountId = string
  type Person = string
  type TransactionId = nat

  datatype Account = Account(person: Person, active: bool, revision: nat, securityRevision: nat)

  datatype Kind =
    | Deactivate | Reactivate | UpdateAccount | UpdateSystemAccount
    | ResetPassword | ReleasePhone | SetCrmAdministrator | CreateAccount(person: Person)

  datatype Command = Command(kind: Kind, target: AccountId, expectedRevision: nat)

  /** Accounts are read one at a time while the set is locked; `seen` are the active administrators among them. */
  datatype Phase = Opened | Counting(seen: set<AccountId>) | Counted | Written | Closed(committed: bool)

  /** The revisions are those the account had when it was read. */
  datatype Transaction = Transaction(
    kind: Kind, target: AccountId, revision: nat, securityRevision: nat, targetIsAdministrator: bool, actor: Principal, phase: Phase)

  datatype State = State(accounts: map<AccountId, Account>, holder: Option<TransactionId>, transactions: map<TransactionId, Transaction>)

  datatype Principal = Principal(accountId: AccountId, person: Person, reauthenticated: bool)

  datatype Event =
    | Open(id: TransactionId, principal: Principal, command: Command, targetIsCrm: bool)
    | Lock(id: TransactionId)
    | Read(id: TransactionId, account: AccountId)
    | Decide(id: TransactionId)
    | Write(id: TransactionId)
    | Commit(id: TransactionId)
    | Rollback(id: TransactionId)

  /** The guards before anything is written; a command that fails them does nothing. */
  predicate Permitted(admins: set<Person>, s: State, principal: Principal, command: Command, targetIsCrm: bool) {
    command.kind.CreateAccount? ||
    (command.target in s.accounts
     && var account, own, actorIsAdministrator := s.accounts[command.target], command.target == principal.accountId, principal.person in admins;
     && (account.person in admins ==> actorIsAdministrator)
     && (targetIsCrm ==> actorIsAdministrator || own)
     && account.revision == command.expectedRevision
     && match command.kind
        case Deactivate => !own
        case UpdateAccount => account.person !in admins
        case UpdateSystemAccount => account.person in admins && principal.reauthenticated && own
        case ResetPassword => principal.reauthenticated
        case SetCrmAdministrator => actorIsAdministrator
        case _ => true)
  }

  function Opening(admins: set<Person>, s: State, principal: Principal, command: Command): Transaction
    requires command.kind.CreateAccount? || command.target in s.accounts
  {
    if command.kind.CreateAccount? then Transaction(command.kind, command.target, 0, 0, false, principal, Opened)
    else
      var a := s.accounts[command.target];
      Transaction(command.kind, command.target, a.revision, a.securityRevision, a.person in admins, principal, Opened)
  }

  predicate InPhase(s: State, id: TransactionId, phase: Phase) { id in s.transactions && s.transactions[id].phase == phase }

  predicate NeedsLock(t: Transaction) { t.kind.Deactivate? && t.targetIsAdministrator }

  /** Releasing a phone and setting the CRM administrator leave the account's row alone. */
  predicate WritesRow(t: Transaction) { !t.kind.ReleasePhone? && !t.kind.SetCrmAdministrator? }

  predicate HasWritten(t: Transaction) { WritesRow(t) && t.phase.Written? }

  /** Nobody else has written the row, if this one is to. */
  predicate RowFree(s: State, id: TransactionId)
    requires id in s.transactions
  {
    WritesRow(s.transactions[id]) ==>
      forall other :: other in s.transactions && other != id && HasWritten(s.transactions[other]) ==>
        s.transactions[other].target != s.transactions[id].target
  }

  predicate Enabled(admins: set<Person>, s: State, e: Event) {
    match e
    case Open(id, principal, command, targetIsCrm) => id !in s.transactions && Permitted(admins, s, principal, command, targetIsCrm)
    case Lock(id) => InPhase(s, id, Opened) && NeedsLock(s.transactions[id]) && s.holder.None?
    case Read(id, _) => id in s.transactions && s.transactions[id].phase.Counting?
    case Decide(id) => id in s.transactions && s.transactions[id].phase.Counting?
    case Write(id) =>
      id in s.transactions && RowFree(s, id)
      && s.transactions[id].phase == if NeedsLock(s.transactions[id]) then Counted else Opened
    case Commit(id) => InPhase(s, id, Written)
    case Rollback(id) => id in s.transactions && !s.transactions[id].phase.Closed?
  }

  predicate ActiveAdministrator(admins: set<Person>, s: State, account: AccountId) {
    account in s.accounts && s.accounts[account].active && s.accounts[account].person in admins
  }

  function ActiveAdministrators(admins: set<Person>, s: State): set<AccountId> {
    set account | account in s.accounts && s.accounts[account].active && s.accounts[account].person in admins
  }

  function Enter(s: State, id: TransactionId, phase: Phase): State
    requires id in s.transactions
  {
    s.(transactions := s.transactions[id := s.transactions[id].(phase := phase)])
  }

  /** The end of the outer transaction gives the lock back. */
  function Close(s: State, id: TransactionId, committed: bool): State
    requires id in s.transactions
  {
    Enter(s, id, Closed(committed)).(holder := if s.holder == Some(id) then None else s.holder)
  }

  function Applied(accounts: map<AccountId, Account>, t: Transaction): map<AccountId, Account> {
    if t.kind.CreateAccount? then accounts[t.target := Account(t.kind.person, true, 0, 0)]
    else if t.target in accounts && WritesRow(t) then
      var a := accounts[t.target].(revision := accounts[t.target].revision + 1);
      accounts[t.target :=
        match t.kind
        case Deactivate => a.(active := false, securityRevision := a.securityRevision + 1)
        case Reactivate => a.(active := true, securityRevision := a.securityRevision + 1)
        case ResetPassword => a.(securityRevision := a.securityRevision + 1)
        case _ => a]
    else accounts
  }

  /** The row is as this command needs it: absent, untouched, or, for a password, of the security revision read. */
  predicate RowFits(accounts: map<AccountId, Account>, t: Transaction) {
    match t.kind
    case CreateAccount(_) => t.target !in accounts
    case SetCrmAdministrator => true
    case ResetPassword => t.target in accounts && accounts[t.target].securityRevision == t.securityRevision
    case _ => t.target in accounts && accounts[t.target].revision == t.revision
  }

  function Step(admins: set<Person>, s: State, e: Event): State
    requires Enabled(admins, s, e)
  {
    match e
    case Open(id, principal, command, _) => s.(transactions := s.transactions[id := Opening(admins, s, principal, command)])
    case Lock(id) => Enter(s, id, Counting({})).(holder := Some(id))
    case Read(id, account) =>
      var seen := s.transactions[id].phase.seen;
      Enter(s, id, Counting(if ActiveAdministrator(admins, s, account) then seen + {account} else seen))
    case Decide(id) =>
      if |s.transactions[id].phase.seen| <= 1 then Close(s, id, false) else Enter(s, id, Counted)
    case Write(id) =>
      if RowFits(s.accounts, s.transactions[id]) then Enter(s, id, Written) else Close(s, id, false)
    case Commit(id) => Close(s, id, true).(accounts := Applied(s.accounts, s.transactions[id]))
    case Rollback(id) => Close(s, id, false)
  }

  // ---------------------------------------------------------------- the invariant

  /** What a transaction under way has made sure of. */
  ghost predicate TransactionSound(admins: set<Person>, s: State, id: TransactionId)
    requires id in s.transactions
  {
    var t := s.transactions[id];
    && (!t.kind.CreateAccount? ==> t.target in s.accounts && t.targetIsAdministrator == (s.accounts[t.target].person in admins))
    && (t.kind.CreateAccount? ==> !t.targetIsAdministrator && (t.phase.Written? ==> t.target !in s.accounts))
    && (t.targetIsAdministrator ==> t.actor.person in admins)
    && (t.kind.Deactivate? ==> t.actor.accountId != t.target)
    && (t.phase.Counting? || t.phase.Counted? ==> NeedsLock(t))
    && (NeedsLock(t) && (t.phase.Counting? || t.phase.Counted? || t.phase.Written?) ==> s.holder == Some(id))
    && (t.phase.Counting? ==> t.phase.seen <= ActiveAdministrators(admins, s))
    && (NeedsLock(t) && (t.phase.Counted? || t.phase.Written?) ==> |ActiveAdministrators(admins, s)| >= 2)
  }

  ghost predicate RowsSound(s: State) {
    forall a, b :: a in s.transactions && b in s.transactions && a != b && HasWritten(s.transactions[a]) && HasWritten(s.transactions[b]) ==>
      s.transactions[a].target != s.transactions[b].target
  }

  ghost predicate Sound(admins: set<Person>, s: State) {
    && ActiveAdministrators(admins, s) != {}
    && RowsSound(s)
    && forall id :: id in s.transactions ==> TransactionSound(admins, s, id)
  }

  /** A commit that is not the deactivation of an administrator takes no active administrator away. */
  lemma OthersKeepAdministrators(admins: set<Person>, s: State, id: TransactionId)
    requires Sound(admins, s) && InPhase(s, id, Written) && !NeedsLock(s.transactions[id])
    ensures ActiveAdministrators(admins, s) <= ActiveAdministrators(admins, Step(admins, s, Commit(id)))
  {
    assert TransactionSound(admins, s, id);
  }

  /** A deactivation leaves all the other administrators. */
  lemma DeactivationLeavesOthers(admins: set<Person>, s: State, id: TransactionId)
    requires Sound(admins, s) && InPhase(s, id, Written) && NeedsLock(s.transactions[id])
    ensures ActiveAdministrators(admins, Step(admins, s, Commit(id))) == ActiveAdministrators(admins, s) - {s.transactions[id].target}
    ensures ActiveAdministrators(admins, Step(admins, s, Commit(id))) != {}
  {
    assert TransactionSound(admins, s, id);
    var before, after := ActiveAdministrators(admins, s), ActiveAdministrators(admins, Step(admins, s, Commit(id)));
    assert after == before - {s.transactions[id].target};
    if after == {} {
      SubsetSize(before, {s.transactions[id].target});
    }
  }

  /** Nothing but a commit changes the accounts. */
  lemma OnlyCommitsChange(admins: set<Person>, s: State, e: Event)
    requires Enabled(admins, s, e) && !e.Commit?
    ensures Step(admins, s, e).accounts == s.accounts
  {
  }

  /** An event leaves every other transaction as it was. */
  lemma OwnTransactionOnly(admins: set<Person>, s: State, e: Event, id: TransactionId)
    requires Enabled(admins, s, e) && id != e.id
    ensures id in Step(admins, s, e).transactions <==> id in s.transactions
    ensures id in s.transactions ==> Step(admins, s, e).transactions[id] == s.transactions[id]
    ensures s.holder == Some(id) ==> Step(admins, s, e).holder == Some(id)
  {
  }

  lemma OwnTransactionSound(admins: set<Person>, s: State, e: Event)
    requires Sound(admins, s) && Enabled(admins, s, e) && !e.Commit?
    ensures e.id in Step(admins, s, e).transactions && TransactionSound(admins, Step(admins, s, e), e.id)
  {
    var t := Step(admins, s, e);
    assert t.accounts == s.accounts;
    assert ActiveAdministrators(admins, t) == ActiveAdministrators(admins, s);
    if e.id in s.transactions {
      assert TransactionSound(admins, s, e.id);
      if e.Decide? { SubsetSize(s.transactions[e.id].phase.seen, ActiveAdministrators(admins, s)); }
    }
  }

  lemma OtherTransactionSound(admins: set<Person>, s: State, e: Event, id: TransactionId)
    requires Sound(admins, s) && Enabled(admins, s, e) && !e.Commit? && id != e.id && id in s.transactions
    ensures id in Step(admins, s, e).transactions && TransactionSound(admins, Step(admins, s, e), id)
  {
    OwnTransactionOnly(admins, s, e, id);
    OnlyCommitsChange(admins, s, e);
    hide Step, Enabled;
    assert TransactionSound(admins, s, id);
    assert ActiveAdministrators(admins, Step(admins, s, e)) == ActiveAdministrators(admins, s);
  }

  /** A commit leaves every account its person and adds at most the one it creates. */
  lemma CommitKeepsPersons(admins: set<Person>, s: State, id: TransactionId)
    requires InPhase(s, id, Written)
    ensures var t := Step(admins, s, Commit(id));
            forall a :: a in s.accounts && !(s.transactions[id].kind.CreateAccount? && a == s.transactions[id].target) ==>
              a in t.accounts && t.accounts[a].person == s.accounts[a].person
    ensures forall a :: a in Step(admins, s, Commit(id)).accounts ==> a in s.accounts || (s.transactions[id].kind.CreateAccount? && a == s.transactions[id].target)
  {
  }

  lemma CommitKeepsOther(admins: set<Person>, s: State, e: Event, id: TransactionId)
    requires Sound(admins, s) && Enabled(admins, s, e) && e.Commit? && id in s.transactions && id != e.id
    ensures TransactionSound(admins, Step(admins, s, e), id)
  {
    assert TransactionSound(admins, s, id) && TransactionSound(admins, s, e.id);
    OwnTransactionOnly(admins, s, e, id);
    CommitKeepsPersons(admins, s, e.id);
    assert NeedsLock(s.transactions[id]) && s.holder == Some(id) ==> !NeedsLock(s.transactions[e.id]);
    if !NeedsLock(s.transactions[e.id]) {
      OthersKeepAdministrators(admins, s, e.id);
      SubsetSize(ActiveAdministrators(admins, s), ActiveAdministrators(admins, Step(admins, s, e)));
    }
    hide ActiveAdministrators, Step, Enabled;
  }

  lemma CommitKeepsTransaction(admins: set<Person>, s: State, e: Event, id: TransactionId)
    requires Sound(admins, s) && Enabled(admins, s, e) && e.Commit? && id in s.transactions
    ensures TransactionSound(admins, Step(admins, s, e), id)
  {
    if id != e.id {
      CommitKeepsOther(admins, s, e, id);
    } else {
      assert TransactionSound(admins, s, id);
      CommitKeepsPersons(admins, s, e.id);
      hide ActiveAdministrators;
    }
  }

  lemma StepKeepsRows(admins: set<Person>, s: State, e: Event)
    requires RowsSound(s) && Enabled(admins, s, e)
    ensures RowsSound(Step(admins, s, e))
  {
  }

  lemma StepKeepsSound(admins: set<Person>, s: State, e: Event)
    requires Sound(admins, s) && Enabled(admins, s, e)
    ensures Sound(admins, Step(admins, s, e))
  {
    var t := Step(admins, s, e);
    StepKeepsRows(admins, s, e);
    if e.Commit? {
      forall id | id in t.transactions ensures TransactionSound(admins, t, id) {
        CommitKeepsTransaction(admins, s, e, id);
      }
      if NeedsLock(s.transactions[e.id]) {
        DeactivationLeavesOthers(admins, s, e.id);
      } else {
        OthersKeepAdministrators(admins, s, e.id);
      }
    } else {
      OnlyCommitsChange(admins, s, e);
      OwnTransactionSound(admins, s, e);
      forall id | id in t.transactions ensures TransactionSound(admins, t, id) {
        if id != e.id {
          OwnTransactionOnly(admins, s, e, id);
          OtherTransactionSound(admins, s, e, id);
        }
      }
    }
    hide TransactionSound, RowsSound;
  }

  // ---------------------------------------------------------------- runs

  ghost predicate Run(admins: set<Person>, states: seq<State>, events: seq<Event>) {
    && |states| == |events| + 1
    && states[0].transactions == map[] && states[0].holder == None
    && forall i :: 0 <= i < |events| ==> Enabled(admins, states[i], events[i]) && states[i + 1] == Step(admins, states[i], events[i])
  }

  lemma {:induction false} RunSound(
      admins: set<Person>, states: seq<State>, events: seq<Event>, i: nat)
    requires Run(admins, states, events) && i <= |events| && ActiveAdministrators(admins, states[0]) != {}
    ensures Sound(admins, states[i])
  {
    if i > 0 {
      hide Step, Enabled, Sound, ActiveAdministrators;
      RunSound(admins, states, events, i - 1);
      StepKeepsSound(admins, states[i - 1], events[i - 1]);
    }
  }

  /** However commands interleave, there is always an active account of a system administrator. */
  lemma NeverWithoutAdministrator(
      admins: set<Person>, states: seq<State>, events: seq<Event>, i: nat)
    requires Run(admins, states, events) && i <= |events|
    requires exists account :: ActiveAdministrator(admins, states[0], account)
    ensures exists account :: ActiveAdministrator(admins, states[i], account)
  {
    var first :| ActiveAdministrator(admins, states[0], first);
    assert first in ActiveAdministrators(admins, states[0]);
    RunSound(admins, states, events, i);
    var some :| some in ActiveAdministrators(admins, states[i]);
    assert ActiveAdministrator(admins, states[i], some);
  }

  /** Whoever is about to deactivate the only active administrator is refused. */
  lemma SoleAdministratorRefused(
      admins: set<Person>, states: seq<State>, events: seq<Event>, i: nat)
    requires Run(admins, states, events) && i < |events| && ActiveAdministrators(admins, states[0]) != {}
    requires events[i].Decide? && |ActiveAdministrators(admins, states[i])| <= 1
    ensures InPhase(states[i + 1], events[i].id, Closed(false))
  {
    RunSound(admins, states, events, i);
    assert TransactionSound(admins, states[i], events[i].id);
    SubsetSize(states[i].transactions[events[i].id].phase.seen, ActiveAdministrators(admins, states[i]));
  }

  /**
    A system administrator's account is deactivated only by the command of another account, of a system
    administrator, under the lock.
  */
  lemma DeactivationNeedsLock(
      admins: set<Person>, states: seq<State>, events: seq<Event>, i: nat, account: AccountId)
    requires Run(admins, states, events) && i < |events| && ActiveAdministrators(admins, states[0]) != {}
    requires ActiveAdministrator(admins, states[i], account) && !ActiveAdministrator(admins, states[i + 1], account)
    ensures events[i].Commit? && states[i].transactions[events[i].id].target == account
    ensures NeedsLock(states[i].transactions[events[i].id]) && states[i].holder == Some(events[i].id)
    ensures |ActiveAdministrators(admins, states[i])| >= 2
    ensures var actor := states[i].transactions[events[i].id].actor; actor.person in admins && actor.accountId != account
  {
    RunSound(admins, states, events, i);
    if !events[i].Commit? {
      OnlyCommitsChange(admins, states[i], events[i]);
    } else {
      assert TransactionSound(admins, states[i], events[i].id);
    }
  }

  // ---------------------------------------------------------------- the administration itself

  /** The account table, its lock and the transactions on it, changed in place. */
  class AccountAdministration {
    const admins: set<Person>
    var accounts: map<AccountId, Account>
    var holder: Option<TransactionId>
    var transactions: map<TransactionId, Transaction>

    ghost function View(): State
      reads this
    {
      State(accounts, holder, transactions)
    }

    constructor (admins: set<Person>, accounts: map<AccountId, Account>)
      ensures View() == State(accounts, None, map[]) && this.admins == admins
    {
      this.admins, this.accounts, holder, transactions := admins, accounts, None, map[];
    }

    /** The guards, then the transaction; a command that is not permitted changes nothing. */
    method Begin(id: TransactionId, principal: Principal, command: Command, targetIsCrm: bool) returns (begun: bool)
      requires id !in transactions
      modifies this`transactions
      ensures begun <==> Permitted(admins, old(View()), principal, command, targetIsCrm)
      ensures View() == if begun then Step(admins, old(View()), Open(id, principal, command, targetIsCrm)) else old(View())
    {
      var kind, target := command.kind, command.target;
      if kind.CreateAccount? {
        transactions := transactions[id := Transaction(kind, target, 0, 0, false, principal, Opened)];
        return true;
      }
      if target !in accounts {
        return false;
      }
      var account, own := accounts[target], target == principal.accountId;
      if own && kind.Deactivate? {
        return false;
      }
      var targetIsAdministrator := account.person in admins;
      var actorIsAdministrator := principal.person in admins;
      if (targetIsAdministrator && !actorIsAdministrator) || (targetIsCrm && !actorIsAdministrator && !own) {
        return false;
      }
      if (kind.UpdateAccount? && targetIsAdministrator)
      || (kind.UpdateSystemAccount? && (!targetIsAdministrator || !principal.reauthenticated || !own)) {
        return false;
      }
      if account.revision != command.expectedRevision || (kind.ResetPassword? && !principal.reauthenticated) {
        return false;
      }
      if kind.SetCrmAdministrator? && !actorIsAdministrator {
        return false;
      }
      transactions := transactions[id :=
        Transaction(kind, target, account.revision, account.securityRevision, targetIsAdministrator, principal, Opened)];
      return true;
    }

    method LockSystemAdministratorSet(id: TransactionId)
      requires Enabled(admins, View(), Lock(id))
      modifies this`holder, this`transactions
      ensures View() == Step(admins, old(View()), Lock(id))
    {
      holder := Some(id);
      transactions := transactions[id := transactions[id].(phase := Counting({}))];
    }

    method ReadAccount(id: TransactionId, account: AccountId)
      requires Enabled(admins, View(), Read(id, account))
      modifies this`transactions
      ensures View() == Step(admins, old(View()), Read(id, account))
    {
      var seen := transactions[id].phase.seen;
      if account in accounts && accounts[account].active && accounts[account].person in admins {
        seen := seen + {account};
      }
      transactions := transactions[id := transactions[id].(phase := Counting(seen))];
    }

    method RequireAnotherAdministrator(id: TransactionId) returns (refused: bool)
      requires Enabled(admins, View(), Decide(id))
      modifies this`holder, this`transactions
      ensures View() == Step(admins, old(View()), Decide(id))
      ensures refused <==> InPhase(View(), id, Closed(false))
    {
      if |transactions[id].phase.seen| <= 1 {
        End(id, false);
        return true;
      }
      transactions := transactions[id := transactions[id].(phase := Counted)];
      return false;
    }

    /** The command's write: refused if the row is no longer as it was read. */
    method WriteRow(id: TransactionId) returns (written: bool)
      requires Enabled(admins, View(), Event.Write(id))
      modifies this`holder, this`transactions
      ensures View() == Step(admins, old(View()), Event.Write(id))
      ensures written <==> InPhase(View(), id, Written)
    {
      var t := transactions[id];
      if !RowFits(accounts, t) {
        End(id, false);
        return false;
      }
      transactions := transactions[id := t.(phase := Written)];
      return true;
    }

    method End(id: TransactionId, committed: bool)
      requires id in transactions
      modifies this`holder, this`transactions
      ensures View() == Close(old(View()), id, committed)
    {
      transactions := transactions[id := transactions[id].(phase := Closed(committed))];
      if holder == Some(id) {
        holder := None;
      }
    }

    method CommitTransaction(id: TransactionId)
      requires Enabled(admins, View(), Event.Commit(id))
      modifies this
      ensures View() == Step(admins, old(View()), Event.Commit(id))
    {
      var t := transactions[id];
      if t.kind.CreateAccount? {
        accounts := accounts[t.target := Account(t.kind.person, true, 0, 0)];
      } else if t.target in accounts && !t.kind.ReleasePhone? && !t.kind.SetCrmAdministrator? {
        var a := accounts[t.target];
        var details := t.kind.UpdateAccount? || t.kind.UpdateSystemAccount?;
        var active := if t.kind.Deactivate? then false else if t.kind.Reactivate? then true else a.active;
        accounts := accounts[t.target := Account(a.person, active, a.revision + 1, if details then a.securityRevision else a.securityRevision + 1)];
      }
      End(id, true);
    }

    method RollbackTransaction(id: TransactionId)
      requires Enabled(admins, View(), Event.Rollback(id))
      modifies this`holder, this`transactions
      ensures View() == Step(admins, old(View()), Event.Rollback(id))
    {
      End(id, false);
    }
  }
}
