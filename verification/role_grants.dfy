/**
  Role grants over time: the store of packages/crm-modules/authorization/src/fixed-roles.ts, the
  administration port of apps/api/src/workforce-administration/authorization-grants.ts on top of it,
  and the decision taken from a snapshot of grants.

  A grant holds from its time until its revocation, which is written once.  The table's constraints
  are those of migration 0000000028, with the references of 0000000035 and, in place of its strict
  interval check, the one of 0000000038: a grant may end in the instant it began.
*/
module RoleGrants {
  import opened Basics

  datatype Role = ApplicationUser | CrmAdministrator | SystemAdministrator

  type Person = string
  type AssignmentId = string
  type GrantId = string
  type OperationId = string

  datatype Grant = Granted(person: Person, role: Role, assignment: Option<AssignmentId>, grantedAt: int, revokedAt: Option<int>, operation: OperationId)

  type Table = map<GrantId, Grant>

  predicate ActiveAt(g: Grant, at: int) { g.grantedAt <= at && (g.revokedAt.Some? ==> g.revokedAt.value > at) }

  /** The grant can end at this time: nobody has set its end, and it has begun. */
  predicate EndsAt(g: Grant, at: int) { g.revokedAt.None? && g.grantedAt <= at }

  /** The persons and their assignments, as the organization tables have them. */
  datatype Organization = Organization(people: set<Person>, assignments: set<(AssignmentId, Person)>)

  predicate Referenced(g: Grant, organization: Organization) {
    g.person in organization.people && (g.assignment.Some? ==> (g.assignment.value, g.person) in organization.assignments)
  }

  /** Somebody's role, for one assignment or for none. */
  ghost predicate Holds(table: Table, person: Person, role: Role, assignment: Option<AssignmentId>, at: int) {
    exists id :: id in table && Matches(table[id], person, role, assignment) && ActiveAt(table[id], at)
  }

  predicate Matches(g: Grant, person: Person, role: Role, assignment: Option<AssignmentId>) {
    g.person == person && g.role == role && g.assignment == assignment
  }

  /** A grant nobody has revoked. */
  ghost predicate Standing(table: Table, person: Person, role: Role, assignment: Option<AssignmentId>) {
    exists id :: id in table && Matches(table[id], person, role, assignment) && table[id].revokedAt.None?
  }

  /** The table's own constraints: scope, interval, one operation a grant, one standing grant a role and assignment. */
  ghost predicate Constrained(table: Table) {
    && (forall id :: id in table ==> RowConstrained(table[id]))
    && (forall a, b :: a in table && b in table && a != b ==> table[a].operation != table[b].operation)
    && (forall a, b :: a in table && b in table && a != b && table[a].revokedAt.None? && table[b].revokedAt.None? ==>
          !Matches(table[b], table[a].person, table[a].role, table[a].assignment))
  }

  predicate RowConstrained(g: Grant) {
    && (g.role.SystemAdministrator? <==> g.assignment.None?)
    && (g.revokedAt.Some? ==> g.revokedAt.value >= g.grantedAt)
  }

  /** The system administrator grants of two tables are the same rows. */
  ghost predicate SameSystemAdministrators(before: Table, after: Table) {
    && (forall id :: id in before && before[id].role.SystemAdministrator? ==> id in after && after[id] == before[id])
    && (forall id :: id in after && after[id].role.SystemAdministrator? ==> id in before && before[id] == after[id])
  }

  /** Nobody's roles before a time have changed. */
  ghost predicate SamePast(before: Table, after: Table, at: int) {
    forall id, t :: t < at ==> ((id in after && ActiveAt(after[id], t)) <==> (id in before && ActiveAt(before[id], t)))
  }

  /** With the same system administrator grants, the same persons are system administrators at every time. */
  lemma SameAdministrators(before: Table, after: Table, person: Person, at: int)
    requires Constrained(before) && Constrained(after) && SameSystemAdministrators(before, after)
    ensures Holds(before, person, SystemAdministrator, None, at) <==> Holds(after, person, SystemAdministrator, None, at)
  {
    if Holds(before, person, SystemAdministrator, None, at) {
      var id :| id in before && Matches(before[id], person, SystemAdministrator, None) && ActiveAt(before[id], at);
      assert id in after && Matches(after[id], person, SystemAdministrator, None) && ActiveAt(after[id], at);
    }
    if Holds(after, person, SystemAdministrator, None, at) {
      var id :| id in after && Matches(after[id], person, SystemAdministrator, None) && ActiveAt(after[id], at);
      assert id in before && Matches(before[id], person, SystemAdministrator, None) && ActiveAt(before[id], at);
    }
  }

  /** Over any run of commands that keep those rows the system administrators are the same persons, whenever one looks. */
  lemma {:induction false} CommandsKeepAdministrators(
      tables: seq<Table>, i: nat, j: nat, person: Person, at: int)
    requires i <= j < |tables| && (forall k :: 0 <= k < |tables| ==> Constrained(tables[k]))
    requires forall k :: 0 <= k < |tables| - 1 ==> SameSystemAdministrators(tables[k], tables[k + 1])
    ensures Holds(tables[i], person, SystemAdministrator, None, at) <==> Holds(tables[j], person, SystemAdministrator, None, at)
    decreases j - i
  {
    hide Holds, SameSystemAdministrators, Constrained;
    if i < j {
      CommandsKeepAdministrators(tables, i, j - 1, person, at);
      SameAdministrators(tables[j - 1], tables[j], person, at);
    }
  }

  /** One who is a system administrator now, by a grant nobody revoked, stays one. */
  lemma StandingAdministratorStays(table: Table, person: Person, at: int, later: int)
    requires at <= later && Standing(table, person, SystemAdministrator, None) && Constrained(table)
    requires forall id :: id in table && Matches(table[id], person, SystemAdministrator, None) && table[id].revokedAt.None? ==> table[id].grantedAt <= at
    ensures Holds(table, person, SystemAdministrator, None, later)
  {
    var id :| id in table && Matches(table[id], person, SystemAdministrator, None) && table[id].revokedAt.None?;
    assert ActiveAt(table[id], later);
  }

  /** No row has this id or comes from this operation. */
  ghost predicate Unidentified(table: Table, id: GrantId, operation: OperationId) {
    id !in table && forall other :: other in table ==> table[other].operation != operation
  }

  /** The one row with this id is the only one of this operation. */
  ghost predicate OnlyIdentified(table: Table, id: GrantId, operation: OperationId) {
    id in table && forall other :: other in table && table[other].operation == operation ==> other == id
  }

  /** The grant's id and operation are new and it is held already or refers to what exists, or it is the same grant again. */
  ghost predicate Grantable(table: Table, id: GrantId, row: Grant, organization: Organization) {
    || (Unidentified(table, id, row.operation) && (Standing(table, row.person, row.role, row.assignment) || Referenced(row, organization)))
    || (OnlyIdentified(table, id, row.operation) && table[id].(revokedAt := None) == row)
  }

  function Identities(table: Table, id: GrantId, operation: OperationId): set<GrantId> {
    set other | other in table && (other == id || table[other].operation == operation)
  }

  lemma IdentitiesMean(table: Table, id: GrantId, operation: OperationId)
    ensures Identities(table, id, operation) == {} <==> Unidentified(table, id, operation)
    ensures Identities(table, id, operation) == {id} <==> OnlyIdentified(table, id, operation)
  {
    var identities := Identities(table, id, operation);
    if identities == {} {
      assert forall other :: other in table ==> other !in identities;
    }
    if identities == {id} {
      assert id in identities;
      assert forall other :: other in table && table[other].operation == operation ==> other in identities;
    }
    if OnlyIdentified(table, id, operation) {
      assert forall other :: other in identities <==> other == id;
    }
  }

  lemma InsertKeepsConstrained(table: Table, id: GrantId, row: Grant)
    requires Constrained(table) && RowConstrained(row) && Unidentified(table, id, row.operation)
    requires !Standing(table, row.person, row.role, row.assignment)
    ensures Constrained(table[id := row])
  {
    hide RowConstrained;
    assert forall other :: other in table && table[other].revokedAt.None? ==> !Matches(table[other], row.person, row.role, row.assignment);
  }

  class FixedRoleGrantStore {
    var grants: Table

    constructor (grants: Table)
      ensures this.grants == grants
    {
      this.grants := grants;
    }

    /** Inserts unless a constraint or an identity is in the way; the same grant again, or a standing one, is fine. */
    method Grant(id: GrantId, person: Person, role: Role, assignment: Option<AssignmentId>, grantedAt: int, operation: OperationId,
                 organization: Organization)
      returns (ok: bool)
      requires Constrained(grants)
      modifies this
      ensures Constrained(grants)
      ensures forall other :: other in old(grants) ==> other in grants && grants[other] == old(grants)[other]
      ensures forall other :: other in grants && other !in old(grants) ==>
                other == id && grants[id] == Granted(person, role, assignment, grantedAt, None, operation)
      ensures ok ==> Standing(grants, person, role, assignment)
                     || (id in old(grants) && grants[id].(revokedAt := None) == Granted(person, role, assignment, grantedAt, None, operation))
      ensures !ok ==> grants == old(grants)
      ensures var row := Granted(person, role, assignment, grantedAt, None, operation);
              ok <==> RowConstrained(row) && Grantable(old(grants), id, row, organization)
      ensures ok && Unidentified(old(grants), id, operation) && !Standing(old(grants), person, role, assignment) ==> id in grants
    {
      var row := Granted(person, role, assignment, grantedAt, None, operation);
      if !RowConstrained(row) {
        return false;
      }
      var identities := Identities(grants, id, operation);
      var standing := set other | other in grants && Matches(grants[other], person, role, assignment) && grants[other].revokedAt.None?;
      IdentitiesMean(grants, id, operation);
      hide Identities;
      if identities == {} && standing == {} {
        assert forall other :: other in grants ==> other !in standing;
        if !Referenced(row, organization) {
          return false;
        }
        InsertKeepsConstrained(grants, id, row);
        hide Constrained;
        grants := grants[id := row];
        assert Matches(grants[id], person, role, assignment);
        return true;
      }
      hide Constrained;
      if identities != {} {
        return identities == {id} && grants[id].(revokedAt := None) == row;
      }
      var one :| one in standing;
      assert one in grants && Matches(grants[one], person, role, assignment);
      return true;
    }

    /** Writes the revocation once; a grant cannot end before it began. */
    method Revoke(id: GrantId, revokedAt: int) returns (ok: bool)
      requires Constrained(grants)
      modifies this
      ensures Constrained(grants)
      ensures ok <==> id in old(grants) && EndsAt(old(grants)[id], revokedAt)
      ensures grants == if ok then old(grants)[id := old(grants)[id].(revokedAt := Some(revokedAt))] else old(grants)
      ensures SamePast(old(grants), grants, revokedAt)
    {
      if id !in grants || grants[id].revokedAt.Some? || revokedAt < grants[id].grantedAt {
        return false;
      }
      grants := grants[id := grants[id].(revokedAt := Some(revokedAt))];
      return true;
    }
  }

  /** Rows of one role and person for some assignments. */
  predicate Among(g: Grant, person: Person, role: Role, assignments: set<AssignmentId>) {
    g.person == person && g.role == role && g.assignment.Some? && g.assignment.value in assignments
  }

  /** Every grant in force among them is still open: nobody has set an end for it in the future. */
  ghost predicate Revocable(table: Table, person: Person, role: Role, assignments: set<AssignmentId>, at: int) {
    forall id :: id in table && ActiveAt(table[id], at) && Among(table[id], person, role, assignments) ==> table[id].revokedAt.None?
  }

  /** The grants in force among them, and those that can end. */
  function InForce(table: Table, person: Person, role: Role, assignments: set<AssignmentId>, at: int): set<GrantId> {
    set id | id in table && ActiveAt(table[id], at) && Among(table[id], person, role, assignments)
  }

  function Ending(table: Table, person: Person, role: Role, assignments: set<AssignmentId>, at: int): set<GrantId> {
    set id | id in InForce(table, person, role, assignments, at) && id in table && EndsAt(table[id], at)
  }

  /** The same rows, but for revocations of the chosen ones. */
  ghost predicate OnlyRevoked(before: Table, after: Table, person: Person, role: Role, assignments: set<AssignmentId>, at: int) {
    && after.Keys == before.Keys
    && forall id :: id in before ==>
         after[id] == before[id] || (Among(before[id], person, role, assignments) && after[id] == before[id].(revokedAt := Some(at)))
  }

  /** The table after revoking the given grants. */
  function Revoked(before: Table, ids: set<GrantId>, at: int): Table {
    map id | id in before :: if id in ids then before[id].(revokedAt := Some(at)) else before[id]
  }

  lemma NothingRevoked(before: Table, at: int)
    ensures Revoked(before, {}, at) == before
  {
  }

  lemma RevokeOneMore(before: Table, ids: set<GrantId>, id: GrantId, at: int)
    requires id in before && id !in ids
    ensures id in Revoked(before, ids, at) && Revoked(before, ids, at)[id] == before[id]
    ensures Revoked(before, ids + {id}, at) == Revoked(before, ids, at)[id := before[id].(revokedAt := Some(at))]
  {
  }

  /** Revoking grants in force ends them at that time and changes nothing earlier. */
  lemma RevokedMeans(
      before: Table, ids: set<GrantId>, person: Person, role: Role, assignments: set<AssignmentId>, at: int)
    requires forall id :: id in ids ==> id in before && ActiveAt(before[id], at) && Among(before[id], person, role, assignments)
    ensures OnlyRevoked(before, Revoked(before, ids, at), person, role, assignments, at)
    ensures SamePast(before, Revoked(before, ids, at), at)
  {
  }

  /** If all could end, none of them is in force any more. */
  lemma AllRevoked(
      before: Table, ids: set<GrantId>, person: Person, role: Role, assignments: set<AssignmentId>, at: int)
    requires ids == Ending(before, person, role, assignments, at) && Revocable(before, person, role, assignments, at)
    ensures var after := Revoked(before, ids, at);
            forall id :: id in after && Among(after[id], person, role, assignments) ==> !ActiveAt(after[id], at)
  {
  }

  /** Adding rows for one assignment makes nobody hold the role for the others. */
  lemma OnlyNewHolds(
      between: Table, after: Table, person: Person, role: Role, closed: set<AssignmentId>, assignment: AssignmentId, at: int)
    requires forall id :: id in between && Among(between[id], person, role, closed) ==> !ActiveAt(between[id], at)
    requires forall id :: id in after ==> (id in between && after[id] == between[id]) || after[id].assignment == Some(assignment)
    ensures forall a :: a in closed && a != assignment ==> !Holds(after, person, role, Some(a), at)
  {
    forall a | a in closed && a != assignment ensures !Holds(after, person, role, Some(a), at) {
      if Holds(after, person, role, Some(a), at) {
        var id :| id in after && Matches(after[id], person, role, Some(a)) && ActiveAt(after[id], at);
        assert id in between && Among(between[id], person, role, closed);
      }
    }
  }

  lemma SystemUnchanged(before: Table, between: Table, after: Table)
    requires SameSystemAdministrators(before, between)
    requires forall id :: id in between ==> id in after && after[id] == between[id]
    requires forall id :: id in after && id !in between ==> !after[id].role.SystemAdministrator?
    ensures SameSystemAdministrators(before, after)
  {
  }

  lemma InForceMeans(
      table: Table, person: Person, role: Role, assignments: set<AssignmentId>, at: int)
    ensures var chosen := InForce(table, person, role, assignments, at);
            && (forall id :: id in chosen ==> id in table && (EndsAt(table[id], at) <==> table[id].revokedAt.None?))
            && (Revocable(table, person, role, assignments, at) <==> forall id :: id in chosen ==> table[id].revokedAt.None?)
  {
  }

  lemma RevokingKeepsSystem(
      before: Table, after: Table, person: Person, role: Role, assignments: set<AssignmentId>, at: int)
    requires OnlyRevoked(before, after, person, role, assignments, at) && !role.SystemAdministrator?
    ensures SameSystemAdministrators(before, after)
  {
  }

  class FixedRoleAdministrationGrantPort {
    const store: FixedRoleGrantStore

    constructor (store: FixedRoleGrantStore)
      ensures this.store == store
    {
      this.store := store;
    }

    /**
      Ends every grant in force among these assignments that can end, and changes nothing else; it
      succeeds unless one of them has its end set in the future.
    */
    method RevokeAmong(person: Person, role: Role, assignments: set<AssignmentId>, at: int) returns (ok: bool)
      requires Constrained(store.grants)
      modifies store
      ensures Constrained(store.grants)
      ensures store.grants == Revoked(old(store.grants), Ending(old(store.grants), person, role, assignments, at), at)
      ensures ok <==> Revocable(old(store.grants), person, role, assignments, at)
    {
      hide Constrained, Revoked, ActiveAt, EndsAt, Among, InForce, SamePast;
      var before := store.grants;
      var matches := InForce(before, person, role, assignments, at);
      ghost var chosen := matches;
      InForceMeans(before, person, role, assignments, at);
      NothingRevoked(before, at);
      ok := true;
      ghost var ended := {};
      while matches != {}
        invariant Constrained(store.grants) && matches <= chosen
        invariant ended == set id | id in chosen - matches && EndsAt(before[id], at)
        invariant store.grants == Revoked(before, ended, at)
        invariant ok <==> forall id :: id in chosen - matches ==> EndsAt(before[id], at)
        decreases |matches|
      {
        var id :| id in matches;
        RevokeOneMore(before, ended, id, at);
        var revoked := store.Revoke(id, at);
        ok := ok && revoked;
        if revoked {
          ended := ended + {id};
        }
        matches := matches - {id};
      }
      assert chosen - matches == chosen;
      assert ended == Ending(before, person, role, assignments, at);
    }

    /** The application user role moves from the closed assignments to the new one. */
    method MoveApplicationUser(grantId: GrantId, assignment: AssignmentId, closed: set<AssignmentId>, operation: OperationId, person: Person, at: int,
                               organization: Organization)
      returns (ok: bool)
      requires Constrained(store.grants)
      modifies store
      ensures Constrained(store.grants) && SameSystemAdministrators(old(store.grants), store.grants)
      ensures var between := Revoked(old(store.grants), Ending(old(store.grants), person, ApplicationUser, closed, at), at);
              ok <==> Revocable(old(store.grants), person, ApplicationUser, closed, at)
                      && Grantable(between, grantId, Granted(person, ApplicationUser, Some(assignment), at, None, operation), organization)
      ensures ok && grantId !in old(store.grants) ==> Standing(store.grants, person, ApplicationUser, Some(assignment))
      ensures ok ==> forall a :: a in closed && a != assignment ==> !Holds(store.grants, person, ApplicationUser, Some(a), at)
    {
      var before := store.grants;
      ok := RevokeAmong(person, ApplicationUser, closed, at);
      RevokedMeans(before, Ending(before, person, ApplicationUser, closed, at), person, ApplicationUser, closed, at);
      RevokingKeepsSystem(before, store.grants, person, ApplicationUser, closed, at);
      if !ok {
        return false;
      }
      AllRevoked(before, Ending(before, person, ApplicationUser, closed, at), person, ApplicationUser, closed, at);
      hide Grantable, Revocable, OnlyRevoked, SamePast, Holds, SameSystemAdministrators, Constrained, Among, Revoked, Ending, InForce, ActiveAt;
      ghost var between := store.grants;
      ok := store.Grant(grantId, person, ApplicationUser, Some(assignment), at, operation, organization);
      OnlyNewHolds(between, store.grants, person, ApplicationUser, closed, assignment, at);
      SystemUnchanged(before, between, store.grants);
    }

    /** Turning the administrator role of an assignment on leaves a standing grant, turning it off none in force. */
    method SetCrmAdministrator(grantId: GrantId, assignment: AssignmentId, enabled: bool, operation: OperationId, person: Person, at: int,
                               organization: Organization)
      returns (ok: bool)
      requires Constrained(store.grants)
      modifies store
      ensures Constrained(store.grants) && SameSystemAdministrators(old(store.grants), store.grants)
      ensures !enabled ==> (ok <==> Revocable(old(store.grants), person, CrmAdministrator, {assignment}, at))
      ensures enabled ==> (ok <==> Holds(old(store.grants), person, CrmAdministrator, Some(assignment), at)
                                   || Grantable(old(store.grants), grantId, Granted(person, CrmAdministrator, Some(assignment), at, None, operation), organization))
      ensures ok && enabled && grantId !in old(store.grants) ==>
                Standing(store.grants, person, CrmAdministrator, Some(assignment)) || Holds(store.grants, person, CrmAdministrator, Some(assignment), at)
      ensures ok && !enabled ==> !Holds(store.grants, person, CrmAdministrator, Some(assignment), at)
    {
      var before := store.grants;
      if enabled {
        var matching := set id | id in before && ActiveAt(before[id], at) && Matches(before[id], person, CrmAdministrator, Some(assignment));
        if matching == {} {
          assert forall id :: id in before ==> id !in matching;
          ok := store.Grant(grantId, person, CrmAdministrator, Some(assignment), at, operation, organization);
        } else {
          var one :| one in matching;
          assert one in before && Matches(before[one], person, CrmAdministrator, Some(assignment)) && ActiveAt(before[one], at);
          return true;
        }
      } else {
        ok := RevokeAmong(person, CrmAdministrator, {assignment}, at);
        var ending := Ending(before, person, CrmAdministrator, {assignment}, at);
        RevokedMeans(before, ending, person, CrmAdministrator, {assignment}, at);
        if ok { AllRevoked(before, ending, person, CrmAdministrator, {assignment}, at); }
        RevokingKeepsSystem(before, store.grants, person, CrmAdministrator, {assignment}, at);
      }
    }
  }

  // ---------------------------------------------------------------- decisions

  datatype Subject = Subject(person: Person, selected: Option<AssignmentId>, activeAssignments: seq<AssignmentId>)

  datatype Policy = Policy(approved: set<string>, application: set<string>, crmAdministrator: set<string>)

  predicate Applicable(g: Grant, subject: Subject) {
    g.role.SystemAdministrator?
    || (g.assignment.Some? && g.assignment == subject.selected && g.assignment.value in subject.activeAssignments)
  }

  predicate Permits(g: Grant, policy: Policy, key: string) {
    match g.role
    case SystemAdministrator => true
    case ApplicationUser => key in policy.application
    case CrmAdministrator => key in policy.crmAdministrator
  }

  predicate Allowed(grants: seq<Grant>, subject: Subject, policy: Policy, key: string) {
    key in policy.approved && exists i :: 0 <= i < |grants| && Applicable(grants[i], subject) && Permits(grants[i], policy, key)
  }

  /** `resolveDataScope`: everything, or the selected assignment. */
  predicate SeesEverything(grants: seq<Grant>) { exists i :: 0 <= i < |grants| && grants[i].role.SystemAdministrator? }

  /** A role bound to an assignment says nothing for any other: without the selected assignment only the system administrator is allowed. */
  lemma OnlySelectedAssignmentCounts(
      grants: seq<Grant>, subject: Subject, policy: Policy, key: string)
    requires subject.selected.None? || subject.selected.value !in subject.activeAssignments
    ensures Allowed(grants, subject, policy, key) <==> key in policy.approved && SeesEverything(grants)
  {
    if SeesEverything(grants) {
      var i :| 0 <= i < |grants| && grants[i].role.SystemAdministrator?;
      assert Applicable(grants[i], subject) && Permits(grants[i], policy, key);
    }
  }

  /** More grants never take a permission away, and no grant gives one that is not approved. */
  lemma GrantsOnlyAllow(
      some: seq<Grant>, more: seq<Grant>, subject: Subject, policy: Policy, key: string)
    requires forall i :: 0 <= i < |some| ==> some[i] in more
    ensures Allowed(some, subject, policy, key) ==> Allowed(more, subject, policy, key)
    ensures key !in policy.approved ==> !Allowed(more, subject, policy, key)
  {
    if Allowed(some, subject, policy, key) {
      var i :| 0 <= i < |some| && Applicable(some[i], subject) && Permits(some[i], policy, key);
      var j :| 0 <= j < |more| && more[j] == some[i];
      assert Applicable(more[j], subject) && Permits(more[j], policy, key);
    }
  }
}
