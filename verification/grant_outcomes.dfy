/**
  What grants and revocations of packages/crm-modules/authorization/src/fixed-roles.ts come to, row by row.
*/
module GrantOutcomes {
  import opened Basics
  import opened RoleGrants

  /**
    What is allowed: an approved permission that some grant carries, a system administrator's whatever it is,
    any other role's if it is the role's own and the assignment is selected and active.
  */
  lemma AllowedExactly(grants: seq<Grant>, subject: Subject, policy: Policy, key: string)
    ensures Allowed(grants, subject, policy, key) <==>
              && key in policy.approved
              && (|| (exists i :: 0 <= i < |grants| && grants[i].role == SystemAdministrator)
                  || (exists i :: 0 <= i < |grants| && subject.selected.Some? && grants[i].assignment == subject.selected
                                  && subject.selected.value in subject.activeAssignments
                                  && ((grants[i].role == ApplicationUser && key in policy.application)
                                      || (grants[i].role == CrmAdministrator && key in policy.crmAdministrator))))
  {
    forall i | 0 <= i < |grants|
      ensures Applicable(grants[i], subject) && Permits(grants[i], policy, key) <==>
                || grants[i].role == SystemAdministrator
                || (subject.selected.Some? && grants[i].assignment == subject.selected && subject.selected.value in subject.activeAssignments
                    && ((grants[i].role == ApplicationUser && key in policy.application)
                        || (grants[i].role == CrmAdministrator && key in policy.crmAdministrator)))
    {
    }
    hide Applicable, Permits;
  }

  /** Revoking takes a role from its time on, from exactly the open grants of that person, role and assignments that had begun. */
  lemma InForceAfterRevoking(table: Table, person: Person, role: Role, assignments: set<AssignmentId>, at: int, id: GrantId, t: int)
    requires id in table
    ensures var after := Revoked(table, Ending(table, person, role, assignments, at), at);
            && id in after
            && (after[id].grantedAt <= t && (after[id].revokedAt == None || t < after[id].revokedAt.value) <==>
                && table[id].grantedAt <= t && (table[id].revokedAt == None || t < table[id].revokedAt.value)
                && !(t >= at && table[id].person == person && table[id].role == role && table[id].revokedAt == None && table[id].grantedAt <= at
                     && table[id].assignment.Some? && table[id].assignment.value in assignments))
  {
  }

  /** It fails exactly when one of them has its end set for later. */
  lemma RevocableExactly(table: Table, person: Person, role: Role, assignments: set<AssignmentId>, at: int)
    ensures Revocable(table, person, role, assignments, at) <==>
              !exists id :: id in table && table[id].person == person && table[id].role == role
                            && table[id].assignment.Some? && table[id].assignment.value in assignments
                            && table[id].grantedAt <= at && table[id].revokedAt.Some? && at < table[id].revokedAt.value
  {
    if !Revocable(table, person, role, assignments, at) {
      var id :| id in table && ActiveAt(table[id], at) && Among(table[id], person, role, assignments) && table[id].revokedAt.Some?;
      assert table[id].grantedAt <= at;
    }
  }

  /** A grant of this role without an end. */
  predicate IsOpenFor(g: Grant, person: Person, role: Role, assignment: Option<AssignmentId>) {
    g.person == person && g.role == role && g.assignment == assignment && g.revokedAt == None
  }

  /**
    When a grant is accepted: the scope fits the role, and either id and operation are new and the role is held
    already or the person exists and has the assignment, or it is the same grant again.
  */
  lemma GrantedExactly(table: Table, id: GrantId, person: Person, role: Role, assignment: Option<AssignmentId>, at: int, operation: OperationId,
                       organization: Organization)
    ensures var row := Granted(person, role, assignment, at, None, operation);
            RowConstrained(row) && Grantable(table, id, row, organization) <==>
              && (role == SystemAdministrator <==> assignment == None)
              && if id in table then
                   && (forall other :: other in table && other != id ==> table[other].operation != operation)
                   && table[id].operation == operation && table[id].person == person && table[id].role == role
                   && table[id].assignment == assignment && table[id].grantedAt == at
                 else
                   && (forall other :: other in table ==> table[other].operation != operation)
                   && ((exists other :: other in table && IsOpenFor(table[other], person, role, assignment))
                       || (person in organization.people
                           && (assignment.Some? ==> (assignment.value, person) in organization.assignments)))
  {
    var row := Granted(person, role, assignment, at, None, operation);
    forall other | other in table
      ensures IsOpenFor(table[other], person, role, assignment) <==> Matches(table[other], person, role, assignment) && table[other].revokedAt.None?
    {
    }
    hide IsOpenFor, Matches;
    StandingMeans(table, person, role, assignment);
  }

  lemma StandingMeans(table: Table, person: Person, role: Role, assignment: Option<AssignmentId>)
    ensures Standing(table, person, role, assignment) <==> exists other :: other in table && IsOpenFor(table[other], person, role, assignment)
  {
    if Standing(table, person, role, assignment) {
      var id :| id in table && Matches(table[id], person, role, assignment) && table[id].revokedAt.None?;
      assert IsOpenFor(table[id], person, role, assignment);
    }
    if other :| other in table && IsOpenFor(table[other], person, role, assignment) {
      assert Matches(table[other], person, role, assignment);
    }
  }
}
