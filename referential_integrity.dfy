/** The link between assignments and the catalogues they point into: the
    role and environment ids an assignment lists are plain JSON text, so no
    foreign key protects them and the services must keep them resolvable. */
module ReferentialIntegrity {
  import opened Common
  import opened RoleAssignmentDomain
  import opened RoleDomain
  import opened EnvironmentPermissionDomain

  /** Every role id listed by any assignment, deleted or not, names a role
      row, deleted or not. */
  predicate RolesResolve(assignments: map<Id, RoleAssignment>, roles: map<Id, Role>)
  {
    forall k, r :: k in assignments && r in assignments[k].roles ==> r in roles
  }

  /** Every environment id listed by any assignment names an
      environment-permission row. */
  predicate PermissionsResolve(assignments: map<Id, RoleAssignment>, permissions: map<Id, EnvironmentPermission>)
  {
    forall k, e :: k in assignments && e in assignments[k].accessEnvironments ==> e in permissions
  }

  /** Whether some assignment among those the filter admits lists the role. */
  predicate RoleInUse(assignments: map<Id, RoleAssignment>, roleId: Id, includeDeleted: bool)
  {
    exists k :: k in assignments && (includeDeleted || !assignments[k].IsDeleted()) && roleId in assignments[k].roles
  }

  /** Whether some assignment among those the filter admits lists the
      environment permission. */
  predicate PermissionInUse(assignments: map<Id, RoleAssignment>, permissionId: Id, includeDeleted: bool)
  {
    exists k :: k in assignments && (includeDeleted || !assignments[k].IsDeleted())
                && permissionId in assignments[k].accessEnvironments
  }

  /** Storing an assignment whose role and environment ids all resolve keeps
      every reference resolvable. */
  lemma StoreResolvingAssignment(assignments: map<Id, RoleAssignment>, roles: map<Id, Role>,
                                 permissions: map<Id, EnvironmentPermission>, id: Id, a: RoleAssignment)
    ensures RolesResolve(assignments, roles) && (forall r :: r in a.roles ==> r in roles) ==>
      RolesResolve(assignments[id := a], roles)
    ensures PermissionsResolve(assignments, permissions) && (forall e :: e in a.accessEnvironments ==> e in permissions) ==>
      PermissionsResolve(assignments[id := a], permissions)
  {
  }

  /** Removing a role no assignment lists keeps every reference resolvable. */
  lemma RemoveUnusedRole(assignments: map<Id, RoleAssignment>, roles: map<Id, Role>, roleId: Id)
    requires RolesResolve(assignments, roles)
    requires !RoleInUse(assignments, roleId, true)
    ensures RolesResolve(assignments, roles - {roleId})
  {
  }

  /** Removing an environment permission no assignment lists keeps every
      reference resolvable. */
  lemma RemoveUnusedPermission(assignments: map<Id, RoleAssignment>, permissions: map<Id, EnvironmentPermission>,
                               permissionId: Id)
    requires PermissionsResolve(assignments, permissions)
    requires !PermissionInUse(assignments, permissionId, true)
    ensures PermissionsResolve(assignments, permissions - {permissionId})
  {
  }

  /** While the references resolve, a role an assignment grants
      (`hasRole`) and an environment it gives access to
      (`hasEnvironmentAccess`) are stored rows. */
  lemma GrantedAccessResolves(assignments: map<Id, RoleAssignment>, roles: map<Id, Role>,
                              permissions: map<Id, EnvironmentPermission>, k: Id, roleId: Id, envId: Id)
    requires RolesResolve(assignments, roles) && PermissionsResolve(assignments, permissions)
    requires k in assignments
    ensures assignments[k].HasRole(roleId) ==> roleId in roles
    ensures assignments[k].HasEnvironmentAccess(envId) ==> envId in permissions
  {
  }

  /** Checking only live assignments is not enough for a hard delete: a
      soft-deleted assignment listing the role is left dangling. */
  lemma LiveCheckDoesNotProtectHardDelete()
    ensures exists assignments: map<Id, RoleAssignment>, roles: map<Id, Role>, roleId: Id ::
      RolesResolve(assignments, roles) && !RoleInUse(assignments, roleId, false)
      && !RolesResolve(assignments, roles - {roleId})
  {
    var a := RoleAssignment("a", "u", ["r"], [], 0, None, Active, "", "g", 0, 0, Some(1));
    var role := Role("r", "Reviewer", "", [], true, 0, 0, None);
    var assignments := map["a" := a];
    var roles := map["r" := role];
    assert "r" in assignments["a"].roles && "r" !in roles - {"r"};
    assert RolesResolve(assignments, roles) && !RoleInUse(assignments, "r", false)
      && !RolesResolve(assignments, roles - {"r"});
  }
}
