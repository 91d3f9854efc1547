/** The RoleAssignment service: grants roles and environment permissions to a
    user over a date window, after checking that the user, the grantor and
    every listed role and permission exist and that the window is well formed. */
module RoleAssignmentServices {
  import opened Common
  import opened UserDomain
  import opened RoleDomain
  import opened EnvironmentPermissionDomain
  import opened RoleAssignmentDomain
  import opened UserRepositories
  import opened RoleRepositories
  import opened EnvironmentPermissionRepositories
  import opened RoleAssignmentRepositories
  import opened ReferentialIntegrity

  const AssignmentNotFound := HttpError(NotFound, "Role assignment not found")
  const InvalidDateRange := HttpError(BadRequest, "End date must be after start date")
  const AssignmentNotDeleted := HttpError(Conflict, "Role assignment is not deleted")
  const UserNotFound := HttpError(NotFound, "User not found")
  const GrantorNotFound := HttpError(NotFound, "Grantor user not found")

  /** The NotFound raised by `validateRoleIds`, listing the missing ids. */
  function RolesNotFoundError(missing: seq<Id>): HttpError
  {
    HttpError(NotFound, "The following role IDs were not found: " + Join(missing, ", "))
  }

  /** The NotFound raised by `validateEnvironmentPermissionIds`. */
  function PermissionsNotFoundError(missing: seq<Id>): HttpError
  {
    HttpError(NotFound, "The following environment permission IDs were not found: " + Join(missing, ", "))
  }

  /** The validated body of a create request. */
  datatype CreateAssignmentDto = CreateAssignmentDto(
    userId: Id,
    roles: seq<Id>,
    accessEnvironments: seq<Id>,
    startDate: Timestamp,
    endDate: Option<Timestamp>,
    state: Option<RoleAssignmentState>,
    notes: Option<string>,
    grantedBy: Id)

  /** The validated body of an update request: every field optional. */
  datatype UpdateAssignmentDto = UpdateAssignmentDto(
    userId: Option<Id>,
    roles: Option<seq<Id>>,
    accessEnvironments: Option<seq<Id>>,
    startDate: Option<Timestamp>,
    endDate: Option<Timestamp>,
    state: Option<RoleAssignmentState>,
    notes: Option<string>,
    grantedBy: Option<Id>)

  /** The ids of the rows `findById` finds without `includeDeleted`. */
  function LiveRoleIds(rows: map<Id, Role>): set<Id>
  {
    set k | k in rows && !rows[k].IsDeleted()
  }

  /** The ids of the live environment permissions. */
  function LivePermissionIds(rows: map<Id, EnvironmentPermission>): set<Id>
  {
    set k | k in rows && !rows[k].IsDeleted()
  }

  /** Whether the user row exists and is not soft-deleted. */
  predicate UserLive(rows: map<Id, User>, id: Id)
  {
    id in rows && !rows[id].IsDeleted()
  }

  /** The window check: an end date, when present, must be after the start. */
  predicate WindowValid(startDate: Timestamp, endDate: Option<Timestamp>)
  {
    endDate.None? || endDate.value > startDate
  }

  /** Every stored window is well formed. */
  predicate WindowsValid(rows: map<Id, RoleAssignment>)
  {
    forall k :: k in rows ==> WindowValid(rows[k].startDate, rows[k].endDate)
  }

  /** Storing a row with a well-formed window keeps every window well formed. */
  lemma StoreValidWindow(rows: map<Id, RoleAssignment>, id: Id, a: RoleAssignment)
    ensures WindowsValid(rows) && WindowValid(a.startDate, a.endDate) ==> WindowsValid(rows[id := a])
  {
  }

  /** The entity `create` builds: state defaulting to ACTIVE, notes to the
      empty string. */
  function NewAssignment(dto: CreateAssignmentDto, id: Id, now: Timestamp): (a: RoleAssignment)
    ensures a.id == id && a.userId == dto.userId && a.grantedBy == dto.grantedBy
    ensures a.roles == dto.roles && a.accessEnvironments == dto.accessEnvironments
    ensures a.startDate == dto.startDate && a.endDate == dto.endDate
    ensures a.state == (if dto.state.Some? then dto.state.value else Active)
    ensures a.notes == (if dto.notes.Some? then dto.notes.value else "")
    ensures a.createdAt == now && a.updatedAt == now && !a.IsDeleted()
  {
    RoleAssignment(id, dto.userId, dto.roles, dto.accessEnvironments, dto.startDate, dto.endDate,
                   dto.state.GetOr(Active), dto.notes.GetOr(""), dto.grantedBy, now, now, None)
  }

  /** The update DTO handed to the repository as a partial entity. */
  function AssignmentPatchOf(dto: UpdateAssignmentDto): (p: AssignmentPatch)
    ensures p.id.None? && p.createdAt.None? && p.updatedAt.None? && p.deletedAt.None?
    ensures p.roles == dto.roles && p.accessEnvironments == dto.accessEnvironments
    ensures p.startDate == dto.startDate && p.endDate == dto.endDate
  {
    AssignmentPatch(None, dto.userId, dto.roles, dto.accessEnvironments, dto.startDate, dto.endDate,
                    dto.state, dto.notes, dto.grantedBy, None, None, None)
  }

  /** A created assignment with no end date and the default state is active
      from its start date on, as long as it is not deleted. */
  lemma NewAssignmentActiveFromStart(dto: CreateAssignmentDto, id: Id, now: Timestamp, t: Timestamp)
    requires dto.state.None? && dto.endDate.None? && dto.startDate <= t
    ensures NewAssignment(dto, id, now).IsActive(t)
  {
  }

  class RoleAssignmentService {
    const roleAssignmentRepository: RoleAssignmentRepository
    const userRepository: UserRepository
    const roleRepository: RoleRepository
    const environmentPermissionRepository: EnvironmentPermissionRepository

    ghost predicate Valid()
      reads this, roleAssignmentRepository, userRepository, roleRepository, environmentPermissionRepository
    {
      roleAssignmentRepository.Valid() && userRepository.Valid()
      && roleRepository.Valid() && environmentPermissionRepository.Valid()
    }

    constructor (assignments: RoleAssignmentRepository, users: UserRepository,
                 roles: RoleRepository, permissions: EnvironmentPermissionRepository)
      ensures roleAssignmentRepository == assignments && userRepository == users
      ensures roleRepository == roles && environmentPermissionRepository == permissions
    {
      roleAssignmentRepository := assignments;
      userRepository := users;
      roleRepository := roles;
      environmentPermissionRepository := permissions;
    }

    /** `validateRoleIds(roleIds)`: looks every id up, in order, and fails
        with the list of those no live role has. */
    method ValidateRoleIds(roleIds: seq<Id>) returns (r: Outcome)
      ensures r == Done <==> forall x :: x in roleIds ==> x in LiveRoleIds(roleRepository.rows)
      ensures r == (if Missing(roleIds, LiveRoleIds(roleRepository.rows)) == [] then Done
                    else Fail(RolesNotFoundError(Missing(roleIds, LiveRoleIds(roleRepository.rows)))))
    {
      ghost var live := LiveRoleIds(roleRepository.rows);
      if |roleIds| == 0 {
        MissingEmptyIff(roleIds, live);
        return Done;
      }
      var invalid: seq<Id> := [];
      var i := 0;
      while i < |roleIds|
        invariant 0 <= i <= |roleIds|
        invariant invalid == Missing(roleIds[..i], live)
      {
        var role := roleRepository.FindById(roleIds[i], false);
        assert role.None? <==> roleIds[i] !in live;
        MissingStep(roleIds, i, live);
        if role.None? {
          invalid := invalid + [roleIds[i]];
        }
        i := i + 1;
      }
      assert roleIds[..i] == roleIds;
      MissingEmptyIff(roleIds, live);
      if |invalid| > 0 {
        return Fail(RolesNotFoundError(invalid));
      }
      return Done;
    }

    /** `validateEnvironmentPermissionIds(envPermIds)`: the same check
        against the live environment permissions. */
    method ValidateEnvironmentPermissionIds(envPermIds: seq<Id>) returns (r: Outcome)
      ensures r == Done <==> forall x :: x in envPermIds ==> x in LivePermissionIds(environmentPermissionRepository.rows)
      ensures r == (if Missing(envPermIds, LivePermissionIds(environmentPermissionRepository.rows)) == [] then Done
                    else Fail(PermissionsNotFoundError(Missing(envPermIds, LivePermissionIds(environmentPermissionRepository.rows)))))
    {
      ghost var live := LivePermissionIds(environmentPermissionRepository.rows);
      if |envPermIds| == 0 {
        MissingEmptyIff(envPermIds, live);
        return Done;
      }
      var invalid: seq<Id> := [];
      var i := 0;
      while i < |envPermIds|
        invariant 0 <= i <= |envPermIds|
        invariant invalid == Missing(envPermIds[..i], live)
      {
        var permission := environmentPermissionRepository.FindById(envPermIds[i], false);
        assert permission.None? <==> envPermIds[i] !in live;
        MissingStep(envPermIds, i, live);
        if permission.None? {
          invalid := invalid + [envPermIds[i]];
        }
        i := i + 1;
      }
      assert envPermIds[..i] == envPermIds;
      MissingEmptyIff(envPermIds, live);
      if |invalid| > 0 {
        return Fail(PermissionsNotFoundError(invalid));
      }
      return Done;
    }

    /** `findById(id, includeDeleted)`: the row, or NotFound. */
    function FindById(id: Id, includeDeleted: bool): (r: Result<RoleAssignment>)
      reads roleAssignmentRepository
      ensures r.Ok? <==> id in roleAssignmentRepository.rows && (includeDeleted || !roleAssignmentRepository.rows[id].IsDeleted())
      ensures r.Ok? ==> r.value == roleAssignmentRepository.rows[id]
      ensures r.Err? ==> r.error == AssignmentNotFound
    {
      match roleAssignmentRepository.FindById(id, includeDeleted)
      case Some(a) => Ok(a)
      case None => Err(AssignmentNotFound)
    }

    /** The checks `create(dto)` runs before writing, in order: user,
        grantor, roles, environment permissions, window; the first failure
        is the result. */
    method CheckCreate(dto: CreateAssignmentDto) returns (o: Outcome)
      ensures !UserLive(userRepository.rows, dto.userId) ==> o == Fail(UserNotFound)
      ensures UserLive(userRepository.rows, dto.userId) && !UserLive(userRepository.rows, dto.grantedBy) ==>
        o == Fail(GrantorNotFound)
      ensures UserLive(userRepository.rows, dto.userId) && UserLive(userRepository.rows, dto.grantedBy)
              && Missing(dto.roles, LiveRoleIds(roleRepository.rows)) != [] ==>
        o == Fail(RolesNotFoundError(Missing(dto.roles, LiveRoleIds(roleRepository.rows))))
      ensures UserLive(userRepository.rows, dto.userId) && UserLive(userRepository.rows, dto.grantedBy)
              && Missing(dto.roles, LiveRoleIds(roleRepository.rows)) == []
              && Missing(dto.accessEnvironments, LivePermissionIds(environmentPermissionRepository.rows)) != [] ==>
        o == Fail(PermissionsNotFoundError(Missing(dto.accessEnvironments, LivePermissionIds(environmentPermissionRepository.rows))))
      ensures UserLive(userRepository.rows, dto.userId) && UserLive(userRepository.rows, dto.grantedBy)
              && Missing(dto.roles, LiveRoleIds(roleRepository.rows)) == []
              && Missing(dto.accessEnvironments, LivePermissionIds(environmentPermissionRepository.rows)) == [] ==>
        (o == Done <==> WindowValid(dto.startDate, dto.endDate))
      ensures o.Fail? && UserLive(userRepository.rows, dto.userId) && UserLive(userRepository.rows, dto.grantedBy)
              && Missing(dto.roles, LiveRoleIds(roleRepository.rows)) == []
              && Missing(dto.accessEnvironments, LivePermissionIds(environmentPermissionRepository.rows)) == [] ==>
        o == Fail(InvalidDateRange)
      ensures o == Done ==>
        (forall x :: x in dto.roles ==> x in LiveRoleIds(roleRepository.rows))
        && (forall x :: x in dto.accessEnvironments ==> x in LivePermissionIds(environmentPermissionRepository.rows))
    {
      if userRepository.FindById(dto.userId, false).None? {
        return Fail(UserNotFound);
      }
      if userRepository.FindById(dto.grantedBy, false).None? {
        return Fail(GrantorNotFound);
      }
      o := ValidateRoleIds(dto.roles);
      if o.Fail? {
        return;
      }
      o := ValidateEnvironmentPermissionIds(dto.accessEnvironments);
      if o.Fail? {
        return;
      }
      if dto.endDate.Some? && dto.endDate.value <= dto.startDate {
        return Fail(InvalidDateRange);
      }
    }

    /** `create(dto)`: the checks of `CheckCreate`, then the new row is
        written; nothing is written when a check fails. */
    method Create(dto: CreateAssignmentDto, freshId: Id, now: Timestamp) returns (r: Result<RoleAssignment>)
      requires Valid()
      modifies roleAssignmentRepository
      ensures Valid()
      ensures r.Err? ==> roleAssignmentRepository.rows == old(roleAssignmentRepository.rows)
      ensures UserLive(userRepository.rows, dto.userId) && UserLive(userRepository.rows, dto.grantedBy)
              && Missing(dto.roles, LiveRoleIds(roleRepository.rows)) == []
              && Missing(dto.accessEnvironments, LivePermissionIds(environmentPermissionRepository.rows)) == []
              && WindowValid(dto.startDate, dto.endDate) && freshId !in old(roleAssignmentRepository.rows) ==>
        r == Ok(StoredAssignment(NewAssignment(dto, freshId, now), now))
        && roleAssignmentRepository.rows
           == old(roleAssignmentRepository.rows)[freshId := StoredAssignment(NewAssignment(dto, freshId, now), now)]
      ensures UserLive(userRepository.rows, dto.userId) && UserLive(userRepository.rows, dto.grantedBy)
              && Missing(dto.roles, LiveRoleIds(roleRepository.rows)) == []
              && Missing(dto.accessEnvironments, LivePermissionIds(environmentPermissionRepository.rows)) == []
              && WindowValid(dto.startDate, dto.endDate) && freshId in old(roleAssignmentRepository.rows) ==>
        r == Err(UniqueConstraintFailed("id"))
      ensures !UserLive(userRepository.rows, dto.userId) ==> r == Err(UserNotFound)
      ensures UserLive(userRepository.rows, dto.userId) && !UserLive(userRepository.rows, dto.grantedBy) ==>
        r == Err(GrantorNotFound)
      ensures UserLive(userRepository.rows, dto.userId) && UserLive(userRepository.rows, dto.grantedBy)
              && Missing(dto.roles, LiveRoleIds(roleRepository.rows)) != [] ==>
        r == Err(RolesNotFoundError(Missing(dto.roles, LiveRoleIds(roleRepository.rows))))
      ensures UserLive(userRepository.rows, dto.userId) && UserLive(userRepository.rows, dto.grantedBy)
              && Missing(dto.roles, LiveRoleIds(roleRepository.rows)) == []
              && Missing(dto.accessEnvironments, LivePermissionIds(environmentPermissionRepository.rows)) != [] ==>
        r == Err(PermissionsNotFoundError(Missing(dto.accessEnvironments, LivePermissionIds(environmentPermissionRepository.rows))))
      ensures UserLive(userRepository.rows, dto.userId) && UserLive(userRepository.rows, dto.grantedBy)
              && Missing(dto.roles, LiveRoleIds(roleRepository.rows)) == []
              && Missing(dto.accessEnvironments, LivePermissionIds(environmentPermissionRepository.rows)) == []
              && !WindowValid(dto.startDate, dto.endDate) ==>
        r == Err(InvalidDateRange)
      ensures RolesResolve(old(roleAssignmentRepository.rows), roleRepository.rows) ==>
        RolesResolve(roleAssignmentRepository.rows, roleRepository.rows)
      ensures PermissionsResolve(old(roleAssignmentRepository.rows), environmentPermissionRepository.rows) ==>
        PermissionsResolve(roleAssignmentRepository.rows, environmentPermissionRepository.rows)
      ensures WindowsValid(old(roleAssignmentRepository.rows)) ==> WindowsValid(roleAssignmentRepository.rows)
    {
      var checked := CheckCreate(dto);
      if checked.Fail? {
        return Err(checked.error);
      }
      ghost var before := roleAssignmentRepository.rows;
      r := roleAssignmentRepository.Create(NewAssignment(dto, freshId, now), now);
      if r.Ok? {
        StoreResolvingAssignment(before, roleRepository.rows, environmentPermissionRepository.rows, freshId, r.value);
        StoreValidWindow(before, freshId, r.value);
      }
    }

    /** The checks `update(id, dto)` runs before writing, in order: the
        assignment must be live, sent role and environment lists must
        resolve, and the window, with each sent date merged with the stored
        other one, must be well formed. Returns the stored row. */
    method CheckUpdate(id: Id, dto: UpdateAssignmentDto) returns (r: Result<RoleAssignment>)
      ensures !(id in roleAssignmentRepository.rows && !roleAssignmentRepository.rows[id].IsDeleted()) ==>
        r == Err(AssignmentNotFound)
      ensures id in roleAssignmentRepository.rows && !roleAssignmentRepository.rows[id].IsDeleted()
              && dto.roles.Some? && Missing(dto.roles.value, LiveRoleIds(roleRepository.rows)) != [] ==>
        r == Err(RolesNotFoundError(Missing(dto.roles.value, LiveRoleIds(roleRepository.rows))))
      ensures id in roleAssignmentRepository.rows && !roleAssignmentRepository.rows[id].IsDeleted()
              && (dto.roles.Some? ==> Missing(dto.roles.value, LiveRoleIds(roleRepository.rows)) == [])
              && dto.accessEnvironments.Some?
              && Missing(dto.accessEnvironments.value, LivePermissionIds(environmentPermissionRepository.rows)) != [] ==>
        r == Err(PermissionsNotFoundError(
               Missing(dto.accessEnvironments.value, LivePermissionIds(environmentPermissionRepository.rows))))
      ensures id in roleAssignmentRepository.rows && !roleAssignmentRepository.rows[id].IsDeleted()
              && (dto.roles.Some? ==> Missing(dto.roles.value, LiveRoleIds(roleRepository.rows)) == [])
              && (dto.accessEnvironments.Some? ==>
                    Missing(dto.accessEnvironments.value, LivePermissionIds(environmentPermissionRepository.rows)) == []) ==>
        var stored := roleAssignmentRepository.rows[id];
        var startDate := if dto.startDate.Some? then dto.startDate.value else stored.startDate;
        var endDate := if dto.endDate.Some? then dto.endDate else stored.endDate;
        r == (if WindowValid(startDate, endDate) then Ok(stored) else Err(InvalidDateRange))
      ensures r.Ok? ==>
        (dto.roles.Some? ==> forall x :: x in dto.roles.value ==> x in LiveRoleIds(roleRepository.rows))
        && (dto.accessEnvironments.Some? ==>
              forall x :: x in dto.accessEnvironments.value ==> x in LivePermissionIds(environmentPermissionRepository.rows))
    {
      var found := FindById(id, false);
      if found.Err? {
        return Err(found.error);
      }
      var existing := found.value;
      if dto.roles.Some? {
        var rolesOk := ValidateRoleIds(dto.roles.value);
        if rolesOk.Fail? {
          return Err(rolesOk.error);
        }
      }
      if dto.accessEnvironments.Some? {
        var permissionsOk := ValidateEnvironmentPermissionIds(dto.accessEnvironments.value);
        if permissionsOk.Fail? {
          return Err(permissionsOk.error);
        }
      }
      var startDate := if dto.startDate.Some? then dto.startDate.value else existing.startDate;
      var endDate := if dto.endDate.Some? then dto.endDate else existing.endDate;
      if endDate.Some? && endDate.value <= startDate {
        return Err(InvalidDateRange);
      }
      return Ok(existing);
    }

    /** `update(id, dto)`: the checks of `CheckUpdate`, then the sent fields
        are written over the stored row; nothing is written when a check
        fails. */
    method Update(id: Id, dto: UpdateAssignmentDto) returns (r: Result<RoleAssignment>)
      requires Valid()
      modifies roleAssignmentRepository
      ensures Valid()
      ensures r.Err? ==> roleAssignmentRepository.rows == old(roleAssignmentRepository.rows)
      ensures !(id in old(roleAssignmentRepository.rows) && !old(roleAssignmentRepository.rows)[id].IsDeleted()) ==>
        r == Err(AssignmentNotFound)
      ensures id in old(roleAssignmentRepository.rows) && !old(roleAssignmentRepository.rows)[id].IsDeleted()
              && dto.roles.Some? && Missing(dto.roles.value, LiveRoleIds(roleRepository.rows)) != [] ==>
        r == Err(RolesNotFoundError(Missing(dto.roles.value, LiveRoleIds(roleRepository.rows))))
      ensures id in old(roleAssignmentRepository.rows) && !old(roleAssignmentRepository.rows)[id].IsDeleted()
              && (dto.roles.Some? ==> Missing(dto.roles.value, LiveRoleIds(roleRepository.rows)) == [])
              && dto.accessEnvironments.Some?
              && Missing(dto.accessEnvironments.value, LivePermissionIds(environmentPermissionRepository.rows)) != [] ==>
        r == Err(PermissionsNotFoundError(
               Missing(dto.accessEnvironments.value, LivePermissionIds(environmentPermissionRepository.rows))))
      ensures id in old(roleAssignmentRepository.rows) && !old(roleAssignmentRepository.rows)[id].IsDeleted()
              && (dto.roles.Some? ==> Missing(dto.roles.value, LiveRoleIds(roleRepository.rows)) == [])
              && (dto.accessEnvironments.Some? ==>
                    Missing(dto.accessEnvironments.value, LivePermissionIds(environmentPermissionRepository.rows)) == [])
              && !WindowValid(ApplyAssignmentPatch(old(roleAssignmentRepository.rows)[id], AssignmentPatchOf(dto)).startDate,
                              ApplyAssignmentPatch(old(roleAssignmentRepository.rows)[id], AssignmentPatchOf(dto)).endDate) ==>
        r == Err(InvalidDateRange)
      ensures id in old(roleAssignmentRepository.rows) && !old(roleAssignmentRepository.rows)[id].IsDeleted()
              && (dto.roles.Some? ==> Missing(dto.roles.value, LiveRoleIds(roleRepository.rows)) == [])
              && (dto.accessEnvironments.Some? ==>
                    Missing(dto.accessEnvironments.value, LivePermissionIds(environmentPermissionRepository.rows)) == [])
              && WindowValid(ApplyAssignmentPatch(old(roleAssignmentRepository.rows)[id], AssignmentPatchOf(dto)).startDate,
                             ApplyAssignmentPatch(old(roleAssignmentRepository.rows)[id], AssignmentPatchOf(dto)).endDate) ==>
        var merged := ApplyAssignmentPatch(old(roleAssignmentRepository.rows)[id], AssignmentPatchOf(dto));
        r == Ok(merged) && roleAssignmentRepository.rows == old(roleAssignmentRepository.rows)[id := merged]
      ensures r.Ok? ==> WindowValid(r.value.startDate, r.value.endDate)
      ensures RolesResolve(old(roleAssignmentRepository.rows), roleRepository.rows) ==>
        RolesResolve(roleAssignmentRepository.rows, roleRepository.rows)
      ensures PermissionsResolve(old(roleAssignmentRepository.rows), environmentPermissionRepository.rows) ==>
        PermissionsResolve(roleAssignmentRepository.rows, environmentPermissionRepository.rows)
      ensures WindowsValid(old(roleAssignmentRepository.rows)) ==> WindowsValid(roleAssignmentRepository.rows)
    {
      var checked := CheckUpdate(id, dto);
      if checked.Err? {
        return Err(checked.error);
      }
      ghost var before := roleAssignmentRepository.rows;
      r := roleAssignmentRepository.Update(id, AssignmentPatchOf(dto));
      assert r.Ok? && roleAssignmentRepository.rows == before[id := r.value];
      assert dto.roles.None? ==> r.value.roles == before[id].roles;
      assert dto.accessEnvironments.None? ==> r.value.accessEnvironments == before[id].accessEnvironments;
      StoreResolvingAssignment(before, roleRepository.rows, environmentPermissionRepository.rows, id, r.value);
      StoreValidWindow(before, id, r.value);
    }

    /** `softDelete(id)`: the assignment must be live. */
    method SoftDelete(id: Id, now: Timestamp) returns (r: Outcome)
      requires Valid()
      modifies roleAssignmentRepository
      ensures Valid()
      ensures !(id in old(roleAssignmentRepository.rows) && !old(roleAssignmentRepository.rows)[id].IsDeleted()) ==>
        r == Fail(AssignmentNotFound) && roleAssignmentRepository.rows == old(roleAssignmentRepository.rows)
      ensures id in old(roleAssignmentRepository.rows) && !old(roleAssignmentRepository.rows)[id].IsDeleted() ==>
        r == Done && roleAssignmentRepository.rows
          == old(roleAssignmentRepository.rows)[id := old(roleAssignmentRepository.rows)[id].(deletedAt := Some(now))]
      ensures RolesResolve(old(roleAssignmentRepository.rows), roleRepository.rows) ==>
        RolesResolve(roleAssignmentRepository.rows, roleRepository.rows)
      ensures PermissionsResolve(old(roleAssignmentRepository.rows), environmentPermissionRepository.rows) ==>
        PermissionsResolve(roleAssignmentRepository.rows, environmentPermissionRepository.rows)
      ensures WindowsValid(old(roleAssignmentRepository.rows)) ==> WindowsValid(roleAssignmentRepository.rows)
    {
      var found := FindById(id, false);
      if found.Err? {
        return Fail(found.error);
      }
      r := roleAssignmentRepository.SoftDelete(id, now);
    }

    /** `restore(id)`: the assignment must exist and be soft-deleted; returns
        the live row. The roles and permissions it lists are not checked
        again. */
    method Restore(id: Id) returns (r: Result<RoleAssignment>)
      requires Valid()
      modifies roleAssignmentRepository
      ensures Valid()
      ensures id !in old(roleAssignmentRepository.rows) ==>
        r == Err(AssignmentNotFound) && roleAssignmentRepository.rows == old(roleAssignmentRepository.rows)
      ensures id in old(roleAssignmentRepository.rows) && !old(roleAssignmentRepository.rows)[id].IsDeleted() ==>
        r == Err(AssignmentNotDeleted) && roleAssignmentRepository.rows == old(roleAssignmentRepository.rows)
      ensures id in old(roleAssignmentRepository.rows) && old(roleAssignmentRepository.rows)[id].IsDeleted() ==>
        r == Ok(old(roleAssignmentRepository.rows)[id].(deletedAt := None))
        && roleAssignmentRepository.rows
           == old(roleAssignmentRepository.rows)[id := old(roleAssignmentRepository.rows)[id].(deletedAt := None)]
      ensures RolesResolve(old(roleAssignmentRepository.rows), roleRepository.rows) ==>
        RolesResolve(roleAssignmentRepository.rows, roleRepository.rows)
      ensures PermissionsResolve(old(roleAssignmentRepository.rows), environmentPermissionRepository.rows) ==>
        PermissionsResolve(roleAssignmentRepository.rows, environmentPermissionRepository.rows)
      ensures WindowsValid(old(roleAssignmentRepository.rows)) ==> WindowsValid(roleAssignmentRepository.rows)
    {
      var found := roleAssignmentRepository.FindById(id, true);
      if found.None? {
        return Err(AssignmentNotFound);
      }
      if found.value.deletedAt.None? {
        return Err(AssignmentNotDeleted);
      }
      var done := roleAssignmentRepository.Restore(id);
      assert done == Done;
      r := FindById(id, false);
    }

    /** `hardDelete(id)`: the assignment may be soft-deleted; the row goes. */
    method HardDelete(id: Id) returns (r: Outcome)
      requires Valid()
      modifies roleAssignmentRepository
      ensures Valid()
      ensures id !in old(roleAssignmentRepository.rows) ==>
        r == Fail(AssignmentNotFound) && roleAssignmentRepository.rows == old(roleAssignmentRepository.rows)
      ensures id in old(roleAssignmentRepository.rows) ==>
        r == Done && roleAssignmentRepository.rows == old(roleAssignmentRepository.rows) - {id}
      ensures RolesResolve(old(roleAssignmentRepository.rows), roleRepository.rows) ==>
        RolesResolve(roleAssignmentRepository.rows, roleRepository.rows)
      ensures PermissionsResolve(old(roleAssignmentRepository.rows), environmentPermissionRepository.rows) ==>
        PermissionsResolve(roleAssignmentRepository.rows, environmentPermissionRepository.rows)
      ensures WindowsValid(old(roleAssignmentRepository.rows)) ==> WindowsValid(roleAssignmentRepository.rows)
    {
      var found := FindById(id, true);
      if found.Err? {
        return Fail(found.error);
      }
      r := roleAssignmentRepository.HardDelete(id);
    }
  }
}
