/** The EnvironmentPermission service: create, read, update, soft delete,
    restore and hard delete of environment permissions, refusing duplicate
    names and deletion of permissions that assignments still list. */
module EnvironmentPermissionServices {
  import opened Common
  import opened EnvironmentPermissionDomain
  import opened RoleAssignmentDomain
  import opened EnvironmentPermissionRepositories
  import opened RoleAssignmentRepositories
  import opened ReferentialIntegrity

  const PermissionNotFound := HttpError(NotFound, "Environment permission not found")
  const PermissionAlreadyExists := HttpError(Conflict, "Environment permission with this name already exists")
  const PermissionNotDeleted := HttpError(Conflict, "Environment permission is not deleted")

  /** The conflict raised when `n` assignments still list the permission. */
  function PermissionInUseError(n: nat): HttpError
  {
    HttpError(Conflict, "Cannot delete environment permission: it is currently being used in "
                        + NatToString(n) + " role assignment(s)")
  }

  /** The validated body of a create request. */
  datatype CreatePermissionDto = CreatePermissionDto(
    name: string,
    permittedActions: seq<PermittedAction>,
    profile: string,
    purpose: string)

  /** The validated body of an update request: every field optional. */
  datatype UpdatePermissionDto = UpdatePermissionDto(
    name: Option<string>,
    permittedActions: Option<seq<PermittedAction>>,
    profile: Option<string>,
    purpose: Option<string>)

  /** The entity `create` builds: a fresh id, not deleted. */
  function NewPermission(dto: CreatePermissionDto, id: Id, now: Timestamp): (e: EnvironmentPermission)
    ensures e.id == id && e.name == dto.name && e.permittedActions == dto.permittedActions && !e.IsDeleted()
    ensures e.profile == dto.profile && e.purpose == dto.purpose
    ensures e.createdAt == now && e.updatedAt == now
  {
    EnvironmentPermission(id, dto.name, dto.permittedActions, dto.profile, dto.purpose, now, now, None)
  }

  /** The update DTO handed to the repository as a partial entity. */
  function PermissionPatchOf(dto: UpdatePermissionDto): (p: PermissionPatch)
    ensures p.id.None? && p.createdAt.None? && p.updatedAt.None? && p.deletedAt.None?
    ensures p.name == dto.name && p.permittedActions == dto.permittedActions
  {
    PermissionPatch(None, dto.name, dto.permittedActions, dto.profile, dto.purpose, None, None, None)
  }

  /** Whether a live row other than `except` holds the name. */
  predicate LiveNameTakenByOther(rows: map<Id, EnvironmentPermission>, name: string, except: Option<Id>)
  {
    exists k :: k in rows && rows[k].name == name && !rows[k].IsDeleted() && Some(k) != except
  }

  /** Whether the row exists and is not soft-deleted. */
  predicate IsLive(rows: map<Id, EnvironmentPermission>, id: Id)
  {
    id in rows && !rows[id].IsDeleted()
  }

  /** The assignments among `all` that list the permission. The source
      counts the rows of a list; counting them as a set gives the same number
      because every row carries its own id, so no two rows are equal values. */
  function UsingPermission(all: set<RoleAssignment>, permissionId: Id): set<RoleAssignment>
  {
    set a | a in all && permissionId in a.accessEnvironments
  }

  /** Some assignment the filter admits lists the permission exactly when the set
      of such assignments `findAll` returns is non-empty. */
  lemma UsingPermissionNonEmpty(repo: RoleAssignmentRepository, permissionId: Id, includeDeleted: bool)
    ensures |UsingPermission(repo.FindAll(includeDeleted), permissionId)| > 0 <==> PermissionInUse(repo.rows, permissionId, includeDeleted)
  {
    var s := UsingPermission(repo.FindAll(includeDeleted), permissionId);
    if |s| > 0 {
      var a :| a in s;
      var k :| k in repo.rows && repo.rows[k] == a;
      assert k in repo.rows && (includeDeleted || !repo.rows[k].IsDeleted()) && permissionId in repo.rows[k].accessEnvironments;
    }
    if PermissionInUse(repo.rows, permissionId, includeDeleted) {
      var k :| k in repo.rows && (includeDeleted || !repo.rows[k].IsDeleted()) && permissionId in repo.rows[k].accessEnvironments;
      assert repo.rows[k] in s;
    }
  }

  class EnvironmentPermissionService {
    const environmentPermissionRepository: EnvironmentPermissionRepository
    const roleAssignmentRepository: RoleAssignmentRepository

    ghost predicate Valid()
      reads this, environmentPermissionRepository, roleAssignmentRepository
    {
      environmentPermissionRepository.Valid() && roleAssignmentRepository.Valid()
    }

    constructor (permissions: EnvironmentPermissionRepository, assignments: RoleAssignmentRepository)
      ensures environmentPermissionRepository == permissions && roleAssignmentRepository == assignments
    {
      environmentPermissionRepository := permissions;
      roleAssignmentRepository := assignments;
    }

    /** `findById(id, includeDeleted)`: the row, or NotFound. */
    function FindById(id: Id, includeDeleted: bool): (r: Result<EnvironmentPermission>)
      reads environmentPermissionRepository
      ensures r.Ok? <==> id in environmentPermissionRepository.rows && (includeDeleted || !environmentPermissionRepository.rows[id].IsDeleted())
      ensures r.Ok? ==> r.value == environmentPermissionRepository.rows[id]
      ensures r.Err? ==> r.error == PermissionNotFound
    {
      match environmentPermissionRepository.FindById(id, includeDeleted)
      case Some(permission) => Ok(permission)
      case None => Err(PermissionNotFound)
    }

    /** `validateEnvironmentPermissionNotInUse(envPermId, includeDeleted)`: a
        conflict naming how many admitted assignments list the permission, if any do. */
    function ValidateEnvironmentPermissionNotInUse(permissionId: Id, includeDeleted: bool): (r: Outcome)
      requires roleAssignmentRepository.Valid()
      reads roleAssignmentRepository
      ensures r.Done? <==> !PermissionInUse(roleAssignmentRepository.rows, permissionId, includeDeleted)
      ensures r.Fail? ==> r.error.status == Conflict
      ensures r.Fail? ==>
        r.error == PermissionInUseError(|UsingPermission(roleAssignmentRepository.FindAll(includeDeleted), permissionId)|)
    {
      var using := UsingPermission(roleAssignmentRepository.FindAll(includeDeleted), permissionId);
      UsingPermissionNonEmpty(roleAssignmentRepository, permissionId, includeDeleted);
      if |using| > 0 then Fail(PermissionInUseError(|using|)) else Done
    }

    /** `create(dto)`: refuses a name a live permission holds; a name only
        a soft-deleted permission holds passes this check and is then refused by the
        database's unique index. */
    method Create(dto: CreatePermissionDto, freshId: Id, now: Timestamp) returns (r: Result<EnvironmentPermission>)
      requires Valid()
      modifies environmentPermissionRepository
      ensures Valid()
      ensures LiveNameTakenByOther(old(environmentPermissionRepository.rows), dto.name, None) ==>
        r == Err(PermissionAlreadyExists) && environmentPermissionRepository.rows == old(environmentPermissionRepository.rows)
      ensures !LiveNameTakenByOther(old(environmentPermissionRepository.rows), dto.name, None) ==>
        if freshId !in old(environmentPermissionRepository.rows) && !NameTakenByOther(old(environmentPermissionRepository.rows), dto.name, None) then
          r == Ok(StoredPermission(NewPermission(dto, freshId, now), now))
          && environmentPermissionRepository.rows == old(environmentPermissionRepository.rows)[freshId := StoredPermission(NewPermission(dto, freshId, now), now)]
        else
          r == Err(UniqueConstraintFailed(if freshId in old(environmentPermissionRepository.rows) then "id" else "name"))
          && environmentPermissionRepository.rows == old(environmentPermissionRepository.rows)
      ensures PermissionsResolve(roleAssignmentRepository.rows, old(environmentPermissionRepository.rows)) ==>
        PermissionsResolve(roleAssignmentRepository.rows, environmentPermissionRepository.rows)
    {
      var existing := environmentPermissionRepository.FindByName(dto.name, false);
      if existing.Some? {
        return Err(PermissionAlreadyExists);
      }
      r := environmentPermissionRepository.Create(NewPermission(dto, freshId, now), now);
    }

    /** `update(id, dto)`: the permission must be live; a non-empty new
        name held by another live permission is a conflict. */
    method Update(id: Id, dto: UpdatePermissionDto) returns (r: Result<EnvironmentPermission>)
      requires Valid()
      modifies environmentPermissionRepository
      ensures Valid()
      ensures !IsLive(old(environmentPermissionRepository.rows), id) ==>
        r == Err(PermissionNotFound) && environmentPermissionRepository.rows == old(environmentPermissionRepository.rows)
      ensures IsLive(old(environmentPermissionRepository.rows), id) && dto.name.Some? && dto.name.value != ""
              && LiveNameTakenByOther(old(environmentPermissionRepository.rows), dto.name.value, Some(id)) ==>
        r == Err(PermissionAlreadyExists) && environmentPermissionRepository.rows == old(environmentPermissionRepository.rows)
      ensures IsLive(old(environmentPermissionRepository.rows), id)
              && !(dto.name.Some? && NameTakenByOther(old(environmentPermissionRepository.rows), dto.name.value, Some(id))) ==>
        r == Ok(ApplyPermissionPatch(old(environmentPermissionRepository.rows)[id], PermissionPatchOf(dto)))
        && environmentPermissionRepository.rows == old(environmentPermissionRepository.rows)[id := ApplyPermissionPatch(old(environmentPermissionRepository.rows)[id], PermissionPatchOf(dto))]
      ensures IsLive(old(environmentPermissionRepository.rows), id) && dto.name.Some?
              && NameTakenByOther(old(environmentPermissionRepository.rows), dto.name.value, Some(id))
              && !(dto.name.value != "" && LiveNameTakenByOther(old(environmentPermissionRepository.rows), dto.name.value, Some(id))) ==>
        r == Err(UniqueConstraintFailed("name")) && environmentPermissionRepository.rows == old(environmentPermissionRepository.rows)
      ensures r.Err? ==> environmentPermissionRepository.rows == old(environmentPermissionRepository.rows)
      ensures PermissionsResolve(roleAssignmentRepository.rows, old(environmentPermissionRepository.rows)) ==>
        PermissionsResolve(roleAssignmentRepository.rows, environmentPermissionRepository.rows)
    {
      var found := FindById(id, false);
      if found.Err? {
        return Err(found.error);
      }
      if dto.name.Some? && dto.name.value != "" {
        var existing := environmentPermissionRepository.FindByName(dto.name.value, false);
        if existing.Some? && existing.value.id != id {
          return Err(PermissionAlreadyExists);
        }
      }
      r := environmentPermissionRepository.Update(id, PermissionPatchOf(dto));
    }

    /** `softDelete(id)`: the permission must be live and listed by no live
        assignment. */
    method SoftDelete(id: Id, now: Timestamp) returns (r: Outcome)
      requires Valid()
      modifies environmentPermissionRepository
      ensures Valid()
      ensures !IsLive(old(environmentPermissionRepository.rows), id) ==>
        r == Fail(PermissionNotFound) && environmentPermissionRepository.rows == old(environmentPermissionRepository.rows)
      ensures IsLive(old(environmentPermissionRepository.rows), id) && PermissionInUse(roleAssignmentRepository.rows, id, false) ==>
        r == ValidateEnvironmentPermissionNotInUse(id, false) && environmentPermissionRepository.rows == old(environmentPermissionRepository.rows)
      ensures IsLive(old(environmentPermissionRepository.rows), id) && !PermissionInUse(roleAssignmentRepository.rows, id, false) ==>
        r == Done
        && environmentPermissionRepository.rows == old(environmentPermissionRepository.rows)[id := old(environmentPermissionRepository.rows)[id].(deletedAt := Some(now))]
      ensures r.Done? ==> forall k :: k in roleAssignmentRepository.rows && !roleAssignmentRepository.rows[k].IsDeleted() ==>
        id !in roleAssignmentRepository.rows[k].accessEnvironments
      ensures PermissionsResolve(roleAssignmentRepository.rows, old(environmentPermissionRepository.rows)) ==>
        PermissionsResolve(roleAssignmentRepository.rows, environmentPermissionRepository.rows)
    {
      var found := FindById(id, false);
      if found.Err? {
        return Fail(found.error);
      }
      var check := ValidateEnvironmentPermissionNotInUse(id, false);
      if check.Fail? {
        return check;
      }
      r := environmentPermissionRepository.SoftDelete(id, now);
    }

    /** `restore(id)`: the permission must exist and be soft-deleted; returns the
        live row. */
    method Restore(id: Id) returns (r: Result<EnvironmentPermission>)
      requires Valid()
      modifies environmentPermissionRepository
      ensures Valid()
      ensures id !in old(environmentPermissionRepository.rows) ==>
        r == Err(PermissionNotFound) && environmentPermissionRepository.rows == old(environmentPermissionRepository.rows)
      ensures id in old(environmentPermissionRepository.rows) && !old(environmentPermissionRepository.rows)[id].IsDeleted() ==>
        r == Err(PermissionNotDeleted) && environmentPermissionRepository.rows == old(environmentPermissionRepository.rows)
      ensures id in old(environmentPermissionRepository.rows) && old(environmentPermissionRepository.rows)[id].IsDeleted() ==>
        r == Ok(old(environmentPermissionRepository.rows)[id].(deletedAt := None))
        && environmentPermissionRepository.rows == old(environmentPermissionRepository.rows)[id := old(environmentPermissionRepository.rows)[id].(deletedAt := None)]
      ensures PermissionsResolve(roleAssignmentRepository.rows, old(environmentPermissionRepository.rows)) ==>
        PermissionsResolve(roleAssignmentRepository.rows, environmentPermissionRepository.rows)
    {
      var found := environmentPermissionRepository.FindById(id, true);
      if found.None? {
        return Err(PermissionNotFound);
      }
      if found.value.deletedAt.None? {
        return Err(PermissionNotDeleted);
      }
      var done := environmentPermissionRepository.Restore(id);
      assert done == Done;
      r := FindById(id, false);
    }

    /** `hardDelete(id)`: the permission may be soft-deleted, but no assignment,
        soft-deleted ones included, may list it; this keeps every listed
        environment id resolvable. */
    method HardDelete(id: Id) returns (r: Outcome)
      requires Valid()
      modifies environmentPermissionRepository
      ensures Valid()
      ensures id !in old(environmentPermissionRepository.rows) ==>
        r == Fail(PermissionNotFound) && environmentPermissionRepository.rows == old(environmentPermissionRepository.rows)
      ensures id in old(environmentPermissionRepository.rows) && PermissionInUse(roleAssignmentRepository.rows, id, true) ==>
        r == ValidateEnvironmentPermissionNotInUse(id, true) && environmentPermissionRepository.rows == old(environmentPermissionRepository.rows)
      ensures id in old(environmentPermissionRepository.rows) && !PermissionInUse(roleAssignmentRepository.rows, id, true) ==>
        r == Done && environmentPermissionRepository.rows == old(environmentPermissionRepository.rows) - {id}
      ensures PermissionsResolve(roleAssignmentRepository.rows, old(environmentPermissionRepository.rows)) ==>
        PermissionsResolve(roleAssignmentRepository.rows, environmentPermissionRepository.rows)
    {
      var found := FindById(id, true);
      if found.Err? {
        return Fail(found.error);
      }
      var check := ValidateEnvironmentPermissionNotInUse(id, true);
      if check.Fail? {
        return check;
      }
      ghost var before := environmentPermissionRepository.rows;
      r := environmentPermissionRepository.HardDelete(id);
      if PermissionsResolve(roleAssignmentRepository.rows, before) {
        RemoveUnusedPermission(roleAssignmentRepository.rows, before, id);
      }
    }
  }

  /** The hard-delete check is the stricter one: a permission it lets
      through is let through by the soft-delete check as well. */
  lemma HardDeleteCheckImpliesSoftDeleteCheck(s: EnvironmentPermissionService, permissionId: Id)
    requires s.roleAssignmentRepository.Valid()
    ensures s.ValidateEnvironmentPermissionNotInUse(permissionId, true).Done? ==>
            s.ValidateEnvironmentPermissionNotInUse(permissionId, false).Done?
  {
  }
}
