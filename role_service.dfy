/** The Role service: create, read, update, soft delete, restore and hard
    delete of roles, refusing duplicate names and deletion of roles that
    assignments still list. */
module RoleServices {
  import opened Common
  import opened RoleDomain
  import opened RoleAssignmentDomain
  import opened RoleRepositories
  import opened RoleAssignmentRepositories
  import opened ReferentialIntegrity

  const RoleNotFound := HttpError(NotFound, "Role not found")
  const RoleAlreadyExists := HttpError(Conflict, "Role with this name already exists")
  const RoleNotDeleted := HttpError(Conflict, "Role is not deleted")

  /** The conflict raised when `n` assignments still list the role. */
  function RoleInUseError(n: nat): HttpError
  {
    HttpError(Conflict, "Cannot delete role: it is currently being used in " + NatToString(n) + " role assignment(s)")
  }

  /** The validated body of a create request; `active` may be omitted. */
  datatype CreateRoleDto = CreateRoleDto(name: string, description: string, accessAreas: seq<string>, active: Option<bool>)

  /** The validated body of an update request: every field optional. */
  datatype UpdateRoleDto = UpdateRoleDto(
    name: Option<string>,
    description: Option<string>,
    accessAreas: Option<seq<string>>,
    active: Option<bool>)

  /** The entity `create` builds: a fresh id, `active` defaulting to true, not deleted. */
  function NewRole(dto: CreateRoleDto, id: Id, now: Timestamp): (r: Role)
    ensures r.id == id && r.name == dto.name && !r.IsDeleted()
    ensures r.active <==> dto.active != Some(false)
    ensures r.description == dto.description && r.accessAreas == dto.accessAreas
  {
    Role(id, dto.name, dto.description, dto.accessAreas, dto.active.GetOr(true), now, now, None)
  }

  /** The update DTO handed to the repository as a partial entity. */
  function RolePatchOf(dto: UpdateRoleDto): (p: RolePatch)
    ensures p.id.None? && p.createdAt.None? && p.updatedAt.None? && p.deletedAt.None?
    ensures p.name == dto.name && p.accessAreas == dto.accessAreas
  {
    RolePatch(None, dto.name, dto.description, dto.accessAreas, dto.active, None, None, None)
  }

  /** Whether a live row other than `except` holds the name. */
  predicate LiveNameTakenByOther(rows: map<Id, Role>, name: string, except: Option<Id>)
  {
    exists k :: k in rows && rows[k].name == name && !rows[k].IsDeleted() && Some(k) != except
  }

  /** Whether the row exists and is not soft-deleted. */
  predicate IsLive(rows: map<Id, Role>, id: Id)
  {
    id in rows && !rows[id].IsDeleted()
  }

  /** The assignments among `all` that list the role. The source counts the
      rows of a list; counting them as a set gives the same number because
      every row carries its own id, so no two rows are equal values. */
  function UsingRole(all: set<RoleAssignment>, roleId: Id): set<RoleAssignment>
  {
    set a | a in all && roleId in a.roles
  }

  /** Some assignment the filter admits lists the role exactly when the set
      of such assignments `findAll` returns is non-empty. */
  lemma UsingRoleNonEmpty(repo: RoleAssignmentRepository, roleId: Id, includeDeleted: bool)
    ensures |UsingRole(repo.FindAll(includeDeleted), roleId)| > 0 <==> RoleInUse(repo.rows, roleId, includeDeleted)
  {
    var s := UsingRole(repo.FindAll(includeDeleted), roleId);
    if |s| > 0 {
      var a :| a in s;
      var k :| k in repo.rows && repo.rows[k] == a;
      assert k in repo.rows && (includeDeleted || !repo.rows[k].IsDeleted()) && roleId in repo.rows[k].roles;
    }
    if RoleInUse(repo.rows, roleId, includeDeleted) {
      var k :| k in repo.rows && (includeDeleted || !repo.rows[k].IsDeleted()) && roleId in repo.rows[k].roles;
      assert repo.rows[k] in s;
    }
  }

  class RoleService {
    const roleRepository: RoleRepository
    const roleAssignmentRepository: RoleAssignmentRepository

    ghost predicate Valid()
      reads this, roleRepository, roleAssignmentRepository
    {
      roleRepository.Valid() && roleAssignmentRepository.Valid()
    }

    constructor (roles: RoleRepository, assignments: RoleAssignmentRepository)
      ensures roleRepository == roles && roleAssignmentRepository == assignments
    {
      roleRepository := roles;
      roleAssignmentRepository := assignments;
    }

    /** `findById(id, includeDeleted)`: the row, or NotFound. */
    function FindById(id: Id, includeDeleted: bool): (r: Result<Role>)
      reads roleRepository
      ensures r.Ok? <==> id in roleRepository.rows && (includeDeleted || !roleRepository.rows[id].IsDeleted())
      ensures r.Ok? ==> r.value == roleRepository.rows[id]
      ensures r.Err? ==> r.error == RoleNotFound
    {
      match roleRepository.FindById(id, includeDeleted)
      case Some(role) => Ok(role)
      case None => Err(RoleNotFound)
    }

    /** `validateRoleNotInUse(roleId, includeDeleted)`: a conflict naming how
        many admitted assignments list the role, if any do. */
    function ValidateRoleNotInUse(roleId: Id, includeDeleted: bool): (r: Outcome)
      requires roleAssignmentRepository.Valid()
      reads roleAssignmentRepository
      ensures r.Done? <==> !RoleInUse(roleAssignmentRepository.rows, roleId, includeDeleted)
      ensures r.Fail? ==> r.error.status == Conflict
      ensures r.Fail? ==> r.error == RoleInUseError(|UsingRole(roleAssignmentRepository.FindAll(includeDeleted), roleId)|)
    {
      var using := UsingRole(roleAssignmentRepository.FindAll(includeDeleted), roleId);
      UsingRoleNonEmpty(roleAssignmentRepository, roleId, includeDeleted);
      if |using| > 0 then Fail(RoleInUseError(|using|)) else Done
    }

    /** `create(dto)`: refuses a name a live role holds; a name only a
        soft-deleted role holds passes this check and is then refused by the
        database's unique index. */
    method Create(dto: CreateRoleDto, freshId: Id, now: Timestamp) returns (r: Result<Role>)
      requires Valid()
      modifies roleRepository
      ensures Valid()
      ensures LiveNameTakenByOther(old(roleRepository.rows), dto.name, None) ==>
        r == Err(RoleAlreadyExists) && roleRepository.rows == old(roleRepository.rows)
      ensures !LiveNameTakenByOther(old(roleRepository.rows), dto.name, None) ==>
        if freshId !in old(roleRepository.rows) && !NameTakenByOther(old(roleRepository.rows), dto.name, None) then
          r == Ok(StoredRole(NewRole(dto, freshId, now), now))
          && roleRepository.rows == old(roleRepository.rows)[freshId := StoredRole(NewRole(dto, freshId, now), now)]
        else
          r == Err(UniqueConstraintFailed(if freshId in old(roleRepository.rows) then "id" else "name"))
          && roleRepository.rows == old(roleRepository.rows)
      ensures RolesResolve(roleAssignmentRepository.rows, old(roleRepository.rows)) ==>
        RolesResolve(roleAssignmentRepository.rows, roleRepository.rows)
    {
      var existing := roleRepository.FindByName(dto.name, false);
      if existing.Some? {
        return Err(RoleAlreadyExists);
      }
      r := roleRepository.Create(NewRole(dto, freshId, now), now);
    }

    /** `update(id, dto)`: the role must be live; a non-empty new name held
        by another live role is a conflict. */
    method Update(id: Id, dto: UpdateRoleDto) returns (r: Result<Role>)
      requires Valid()
      modifies roleRepository
      ensures Valid()
      ensures !IsLive(old(roleRepository.rows), id) ==>
        r == Err(RoleNotFound) && roleRepository.rows == old(roleRepository.rows)
      ensures IsLive(old(roleRepository.rows), id) && dto.name.Some? && dto.name.value != ""
              && LiveNameTakenByOther(old(roleRepository.rows), dto.name.value, Some(id)) ==>
        r == Err(RoleAlreadyExists) && roleRepository.rows == old(roleRepository.rows)
      ensures IsLive(old(roleRepository.rows), id)
              && !(dto.name.Some? && NameTakenByOther(old(roleRepository.rows), dto.name.value, Some(id))) ==>
        r == Ok(ApplyRolePatch(old(roleRepository.rows)[id], RolePatchOf(dto)))
        && roleRepository.rows == old(roleRepository.rows)[id := ApplyRolePatch(old(roleRepository.rows)[id], RolePatchOf(dto))]
      ensures IsLive(old(roleRepository.rows), id) && dto.name.Some?
              && NameTakenByOther(old(roleRepository.rows), dto.name.value, Some(id))
              && !(dto.name.value != "" && LiveNameTakenByOther(old(roleRepository.rows), dto.name.value, Some(id))) ==>
        r == Err(UniqueConstraintFailed("name")) && roleRepository.rows == old(roleRepository.rows)
      ensures r.Err? ==> roleRepository.rows == old(roleRepository.rows)
      ensures RolesResolve(roleAssignmentRepository.rows, old(roleRepository.rows)) ==>
        RolesResolve(roleAssignmentRepository.rows, roleRepository.rows)
    {
      var found := FindById(id, false);
      if found.Err? {
        return Err(found.error);
      }
      if dto.name.Some? && dto.name.value != "" {
        var existing := roleRepository.FindByName(dto.name.value, false);
        if existing.Some? && existing.value.id != id {
          return Err(RoleAlreadyExists);
        }
      }
      r := roleRepository.Update(id, RolePatchOf(dto));
    }

    /** `softDelete(id)`: the role must be live and listed by no live
        assignment. */
    method SoftDelete(id: Id, now: Timestamp) returns (r: Outcome)
      requires Valid()
      modifies roleRepository
      ensures Valid()
      ensures !IsLive(old(roleRepository.rows), id) ==>
        r == Fail(RoleNotFound) && roleRepository.rows == old(roleRepository.rows)
      ensures IsLive(old(roleRepository.rows), id) && RoleInUse(roleAssignmentRepository.rows, id, false) ==>
        r == ValidateRoleNotInUse(id, false) && roleRepository.rows == old(roleRepository.rows)
      ensures IsLive(old(roleRepository.rows), id) && !RoleInUse(roleAssignmentRepository.rows, id, false) ==>
        r == Done
        && roleRepository.rows == old(roleRepository.rows)[id := old(roleRepository.rows)[id].(deletedAt := Some(now))]
      ensures r.Done? ==> forall k :: k in roleAssignmentRepository.rows && !roleAssignmentRepository.rows[k].IsDeleted() ==>
        id !in roleAssignmentRepository.rows[k].roles
      ensures RolesResolve(roleAssignmentRepository.rows, old(roleRepository.rows)) ==>
        RolesResolve(roleAssignmentRepository.rows, roleRepository.rows)
    {
      var found := FindById(id, false);
      if found.Err? {
        return Fail(found.error);
      }
      var check := ValidateRoleNotInUse(id, false);
      if check.Fail? {
        return check;
      }
      r := roleRepository.SoftDelete(id, now);
    }

    /** `restore(id)`: the role must exist and be soft-deleted; returns the
        live row. */
    method Restore(id: Id) returns (r: Result<Role>)
      requires Valid()
      modifies roleRepository
      ensures Valid()
      ensures id !in old(roleRepository.rows) ==>
        r == Err(RoleNotFound) && roleRepository.rows == old(roleRepository.rows)
      ensures id in old(roleRepository.rows) && !old(roleRepository.rows)[id].IsDeleted() ==>
        r == Err(RoleNotDeleted) && roleRepository.rows == old(roleRepository.rows)
      ensures id in old(roleRepository.rows) && old(roleRepository.rows)[id].IsDeleted() ==>
        r == Ok(old(roleRepository.rows)[id].(deletedAt := None))
        && roleRepository.rows == old(roleRepository.rows)[id := old(roleRepository.rows)[id].(deletedAt := None)]
      ensures RolesResolve(roleAssignmentRepository.rows, old(roleRepository.rows)) ==>
        RolesResolve(roleAssignmentRepository.rows, roleRepository.rows)
    {
      var found := roleRepository.FindById(id, true);
      if found.None? {
        return Err(RoleNotFound);
      }
      if found.value.deletedAt.None? {
        return Err(RoleNotDeleted);
      }
      var done := roleRepository.Restore(id);
      assert done == Done;
      r := FindById(id, false);
    }

    /** `hardDelete(id)`: the role may be soft-deleted, but no assignment,
        soft-deleted ones included, may list it; this keeps every listed
        role id resolvable. */
    method HardDelete(id: Id) returns (r: Outcome)
      requires Valid()
      modifies roleRepository
      ensures Valid()
      ensures id !in old(roleRepository.rows) ==>
        r == Fail(RoleNotFound) && roleRepository.rows == old(roleRepository.rows)
      ensures id in old(roleRepository.rows) && RoleInUse(roleAssignmentRepository.rows, id, true) ==>
        r == ValidateRoleNotInUse(id, true) && roleRepository.rows == old(roleRepository.rows)
      ensures id in old(roleRepository.rows) && !RoleInUse(roleAssignmentRepository.rows, id, true) ==>
        r == Done && roleRepository.rows == old(roleRepository.rows) - {id}
      ensures RolesResolve(roleAssignmentRepository.rows, old(roleRepository.rows)) ==>
        RolesResolve(roleAssignmentRepository.rows, roleRepository.rows)
    {
      var found := FindById(id, true);
      if found.Err? {
        return Fail(found.error);
      }
      var check := ValidateRoleNotInUse(id, true);
      if check.Fail? {
        return check;
      }
      ghost var before := roleRepository.rows;
      r := roleRepository.HardDelete(id);
      if RolesResolve(roleAssignmentRepository.rows, before) {
        RemoveUnusedRole(roleAssignmentRepository.rows, before, id);
      }
    }
  }

  /** The hard-delete check is the stricter one: a role it lets through is
      let through by the soft-delete check as well. */
  lemma HardDeleteCheckImpliesSoftDeleteCheck(s: RoleService, roleId: Id)
    requires s.roleAssignmentRepository.Valid()
    ensures s.ValidateRoleNotInUse(roleId, true).Done? ==> s.ValidateRoleNotInUse(roleId, false).Done?
  {
  }
}
