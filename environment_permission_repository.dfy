/** The EnvironmentPermission table as the repository sees it: rows keyed by
    id, with the database's unique index on `name`. */
module EnvironmentPermissionRepositories {
  import opened Common
  import opened EnvironmentPermissionDomain

  /** A `Partial<EnvironmentPermission>` passed to `update`; `None` is a field that was not sent. */
  datatype PermissionPatch = PermissionPatch(
    id: Option<Id>,
    name: Option<string>,
    permittedActions: Option<seq<PermittedAction>>,
    profile: Option<string>,
    purpose: Option<string>,
    createdAt: Option<Timestamp>,
    updatedAt: Option<Timestamp>,
    deletedAt: Option<Option<Timestamp>>)

  /** The patch that sends nothing. */
  const EmptyPermissionPatch := PermissionPatch(None, None, None, None, None, None, None, None)

  /** The row `update` writes: sent columns overwrite, unsent ones stay, and
      the id and the three timestamps are stripped from the patch first. */
  function ApplyPermissionPatch(r: EnvironmentPermission, p: PermissionPatch): (s: EnvironmentPermission)
    ensures s.id == r.id && s.createdAt == r.createdAt
    ensures s.updatedAt == r.updatedAt && s.deletedAt == r.deletedAt
    ensures s.name == (if p.name.Some? then p.name.value else r.name)
    ensures s.permittedActions == (if p.permittedActions.Some? then p.permittedActions.value else r.permittedActions)
    ensures s.profile == (if p.profile.Some? then p.profile.value else r.profile)
    ensures s.purpose == (if p.purpose.Some? then p.purpose.value else r.purpose)
  {
    r.(name := p.name.GetOr(r.name),
       permittedActions := p.permittedActions.GetOr(r.permittedActions),
       profile := p.profile.GetOr(r.profile),
       purpose := p.purpose.GetOr(r.purpose))
  }

  /** The row `create` stores: the database sets both timestamps to the
      current instant and leaves `deletedAt` null. */
  function StoredPermission(permission: EnvironmentPermission, now: Timestamp): (s: EnvironmentPermission)
    ensures s.id == permission.id && s.name == permission.name && !s.IsDeleted()
    ensures s.createdAt == now && s.updatedAt == now
  {
    permission.(createdAt := now, updatedAt := now, deletedAt := None)
  }

  /** The unique index on `name`: no two rows share a name. */
  ghost predicate NamesUnique(rows: map<Id, EnvironmentPermission>)
  {
    forall k1, k2 :: k1 in rows && k2 in rows && rows[k1].name == rows[k2].name ==> k1 == k2
  }

  /** Whether some row other than `except` already uses the name. */
  predicate NameTakenByOther(rows: map<Id, EnvironmentPermission>, name: string, except: Option<Id>)
  {
    exists k :: k in rows && rows[k].name == name && Some(k) != except
  }

  class EnvironmentPermissionRepository {
    var rows: map<Id, EnvironmentPermission>

    /** Every row sits under its own id and names are unique. */
    ghost predicate Valid()
      reads this
    {
      (forall k :: k in rows ==> rows[k].id == k) && NamesUnique(rows)
    }

    constructor ()
      ensures Valid() && rows == map[]
    {
      rows := map[];
    }

    /** `create`: the primary key and the name index reject a clash. */
    method Create(permission: EnvironmentPermission, now: Timestamp) returns (r: Result<EnvironmentPermission>)
      requires Valid()
      modifies this
      ensures Valid()
      ensures permission.id in old(rows) ==> r == Err(UniqueConstraintFailed("id")) && rows == old(rows)
      ensures permission.id !in old(rows) && NameTakenByOther(old(rows), permission.name, None) ==>
        r == Err(UniqueConstraintFailed("name")) && rows == old(rows)
      ensures permission.id !in old(rows) && !NameTakenByOther(old(rows), permission.name, None) ==>
        r == Ok(StoredPermission(permission, now)) && rows == old(rows)[permission.id := StoredPermission(permission, now)]
    {
      if permission.id in rows {
        return Err(UniqueConstraintFailed("id"));
      }
      if NameTakenByOther(rows, permission.name, None) {
        return Err(UniqueConstraintFailed("name"));
      }
      var stored := StoredPermission(permission, now);
      rows := rows[permission.id := stored];
      return Ok(stored);
    }

    /** `findAll(includeDeleted)`: the live rows, or every row. */
    function FindAll(includeDeleted: bool): (r: set<EnvironmentPermission>)
      reads this
      ensures forall x :: x in r ==> x in rows.Values && (includeDeleted || !x.IsDeleted())
      ensures forall k :: k in rows && (includeDeleted || !rows[k].IsDeleted()) ==> rows[k] in r
    {
      set x | x in rows.Values && (includeDeleted || !x.IsDeleted())
    }

    /** `findById(id, includeDeleted)`: a soft-deleted row counts as absent
        unless asked for. */
    function FindById(id: Id, includeDeleted: bool): (r: Option<EnvironmentPermission>)
      reads this
      ensures r.Some? <==> id in rows && (includeDeleted || !rows[id].IsDeleted())
      ensures r.Some? ==> r.value == rows[id]
    {
      if id in rows && (includeDeleted || !rows[id].IsDeleted()) then Some(rows[id]) else None
    }

    /** `findByName(name, includeDeleted)`: the row holding the name, seen
        through the same soft-delete filter as `findById`. */
    method FindByName(name: string, includeDeleted: bool) returns (r: Option<EnvironmentPermission>)
      requires Valid()
      ensures r.Some? ==> r.value in rows.Values && r.value.name == name
      ensures r.Some? ==> r.value.id in rows && rows[r.value.id] == r.value
      ensures r.Some? ==> includeDeleted || !r.value.IsDeleted()
      ensures r.None? <==> forall k :: k in rows && rows[k].name == name ==> !includeDeleted && rows[k].IsDeleted()
    {
      if k :| k in rows && rows[k].name == name {
        if includeDeleted || !rows[k].IsDeleted() {
          return Some(rows[k]);
        }
      }
      return None;
    }

    /** `findByProfile(profile, includeDeleted)`. */
    function FindByProfile(profile: string, includeDeleted: bool): (r: set<EnvironmentPermission>)
      reads this
      ensures forall x :: x in r ==> x in rows.Values && x.profile == profile && (includeDeleted || !x.IsDeleted())
      ensures forall k :: k in rows && rows[k].profile == profile && (includeDeleted || !rows[k].IsDeleted()) ==> rows[k] in r
    {
      set x | x in rows.Values && x.profile == profile && (includeDeleted || !x.IsDeleted())
    }

    /** `update(id, data)`: writes the sent columns of the row, soft-deleted
        or not; a missing row or a name clash is a database error. */
    method Update(id: Id, patch: PermissionPatch) returns (r: Result<EnvironmentPermission>)
      requires Valid()
      modifies this
      ensures Valid()
      ensures id !in old(rows) ==> r == Err(RecordToUpdateNotFound) && rows == old(rows)
      ensures id in old(rows) && patch.name.Some? && NameTakenByOther(old(rows), patch.name.value, Some(id)) ==>
        r == Err(UniqueConstraintFailed("name")) && rows == old(rows)
      ensures id in old(rows) && !(patch.name.Some? && NameTakenByOther(old(rows), patch.name.value, Some(id))) ==>
        r == Ok(ApplyPermissionPatch(old(rows)[id], patch)) && rows == old(rows)[id := ApplyPermissionPatch(old(rows)[id], patch)]
    {
      if id !in rows {
        return Err(RecordToUpdateNotFound);
      }
      if patch.name.Some? && NameTakenByOther(rows, patch.name.value, Some(id)) {
        return Err(UniqueConstraintFailed("name"));
      }
      var updated := ApplyPermissionPatch(rows[id], patch);
      rows := rows[id := updated];
      return Ok(updated);
    }

    /** `softDelete(id)`: stamps `deletedAt` with the current instant. */
    method SoftDelete(id: Id, now: Timestamp) returns (r: Outcome)
      requires Valid()
      modifies this
      ensures Valid()
      ensures id !in old(rows) ==> r == Fail(RecordToUpdateNotFound) && rows == old(rows)
      ensures id in old(rows) ==> r == Done && rows == old(rows)[id := old(rows)[id].(deletedAt := Some(now))]
    {
      if id !in rows {
        return Fail(RecordToUpdateNotFound);
      }
      rows := rows[id := rows[id].(deletedAt := Some(now))];
      return Done;
    }

    /** `restore(id)`: clears `deletedAt`. */
    method Restore(id: Id) returns (r: Outcome)
      requires Valid()
      modifies this
      ensures Valid()
      ensures id !in old(rows) ==> r == Fail(RecordToUpdateNotFound) && rows == old(rows)
      ensures id in old(rows) ==> r == Done && rows == old(rows)[id := old(rows)[id].(deletedAt := None)]
    {
      if id !in rows {
        return Fail(RecordToUpdateNotFound);
      }
      rows := rows[id := rows[id].(deletedAt := None)];
      return Done;
    }

    /** `hardDelete(id)`: removes the row. */
    method HardDelete(id: Id) returns (r: Outcome)
      requires Valid()
      modifies this
      ensures Valid()
      ensures id !in old(rows) ==> r == Fail(RecordToDeleteNotFound) && rows == old(rows)
      ensures id in old(rows) ==> r == Done && rows == old(rows) - {id}
    {
      if id !in rows {
        return Fail(RecordToDeleteNotFound);
      }
      rows := rows - {id};
      return Done;
    }
  }

  /** Sending nothing changes nothing. */
  lemma EmptyPermissionPatchIsIdentity(r: EnvironmentPermission)
    ensures ApplyPermissionPatch(r, EmptyPermissionPatch) == r
  {
  }

  /** Sending the same patch twice is the same as sending it once. */
  lemma ApplyPermissionPatchIdempotent(r: EnvironmentPermission, p: PermissionPatch)
    ensures ApplyPermissionPatch(ApplyPermissionPatch(r, p), p) == ApplyPermissionPatch(r, p)
  {
  }

  /** The two lookups agree: a row `findAll` lists is the row `findById`
      returns for its id, under the same soft-delete filter. */
  lemma PermissionFindAllAgreesWithFindById(repo: EnvironmentPermissionRepository, x: EnvironmentPermission, includeDeleted: bool)
    requires repo.Valid()
    ensures x in repo.FindAll(includeDeleted) <==> repo.FindById(x.id, includeDeleted) == Some(x)
  {
    if x in repo.FindAll(includeDeleted) {
      var k :| k in repo.rows && repo.rows[k] == x;
    }
  }

  /** The rows of one profile are the rows `findAll` lists with that profile. */
  lemma FindByProfileWithinFindAll(repo: EnvironmentPermissionRepository, profile: string, includeDeleted: bool)
    ensures repo.FindByProfile(profile, includeDeleted) == set x | x in repo.FindAll(includeDeleted) && x.profile == profile
  {
  }
}
