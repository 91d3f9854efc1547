/** The Role table as the repository sees it: rows keyed by id, with the
    database's unique index on `name`. */
module RoleRepositories {
  import opened Common
  import opened RoleDomain

  /** A `Partial<Role>` passed to `update`; `None` is a field that was not sent. */
  datatype RolePatch = RolePatch(
    id: Option<Id>,
    name: Option<string>,
    description: Option<string>,
    accessAreas: Option<seq<string>>,
    active: Option<bool>,
    createdAt: Option<Timestamp>,
    updatedAt: Option<Timestamp>,
    deletedAt: Option<Option<Timestamp>>)

  /** The patch that sends nothing. */
  const EmptyRolePatch := RolePatch(None, None, None, None, None, None, None, None)

  /** The row `update` writes: sent columns overwrite, unsent ones stay, and
      the id and the three timestamps are stripped from the patch first. */
  function ApplyRolePatch(r: Role, p: RolePatch): (s: Role)
    ensures s.id == r.id && s.createdAt == r.createdAt
    ensures s.updatedAt == r.updatedAt && s.deletedAt == r.deletedAt
    ensures s.name == (if p.name.Some? then p.name.value else r.name)
    ensures s.accessAreas == (if p.accessAreas.Some? then p.accessAreas.value else r.accessAreas)
    ensures s.description == (if p.description.Some? then p.description.value else r.description)
    ensures s.active == (if p.active.Some? then p.active.value else r.active)
  {
    r.(name := p.name.GetOr(r.name),
       description := p.description.GetOr(r.description),
       accessAreas := p.accessAreas.GetOr(r.accessAreas),
       active := p.active.GetOr(r.active))
  }

  /** The row `create` stores: the database sets both timestamps to the
      current instant and leaves `deletedAt` null. */
  function StoredRole(role: Role, now: Timestamp): (s: Role)
    ensures s.id == role.id && s.name == role.name && !s.IsDeleted()
    ensures s.createdAt == now && s.updatedAt == now
  {
    role.(createdAt := now, updatedAt := now, deletedAt := None)
  }

  /** The unique index on `name`: no two rows share a name. */
  ghost predicate NamesUnique(rows: map<Id, Role>)
  {
    forall k1, k2 :: k1 in rows && k2 in rows && rows[k1].name == rows[k2].name ==> k1 == k2
  }

  /** Whether some row other than `except` already uses the name. */
  predicate NameTakenByOther(rows: map<Id, Role>, name: string, except: Option<Id>)
  {
    exists k :: k in rows && rows[k].name == name && Some(k) != except
  }

  class RoleRepository {
    var rows: map<Id, Role>

    /** Every row sits under its own id and names are unique. */
    ghost predicate Valid()
      reads this
    {
      (forall k :: k in rows ==> rows[k].id == k) && NamesUnique(rows)
    }

    constructor ()
      ensures Valid() && rows == map[]
    {
      rows := map[];
    }

    /** `create`: the primary key and the name index reject a clash. */
    method Create(role: Role, now: Timestamp) returns (r: Result<Role>)
      requires Valid()
      modifies this
      ensures Valid()
      ensures role.id in old(rows) ==> r == Err(UniqueConstraintFailed("id")) && rows == old(rows)
      ensures role.id !in old(rows) && NameTakenByOther(old(rows), role.name, None) ==>
        r == Err(UniqueConstraintFailed("name")) && rows == old(rows)
      ensures role.id !in old(rows) && !NameTakenByOther(old(rows), role.name, None) ==>
        r == Ok(StoredRole(role, now)) && rows == old(rows)[role.id := StoredRole(role, now)]
    {
      if role.id in rows {
        return Err(UniqueConstraintFailed("id"));
      }
      if NameTakenByOther(rows, role.name, None) {
        return Err(UniqueConstraintFailed("name"));
      }
      var stored := StoredRole(role, now);
      rows := rows[role.id := stored];
      return Ok(stored);
    }

    /** `findAll(includeDeleted)`: the live rows, or every row. */
    function FindAll(includeDeleted: bool): (r: set<Role>)
      reads this
      ensures forall x :: x in r ==> x in rows.Values && (includeDeleted || !x.IsDeleted())
      ensures forall k :: k in rows && (includeDeleted || !rows[k].IsDeleted()) ==> rows[k] in r
    {
      set x | x in rows.Values && (includeDeleted || !x.IsDeleted())
    }

    /** `findById(id, includeDeleted)`: a soft-deleted row counts as absent
        unless asked for. */
    function FindById(id: Id, includeDeleted: bool): (r: Option<Role>)
      reads this
      ensures r.Some? <==> id in rows && (includeDeleted || !rows[id].IsDeleted())
      ensures r.Some? ==> r.value == rows[id]
    {
      if id in rows && (includeDeleted || !rows[id].IsDeleted()) then Some(rows[id]) else None
    }

    /** `findByName(name, includeDeleted)`: the row holding the name, seen
        through the same soft-delete filter as `findById`. */
    method FindByName(name: string, includeDeleted: bool) returns (r: Option<Role>)
      requires Valid()
      ensures r.Some? ==> r.value in rows.Values && r.value.name == name
      ensures r.Some? ==> r.value.id in rows && rows[r.value.id] == r.value
      ensures r.Some? ==> includeDeleted || !r.value.IsDeleted()
      ensures r.None? <==> forall k :: k in rows && rows[k].name == name ==> !includeDeleted && rows[k].IsDeleted()
    {
      if k :| k in rows && rows[k].name == name {
        if includeDeleted || !rows[k].IsDeleted() {
          return Some(rows[k]);
        }
      }
      return None;
    }

    /** `findActive()`: rows switched on and not soft-deleted. */
    function FindActive(): (r: set<Role>)
      reads this
      ensures forall x :: x in r ==> x in rows.Values && x.IsActive()
      ensures forall k :: k in rows && rows[k].IsActive() ==> rows[k] in r
    {
      set x | x in rows.Values && x.active && x.deletedAt.None?
    }

    /** `update(id, data)`: writes the sent columns of the row, soft-deleted
        or not; a missing row or a name clash is a database error. */
    method Update(id: Id, patch: RolePatch) returns (r: Result<Role>)
      requires Valid()
      modifies this
      ensures Valid()
      ensures id !in old(rows) ==> r == Err(RecordToUpdateNotFound) && rows == old(rows)
      ensures id in old(rows) && patch.name.Some? && NameTakenByOther(old(rows), patch.name.value, Some(id)) ==>
        r == Err(UniqueConstraintFailed("name")) && rows == old(rows)
      ensures id in old(rows) && !(patch.name.Some? && NameTakenByOther(old(rows), patch.name.value, Some(id))) ==>
        r == Ok(ApplyRolePatch(old(rows)[id], patch)) && rows == old(rows)[id := ApplyRolePatch(old(rows)[id], patch)]
    {
      if id !in rows {
        return Err(RecordToUpdateNotFound);
      }
      if patch.name.Some? && NameTakenByOther(rows, patch.name.value, Some(id)) {
        return Err(UniqueConstraintFailed("name"));
      }
      var updated := ApplyRolePatch(rows[id], patch);
      rows := rows[id := updated];
      return Ok(updated);
    }

    /** `softDelete(id)`: stamps `deletedAt` with the current instant. */
    method SoftDelete(id: Id, now: Timestamp) returns (r: Outcome)
      requires Valid()
      modifies this
      ensures Valid()
      ensures id !in old(rows) ==> r == Fail(RecordToUpdateNotFound) && rows == old(rows)
      ensures id in old(rows) ==> r == Done && rows == old(rows)[id := old(rows)[id].(deletedAt := Some(now))]
    {
      if id !in rows {
        return Fail(RecordToUpdateNotFound);
      }
      rows := rows[id := rows[id].(deletedAt := Some(now))];
      return Done;
    }

    /** `restore(id)`: clears `deletedAt`. */
    method Restore(id: Id) returns (r: Outcome)
      requires Valid()
      modifies this
      ensures Valid()
      ensures id !in old(rows) ==> r == Fail(RecordToUpdateNotFound) && rows == old(rows)
      ensures id in old(rows) ==> r == Done && rows == old(rows)[id := old(rows)[id].(deletedAt := None)]
    {
      if id !in rows {
        return Fail(RecordToUpdateNotFound);
      }
      rows := rows[id := rows[id].(deletedAt := None)];
      return Done;
    }

    /** `hardDelete(id)`: removes the row. */
    method HardDelete(id: Id) returns (r: Outcome)
      requires Valid()
      modifies this
      ensures Valid()
      ensures id !in old(rows) ==> r == Fail(RecordToDeleteNotFound) && rows == old(rows)
      ensures id in old(rows) ==> r == Done && rows == old(rows) - {id}
    {
      if id !in rows {
        return Fail(RecordToDeleteNotFound);
      }
      rows := rows - {id};
      return Done;
    }
  }

  /** Sending nothing changes nothing. */
  lemma EmptyRolePatchIsIdentity(r: Role)
    ensures ApplyRolePatch(r, EmptyRolePatch) == r
  {
  }

  /** Sending the same patch twice is the same as sending it once. */
  lemma ApplyRolePatchIdempotent(r: Role, p: RolePatch)
    ensures ApplyRolePatch(ApplyRolePatch(r, p), p) == ApplyRolePatch(r, p)
  {
  }

  /** The two lookups agree: a row `findAll` lists is the row `findById`
      returns for its id, under the same soft-delete filter. */
  lemma RoleFindAllAgreesWithFindById(repo: RoleRepository, x: Role, includeDeleted: bool)
    requires repo.Valid()
    ensures x in repo.FindAll(includeDeleted) <==> repo.FindById(x.id, includeDeleted) == Some(x)
  {
    if x in repo.FindAll(includeDeleted) {
      var k :| k in repo.rows && repo.rows[k] == x;
    }
  }

  /** The active roles are live roles. */
  lemma RoleFindActiveWithinLive(repo: RoleRepository)
    ensures repo.FindActive() <= repo.FindAll(false)
  {
  }
}
