/** The RoleAssignment table as the repository sees it: rows keyed by id; the
    role and environment lists are stored as JSON text and read back as the
    same lists. */
module RoleAssignmentRepositories {
  import opened Common
  import opened RoleAssignmentDomain

  /** A `Partial<RoleAssignment>` passed to `update`; `None` is a field that
      was not sent. A sent `endDate` is always an instant: the callers never
      send `null`. */
  datatype AssignmentPatch = AssignmentPatch(
    id: Option<Id>,
    userId: Option<Id>,
    roles: Option<seq<Id>>,
    accessEnvironments: Option<seq<Id>>,
    startDate: Option<Timestamp>,
    endDate: Option<Timestamp>,
    state: Option<RoleAssignmentState>,
    notes: Option<string>,
    grantedBy: Option<Id>,
    createdAt: Option<Timestamp>,
    updatedAt: Option<Timestamp>,
    deletedAt: Option<Option<Timestamp>>)

  /** The patch that sends nothing. */
  const EmptyAssignmentPatch :=
    AssignmentPatch(None, None, None, None, None, None, None, None, None, None, None, None)

  /** The row `update` writes: sent columns overwrite, unsent ones stay, and
      the id and the three timestamps are stripped from the patch first. */
  function ApplyAssignmentPatch(a: RoleAssignment, p: AssignmentPatch): (s: RoleAssignment)
    ensures s.id == a.id && s.createdAt == a.createdAt
    ensures s.updatedAt == a.updatedAt && s.deletedAt == a.deletedAt
    ensures s.roles == (if p.roles.Some? then p.roles.value else a.roles)
    ensures s.accessEnvironments ==
      (if p.accessEnvironments.Some? then p.accessEnvironments.value else a.accessEnvironments)
    ensures s.endDate == (if p.endDate.Some? then p.endDate else a.endDate)
    ensures s.userId == (if p.userId.Some? then p.userId.value else a.userId)
    ensures s.startDate == (if p.startDate.Some? then p.startDate.value else a.startDate)
    ensures s.state == (if p.state.Some? then p.state.value else a.state)
    ensures s.notes == (if p.notes.Some? then p.notes.value else a.notes)
    ensures s.grantedBy == (if p.grantedBy.Some? then p.grantedBy.value else a.grantedBy)
  {
    a.(userId := p.userId.GetOr(a.userId),
       roles := p.roles.GetOr(a.roles),
       accessEnvironments := p.accessEnvironments.GetOr(a.accessEnvironments),
       startDate := p.startDate.GetOr(a.startDate),
       endDate := if p.endDate.Some? then p.endDate else a.endDate,
       state := p.state.GetOr(a.state),
       notes := p.notes.GetOr(a.notes),
       grantedBy := p.grantedBy.GetOr(a.grantedBy))
  }

  /** The row `create` stores: the database sets both timestamps to the
      current instant and leaves `deletedAt` null. */
  function StoredAssignment(a: RoleAssignment, now: Timestamp): (s: RoleAssignment)
    ensures s.id == a.id && s.roles == a.roles && s.accessEnvironments == a.accessEnvironments
    ensures s.createdAt == now && s.updatedAt == now && !s.IsDeleted()
  {
    a.(createdAt := now, updatedAt := now, deletedAt := None)
  }

  class RoleAssignmentRepository {
    var rows: map<Id, RoleAssignment>

    /** Every row sits under its own id. */
    ghost predicate Valid()
      reads this
    {
      forall k :: k in rows ==> rows[k].id == k
    }

    constructor ()
      ensures Valid() && rows == map[]
    {
      rows := map[];
    }

    /** `create`: the primary key rejects a clash. */
    method Create(a: RoleAssignment, now: Timestamp) returns (r: Result<RoleAssignment>)
      requires Valid()
      modifies this
      ensures Valid()
      ensures a.id in old(rows) ==> r == Err(UniqueConstraintFailed("id")) && rows == old(rows)
      ensures a.id !in old(rows) ==>
        r == Ok(StoredAssignment(a, now)) && rows == old(rows)[a.id := StoredAssignment(a, now)]
    {
      if a.id in rows {
        return Err(UniqueConstraintFailed("id"));
      }
      var stored := StoredAssignment(a, now);
      rows := rows[a.id := stored];
      return Ok(stored);
    }

    /** `findAll(includeDeleted)`: the live rows, or every row. */
    function FindAll(includeDeleted: bool): (r: set<RoleAssignment>)
      reads this
      ensures forall x :: x in r ==> x in rows.Values && (includeDeleted || !x.IsDeleted())
      ensures forall k :: k in rows && (includeDeleted || !rows[k].IsDeleted()) ==> rows[k] in r
    {
      set x | x in rows.Values && (includeDeleted || !x.IsDeleted())
    }

    /** `findById(id, includeDeleted)`. */
    function FindById(id: Id, includeDeleted: bool): (r: Option<RoleAssignment>)
      reads this
      ensures r.Some? <==> id in rows && (includeDeleted || !rows[id].IsDeleted())
      ensures r.Some? ==> r.value == rows[id]
    {
      if id in rows && (includeDeleted || !rows[id].IsDeleted()) then Some(rows[id]) else None
    }

    /** `findByUserId(userId, includeDeleted)`. */
    function FindByUserId(userId: Id, includeDeleted: bool): (r: set<RoleAssignment>)
      reads this
      ensures forall x :: x in r ==> x in rows.Values && x.userId == userId && (includeDeleted || !x.IsDeleted())
      ensures forall k :: k in rows && rows[k].userId == userId && (includeDeleted || !rows[k].IsDeleted()) ==>
        rows[k] in r
    {
      set x | x in rows.Values && x.userId == userId && (includeDeleted || !x.IsDeleted())
    }

    /** `findActiveByUserId(userId)`, with the query's clock passed in: state
        ACTIVE, not deleted, started by `now`, and no end or an end not before
        `now`. */
    function FindActiveByUserId(userId: Id, now: Timestamp): (r: set<RoleAssignment>)
      reads this
      ensures forall x :: x in r ==> x in rows.Values && x.userId == userId
    {
      set x | x in rows.Values && x.userId == userId && x.state == Active && x.deletedAt.None?
                && x.startDate <= now && (x.endDate.None? || x.endDate.value >= now)
    }

    /** `findByGrantedBy(grantedBy, includeDeleted)`. */
    function FindByGrantedBy(grantedBy: Id, includeDeleted: bool): (r: set<RoleAssignment>)
      reads this
      ensures forall x :: x in r ==> x in rows.Values && x.grantedBy == grantedBy && (includeDeleted || !x.IsDeleted())
      ensures forall k :: k in rows && rows[k].grantedBy == grantedBy && (includeDeleted || !rows[k].IsDeleted()) ==>
        rows[k] in r
    {
      set x | x in rows.Values && x.grantedBy == grantedBy && (includeDeleted || !x.IsDeleted())
    }

    /** `update(id, data)`: writes the sent columns, soft-deleted row or not. */
    method Update(id: Id, patch: AssignmentPatch) returns (r: Result<RoleAssignment>)
      requires Valid()
      modifies this
      ensures Valid()
      ensures id !in old(rows) ==> r == Err(RecordToUpdateNotFound) && rows == old(rows)
      ensures id in old(rows) ==>
        r == Ok(ApplyAssignmentPatch(old(rows)[id], patch))
        && rows == old(rows)[id := ApplyAssignmentPatch(old(rows)[id], patch)]
    {
      if id !in rows {
        return Err(RecordToUpdateNotFound);
      }
      var updated := ApplyAssignmentPatch(rows[id], patch);
      rows := rows[id := updated];
      return Ok(updated);
    }

    /** `softDelete(id)`: stamps `deletedAt` with the current instant. */
    method SoftDelete(id: Id, now: Timestamp) returns (r: Outcome)
      requires Valid()
      modifies this
      ensures Valid()
      ensures id !in old(rows) ==> r == Fail(RecordToUpdateNotFound) && rows == old(rows)
      ensures id in old(rows) ==> r == Done && rows == old(rows)[id := old(rows)[id].(deletedAt := Some(now))]
    {
      if id !in rows {
        return Fail(RecordToUpdateNotFound);
      }
      rows := rows[id := rows[id].(deletedAt := Some(now))];
      return Done;
    }

    /** `restore(id)`: clears `deletedAt`. */
    method Restore(id: Id) returns (r: Outcome)
      requires Valid()
      modifies this
      ensures Valid()
      ensures id !in old(rows) ==> r == Fail(RecordToUpdateNotFound) && rows == old(rows)
      ensures id in old(rows) ==> r == Done && rows == old(rows)[id := old(rows)[id].(deletedAt := None)]
    {
      if id !in rows {
        return Fail(RecordToUpdateNotFound);
      }
      rows := rows[id := rows[id].(deletedAt := None)];
      return Done;
    }

    /** `hardDelete(id)`: removes the row. */
    method HardDelete(id: Id) returns (r: Outcome)
      requires Valid()
      modifies this
      ensures Valid()
      ensures id !in old(rows) ==> r == Fail(RecordToDeleteNotFound) && rows == old(rows)
      ensures id in old(rows) ==> r == Done && rows == old(rows) - {id}
    {
      if id !in rows {
        return Fail(RecordToDeleteNotFound);
      }
      rows := rows - {id};
      return Done;
    }
  }

  /** The database filter of `findActiveByUserId` selects exactly the user's
      live rows whose entity-level `isActive(now)` holds. */
  lemma FindActiveMatchesIsActive(repo: RoleAssignmentRepository, userId: Id, now: Timestamp)
    ensures repo.FindActiveByUserId(userId, now) == set x | x in repo.FindByUserId(userId, false) && x.IsActive(now)
  {
  }

  /** An assignment active at two instants is listed as active at every
      instant in between. */
  lemma {:induction false} FindActiveConvex(repo: RoleAssignmentRepository, userId: Id, x: RoleAssignment,
                                            t1: Timestamp, t: Timestamp, t2: Timestamp)
    requires t1 <= t <= t2
    requires x in repo.FindActiveByUserId(userId, t1) && x in repo.FindActiveByUserId(userId, t2)
    ensures x in repo.FindActiveByUserId(userId, t)
  {
    FindActiveMatchesIsActive(repo, userId, t1);
    FindActiveMatchesIsActive(repo, userId, t2);
    FindActiveMatchesIsActive(repo, userId, t);
    ActiveBetween(x, t1, t, t2);
  }

  /** An update without dates keeps both dates, and no update turns a set
      end date back into an open end. */
  lemma UpdateKeepsEndDate(a: RoleAssignment, p: AssignmentPatch)
    ensures p.startDate.None? && p.endDate.None? ==>
      ApplyAssignmentPatch(a, p).startDate == a.startDate && ApplyAssignmentPatch(a, p).endDate == a.endDate
    ensures a.endDate.Some? ==> ApplyAssignmentPatch(a, p).endDate.Some?
  {
  }

  /** Sending nothing changes nothing. */
  lemma EmptyAssignmentPatchIsIdentity(a: RoleAssignment)
    ensures ApplyAssignmentPatch(a, EmptyAssignmentPatch) == a
  {
  }

  /** Sending the same patch twice is the same as sending it once. */
  lemma ApplyAssignmentPatchIdempotent(a: RoleAssignment, p: AssignmentPatch)
    ensures ApplyAssignmentPatch(ApplyAssignmentPatch(a, p), p) == ApplyAssignmentPatch(a, p)
  {
  }

  /** The two lookups agree: a row `findAll` lists is the row `findById`
      returns for its id, under the same soft-delete filter. */
  lemma AssignmentFindAllAgreesWithFindById(repo: RoleAssignmentRepository, x: RoleAssignment, includeDeleted: bool)
    requires repo.Valid()
    ensures x in repo.FindAll(includeDeleted) <==> repo.FindById(x.id, includeDeleted) == Some(x)
  {
    if x in repo.FindAll(includeDeleted) {
      var k :| k in repo.rows && repo.rows[k] == x;
    }
  }
}
