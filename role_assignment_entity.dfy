/** The RoleAssignment entity: a grant of roles and environment permissions to
    a user, valid over a date window, with a derived "currently active" view. */
module RoleAssignmentDomain {
  import opened Common

  /** The stored status of an assignment. */
  datatype RoleAssignmentState = Active | Inactive | Suspended | Expired

  /** One assignment row. `roles` and `accessEnvironments` are ordered lists of
      Role and EnvironmentPermission ids; `endDate` absent means open-ended. */
  datatype RoleAssignment = RoleAssignment(
    id: Id,
    userId: Id,
    roles: seq<Id>,
    accessEnvironments: seq<Id>,
    startDate: Timestamp,
    endDate: Option<Timestamp>,
    state: RoleAssignmentState,
    notes: string,
    grantedBy: Id,
    createdAt: Timestamp,
    updatedAt: Timestamp,
    deletedAt: Option<Timestamp>)
  {
    /** Whether the assignment grants access at instant `now`: the stored state
        is ACTIVE, `now` lies in the closed window, and the row is not deleted. */
    function IsActive(now: Timestamp): (b: bool)
      ensures b ==> !IsExpired(now) && !IsDeleted()
    {
      var isWithinDateRange := startDate <= now && (endDate.None? || endDate.value >= now);
      state == Active && isWithinDateRange && deletedAt.None?
    }

    /** Whether the window closed before `now`; never for an open-ended grant. */
    function IsExpired(now: Timestamp): bool
    {
      if endDate.None? then false else now > endDate.value
    }

    /** Whether the role id is among the granted roles. */
    function HasRole(roleId: Id): bool
    {
      roleId in roles
    }

    /** Whether the environment-permission id is among the granted environments. */
    function HasEnvironmentAccess(envPermissionId: Id): bool
    {
      envPermissionId in accessEnvironments
    }

    /** `roleIds.some(id => roles.includes(id))`, scanning from the front. */
    function HasAnyRole(roleIds: seq<Id>): bool
      decreases |roleIds|
    {
      |roleIds| > 0 && (roleIds[0] in roles || HasAnyRole(roleIds[1..]))
    }

    /** Whether the row is soft-deleted. */
    function IsDeleted(): bool
    {
      deletedAt.Some?
    }
  }

  /** `hasAnyRole(xs)` holds exactly when some listed id passes `hasRole`; in
      particular it is false for the empty list. */
  lemma {:induction false} HasAnyRoleIffSome(a: RoleAssignment, roleIds: seq<Id>)
    ensures a.HasAnyRole(roleIds) <==> exists x :: x in roleIds && a.HasRole(x)
    decreases |roleIds|
  {
    if |roleIds| > 0 {
      HasAnyRoleIffSome(a, roleIds[1..]);
      if exists x :: x in roleIds && a.HasRole(x) {
        var x :| x in roleIds && a.HasRole(x);
        if x != roleIds[0] {
          assert x in roleIds[1..];
        }
      } else {
        assert !a.HasRole(roleIds[0]);
        forall x | x in roleIds[1..] ensures !a.HasRole(x) {
          assert x in roleIds;
        }
      }
    }
  }

  /** Activity is convex in time: active at two instants means active at every
      instant between them. */
  lemma ActiveBetween(a: RoleAssignment, t1: Timestamp, t: Timestamp, t2: Timestamp)
    requires t1 <= t <= t2
    requires a.IsActive(t1) && a.IsActive(t2)
    ensures a.IsActive(t)
  {
  }

  /** Expiry is permanent: an expired assignment stays expired and inactive. */
  lemma ExpiredStaysExpired(a: RoleAssignment, t: Timestamp, later: Timestamp)
    requires t <= later
    requires a.IsExpired(t)
    ensures a.IsExpired(later) && !a.IsActive(later)
  {
  }
}
