/** The Role entity: a named bundle of access areas that can be switched off
    or soft-deleted. */
module RoleDomain {
  import opened Common

  /** One role row. */
  datatype Role = Role(
    id: Id,
    name: string,
    description: string,
    accessAreas: seq<string>,
    active: bool,
    createdAt: Timestamp,
    updatedAt: Timestamp,
    deletedAt: Option<Timestamp>)
  {
    /** Usable: switched on and not soft-deleted. */
    function IsActive(): (b: bool)
      ensures b ==> !IsDeleted()
    {
      active && deletedAt.None?
    }

    /** Whether the area is one of the role's access areas. */
    function HasAccessToArea(area: string): bool
    {
      area in accessAreas
    }

    /** `areas.some(a => accessAreas.includes(a))`, scanning from the front. */
    function HasAnyAccessArea(areas: seq<string>): bool
      decreases |areas|
    {
      |areas| > 0 && (areas[0] in accessAreas || HasAnyAccessArea(areas[1..]))
    }

    /** Whether the row is soft-deleted. */
    function IsDeleted(): bool
    {
      deletedAt.Some?
    }
  }

  /** `hasAnyAccessArea(xs)` holds exactly when some listed area passes
      `hasAccessToArea`; the empty list gives false. */
  lemma {:induction false} HasAnyAccessAreaIffSome(r: Role, areas: seq<string>)
    ensures r.HasAnyAccessArea(areas) <==> exists x :: x in areas && r.HasAccessToArea(x)
    decreases |areas|
  {
    if |areas| > 0 {
      HasAnyAccessAreaIffSome(r, areas[1..]);
      if exists x :: x in areas && r.HasAccessToArea(x) {
        var x :| x in areas && r.HasAccessToArea(x);
        if x != areas[0] {
          assert x in areas[1..];
        }
      } else {
        assert !r.HasAccessToArea(areas[0]);
        forall x | x in areas[1..] ensures !r.HasAccessToArea(x) {
          assert x in areas;
        }
      }
    }
  }

  /** Asking about more areas can only turn a "yes" into a "yes". */
  lemma {:induction false} HasAnyAccessAreaMonotone(r: Role, xs: seq<string>, ys: seq<string>)
    requires forall x :: x in xs ==> x in ys
    requires r.HasAnyAccessArea(xs)
    ensures r.HasAnyAccessArea(ys)
  {
    HasAnyAccessAreaIffSome(r, xs);
    HasAnyAccessAreaIffSome(r, ys);
  }
}
