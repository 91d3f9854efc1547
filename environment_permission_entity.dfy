/** The EnvironmentPermission entity: a named set of actions permitted in an
    environment profile. */
module EnvironmentPermissionDomain {
  import opened Common

  /** The actions an environment permission can grant. */
  datatype PermittedAction = Read | Write | Delete | Execute

  /** One environment-permission row. */
  datatype EnvironmentPermission = EnvironmentPermission(
    id: Id,
    name: string,
    permittedActions: seq<PermittedAction>,
    profile: string,
    purpose: string,
    createdAt: Timestamp,
    updatedAt: Timestamp,
    deletedAt: Option<Timestamp>)
  {
    /** Whether the action is among the permitted ones. */
    function CanPerformAction(action: PermittedAction): bool
    {
      action in permittedActions
    }

    /** `actions.every(a => permittedActions.includes(a))`, from the front. */
    function HasAllActions(actions: seq<PermittedAction>): bool
      decreases |actions|
    {
      |actions| == 0 || (actions[0] in permittedActions && HasAllActions(actions[1..]))
    }

    /** `actions.some(a => permittedActions.includes(a))`, from the front. */
    function HasAnyAction(actions: seq<PermittedAction>): bool
      decreases |actions|
    {
      |actions| > 0 && (actions[0] in permittedActions || HasAnyAction(actions[1..]))
    }

    /** Whether the row is soft-deleted. */
    function IsDeleted(): bool
    {
      deletedAt.Some?
    }
  }

  /** `hasAllActions(xs)` holds exactly when every listed action is permitted;
      it holds of the empty list. */
  lemma {:induction false} HasAllActionsIffEvery(e: EnvironmentPermission, actions: seq<PermittedAction>)
    ensures e.HasAllActions(actions) <==> forall x :: x in actions ==> e.CanPerformAction(x)
    decreases |actions|
  {
    if |actions| > 0 {
      HasAllActionsIffEvery(e, actions[1..]);
      if forall x :: x in actions ==> e.CanPerformAction(x) {
        assert e.CanPerformAction(actions[0]);
        forall x | x in actions[1..] ensures e.CanPerformAction(x) {
          assert x in actions;
        }
      } else {
        var x :| x in actions && !e.CanPerformAction(x);
        if x != actions[0] {
          assert x in actions[1..];
        }
      }
    }
  }

  /** `hasAnyAction(xs)` holds exactly when some listed action is permitted;
      it fails for the empty list. */
  lemma {:induction false} HasAnyActionIffSome(e: EnvironmentPermission, actions: seq<PermittedAction>)
    ensures e.HasAnyAction(actions) <==> exists x :: x in actions && e.CanPerformAction(x)
    decreases |actions|
  {
    if |actions| > 0 {
      HasAnyActionIffSome(e, actions[1..]);
      if exists x :: x in actions && e.CanPerformAction(x) {
        var x :| x in actions && e.CanPerformAction(x);
        if x != actions[0] {
          assert x in actions[1..];
        }
      } else {
        assert !e.CanPerformAction(actions[0]);
        forall x | x in actions[1..] ensures !e.CanPerformAction(x) {
          assert x in actions;
        }
      }
    }
  }

  /** On a non-empty list, having all the actions means having one of them. */
  lemma HasAllImpliesHasAny(e: EnvironmentPermission, actions: seq<PermittedAction>)
    requires |actions| > 0
    requires e.HasAllActions(actions)
    ensures e.HasAnyAction(actions)
  {
  }
}
