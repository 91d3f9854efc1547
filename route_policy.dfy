/** The per-route metadata the guards consult: the `isPublic` flag and the
    required-role list, each settable on the handler and on its controller. */
module RoutePolicies {
  import opened Common
  import opened UserDomain

  /** One metadata key as set on the handler and on the controller class. */
  datatype Metadata<T> = Metadata(handler: Option<T>, controller: Option<T>)
  {
    /** `getAllAndOverride`: the handler's value when it sets one, otherwise
        the controller's. */
    function Resolve(): Option<T>
    {
      if handler.Some? then handler else controller
    }
  }

  /** What the decorators attached to a route. */
  datatype RoutePolicy = RoutePolicy(isPublic: Metadata<bool>, roles: Metadata<seq<UserRole>>)
  {
    /** Whether the resolved `isPublic` value is truthy. */
    predicate IsPublic()
    {
      isPublic.Resolve() == Some(true)
    }

    /** The resolved required-role list; absent counts as empty. */
    function RequiredRoles(): seq<UserRole>
    {
      roles.Resolve().GetOr([])
    }
  }
}
