/** The role guard: a route's required-role list against the principal's
    single role, by plain membership. */
module RolesGuards {
  import opened Common
  import opened UserDomain
  import opened RoutePolicies

  const AuthenticationRequired := HttpError(Unauthorized, "Authentication required")
  const NoPermission := HttpError(Forbidden, "You do not have permission to access this resource")

  /** `canActivate(context)` given the route's metadata and `request.user`. */
  function CanActivate(policy: RoutePolicy, user: Option<Principal>): (r: Outcome)
    ensures r == Done <==>
      policy.IsPublic() || policy.RequiredRoles() == [] || (user.Some? && user.value.role in policy.RequiredRoles())
    ensures r.Fail? ==> (r.error == AuthenticationRequired <==> user.None?)
    ensures r.Fail? ==> (r.error == NoPermission <==> user.Some?)
  {
    if policy.IsPublic() then Done
    else if policy.RequiredRoles() == [] then Done
    else if user.None? then Fail(AuthenticationRequired)
    else if user.value.role in policy.RequiredRoles() then Done
    else Fail(NoPermission)
  }

  /** Roles form no hierarchy: ADMIN does not satisfy a MODERATOR-only route. */
  lemma NoRoleHierarchy(p: Principal)
    requires p.role == ADMIN
    ensures CanActivate(RoutePolicy(Metadata(None, None), Metadata(Some([MODERATOR]), None)), Some(p)) == Fail(NoPermission)
  {
  }

  /** Admitting more roles never shuts out a principal already admitted. */
  lemma MoreRolesAdmitMore(isPublic: Metadata<bool>, fewer: seq<UserRole>, more: seq<UserRole>, user: Option<Principal>)
    requires forall x :: x in fewer ==> x in more
    requires fewer != []
    ensures CanActivate(RoutePolicy(isPublic, Metadata(Some(fewer), None)), user) == Done ==>
            CanActivate(RoutePolicy(isPublic, Metadata(Some(more), None)), user) == Done
  {
  }

  /** A handler's role list replaces its controller's rather than adding to
      it: a USER-only handler in an ADMIN-only controller shuts ADMIN out. */
  lemma HandlerRolesReplaceControllerRoles(p: Principal)
    requires p.role == ADMIN
    ensures CanActivate(RoutePolicy(Metadata(None, None), Metadata(Some([USER]), Some([ADMIN]))), Some(p)) == Fail(NoPermission)
  {
  }

  /** An empty handler list opens the route even without a principal, since
      it overrides the controller's list. */
  lemma EmptyHandlerListOpensRoute()
    ensures CanActivate(RoutePolicy(Metadata(None, None), Metadata(Some([]), Some([ADMIN]))), None) == Done
  {
  }
}
