/** The guards in the order the framework runs them: the global JWT guard,
    then the guards a controller lists. Only the User controller lists
    guards, the JWT guard again and the role guard. */
module GuardChains {
  import opened Common
  import opened UserDomain
  import opened RoutePolicies
  import JwtAuthGuards
  import RolesGuards
  import opened JwtStrategies

  /** Runs the global JWT guard and, when `rolesGuarded` (the User
      controller), the JWT guard again and the role guard; stops at the
      first refusal. Each JWT pass authenticates the `authorization` header
      as it stands after that pass's rewrite, so the principal attached is
      the one the request's final header authenticates to. */
  method Run(policy: RoutePolicy, rolesGuarded: bool, req: JwtAuthGuards.Request, strategy: JwtStrategy,
             verify: JwtAuthGuards.Carrier -> JwtAuthGuards.Verification)
    returns (r: Outcome)
    modifies req
    ensures policy.IsPublic() ==> r == Done && req.headers == old(req.headers) && req.user == old(req.user)
    ensures !policy.IsPublic() ==>
      var a := JwtAuthGuards.Authenticate(strategy, verify(req.headers.authorization));
      var roles := RolesGuards.CanActivate(policy, if a.Ok? then Some(a.value) else None);
      (r == Done ==> a.Ok? && req.user == Some(a.value))
      && (a.Err? ==> r == Fail(a.error))
      && (!rolesGuarded ==> (r == Done <==> a.Ok?))
      && (rolesGuarded && a.Ok? ==> r == roles)
    ensures !policy.IsPublic() ==>
      var h1 := JwtAuthGuards.RewrittenHeaders(old(req.headers), req.query, req.cookies);
      var a1 := JwtAuthGuards.Authenticate(strategy, verify(h1.authorization));
      (a1.Err? ==> req.user == old(req.user))
      && (!rolesGuarded || a1.Err? ==> req.headers == h1)
      && (rolesGuarded && a1.Ok? ==> req.headers == JwtAuthGuards.RewrittenHeaders(h1, req.query, req.cookies))
    ensures !policy.IsPublic() && rolesGuarded && !JwtAuthGuards.BlankToken(old(req.headers), req.query, req.cookies) ==>
      var a1 := JwtAuthGuards.Authenticate(strategy,
        verify(JwtAuthGuards.RewrittenHeaders(old(req.headers), req.query, req.cookies).authorization));
      req.headers == JwtAuthGuards.RewrittenHeaders(old(req.headers), req.query, req.cookies)
      && (r == Done <==> a1.Ok? && RolesGuards.CanActivate(policy, Some(a1.value)) == Done)
  {
    ghost var h0 := req.headers;
    r := JwtAuthGuards.CanActivate(policy, req, strategy, verify);
    if r.Fail? || !rolesGuarded {
      return;
    }
    if !JwtAuthGuards.BlankToken(h0, req.query, req.cookies) {
      JwtAuthGuards.RewriteStable(h0, req.query, req.cookies);
    }
    r := JwtAuthGuards.CanActivate(policy, req, strategy, verify);
    if r.Fail? {
      return;
    }
    r := RolesGuards.CanActivate(policy, req.user);
  }
}
