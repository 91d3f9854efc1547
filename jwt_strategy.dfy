/** The Passport JWT strategy: turns verified claims into the request's
    principal. */
module JwtStrategies {
  import opened Common
  import opened UserDomain
  import opened UserRepositories
  import opened UserServices
  import opened AuthServices

  class JwtStrategy {
    const authService: AuthService

    constructor (auth: AuthService)
      ensures authService == auth
    {
      authService := auth;
    }

    /** `validate(payload)`: the principal of the live account the subject
        names, built from the stored row; the lookup's error is passed on
        unchanged. */
    function Validate(payload: JwtPayload): (r: Result<Principal>)
      reads this, authService, authService.userRepository
      ensures r.Ok? <==> IsLive(authService.userRepository.rows, payload.sub)
      ensures r.Ok? ==>
        var u := authService.userRepository.rows[payload.sub];
        r.value == Principal(u.id, u.email, u.role)
      ensures r.Err? ==> r == Err(UserGone)
    {
      match authService.ValidateUser(payload)
      case Err(e) => Err(e)
      case Ok(user) => Ok(Principal(user.id, user.email, user.role))
    }
  }

  /** The principal names the token's subject. */
  lemma PrincipalIsSubject(s: JwtStrategy, payload: JwtPayload)
    requires s.authService.Valid()
    ensures s.Validate(payload).Ok? ==> s.Validate(payload).value.userId == payload.sub
  {
  }

  /** Only the subject claim matters: tokens that agree on `sub` but carry
      different email, role or timing claims give the same principal, so a
      role change in the table takes effect on the next request. */
  lemma OnlySubjectMatters(s: JwtStrategy, p1: JwtPayload, p2: JwtPayload)
    requires p1.sub == p2.sub
    ensures s.Validate(p1) == s.Validate(p2)
  {
  }

  /** A token whose role claim is ADMIN gives a USER principal once the
      stored account is a USER. */
  lemma StaleRoleClaimIgnored(s: JwtStrategy, payload: JwtPayload)
    requires s.authService.Valid() && payload.role == ADMIN
    requires IsLive(s.authService.userRepository.rows, payload.sub)
    requires s.authService.userRepository.rows[payload.sub].role == USER
    ensures s.Validate(payload) == Ok(Principal(payload.sub, s.authService.userRepository.rows[payload.sub].email, USER))
  {
  }

  /** Login followed by validation of the issued claims yields the principal
      of the account that logged in. */
  lemma LoginThenValidate(s: JwtStrategy, u: User, iat: Option<int>, exp: Option<int>)
    requires s.authService.Valid()
    requires u in s.authService.userRepository.rows.Values && !u.IsDeleted()
    ensures s.Validate(PayloadOf(u).(iat := iat, exp := exp)) == Ok(Principal(u.id, u.email, u.role))
  {
    LoginClaimsResolve(s.authService, u, iat, exp);
  }
}
