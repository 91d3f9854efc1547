/** Credential checks and token-claim resolution against the User table. */
module AuthServices {
  import opened Common
  import opened UserDomain
  import opened UserRepositories
  import opened UserServices

  const InvalidCredentials := HttpError(Unauthorized, "Invalid credentials")
  const UserGone := HttpError(Unauthorized, "User not found or has been deleted")

  /** The body of a login request. */
  datatype LoginDto = LoginDto(email: string, password: string)

  /** A successful login: the signed token and the authenticated account. */
  datatype AuthResponse = AuthResponse(accessToken: string, user: User)

  /** The claims `login` signs: subject, email and role of the account; the
      signer adds `iat` and `exp`. */
  function PayloadOf(u: User): JwtPayload
  {
    JwtPayload(u.id, u.email, u.role, None, None)
  }

  class AuthService {
    const userRepository: UserRepository

    ghost predicate Valid()
      reads this, userRepository
    {
      userRepository.Valid()
    }

    constructor (users: UserRepository)
      ensures userRepository == users
    {
      userRepository := users;
    }

    /** `validateCredentials(email, password)`: the live account with that
        email whose hash the password matches; an unknown email, a
        soft-deleted account and a wrong password all give the same error.
        `passwordMatches(plain, hash)` stands for the bcrypt comparison. */
    method ValidateCredentials(email: string, password: string, passwordMatches: (string, string) -> bool)
      returns (r: Result<User>)
      ensures r.Ok? ==> r.value in userRepository.rows.Values && r.value.email == email && !r.value.IsDeleted()
                        && passwordMatches(password, r.value.password)
      ensures r.Err? ==> r.error == InvalidCredentials
      ensures (forall k :: k in userRepository.rows && userRepository.rows[k].email == email ==>
                 userRepository.rows[k].IsDeleted()) ==> r.Err?
      ensures EmailsUnique(userRepository.rows) ==>
        (r.Ok? <==> exists k :: k in userRepository.rows && userRepository.rows[k].email == email
                               && !userRepository.rows[k].IsDeleted()
                               && passwordMatches(password, userRepository.rows[k].password))
    {
      var user := userRepository.FindByEmail(email, false);
      if user.None? {
        return Err(InvalidCredentials);
      }
      if !passwordMatches(password, user.value.password) {
        return Err(InvalidCredentials);
      }
      return Ok(user.value);
    }

    /** `login(dto)`: checks the credentials and signs the account's claims;
        `sign` stands for the token signer. */
    method Login(dto: LoginDto, passwordMatches: (string, string) -> bool, sign: JwtPayload -> string)
      returns (r: Result<AuthResponse>)
      ensures r.Ok? ==>
        var u := r.value.user;
        u in userRepository.rows.Values && u.email == dto.email && !u.IsDeleted()
        && passwordMatches(dto.password, u.password)
        && r.value.accessToken == sign(JwtPayload(u.id, u.email, u.role, None, None))
      ensures r.Err? ==> r.error == InvalidCredentials
      ensures EmailsUnique(userRepository.rows) ==>
        (r.Ok? <==> exists k :: k in userRepository.rows && userRepository.rows[k].email == dto.email
                               && !userRepository.rows[k].IsDeleted()
                               && passwordMatches(dto.password, userRepository.rows[k].password))
    {
      var user := ValidateCredentials(dto.email, dto.password, passwordMatches);
      if user.Err? {
        return Err(user.error);
      }
      r := Ok(AuthResponse(sign(PayloadOf(user.value)), user.value));
    }

    /** `validateUser(payload)`: the live account the subject claim names. */
    function ValidateUser(payload: JwtPayload): (r: Result<User>)
      reads this, userRepository
      ensures r.Ok? <==> IsLive(userRepository.rows, payload.sub)
      ensures r.Ok? ==> r.value == userRepository.rows[payload.sub]
      ensures r.Err? ==> r.error == UserGone
    {
      match userRepository.FindById(payload.sub, false)
      case Some(u) => Ok(u)
      case None => Err(UserGone)
    }
  }

  /** A token issued at login resolves back to the same account for as long
      as it stays live, whatever `iat` and `exp` the signer added. */
  lemma LoginClaimsResolve(auth: AuthService, u: User, iat: Option<int>, exp: Option<int>)
    requires auth.Valid()
    requires u in auth.userRepository.rows.Values && !u.IsDeleted()
    ensures auth.ValidateUser(PayloadOf(u).(iat := iat, exp := exp)) == Ok(u)
  {
    var k :| k in auth.userRepository.rows && auth.userRepository.rows[k] == u;
    assert auth.userRepository.rows[k].id == k;
  }

  /** Soft-deleting an account revokes its tokens: the same claims no longer
      resolve. */
  lemma SoftDeleteRevokesClaims(rows: map<Id, User>, id: Id, now: Timestamp, payload: JwtPayload)
    requires id in rows && payload.sub == id
    ensures !IsLive(rows[id := rows[id].(deletedAt := Some(now))], payload.sub)
  {
  }
}
