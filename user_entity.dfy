/** The User entity and the authenticated principal derived from it. */
module UserDomain {
  import opened Common

  /** The three roles a user can hold. */
  datatype UserRole = ADMIN | USER | MODERATOR

  /** One user row; `password` holds the bcrypt hash. */
  datatype User = UserRow(
    id: Id,
    name: string,
    email: string,
    password: string,
    role: UserRole,
    createdAt: Timestamp,
    updatedAt: Timestamp,
    deletedAt: Option<Timestamp>)
  {
    /** Whether the row is soft-deleted. */
    function IsDeleted(): bool
    {
      deletedAt.Some?
    }
  }

  /** The request-scoped identity `{ userId, email, role }`. */
  datatype Principal = Principal(userId: Id, email: string, role: UserRole)

  /** The claims carried by an access token. */
  datatype JwtPayload = JwtPayload(
    sub: Id,
    email: string,
    role: UserRole,
    iat: Option<int>,
    exp: Option<int>)
}
