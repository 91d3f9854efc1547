/** The User service: account creation with one email per account (live or
    soft-deleted), paged listing, update, soft delete, restore and hard
    delete. */
module UserServices {
  import opened Common
  import opened UserDomain
  import opened UserRepositories

  const EmailInUse := HttpError(Conflict, "Email already in use")
  const EmailOfDeletedAccount :=
    HttpError(Conflict, "Email was previously used by a deleted account. Please contact support.")
  const UserNotFound := HttpError(NotFound, "User not found")
  const UserNotDeleted := HttpError(Conflict, "User is not deleted")
  const PageTooSmall := HttpError(BadRequest, "page must be >= 1")
  const PerPageTooSmall := HttpError(BadRequest, "perPage must be >= 1")

  /** The BadRequest for a page size over the configured maximum. */
  function PerPageTooLarge(max: int): HttpError
  {
    HttpError(BadRequest, "perPage must be <= " + IntToString(max))
  }

  /** The validated body of a create request; `role` may be omitted. */
  datatype CreateUserDto = CreateUserDto(name: string, email: string, password: string, role: Option<UserRole>)

  /** The validated body of an update request: every field optional. */
  datatype UpdateUserDto = UpdateUserDto(
    name: Option<string>,
    email: Option<string>,
    password: Option<string>,
    role: Option<UserRole>)

  /** The `includeDeleted` argument as it arrives: absent, a boolean, or the
      raw query string. */
  datatype IncludeArg = Absent | BoolArg(b: bool) | TextArg(s: string)

  /** A JavaScript number as `findAll` receives it: finite, or one of NaN and
      the infinities (which `Number.isFinite` rejects alike). */
  datatype JsNumber = Finite(v: real) | NonFinite

  /** `DEFAULT_PER_PAGE` and `MAX_PER_PAGE`, as `Number(env) || fallback`:
      an unset, non-numeric or zero setting gives the fallback. */
  datatype PageConfig = PageConfig(defaultPerPageEnv: Option<int>, maxPerPageEnv: Option<int>)
  {
    function DefaultPerPage(): (n: int)
      ensures n != 0
    {
      if defaultPerPageEnv.Some? && defaultPerPageEnv.value != 0 then defaultPerPageEnv.value else 10
    }

    function MaxPerPage(): (n: int)
      ensures n != 0
    {
      if maxPerPageEnv.Some? && maxPerPageEnv.value != 0 then maxPerPageEnv.value else 100
    }
  }

  /** The listing metadata. */
  datatype PageMeta = PageMeta(total: nat, page: int, perPage: int, totalPages: int)

  /** One page of users with its metadata. */
  datatype UserPage = UserPage(data: seq<User>, meta: PageMeta)

  /** The normalised `includeDeleted`: a boolean as given, a string when it
      is "true", "1" or "yes" in any letter case, anything else false. */
  function NormalizeInclude(arg: IncludeArg): bool
  {
    match arg
    case Absent => false
    case BoolArg(b) => b
    case TextArg(s) => var v := Lower(s); v == "true" || v == "1" || v == "yes"
  }

  /** `Math.floor` of a finite argument, or the fallback when the argument is
      absent or not finite. */
  function FloorOr(arg: Option<JsNumber>, fallback: int): (n: int)
    ensures arg.Some? && arg.value.Finite? ==> n as real <= arg.value.v < n as real + 1.0
    ensures !(arg.Some? && arg.value.Finite?) ==> n == fallback
  {
    if arg.Some? && arg.value.Finite? then arg.value.v.Floor else fallback
  }

  /** `Math.ceil(total / perPage)` for a positive page size. */
  function CeilDiv(total: nat, perPage: int): (q: nat)
    requires perPage >= 1
    ensures (q - 1) * perPage < total <= q * perPage || (total == 0 && q == 0)
  {
    (total + perPage - 1) / perPage
  }

  /** `total === 0 ? 1 : Math.max(1, Math.ceil(total / perPage))`. */
  function TotalPages(total: nat, perPage: int): (n: int)
    requires perPage >= 1
    ensures n >= 1
    ensures total > 0 ==> (n - 1) * perPage < total <= n * perPage
  {
    if total == 0 then 1 else
      var c := CeilDiv(total, perPage);
      if c > 1 then c else 1
  }

  /** No two rows, live or soft-deleted, share an email. */
  predicate EmailsUnique(rows: map<Id, User>)
  {
    forall k1, k2 :: k1 in rows && k2 in rows && rows[k1].email == rows[k2].email ==> k1 == k2
  }

  /** Whether some row, live or soft-deleted, other than `except` has the email. */
  predicate EmailTaken(rows: map<Id, User>, email: string, except: Option<Id>)
  {
    exists k :: k in rows && rows[k].email == email && Some(k) != except
  }

  /** Whether the row exists and is not soft-deleted. */
  predicate IsLive(rows: map<Id, User>, id: Id)
  {
    id in rows && !rows[id].IsDeleted()
  }

  /** The entity `create` builds: the password hash, role defaulting to USER. */
  function NewUser(dto: CreateUserDto, id: Id, hashed: string, now: Timestamp): (u: User)
    ensures u.id == id && u.email == dto.email && u.password == hashed && !u.IsDeleted()
    ensures u.role == (if dto.role.Some? then dto.role.value else USER)
  {
    UserRow(id, dto.name, dto.email, hashed, dto.role.GetOr(USER), now, now, None)
  }

  /** The entity `update` hands to the repository: sent fields replace the
      stored ones, a non-empty password is replaced by its hash, and
      `updatedAt` is the current instant. */
  function EditedUser(u: User, dto: UpdateUserDto, hashed: string, now: Timestamp): (e: User)
    ensures e.id == u.id && e.updatedAt == now && e.createdAt == u.createdAt && e.deletedAt == u.deletedAt
    ensures e.name == (if dto.name.Some? then dto.name.value else u.name)
    ensures e.role == (if dto.role.Some? then dto.role.value else u.role)
    ensures e.email == (if dto.email.Some? then dto.email.value else u.email)
    ensures e.password == (if dto.password.Some? && dto.password.value != "" then hashed else u.password)
  {
    u.(name := dto.name.GetOr(u.name),
       email := dto.email.GetOr(u.email),
       role := dto.role.GetOr(u.role),
       password := if dto.password.Some? && dto.password.value != "" then hashed else u.password,
       updatedAt := now)
  }

  class UserService {
    const repo: UserRepository

    ghost predicate Valid()
      reads this, repo
    {
      repo.Valid()
    }

    constructor (users: UserRepository)
      ensures repo == users
    {
      repo := users;
    }

    /** `create(dto)`: an email held by a live account or by a soft-deleted
        one is refused with the matching message; otherwise the account is
        stored with the password's hash. */
    method Create(dto: CreateUserDto, freshId: Id, hashed: string, now: Timestamp) returns (r: Result<User>)
      requires Valid()
      modifies repo
      ensures Valid()
      ensures EmailTaken(old(repo.rows), dto.email, None) ==>
        r.Err? && r.error in {EmailInUse, EmailOfDeletedAccount} && repo.rows == old(repo.rows)
      ensures EmailsUnique(old(repo.rows)) && EmailTaken(old(repo.rows), dto.email, None) ==>
        var k :| k in old(repo.rows) && old(repo.rows)[k].email == dto.email;
        r == Err(if old(repo.rows)[k].IsDeleted() then EmailOfDeletedAccount else EmailInUse)
      ensures !EmailTaken(old(repo.rows), dto.email, None) && freshId !in old(repo.rows) ==>
        r == Ok(StoredUser(NewUser(dto, freshId, hashed, now), now))
        && repo.rows == old(repo.rows)[freshId := StoredUser(NewUser(dto, freshId, hashed, now), now)]
      ensures !EmailTaken(old(repo.rows), dto.email, None) && freshId in old(repo.rows) ==>
        r == Err(UniqueConstraintFailed("id"))
      ensures r.Err? ==> repo.rows == old(repo.rows)
      ensures EmailsUnique(old(repo.rows)) ==> EmailsUnique(repo.rows)
    {
      var existing := repo.FindByEmail(dto.email, true);
      if existing.Some? && existing.value.deletedAt.None? {
        return Err(EmailInUse);
      }
      if existing.Some? && existing.value.deletedAt.Some? {
        return Err(EmailOfDeletedAccount);
      }
      r := repo.Create(NewUser(dto, freshId, hashed, now), now);
    }

    /** `findAll(includeDeleted, page, perPage)`: normalises the arguments,
        rejects a page below 1 and a page size outside 1..MAX_PER_PAGE, and
        returns the page of the newest-first listing with its metadata. */
    method FindAll(config: PageConfig, includeDeleted: IncludeArg, page: Option<JsNumber>, perPage: Option<JsNumber>)
      returns (r: Result<UserPage>, ghost listing: seq<User>)
      requires Valid()
      ensures FloorOr(page, 1) < 1 ==> r == Err(PageTooSmall)
      ensures FloorOr(page, 1) >= 1 && FloorOr(perPage, config.DefaultPerPage()) < 1 ==> r == Err(PerPageTooSmall)
      ensures FloorOr(page, 1) >= 1 && 1 <= FloorOr(perPage, config.DefaultPerPage())
              && FloorOr(perPage, config.DefaultPerPage()) > config.MaxPerPage() ==>
        r == Err(PerPageTooLarge(config.MaxPerPage()))
      ensures r.Ok? ==>
        var withDeleted := NormalizeInclude(includeDeleted);
        var p, pp := FloorOr(page, 1), FloorOr(perPage, config.DefaultPerPage());
        1 <= p && 1 <= pp <= config.MaxPerPage()
        && |listing| == repo.Count(withDeleted)
        && (forall x :: x in listing <==> x in repo.Matching(withDeleted))
        && Distinct(listing) && NewestFirst(listing)
        && r.value.data == Window(listing, (p - 1) * pp, pp)
        && r.value.meta == PageMeta(repo.Count(withDeleted), p, pp, TotalPages(repo.Count(withDeleted), pp))
      ensures FloorOr(page, 1) >= 1 && 1 <= FloorOr(perPage, config.DefaultPerPage()) <= config.MaxPerPage() ==> r.Ok?
    {
      var withDeleted := NormalizeInclude(includeDeleted);
      var pageNum := FloorOr(page, 1);
      if pageNum < 1 {
        return Err(PageTooSmall), [];
      }
      var perPageNum := FloorOr(perPage, config.DefaultPerPage());
      if perPageNum < 1 {
        return Err(PerPageTooSmall), [];
      }
      if perPageNum > config.MaxPerPage() {
        return Err(PerPageTooLarge(config.MaxPerPage())), [];
      }
      var data;
      data, listing := repo.FindAll(withDeleted, pageNum, perPageNum);
      var total := repo.Count(withDeleted);
      r := Ok(UserPage(data, PageMeta(total, pageNum, perPageNum, TotalPages(total, perPageNum))));
    }

    /** `findById(id)`: the live row, or NotFound. */
    function FindById(id: Id): (r: Result<User>)
      reads repo
      ensures r.Ok? <==> IsLive(repo.rows, id)
      ensures r.Ok? ==> r.value == repo.rows[id]
      ensures r.Err? ==> r.error == UserNotFound
    {
      match repo.FindById(id, false)
      case Some(u) => Ok(u)
      case None => Err(UserNotFound)
    }

    /** `update(id, dto)`: the account must be live; a new, non-empty email
        held by any other account, live or soft-deleted, is refused. */
    method Update(id: Id, dto: UpdateUserDto, hashed: string, now: Timestamp) returns (r: Result<User>)
      requires Valid()
      modifies repo
      ensures Valid()
      ensures !IsLive(old(repo.rows), id) ==> r == Err(UserNotFound) && repo.rows == old(repo.rows)
      ensures IsLive(old(repo.rows), id) && dto.email.Some? && dto.email.value != ""
              && dto.email.value != old(repo.rows)[id].email && EmailTaken(old(repo.rows), dto.email.value, Some(id)) ==>
        r == Err(EmailInUse) && repo.rows == old(repo.rows)
      ensures IsLive(old(repo.rows), id)
              && !(dto.email.Some? && dto.email.value != ""
                   && dto.email.value != old(repo.rows)[id].email && EmailTaken(old(repo.rows), dto.email.value, Some(id))) ==>
        var edited := UpdatedUser(old(repo.rows)[id], EditedUser(old(repo.rows)[id], dto, hashed, now));
        r == Ok(edited) && repo.rows == old(repo.rows)[id := edited]
      ensures r.Err? ==> repo.rows == old(repo.rows)
      ensures EmailsUnique(old(repo.rows)) && dto.email != Some("") ==> EmailsUnique(repo.rows)
    {
      var found := FindById(id);
      if found.Err? {
        return Err(found.error);
      }
      var user := found.value;
      if dto.email.Some? && dto.email.value != "" && dto.email.value != user.email {
        var byEmail := repo.FindByEmail(dto.email.value, true);
        if byEmail.Some? && byEmail.value.id != id {
          return Err(EmailInUse);
        }
      }
      r := repo.Update(EditedUser(user, dto, hashed, now));
    }

    /** `remove(id)`: soft-deletes a live account. */
    method Remove(id: Id, now: Timestamp) returns (r: Outcome)
      requires Valid()
      modifies repo
      ensures Valid()
      ensures !IsLive(old(repo.rows), id) ==> r == Fail(UserNotFound) && repo.rows == old(repo.rows)
      ensures IsLive(old(repo.rows), id) ==>
        r == Done && repo.rows == old(repo.rows)[id := old(repo.rows)[id].(deletedAt := Some(now))]
      ensures EmailsUnique(old(repo.rows)) ==> EmailsUnique(repo.rows)
    {
      var found := FindById(id);
      if found.Err? {
        return Fail(found.error);
      }
      r := repo.SoftDelete(id, now);
    }

    /** `hardDelete(id)`: removes an account, soft-deleted or not. */
    method HardDelete(id: Id) returns (r: Outcome)
      requires Valid()
      modifies repo
      ensures Valid()
      ensures id !in old(repo.rows) ==> r == Fail(UserNotFound) && repo.rows == old(repo.rows)
      ensures id in old(repo.rows) ==> r == Done && repo.rows == old(repo.rows) - {id}
      ensures EmailsUnique(old(repo.rows)) ==> EmailsUnique(repo.rows)
    {
      var found := repo.FindById(id, true);
      if found.None? {
        return Fail(UserNotFound);
      }
      r := repo.Delete(id);
    }

    /** `restore(id)`: the account must exist and be soft-deleted. */
    method Restore(id: Id) returns (r: Result<User>)
      requires Valid()
      modifies repo
      ensures Valid()
      ensures id !in old(repo.rows) ==> r == Err(UserNotFound) && repo.rows == old(repo.rows)
      ensures id in old(repo.rows) && !old(repo.rows)[id].IsDeleted() ==>
        r == Err(UserNotDeleted) && repo.rows == old(repo.rows)
      ensures id in old(repo.rows) && old(repo.rows)[id].IsDeleted() ==>
        r == Ok(old(repo.rows)[id].(deletedAt := None)) && repo.rows == old(repo.rows)[id := old(repo.rows)[id].(deletedAt := None)]
      ensures EmailsUnique(old(repo.rows)) ==> EmailsUnique(repo.rows)
    {
      var found := repo.FindById(id, true);
      if found.None? {
        return Err(UserNotFound);
      }
      if found.value.deletedAt.None? {
        return Err(UserNotDeleted);
      }
      r := repo.Restore(id);
    }
  }

  /** The string form ignores letter case: two strings that differ only in
      the case of their letters normalise alike, whatever they are. */
  lemma IncludeIgnoresCase(s: string, t: string)
    requires |s| == |t|
    requires forall i :: 0 <= i < |s| ==> LowerChar(s[i]) == LowerChar(t[i])
    ensures NormalizeInclude(TextArg(s)) == NormalizeInclude(TextArg(t))
  {
    assert Lower(s) == Lower(t);
  }

  /** Lower-casing the argument first does not change the outcome. */
  lemma IncludeOfLowered(s: string)
    ensures NormalizeInclude(TextArg(Lower(s))) == NormalizeInclude(TextArg(s))
  {
    LowerIdempotent(s);
  }

  /** The three accepted spellings, in any letter case, turn listing of
      soft-deleted accounts on; the empty string does not. */
  lemma IncludeSpellings()
    ensures NormalizeInclude(TextArg("TRUE")) && NormalizeInclude(TextArg("Yes")) && NormalizeInclude(TextArg("1"))
    ensures !NormalizeInclude(TextArg("")) && !NormalizeInclude(TextArg("on")) && !NormalizeInclude(Absent)
  {
    assert Lower("TRUE") == "true";
    assert Lower("Yes") == "yes";
    assert Lower("1") == "1";
  }

  /** A page is non-empty exactly when it is within `totalPages` and there
      is something to list. */
  lemma {:induction false} PageNonEmptyIffInRange(listing: seq<User>, page: int, perPage: int)
    requires page >= 1 && perPage >= 1
    ensures |Window(listing, (page - 1) * perPage, perPage)| > 0 <==>
            |listing| > 0 && page <= TotalPages(|listing|, perPage)
  {
    var tp := TotalPages(|listing|, perPage);
    if |listing| > 0 {
      if page <= tp {
        assert (page - 1) * perPage <= (tp - 1) * perPage by {
          MulMonotone(page - 1, tp - 1, perPage);
        }
      } else {
        assert tp * perPage <= (page - 1) * perPage by {
          MulMonotone(tp, page - 1, perPage);
        }
      }
    }
  }

  /** Multiplying by a positive factor keeps the order. */
  lemma MulMonotone(a: int, b: int, c: int)
    requires a <= b && c >= 1
    ensures a * c <= b * c
  {
  }
}
