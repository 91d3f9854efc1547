/** The User table as the repository sees it: rows keyed by id, listed newest
    first in pages. */
module UserRepositories {
  import opened Common
  import opened UserDomain

  /** The row `create` stores: id, name, email, password hash and role from
      the entity; the database sets both timestamps to the current instant
      and leaves `deletedAt` null. */
  function StoredUser(u: User, now: Timestamp): (s: User)
    ensures s.id == u.id && s.email == u.email && s.password == u.password && s.role == u.role
    ensures s.createdAt == now && s.updatedAt == now && !s.IsDeleted()
  {
    u.(createdAt := now, updatedAt := now, deletedAt := None)
  }

  /** The row `update(user)` writes over `prev`: name, email, role and
      updatedAt from the entity, the password only when the entity's is
      non-empty; id, createdAt and deletedAt stay. */
  function UpdatedUser(prev: User, u: User): (s: User)
    ensures s.id == prev.id && s.createdAt == prev.createdAt && s.deletedAt == prev.deletedAt
    ensures s.name == u.name && s.email == u.email && s.role == u.role && s.updatedAt == u.updatedAt
    ensures s.password == (if u.password != "" then u.password else prev.password)
  {
    prev.(name := u.name, email := u.email, role := u.role, updatedAt := u.updatedAt,
          password := if u.password != "" then u.password else prev.password)
  }

  /** Whether every element of `xs` is created no earlier than the next. */
  predicate NewestFirst(xs: seq<User>)
  {
    forall i, j :: 0 <= i < j < |xs| ==> xs[i].createdAt >= xs[j].createdAt
  }

  /** Whether no user appears twice in `xs`. */
  predicate Distinct(xs: seq<User>)
  {
    forall i, j :: 0 <= i < j < |xs| ==> xs[i] != xs[j]
  }

  /** The number of rows `findAll` skips: `max(0, page - 1) * max(1, perPage)`. */
  function Skip(page: int, perPage: int): (n: nat)
    ensures page <= 1 ==> n == 0
    ensures page >= 1 && perPage >= 1 ==> n == (page - 1) * perPage
  {
    (if page - 1 > 0 then page - 1 else 0) * (if perPage > 1 then perPage else 1)
  }

  /** The page cut out of a listing: `skip` rows dropped, at most `take` kept. */
  function Window(listing: seq<User>, skip: nat, take: nat): (r: seq<User>)
    ensures |r| == (if skip >= |listing| then 0 else if take < |listing| - skip then take else |listing| - skip)
    ensures forall i :: 0 <= i < |r| ==> r[i] == listing[skip + i]
  {
    if skip >= |listing| then []
    else if take < |listing| - skip then listing[skip..skip + take]
    else listing[skip..]
  }

  /** A non-empty finite set of users has a newest member. */
  lemma {:induction false} NewestExists(s: set<User>)
    requires s != {}
    ensures exists u :: u in s && forall v :: v in s ==> v.createdAt <= u.createdAt
    decreases |s|
  {
    var x :| x in s;
    if s - {x} == {} {
      assert s == {x};
    } else {
      NewestExists(s - {x});
      var m :| m in s - {x} && forall v :: v in s - {x} ==> v.createdAt <= m.createdAt;
      if x.createdAt <= m.createdAt {
        assert forall v :: v in s ==> v.createdAt <= m.createdAt;
      } else {
        assert forall v :: v in s ==> v.createdAt <= x.createdAt;
      }
    }
  }

  /** Appending the newest member of the unlisted pool keeps the listing
      duplicate-free and newest first, and still ahead of the rest of the
      pool. */
  lemma AppendNewest(listing: seq<User>, pool: set<User>, u: User)
    requires Distinct(listing) && NewestFirst(listing)
    requires u in pool && forall v :: v in pool ==> v.createdAt <= u.createdAt
    requires forall i, y :: 0 <= i < |listing| && y in pool ==> listing[i].createdAt >= y.createdAt
    requires forall x :: x in listing ==> x !in pool
    ensures Distinct(listing + [u]) && NewestFirst(listing + [u])
    ensures forall i, y :: 0 <= i < |listing + [u]| && y in pool - {u} ==> (listing + [u])[i].createdAt >= y.createdAt
  {
    var next := listing + [u];
    forall i, j | 0 <= i < j < |next| ensures next[i] != next[j] && next[i].createdAt >= next[j].createdAt {
      if j == |listing| {
        assert next[i] == listing[i] && next[j] == u;
        assert listing[i] in listing;
      }
    }
  }

  class UserRepository {
    var rows: map<Id, User>

    /** Every row sits under its own id. */
    ghost predicate Valid()
      reads this
    {
      forall k :: k in rows ==> rows[k].id == k
    }

    constructor ()
      ensures Valid() && rows == map[]
    {
      rows := map[];
    }

    /** `create(user)`: the primary key rejects a clash. */
    method Create(u: User, now: Timestamp) returns (r: Result<User>)
      requires Valid()
      modifies this
      ensures Valid()
      ensures u.id in old(rows) ==> r == Err(UniqueConstraintFailed("id")) && rows == old(rows)
      ensures u.id !in old(rows) ==> r == Ok(StoredUser(u, now)) && rows == old(rows)[u.id := StoredUser(u, now)]
    {
      if u.id in rows {
        return Err(UniqueConstraintFailed("id"));
      }
      var stored := StoredUser(u, now);
      rows := rows[u.id := stored];
      return Ok(stored);
    }

    /** The rows the `where` clause of `findAll` and `count` selects. */
    function Matching(includeDeleted: bool): (r: set<User>)
      reads this
      ensures forall x :: x in r ==> x in rows.Values && (includeDeleted || !x.IsDeleted())
      ensures forall k :: k in rows && (includeDeleted || !rows[k].IsDeleted()) ==> rows[k] in r
    {
      set x | x in rows.Values && (includeDeleted || !x.IsDeleted())
    }

    /** `count(includeDeleted)`. */
    function Count(includeDeleted: bool): nat
      reads this
    {
      |Matching(includeDeleted)|
    }

    /** `findAll(includeDeleted, page, perPage)`: the matching rows ordered by
        `createdAt` descending (`listing`; rows with equal `createdAt` may come
        in any order), with `Skip(page, perPage)` rows skipped and at most
        `perPage` kept. */
    method FindAll(includeDeleted: bool, page: int, perPage: int) returns (data: seq<User>, ghost listing: seq<User>)
      requires perPage >= 1
      ensures |listing| == Count(includeDeleted)
      ensures forall x :: x in listing <==> x in Matching(includeDeleted)
      ensures Distinct(listing) && NewestFirst(listing)
      ensures data == Window(listing, Skip(page, perPage), perPage)
    {
      var pool := Matching(includeDeleted);
      listing := [];
      var out: seq<User> := [];
      while pool != {}
        invariant pool <= Matching(includeDeleted)
        invariant |listing| + |pool| == |Matching(includeDeleted)|
        invariant forall x :: x in listing ==> x in Matching(includeDeleted) && x !in pool
        invariant forall x :: x in Matching(includeDeleted) ==> x in pool || x in listing
        invariant Distinct(listing) && NewestFirst(listing)
        invariant forall i, y :: 0 <= i < |listing| && y in pool ==> listing[i].createdAt >= y.createdAt
        invariant out == listing
        decreases |pool|
      {
        NewestExists(pool);
        var u :| u in pool && forall v :: v in pool ==> v.createdAt <= u.createdAt;
        AppendNewest(listing, pool, u);
        listing := listing + [u];
        out := out + [u];
        pool := pool - {u};
      }
      data := Window(out, Skip(page, perPage), perPage);
    }

    /** `findById(id, includeDeleted)`. */
    function FindById(id: Id, includeDeleted: bool): (r: Option<User>)
      reads this
      ensures r.Some? <==> id in rows && (includeDeleted || !rows[id].IsDeleted())
      ensures r.Some? ==> r.value == rows[id]
    {
      if id in rows && (includeDeleted || !rows[id].IsDeleted()) then Some(rows[id]) else None
    }

    /** `findByEmail(email, includeDeleted)`: the first row the database meets
        with that email; when several rows share it, any of them. */
    method FindByEmail(email: string, includeDeleted: bool) returns (r: Option<User>)
      ensures r.Some? ==> r.value in rows.Values && r.value.email == email && (includeDeleted || !r.value.IsDeleted())
      ensures r.None? <==> forall k :: k in rows && rows[k].email == email ==> !includeDeleted && rows[k].IsDeleted()
    {
      if k :| k in rows && rows[k].email == email && (includeDeleted || !rows[k].IsDeleted()) {
        return Some(rows[k]);
      }
      return None;
    }

    /** `update(user)`: writes the row with the entity's id. */
    method Update(u: User) returns (r: Result<User>)
      requires Valid()
      modifies this
      ensures Valid()
      ensures u.id !in old(rows) ==> r == Err(RecordToUpdateNotFound) && rows == old(rows)
      ensures u.id in old(rows) ==>
        r == Ok(UpdatedUser(old(rows)[u.id], u)) && rows == old(rows)[u.id := UpdatedUser(old(rows)[u.id], u)]
    {
      if u.id !in rows {
        return Err(RecordToUpdateNotFound);
      }
      var updated := UpdatedUser(rows[u.id], u);
      rows := rows[u.id := updated];
      return Ok(updated);
    }

    /** `delete(id)`: removes the row. */
    method Delete(id: Id) returns (r: Outcome)
      requires Valid()
      modifies this
      ensures Valid()
      ensures id !in old(rows) ==> r == Fail(RecordToDeleteNotFound) && rows == old(rows)
      ensures id in old(rows) ==> r == Done && rows == old(rows) - {id}
    {
      if id !in rows {
        return Fail(RecordToDeleteNotFound);
      }
      rows := rows - {id};
      return Done;
    }

    /** `softDelete(id)`: stamps `deletedAt` with the current instant. */
    method SoftDelete(id: Id, now: Timestamp) returns (r: Outcome)
      requires Valid()
      modifies this
      ensures Valid()
      ensures id !in old(rows) ==> r == Fail(RecordToUpdateNotFound) && rows == old(rows)
      ensures id in old(rows) ==> r == Done && rows == old(rows)[id := old(rows)[id].(deletedAt := Some(now))]
    {
      if id !in rows {
        return Fail(RecordToUpdateNotFound);
      }
      rows := rows[id := rows[id].(deletedAt := Some(now))];
      return Done;
    }

    /** `restore(id)`: clears `deletedAt` and returns the row. */
    method Restore(id: Id) returns (r: Result<User>)
      requires Valid()
      modifies this
      ensures Valid()
      ensures id !in old(rows) ==> r == Err(RecordToUpdateNotFound) && rows == old(rows)
      ensures id in old(rows) ==>
        r == Ok(old(rows)[id].(deletedAt := None)) && rows == old(rows)[id := old(rows)[id].(deletedAt := None)]
    {
      if id !in rows {
        return Err(RecordToUpdateNotFound);
      }
      var restored := rows[id].(deletedAt := None);
      rows := rows[id := restored];
      return Ok(restored);
    }
  }

  /** Consecutive pages of one listing tile it: page `p + 1` starts where
      page `p` ends, so no row is shown twice or skipped. */
  lemma PagesTile(listing: seq<User>, page: int, perPage: int)
    requires page >= 1 && perPage >= 1
    requires Skip(page, perPage) + perPage <= |listing|
    ensures Window(listing, Skip(page, perPage), perPage) + Window(listing, Skip(page + 1, perPage), perPage)
         == Window(listing, Skip(page, perPage), 2 * perPage)
  {
    var a := Window(listing, Skip(page, perPage), perPage);
    var b := Window(listing, Skip(page + 1, perPage), perPage);
    var c := Window(listing, Skip(page, perPage), 2 * perPage);
    assert |a + b| == |c|;
    forall i | 0 <= i < |c| ensures (a + b)[i] == c[i] {
      if i >= |a| {
        assert (a + b)[i] == b[i - |a|];
      }
    }
  }
}
