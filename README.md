# Access control and role assignment, modelled in Dafny

This project models the core of a NestJS service that controls access through roles. It has four tables: users, roles, environment permissions and role assignments. Each table has an entity, a repository and a service. Authentication is covered by the login service, the Passport JWT strategy, the global JWT guard and the role guard.

Layout, one file per source file:

- `*_entity.dfy`: the entities as datatypes with their derived predicates (`isActive`, `hasAnyRole`, …).
- `*_repository.dfy`: each Prisma repository as a class holding its table as a `map` from id to row. `create`, `update`, `softDelete`, `restore` and (hard) `delete` are methods that reassign that map. The queries are functions that read it.
- `*_service.dfy`: each service as a class that holds its repositories and runs the service's checks before it calls them.
- `referential_integrity.dfy`: the link between assignments and the role and environment-permission tables. An assignment's role and environment ids are stored as JSON text, so no foreign key protects them.
- `auth_service.dfy`, `jwt_strategy.dfy`, `route_policy.dfy`, `jwt_auth_guard.dfy`, `roles_guard.dfy` and `guard_chain.dfy`: login, claim resolution, route metadata and the two guards. `guard_chain.dfy` runs the guards in the order the framework calls them.

What is proved, beyond each operation's exact result and new table:

- Services keep several invariants:
  - every role id and environment id an assignment lists names a stored row;
  - every stored assignment window has its end after its start;
  - no two user accounts share an email.
- The hard delete of a role or permission checks all assignments, and that check is exactly what keeps the references resolvable. The soft-delete check, which looks only at live assignments, would not be enough (a counterexample lemma shows this).
- The paged listing is a newest-first, duplicate-free enumeration of the matching rows. Its pages tile that listing, and a page is non-empty exactly when it lies within `totalPages`.
- Token extraction follows a fixed precedence: header, then query, then cookie. The Bearer prefix is stripped whatever its letter case, and rewriting the header a second time changes nothing, except when the token is blank.
- Principals come from the stored account, never from the token's claims. Soft-deleting an account revokes its tokens.
- The role guard checks plain membership with no role hierarchy, and a handler's role list replaces the controller's.

External effects become parameters:

- the clock: `now`;
- uuid generation: `freshId`;
- bcrypt: a `hashed` string and a `passwordMatches` function;
- JWT signing: a `sign` function;
- passport-jwt's verification of the `authorization` header: a `verify` function returning `Verified(claims)` or `Rejected(message)`.

Where the guards and the validation checks run:

- **Role and permission ids in an assignment.** Each id is looked up with the repositories' default soft-delete filter. An id of a soft-deleted role or permission is therefore reported as not found (`src/application/services/role-assignment.service.ts:157-201`). The model states this with `LiveRoleIds` and `LivePermissionIds`.
- **Where the role guard runs.** The JWT guard is the only global guard (`src/app.module.ts:10-15`). The role guard runs only on the User controller, which lists it (`src/presentation/user/user.controller.ts:37`). `GuardChains.Run` models this: on other controllers, `@Roles` metadata is not enforced.

Other behaviour the model makes explicit:

- **Unique names.** `findByName` is a Prisma `findUnique` on `name`, so the `name` column carries a unique index, and the model keeps that index. Creating a role or environment permission whose name is held only by a soft-deleted row passes the service's check. It then fails in the database with a unique-constraint error, which reaches the caller as a 500. Renaming to a soft-deleted row's name fails the same way. So does renaming to the empty name when another row holds it, because the service checks only non-empty names.
- **Assignment update** writes `userId` and `grantedBy` without checking that those users exist.
- **Assignment restore** does not check again that the roles and environments the assignment lists are still live.
- **User hard delete** does not look at the assignments that name the user.
- **Blank token.** A token of white space only is written back as the header `"Bearer "`. A second pass of the guard, as on the User controller, reads that header as the token `"Bearer"`.
- **Unreachable branch.** The JWT strategy's branch for a missing user cannot be reached, because `validateUser` throws first. The error the strategy passes on is always `User not found or has been deleted`.

## Model

| member | source | states |
|---|---|---|
| Common.Missing | src/application/services/role-assignment.service.ts:165-168 | the ids the validation loop pushes are exactly the listed ids that are not known, and there are no more of them than ids |
| Common.MissingEmptyIff | src/application/services/role-assignment.service.ts:170-175 | the filtered list is empty exactly when every listed id is known, so the validation fails exactly when some id is missing |
| Common.MissingStep | src/application/services/role-assignment.service.ts:163-169 | one more loop iteration appends the id to the filtered list exactly when it is unknown |
| Common.NatToString | src/application/services/role.service.ts:110-122 | the count in the in-use message is rendered as decimal digits with no leading zero whose value (`DigitsValue`) is exactly the count |
| Common.LowerChar | src/infrastructure/auth/jwt-auth.guard.ts:64 | ASCII upper-case letters map to their lower-case letter, and every other character is unchanged |
| Common.Lower | src/application/services/user.service.ts:55-60 | lower-casing keeps the length and lowers each character on its own (ASCII letters only) |
| Common.LowerIdempotent | src/application/services/user.service.ts:55-60 | lowering an already lowered string changes nothing |
| RoleAssignmentDomain.RoleAssignment.IsActive | src/domain/role-assignment/role-assignment.entity.ts:24-33 | an active assignment is neither expired (`IsExpired`: an end date already passed) nor soft-deleted (`IsDeleted`) |
| RoleAssignmentDomain.HasAnyRoleIffSome | src/domain/role-assignment/role-assignment.entity.ts:35-45 | `HasAnyRole(xs)` (`hasAnyRole`) holds exactly when `HasRole` (`hasRole`) holds for some listed id, so it is false for an empty list |
| RoleAssignmentDomain.ActiveBetween | src/domain/role-assignment/role-assignment.entity.ts:24-28 | an assignment active at two instants is active at every instant between them |
| RoleAssignmentDomain.ExpiredStaysExpired | src/domain/role-assignment/role-assignment.entity.ts:24-33 | once `IsExpired` holds, an assignment stays expired and inactive at every later instant |
| RoleDomain.Role.IsActive | src/domain/role/role.entity.ts:13-15 | an active role is not soft-deleted (`IsDeleted`) |
| RoleDomain.HasAnyAccessAreaIffSome | src/domain/role/role.entity.ts:17-23 | `HasAnyAccessArea(xs)` (`hasAnyAccessArea`) holds exactly when `HasAccessToArea` (`hasAccessToArea`) holds for some listed area |
| RoleDomain.HasAnyAccessAreaMonotone | src/domain/role/role.entity.ts:21-23 | asking about a superset of areas keeps a positive answer |
| EnvironmentPermissionDomain.HasAllActionsIffEvery | src/domain/environment-permission/environment-permission.entity.ts:20-26 | `HasAllActions(xs)` (`hasAllActions`) holds exactly when every listed action passes `CanPerformAction` (`canPerformAction`), and it holds for the empty list |
| EnvironmentPermissionDomain.HasAnyActionIffSome | src/domain/environment-permission/environment-permission.entity.ts:20-30 | `HasAnyAction(xs)` (`hasAnyAction`) holds exactly when some listed action passes `CanPerformAction` |
| EnvironmentPermissionDomain.HasAllImpliesHasAny | src/domain/environment-permission/environment-permission.entity.ts:24-30 | on a non-empty list, having all the actions implies having one of them |
| RoleRepositories.ApplyRolePatch | src/infrastructure/repositories/role.repository.ts:67-90 | an update keeps id and timestamps, and each of name, description, access areas and active takes the sent value or keeps the stored one |
| RoleRepositories.StoredRole | src/infrastructure/repositories/role.repository.ts:10-22 | a created row keeps the entity's id and name, is stamped with the creation instant and is not deleted |
| RoleRepositories.RoleRepository.Create | src/infrastructure/repositories/role.repository.ts:10-22 | a clash on id or on name is refused with the database error and changes nothing; otherwise exactly the new row is added |
| RoleRepositories.RoleRepository.FindAll | src/infrastructure/repositories/role.repository.ts:24-30 | the result is exactly the stored rows the soft-delete filter admits |
| RoleRepositories.RoleRepository.FindById | src/infrastructure/repositories/role.repository.ts:32-42 | the row is found exactly when it exists and passes the soft-delete filter, and the stored row is what comes back |
| RoleRepositories.RoleRepository.FindByName | src/infrastructure/repositories/role.repository.ts:44-54 | a result is a stored row holding that name that passes the filter; there is no result exactly when every row with the name is filtered out |
| RoleRepositories.RoleRepository.FindActive | src/infrastructure/repositories/role.repository.ts:56-65 | the result is exactly the stored rows that are switched on and not deleted |
| RoleRepositories.RoleRepository.Update | src/infrastructure/repositories/role.repository.ts:67-90 | a missing row or a name held by another row is a database error and changes nothing; otherwise the patched row replaces the stored one |
| RoleRepositories.RoleRepository.SoftDelete | src/infrastructure/repositories/role.repository.ts:92-97 | the row gets `deletedAt = now` and nothing else changes; a missing row is a database error |
| RoleRepositories.RoleRepository.Restore | src/infrastructure/repositories/role.repository.ts:99-104 | the row's `deletedAt` is cleared and nothing else changes; a missing row is a database error |
| RoleRepositories.RoleRepository.HardDelete | src/infrastructure/repositories/role.repository.ts:106-110 | exactly that row is removed; a missing row is a database error |
| RoleRepositories.EmptyRolePatchIsIdentity | src/infrastructure/repositories/role.repository.ts:67-90 | an update that sends nothing leaves the row unchanged |
| RoleRepositories.ApplyRolePatchIdempotent | src/infrastructure/repositories/role.repository.ts:67-90 | sending the same update twice gives the same row as sending it once |
| RoleRepositories.RoleFindAllAgreesWithFindById | src/infrastructure/repositories/role.repository.ts:24-42 | a row is listed by `findAll` exactly when `findById` returns it for its id, under the same filter |
| RoleRepositories.RoleFindActiveWithinLive | src/infrastructure/repositories/role.repository.ts:24-65 | every active role is among the live roles |
| EnvironmentPermissionRepositories.ApplyPermissionPatch | src/infrastructure/repositories/environment-permission.repository.ts:82-110 | an update keeps id and timestamps, and each of name, permitted actions, profile and purpose takes the sent value or keeps the stored one |
| EnvironmentPermissionRepositories.StoredPermission | src/infrastructure/repositories/environment-permission.repository.ts:14-28 | a created row keeps the entity's id and name, is stamped with the creation instant and is not deleted |
| EnvironmentPermissionRepositories.EnvironmentPermissionRepository.Create | src/infrastructure/repositories/environment-permission.repository.ts:14-28 | a clash on id or name is refused with the database error and changes nothing; otherwise exactly the new row is added |
| EnvironmentPermissionRepositories.EnvironmentPermissionRepository.FindAll | src/infrastructure/repositories/environment-permission.repository.ts:30-36 | the result is exactly the stored rows the soft-delete filter admits (those for which `EnvironmentPermission.IsDeleted`, `isDeleted` in the entity, is false unless deleted rows are asked for) |
| EnvironmentPermissionRepositories.EnvironmentPermissionRepository.FindById | src/infrastructure/repositories/environment-permission.repository.ts:38-51 | the row is found exactly when it exists and passes the filter, and the stored row comes back |
| EnvironmentPermissionRepositories.EnvironmentPermissionRepository.FindByName | src/infrastructure/repositories/environment-permission.repository.ts:53-66 | a result is a stored row holding that name that passes the filter; there is no result exactly when every row with the name is filtered out |
| EnvironmentPermissionRepositories.EnvironmentPermissionRepository.FindByProfile | src/infrastructure/repositories/environment-permission.repository.ts:68-80 | the result is exactly the stored rows of that profile that pass the filter |
| EnvironmentPermissionRepositories.EnvironmentPermissionRepository.Update | src/infrastructure/repositories/environment-permission.repository.ts:82-110 | a missing row or a name held by another row is a database error and changes nothing; otherwise the patched row replaces the stored one |
| EnvironmentPermissionRepositories.EnvironmentPermissionRepository.SoftDelete | src/infrastructure/repositories/environment-permission.repository.ts:112-117 | the row gets `deletedAt = now` and nothing else changes |
| EnvironmentPermissionRepositories.EnvironmentPermissionRepository.Restore | src/infrastructure/repositories/environment-permission.repository.ts:119-124 | the row's `deletedAt` is cleared and nothing else changes |
| EnvironmentPermissionRepositories.EnvironmentPermissionRepository.HardDelete | src/infrastructure/repositories/environment-permission.repository.ts:126-130 | exactly that row is removed; a missing row is a database error |
| EnvironmentPermissionRepositories.EmptyPermissionPatchIsIdentity | src/infrastructure/repositories/environment-permission.repository.ts:82-110 | an update that sends nothing leaves the row unchanged |
| EnvironmentPermissionRepositories.ApplyPermissionPatchIdempotent | src/infrastructure/repositories/environment-permission.repository.ts:82-110 | sending the same update twice gives the same row as sending it once |
| EnvironmentPermissionRepositories.PermissionFindAllAgreesWithFindById | src/infrastructure/repositories/environment-permission.repository.ts:30-51 | a row is listed by `findAll` exactly when `findById` returns it for its id |
| EnvironmentPermissionRepositories.FindByProfileWithinFindAll | src/infrastructure/repositories/environment-permission.repository.ts:30-80 | the rows of a profile are exactly the rows `findAll` lists with that profile |
| RoleAssignmentRepositories.ApplyAssignmentPatch | src/infrastructure/repositories/role-assignment.repository.ts:97-132 | an update keeps id and timestamps; each of user, role and environment lists, start and end dates, state, notes and grantor takes the sent value or keeps the stored one |
| RoleAssignmentRepositories.StoredAssignment | src/infrastructure/repositories/role-assignment.repository.ts:13-29 | a created row keeps the entity's id and lists, is stamped with the creation instant and is not deleted |
| RoleAssignmentRepositories.RoleAssignmentRepository.Create | src/infrastructure/repositories/role-assignment.repository.ts:13-29 | an id clash is a database error and changes nothing; otherwise exactly the new row is added |
| RoleAssignmentRepositories.RoleAssignmentRepository.FindAll | src/infrastructure/repositories/role-assignment.repository.ts:31-37 | the result is exactly the stored rows the soft-delete filter admits |
| RoleAssignmentRepositories.RoleAssignmentRepository.FindById | src/infrastructure/repositories/role-assignment.repository.ts:39-52 | the row is found exactly when it exists and passes the filter |
| RoleAssignmentRepositories.RoleAssignmentRepository.FindByUserId | src/infrastructure/repositories/role-assignment.repository.ts:54-66 | the result is exactly the rows of that user that pass the filter |
| RoleAssignmentRepositories.RoleAssignmentRepository.FindActiveByUserId | src/infrastructure/repositories/role-assignment.repository.ts:68-81 | every row returned belongs to the user and is stored |
| RoleAssignmentRepositories.RoleAssignmentRepository.FindByGrantedBy | src/infrastructure/repositories/role-assignment.repository.ts:83-95 | the result is exactly the rows granted by that user that pass the filter |
| RoleAssignmentRepositories.RoleAssignmentRepository.Update | src/infrastructure/repositories/role-assignment.repository.ts:97-132 | a missing row is a database error; otherwise the patched row replaces the stored one, soft-deleted or not |
| RoleAssignmentRepositories.RoleAssignmentRepository.SoftDelete | src/infrastructure/repositories/role-assignment.repository.ts:134-139 | the row gets `deletedAt = now` and nothing else changes |
| RoleAssignmentRepositories.RoleAssignmentRepository.Restore | src/infrastructure/repositories/role-assignment.repository.ts:141-146 | the row's `deletedAt` is cleared and nothing else changes |
| RoleAssignmentRepositories.RoleAssignmentRepository.HardDelete | src/infrastructure/repositories/role-assignment.repository.ts:148-152 | exactly that row is removed; a missing row is a database error |
| RoleAssignmentRepositories.FindActiveMatchesIsActive | src/infrastructure/repositories/role-assignment.repository.ts:68-81 | the database filter for active assignments selects exactly the user's live rows for which the entity's `isActive(now)` holds |
| RoleAssignmentRepositories.FindActiveConvex | src/infrastructure/repositories/role-assignment.repository.ts:68-81 | a row listed as active at two instants is listed at every instant between them |
| RoleAssignmentRepositories.EmptyAssignmentPatchIsIdentity | src/infrastructure/repositories/role-assignment.repository.ts:97-132 | an update that sends nothing leaves the row unchanged |
| RoleAssignmentRepositories.ApplyAssignmentPatchIdempotent | src/infrastructure/repositories/role-assignment.repository.ts:97-132 | sending the same update twice gives the same row as sending it once |
| RoleAssignmentRepositories.AssignmentFindAllAgreesWithFindById | src/infrastructure/repositories/role-assignment.repository.ts:31-52 | a row is listed by `findAll` exactly when `findById` returns it for its id |
| RoleAssignmentRepositories.UpdateKeepsEndDate | src/infrastructure/repositories/role-assignment.repository.ts:97-132 | an update without dates keeps both dates, and no update turns a set end date back into an open end |
| UserRepositories.StoredUser | src/infrastructure/repositories/user.repository.ts:34-45 | a created row keeps id, email, hash and role, is stamped with the creation instant and is not deleted |
| UserRepositories.UpdatedUser | src/infrastructure/repositories/user.repository.ts:91-111 | an update writes name, email, role and `updatedAt`, and writes the password only when the entity's is non-empty; id, `createdAt` and `deletedAt` stay |
| UserRepositories.Skip | src/infrastructure/repositories/user.repository.ts:47-60 | no rows are skipped on page 1 or below; otherwise `(page - 1) * perPage` rows are skipped |
| UserRepositories.Window | src/infrastructure/repositories/user.repository.ts:47-60 | the page holds the `take` rows after the first `skip`, or fewer at the end of the listing, in listing order |
| UserRepositories.NewestExists | src/infrastructure/repositories/user.repository.ts:47-60 | every non-empty set of users has a newest member, so ordering by `createdAt` descending can always pick a first row |
| UserRepositories.AppendNewest | src/infrastructure/repositories/user.repository.ts:47-60 | appending the newest unlisted row keeps the listing duplicate-free and newest first |
| UserRepositories.UserRepository.Create | src/infrastructure/repositories/user.repository.ts:34-45 | an id clash is a database error and changes nothing; otherwise exactly the new row is added |
| UserRepositories.UserRepository.Matching | src/infrastructure/repositories/user.repository.ts:47-66 | the rows the `where` clause selects are exactly the stored rows the soft-delete filter admits |
| UserRepositories.UserRepository.FindAll | src/infrastructure/repositories/user.repository.ts:47-66 | the listing holds each matching row exactly once, newest first, and has `Count` rows (the repository's `count`); the page is its window after `Skip(page, perPage)` rows |
| UserRepositories.UserRepository.FindById | src/infrastructure/repositories/user.repository.ts:68-76 | the row is found exactly when it exists and passes the filter |
| UserRepositories.UserRepository.FindByEmail | src/infrastructure/repositories/user.repository.ts:78-89 | a result is a stored row with that email that passes the filter; there is no result exactly when every row with the email is filtered out |
| UserRepositories.UserRepository.Update | src/infrastructure/repositories/user.repository.ts:91-111 | a missing row is a database error; otherwise the row is replaced by `UpdatedUser` of the stored one |
| UserRepositories.UserRepository.Delete | src/infrastructure/repositories/user.repository.ts:113-115 | exactly that row is removed; a missing row is a database error |
| UserRepositories.UserRepository.SoftDelete | src/infrastructure/repositories/user.repository.ts:117-122 | the row gets `deletedAt = now` and nothing else changes |
| UserRepositories.UserRepository.Restore | src/infrastructure/repositories/user.repository.ts:124-130 | the row's `deletedAt` is cleared and the restored row is returned |
| UserRepositories.PagesTile | src/infrastructure/repositories/user.repository.ts:47-60 | page `p` followed by page `p + 1` is the window of two pages starting at page `p`, so no row is skipped or repeated |
| ReferentialIntegrity.StoreResolvingAssignment | src/application/services/role-assignment.service.ts:42-70 | storing an assignment whose roles and environments all resolve keeps every reference resolvable |
| ReferentialIntegrity.RemoveUnusedRole | src/application/services/role.service.ts:95-102 | removing a role that no assignment lists keeps every role reference resolvable |
| ReferentialIntegrity.RemoveUnusedPermission | src/application/services/environment-permission.service.ts:95-102 | removing a permission that no assignment lists keeps every environment reference resolvable |
| ReferentialIntegrity.GrantedAccessResolves | src/domain/role-assignment/role-assignment.entity.ts:35-49 | while the references resolve, any role `HasRole` reports and any environment `HasEnvironmentAccess` reports for a stored assignment names a stored row |
| ReferentialIntegrity.LiveCheckDoesNotProtectHardDelete | src/application/services/role.service.ts:72-102 | the soft-delete check, which looks only at live assignments, would let a hard delete leave a soft-deleted assignment dangling |
| RoleServices.NewRole | src/application/services/role.service.ts:21-39 | the new role has the fresh id and the requested name, description and access areas, is not deleted, and is active unless `active: false` was sent |
| RoleServices.RolePatchOf | src/application/services/role.service.ts:57-70 | the update sends no id or timestamps and passes name and areas through |
| RoleServices.UsingRoleNonEmpty | src/application/services/role.service.ts:110-122 | the filtered set of assignments is non-empty exactly when some admitted assignment lists the role |
| RoleServices.RoleService.FindById | src/application/services/role.service.ts:45-51 | returns the row exactly when it exists and passes the filter; otherwise `Role not found` |
| RoleServices.RoleService.ValidateRoleNotInUse | src/application/services/role.service.ts:110-122 | passes exactly when no admitted assignment lists the role; otherwise a conflict whose message gives the number of admitted assignments that list it |
| RoleServices.RoleService.Create | src/application/services/role.service.ts:21-39 | a name held by a live role gives `AlreadyExists` and changes nothing; otherwise the new row is stored, or the database refuses an id clash or a name held by a soft-deleted role with its unique-constraint error and no change; references stay resolvable |
| RoleServices.RoleService.Update | src/application/services/role.service.ts:57-70 | a missing or deleted role gives NotFound; a non-empty new name held by another live role gives `AlreadyExists`; a new name held only by a soft-deleted role, or an empty name another role holds, gives the database's unique-constraint error; otherwise the patched row is stored; errors change nothing |
| RoleServices.RoleService.SoftDelete | src/application/services/role.service.ts:72-79 | a role not live gives NotFound; a role listed by a live assignment gives the in-use conflict; otherwise it is stamped deleted and no live assignment lists it |
| RoleServices.RoleService.Restore | src/application/services/role.service.ts:81-93 | a missing role gives NotFound, a live one `Role is not deleted`; otherwise `deletedAt` is cleared and the row returned |
| RoleServices.RoleService.HardDelete | src/application/services/role.service.ts:95-102 | a role listed by any assignment, deleted or not, is refused; otherwise the row is removed and every role reference still resolves |
| RoleServices.HardDeleteCheckImpliesSoftDeleteCheck | src/application/services/role.service.ts:110-116 | when the check against all assignments passes, the check against live assignments passes too |
| EnvironmentPermissionServices.NewPermission | src/application/services/environment-permission.service.ts:21-39 | the new permission has the fresh id, the requested name, actions, profile and purpose, both timestamps set to now, and is not deleted |
| EnvironmentPermissionServices.PermissionPatchOf | src/application/services/environment-permission.service.ts:57-70 | the update sends no id or timestamps and passes name and actions through |
| EnvironmentPermissionServices.UsingPermissionNonEmpty | src/application/services/environment-permission.service.ts:110-122 | the filtered set of assignments is non-empty exactly when some admitted assignment lists the permission |
| EnvironmentPermissionServices.EnvironmentPermissionService.FindById | src/application/services/environment-permission.service.ts:45-51 | returns the row exactly when it exists and passes the filter; otherwise NotFound |
| EnvironmentPermissionServices.EnvironmentPermissionService.ValidateEnvironmentPermissionNotInUse | src/application/services/environment-permission.service.ts:110-122 | passes exactly when no admitted assignment lists the permission; otherwise a conflict whose message gives the number of admitted assignments that list it |
| EnvironmentPermissionServices.EnvironmentPermissionService.Create | src/application/services/environment-permission.service.ts:21-39 | a name held by a live permission gives `AlreadyExists` and changes nothing; otherwise the new row is stored, or the database refuses an id clash or a name held by a soft-deleted permission with its unique-constraint error and no change |
| EnvironmentPermissionServices.EnvironmentPermissionService.Update | src/application/services/environment-permission.service.ts:57-70 | a missing or deleted permission gives NotFound; a non-empty new name held by another live permission gives `AlreadyExists`; a new name held only by a soft-deleted permission, or an empty name another permission holds, gives the database's unique-constraint error; otherwise the patched row is stored; errors change nothing |
| EnvironmentPermissionServices.EnvironmentPermissionService.SoftDelete | src/application/services/environment-permission.service.ts:72-79 | a permission not live gives NotFound; one listed by a live assignment gives the in-use conflict; otherwise it is stamped deleted |
| EnvironmentPermissionServices.EnvironmentPermissionService.Restore | src/application/services/environment-permission.service.ts:81-93 | a missing permission gives NotFound, a live one the not-deleted conflict; otherwise `deletedAt` is cleared |
| EnvironmentPermissionServices.EnvironmentPermissionService.HardDelete | src/application/services/environment-permission.service.ts:95-102 | a permission listed by any assignment is refused; otherwise the row is removed and every environment reference still resolves |
| EnvironmentPermissionServices.HardDeleteCheckImpliesSoftDeleteCheck | src/application/services/environment-permission.service.ts:110-116 | when the check against all assignments passes, the check against live assignments passes too |
| RoleAssignmentServices.StoreValidWindow | src/application/services/role-assignment.service.ts:49-54 | storing an assignment whose end is after its start keeps every stored window well formed |
| RoleAssignmentServices.NewAssignment | src/application/services/role-assignment.service.ts:56-70 | the new assignment carries the request's user, grantor, lists and dates, its state defaults to ACTIVE and its notes to the empty string, both timestamps are now, and it is not deleted |
| RoleAssignmentServices.AssignmentPatchOf | src/application/services/role-assignment.service.ts:97-127 | the update sends no id or timestamps and passes lists and dates through |
| RoleAssignmentServices.NewAssignmentActiveFromStart | src/application/services/role-assignment.service.ts:56-70 | an assignment created with default state and no end date is active from its start date on |
| RoleAssignmentServices.RoleAssignmentService.ValidateRoleIds | src/application/services/role-assignment.service.ts:157-176 | passes exactly when every id names a live role; otherwise fails once, naming every missing id in order |
| RoleAssignmentServices.RoleAssignmentService.ValidateEnvironmentPermissionIds | src/application/services/role-assignment.service.ts:182-201 | passes exactly when every id names a live permission; otherwise fails once, naming every missing id in order |
| RoleAssignmentServices.RoleAssignmentService.FindById | src/application/services/role-assignment.service.ts:77-83 | returns the row exactly when it exists and passes the filter; otherwise `Role assignment not found` |
| RoleAssignmentServices.RoleAssignmentService.CheckCreate | src/application/services/role-assignment.service.ts:29-54 | checks user, grantor, roles, environments and window in that order; the first failure is the result; success means every listed id is live |
| RoleAssignmentServices.RoleAssignmentService.Create | src/application/services/role-assignment.service.ts:29-71 | every failed check gives its own error and changes nothing; an id clash gives the database's unique-constraint error; otherwise exactly the new row is stored; references and windows stay valid |
| RoleAssignmentServices.RoleAssignmentService.CheckUpdate | src/application/services/role-assignment.service.ts:97-121 | checks that the assignment is live, then the sent role and environment lists, then the window with each sent date merged with the stored other one |
| RoleAssignmentServices.RoleAssignmentService.Update | src/application/services/role-assignment.service.ts:97-127 | each failed check gives its own error and changes nothing; otherwise the merged row is stored, its window is well formed, and references stay resolvable |
| RoleAssignmentServices.RoleAssignmentService.SoftDelete | src/application/services/role-assignment.service.ts:129-132 | an assignment that is not live gives NotFound; otherwise it is stamped deleted |
| RoleAssignmentServices.RoleAssignmentService.Restore | src/application/services/role-assignment.service.ts:134-146 | a missing assignment gives NotFound, a live one the not-deleted conflict; otherwise `deletedAt` is cleared |
| RoleAssignmentServices.RoleAssignmentService.HardDelete | src/application/services/role-assignment.service.ts:148-151 | a missing assignment gives NotFound; otherwise exactly that row is removed |
| UserServices.PageConfig.DefaultPerPage | src/application/services/user.service.ts:63-64 | `Number(env) \|\| 10` is never zero |
| UserServices.PageConfig.MaxPerPage | src/application/services/user.service.ts:63-64 | `Number(env) \|\| 100` is never zero |
| UserServices.FloorOr | src/application/services/user.service.ts:67-74 | a finite argument gives its floor; an absent or non-finite argument gives the fallback |
| UserServices.CeilDiv | src/application/services/user.service.ts:81 | the quotient rounded up: `(q - 1) * perPage < total <= q * perPage` |
| UserServices.TotalPages | src/application/services/user.service.ts:81 | at least one page, and for a non-empty table the fewest pages that hold every row |
| UserServices.NewUser | src/application/services/user.service.ts:22-47 | the new account has the fresh id, the email and the hash, defaults to role USER and is not deleted |
| UserServices.EditedUser | src/application/services/user.service.ts:95-111 | sent name, email and role replace the stored ones and omitted ones are kept, a non-empty password is replaced by its hash, `updatedAt` is now, and id, `createdAt` and `deletedAt` stay |
| UserServices.UserService.Create | src/application/services/user.service.ts:22-47 | an email held by any account is refused: `Email already in use` for a live account, the deleted-account message for a soft-deleted one; an id clash gives the database's unique-constraint error; otherwise the account is stored; emails stay unique |
| UserServices.UserService.FindAll | src/application/services/user.service.ts:49-87 | page below 1, page size below 1 and page size above the maximum give their errors in that order; otherwise the page of the newest-first listing with its total and `totalPages` |
| UserServices.UserService.FindById | src/application/services/user.service.ts:89-93 | returns the account exactly when it is live; otherwise `User not found` |
| UserServices.UserService.Update | src/application/services/user.service.ts:95-111 | an account that is not live gives NotFound; a changed non-empty email held by another account gives the conflict; otherwise the edited row is stored |
| UserServices.UserService.Remove | src/application/services/user.service.ts:113-117 | a live account is stamped deleted; otherwise NotFound |
| UserServices.UserService.HardDelete | src/application/services/user.service.ts:119-123 | an existing account, deleted or not, is removed; otherwise NotFound |
| UserServices.UserService.Restore | src/application/services/user.service.ts:125-130 | a missing account gives NotFound, a live one `User is not deleted`; otherwise `deletedAt` is cleared |
| UserServices.IncludeSpellings | src/application/services/user.service.ts:55-60 | "TRUE", "Yes" and "1" turn listing of deleted accounts on; "", "on" and an absent value do not |
| UserServices.IncludeIgnoresCase | src/application/services/user.service.ts:55-60 | `NormalizeInclude`, the `includeDeleted` normalisation, reads text without regard to letter case: two texts that differ only in case give the same answer |
| UserServices.IncludeOfLowered | src/application/services/user.service.ts:55-60 | lower-casing the text before `NormalizeInclude` reads it does not change the answer |
| UserServices.PageNonEmptyIffInRange | src/application/services/user.service.ts:67-87 | a page is non-empty exactly when the table is non-empty and the page number is at most `totalPages` |
| AuthServices.AuthService.ValidateCredentials | src/application/auth/auth.service.ts:56-70 | success returns a live stored account with that email whose hash the password matches; every failure is `Invalid credentials`; with unique emails, success holds exactly when such an account exists |
| AuthServices.AuthService.Login | src/application/auth/auth.service.ts:29-47 | a successful login returns a live matching account and the signature of its id, email and role; any failure is `Invalid credentials`; with unique emails, login succeeds exactly when a live account has the email and the password matches its hash |
| AuthServices.AuthService.ValidateUser | src/application/auth/auth.service.ts:79-87 | the subject's account is returned exactly when it is live; otherwise `User not found or has been deleted` |
| AuthServices.LoginClaimsResolve | src/application/auth/auth.service.ts:35-39 | the claims signed at login (`PayloadOf`: the account's id as `sub`, its email and its role) resolve back to the same account while it stays live, whatever `iat` and `exp` were added |
| AuthServices.SoftDeleteRevokesClaims | src/application/auth/auth.service.ts:79-87 | after a soft delete the account's claims no longer resolve |
| JwtStrategies.JwtStrategy.Validate | src/infrastructure/auth/jwt.strategy.ts:28-70 | yields a principal exactly when the subject is live, built from the stored row; otherwise the lookup's error |
| JwtStrategies.PrincipalIsSubject | src/infrastructure/auth/jwt.strategy.ts:28-70 | the principal's user id is the token's subject |
| JwtStrategies.OnlySubjectMatters | src/infrastructure/auth/jwt.strategy.ts:28-70 | claims that agree on the subject give the same outcome |
| JwtStrategies.StaleRoleClaimIgnored | src/infrastructure/auth/jwt.strategy.ts:28-70 | an ADMIN role claim yields a USER principal once the stored account is USER |
| JwtStrategies.LoginThenValidate | src/infrastructure/auth/jwt.strategy.ts:28-70 | the claims issued at login validate to the logged-in account's principal |
| JwtAuthGuards.RawToken | src/infrastructure/auth/jwt-auth.guard.ts:43-61 | a token is found exactly when some carrier holds a non-empty string, and the header (`HeaderToken`: `authorization`, then `x-access-token`) wins over the query (`QueryToken`: `authorization`, `access_token`, `token`), which wins over the cookie (`CookieToken`: `authToken`, `token`, `access_token`) |
| JwtAuthGuards.TrimStart | src/infrastructure/auth/jwt-auth.guard.ts:64 | the result is a suffix that does not start with white space, and only white space was dropped |
| JwtAuthGuards.TrimEnd | src/infrastructure/auth/jwt-auth.guard.ts:64 | the result is a prefix that does not end with white space, and only white space was dropped |
| JwtAuthGuards.Trim | src/infrastructure/auth/jwt-auth.guard.ts:64 | the result has no white space at either end, and a string without any is unchanged |
| JwtAuthGuards.Normalize | src/infrastructure/auth/jwt-auth.guard.ts:64 | the token written after "Bearer " has no white space at either end; without a Bearer prefix it is the trimmed input |
| JwtAuthGuards.TrimStartOfGap | src/infrastructure/auth/jwt-auth.guard.ts:64 | removing leading white space from a gap and a token drops exactly the gap |
| JwtAuthGuards.BearerFormIsBare | src/infrastructure/auth/jwt-auth.guard.ts:64 | "Bearer", a gap and a bare token form a string trimming leaves alone |
| JwtAuthGuards.BearerFormIsPrefixed | src/infrastructure/auth/jwt-auth.guard.ts:64 | "Bearer" followed by white space matches `/^Bearer\s+/i` |
| JwtAuthGuards.StripsOneBearer | src/infrastructure/auth/jwt-auth.guard.ts:64 | "Bearer" in any letter case, white space and a bare token normalise to exactly the token |
| JwtAuthGuards.KeepsPlainToken | src/infrastructure/auth/jwt-auth.guard.ts:64 | a bare token without the prefix is kept as it is |
| JwtAuthGuards.SpacedWordNormalizes | src/infrastructure/auth/jwt-auth.guard.ts:64 | "Bearer", one space and a bare token normalise to the token |
| JwtAuthGuards.BearerSpellingsAgree | src/infrastructure/auth/jwt-auth.guard.ts:63-65 | "abc", "Bearer abc" and "bearer abc" all give the header "Bearer abc" |
| JwtAuthGuards.WrittenHeaderNormalizes | src/infrastructure/auth/jwt-auth.guard.ts:63-65 | the header the guard writes normalises back to its token |
| JwtAuthGuards.RewriteIsStable | src/infrastructure/auth/jwt-auth.guard.ts:63-65 | normalising the written header gives the same token again, when the token is non-empty |
| JwtAuthGuards.BlankTokenNormalizesToEmpty | src/infrastructure/auth/jwt-auth.guard.ts:63-65 | a token of white space only becomes the empty token |
| JwtAuthGuards.BareBearerHeader | src/infrastructure/auth/jwt-auth.guard.ts:63-65 | the header "Bearer " is read as the token "Bearer" |
| JwtAuthGuards.BlankTokenIsNotStable | src/infrastructure/auth/jwt-auth.guard.ts:63-65 | a blank token is written as "Bearer ", which a second pass turns into the token "Bearer" |
| JwtAuthGuards.NoTokenLeavesHeaders | src/infrastructure/auth/jwt-auth.guard.ts:61-66 | with no token in any carrier the headers are left as they were |
| JwtAuthGuards.RewriteTwice | src/infrastructure/auth/jwt-auth.guard.ts:43-66 | running the extraction step twice leaves the headers as one run left them, when the token is non-empty |
| JwtAuthGuards.RewriteStable | src/infrastructure/auth/jwt-auth.guard.ts:59-65 | unless the token found is white space only, a second rewrite of the headers changes nothing, also when no token is found |
| JwtAuthGuards.EmptyQueryValueFallsThrough | src/infrastructure/auth/jwt-auth.guard.ts:50-54 | an empty `authorization` query value falls through to `token` |
| JwtAuthGuards.HandleRequest | src/infrastructure/auth/jwt-auth.guard.ts:74-88 | an error is passed on; otherwise success exactly when there is a user; a missing user gives Unauthorized with passport's message or "Unauthorized" |
| JwtAuthGuards.Authenticate | src/infrastructure/auth/jwt-auth.guard.ts:71-88 | success exactly when the token verifies and the strategy finds a live subject; a rejected token is Unauthorized |
| JwtAuthGuards.Request.constructor | src/infrastructure/auth/jwt-auth.guard.ts:37-41 | a request starts with its headers, query and cookies and no principal |
| JwtAuthGuards.CanActivate | src/infrastructure/auth/jwt-auth.guard.ts:22-72 | a public route (`RoutePolicy.IsPublic`, handler over controller) passes untouched; otherwise the headers are rewritten and the request passes exactly when authentication yields a principal, which is attached |
| RolesGuards.CanActivate | src/infrastructure/auth/roles.guard.ts:21-72 | passes exactly when the route is public, requires no roles, or the principal's role is listed; refuses with Unauthorized exactly when there is no principal and with Forbidden otherwise |
| RolesGuards.NoRoleHierarchy | src/infrastructure/auth/roles.guard.ts:62-71 | ADMIN is refused on a MODERATOR-only route |
| RolesGuards.MoreRolesAdmitMore | src/infrastructure/auth/roles.guard.ts:32-71 | listing more roles never refuses a principal that was admitted |
| RolesGuards.HandlerRolesReplaceControllerRoles | src/infrastructure/auth/roles.guard.ts:21-35 | a USER-only handler in an ADMIN-only controller refuses ADMIN: `RoutePolicy.RequiredRoles` and `RoutePolicy.IsPublic` read metadata through `Metadata.Resolve`, where the handler's value, when set, replaces the controller's, as `getAllAndOverride` |
| RolesGuards.EmptyHandlerListOpensRoute | src/infrastructure/auth/roles.guard.ts:32-40 | an empty handler list overrides the controller's and opens the route |
| GuardChains.Run | src/presentation/user/user.controller.ts:37 | public routes pass untouched; otherwise a JWT refusal is returned as is, and a request passes exactly when its final header authenticates and, on the User controller, the role guard admits that principal, which is the one attached; for a non-blank token the second JWT pass sees the header the first wrote |

## Left out

- The database is an in-memory map. Prisma's client, the schema, migrations and the JSON encoding of the role and environment lists are not modelled; the lists round-trip as the same sequences.
- `updatedAt`: the database's automatic update on every write is not modelled. Repository updates keep the stored `updatedAt`, except where the service sets it explicitly (user update).
- Ordering of rows with equal `createdAt` in the user listing is left open: the listing is only required to be newest first.
- uuid generation, bcrypt hashing and comparison, JWT signing and passport-jwt's verification (signature, expiry and header parsing) are functions or values passed in, not modelled.
- Environment variables are integers or absent: the `Number(...)` parse of arbitrary text is not modelled beyond "absent, non-numeric or zero gives the fallback".
- Common.Lower: lowers ASCII letters only, while JavaScript's `toLowerCase` follows full Unicode and can change the length ("İ" becomes two code units). For `includeDeleted` this does not change the result: no non-ASCII character lowercases into the letters of "true", "yes" or "1".
- UserServices.FloorOr: the page arguments are modelled as a finite real or "not finite"; the exact JavaScript double (rounding of large values) is not modelled.
- RoleAssignmentRepositories.RoleAssignmentRepository.FindActiveByUserId: its contract states only that the rows belong to the user; the exact filter is stated by the lemma `FindActiveMatchesIsActive`.
- The mappers to response DTOs, the controllers, the decorators beyond the metadata they set, the exception filter and the response interceptor are not part of this model; nor is logging, metrics or tracing (including the `LOG_AUTH` diagnostics in the role guard and the console output in the strategy).
- Query parameters and cookies that are objects (nested query syntax such as `token[a]=x`, or a JSON cookie) are not modelled: a carrier is absent, a string or an array of strings. With an object, the source's `typeof rawToken === "string"` test fails and the header is left as it was.
- The guard's `try`/`catch` around token extraction: nothing in the modelled extraction can throw, so the catch branch is not modelled.
- Request concurrency: each operation runs alone; the race between a validation lookup and the later write is not modelled.
- The seed script and the observability module are not part of this model.
