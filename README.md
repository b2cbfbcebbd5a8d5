# Identity, team-membership and token model

A Dafny model of the logic-bearing services of a NestJS identity backend:

- **Teams** (`teams.dfy`): the `Team` and `TeamMember` tables and the guarded team operations. These are create a team with its OWNER row, invite, change a role, remove or leave, list members, list a user's teams, `isTeamCreator` and `canUserInviteMembers`.
- **Auth** (`auth.dfy`): the `User` table keyed by a unique email, and the operations signup, login, GitHub find-or-create, refresh, `validateUser` and the construction of the token pair. bcrypt and JSON Web Token signing (RFC 7519) are uninterpreted function values. The properties proved about them assume only `BcryptSound` and `JwtSound`: a digest matches its password, and a signed token verifies to its claims under its secret until it expires.
- **Permissions** (`permissions.dfy`): the constant role-to-permission table and the clear-then-insert seeding loop.
- **KeyValue** (`key_value.dfy`): the Redis store as a map from key to value and optional expiry, read against a clock, with the `blacklist:` namespace.
- **Audit** (`audit.dfy`): the append-only audit log, its failure-swallowing write and its newest-first per-user query.
- `wrappers.dfy` holds `Option`/`Result`; `roles.dfy` holds the system `Role` enum.

Tables are maps (or a sequence for the audit and permission tables). Each service is a class whose fields are those tables, and each service method is one atomic step. Queries are pure functions over the tables. The clock, bcrypt salts, the result of a failing audit write and environment variables are parameters. Row ids are counters standing for the generated ids of the tables.

Behaviours of the code worth noting:
- `inviteToTeam` does not refuse the role OWNER. `OwnerInviteAddsOwner` shows that such an invitation adds a second OWNER row. Only the HTTP route guards against this, because it always passes the default role MEMBER.
- Refresh does not read or write the blacklist. Logout (`src/auth/auth.controller.ts:60-64`) changes nothing, so a refresh token stays usable after logout until it expires.
- Signup and GitHub sign-in create no team.
- Team roles in `inviteToTeam`'s gate are OWNER, ADMIN and TEAM_LEAD. `canUserInviteMembers` is a separate, stricter predicate.

Assumption: the declaration order of the `TeamRole` enum, which `orderBy: roleInTeam asc` follows, is OWNER, ADMIN, TEAM_LEAD, DEVELOPER, TESTER, MEMBER. The comment at `src/teams/teams.service.ts:150` fixes only OWNER first and ADMIN second. The order of TEAM_LEAD, DEVELOPER, TESTER and MEMBER is assumed, because the schema that declares the enum is not part of this model.

## Model

| member | source | states |
|---|---|---|
| `Teams.TeamsService.CreateTeam` | src/teams/teams.service.ts:10-31 | The team gets `ownerId = u`. Its only member row is `(team, u, OWNER, assignedBy = u)`, and both rows are added in the same step. `isTeamCreator` is true for `u` and false for every other user. Table consistency and the single-owner invariant are kept. |
| `Teams.IsTeamCreator` | src/teams/teams.service.ts:272-279 | True exactly when the team exists and the user is its recorded `ownerId`. An unknown team gives false. |
| `Teams.CreatorIffOwnerRole` | src/teams/teams.service.ts:272-279 | In consistent single-owner tables, `isTeamCreator(t, u)` holds exactly when `u`'s row in `t` holds OWNER. |
| `Teams.TeamsService.InviteToTeam` | src/teams/teams.service.ts:59-119 | The first failing check decides the error: inviter not OWNER/ADMIN/TEAM_LEAD, then unknown email, then already a member. It succeeds exactly when all three checks pass. It then adds exactly one row with the given role (default MEMBER), `assignedBy = inviter`. A failure changes nothing. The single-owner invariant is kept when the role is not OWNER. |
| `Teams.OwnerInviteAddsOwner` | src/teams/teams.service.ts:99-105 | An accepted invitation with role OWNER gives the team one more OWNER row. |
| `Teams.GetTeamMembers` | src/teams/teams.service.ts:121-157 | It fails with 'not a member' exactly when the requester has no row in the team. Otherwise it returns every row of the team once and nothing else, ordered by role rank and then `joinedAt` ascending. It is a function of the tables, so it changes nothing and two calls agree. |
| `Teams.SortedForListing` | src/teams/teams.service.ts:148-155 | It lists each row of a set exactly once, in role-rank then join-time order. |
| `Teams.FirstRow` | src/teams/teams.service.ts:148-155 | Every non-empty set of rows has a row that may be listed before all the others. |
| `Teams.OwnerListedFirst` | src/teams/teams.service.ts:134-150 | When the team has an OWNER row, the listing starts with an OWNER row. |
| `Teams.UserTeamsAreListable` | src/teams/teams.service.ts:34-57 | In consistent tables, a team is in the user's `getUserTeams` result exactly when `getTeamMembers` lets that user list it. Both then give the same set of rows. |
| `Teams.TeamsService.UpdateMemberRole` | src/teams/teams.service.ts:159-220 | The first failing check decides the error: requester not OWNER, then target missing, then target is OWNER, then new role is OWNER. It succeeds exactly when all checks pass, and then only the target's `roleInTeam` and `updatedAt` change. No team's set of OWNER rows changes. |
| `Teams.TeamsService.RemoveMember` | src/teams/teams.service.ts:222-267 | The first failing check decides the error: requester not a member, then target missing, then target is OWNER, then a non-OWNER removing someone else. It succeeds exactly when these checks pass, and then exactly the target row is deleted and returned. No team's set of OWNER rows changes. |
| `Teams.OwnerRowsUnchangedByRoleChange` | src/teams/teams.service.ts:187-195 | Giving a non-OWNER row a non-OWNER role leaves the OWNER rows of every team unchanged. |
| `Teams.OwnerRowsUnchangedByRemoval` | src/teams/teams.service.ts:249-252 | Deleting a non-OWNER row leaves the OWNER rows of every team unchanged. |
| `Teams.OneOwnerPerTeam` | src/teams/teams.service.ts:192-195 | Under the invariants that create, update and remove preserve, each team has exactly one OWNER row, and it is its `ownerId`'s row. |
| `Teams.CanUserInviteMembers` | src/teams/teams.service.ts:284-301 | True exactly when the system role is OWNER, ADMIN or TEAM_LEAD and the user's row in the team holds OWNER or ADMIN. |
| `Teams.CanInviteImpliesInviteGate` | src/teams/teams.service.ts:61-69 | Whoever `canUserInviteMembers` admits also passes `inviteToTeam`'s gate. |
| `Teams.TeamLeadPassesGateOnly` | src/teams/teams.service.ts:61-69 | A team TEAM_LEAD passes the invite gate but is refused by `canUserInviteMembers`, so the two predicates differ. |
| `Teams.GetUserTeams` | src/teams/teams.service.ts:34-57 | It returns exactly the teams in which the user has a row, each with all of its member rows. |
| `Auth.AuthService.Signup` | src/auth/auth.service.ts:14-37 | It fails exactly when some user has the email, and then changes nothing. Otherwise it adds exactly one user with `passwordHash = hash(password)`, `metadata = {name}` and no last login. It returns that user's tokens. |
| `Auth.AuthService.Login` | src/auth/auth.service.ts:39-62 | An unknown email, a user without a password hash and a wrong password all give the same 'Invalid credentials' and change nothing. Otherwise only that user's `lastLogin` changes. The tokens are built from the row as it was read. |
| `Auth.LoginAcceptsSignupPassword` | src/auth/auth.service.ts:45-53 | A stored user whose digest was made from a password passes every check of `login` for its email and that password. |
| `Auth.AuthService.GithubLogin` | src/auth/auth.service.ts:64-103 | A profile without a first email is refused. A new email creates one user under a fresh id with no password and GitHub metadata. An existing email updates `lastLogin` and merges the profile into the metadata, keeping the password hash. Tokens are issued for the resulting row. |
| `Auth.GithubEmail` | src/auth/auth.service.ts:65-70 | The first listed email is used. A missing list, an empty list and an empty value are all refused. |
| `Auth.NewGithubMetadata` | src/auth/auth.service.ts:78-87 | The name is `displayName` when non-empty, otherwise `username`. The profile and provider 'github' are stored. |
| `Auth.MergeGithubProfile` | src/auth/auth.service.ts:89-99 | `githubProfile` is replaced. Every other existing metadata key and its value are kept, and null metadata counts as empty. |
| `Auth.OrElse` | src/auth/auth.service.ts:140 | JavaScript `a \|\| b` on an environment variable: an unset or empty value falls through to `b`. |
| `Auth.GenerateTokens` | src/auth/auth.service.ts:131-152 | Both tokens sign `{sub: id, email, role}`. The access token uses the module secret and expires after 15 minutes. The refresh token uses the refresh secret and expires after 7 days. The returned user has every column but the password hash. |
| `Auth.AccessTokenLifetime` | src/app.module.ts:15-21 | The access token verifies under the module secret to the user's claims for exactly 15 minutes after issue. |
| `Auth.ValidateUser` | src/auth/auth.service.ts:105-109 | It returns the user stored under `payload.sub`, or none if there is no such user. |
| `Auth.EmailIdentifiesUser` | src/auth/auth.service.ts:16-18 | In a consistent user table, the row found by email is the one stored under its own id. |
| `Auth.RefreshTokens` | src/auth/auth.service.ts:111-129 | Every failure is the single 'Invalid refresh token'. It succeeds exactly when the token verifies under `JWT_REFRESH_SECRET` and its `sub` names a user. It then returns that user's fresh pair. |
| `Auth.RefreshRoundTrip` | src/auth/auth.service.ts:111-129 | With `JWT_REFRESH_SECRET` set, an issued refresh token yields the current row's fresh pair for 7 days. After that it is refused. |
| `Auth.RefreshKeepsSubject` | src/auth/auth.service.ts:117-125 | The new refresh token verifies to a payload with the same `sub` as the presented one. |
| `Auth.RefreshIgnoresBlacklist` | src/auth/auth.service.ts:111-129 | A valid refresh token that is blacklisted in the store is still exchanged for a fresh pair. |
| `Permissions.AllPermissions` | seed-permissions.ts:5-23 | The `permissions` list: 17 names, none listed twice. |
| `Permissions.RolePermissions` | seed-permissions.ts:25-51 | The `rolePermissions` entry of a role. Every role holds at least one permission. Exactly DEVELOPER, TESTER and MEMBER hold `view_assigned_tasks`. |
| `Permissions.RolePermissionsAreListed` | seed-permissions.ts:5-51 | Every permission of every role is one of the 17 listed names. |
| `Permissions.MemberPermissions` | seed-permissions.ts:42-50 | MEMBER holds exactly `view_assigned_tasks`, and DEVELOPER and TESTER hold it too. |
| `Permissions.TiersNest` | seed-permissions.ts:26-41 | TEAM_LEAD ⊆ ADMIN ⊆ OWNER. |
| `Permissions.OwnerHoldsAllButViewAssigned` | seed-permissions.ts:5-31 | OWNER holds every listed permission except `view_assigned_tasks`. |
| `Permissions.RoleListsDistinct` | seed-permissions.ts:25-51 | No role lists a permission twice. |
| `Permissions.RowsFor` | seed-permissions.ts:62-70 | The inner loop inserts one row `(role, p, canAccess = true)` per permission, in list order. |
| `Permissions.RowsForMembership` | seed-permissions.ts:62-70 | The inner loop inserts a row exactly when it is `(role, p, true)` for a permission `p` of the role's list. |
| `Permissions.SeedRows` | seed-permissions.ts:61-70 | The outer loop inserts one row per listed pair of the visited roles, each granting access and naming a visited role. |
| `Permissions.SeedRowsMembership` | seed-permissions.ts:61-70 | A row is inserted for a list of roles exactly when its role is in the list, its permission is in that role's list and it grants access. |
| `Permissions.SeedRowsDistinct` | seed-permissions.ts:61-70 | For distinct roles, no row is inserted twice, and the number of rows is the number of listed pairs. |
| `Permissions.SeedPairCount` | seed-permissions.ts:25-51 | The table lists 44 pairs. |
| `Permissions.SeedOrderCoversRoles` | seed-permissions.ts:61 | `Object.entries` visits every role exactly once. |
| `Permissions.SeedTableExact` | seed-permissions.ts:58-70 | After seeding, the table holds exactly one row `(role, p, true)` per listed pair: 44 rows and nothing else. |
| `Permissions.RolePermissionTable.InsertRolePermissions` | seed-permissions.ts:62-70 | The inner loop appends exactly the rows `(role, p, true)` of the role's permissions, in list order, to the table. |
| `Permissions.RolePermissionTable.SeedRolePermissions` | seed-permissions.ts:53-81 | After seeding, the table is the seeded rows, whatever it held before. So seeding twice gives the same table as seeding once. |
| `KeyValue.Live` | src/redis/redis.service.ts:49-51 | `GET` answers the stored value exactly while the key exists and has not expired. |
| `KeyValue.BlacklistKey` | src/redis/redis.service.ts:26 | The key is `blacklist:` followed by the token. |
| `KeyValue.BlacklistKeyInjective` | src/redis/redis.service.ts:25-39 | Two tokens share a blacklist key only if they are equal. |
| `KeyValue.LiveAfterSetex` | src/redis/redis.service.ts:41-51 | After `SETEX` with a positive TTL, `GET` returns the value until the TTL passes and nothing afterwards. |
| `KeyValue.BlacklistedUntilExpiry` | src/redis/redis.service.ts:25-34 | After `addToBlacklist(t, s)`, `isBlacklisted(t)` holds for exactly `s` seconds. |
| `KeyValue.OtherTokensUnaffected` | src/redis/redis.service.ts:25-28 | Writing one token's blacklist key leaves every other token's status unchanged. |
| `KeyValue.OnlyOneMeansBlacklisted` | src/redis/redis.service.ts:30-34 | A blacklist key that holds any value other than "1", with or without expiry, does not blacklist its token. |
| `KeyValue.RedisService.Setex` | src/redis/redis.service.ts:27 | A positive TTL stores the value with that expiry. Redis refuses a non-positive TTL, and the store is then unchanged. |
| `KeyValue.RedisService.AddToBlacklist` | src/redis/redis.service.ts:25-28 | It stores "1" under `blacklist:t` with the TTL and changes no other key. The token is then blacklisted until the TTL passes. |
| `KeyValue.RedisService.IsBlacklisted` | src/redis/redis.service.ts:30-34 | True exactly when the live value at `blacklist:t` is "1". |
| `KeyValue.RedisService.RemoveFromBlacklist` | src/redis/redis.service.ts:36-39 | It removes only `blacklist:t`. Afterwards the token is never blacklisted, and every other key reads as before. |
| `KeyValue.RedisService.Set` | src/redis/redis.service.ts:41-47 | A truthy TTL expires the key. An absent or zero TTL stores the value with no expiry, so `GET` returns it at any time. A negative TTL is refused. |
| `KeyValue.RedisService.Get` | src/redis/redis.service.ts:49-51 | It returns the live value. |
| `KeyValue.RedisService.Del` | src/redis/redis.service.ts:53-55 | It removes the key, and `GET` answers nothing for it afterwards. |
| `Audit.StoredPayload` | src/audit/audit.service.ts:24 | The stored payload is the serialisation of a truthy payload, and null otherwise. |
| `Audit.AuditService.Log` | src/audit/audit.service.ts:18-31 | A write that succeeds appends exactly one entry with the user, action, payload and time. A failed write leaves the log unchanged, and the call still returns normally. |
| `Audit.Filtered` | src/audit/audit.service.ts:35 | It keeps exactly the entries whose `userId` is the user, each as often as it is stored, and no other entry. |
| `Audit.SortNewestFirst` | src/audit/audit.service.ts:36 | The result is a permutation of the entries, ordered by timestamp, newest first. |
| `Audit.Insert` | src/audit/audit.service.ts:36 | Inserting one entry into a newest-first list keeps it newest-first and adds exactly that entry. |
| `Audit.GetAuditLogs` | src/audit/audit.service.ts:33-47 | It returns only that user's entries, newest first, exactly `min(limit, count)` of them, with `limit` 50 when the caller gives none. Each entry appears at most as often as it is stored. When the limit covers them all, it returns every entry of the user. |
| `Audit.OmittedAreOlder` | src/audit/audit.service.ts:36-37 | Every entry of the user that the query leaves out is no newer than any entry it returns. |

## Left out

- The controllers, modules, DTO validation, Passport strategies, health checks, metrics and the plain projections of the users service are routing and wiring. The model uses two facts from them: the 15 m / 7 d lifetimes and secrets from `src/app.module.ts:17-19`, and that logout does nothing.
- The `include`/`select` projections of related rows are left out. This covers the user fields attached to member rows and to audit entries, and the team attached to an invitation. Each query returns the table rows themselves.
- The user table reaches `inviteToTeam` as its email-to-id index (`userIdByEmail`). Foreign-key constraints are not modelled. These are team and member rows naming users that do not exist, and audit rows for unknown users. The audit case is covered only as the `writeFails` parameter.
- Database transactions, concurrent requests and their races are not modelled. Each service call is atomic, and unique constraints hold by the choice of keys.
- Teams.GetTeamMembers: the database orders rows with equal role and `joinedAt` in an arbitrary way. The model fixes one order, so its contract states only the ordering the query promises.
- Audit.GetAuditLogs: entries with equal timestamps come in one fixed order. `limit` is a natural number, so Prisma's negative `take`, which reads from the end, is not modelled.
- Auth.RefreshTokens: when `JWT_REFRESH_SECRET` is unset, verification gets no secret. The library then falls back to a secret of its own, which this model leaves to the uninterpreted `verify`. So the round trip is proved only for a configured, non-empty refresh secret. Without one, signing falls back to `JWT_SECRET`, then `'default-secret'`, and the library's fallback for verification is not part of this model.
- bcrypt's cost factor, salt generation and JSON Web Token encoding are not modelled. Salts and the clock are parameters, and the two libraries are function values.
- `JSON.stringify` is an uninterpreted function. JSON numbers are integers, so NaN and fractions are not modelled.
- Redis expiry is modelled in whole seconds against a clock parameter. Fractional TTLs, connection set-up and the client's event logging are left out. Failures of the Redis connection are not modelled, because the service lets them propagate.
- `getUserTeams`' result is a map from team id, since the query promises no order.
