# User management backend: directory, login and route policy

This project models the core of a small identity backend. The backend registers user accounts, logs users in against bcrypt-hashed passwords and issues JWT bearer tokens. It also serves role-gated create, list, update and delete routes on user records.

Four parts are modelled:

- **Entities** (`entities.dfy`): the `Role` enumeration (SUPER_ADMIN, ADMIN, USER) and the `Status` enumeration (ACTIVE, INACTIVE). It also holds the `User` row, the column defaults (role USER, status ACTIVE) and the table constraints. The constraints are a generated primary key and unique, non-null `username` and `email` columns, stated as a predicate `ValidTable` over the whole table.
- **Bcrypt** (`bcrypt.dfy`): bcrypt's `hash` and `compare`, kept abstract as a pair of function values.
  - `hash` takes the salt that bcrypt draws at random as an explicit argument.
  - The only assumed link between the two is `Sound`: a plaintext matches every hash made from it.
- **Users** (`users_service.dfy`): the `UsersService` directory. Each operation appears twice:
  - a specification function from the table before to the result and the table after (`CreateOutcome`, `UpdateOutcome`, `RemoveOutcome`, `UserWithId`, `UserWithName`);
  - a method of the class `UsersService`, whose fields are the table (`users`), the next generated key (`nextId`) and the bcrypt functions. Each method is proved equal to its specification and proved to keep the class invariant.
- **Auth** (`auth_service.dfy`): `AuthService.login` as a pure function over a snapshot of the table. The JWT signer `sign` is a parameter.
- **Controller** (`users_controller.dfy`): the `/users` routes.
  - Every route sits behind the same two guards.
  - Each route allows the role strings its `@Roles` decorator lists.
  - Each handler delegates to the service method of the same name.

Points worth knowing when reading the model:

- `create` pre-checks only the username, and a taken username is a `Conflict`. A taken email is caught only by the store's unique constraint. That outcome is modelled as the store refusing the write (`UniqueViolation`), with the table unchanged. `update` does no uniqueness check of its own, so a colliding username or email on update is likewise a `UniqueViolation`, never a `Conflict`.
- `update` writes a supplied password as given, without hashing it. `Auth.LoginAfterPasswordUpdate` states the consequence: logging in with the new password succeeds only if bcrypt's `compare` accepts the plaintext as its own hash.
- The route policy uses the lower-case strings `'admin'` and `'user'`, while the enum values are upper-case. `Controller.AllowedRoles` proves that no route's set contains any enum value's spelling. The model does not say how the roles guard reconciles the two, because that guard is not part of this model.
- A login's outcome does not depend on the user's status. An INACTIVE user with the right password still gets a token (`Auth.LoginIgnoresStatus`).

## Model

| member | source | states |
|---|---|---|
| `Entities.ParseRole` | src/users/entities/user.entity.ts:3-7 | a string is a role exactly when it is one of "SUPER_ADMIN", "ADMIN", "USER", and then it is that role's value |
| `Entities.ParseStatus` | src/users/entities/user.entity.ts:9-12 | a string is a status exactly when it is "ACTIVE" or "INACTIVE", and then it is that status's value |
| `Entities.RoleColumnRoundTrip` | src/users/entities/user.entity.ts:34-35 | every role read back from its column value is the same role |
| `Entities.StatusColumnRoundTrip` | src/users/entities/user.entity.ts:37-38 | every status read back from its column value is the same status |
| `Entities.RoleName` | src/users/entities/user.entity.ts:3-7 | the string value behind each role member |
| `Entities.StatusName` | src/users/entities/user.entity.ts:9-12 | the string value behind each status member |
| `Entities.KeyedById` | src/users/entities/user.entity.ts:16-17 | each row sits under its own generated primary key |
| `Entities.UniqueUsernames` | src/users/entities/user.entity.ts:19-20 | no two rows share a username |
| `Entities.UniqueEmails` | src/users/entities/user.entity.ts:22-23 | no two rows share an email |
| `Entities.ValidTable` | src/users/entities/user.entity.ts:16-23 | all three table constraints together |
| `Entities.ValidTableRowsDistinct` | src/users/entities/user.entity.ts:16-23 | in a valid table two different keys hold rows with different ids, usernames and emails |
| `Entities.Collides` | src/users/entities/user.entity.ts:19-23 | a write under a key would give some other row's username or email to the new row |
| `Entities.AcceptedWriteKeepsTable` | src/users/entities/user.entity.ts:16-23 | a write that breaks no unique column keeps the key, username-uniqueness and email-uniqueness constraints |
| `Users.UserWithId` | src/users/users.service.ts:30-35 | the row with that key if there is one, otherwise NotFound naming the id |
| `Users.UserWithName` | src/users/users.service.ts:39-41 | absence exactly when no row has the username, otherwise the (single) row that has it; never an error |
| `Users.NewRow` | src/users/users.service.ts:21-22 | the row built on create carries the generated key, the hash in place of the password, the request's username, email, first and last name, and the request's role and status, or USER and ACTIVE when omitted |
| `Users.OmittedRoleAndStatusDefault` | src/users/entities/user.entity.ts:34-38 | a request that omits role and status gets the column defaults USER and ACTIVE |
| `Users.Patch` | src/users/users.service.ts:45 | each of the seven fields is the supplied value when supplied and the old value when not; the primary key never changes |
| `Users.CreateOutcome` | src/users/users.service.ts:16-24 | a taken username gives Conflict with the table unchanged; Conflict arises only then; any other failure is the store's UniqueViolation (a taken email); success exactly when neither username nor email is taken; on success exactly one row is added, equal to the request with the password hashed and defaults applied; on failure the table is unchanged; the table constraints are kept |
| `Users.UpdateOutcome` | src/users/users.service.ts:43-47 | an absent id gives NotFound with the table unchanged; success exactly when the id exists and the patched row breaks no unique column; on success only that row changes, to the patch, and the stored row is returned; never Conflict; a failure on a present id is always UniqueViolation, so NotFound means the id was absent; failure leaves the table unchanged; constraints kept |
| `Users.RemoveOutcome` | src/users/users.service.ts:49-52 | success exactly when the id exists; afterwards the keys are the old keys minus the id and every remaining row is unchanged; failure is NotFound; constraints kept |
| `Users.PatchNothing` | src/users/dto/update-user.dto.ts:6-25 | an update that supplies no field leaves the row as it was |
| `Users.PatchIdempotent` | src/users/users.service.ts:45 | applying the same update twice gives the same row as once |
| `Users.CreatedRowFoundByName` | src/users/users.service.ts:21-23 | after a successful create, looking up the username finds the new row, which holds the hash |
| `Users.RemoveThenNotFound` | src/users/users.service.ts:49-52 | after remove, looking the id up is NotFound, and removing again is NotFound with no change |
| `Users.UpdateRoleThenFind` | src/users/users.service.ts:43-46 | updating only the role succeeds, and the lookup afterwards shows the new role with every other field unchanged |
| `Users.UsersService.constructor` | src/users/users.service.ts:11-14 | the directory wraps the injected table, which already satisfies the table constraints, and starts in its invariant |
| `Users.UsersService.Valid` | src/users/entities/user.entity.ts:16-23 | the class invariant: the table constraints hold and every generated key lies in 1 up to the next key |
| `Users.UsersService.Create` | src/users/users.service.ts:16-24 | result and new table are those of CreateOutcome for the hash of the password under the given salt; the key counter advances only on success; invariant kept |
| `Users.UsersService.FindAll` | src/users/users.service.ts:26-28 | every stored row is returned and every returned row is stored under its own id |
| `Users.UsersService.FindById` | src/users/users.service.ts:30-36 | the row under the id, or NotFound |
| `Users.UsersService.FindByUsername` | src/users/users.service.ts:39-41 | the row with the username, or absence; reads only |
| `Users.UsersService.Update` | src/users/users.service.ts:43-47 | result and new table are those of UpdateOutcome; invariant kept |
| `Users.UsersService.Remove` | src/users/users.service.ts:49-52 | result and new table are those of RemoveOutcome; invariant kept |
| `Auth.PayloadOf` | src/auth/auth.service.ts:25 | the claims are the row's username, its id as the subject, and its role |
| `Auth.Login` | src/auth/auth.service.ts:14-27 | a token exactly when a row has the username and compare accepts the password against its stored hash; the token is sign of {username, sub: id, role} of that row; every failure is Unauthorized("Invalid username or password") |
| `Auth.FailuresIndistinguishable` | src/auth/auth.service.ts:15-23 | an unknown username and a wrong password give the identical error value |
| `Auth.LoginIgnoresStatus` | src/auth/auth.service.ts:14-27 | changing a row's status changes no login outcome |
| `Auth.LoginAfterCreate` | src/auth/auth.service.ts:20-26 | after a successful create, logging in with the same username and password yields the token for the new row's username, id and role |
| `Auth.LoginAfterPasswordUpdate` | src/users/users.service.ts:43-46 | a password update stores the plaintext, after which login with it succeeds exactly when compare(p, p) holds |
| `Controller.AllowedRoles` | src/users/users.controller.ts:17-42 | every route allows 'admin'; only the listing route also allows 'user'; no route allows anything else; no enum spelling (SUPER_ADMIN, ADMIN, USER) appears in any route's set |
| `Controller.GuardsOf` | src/users/users.controller.ts:12 | the guards the controller declares once for all routes, in order |
| `Controller.EveryRouteGuarded` | src/users/users.controller.ts:12 | every route runs the JWT guard first and the roles guard second |
| `Controller.UsersController.constructor` | src/users/users.controller.ts:15 | the controller holds the directory service it was given |
| `Controller.UsersController.Create` | src/users/users.controller.ts:17-22 | hands the request to the service's create and returns its result, with the service's contract |
| `Controller.UsersController.FindAll` | src/users/users.controller.ts:24-28 | returns the service's list of all rows |
| `Controller.UsersController.Update` | src/users/users.controller.ts:30-36 | hands the id and request to the service's update, with the service's contract |
| `Controller.UsersController.Remove` | src/users/users.controller.ts:38-43 | hands the id to the service's remove, with the service's contract |

## Left out

- bcrypt internals: salting, the cost factor of 10 rounds and timing behaviour. `hash` and `compare` are abstract, linked only by `Sound`.
- JWT signing, expiry and verification. `sign` is an uninterpreted parameter, and no token verification exists in the modelled code.
- The roles guard, the JWT guard and the `@Roles` decorator's implementation are not part of this model. Only the declared strings and the guard order are modelled, and the model does not say how a token's role is compared with them.
- TypeORM and the database beyond a keyed table:
  - asynchrony;
  - the `createdAt` and `updatedAt` timestamps;
  - races between concurrent creates;
  - store failures other than a unique-column violation.
- The key generator is a counter that advances on each successful insert. A database sequence can also use up a value on a refused insert, so real keys may skip values; the model does not show such gaps.
- Users.UsersService.FindAll: returns a set, so it does not model the order in which the store lists rows.
- Request validation (class-validator decorators). Create-request `role` and `status` are optional in the model so that the column defaults can be stated. The validator, which would reject an omitted value, is not modelled.
- The auth controller's `register` and `login` routes. Each only forwards, to `UsersService.Create` and `Auth.Login` respectively.
- The `NotFound` message text is represented by the id it names rather than by the formatted string.
