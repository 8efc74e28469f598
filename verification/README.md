# Users table and sign-in: a Dafny model

This project models the user-record lifecycle of a small NestJS backend.
The backend invites users, creates them directly, looks them up, activates
them with a password, updates and deletes them, and signs them in, which
issues a bearer token. Everything works over one `users` table. The model
is that table, an in-memory `map<Id, User>` whose invariant is the one the
database enforces: every row sits under its own primary key, and the `email`
column is unique.

Modules:

- `Users` (`users.dfy`): the `User` row and its two response projections,
  the request shapes, the exceptions, and the repository's `save`. A `save`
  whose email another row already holds fails, as the unique constraint
  makes it fail.
- `Security` (`security.dfy`): the password hasher as two abstract
  functions, `hash` and `compare`. Its one assumption, `Sound`, says that a
  password always matches its own hash.
- `UserLifecycle` (`user_lifecycle.dfy`): `UserService` over the table.
  `findAll`, `findOne` and `findByEmail` are functions on the table. Each
  operation that writes the table has a step function on table values,
  which gives the outcome and the table after it. The class
  `UserService` holds the rows and a ghost log of the invitations handed to
  the mail service. Each of its methods that writes the table is proved to
  perform exactly its step and to leave the log alone; the three that never
  write (`AddUser`, `Create`, `CreateInvite`) have no `modifies` clause and
  state their outcome directly.
- `Auth` (`auth.dfy`): `signIn` as a step function, and the class
  `AuthService`, whose `SignIn` writes a freshly minted token through
  `UserService.Update`.

The model follows the code as written. Every existence check in the service
goes through `findByEmail`, which throws `NotFoundException` when the email
is absent, and the callers' `catch` blocks turn that into a different error.
Each consequence below is proved:

- `addUser` and `create` never insert. A known email gives
  `ConflictException`; an unknown one gives the internal error.
- `createInvite` never succeeds and never sends an invitation. A known email
  gives "User already invited"; an unknown one gives the generic error. So
  the invite controller's success branch (code 700) is unreachable.
  Its 711 branch, by contrast, is reachable.
- `activateUser` replaces its own "User already activated" error with its
  generic error, so the activation controller's 701 branch is unreachable.
- `signIn` replaces every failure with one internal error, its own
  `UnauthorizedException` included. The login controller's Unauthorized
  branch is therefore unreachable, and an unknown email and a wrong password
  cannot be told apart.

Where the intended design and the code differ, the model follows the code:

- An unknown email at sign-in was meant to be reported as unauthorized. The
  code reports the internal error.
- Direct creation was meant to refuse a taken email with a conflict. The code
  does no check, so the unique constraint refuses it and the error comes out
  as the internal error.
- A second activation was meant to fail as "already activated". It fails with
  the generic activation error.

JavaScript truthiness is written out:

- `if (userToUpdate.isActivated)` treats a `null` column as not activated.
- `if (!user.accessToken)` treats an empty-string token as absent, so a new
  token is minted for it.
- `??` falls back when a field was not sent or was sent as `null`; both
  are `None` in the model.

The inputs that the code takes from its environment become parameters:

- the identifier the database generates for a new row (`newId`, required to
  be fresh);
- the order in which the database lists rows (`order`, a duplicate-free
  listing of the keys);
- the token signer (`mint`, a function of the user's id and email);
- the hasher.

## Model

| member | source | states |
|---|---|---|
| `Users.Strip` | src/user/user.service.ts:78-79 | the response projection keeps the record's id and email; its type has no `password` or `accessToken` |
| `Users.WithoutPassword` | src/auth/auth.service.ts:41-45 | the sign-in projection keeps the id and the `accessToken`; its type has no `password` |
| `Users.StripHidesSecrets` | src/user/user.service.ts:59-60 | two records have the same projection exactly when they differ at most in `password` and `accessToken` |
| `Users.WithoutPasswordHidesOnlyPassword` | src/auth/auth.service.ts:41 | two records have the same sign-in projection exactly when they differ at most in `password` |
| `Users.StripAll` | src/user/user.service.ts:58-61 | one projected entry per record, position by position |
| `Users.Save` | src/user/user.entity.ts:15-16 | `save` fails exactly when another row holds the email; otherwise it stores the record under its id, leaves every other row as it was, and keeps the table invariant |
| `Users.ListingLength` | src/user/user.service.ts:56 | a duplicate-free listing of the table's keys has one entry per row |
| `UserLifecycle.FindAll` | src/user/user.service.ts:54-65 | one projected entry per stored row, in listing order, each row's projection present; an empty table gives an empty list, not an error |
| `UserLifecycle.FindOne` | src/user/user.service.ts:72-86 | `NotFoundException` exactly when the id is absent; otherwise that row without its secrets |
| `UserLifecycle.FindByEmail` | src/user/user.service.ts:89-103 | `NotFoundException` exactly when no row holds the email; otherwise the stored row itself, password included, with that email |
| `UserLifecycle.CreateDirectlyStep` | src/user/user.service.ts:113-137 | stores the request unchanged (no hashing, `isActivated` null) under the fresh id exactly when the email is free; otherwise the internal error and the table unchanged; uniqueness preserved |
| `UserLifecycle.RemoveStep` | src/user/user.service.ts:140-155 | absent id: `NotFoundException`, table unchanged; otherwise exactly that row is removed and returned without its secrets; uniqueness preserved |
| `UserLifecycle.UpdateStep` | src/user/user.service.ts:224-239 | absent id: `NotFoundException`; an email taken by another row: the internal error; in both cases the table is unchanged. Otherwise each sent field overrides the stored one (the password stored as sent), the id and `isActivated` are kept, no other row changes, and uniqueness is preserved |
| `UserLifecycle.ActivateStep` | src/user/user.service.ts:197-222 | absent id: `NotFoundException`; already activated or email taken: the generic activation error; on failure the table is unchanged. On success names and email come from the request where sent, `isActivated` becomes true, the password becomes the hash of the one sent, and the id, token and other rows are unchanged; uniqueness preserved |
| `UserLifecycle.UserService.constructor` | src/user/user.service.ts:18-23 | the service starts over a well-formed table and the given hasher, with no invitation sent |
| `UserLifecycle.UserService.AddUser` | src/user/user.service.ts:26-50 | never inserts: a known email gives `ConflictException`, an unknown one the internal error |
| `UserLifecycle.UserService.Create` | src/user/user.service.ts:157-172 | never inserts: a known email gives `ConflictException`, an unknown one the internal error |
| `UserLifecycle.UserService.CreateInvite` | src/user/user.service.ts:174-195 | never succeeds and never sends an invitation: a known email gives "User already invited", an unknown one the generic error; with no `modifies` clause it changes neither the rows nor the invitation log |
| `UserLifecycle.UserService.CreateDirectly` | src/user/user.service.ts:105-138 | performs exactly `CreateDirectlyStep`, keeps the table invariant and sends no invitation |
| `UserLifecycle.UserService.RemoveById` | src/user/user.service.ts:140-155 | performs exactly `RemoveStep`, keeps the table invariant and sends no invitation |
| `UserLifecycle.UserService.ActivateUser` | src/user/user.service.ts:197-222 | assigning the loaded row's fields one by one and saving performs exactly `ActivateStep`, keeps the invariant and sends no invitation |
| `UserLifecycle.UserService.Update` | src/user/user.service.ts:224-239 | performs exactly `UpdateStep`, keeps the table invariant and sends no invitation |
| `UserLifecycle.FindAllAgreesWithFindOne` | src/user/user.service.ts:54-86 | each entry of `findAll` is what `findOne` returns for that row's id |
| `UserLifecycle.FindByEmailFindsRow` | src/user/user.service.ts:89-95 | under email uniqueness, looking up a row's email yields that very row, and `findOne` of its id shows its projection |
| `UserLifecycle.CreateDirectlyThenFind` | src/user/user.service.ts:124 | a directly created row is found again by its email and by its id |
| `UserLifecycle.RemoveThenFindOne` | src/user/user.service.ts:140-155 | after a removal `findOne(id)` gives `NotFoundException`, and every other id reads as before |
| `UserLifecycle.UpdateFirstNameThenFindOne` | src/user/user.service.ts:230-231 | `update(id, {firstName: x})` always succeeds on a stored id, and `findOne(id)` then shows `x` with every other field as before |
| `UserLifecycle.ActivationHappensOnce` | src/user/user.service.ts:203-205 | after a successful activation, a second one fails with the generic error and leaves the table unchanged |
| `UserLifecycle.ActivationNeverReportsAlreadyActivated` | src/user/user.service.ts:203-221 | no failure of `activateUser` carries the message "User already activated" |
| `Auth.SignInStep` | src/auth/auth.service.ts:17-51 | succeeds exactly when the email is found and the password matches its hash. Every failure is the one internal error with the table unchanged. A cached token is returned with the table unchanged; otherwise the token minted from (id, email) is written to that row only. The result never holds the password |
| `Auth.AuthService.constructor` | src/auth/auth.service.ts:11-15 | the service is built over a valid user service, the signer and the same hasher the user service holds, as both receive the one injected `SecurityService` |
| `Auth.AuthService.SignIn` | src/auth/auth.service.ts:17-51 | looking up, comparing, minting and persisting through `UserService.Update` performs exactly `SignInStep`, keeps the invariant and sends no invitation |
| `Auth.SignInNeverUnauthorized` | src/auth/auth.service.ts:26-49 | `signIn` never fails with `UnauthorizedException` |
| `Auth.SignInFailuresAreIndistinguishable` | src/auth/auth.service.ts:22-28 | an unknown email and a wrong password give the same outcome: the internal error, table unchanged |
| `Auth.SignInIsIdempotent` | src/auth/auth.service.ts:30-45 | a second sign-in with the same credentials returns the same user and token and leaves the table as the first left it |
| `Auth.ActivateThenSignIn` | src/auth/auth.service.ts:22-24 | through the two service objects themselves: when `activateUser` succeeds, a following `signIn` with the same password at the record's email succeeds for the same id |
| `Auth.ActivatedUserCanSignIn` | src/auth/auth.service.ts:22-24 | with a sound hasher, a user who has just been activated with password `p` signs in with `p` at the record's email |

## Left out

- The HTTP controllers and their response envelopes and message codes. The
  unreachable branches are stated above in terms of the service's outcomes.
- Hashing. bcrypt salts every hash at random and has a work factor; the model
  has a deterministic abstract `hash` and assumes only `Sound`.
- JWT signing and its one-day expiry. A token is an abstract function of the
  user's id and email, so minting twice for the same user gives the same
  token.
- Sending mail. The invitation email is never reached in the code, so the
  mail service is modelled only as the ghost log `invitations`, which no
  operation extends.
- Database failures other than the unique-email constraint, such as a lost
  connection. Because of this, `FindAll` returns a list rather than a
  result, and the internal-error branches of `findAll`, `findOne` and
  `findByEmail` cannot arise.
- The NOT NULL constraint on `firstName`, `lastName` and `email`. These are
  plain strings in the model, and an explicit `null` in an update request is
  treated as a field that was not sent.
- Properties of a request body beyond its declared fields. The validation
  pipe does not strip them, so the update spread would copy them onto the row.
- The request validators' length bounds: names of 1 to 50 characters, emails
  and passwords of 3 to 100. The model accepts any strings.
- The `CreateUserDto` and `ActivateUserDto` files are not part of this model.
  Their shapes are taken from how the service uses them.
- UUID generation. The new id is a parameter required to be fresh.
- UserLifecycle.FindOne: assumes ids are canonical lower-case uuid strings. The `id` column is a Postgres `uuid`, so a malformed id makes the query fail (the catch then gives the internal error) and an upper-case spelling finds the row; the model treats both as an absent id and gives `NotFoundException`.
- UserLifecycle.RemoveStep: the same assumption about ids; a malformed id would give the internal error, an upper-case one would remove the row.
- UserLifecycle.UpdateStep: the same assumption about ids; a malformed id would give the internal error, an upper-case one would update the row.
- UserLifecycle.ActivateStep: the same assumption about ids; a malformed id would give the generic activation error, an upper-case one would activate the row. The class methods `RemoveById`, `Update` and `ActivateUser` inherit this from their steps.
- The row order of `find()`. It is a parameter.
- `async` scheduling and the check-then-insert race. Every operation is one
  sequential step.
- The `console.log` calls and the `process.env` reads.
