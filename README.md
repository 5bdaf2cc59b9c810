# Account store and pending-action tokens, in Dafny

This project models the account service of `controllers/authController.js` and
`models/User.js`: a table of `User` records, and eleven request handlers that
read and update it. Four flows follow the same two-step pattern. First a request
writes a fresh token, an expiry one hour ahead (`now + 3600000` ms) and sometimes
a payload onto a record. Later a confirmation finds the record whose token column
equals the presented token and whose expiry lies strictly after `now`, applies the
change, and clears that flow's columns, or deletes the record. The four flows are
email verification, password change, username change and account deletion.
Login is a three-guard decision on the same table.

Files:

- `wrappers.dfy`: `Option`, the nullable column.
- `user_model.dfy` (module `UserModel`): the `Account` record with one `Option`
  per nullable column, the four flows and their token and expiry columns, the
  symbolic bcrypt hash, `Create` with the schema defaults, and the store
  predicates (unique usernames, unique emails, distinct tokens, paired columns).
- `auth_spec.dfy` (module `AuthSpec`): one ghost function per handler. Each maps
  the table before a request to the table after it and the response. Beside them
  are the table invariant `Valid` and a lemma per handler showing that it keeps
  `Valid`.
- `auth_controller.dfy` (module `AuthController`): class `AuthStore`, which holds
  the table as a `map` field and the auto-increment counter. Each handler is a
  method that fetches a record, assigns its columns one by one as the source does,
  and saves it (a map update) or destroys it (a map removal). Each method is
  proved to yield exactly the table and response of its `AuthSpec` function.
  `Login`, `GetProfile` and the two lookups read the table and never change it.
- `auth_properties.dfy` (module `AuthProperties`): a `Handler` datatype for one
  request to any handler, and system-wide facts. Every handler keeps the unique
  constraints and the distinctness of tokens. Every handler keeps each flow's
  columns paired. A verified account stays verified. A token can only come from
  the request that issued it. In the table a request leaves, a token it
  confirmed or superseded resolves nowhere, whatever the clock. It also holds
  the end-to-end scenarios.

External capabilities become parameters:

- `Date.now()` is an integer `now` in milliseconds.
- `uuidv4()` is a caller-supplied token, with the precondition `Fresh`: the token
  is in no token column.
- `bcrypt.hash` takes a caller-supplied salt. The hash is symbolic, and
  `Matches` holds exactly for the password it was made from.
- `jwt.sign` becomes the `Claims` it signs: the account id, `iat = now / 1000`,
  and `exp = iat + 86400` (`expiresIn: '1d'`).
- `sendMail` becomes a boolean `mailDelivered`. Every handler stores its change
  before it sends mail. So when delivery fails, the response is 500 (400 in
  `signup`) but the stored change, token included, stays in the table.
- The authenticated handlers take the account id that the session middleware
  would decode.

Every lookup of the source (`findOne`) picks "some" record that matches. The
invariant `Valid` makes that choice unique. It holds the unique constraints of
`username` and `email`, plus the distinctness of all stored token values across
accounts and flows, which the uuid generator is relied on for.

Three behaviours of the handlers are easy to miss:

- The API variant `verifyPasswordChange` clears the token and the expiry but
  leaves `pendingPasswordHash` in place (controllers/authController.js:170-173).
- `signup` answers 400 "Signup failed" when the mail cannot be sent, yet the
  account it created stays in the table.
- `requestUsernameChange` picks the account by the `email` in the request body,
  not by the session's account id.

## Model

| member | source | states |
|---|---|---|
| `UserModel.Hash` | controllers/authController.js:14 | the hash of a password matches that password and no other; it carries the salt it was given |
| `UserModel.Create` | models/User.js:4-43 | a created record has the given required columns; `isVerified` is false when not given; the reset-password, username-change and delete-account columns are all NULL |
| `AuthSpec.Resolve` | controllers/authController.js:47-52 | yields an account whose flow token equals the presented token and whose expiry is strictly after `now`; yields nothing exactly when no account qualifies |
| `AuthSpec.FindByEmail` | controllers/authController.js:73 | yields an account with that email; yields nothing exactly when no account has it |
| `AuthSpec.ResolveUnique` | controllers/authController.js:130-135 | with distinct tokens, the token lookup answers the one account holding the unexpired token |
| `AuthSpec.FindByEmailUnique` | models/User.js:14-18 | under the unique email constraint, the email lookup answers the one account with that email |
| `AuthSpec.Signup` | controllers/authController.js:11-39 | a taken username or email gives 400 with the table unchanged; otherwise exactly one account is added under the next key, and no other account changes; the new account is unverified, has the given details, a password matching the given one, verification token `t` expiring at `now + 3600000`, and all other pending columns NULL; a failed mail gives 400 but keeps the account |
| `AuthSpec.VerifyEmail` | controllers/authController.js:43-65 | succeeds iff some account holds the token unexpired; success sets `isVerified` and clears the token and expiry of that account, and changes nothing else; failure gives 400 with the table unchanged |
| `AuthSpec.Login` | controllers/authController.js:69-86 | no account with the email gives 401 invalid credentials; an unverified account gives 401 "verify first" whatever the password; a wrong password gives 401 invalid credentials; it succeeds iff all three checks pass, with a session for that account expiring one day after issue |
| `AuthSpec.ChangePassword` | controllers/authController.js:90-123 | an unknown account gives 404 and a wrong current password gives 400, both with the table unchanged; otherwise only that account changes: the reset token, an expiry one hour later and a pending hash of the new password are stored, and the password itself is kept |
| `AuthSpec.VerifyPasswordChangeFromEmailLink` | controllers/authController.js:126-152 | succeeds iff some account holds the reset token unexpired and has a pending hash; success makes the pending hash the password and clears all three reset columns; failure gives 400 with the table unchanged |
| `AuthSpec.VerifyPasswordChange` | controllers/authController.js:155-179 | succeeds iff some account holds the reset token unexpired; success stores a hash of the new password and clears token and expiry but keeps the pending hash; failure gives 400 with the table unchanged |
| `AuthSpec.RequestUsernameChange` | controllers/authController.js:183-224 | an unknown email gives 404; a username equal to the current one gives 400; a username any account holds gives 400; each leaves the table unchanged; otherwise only that account changes: it stores the new username, the token and an expiry one hour later, and keeps its current username |
| `AuthSpec.ConfirmUsernameChange` | controllers/authController.js:228-251 | an unresolved token gives 400; a save violating the schema (NULL or taken username) gives 500; both leave the table unchanged; otherwise the pending username becomes the username and all three username-change columns are cleared |
| `AuthSpec.GetProfile` | controllers/authController.js:255-267 | succeeds iff the account exists, with exactly its id, name, username, email and creation time; otherwise 404 |
| `AuthSpec.InitiateDeleteAccount` | controllers/authController.js:269-292 | an unknown account gives 404 with the table unchanged; otherwise only that account changes: it gets a pending deletion token expiring one hour later |
| `AuthSpec.ConfirmDeleteAccount` | controllers/authController.js:295-317 | succeeds iff some account holds the deletion token unexpired; success removes exactly that account and leaves every other account unchanged; failure gives 400 with the table unchanged |
| `AuthSpec.ReplaceKeepsValid` | models/User.js:9-18 | saving a record that keeps its email, takes no username another account holds, and gains no token keeps the table valid |
| `AuthSpec.IssueKeepsValid` | controllers/authController.js:105-108 | saving a record with a fresh token in one flow's column keeps the table valid |
| `AuthSpec.SignupKeepsValid` | controllers/authController.js:18-26 | signup with a fresh token keeps the table valid |
| `AuthSpec.VerifyEmailKeepsValid` | controllers/authController.js:56-59 | email verification keeps the table valid |
| `AuthSpec.ChangePasswordKeepsValid` | controllers/authController.js:105-108 | a password change request with a fresh token keeps the table valid |
| `AuthSpec.VerifyPasswordChangeFromEmailLinkKeepsValid` | controllers/authController.js:142-146 | confirming a password change by link keeps the table valid |
| `AuthSpec.VerifyPasswordChangeKeepsValid` | controllers/authController.js:170-173 | confirming a password change by the API keeps the table valid |
| `AuthSpec.RequestUsernameChangeKeepsValid` | controllers/authController.js:207-210 | a username change request with a fresh token keeps the table valid |
| `AuthSpec.ConfirmUsernameChangeKeepsValid` | controllers/authController.js:241-245 | confirming a username change keeps usernames unique and the table valid |
| `AuthSpec.InitiateDeleteAccountKeepsValid` | controllers/authController.js:276-278 | a deletion request with a fresh token keeps the table valid |
| `AuthSpec.ConfirmDeleteAccountKeepsValid` | controllers/authController.js:311 | removing an account keeps the table valid |
| `AuthController.AuthStore.constructor` | models/User.js:4-43 | the store starts with an empty, valid table |
| `AuthController.AuthStore.FindOneByToken` | controllers/authController.js:47-52 | the imperative lookup by token and expiry returns exactly the account `Resolve` describes |
| `AuthController.AuthStore.FindOneByEmail` | controllers/authController.js:188 | the imperative lookup by email returns exactly the account `FindByEmail` describes |
| `AuthController.AuthStore.Signup` | controllers/authController.js:11-39 | keeps the table valid; the new table and the response are those of `AuthSpec.Signup` |
| `AuthController.AuthStore.VerifyEmail` | controllers/authController.js:43-65 | keeps the table valid; the new table and the response are those of `AuthSpec.VerifyEmail` |
| `AuthController.AuthStore.Login` | controllers/authController.js:69-86 | changes nothing; the response is that of `AuthSpec.Login` |
| `AuthController.AuthStore.ChangePassword` | controllers/authController.js:90-123 | keeps the table valid; the new table and the response are those of `AuthSpec.ChangePassword` |
| `AuthController.AuthStore.VerifyPasswordChangeFromEmailLink` | controllers/authController.js:126-152 | keeps the table valid; the new table and the response are those of `AuthSpec.VerifyPasswordChangeFromEmailLink` |
| `AuthController.AuthStore.VerifyPasswordChange` | controllers/authController.js:155-179 | keeps the table valid; the new table and the response are those of `AuthSpec.VerifyPasswordChange` |
| `AuthController.AuthStore.RequestUsernameChange` | controllers/authController.js:183-224 | keeps the table valid; the new table and the response are those of `AuthSpec.RequestUsernameChange` |
| `AuthController.AuthStore.ConfirmUsernameChange` | controllers/authController.js:228-251 | keeps the table valid; the new table and the response are those of `AuthSpec.ConfirmUsernameChange` |
| `AuthController.AuthStore.GetProfile` | controllers/authController.js:255-267 | changes nothing; the response is that of `AuthSpec.GetProfile` |
| `AuthController.AuthStore.InitiateDeleteAccount` | controllers/authController.js:269-292 | keeps the table valid; the new table and the response are those of `AuthSpec.InitiateDeleteAccount` |
| `AuthController.AuthStore.ConfirmDeleteAccount` | controllers/authController.js:295-317 | keeps the table valid; the new table and the response are those of `AuthSpec.ConfirmDeleteAccount` |
| `AuthProperties.Apply` | routes/authRoutes.js:7-26 | login and profile requests never change the table |
| `AuthProperties.ApplyKeepsValid` | models/User.js:9-18 | every handler keeps usernames unique, emails unique and stored tokens distinct, given a fresh token |
| `AuthProperties.ApplyKeepsPaired` | models/User.js:27-42 | every handler keeps each flow's columns paired: token iff expiry, pending username iff username token, a pending hash whenever there is a reset token |
| `AuthProperties.ApplyEvolves` | controllers/authController.js:56 | no handler resets `isVerified` or changes an account's name, email or creation time; keys are never reused; only signup adds an account and only a confirmed deletion removes one |
| `AuthProperties.ApplyTokenOrigin` | controllers/authController.js:105 | a token in the table after a request sat in the same column before, or is the token that request issued, in the column of its own flow |
| `AuthProperties.IssuedTokenBoundToFlow` | controllers/authController.js:299-304 | in the table the issuing request leaves, a token issued for one flow resolves in no other flow, whatever the clock |
| `AuthProperties.ReplacedTokenNeverResolves` | controllers/authController.js:208-209 | in the table a request leaves after it overwrites or clears an account's token of a flow, the old token resolves nowhere, whatever the clock |
| `AuthProperties.ConfirmConsumesToken` | controllers/authController.js:56-59 | after a confirmation succeeds, presenting the same token again fails with 400 and changes nothing, whatever the time |
| `AuthProperties.SecondUsernameRequestSupersedesFirst` | controllers/authController.js:203-210 | after two accepted username change requests for one account, the first token resolves nowhere and the second resolves to that account |
| `AuthProperties.SignupVerifyLogin` | controllers/authController.js:11-86 | after signup, login answers "verify first"; verifying before expiry succeeds and login then yields a session for the new account; verifying at or after expiry fails |
| `AuthProperties.DeletedAccountCannotLogIn` | controllers/authController.js:299-311 | after a confirmed deletion the account is gone, and logging in with its email fails with 401 invalid credentials |

## Left out

- Hashing is symbolic: bcrypt's cost factor and digest are not modelled. A hash
  matches exactly the password it was made from, and the salt is a parameter.
- UserModel.Hash: bcryptjs compares only the first 72 UTF-8 bytes of a
  password, so `login` (controllers/authController.js:78) and `changePassword`
  (controllers/authController.js:97) also accept a different password sharing
  those bytes; the model matches the whole password and answers 401 or 400
  there, because byte encoding and truncation are not modelled.
- Expiry columns are `DataTypes.DATE`, which MySQL stores as a whole-second
  `DATETIME`; the stored expiry (controllers/authController.js:16, :103, :204,
  :277) and the `Date.now()` bound are both formatted to seconds, so a link can
  stop resolving up to 999 ms before `now + 3600000`. The model compares exact
  milliseconds, so the boundary `SignupVerifyLogin` uses is exact only up to
  that rounding.
- `Fresh` says a token is in no token column now; it does not say the token was
  never issued before. Once a token is consumed it could be supplied again as a
  fresh uuid, so the facts about a consumed or superseded token hold for the
  table the next request leaves, not across later requests; that a uuid never
  repeats is not modelled.
- Signing and verifying session tokens (`jwt.sign`, `middleware/auth.js`) are
  left out. Login returns the claims it would sign. The authenticated handlers
  take the account id as a parameter. No session is ever revoked.
- Token generation (`uuidv4`) is left out. The token is a parameter assumed fresh
  (`Fresh`); its uniqueness is a precondition, not a proof.
- Mail delivery (`utils/sendMail.js`) is left out. Only its success or failure is
  a parameter, and the link and message texts are left out too.
- `app.js` and `routes/authRoutes.js` are Express wiring. `Handler` lists every
  exported handler. `verifyPasswordChange` has no route
  (routes/authRoutes.js:17-18), but the model keeps it.
- Concurrency is left out: each request runs to completion before the next. A
  race between a request and its confirmation cannot be expressed.
- Time is integer milliseconds, not `Date` objects. The `updatedAt` column that
  the ORM maintains is left out; `createdAt` is kept because the profile shows it.
- AuthSpec.Signup: keys are modelled only as fresh and increasing. A MySQL
  `User.create` (controllers/authController.js:18) that the unique index refuses
  still uses up an AUTO_INCREMENT value; the model leaves `nextId` unchanged
  there, so the gaps such refusals leave in the ids that `getProfile` and the
  session claims show are not modelled.
- AuthSpec.GetProfile: `createdAt` is exact milliseconds here. Like the expiry
  columns it is a `DATE`, which MySQL stores as whole-second `DATETIME`, so the
  profile (controllers/authController.js:257-263) shows the signup instant
  truncated to the second.
- Database or hashing errors other than the schema violations, which the handlers
  report as 500 (or 400 in `signup`), are left out. So are request bodies with
  missing fields (`undefined`). Every input is a defined string.
- Column comparisons are exact string equality. The case-insensitive collation a
  MySQL database would apply to the unique indexes and lookups is left out;
  config/database is not part of this model.
