/**
 What each handler of controllers/authController.js does to the account table and
 what it answers, as a function from the table before the request to the table
 after it and the response. These functions are the specification the methods of
 AuthController.AuthStore are proved against.
 */
module AuthSpec {
  import opened Wrappers
  import opened UserModel

  /** Lifetime of every pending-action token: one hour, `Date.now() + 3600000`. */
  const TokenTtl: Millis := 3600000
  /** Lifetime of a session token, `expiresIn: '1d'`, in seconds. */
  const SessionSeconds: int := 86400

  /** The account table and the next value of its auto-increment key. */
  datatype Db = Db(accounts: map<Id, Account>, nextId: Id)

  /** What a failed request reports (its message, without the text). */
  datatype Reason =
    | SignupFailed             // 'Signup failed'
    | InvalidVerificationLink  // 'Invalid or expired verification link'
    | InvalidCredentials       // 'Invalid credentials'
    | EmailNotVerified         // 'Please verify your email first'
    | UserNotFound             // 'User not found'
    | WrongCurrentPassword     // 'Current password is incorrect'
    | NoPendingPasswordChange  // 'Invalid token or no pending password change.'
    | InvalidOrExpiredToken    // 'Invalid or expired token'
    | SameUsername             // 'New username is the same as the current username'
    | UsernameInUse            // 'Username already taken, please choose a different one'
    | ServerError              // a caught exception, reported with status 500

  /** The claims of the signed session token: the account id, `iat` and `exp` in seconds. */
  datatype Claims = Claims(id: Id, issuedAt: int, expiresAt: int)

  /** The columns `getProfile` selects. */
  datatype Profile = Profile(id: Id, name: string, username: string, email: string, createdAt: Millis)

  datatype Payload = Done | Session(claims: Claims) | ProfileOf(profile: Profile)

  /** An HTTP response: 200 with a payload, or an error status with its reason. */
  datatype Response = Ok(payload: Payload) | Fail(status: int, reason: Reason)

  /** The table after a request, and the response sent. */
  datatype Step = Step(db: Db, response: Response)

  /**
   What the database guarantees of the table between requests: the unique
   constraints on username and email, the uniqueness of issued tokens, and keys
   below the auto-increment counter.
   */
  ghost predicate Valid(db: Db) {
    && UniqueUsernames(db.accounts)
    && UniqueEmails(db.accounts)
    && TokensDistinct(db.accounts)
    && (forall id :: id in db.accounts ==> id < db.nextId)
  }

  /** Every account keeps the columns of each flow paired. */
  ghost predicate Paired(db: Db) {
    forall id :: id in db.accounts ==> WellPaired(db.accounts[id])
  }

  /** Only account `id` may differ between the two tables, and no key is added or removed. */
  ghost predicate ChangedOnly(before: map<Id, Account>, after: map<Id, Account>, id: Id) {
    && after.Keys == before.Keys
    && forall j :: j in before && j != id ==> after[j] == before[j]
  }

  /** Some account other than `id` has `username`. */
  predicate TakenByOther(accounts: map<Id, Account>, id: Id, username: string) {
    exists j :: j in accounts && j != id && accounts[j].username == username
  }

  /**
   `User.findOne({ where: { <f token>: token, <f expires>: { [Op.gt]: now } } })`:
   some account whose flow-`f` token is `token` and has not expired at `now`.
   */
  ghost function Resolve(accounts: map<Id, Account>, f: Flow, token: Token, now: Millis): (r: Option<Id>)
    ensures r.Some? ==> r.value in accounts && Pending(accounts[r.value], f, token, now)
    ensures r.None? <==> forall id :: id in accounts ==> !Pending(accounts[id], f, token, now)
  {
    if exists id :: id in accounts && Pending(accounts[id], f, token, now) then
      var id :| id in accounts && Pending(accounts[id], f, token, now);
      Some(id)
    else
      None
  }

  /** `User.findOne({ where: { email } })`. */
  ghost function FindByEmail(accounts: map<Id, Account>, email: string): (r: Option<Id>)
    ensures r.Some? ==> r.value in accounts && accounts[r.value].email == email
    ensures r.None? <==> !HasEmail(accounts, email)
  {
    if HasEmail(accounts, email) then
      var id :| id in accounts && accounts[id].email == email;
      Some(id)
    else
      None
  }

  /** With distinct tokens the lookup by token has at most one answer. */
  lemma ResolveUnique(accounts: map<Id, Account>, f: Flow, token: Token, now: Millis, id: Id)
    requires TokensDistinct(accounts)
    requires id in accounts && Pending(accounts[id], f, token, now)
    ensures Resolve(accounts, f, token, now) == Some(id)
  {
  }

  /** With unique emails the lookup by email has at most one answer. */
  lemma FindByEmailUnique(accounts: map<Id, Account>, email: string, id: Id)
    requires UniqueEmails(accounts)
    requires id in accounts && accounts[id].email == email
    ensures FindByEmail(accounts, email) == Some(id)
  {
  }

  /** `signup` (controllers/authController.js:11-39). */
  ghost function Signup(db: Db, name: string, username: string, email: string, password: string,
                        salt: nat, token: Token, now: Millis, mailDelivered: bool): (r: Step)
    requires Valid(db)
    ensures HasUsername(db.accounts, username) || HasEmail(db.accounts, email) ==>
              r == Step(db, Fail(400, SignupFailed))
    ensures !HasUsername(db.accounts, username) && !HasEmail(db.accounts, email) ==>
              && db.nextId !in db.accounts
              && r.db.nextId == db.nextId + 1
              && r.db.accounts.Keys == db.accounts.Keys + {db.nextId}
              && (forall id :: id in db.accounts ==> r.db.accounts[id] == db.accounts[id])
              && var a := r.db.accounts[db.nextId];
                 && a.name == name && a.username == username && a.email == email
                 && Matches(password, a.password) && a.createdAt == now
                 && !a.isVerified
                 && a.emailVerificationToken == Some(token)
                 && a.emailVerificationExpires == Some(now + TokenTtl)
                 && Pending(a, EmailVerification, token, now)
                 && Cleared(a, PasswordReset) && Cleared(a, UsernameChange) && Cleared(a, AccountDeletion)
                 && r.response == if mailDelivered then Ok(Done) else Fail(400, SignupFailed)
  {
    if HasUsername(db.accounts, username) || HasEmail(db.accounts, email) then
      Step(db, Fail(400, SignupFailed))
    else
      var user := Create(name, username, email, Hash(password, salt), now, Some(false),
                         Some(token), Some(now + TokenTtl));
      var db' := Db(db.accounts[db.nextId := user], db.nextId + 1);
      Step(db', if mailDelivered then Ok(Done) else Fail(400, SignupFailed))
  }

  /** `verifyEmail` (controllers/authController.js:43-65). */
  ghost function VerifyEmail(db: Db, token: Token, now: Millis): (r: Step)
    ensures r.response.Ok? <==>
              exists id :: id in db.accounts && Pending(db.accounts[id], EmailVerification, token, now)
    ensures r.response.Fail? ==> r == Step(db, Fail(400, InvalidVerificationLink))
    ensures r.response.Ok? ==>
              var id := Resolve(db.accounts, EmailVerification, token, now).value;
              && r.response == Ok(Done)
              && r.db.nextId == db.nextId
              && ChangedOnly(db.accounts, r.db.accounts, id)
              && r.db.accounts[id] == db.accounts[id].(isVerified := true,
                                                       emailVerificationToken := None,
                                                       emailVerificationExpires := None)
  {
    match Resolve(db.accounts, EmailVerification, token, now)
    case None => Step(db, Fail(400, InvalidVerificationLink))
    case Some(id) =>
      var user := db.accounts[id].(isVerified := true, emailVerificationToken := None,
                                   emailVerificationExpires := None);
      Step(db.(accounts := db.accounts[id := user]), Ok(Done))
  }

  /** `login` (controllers/authController.js:69-86); it never changes the table. */
  ghost function Login(db: Db, email: string, password: string, now: Millis): (r: Response)
    requires UniqueEmails(db.accounts)
    ensures r.Ok? <==>
              exists id :: id in db.accounts && db.accounts[id].email == email &&
                           db.accounts[id].isVerified && Matches(password, db.accounts[id].password)
    ensures !HasEmail(db.accounts, email) ==> r == Fail(401, InvalidCredentials)
    ensures forall id :: id in db.accounts && db.accounts[id].email == email ==>
              if !db.accounts[id].isVerified then r == Fail(401, EmailNotVerified)
              else if !Matches(password, db.accounts[id].password) then r == Fail(401, InvalidCredentials)
              else r == Ok(Session(Claims(id, now / 1000, now / 1000 + SessionSeconds)))
  {
    match FindByEmail(db.accounts, email)
    case None => Fail(401, InvalidCredentials)
    case Some(id) =>
      var user := db.accounts[id];
      if !user.isVerified then Fail(401, EmailNotVerified)
      else if !Matches(password, user.password) then Fail(401, InvalidCredentials)
      else
        var issuedAt := now / 1000;
        Ok(Session(Claims(id, issuedAt, issuedAt + SessionSeconds)))
  }

  /** `changePassword` (controllers/authController.js:90-123), for the account `id` of the session. */
  ghost function ChangePassword(db: Db, id: Id, currentPassword: string, newPassword: string,
                                salt: nat, token: Token, now: Millis, mailDelivered: bool): (r: Step)
    ensures id !in db.accounts ==> r == Step(db, Fail(404, UserNotFound))
    ensures id in db.accounts && !Matches(currentPassword, db.accounts[id].password) ==>
              r == Step(db, Fail(400, WrongCurrentPassword))
    ensures id in db.accounts && Matches(currentPassword, db.accounts[id].password) ==>
              && r.db.nextId == db.nextId
              && ChangedOnly(db.accounts, r.db.accounts, id)
              && r.db.accounts[id].password == db.accounts[id].password
              && Pending(r.db.accounts[id], PasswordReset, token, now)
              && r.db.accounts[id].pendingPasswordHash.Some?
              && Matches(newPassword, r.db.accounts[id].pendingPasswordHash.value)
              && r.db.accounts[id] == db.accounts[id].(resetPasswordToken := Some(token),
                                                       resetPasswordExpires := Some(now + TokenTtl),
                                                       pendingPasswordHash := Some(Hash(newPassword, salt)))
              && r.response == if mailDelivered then Ok(Done) else Fail(500, ServerError)
  {
    if id !in db.accounts then Step(db, Fail(404, UserNotFound))
    else if !Matches(currentPassword, db.accounts[id].password) then
      Step(db, Fail(400, WrongCurrentPassword))
    else
      var user := db.accounts[id].(resetPasswordToken := Some(token),
                                   resetPasswordExpires := Some(now + TokenTtl),
                                   pendingPasswordHash := Some(Hash(newPassword, salt)));
      Step(db.(accounts := db.accounts[id := user]),
           if mailDelivered then Ok(Done) else Fail(500, ServerError))
  }

  /** `verifyPasswordChangeFromEmailLink` (controllers/authController.js:126-152). */
  ghost function VerifyPasswordChangeFromEmailLink(db: Db, token: Token, now: Millis): (r: Step)
    requires TokensDistinct(db.accounts)
    ensures r.response.Ok? <==>
              exists id :: id in db.accounts && Pending(db.accounts[id], PasswordReset, token, now) &&
                           db.accounts[id].pendingPasswordHash.Some?
    ensures r.response.Fail? ==> r == Step(db, Fail(400, NoPendingPasswordChange))
    ensures r.response.Ok? ==>
              var id := Resolve(db.accounts, PasswordReset, token, now).value;
              var a := db.accounts[id];
              && r.response == Ok(Done)
              && r.db.nextId == db.nextId
              && ChangedOnly(db.accounts, r.db.accounts, id)
              && a.pendingPasswordHash.Some?
              && r.db.accounts[id] == a.(password := a.pendingPasswordHash.value,
                                         resetPasswordToken := None,
                                         resetPasswordExpires := None,
                                         pendingPasswordHash := None)
  {
    match Resolve(db.accounts, PasswordReset, token, now)
    case None => Step(db, Fail(400, NoPendingPasswordChange))
    case Some(id) =>
      var user := db.accounts[id];
      if user.pendingPasswordHash.None? then Step(db, Fail(400, NoPendingPasswordChange))
      else
        var user' := user.(password := user.pendingPasswordHash.value,
                           resetPasswordToken := None, resetPasswordExpires := None,
                           pendingPasswordHash := None);
        Step(db.(accounts := db.accounts[id := user']), Ok(Done))
  }

  /** `verifyPasswordChange`, the API variant (controllers/authController.js:155-179). */
  ghost function VerifyPasswordChange(db: Db, token: Token, newPassword: string, salt: nat,
                                      now: Millis): (r: Step)
    ensures r.response.Ok? <==>
              exists id :: id in db.accounts && Pending(db.accounts[id], PasswordReset, token, now)
    ensures r.response.Fail? ==> r == Step(db, Fail(400, InvalidOrExpiredToken))
    ensures r.response.Ok? ==>
              var id := Resolve(db.accounts, PasswordReset, token, now).value;
              && r.response == Ok(Done)
              && r.db.nextId == db.nextId
              && ChangedOnly(db.accounts, r.db.accounts, id)
              && Matches(newPassword, r.db.accounts[id].password)
              && r.db.accounts[id].pendingPasswordHash == db.accounts[id].pendingPasswordHash
              && r.db.accounts[id] == db.accounts[id].(password := Hash(newPassword, salt),
                                                       resetPasswordToken := None,
                                                       resetPasswordExpires := None)
  {
    match Resolve(db.accounts, PasswordReset, token, now)
    case None => Step(db, Fail(400, InvalidOrExpiredToken))
    case Some(id) =>
      var user := db.accounts[id].(password := Hash(newPassword, salt),
                                   resetPasswordToken := None, resetPasswordExpires := None);
      Step(db.(accounts := db.accounts[id := user]), Ok(Done))
  }

  /** `requestUsernameChange` (controllers/authController.js:183-224); the account is chosen by `email`. */
  ghost function RequestUsernameChange(db: Db, email: string, newUsername: string, token: Token,
                                       now: Millis, mailDelivered: bool): (r: Step)
    requires UniqueEmails(db.accounts)
    ensures !HasEmail(db.accounts, email) ==> r == Step(db, Fail(404, UserNotFound))
    ensures forall id :: id in db.accounts && db.accounts[id].email == email ==>
              if db.accounts[id].username == newUsername then r == Step(db, Fail(400, SameUsername))
              else if HasUsername(db.accounts, newUsername) then r == Step(db, Fail(400, UsernameInUse))
              else
                && r.db.nextId == db.nextId
                && ChangedOnly(db.accounts, r.db.accounts, id)
                && Pending(r.db.accounts[id], UsernameChange, token, now)
                && r.db.accounts[id].username == db.accounts[id].username
                && r.db.accounts[id] == db.accounts[id].(newUsername := Some(newUsername),
                                                         usernameChangeToken := Some(token),
                                                         usernameChangeExpires := Some(now + TokenTtl))
                && r.response == if mailDelivered then Ok(Done) else Fail(500, ServerError)
  {
    match FindByEmail(db.accounts, email)
    case None => Step(db, Fail(404, UserNotFound))
    case Some(id) =>
      var user := db.accounts[id];
      if user.username == newUsername then Step(db, Fail(400, SameUsername))
      else if HasUsername(db.accounts, newUsername) then Step(db, Fail(400, UsernameInUse))
      else
        var user' := user.(newUsername := Some(newUsername), usernameChangeToken := Some(token),
                           usernameChangeExpires := Some(now + TokenTtl));
        Step(db.(accounts := db.accounts[id := user']),
             if mailDelivered then Ok(Done) else Fail(500, ServerError))
  }

  /**
   `confirmUsernameChange` (controllers/authController.js:228-251). Saving a NULL
   username or one another account holds violates the schema; the save throws and
   the handler answers 500 with the table unchanged.
   */
  ghost function ConfirmUsernameChange(db: Db, token: Token, now: Millis): (r: Step)
    ensures Resolve(db.accounts, UsernameChange, token, now).None? ==>
              r == Step(db, Fail(400, InvalidOrExpiredToken))
    ensures Resolve(db.accounts, UsernameChange, token, now).Some? ==>
              var id := Resolve(db.accounts, UsernameChange, token, now).value;
              var a := db.accounts[id];
              if a.newUsername.None? || TakenByOther(db.accounts, id, a.newUsername.value) then
                r == Step(db, Fail(500, ServerError))
              else
                && r.response == Ok(Done)
                && r.db.nextId == db.nextId
                && ChangedOnly(db.accounts, r.db.accounts, id)
                && r.db.accounts[id] == a.(username := a.newUsername.value, newUsername := None,
                                           usernameChangeToken := None, usernameChangeExpires := None)
  {
    match Resolve(db.accounts, UsernameChange, token, now)
    case None => Step(db, Fail(400, InvalidOrExpiredToken))
    case Some(id) =>
      var user := db.accounts[id];
      if user.newUsername.None? || TakenByOther(db.accounts, id, user.newUsername.value) then
        Step(db, Fail(500, ServerError))
      else
        var user' := user.(username := user.newUsername.value, newUsername := None,
                           usernameChangeToken := None, usernameChangeExpires := None);
        Step(db.(accounts := db.accounts[id := user']), Ok(Done))
  }

  /** `getProfile` (controllers/authController.js:255-267): the selected columns only. */
  ghost function GetProfile(db: Db, id: Id): (r: Response)
    ensures r.Ok? <==> id in db.accounts
    ensures id !in db.accounts ==> r == Fail(404, UserNotFound)
    ensures r.Ok? ==> r.payload.ProfileOf?
    ensures r.Ok? && r.payload.ProfileOf? ==>
              var p := r.payload.profile;
              && p.id == id && p.name == db.accounts[id].name && p.username == db.accounts[id].username
              && p.email == db.accounts[id].email && p.createdAt == db.accounts[id].createdAt
  {
    if id !in db.accounts then Fail(404, UserNotFound)
    else
      var user := db.accounts[id];
      Ok(ProfileOf(Profile(id, user.name, user.username, user.email, user.createdAt)))
  }

  /** `initiateDeleteAccount` (controllers/authController.js:269-292), for the account `id` of the session. */
  ghost function InitiateDeleteAccount(db: Db, id: Id, token: Token, now: Millis,
                                       mailDelivered: bool): (r: Step)
    ensures id !in db.accounts ==> r == Step(db, Fail(404, UserNotFound))
    ensures id in db.accounts ==>
              && r.db.nextId == db.nextId
              && ChangedOnly(db.accounts, r.db.accounts, id)
              && Pending(r.db.accounts[id], AccountDeletion, token, now)
              && r.db.accounts[id] == db.accounts[id].(deleteAccountToken := Some(token),
                                                       deleteAccountExpires := Some(now + TokenTtl))
              && r.response == if mailDelivered then Ok(Done) else Fail(500, ServerError)
  {
    if id !in db.accounts then Step(db, Fail(404, UserNotFound))
    else
      var user := db.accounts[id].(deleteAccountToken := Some(token),
                                   deleteAccountExpires := Some(now + TokenTtl));
      Step(db.(accounts := db.accounts[id := user]),
           if mailDelivered then Ok(Done) else Fail(500, ServerError))
  }

  /** `confirmDeleteAccount` (controllers/authController.js:295-317): a hard delete. */
  ghost function ConfirmDeleteAccount(db: Db, token: Token, now: Millis): (r: Step)
    ensures r.response.Ok? <==>
              exists id :: id in db.accounts && Pending(db.accounts[id], AccountDeletion, token, now)
    ensures r.response.Fail? ==> r == Step(db, Fail(400, InvalidOrExpiredToken))
    ensures r.response.Ok? ==>
              var id := Resolve(db.accounts, AccountDeletion, token, now).value;
              && r.response == Ok(Done)
              && r.db.nextId == db.nextId
              && r.db.accounts.Keys == db.accounts.Keys - {id}
              && forall j :: j in r.db.accounts ==> r.db.accounts[j] == db.accounts[j]
  {
    match Resolve(db.accounts, AccountDeletion, token, now)
    case None => Step(db, Fail(400, InvalidOrExpiredToken))
    case Some(id) => Step(db.(accounts := db.accounts - {id}), Ok(Done))
  }

  /**
   Saving one account with its email kept, a username no other account holds, and
   no token it did not already hold keeps the table valid.
   */
  lemma ReplaceKeepsValid(db: Db, id: Id, a: Account)
    requires Valid(db) && id in db.accounts
    requires a.email == db.accounts[id].email
    requires !TakenByOther(db.accounts, id, a.username)
    requires forall g :: TokenAt(a, g).None? || TokenAt(a, g) == TokenAt(db.accounts[id], g)
    ensures Valid(Db(db.accounts[id := a], db.nextId))
  {
  }

  /**
   Saving one account with a fresh token written into the column of flow `f`
   and nothing else about its tokens, username or email changed keeps the table
   valid.
   */
  lemma IssueKeepsValid(db: Db, id: Id, a: Account, f: Flow, token: Token)
    requires Valid(db) && id in db.accounts && Fresh(db.accounts, token)
    requires a.email == db.accounts[id].email && a.username == db.accounts[id].username
    requires TokenAt(a, f) == Some(token)
    requires forall g :: g != f ==> TokenAt(a, g) == TokenAt(db.accounts[id], g)
    ensures Valid(Db(db.accounts[id := a], db.nextId))
  {
  }

  lemma SignupKeepsValid(db: Db, name: string, username: string, email: string, password: string,
                         salt: nat, token: Token, now: Millis, mailDelivered: bool)
    requires Valid(db) && Fresh(db.accounts, token)
    ensures Valid(Signup(db, name, username, email, password, salt, token, now, mailDelivered).db)
  {
  }

  lemma VerifyEmailKeepsValid(db: Db, token: Token, now: Millis)
    requires Valid(db)
    ensures Valid(VerifyEmail(db, token, now).db)
  {
    var r := Resolve(db.accounts, EmailVerification, token, now);
    if r.Some? {
      var id := r.value;
      ReplaceKeepsValid(db, id, VerifyEmail(db, token, now).db.accounts[id]);
    }
  }

  lemma ChangePasswordKeepsValid(db: Db, id: Id, currentPassword: string, newPassword: string,
                                 salt: nat, token: Token, now: Millis, mailDelivered: bool)
    requires Valid(db) && Fresh(db.accounts, token)
    ensures Valid(ChangePassword(db, id, currentPassword, newPassword, salt, token, now, mailDelivered).db)
  {
    if id in db.accounts && Matches(currentPassword, db.accounts[id].password) {
      var r := ChangePassword(db, id, currentPassword, newPassword, salt, token, now, mailDelivered);
      IssueKeepsValid(db, id, r.db.accounts[id], PasswordReset, token);
    }
  }

  lemma VerifyPasswordChangeFromEmailLinkKeepsValid(db: Db, token: Token, now: Millis)
    requires Valid(db)
    ensures Valid(VerifyPasswordChangeFromEmailLink(db, token, now).db)
  {
    var r := VerifyPasswordChangeFromEmailLink(db, token, now);
    if r.response.Ok? {
      var id := Resolve(db.accounts, PasswordReset, token, now).value;
      ReplaceKeepsValid(db, id, r.db.accounts[id]);
    }
  }

  lemma VerifyPasswordChangeKeepsValid(db: Db, token: Token, newPassword: string, salt: nat, now: Millis)
    requires Valid(db)
    ensures Valid(VerifyPasswordChange(db, token, newPassword, salt, now).db)
  {
    var r := VerifyPasswordChange(db, token, newPassword, salt, now);
    if r.response.Ok? {
      var id := Resolve(db.accounts, PasswordReset, token, now).value;
      ReplaceKeepsValid(db, id, r.db.accounts[id]);
    }
  }

  lemma RequestUsernameChangeKeepsValid(db: Db, email: string, newUsername: string, token: Token,
                                        now: Millis, mailDelivered: bool)
    requires Valid(db) && Fresh(db.accounts, token)
    ensures Valid(RequestUsernameChange(db, email, newUsername, token, now, mailDelivered).db)
  {
    var found := FindByEmail(db.accounts, email);
    if found.Some? {
      var id := found.value;
      var r := RequestUsernameChange(db, email, newUsername, token, now, mailDelivered);
      if db.accounts[id].username != newUsername && !HasUsername(db.accounts, newUsername) {
        IssueKeepsValid(db, id, r.db.accounts[id], UsernameChange, token);
      }
    }
  }

  lemma ConfirmUsernameChangeKeepsValid(db: Db, token: Token, now: Millis)
    requires Valid(db)
    ensures Valid(ConfirmUsernameChange(db, token, now).db)
  {
    var r := ConfirmUsernameChange(db, token, now);
    var found := Resolve(db.accounts, UsernameChange, token, now);
    if found.Some? {
      var id := found.value;
      var a := db.accounts[id];
      if a.newUsername.Some? && !TakenByOther(db.accounts, id, a.newUsername.value) {
        ReplaceKeepsValid(db, id, r.db.accounts[id]);
      }
    }
  }

  lemma InitiateDeleteAccountKeepsValid(db: Db, id: Id, token: Token, now: Millis, mailDelivered: bool)
    requires Valid(db) && Fresh(db.accounts, token)
    ensures Valid(InitiateDeleteAccount(db, id, token, now, mailDelivered).db)
  {
    if id in db.accounts {
      var r := InitiateDeleteAccount(db, id, token, now, mailDelivered);
      IssueKeepsValid(db, id, r.db.accounts[id], AccountDeletion, token);
    }
  }

  lemma ConfirmDeleteAccountKeepsValid(db: Db, token: Token, now: Millis)
    requires Valid(db)
    ensures Valid(ConfirmDeleteAccount(db, token, now).db)
  {
  }
}
