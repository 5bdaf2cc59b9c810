/**
 The handlers of controllers/authController.js as methods of one store object.
 Each handler fetches a record, assigns its columns one by one and saves it (a
 map update) or destroys it (a map removal), exactly as the source does; each is
 proved to produce the table and the response AuthSpec prescribes and to keep the
 table valid.
 */
module AuthController {
  import opened Wrappers
  import opened UserModel
  import opened AuthSpec

  class AuthStore {
    /** The `User` table, by primary key. */
    var accounts: map<Id, Account>
    /** The next auto-increment key. */
    var nextId: Id

    function State(): (r: Db)
      reads this
    {
      Db(accounts, nextId)
    }

    ghost predicate Valid()
      reads this
    {
      AuthSpec.Valid(State())
    }

    /** A freshly synchronised, empty table. */
    constructor ()
      ensures Valid() && State() == Db(map[], 1)
    {
      accounts := map[];
      nextId := 1;
    }

    /** `User.findOne` by a flow's token column and a strictly later expiry. */
    method FindOneByToken(f: Flow, token: Token, now: Millis) returns (found: Option<Id>)
      requires Valid()
      ensures found == Resolve(accounts, f, token, now)
    {
      if exists id :: id in accounts && Pending(accounts[id], f, token, now) {
        var id :| id in accounts && Pending(accounts[id], f, token, now);
        ResolveUnique(accounts, f, token, now, id);
        found := Some(id);
      } else {
        found := None;
      }
    }

    /** `User.findOne({ where: { email } })`. */
    method FindOneByEmail(email: string) returns (found: Option<Id>)
      requires Valid()
      ensures found == FindByEmail(accounts, email)
    {
      if HasEmail(accounts, email) {
        var id :| id in accounts && accounts[id].email == email;
        FindByEmailUnique(accounts, email, id);
        found := Some(id);
      } else {
        found := None;
      }
    }

    method Signup(name: string, username: string, email: string, password: string, salt: nat,
                  token: Token, now: Millis, mailDelivered: bool) returns (r: Response)
      requires Valid() && Fresh(accounts, token)
      modifies this
      ensures Valid()
      ensures Step(State(), r) ==
              AuthSpec.Signup(old(State()), name, username, email, password, salt, token, now, mailDelivered)
    {
      SignupKeepsValid(State(), name, username, email, password, salt, token, now, mailDelivered);
      var hash := Hash(password, salt);
      var emailVerificationExpires := now + TokenTtl;
      // User.create fails on the unique constraints of username and email
      if HasUsername(accounts, username) || HasEmail(accounts, email) {
        return Fail(400, SignupFailed);
      }
      var user := Create(name, username, email, hash, now, Some(false), Some(token),
                         Some(emailVerificationExpires));
      accounts := accounts[nextId := user];
      nextId := nextId + 1;
      // the verification mail is sent after the account is stored
      if !mailDelivered {
        return Fail(400, SignupFailed);
      }
      r := Ok(Done);
    }

    method VerifyEmail(token: Token, now: Millis) returns (r: Response)
      requires Valid()
      modifies this
      ensures Valid()
      ensures Step(State(), r) == AuthSpec.VerifyEmail(old(State()), token, now)
    {
      VerifyEmailKeepsValid(State(), token, now);
      var found := FindOneByToken(EmailVerification, token, now);
      if found.None? {
        return Fail(400, InvalidVerificationLink);
      }
      var id := found.value;
      var user := accounts[id];
      user := user.(isVerified := true);
      user := user.(emailVerificationToken := None);
      user := user.(emailVerificationExpires := None);
      accounts := accounts[id := user];
      r := Ok(Done);
    }

    /** Login reads the table and never changes it. */
    method Login(email: string, password: string, now: Millis) returns (r: Response)
      requires Valid()
      ensures r == AuthSpec.Login(State(), email, password, now)
    {
      var found := FindOneByEmail(email);
      if found.None? {
        return Fail(401, InvalidCredentials);
      }
      var user := accounts[found.value];
      if !user.isVerified {
        return Fail(401, EmailNotVerified);
      }
      if !Matches(password, user.password) {
        return Fail(401, InvalidCredentials);
      }
      var issuedAt := now / 1000;
      r := Ok(Session(Claims(found.value, issuedAt, issuedAt + SessionSeconds)));
    }

    method ChangePassword(id: Id, currentPassword: string, newPassword: string, salt: nat,
                          token: Token, now: Millis, mailDelivered: bool) returns (r: Response)
      requires Valid() && Fresh(accounts, token)
      modifies this
      ensures Valid()
      ensures Step(State(), r) ==
              AuthSpec.ChangePassword(old(State()), id, currentPassword, newPassword, salt, token, now, mailDelivered)
    {
      ChangePasswordKeepsValid(State(), id, currentPassword, newPassword, salt, token, now, mailDelivered);
      if id !in accounts {
        return Fail(404, UserNotFound);
      }
      var user := accounts[id];
      if !Matches(currentPassword, user.password) {
        return Fail(400, WrongCurrentPassword);
      }
      var newPasswordHash := Hash(newPassword, salt);
      var expires := now + TokenTtl;
      user := user.(resetPasswordToken := Some(token));
      user := user.(resetPasswordExpires := Some(expires));
      user := user.(pendingPasswordHash := Some(newPasswordHash));
      accounts := accounts[id := user];
      if !mailDelivered {
        return Fail(500, ServerError);
      }
      r := Ok(Done);
    }

    method VerifyPasswordChangeFromEmailLink(token: Token, now: Millis) returns (r: Response)
      requires Valid()
      modifies this
      ensures Valid()
      ensures Step(State(), r) == AuthSpec.VerifyPasswordChangeFromEmailLink(old(State()), token, now)
    {
      VerifyPasswordChangeFromEmailLinkKeepsValid(State(), token, now);
      var found := FindOneByToken(PasswordReset, token, now);
      if found.None? || accounts[found.value].pendingPasswordHash.None? {
        return Fail(400, NoPendingPasswordChange);
      }
      var id := found.value;
      var user := accounts[id];
      user := user.(password := user.pendingPasswordHash.value);
      user := user.(resetPasswordToken := None);
      user := user.(resetPasswordExpires := None);
      user := user.(pendingPasswordHash := None);
      accounts := accounts[id := user];
      r := Ok(Done);
    }

    /** The API variant; no route leads to it. */
    method VerifyPasswordChange(token: Token, newPassword: string, salt: nat, now: Millis)
      returns (r: Response)
      requires Valid()
      modifies this
      ensures Valid()
      ensures Step(State(), r) == AuthSpec.VerifyPasswordChange(old(State()), token, newPassword, salt, now)
    {
      VerifyPasswordChangeKeepsValid(State(), token, newPassword, salt, now);
      var found := FindOneByToken(PasswordReset, token, now);
      if found.None? {
        return Fail(400, InvalidOrExpiredToken);
      }
      var id := found.value;
      var user := accounts[id];
      user := user.(password := Hash(newPassword, salt));
      user := user.(resetPasswordToken := None);
      user := user.(resetPasswordExpires := None);
      accounts := accounts[id := user];
      r := Ok(Done);
    }

    method RequestUsernameChange(email: string, newUsername: string, token: Token, now: Millis,
                                 mailDelivered: bool) returns (r: Response)
      requires Valid() && Fresh(accounts, token)
      modifies this
      ensures Valid()
      ensures Step(State(), r) ==
              AuthSpec.RequestUsernameChange(old(State()), email, newUsername, token, now, mailDelivered)
    {
      RequestUsernameChangeKeepsValid(State(), email, newUsername, token, now, mailDelivered);
      var found := FindOneByEmail(email);
      if found.None? {
        return Fail(404, UserNotFound);
      }
      var id := found.value;
      var user := accounts[id];
      if user.username == newUsername {
        return Fail(400, SameUsername);
      }
      if HasUsername(accounts, newUsername) {
        return Fail(400, UsernameInUse);
      }
      var expires := now + TokenTtl;
      user := user.(newUsername := Some(newUsername));
      user := user.(usernameChangeToken := Some(token));
      user := user.(usernameChangeExpires := Some(expires));
      accounts := accounts[id := user];
      if !mailDelivered {
        return Fail(500, ServerError);
      }
      r := Ok(Done);
    }

    method ConfirmUsernameChange(token: Token, now: Millis) returns (r: Response)
      requires Valid()
      modifies this
      ensures Valid()
      ensures Step(State(), r) == AuthSpec.ConfirmUsernameChange(old(State()), token, now)
    {
      ConfirmUsernameChangeKeepsValid(State(), token, now);
      var found := FindOneByToken(UsernameChange, token, now);
      if found.None? {
        return Fail(400, InvalidOrExpiredToken);
      }
      var id := found.value;
      var user := accounts[id];
      // the save is refused for a NULL username or one another account holds
      if user.newUsername.None? || TakenByOther(accounts, id, user.newUsername.value) {
        return Fail(500, ServerError);
      }
      user := user.(username := user.newUsername.value);
      user := user.(newUsername := None);
      user := user.(usernameChangeToken := None);
      user := user.(usernameChangeExpires := None);
      accounts := accounts[id := user];
      r := Ok(Done);
    }

    /** The profile reads the table and never changes it. */
    method GetProfile(id: Id) returns (r: Response)
      ensures r == AuthSpec.GetProfile(State(), id)
    {
      if id !in accounts {
        return Fail(404, UserNotFound);
      }
      var user := accounts[id];
      r := Ok(ProfileOf(Profile(id, user.name, user.username, user.email, user.createdAt)));
    }

    method InitiateDeleteAccount(id: Id, token: Token, now: Millis, mailDelivered: bool)
      returns (r: Response)
      requires Valid() && Fresh(accounts, token)
      modifies this
      ensures Valid()
      ensures Step(State(), r) == AuthSpec.InitiateDeleteAccount(old(State()), id, token, now, mailDelivered)
    {
      InitiateDeleteAccountKeepsValid(State(), id, token, now, mailDelivered);
      if id !in accounts {
        return Fail(404, UserNotFound);
      }
      var user := accounts[id];
      user := user.(deleteAccountToken := Some(token));
      user := user.(deleteAccountExpires := Some(now + TokenTtl));
      accounts := accounts[id := user];
      if !mailDelivered {
        return Fail(500, ServerError);
      }
      r := Ok(Done);
    }

    method ConfirmDeleteAccount(token: Token, now: Millis) returns (r: Response)
      requires Valid()
      modifies this
      ensures Valid()
      ensures Step(State(), r) == AuthSpec.ConfirmDeleteAccount(old(State()), token, now)
    {
      ConfirmDeleteAccountKeepsValid(State(), token, now);
      var found := FindOneByToken(AccountDeletion, token, now);
      if found.None? {
        return Fail(400, InvalidOrExpiredToken);
      }
      accounts := accounts - {found.value};
      r := Ok(Done);
    }
  }
}
