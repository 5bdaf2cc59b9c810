/**
 The `User` table of models/User.js: one record type with four required
 columns, a verified flag that defaults to false, and four independent groups
 of nullable columns, one per pending-action flow.
 */
module UserModel {
  import opened Wrappers

  /** Primary key assigned by the database on insert. */
  type Id = nat
  /** A pending-action token (a uuid v4 string in the source). */
  type Token = string
  /** Instants are milliseconds since the epoch, as `Date.now()` returns them. */
  type Millis = int

  /**
   A bcrypt hash, kept symbolic: the salt tells two hashes of one password apart
   and `secret` stands for the one-way digest of the password that was hashed.
   */
  datatype PasswordHash = Bcrypt(salt: nat, secret: string)

  /** `bcrypt.compare(candidate, h)`. */
  predicate Matches(candidate: string, h: PasswordHash) {
    candidate == h.secret
  }

  /** `bcrypt.hash(password, 10)`, with the random salt supplied by the caller. */
  function Hash(password: string, salt: nat): (h: PasswordHash)
    ensures Matches(password, h)
    ensures forall candidate :: Matches(candidate, h) ==> candidate == password
    ensures h.salt == salt
  {
    Bcrypt(salt, password)
  }

  /**
   One row of the `User` table. `name`, `username`, `email` and `password` are
   declared `allowNull: false` and so are not optional here; every column of a
   pending-action group is nullable.
   */
  datatype Account = Account(
    name: string,
    username: string,
    email: string,
    password: PasswordHash,
    isVerified: bool,
    emailVerificationToken: Option<Token>,
    emailVerificationExpires: Option<Millis>,
    resetPasswordToken: Option<Token>,
    resetPasswordExpires: Option<Millis>,
    pendingPasswordHash: Option<PasswordHash>,
    newUsername: Option<string>,
    usernameChangeToken: Option<Token>,
    usernameChangeExpires: Option<Millis>,
    deleteAccountToken: Option<Token>,
    deleteAccountExpires: Option<Millis>,
    createdAt: Millis)

  /** The four pending-action flows, each with its own token and expiry column. */
  datatype Flow = EmailVerification | PasswordReset | UsernameChange | AccountDeletion

  /** The token column of flow `f`. */
  function TokenAt(a: Account, f: Flow): (r: Option<Token>) {
    match f
    case EmailVerification => a.emailVerificationToken
    case PasswordReset => a.resetPasswordToken
    case UsernameChange => a.usernameChangeToken
    case AccountDeletion => a.deleteAccountToken
  }

  /** The expiry column of flow `f`. */
  function ExpiryAt(a: Account, f: Flow): (r: Option<Millis>) {
    match f
    case EmailVerification => a.emailVerificationExpires
    case PasswordReset => a.resetPasswordExpires
    case UsernameChange => a.usernameChangeExpires
    case AccountDeletion => a.deleteAccountExpires
  }

  /**
   The row matches `where: { <f token>: token, <f expires>: { [Op.gt]: now } }`.
   A NULL column never matches an equality or a comparison.
   */
  predicate Pending(a: Account, f: Flow, token: Token, now: Millis) {
    TokenAt(a, f) == Some(token) && ExpiryAt(a, f).Some? && ExpiryAt(a, f).value > now
  }

  /** Every column of flow `f`'s group is NULL. */
  predicate Cleared(a: Account, f: Flow) {
    && TokenAt(a, f).None?
    && ExpiryAt(a, f).None?
    && (f == PasswordReset ==> a.pendingPasswordHash.None?)
    && (f == UsernameChange ==> a.newUsername.None?)
  }

  /**
   `User.create(...)` with the required columns, an optional `isVerified` and an
   optional email-verification pair; every column not given is NULL and
   `isVerified` takes its default, false.
   */
  function Create(name: string, username: string, email: string, password: PasswordHash,
                  createdAt: Millis, isVerified: Option<bool>,
                  emailVerificationToken: Option<Token>,
                  emailVerificationExpires: Option<Millis>): (a: Account)
    ensures a.name == name && a.username == username && a.email == email
    ensures a.password == password && a.createdAt == createdAt
    ensures isVerified == None ==> !a.isVerified
    ensures isVerified != None ==> a.isVerified == isVerified.value
    ensures TokenAt(a, EmailVerification) == emailVerificationToken
    ensures ExpiryAt(a, EmailVerification) == emailVerificationExpires
    ensures Cleared(a, PasswordReset) && Cleared(a, UsernameChange) && Cleared(a, AccountDeletion)
  {
    Account(name, username, email, password,
            if isVerified == None then false else isVerified.value,
            emailVerificationToken, emailVerificationExpires,
            None, None, None, None, None, None, None, None, createdAt)
  }

  /** The `unique: true` constraint on `username`. */
  ghost predicate UniqueUsernames(accounts: map<Id, Account>) {
    forall i, j :: i in accounts && j in accounts && accounts[i].username == accounts[j].username ==> i == j
  }

  /** The `unique: true` constraint on `email`. */
  ghost predicate UniqueEmails(accounts: map<Id, Account>) {
    forall i, j :: i in accounts && j in accounts && accounts[i].email == accounts[j].email ==> i == j
  }

  /** `User.findOne({ where: { username } })` finds a row. */
  predicate HasUsername(accounts: map<Id, Account>, username: string) {
    exists id :: id in accounts && accounts[id].username == username
  }

  /** `User.findOne({ where: { email } })` finds a row. */
  predicate HasEmail(accounts: map<Id, Account>, email: string) {
    exists id :: id in accounts && accounts[id].email == email
  }

  /**
   No token value is stored twice: not in two accounts and not in two flows of
   one account. This is what the uuid generator is relied upon for.
   */
  ghost predicate TokensDistinct(accounts: map<Id, Account>) {
    forall i, j, f, g ::
      (i in accounts && j in accounts && TokenAt(accounts[i], f).Some? &&
       TokenAt(accounts[i], f) == TokenAt(accounts[j], g)) ==> i == j && f == g
  }

  /** `token` occurs in no token column of any account. */
  ghost predicate Fresh(accounts: map<Id, Account>, token: Token) {
    forall id, f :: id in accounts ==> TokenAt(accounts[id], f) != Some(token)
  }

  /**
   The columns of each flow are written and cleared together: a token is stored
   exactly when its expiry is, a pending username exactly when its token is, and a
   pending password hash whenever a reset token is.
   */
  predicate WellPaired(a: Account) {
    && (a.emailVerificationToken.Some? <==> a.emailVerificationExpires.Some?)
    && (a.resetPasswordToken.Some? <==> a.resetPasswordExpires.Some?)
    && (a.resetPasswordToken.Some? ==> a.pendingPasswordHash.Some?)
    && (a.usernameChangeToken.Some? <==> a.usernameChangeExpires.Some?)
    && (a.usernameChangeToken.Some? <==> a.newUsername.Some?)
    && (a.deleteAccountToken.Some? <==> a.deleteAccountExpires.Some?)
  }
}
