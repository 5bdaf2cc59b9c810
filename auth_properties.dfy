/**
 Properties of the handlers taken together: every handler keeps the table's
 invariants, a token can only come from the request that issued it, a confirmed
 or superseded token resolves nowhere in the table that request leaves,
 whatever the clock, and the end-to-end scenarios of
 signing up, verifying and logging in, and of deleting an account.
 */
module AuthProperties {
  import opened Wrappers
  import opened UserModel
  import opened AuthSpec

  /** One request to one of the exported handlers, with its inputs. */
  datatype Handler =
    | SignupRequest(name: string, username: string, email: string, password: string, salt: nat,
                    token: Token, mailDelivered: bool)
    | VerifyEmailRequest(token: Token)
    | LoginRequest(email: string, password: string)
    | ChangePasswordRequest(id: Id, currentPassword: string, newPassword: string, salt: nat,
                            token: Token, mailDelivered: bool)
    | VerifyPasswordChangeFromEmailLinkRequest(token: Token)
    | VerifyPasswordChangeRequest(token: Token, newPassword: string, salt: nat)
    | RequestUsernameChangeRequest(email: string, newUsername: string, token: Token, mailDelivered: bool)
    | ConfirmUsernameChangeRequest(token: Token)
    | GetProfileRequest(id: Id)
    | InitiateDeleteAccountRequest(id: Id, token: Token, mailDelivered: bool)
    | ConfirmDeleteAccountRequest(token: Token)

  /** The token a request writes into the table, and the flow whose column receives it. */
  function Issued(h: Handler): (r: Option<(Token, Flow)>) {
    match h
    case SignupRequest(_, _, _, _, _, t, _) => Some((t, EmailVerification))
    case ChangePasswordRequest(_, _, _, _, t, _) => Some((t, PasswordReset))
    case RequestUsernameChangeRequest(_, _, t, _) => Some((t, UsernameChange))
    case InitiateDeleteAccountRequest(_, t, _) => Some((t, AccountDeletion))
    case _ => None
  }

  /** The flow whose token a confirming request presents. */
  function Confirms(h: Handler): (r: Option<Flow>) {
    match h
    case VerifyEmailRequest(_) => Some(EmailVerification)
    case VerifyPasswordChangeFromEmailLinkRequest(_) => Some(PasswordReset)
    case VerifyPasswordChangeRequest(_, _, _) => Some(PasswordReset)
    case ConfirmUsernameChangeRequest(_) => Some(UsernameChange)
    case ConfirmDeleteAccountRequest(_) => Some(AccountDeletion)
    case _ => None
  }

  /** The uuid a request generates is new to the table. */
  ghost predicate TokenFresh(db: Db, h: Handler) {
    Issued(h).Some? ==> Fresh(db.accounts, Issued(h).value.0)
  }

  /** The table and response of a request that issues a token. */
  ghost function Issuing(db: Db, h: Handler, now: Millis): (r: Step)
    requires Valid(db) && Issued(h).Some?
  {
    match h
    case SignupRequest(name, username, email, password, salt, t, m) =>
      Signup(db, name, username, email, password, salt, t, now, m)
    case ChangePasswordRequest(id, current, newPassword, salt, t, m) =>
      ChangePassword(db, id, current, newPassword, salt, t, now, m)
    case RequestUsernameChangeRequest(email, newUsername, t, m) =>
      RequestUsernameChange(db, email, newUsername, t, now, m)
    case InitiateDeleteAccountRequest(id, t, m) => InitiateDeleteAccount(db, id, t, now, m)
  }

  /** The table and response of a request that presents a token. */
  ghost function Confirming(db: Db, h: Handler, now: Millis): (r: Step)
    requires Valid(db) && Confirms(h).Some?
  {
    match h
    case VerifyEmailRequest(t) => VerifyEmail(db, t, now)
    case VerifyPasswordChangeFromEmailLinkRequest(t) => VerifyPasswordChangeFromEmailLink(db, t, now)
    case VerifyPasswordChangeRequest(t, newPassword, salt) =>
      VerifyPasswordChange(db, t, newPassword, salt, now)
    case ConfirmUsernameChangeRequest(t) => ConfirmUsernameChange(db, t, now)
    case ConfirmDeleteAccountRequest(t) => ConfirmDeleteAccount(db, t, now)
  }

  /** The table after serving request `h` at time `now`, and the response. */
  ghost function Apply(db: Db, h: Handler, now: Millis): (r: Step)
    requires Valid(db)
    ensures h.LoginRequest? || h.GetProfileRequest? ==> r.db == db
  {
    if Issued(h).Some? then Issuing(db, h, now)
    else if Confirms(h).Some? then Confirming(db, h, now)
    else if h.LoginRequest? then Step(db, Login(db, h.email, h.password, now))
    else Step(db, GetProfile(db, h.id))
  }

  /** The token-issuing requests' part of `ApplyKeepsValid`. */
  lemma IssuingKeepsValid(db: Db, h: Handler, now: Millis)
    requires Valid(db) && TokenFresh(db, h) && Issued(h).Some?
    ensures Valid(Issuing(db, h, now).db)
  {
    match h
    case SignupRequest(name, username, email, password, salt, t, m) =>
      SignupKeepsValid(db, name, username, email, password, salt, t, now, m);
    case ChangePasswordRequest(id, current, newPassword, salt, t, m) =>
      ChangePasswordKeepsValid(db, id, current, newPassword, salt, t, now, m);
    case RequestUsernameChangeRequest(email, newUsername, t, m) =>
      RequestUsernameChangeKeepsValid(db, email, newUsername, t, now, m);
    case InitiateDeleteAccountRequest(id, t, m) => InitiateDeleteAccountKeepsValid(db, id, t, now, m);
  }

  /** The token-confirming requests' part of `ApplyKeepsValid`. */
  lemma ConfirmingKeepsValid(db: Db, h: Handler, now: Millis)
    requires Valid(db) && Confirms(h).Some?
    ensures Valid(Confirming(db, h, now).db)
  {
    match h
    case VerifyEmailRequest(t) => VerifyEmailKeepsValid(db, t, now);
    case VerifyPasswordChangeFromEmailLinkRequest(t) =>
      VerifyPasswordChangeFromEmailLinkKeepsValid(db, t, now);
    case VerifyPasswordChangeRequest(t, newPassword, salt) =>
      VerifyPasswordChangeKeepsValid(db, t, newPassword, salt, now);
    case ConfirmUsernameChangeRequest(t) => ConfirmUsernameChangeKeepsValid(db, t, now);
    case ConfirmDeleteAccountRequest(t) => ConfirmDeleteAccountKeepsValid(db, t, now);
  }

  /** Every handler keeps the unique constraints and the distinctness of tokens. */
  lemma ApplyKeepsValid(db: Db, h: Handler, now: Millis)
    requires Valid(db) && TokenFresh(db, h)
    ensures Valid(Apply(db, h, now).db)
  {
    if Issued(h).Some? {
      IssuingKeepsValid(db, h, now);
    } else if Confirms(h).Some? {
      ConfirmingKeepsValid(db, h, now);
    }
  }

  /** A save of one account that leaves it well paired keeps the table paired. */
  lemma SaveKeepsPaired(before: Db, after: Db, id: Id)
    requires Paired(before)
    requires ChangedOnly(before.accounts, after.accounts, id)
    requires id in after.accounts ==> WellPaired(after.accounts[id])
    ensures Paired(after)
  {
  }

  /** The token-issuing requests' part of `ApplyKeepsPaired`. */
  lemma IssuingKeepsPaired(db: Db, h: Handler, now: Millis)
    requires Valid(db) && Paired(db) && Issued(h).Some?
    ensures Paired(Issuing(db, h, now).db)
  {
    var after := Issuing(db, h, now).db;
    match h
    case SignupRequest(_, _, _, _, _, _, _) =>
    case ChangePasswordRequest(id, _, _, _, _, _) =>
      SaveKeepsPaired(db, after, id);
    case RequestUsernameChangeRequest(email, _, _, _) =>
      var found := FindByEmail(db.accounts, email);
      if found.Some? {
        SaveKeepsPaired(db, after, found.value);
      }
    case InitiateDeleteAccountRequest(id, _, _) =>
      SaveKeepsPaired(db, after, id);
  }

  /** The token-confirming requests' part of `ApplyKeepsPaired`. */
  lemma ConfirmingKeepsPaired(db: Db, h: Handler, now: Millis)
    requires Valid(db) && Paired(db) && Confirms(h).Some?
    ensures Paired(Confirming(db, h, now).db)
  {
    var after := Confirming(db, h, now).db;
    var found := Resolve(db.accounts, Confirms(h).value, h.token, now);
    if found.Some? && !h.ConfirmDeleteAccountRequest? {
      SaveKeepsPaired(db, after, found.value);
    }
  }

  /** Every handler writes and clears the columns of a flow together. */
  lemma ApplyKeepsPaired(db: Db, h: Handler, now: Millis)
    requires Valid(db) && Paired(db)
    ensures Paired(Apply(db, h, now).db)
  {
    if Issued(h).Some? {
      IssuingKeepsPaired(db, h, now);
    } else if Confirms(h).Some? {
      ConfirmingKeepsPaired(db, h, now);
    }
  }

  /**
   What no handler undoes: a verified account stays verified; the name, email and
   creation time of an account never change; keys only grow and are never reused.
   */
  ghost predicate Evolves(before: Db, after: Db) {
    && before.nextId <= after.nextId
    && (forall id :: id in after.accounts && id !in before.accounts ==> before.nextId <= id < after.nextId)
    && forall id :: id in before.accounts && id in after.accounts ==>
         && (before.accounts[id].isVerified ==> after.accounts[id].isVerified)
         && after.accounts[id].name == before.accounts[id].name
         && after.accounts[id].email == before.accounts[id].email
         && after.accounts[id].createdAt == before.accounts[id].createdAt
  }

  /** An account kept its identity: same name, email and creation time, and still verified if it was. */
  ghost predicate KeepsIdentity(before: Account, after: Account) {
    && (before.isVerified ==> after.isVerified)
    && after.name == before.name
    && after.email == before.email
    && after.createdAt == before.createdAt
  }

  /** A save of one account that keeps its identity evolves the table. */
  lemma SaveEvolves(before: Db, after: Db, id: Id)
    requires after.nextId == before.nextId
    requires ChangedOnly(before.accounts, after.accounts, id)
    requires id in before.accounts ==> KeepsIdentity(before.accounts[id], after.accounts[id])
    ensures Evolves(before, after)
  {
  }

  /** The token-issuing requests' part of `ApplyEvolves`. */
  lemma IssuingEvolves(db: Db, h: Handler, now: Millis)
    requires Valid(db) && Issued(h).Some?
    ensures Evolves(db, Issuing(db, h, now).db)
    ensures Issuing(db, h, now).db.accounts.Keys - db.accounts.Keys != {} ==> h.SignupRequest?
    ensures db.accounts.Keys <= Issuing(db, h, now).db.accounts.Keys
  {
    var after := Issuing(db, h, now).db;
    match h
    case SignupRequest(_, _, _, _, _, _, _) =>
    case ChangePasswordRequest(id, _, _, _, _, _) =>
      SaveEvolves(db, after, id);
    case RequestUsernameChangeRequest(email, _, _, _) =>
      var found := FindByEmail(db.accounts, email);
      if found.Some? {
        SaveEvolves(db, after, found.value);
      }
    case InitiateDeleteAccountRequest(id, _, _) =>
      SaveEvolves(db, after, id);
  }

  /** The token-confirming requests' part of `ApplyEvolves`. */
  lemma ConfirmingEvolves(db: Db, h: Handler, now: Millis)
    requires Valid(db) && Confirms(h).Some?
    ensures Evolves(db, Confirming(db, h, now).db)
    ensures Confirming(db, h, now).db.accounts.Keys <= db.accounts.Keys
    ensures db.accounts.Keys - Confirming(db, h, now).db.accounts.Keys != {} ==> h.ConfirmDeleteAccountRequest?
  {
    var after := Confirming(db, h, now).db;
    var found := Resolve(db.accounts, Confirms(h).value, h.token, now);
    if found.Some? && !h.ConfirmDeleteAccountRequest? {
      SaveEvolves(db, after, found.value);
    }
  }

  /**
   Every handler evolves the table; only signup adds an account and only a
   confirmed deletion removes one.
   */
  lemma ApplyEvolves(db: Db, h: Handler, now: Millis)
    requires Valid(db)
    ensures Evolves(db, Apply(db, h, now).db)
    ensures Apply(db, h, now).db.accounts.Keys - db.accounts.Keys != {} ==> h.SignupRequest?
    ensures db.accounts.Keys - Apply(db, h, now).db.accounts.Keys != {} ==> h.ConfirmDeleteAccountRequest?
  {
    if Issued(h).Some? {
      IssuingEvolves(db, h, now);
    } else if Confirms(h).Some? {
      ConfirmingEvolves(db, h, now);
    }
  }

  /** The token-issuing requests' part of `ApplyTokenOrigin`. */
  lemma IssuingTokenOrigin(db: Db, h: Handler, now: Millis, id: Id, f: Flow)
    requires Valid(db) && Issued(h).Some?
    requires id in Issuing(db, h, now).db.accounts
    requires TokenAt(Issuing(db, h, now).db.accounts[id], f).Some?
    ensures || (id in db.accounts &&
                TokenAt(Issuing(db, h, now).db.accounts[id], f) == TokenAt(db.accounts[id], f))
            || (Issued(h).value.1 == f && TokenAt(Issuing(db, h, now).db.accounts[id], f) == Some(Issued(h).value.0))
  {
  }

  /** The token-confirming requests' part of `ApplyTokenOrigin`. */
  lemma ConfirmingTokenOrigin(db: Db, h: Handler, now: Millis, id: Id, f: Flow)
    requires Valid(db) && Confirms(h).Some?
    requires id in Confirming(db, h, now).db.accounts
    requires TokenAt(Confirming(db, h, now).db.accounts[id], f).Some?
    ensures id in db.accounts &&
            TokenAt(Confirming(db, h, now).db.accounts[id], f) == TokenAt(db.accounts[id], f)
  {
  }

  /**
   Where a token in the table after a request comes from: it sat in the same
   column of the same account before, or it is the token the request issued,
   in the column of the flow it issued it for.
   */
  lemma ApplyTokenOrigin(db: Db, h: Handler, now: Millis, id: Id, f: Flow)
    requires Valid(db)
    requires id in Apply(db, h, now).db.accounts
    requires TokenAt(Apply(db, h, now).db.accounts[id], f).Some?
    ensures || (id in db.accounts &&
                TokenAt(Apply(db, h, now).db.accounts[id], f) == TokenAt(db.accounts[id], f))
            || (Issued(h).Some? && Issued(h).value.1 == f &&
                TokenAt(Apply(db, h, now).db.accounts[id], f) == Some(Issued(h).value.0))
  {
    if Issued(h).Some? {
      IssuingTokenOrigin(db, h, now, id, f);
    } else if Confirms(h).Some? {
      ConfirmingTokenOrigin(db, h, now, id, f);
    }
  }

  /** In the table the issuing request leaves, its token resolves in no other flow, whatever the clock. */
  lemma IssuedTokenBoundToFlow(db: Db, h: Handler, now: Millis, g: Flow, later: Millis)
    requires Valid(db) && TokenFresh(db, h) && Issued(h).Some? && g != Issued(h).value.1
    ensures Resolve(Apply(db, h, now).db.accounts, g, Issued(h).value.0, later).None?
  {
    var after := Apply(db, h, now).db.accounts;
    var t := Issued(h).value.0;
    forall id | id in after
      ensures !Pending(after[id], g, t, later)
    {
      if TokenAt(after[id], g).Some? {
        ApplyTokenOrigin(db, h, now, id, g);
      }
    }
  }

  /**
   A request that replaces the flow-`f` token of an account, by reissuing it or by
   consuming it, leaves the replaced token resolving nowhere in the table it
   leaves, whatever the clock.
   */
  lemma ReplacedTokenNeverResolves(db: Db, h: Handler, now: Millis, id: Id, f: Flow,
                                   replaced: Token, later: Millis)
    requires Valid(db) && TokenFresh(db, h)
    requires id in db.accounts && TokenAt(db.accounts[id], f) == Some(replaced)
    requires id in Apply(db, h, now).db.accounts ==>
               TokenAt(Apply(db, h, now).db.accounts[id], f) != Some(replaced)
    ensures Resolve(Apply(db, h, now).db.accounts, f, replaced, later).None?
  {
    var after := Apply(db, h, now).db.accounts;
    forall j | j in after
      ensures !Pending(after[j], f, replaced, later)
    {
      if TokenAt(after[j], f) == Some(replaced) {
        ApplyTokenOrigin(db, h, now, j, f);
      }
    }
  }

  /**
   A confirmation that succeeds consumes its token: presenting it again to the
   table it leaves, whatever the clock, fails with 400 and changes nothing.
   */
  lemma ConfirmConsumesToken(db: Db, h: Handler, now: Millis, later: Millis)
    requires Valid(db) && Confirms(h).Some? && Apply(db, h, now).response.Ok?
    ensures Valid(Apply(db, h, now).db)
    ensures var after := Apply(db, h, now).db;
            && Apply(after, h, later).db == after
            && Apply(after, h, later).response.Fail?
            && Apply(after, h, later).response.status == 400
  {
    var f := Confirms(h).value;
    var t := h.token;
    var id := Resolve(db.accounts, f, t, now).value;
    ApplyKeepsValid(db, h, now);
    ReplacedTokenNeverResolves(db, h, now, id, f, t, later);
  }

  /**
   Two username-change requests for one account before either is confirmed: only
   the token of the later one resolves.
   */
  lemma SecondUsernameRequestSupersedesFirst(db: Db, email: string, first: string, second: string,
                                             t1: Token, t2: Token, now1: Millis, now2: Millis,
                                             m1: bool, m2: bool, later: Millis)
    requires Valid(db) && Fresh(db.accounts, t1)
    requires HasEmail(db.accounts, email)
    requires !HasUsername(db.accounts, first) && !HasUsername(db.accounts, second)
    requires Fresh(RequestUsernameChange(db, email, first, t1, now1, m1).db.accounts, t2)
    requires later < now2 + TokenTtl
    ensures var db1 := RequestUsernameChange(db, email, first, t1, now1, m1).db;
            var db2 := RequestUsernameChange(db1, email, second, t2, now2, m2).db;
            && Resolve(db2.accounts, UsernameChange, t1, later).None?
            && Resolve(db2.accounts, UsernameChange, t2, later) == FindByEmail(db.accounts, email)
  {
  }

  /**
   Signing up, then verifying before the link expires, then logging in with the
   same password yields a session for the new account; logging in before the
   verification is refused as unverified, and a link presented at or after its
   expiry is refused.
   */
  lemma SignupVerifyLogin(db: Db, name: string, username: string, email: string, password: string,
                          salt: nat, token: Token, now: Millis, mailDelivered: bool,
                          verifyAt: Millis, loginAt: Millis)
    requires Valid(db) && Fresh(db.accounts, token)
    requires !HasUsername(db.accounts, username) && !HasEmail(db.accounts, email)
    ensures var db1 := Signup(db, name, username, email, password, salt, token, now, mailDelivered).db;
            && Login(db1, email, password, loginAt) == Fail(401, EmailNotVerified)
            && (verifyAt >= now + TokenTtl ==>
                  VerifyEmail(db1, token, verifyAt) == Step(db1, Fail(400, InvalidVerificationLink)))
            && (verifyAt < now + TokenTtl ==>
                  var db2 := VerifyEmail(db1, token, verifyAt).db;
                  && VerifyEmail(db1, token, verifyAt).response == Ok(Done)
                  && Login(db2, email, password, loginAt) ==
                       Ok(Session(Claims(db.nextId, loginAt / 1000, loginAt / 1000 + SessionSeconds))))
  {
  }

  /** After a confirmed deletion, logging in with the deleted account's email fails as invalid credentials. */
  lemma DeletedAccountCannotLogIn(db: Db, token: Token, now: Millis, password: string, later: Millis)
    requires Valid(db)
    requires ConfirmDeleteAccount(db, token, now).response.Ok?
    ensures var id := Resolve(db.accounts, AccountDeletion, token, now).value;
            var after := ConfirmDeleteAccount(db, token, now).db;
            && id !in after.accounts
            && UniqueEmails(after.accounts)
            && Login(after, db.accounts[id].email, password, later) == Fail(401, InvalidCredentials)
  {
  }
}
