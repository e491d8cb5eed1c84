/**
 * server/src/controllers/authController.ts: accounts and password resets over the
 * `users` table. bcrypt and JSON Web Tokens are parameters: `hash` produces the
 * stored digest, `compare` checks a password against one, `sign` and `signReset`
 * produce tokens, and `verifyReset` decodes a reset token (or fails). The SMTP
 * configuration and the outcome of sending the mail are parameters too.
 */
module AuthController {
  import opened Wrappers
  import opened Records
  import opened Seqs
  import opened Strings
  import opened Store

  /** A user as responses show it: no password hash and no reset fields. */
  datatype UserView = UserView(id: Id, email: string, firstName: string, lastName: string, role: Role)

  /** The claims of a session token. */
  datatype Claims = Claims(id: Id, email: string, role: Role, firstName: string, lastName: string)

  /** The body of a successful register or login: `{ user, token }`. */
  datatype Session = Session(user: UserView, token: string)

  function View(u: User): UserView {
    UserView(u.id, u.email, u.firstName, u.lastName, u.role)
  }

  function ClaimsOf(u: User): Claims {
    Claims(u.id, u.email, u.role, u.firstName, u.lastName)
  }

  function SessionFor(u: User, sign: Claims -> string): Session {
    Session(View(u), sign(ClaimsOf(u)))
  }

  /** What a response reveals of a user does not depend on the password hash or the reset token. */
  lemma ViewHidesSecrets(u: User, password: string, token: Option<string>, expiry: Option<Time>)
    ensures View(u.(password := password, resetToken := token, resetTokenExpiry := expiry)) == View(u)
  {
  }

  // ---------------------------------------------------------------------------
  // register

  /** `ALLOWED_EMAIL_DOMAIN`; when it is unset, `endsWith` and the template both see "undefined". */
  function DomainText(allowedDomain: Option<string>): string {
    match allowedDomain
    case None => "undefined"
    case Some(d) => d
  }

  function DomainMessage(domain: string): string {
    "Registration is only allowed for emails with domain " + domain
  }

  const UserExistsMessage: string := "User already exists"
  const ServerErrorMessage: string := "Server error"

  /** `role || 'member'`: a missing or empty role is `member`. */
  function RoleOrDefault(role: Option<string>): string {
    match role
    case None => "member"
    case Some(s) => if s == "" then "member" else s
  }

  /** The `role` column's enum; any other value makes `User.create` fail. */
  function ParseRole(s: string): (r: Option<Role>)
    ensures r.Some? <==> s == "admin" || s == "librarian" || s == "member"
    ensures r.Some? ==> RoleName(r.value) == s
  {
    if s == "admin" then Some(Admin)
    else if s == "librarian" then Some(Librarian)
    else if s == "member" then Some(Member)
    else None
  }

  /** Every role survives being written out and read back. */
  lemma ParseRoleName(r: Role)
    ensures ParseRole(RoleName(r)) == Some(r)
  {
  }

  /** Without a role in the request, the new account is a member. */
  lemma DefaultRoleIsMember(role: Option<string>)
    requires role.None? || role == Some("")
    ensures ParseRole(RoleOrDefault(role)) == Some(Member)
  {
  }

  /**
   * `register`. The checks run in this order: domain suffix, existing e-mail address,
   * role. Every refusal leaves the table as it was; an accepted registration stores
   * the digest of the password, never the password, and answers with a view that has
   * no password field.
   */
  method Register(db: Database, email: string, password: string, firstName: string, lastName: string,
                  role: Option<string>, allowedDomain: Option<string>,
                  hash: string -> string, sign: Claims -> string) returns (r: Response<Session>)
    requires db.Valid()
    modifies db`users, db`nextId
    ensures db.Valid()
    ensures r.Failure? ==> db.users == old(db.users) && db.nextId == old(db.nextId)
    ensures !EndsWith(email, DomainText(allowedDomain)) ==>
      r == Failure(400, DomainMessage(DomainText(allowedDomain)))
    ensures EndsWith(email, DomainText(allowedDomain)) && FindFirst(old(db.users), UserWithEmail(email)).Some? ==>
      r == Failure(400, UserExistsMessage)
    ensures EndsWith(email, DomainText(allowedDomain)) && FindFirst(old(db.users), UserWithEmail(email)).None? ==>
      match ParseRole(RoleOrDefault(role))
      case None => r == Failure(500, ServerErrorMessage)
      case Some(rl) =>
        var u := User(old(db.nextId), email, hash(password), firstName, lastName, rl, None, None);
        db.users == old(db.users) + [u] && r == Success(SessionFor(u, sign))
  {
    var domain := DomainText(allowedDomain);
    if !EndsWith(email, domain) {
      return Failure(400, DomainMessage(domain));
    }
    if FindFirst(db.users, UserWithEmail(email)).Some? {
      return Failure(400, UserExistsMessage);
    }
    var parsed := ParseRole(RoleOrDefault(role));
    if parsed.None? {
      return Failure(500, ServerErrorMessage);
    }
    var u := User(db.nextId, email, hash(password), firstName, lastName, parsed.value, None, None);
    assert forall k :: 0 <= k < |db.users| ==> !UserWithEmail(email)(db.users[k]);
    db.AddUser(u);
    r := Success(SessionFor(u, sign));
  }

  // ---------------------------------------------------------------------------
  // login

  const InvalidCredentialsMessage: string := "Invalid credentials"

  /** `login`: the first user with the address, if `compare` accepts the password against its digest. */
  function Login(users: seq<User>, email: string, password: string,
                 compare: (string, string) -> bool, sign: Claims -> string): (r: Response<Session>)
    ensures r.Failure? ==> r == Failure(400, InvalidCredentialsMessage)
    ensures r.Success? ==> exists i :: (0 <= i < |users| && users[i].email == email
      && compare(password, users[i].password) && r.value == SessionFor(users[i], sign))
    ensures (forall i :: 0 <= i < |users| ==> users[i].email != email) ==> r.Failure?
  {
    match FindFirst(users, UserWithEmail(email))
    case None => Failure(400, InvalidCredentialsMessage)
    case Some(i) =>
      if compare(password, users[i].password) then Success(SessionFor(users[i], sign))
      else Failure(400, InvalidCredentialsMessage)
  }

  /**
   * With unique addresses, login succeeds exactly for a stored user whose digest the
   * password matches, and otherwise gives the same answer whatever the cause.
   */
  lemma LoginExact(users: seq<User>, i: nat, password: string,
                   compare: (string, string) -> bool, sign: Claims -> string)
    requires Unique(users, UserEmail) && i < |users|
    ensures Login(users, users[i].email, password, compare, sign) ==
      if compare(password, users[i].password) then Success(SessionFor(users[i], sign))
      else Failure(400, InvalidCredentialsMessage)
  {
    assert UserWithEmail(users[i].email)(users[i]);
  }

  // ---------------------------------------------------------------------------
  // forgotPassword and resetPassword

  const ResetMailErrorMessage: string := "Error sending password reset email"
  const UserNotFoundMessage: string := "User not found"
  const ResetMailSentMessage: string := "Password reset email sent"

  /** The user with a fresh reset token that expires one hour after `now`. */
  function WithResetToken(u: User, token: string, now: Time): (v: User)
    ensures v.resetToken == Some(token) && v.resetTokenExpiry == Some(now + HourMs)
    ensures v.(resetToken := u.resetToken, resetTokenExpiry := u.resetTokenExpiry) == u
  {
    u.(resetToken := Some(token), resetTokenExpiry := Some(now + HourMs))
  }

  /**
   * `forgotPassword`. The reset token is signed over the user's key and the issue time
   * (`iat`), so a later request stores a different token. Missing SMTP credentials fail
   * before the lookup. A failed mail
   * delivery (`mailSent == false`) comes after the token is stored, so it stays stored.
   */
  method ForgotPassword(db: Database, email: string, smtpConfigured: bool, mailSent: bool,
                        signReset: (Id, Time) -> string, now: Time) returns (r: Response<string>)
    requires db.Valid()
    modifies db`users
    ensures db.Valid()
    ensures !smtpConfigured ==> r == Failure(500, ResetMailErrorMessage) && db.users == old(db.users)
    ensures smtpConfigured ==> match FindFirst(old(db.users), UserWithEmail(email))
      case None => r == Failure(404, UserNotFoundMessage) && db.users == old(db.users)
      case Some(i) =>
        && db.users == old(db.users)[i := WithResetToken(old(db.users)[i], signReset(old(db.users)[i].id, now), now)]
        && r == (if mailSent then Success(ResetMailSentMessage) else Failure(500, ResetMailErrorMessage))
  {
    if !smtpConfigured {
      return Failure(500, ResetMailErrorMessage);
    }
    var found := FindFirst(db.users, UserWithEmail(email));
    if found.None? {
      return Failure(404, UserNotFoundMessage);
    }
    var i := found.value;
    var u := db.users[i];
    db.SetUser(i, WithResetToken(u, signReset(u.id, now), now));
    r := if mailSent then Success(ResetMailSentMessage) else Failure(500, ResetMailErrorMessage);
  }

  /** The lookup of `resetPassword`: key, stored token and an expiry strictly after `now`. */
  predicate AcceptsReset(u: User, id: Id, token: string, now: Time) {
    u.id == id && u.resetToken == Some(token) && u.resetTokenExpiry.Some? && u.resetTokenExpiry.value > now
  }

  function ResetFor(id: Id, token: string, now: Time): User -> bool {
    (u: User) => AcceptsReset(u, id, token, now)
  }

  /** The user after a completed reset: the new digest, and no reset token or expiry. */
  function WithNewPassword(u: User, digest: string): (v: User)
    ensures v.password == digest && v.resetToken.None? && v.resetTokenExpiry.None?
    ensures v.(password := u.password, resetToken := u.resetToken, resetTokenExpiry := u.resetTokenExpiry) == u
  {
    u.(password := digest, resetToken := None, resetTokenExpiry := None)
  }

  const ResetTokenErrorMessage: string := "Invalid or expired token"
  const ResetLookupErrorMessage: string := "Invalid or expired reset token"
  const ResetDoneMessage: string := "Password successfully reset"

  /** `resetPassword`: a token that does not verify is a 500; one that matches no user is a 400. */
  method ResetPassword(db: Database, token: string, newPassword: string, verifyReset: string -> Option<Id>,
                       hash: string -> string, now: Time) returns (r: Response<string>)
    requires db.Valid()
    modifies db`users
    ensures db.Valid()
    ensures r.Failure? ==> db.users == old(db.users)
    ensures verifyReset(token).None? ==> r == Failure(500, ResetTokenErrorMessage)
    ensures verifyReset(token).Some? ==> match FindFirst(old(db.users), ResetFor(verifyReset(token).value, token, now))
      case None => r == Failure(400, ResetLookupErrorMessage)
      case Some(i) =>
        db.users == old(db.users)[i := WithNewPassword(old(db.users)[i], hash(newPassword))]
        && r == Success(ResetDoneMessage)
  {
    var decoded := verifyReset(token);
    if decoded.None? {
      return Failure(500, ResetTokenErrorMessage);
    }
    var found := FindFirst(db.users, ResetFor(decoded.value, token, now));
    if found.None? {
      return Failure(400, ResetLookupErrorMessage);
    }
    var i := found.value;
    db.SetUser(i, WithNewPassword(db.users[i], hash(newPassword)));
    r := Success(ResetDoneMessage);
  }

  /** A token issued at `now` is accepted exactly until one hour later, and not from then on. */
  lemma ResetTokenLastsOneHour(users: seq<User>, i: nat, token: string, now: Time, t: Time)
    requires Unique(users, UserKey) && i < |users|
    ensures var issued := users[i := WithResetToken(users[i], token, now)];
      FindFirst(issued, ResetFor(users[i].id, token, t)) == if t < now + HourMs then Some(i) else None
  {
    var issued := users[i := WithResetToken(users[i], token, now)];
    var p := ResetFor(users[i].id, token, t);
    forall k | 0 <= k < |issued| && k != i ensures !p(issued[k]) {
      assert issued[k] == users[k];
      if k < i {
        assert UserKey(users[k]) != UserKey(users[i]);
      } else {
        assert UserKey(users[i]) != UserKey(users[k]);
      }
    }
    if t < now + HourMs {
      assert p(issued[i]);
    }
  }

  /** Once a reset has gone through, the same token is refused at any later time. */
  lemma ResetTokenSingleUse(users: seq<User>, i: nat, id: Id, token: string, now: Time, later: Time, digest: string)
    requires Unique(users, UserKey) && i < |users| && AcceptsReset(users[i], id, token, now)
    ensures FindFirst(users[i := WithNewPassword(users[i], digest)], ResetFor(id, token, later)).None?
  {
    var after := users[i := WithNewPassword(users[i], digest)];
    forall k | 0 <= k < |after| ensures !ResetFor(id, token, later)(after[k]) {
      if k < i {
        assert UserKey(users[k]) != UserKey(users[i]);
      } else if k > i {
        assert UserKey(users[i]) != UserKey(users[k]);
      }
    }
  }
}
