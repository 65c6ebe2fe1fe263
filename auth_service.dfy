/** The bundled authentication service: registration with an emailed
    verification code, code verification, login, the forgotten-password and
    resend paths, password reset by code and password change. Each operation
    is a function from the tables (and the inputs the environment supplies:
    the clock, the random draws, the generated token, the bcrypt salt and
    whether the mail went out) to an outcome, and a method that performs the
    same steps on a `Database` and is proved to reach that outcome. */
module AuthService {
  import opened Wrappers
  import opened Errors
  import opened JsText
  import opened TableOps
  import opened Hashing
  import opened PasswordPolicy
  import opened OtpDigits
  import opened AuthTables
  import opened AuthStore

  const VerifyOtpTtlHours: nat := 24
  const ResetOtpTtlMinutes: nat := 10
  const VerifyTtlMs: int := 24 * 60 * 60 * 1000
  const ResetTtlMs: int := 10 * 60 * 1000
  const SessionTtlMs: int := 24 * 60 * 60 * 1000

  const EmailPasswordRequired := "Email and password are required"
  const EmailRegistered := "Email already registered"
  const UsernameTaken := "Username already taken"
  const InvalidCodeOrEmail := "Invalid code or email"
  const InvalidOrExpiredCode := "Invalid or expired code"
  const InvalidCredentials := "Invalid email/username or password"
  const MissingPassword := "This account is missing a password"
  const NotVerified := "Email is not verified"
  const AlreadyVerified := "Email sudah terverifikasi"
  const InvalidResetRequest := "Invalid reset request"
  const UserNotFound := "User not found"
  const InvalidCurrentPassword := "Invalid current password"
  /** What a failed mail transport throws; its text is not part of the model. */
  const MailFailed := "Mail delivery failed"

  /** A mail handed to the transport, with what the template shows. */
  datatype Mail =
    | VerificationMail(to: string, code: string, expiresInHours: nat)
    | ResetMail(to: string, code: string, expiresInMinutes: nat)

  /** An operation's outcome: its result or the error it throws, the tables
      after it, and the mail it sent, if any. */
  datatype Outcome<R> = Outcome(result: Result<R, AppError>, tables: Tables, mail: Option<Mail>)

  datatype Session = Session(token: string, user: UserRow)

  /** What the strength error carries: the messages joined by "; ". */
  function WeakPassword(password: string): AppError
  {
    BadRequest(Join(StrengthErrors(password), "; "))
  }

  /** Throwing `e` before any write. */
  function Reject<R>(t: Tables, e: AppError): (o: Outcome<R>)
    ensures o.result == Failure(e) && o.tables == t && o.mail.None?
  {
    Outcome(Failure(e), t, None)
  }

  /** The end of an operation that mails: the mail went out, or sending threw
      after every write was already made. */
  function Mailed<R>(value: R, t: Tables, mail: Mail, delivered: bool): (o: Outcome<R>)
    ensures o.tables == t && o.mail == Some(mail)
    ensures o.result.Success? <==> delivered
  {
    Outcome(if delivered then Success(value) else Failure(Internal(MailFailed)), t, Some(mail))
  }

  /** JavaScript `s || fallback` on an optional string. */
  function OrElse(s: Option<string>, fallback: Option<string>): Option<string>
  {
    if s.Some? && s.value != [] then s else fallback
  }

  /** `input.username?.trim() || undefined`. */
  function NormalizeUsername(username: Option<string>): (r: Option<string>)
    ensures r.Some? ==> username.Some? && r.value != [] && r.value == Trim(username.value)
  {
    if username.Some? && Trim(username.value) != [] then Some(Trim(username.value)) else None
  }

  /** `input.purpose || "verify_email"`. */
  function PurposeOrDefault(purpose: Option<string>): string
  {
    if purpose.Some? && purpose.value != [] then purpose.value else VerifyEmail
  }

  // ---------------------------------------------------------------- registerUser

  /** The checks `registerUser` makes before writing, in its order. `e` is
      the normalised email, `un` the normalised username. */
  function RegisterCheck(t: Tables, e: string, password: string, un: Option<string>): Option<AppError>
  {
    if e == [] || password == [] then Some(BadRequest(EmailPasswordRequired))
    else if StrengthErrors(password) != [] then Some(WeakPassword(password))
    else if GetUserByEmail(t.users, e).Some? then Some(BadRequest(EmailRegistered))
    else if un.Some? && GetUserByEmailOrUsername(t.users, un.value).Some? then Some(BadRequest(UsernameTaken))
    else None
  }

  /** The writes of `registerUser` once the checks pass: the user, then the
      emailed verification code. */
  function RegisterStore(t: Tables, e: string, un: Option<string>, name: Option<string>, passwordHash: StoredHash,
                         rand: nat -> Digit, token: string, now: Time, delivered: bool): Outcome<UserRow>
  {
    var c := CreateUser(t, e, un, OrElse(name, un), passwordHash, None, now);
    if c.result.Failure? then Outcome(Failure(c.result.error), c.tables, None)
    else
      var user := c.result.value;
      var code := DrawnCode(rand, DefaultLength);
      var s := SaveEmailVerificationToken(c.tables, user.id, user.email, code, token, now + VerifyTtlMs, now);
      Mailed(user, s.tables, VerificationMail(user.email, code, VerifyOtpTtlHours), delivered)
  }

  function RegisterUser(t: Tables, email: string, password: string, username: Option<string>, name: Option<string>,
                        salt: nat, rand: nat -> Digit, token: string, now: Time, delivered: bool): Outcome<UserRow>
  {
    var e := Trim(ToLower(email));
    var un := NormalizeUsername(username);
    var rejected := RegisterCheck(t, e, password, un);
    if rejected.Some? then Reject(t, rejected.value)
    else RegisterStore(t, e, un, name, HashPassword(password, salt), rand, token, now, delivered)
  }

  method RegisterUserOn(db: Database, email: string, password: string, username: Option<string>, name: Option<string>,
                        salt: nat, rand: nat -> Digit, token: string, now: Time, delivered: bool)
    returns (r: Result<UserRow, AppError>, mail: Option<Mail>)
    modifies db
    ensures Outcome(r, db.Snapshot(), mail) == RegisterUser(old(db.Snapshot()), email, password, username, name, salt, rand, token, now, delivered)
    ensures old(db.Valid()) ==> db.Valid()
  {
    mail := None;
    var e := Trim(ToLower(email));
    var un := NormalizeUsername(username);
    if e == [] || password == [] {
      return Failure(BadRequest(EmailPasswordRequired)), mail;
    }
    var isValid, errors := ValidatePasswordStrength(password);
    if !isValid {
      return Failure(BadRequest(Join(errors, "; "))), mail;
    }
    if GetUserByEmail(db.users, e).Some? {
      return Failure(BadRequest(EmailRegistered)), mail;
    }
    if un.Some? && GetUserByEmailOrUsername(db.users, un.value).Some? {
      return Failure(BadRequest(UsernameTaken)), mail;
    }
    var passwordHash := HashPassword(password, salt);
    var created := db.CreateUser(e, un, OrElse(name, un), passwordHash, None, now);
    if created.Failure? {
      return Failure(created.error), mail;
    }
    var user := created.value;
    var code := GenerateOtp(DefaultLength, rand);
    var _ := db.SaveEmailVerificationToken(user.id, user.email, code, token, now + VerifyTtlMs, now);
    mail := Some(VerificationMail(user.email, code, VerifyOtpTtlHours));
    r := if delivered then Success(user) else Failure(Internal(MailFailed));
  }

  // ---------------------------------------------------------------- verifyOtp

  function VerifyOtp(t: Tables, email: string, code: string, purpose: Option<string>, now: Time): Outcome<UserRow>
  {
    var user := GetUserByEmail(t.users, ToLower(email));
    if user.None? then Reject(t, BadRequest(InvalidCodeOrEmail))
    else
      var u := user.value;
      var p := PurposeOrDefault(purpose);
      if p == VerifyEmail then
        var consumed := ConsumeEmailVerificationCode(t, u.email, code, now);
        if consumed.0.None? then Reject(consumed.1, BadRequest(InvalidOrExpiredCode))
        else
          var t' := if !u.isVerified then UpdateUserVerified(consumed.1, u.id, true, now) else consumed.1;
          Outcome(Success(u), t', None)
      else
        var otp := GetActiveOtpCode(t.otps, u.id, code, p, now);
        if otp.None? then Reject(t, BadRequest(InvalidOrExpiredCode))
        else Outcome(Success(u), MarkOtpUsed(t, otp.value.id, now), None)
  }

  method VerifyOtpOn(db: Database, email: string, code: string, purpose: Option<string>, now: Time)
    returns (r: Result<UserRow, AppError>)
    modifies db
    ensures Outcome(r, db.Snapshot(), None) == VerifyOtp(old(db.Snapshot()), email, code, purpose, now)
    ensures old(db.Valid()) ==> db.Valid()
  {
    var user := GetUserByEmail(db.users, ToLower(email));
    if user.None? {
      return Failure(BadRequest(InvalidCodeOrEmail));
    }
    var u := user.value;
    var p := PurposeOrDefault(purpose);
    if p == VerifyEmail {
      var token := db.ConsumeEmailVerificationCode(u.email, code, now);
      if token.None? {
        return Failure(BadRequest(InvalidOrExpiredCode));
      }
      if !u.isVerified {
        db.UpdateUserVerified(u.id, true, now);
      }
      return Success(u);
    }
    var otp := GetActiveOtpCode(db.otps, u.id, code, p, now);
    if otp.None? {
      return Failure(BadRequest(InvalidOrExpiredCode));
    }
    db.MarkOtpUsed(otp.value.id, now);
    return Success(u);
  }

  // ---------------------------------------------------------------- loginUser

  function LoginUser(t: Tables, identifier: string, password: string, jwt: string, now: Time): Outcome<Session>
  {
    var user := GetUserByEmailOrUsername(t.users, Trim(identifier));
    if user.None? then Reject(t, Unauthorized(InvalidCredentials))
    else
      var u := user.value;
      if u.passwordHash == Empty then Reject(t, Unauthorized(MissingPassword))
      else if !VerifyPassword(password, u.passwordHash) then Reject(t, Unauthorized(InvalidCredentials))
      else if !u.isVerified then Reject(t, Forbidden(NotVerified))
      else
        var t1 := UpdateUserLastSignedIn(t, u.id, now);
        var s := CreateSession(t1, u.id, jwt, now + SessionTtlMs, now);
        Outcome(Success(Session(jwt, u)), s.tables, None)
  }

  /** `jwt` is the token `createToken({userId, email, role})` signs. */
  method LoginUserOn(db: Database, identifier: string, password: string, jwt: string, now: Time)
    returns (r: Result<Session, AppError>)
    modifies db
    ensures Outcome(r, db.Snapshot(), None) == LoginUser(old(db.Snapshot()), identifier, password, jwt, now)
    ensures old(db.Valid()) ==> db.Valid()
  {
    ghost var t := db.Snapshot();
    var user := GetUserByEmailOrUsername(db.users, Trim(identifier));
    if user.None? {
      return Failure(Unauthorized(InvalidCredentials));
    }
    var u := user.value;
    if u.passwordHash == Empty {
      return Failure(Unauthorized(MissingPassword));
    }
    var valid := VerifyPassword(password, u.passwordHash);
    if !valid {
      return Failure(Unauthorized(InvalidCredentials));
    }
    if !u.isVerified {
      return Failure(Forbidden(NotVerified));
    }
    db.UpdateUserLastSignedIn(u.id, now);
    ghost var t1 := db.Snapshot();
    var _ := db.CreateSession(u.id, jwt, now + SessionTtlMs, now);
    assert db.Snapshot() == AuthTables.CreateSession(t1, u.id, jwt, now + SessionTtlMs, now).tables;
    return Success(Session(jwt, u));
  }

  // ---------------------------------------------------------------- sendForgotPasswordCode

  function SendForgotPasswordCode(t: Tables, email: string, rand: nat -> Digit, token: string, now: Time,
                                  delivered: bool): Outcome<()>
  {
    var user := GetUserByEmail(t.users, ToLower(email));
    if user.None? then Outcome(Success(()), t, None)
    else
      var u := user.value;
      var code := DrawnCode(rand, DefaultLength);
      var expiresAt := now + ResetTtlMs;
      var o := CreateOtpCode(t, u.id, code, ResetPassword, expiresAt, now);
      var e := CreatePasswordResetEntry(o.tables, u.id, token, code, expiresAt);
      Mailed((), e.tables, ResetMail(u.email, code, ResetOtpTtlMinutes), delivered)
  }

  method SendForgotPasswordCodeOn(db: Database, email: string, rand: nat -> Digit, token: string, now: Time,
                                  delivered: bool) returns (r: Result<(), AppError>, mail: Option<Mail>)
    modifies db
    ensures Outcome(r, db.Snapshot(), mail) == SendForgotPasswordCode(old(db.Snapshot()), email, rand, token, now, delivered)
    ensures old(db.Valid()) ==> db.Valid()
  {
    mail := None;
    var user := GetUserByEmail(db.users, ToLower(email));
    if user.None? {
      return Success(()), mail;
    }
    var u := user.value;
    var code := GenerateOtp(DefaultLength, rand);
    var expiresAt := now + ResetTtlMs;
    var _ := db.CreateOtpCode(u.id, code, ResetPassword, expiresAt, now);
    var _ := db.CreatePasswordResetEntry(u.id, token, code, expiresAt);
    mail := Some(ResetMail(u.email, code, ResetOtpTtlMinutes));
    r := if delivered then Success(()) else Failure(Internal(MailFailed));
  }

  // ---------------------------------------------------------------- resendOtpCode

  function ResendOtpCode(t: Tables, email: string, purpose: Option<string>, rand: nat -> Digit, token: string,
                         now: Time, delivered: bool): Outcome<()>
  {
    var normalizedEmail := ToLower(email);
    var p := PurposeOrDefault(purpose);
    if p == ResetPassword then SendForgotPasswordCode(t, normalizedEmail, rand, token, now, delivered)
    else
      var user := GetUserByEmail(t.users, normalizedEmail);
      if user.None? then Outcome(Success(()), t, None)
      else
        var u := user.value;
        if u.isVerified then Reject(t, BadRequest(AlreadyVerified))
        else
          var code := DrawnCode(rand, DefaultLength);
          var s := SaveEmailVerificationToken(t, u.id, u.email, code, token, now + VerifyTtlMs, now);
          Mailed((), s.tables, VerificationMail(u.email, code, VerifyOtpTtlHours), delivered)
  }

  method ResendOtpCodeOn(db: Database, email: string, purpose: Option<string>, rand: nat -> Digit, token: string,
                         now: Time, delivered: bool) returns (r: Result<(), AppError>, mail: Option<Mail>)
    modifies db
    ensures Outcome(r, db.Snapshot(), mail) == ResendOtpCode(old(db.Snapshot()), email, purpose, rand, token, now, delivered)
    ensures old(db.Valid()) ==> db.Valid()
  {
    mail := None;
    var normalizedEmail := ToLower(email);
    var p := PurposeOrDefault(purpose);
    if p == ResetPassword {
      r, mail := SendForgotPasswordCodeOn(db, normalizedEmail, rand, token, now, delivered);
      return;
    }
    var user := GetUserByEmail(db.users, normalizedEmail);
    if user.None? {
      return Success(()), mail;
    }
    var u := user.value;
    if u.isVerified {
      return Failure(BadRequest(AlreadyVerified)), mail;
    }
    var code := GenerateOtp(DefaultLength, rand);
    var _ := db.SaveEmailVerificationToken(u.id, u.email, code, token, now + VerifyTtlMs, now);
    mail := Some(VerificationMail(u.email, code, VerifyOtpTtlHours));
    r := if delivered then Success(()) else Failure(Internal(MailFailed));
  }

  // ---------------------------------------------------------------- resetPassword

  /** The code check of `resetPassword`: an active reset code or an active reset entry. */
  predicate ResetCodeAccepted(t: Tables, userId: nat, code: string, now: Time)
  {
    GetActiveOtpCode(t.otps, userId, code, ResetPassword, now).Some?
    || GetActivePasswordResetToken(t.resets, userId, code, now).Some?
  }

  function ResetPasswordOp(t: Tables, email: string, code: string, newPassword: string, salt: nat, now: Time): Outcome<()>
  {
    var user := GetUserByEmail(t.users, ToLower(email));
    if user.None? then Reject(t, BadRequest(InvalidResetRequest))
    else
      var u := user.value;
      var otp := GetActiveOtpCode(t.otps, u.id, code, ResetPassword, now);
      var entry := GetActivePasswordResetToken(t.resets, u.id, code, now);
      if otp.None? && entry.None? then Reject(t, BadRequest(InvalidOrExpiredCode))
      else if StrengthErrors(newPassword) != [] then Reject(t, WeakPassword(newPassword))
      else Outcome(Success(()), ResetWrites(t, u, otp, entry, newPassword, salt, now), None)
  }

  /** The writes of `resetPassword` once its checks pass: the new hash, then
      the user's reset codes cleared on each path that accepted the code. */
  function ResetWrites(t: Tables, u: UserRow, otp: Option<OtpRow>, entry: Option<ResetRow>,
                       newPassword: string, salt: nat, now: Time): Tables
  {
    var t1 := UpdateUserPassword(t, u.id, HashPassword(newPassword, salt), now);
    var t2 := if otp.Some? then ClearOtpsForPurpose(MarkOtpUsed(t1, otp.value.id, now), u.id, ResetPassword) else t1;
    if entry.Some? then ClearOtpsForPurpose(t2, u.id, ResetPassword) else t2
  }

  method ResetPasswordOn(db: Database, email: string, code: string, newPassword: string, salt: nat, now: Time)
    returns (r: Result<(), AppError>)
    modifies db
    ensures Outcome(r, db.Snapshot(), None) == ResetPasswordOp(old(db.Snapshot()), email, code, newPassword, salt, now)
    ensures old(db.Valid()) ==> db.Valid()
  {
    var user := GetUserByEmail(db.users, ToLower(email));
    if user.None? {
      return Failure(BadRequest(InvalidResetRequest));
    }
    var u := user.value;
    var otp := GetActiveOtpCode(db.otps, u.id, code, ResetPassword, now);
    var entry := GetActivePasswordResetToken(db.resets, u.id, code, now);
    if otp.None? && entry.None? {
      return Failure(BadRequest(InvalidOrExpiredCode));
    }
    var isValid, errors := ValidatePasswordStrength(newPassword);
    if !isValid {
      return Failure(BadRequest(Join(errors, "; ")));
    }
    var passwordHash := HashPassword(newPassword, salt);
    db.UpdateUserPassword(u.id, passwordHash, now);
    if otp.Some? {
      db.MarkOtpUsed(otp.value.id, now);
      db.ClearOtpsForPurpose(u.id, ResetPassword);
    }
    if entry.Some? {
      db.ClearOtpsForPurpose(u.id, ResetPassword);
    }
    return Success(());
  }

  // ---------------------------------------------------------------- changePassword

  function ChangePassword(t: Tables, userId: nat, currentPassword: string, newPassword: string, salt: nat, now: Time): Outcome<()>
  {
    var user := GetUserById(t.users, userId);
    if user.None? then Reject(t, Unauthorized(UserNotFound))
    else if !VerifyPassword(currentPassword, user.value.passwordHash) then Reject(t, Unauthorized(InvalidCurrentPassword))
    else if StrengthErrors(newPassword) != [] then Reject(t, WeakPassword(newPassword))
    else Outcome(Success(()), UpdateUserPassword(t, user.value.id, HashPassword(newPassword, salt), now), None)
  }

  method ChangePasswordOn(db: Database, userId: nat, currentPassword: string, newPassword: string, salt: nat, now: Time)
    returns (r: Result<(), AppError>)
    modifies db
    ensures Outcome(r, db.Snapshot(), None) == ChangePassword(old(db.Snapshot()), userId, currentPassword, newPassword, salt, now)
    ensures old(db.Valid()) ==> db.Valid()
  {
    var user := GetUserById(db.users, userId);
    if user.None? {
      return Failure(Unauthorized(UserNotFound));
    }
    var isValid := VerifyPassword(currentPassword, user.value.passwordHash);
    if !isValid {
      return Failure(Unauthorized(InvalidCurrentPassword));
    }
    var ok, errors := ValidatePasswordStrength(newPassword);
    if !ok {
      return Failure(BadRequest(Join(errors, "; ")));
    }
    var passwordHash := HashPassword(newPassword, salt);
    db.UpdateUserPassword(user.value.id, passwordHash, now);
    return Success(());
  }
}
