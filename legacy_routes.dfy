/** The older server's authentication routes: register, verify-email, login,
    request-reset, verify-otp, reset-password and change-password. Each
    handler is a function from the request fields, the tables and the inputs
    the environment supplies (the clock, the random digits, the bcrypt salt,
    the signed token) to the reply, the tables after it and the mail it sent,
    and a method that performs the same steps on a `LegacyDatabase` and is
    proved to reach that result. A missing body field is the empty string:
    both are falsy to the handlers. */
module LegacyRoutes {
  import opened Wrappers
  import opened Errors
  import opened Hashing
  import opened PasswordPolicy
  import opened OtpDigits
  import opened EmailUtil
  import opened LegacyTables
  import opened LegacyTableProps
  import opened LegacyStore
  import AuthTables

  const OtpLength: nat := 6
  const VerificationTtlHours: nat := 24
  const ResetTtlMinutes: nat := 10
  const VerificationTtlMs: int := 24 * 60 * 60 * 1000
  const ResetTtlMs: int := 10 * 60 * 1000
  /** The lifetime of the login cookie. */
  const CookieMaxAgeMs: int := 7 * 24 * 60 * 60 * 1000

  /** The status of every reply from a handler's `catch`. */
  const ServerError: nat := 500

  const MissingFields := "Missing required fields"
  const InvalidEmailFormat := "Invalid email format"
  const PasswordsDiffer := "Passwords do not match"
  const WeakPassword := "Password does not meet requirements"
  const EmailRegistered := "Email already registered"
  const RegisteredMessage := "User registered successfully. Please verify your email."
  const RegistrationFailed := "Registration failed"
  const EmailAndCodeRequired := "Email and code are required"
  const InvalidVerificationCode := "Invalid or expired verification code"
  const EmailVerified := "Email verified successfully"
  const EmailAndPasswordRequired := "Email and password are required"
  const InvalidEmailOrPassword := "Invalid email or password"
  const OAuthAccount := "This account uses OAuth. Please login with OAuth."
  const EmailNotVerified := "Email not verified"
  const VerifyBeforeLogin := "Please verify your email before logging in"
  const LoginSuccessful := "Login successful"
  const EmailRequired := "Email is required"
  const IfEmailExists := "If the email exists, an OTP has been sent"
  const OtpSent := "OTP sent to email"
  const ResetOtpFailed := "Failed to send reset OTP"
  const EmailAndOtpRequired := "Email and OTP are required"
  const InvalidOtp := "Invalid or expired OTP"
  const OtpVerified := "OTP verified successfully"
  const OtpNotVerified := "OTP not verified"
  const PasswordReset := "Password reset successfully"
  const NotAuthenticated := "Not authenticated"
  const NewPasswordsDiffer := "New passwords do not match"
  const NoPasswordUser := "User not found or uses OAuth"
  const WrongCurrentPassword := "Current password is incorrect"
  const WeakNewPassword := "New password does not meet requirements"
  const PasswordChanged := "Password changed successfully"

  /** The user as the login reply shows it. */
  datatype UserView = UserView(id: nat, email: string, name: Option<string>, role: Role)

  /** A reply: its status and JSON body. `LoggedIn` also sets the `token`
      cookie to the same token, for `CookieMaxAgeMs`. */
  datatype Reply =
    | Fail(status: nat, error: string)
    | FailWithDetails(status: nat, error: string, details: seq<string>)
    | FailWithMessage(status: nat, error: string, message: string)
    | Done(status: nat, message: string)
    | Registered(message: string, userId: nat, email: string)
    | LoggedIn(message: string, token: string, user: UserView)

  function StatusOf(r: Reply): nat
  {
    match r
    case Fail(s, _) => s
    case FailWithDetails(s, _, _) => s
    case FailWithMessage(s, _, _) => s
    case Done(s, _) => s
    case Registered(_, _, _) => 201
    case LoggedIn(_, _, _) => 200
  }

  /** A mail handed to the mail helper; it reports a failed delivery by
      returning false, which the handlers ignore. */
  datatype Mail =
    | CodeMail(to: string, code: string, expiresInHours: nat)
    | ResetOtpMail(to: string, otp: string, expiresInMinutes: nat)
    | WelcomeMail(to: string, name: string)

  /** A handler's reply, the tables after it and the mail it sent. */
  datatype Handled = Handled(reply: Reply, state: State, mail: Option<Mail>)

  /** A reply given before any write. */
  function Answer(t: State, reply: Reply): (h: Handled)
    ensures h.reply == reply && h.state == t && h.mail.None?
  {
    Handled(reply, t, None)
  }

  // ----------------------------------------------------------------- register

  /** `POST /register`. */
  function Register(t: State, email: string, name: string, password: string, passwordConfirm: string,
                    salt: nat, rand: nat -> Digit, now: Time): Handled
  {
    if email == "" || name == "" || password == "" || passwordConfirm == "" then Answer(t, Fail(400, MissingFields))
    else if !IsValidEmail(email) then Answer(t, Fail(400, InvalidEmailFormat))
    else if password != passwordConfirm then Answer(t, Fail(400, PasswordsDiffer))
    else if StrengthErrors(password) != [] then Answer(t, FailWithDetails(400, WeakPassword, StrengthErrors(password)))
    else if GetUserByEmail(t.users, email).Some? then Answer(t, Fail(409, EmailRegistered))
    else
      var created := CreateUser(t, email, name, HashPassword(password, salt), now);
      if created.result.Failure? then Handled(Fail(ServerError, RegistrationFailed), created.state, None)
      else
        var code := DrawnCode(rand, OtpLength);
        var token := CreateEmailVerificationToken(created.state, email, code, now + VerificationTtlMs, now);
        if token.result.Failure? then Handled(Fail(ServerError, RegistrationFailed), token.state, None)
        else
          var user := created.result.value;
          Handled(Registered(RegisteredMessage, user.id, user.email), token.state,
                  Some(CodeMail(email, code, VerificationTtlHours)))
  }

  method RegisterOn(db: LegacyDatabase, email: string, name: string, password: string, passwordConfirm: string,
                    salt: nat, rand: nat -> Digit, now: Time) returns (reply: Reply, mail: Option<Mail>)
    modifies db
    ensures Handled(reply, db.Snapshot(), mail) == Register(old(db.Snapshot()), email, name, password, passwordConfirm, salt, rand, now)
    ensures old(db.Valid()) ==> db.Valid()
  {
    mail := None;
    if email == "" || name == "" || password == "" || passwordConfirm == "" {
      return Fail(400, MissingFields), mail;
    }
    if !IsValidEmail(email) {
      return Fail(400, InvalidEmailFormat), mail;
    }
    if password != passwordConfirm {
      return Fail(400, PasswordsDiffer), mail;
    }
    var isValid, errors := ValidatePasswordStrength(password);
    if !isValid {
      return FailWithDetails(400, WeakPassword, errors), mail;
    }
    var existing := GetUserByEmail(db.users, email);
    if existing.Some? {
      return Fail(409, EmailRegistered), mail;
    }
    var passwordHash := HashPassword(password, salt);
    var created := db.CreateUser(email, name, passwordHash, now);
    if created.Failure? {
      return Fail(ServerError, RegistrationFailed), mail;
    }
    var code := GenerateOtp(OtpLength, rand);
    var token := db.CreateEmailVerificationToken(email, code, now + VerificationTtlMs, now);
    if token.Failure? {
      return Fail(ServerError, RegistrationFailed), mail;
    }
    mail := Some(CodeMail(email, code, VerificationTtlHours));
    reply := Registered(RegisteredMessage, created.value.id, created.value.email);
  }

  // ------------------------------------------------------------- verify-email

  /** The welcome mail, addressed with `user.name || "User"`. */
  function WelcomeFor(users: seq<User>, email: string): Option<Mail>
  {
    var user := GetUserByEmail(users, email);
    if user.None? then None
    else if user.value.name.None? || user.value.name.value == "" then Some(WelcomeMail(email, "User"))
    else Some(WelcomeMail(email, user.value.name.value))
  }

  /** `POST /verify-email`. */
  function VerifyEmail(t: State, email: string, code: string, now: Time): Handled
  {
    if email == "" || code == "" then Answer(t, Fail(400, EmailAndCodeRequired))
    else if GetEmailVerificationToken(t.verifications, email, code, now).None? then Answer(t, Fail(400, InvalidVerificationCode))
    else
      var t1 := VerifyEmailVerificationToken(t, email, code, now);
      var t2 := UpdateUserEmailVerified(t1, email, true, now);
      var t3 := DeleteEmailVerificationToken(t2, email, code);
      Handled(Done(200, EmailVerified), t3, WelcomeFor(t3.users, email))
  }

  method VerifyEmailOn(db: LegacyDatabase, email: string, code: string, now: Time) returns (reply: Reply, mail: Option<Mail>)
    modifies db
    ensures Handled(reply, db.Snapshot(), mail) == VerifyEmail(old(db.Snapshot()), email, code, now)
    ensures old(db.Valid()) ==> db.Valid()
  {
    mail := None;
    if email == "" || code == "" {
      return Fail(400, EmailAndCodeRequired), mail;
    }
    var token := GetEmailVerificationToken(db.verifications, email, code, now);
    if token.None? {
      return Fail(400, InvalidVerificationCode), mail;
    }
    db.VerifyEmailVerificationToken(email, code, now);
    db.UpdateUserEmailVerified(email, true, now);
    db.DeleteEmailVerificationToken(email, code);
    var user := GetUserByEmail(db.users, email);
    if user.Some? {
      var name := if user.value.name.None? || user.value.name.value == "" then "User" else user.value.name.value;
      mail := Some(WelcomeMail(email, name));
    }
    reply := Done(200, EmailVerified);
  }

  // -------------------------------------------------------------------- login

  /** `POST /login`; `jwt` is what `createToken` signs for the user's id,
      email and role. */
  function Login(t: State, email: string, password: string, jwt: string, now: Time): Handled
  {
    if email == "" || password == "" then Answer(t, Fail(400, EmailAndPasswordRequired))
    else
      var user := GetUserByEmail(t.users, email);
      if user.None? then Answer(t, Fail(401, InvalidEmailOrPassword))
      else
        var u := user.value;
        if u.passwordHash == Empty then Answer(t, Fail(401, OAuthAccount))
        else if !VerifyPassword(password, u.passwordHash) then Answer(t, Fail(401, InvalidEmailOrPassword))
        else if u.isEmailVerified != True then Answer(t, FailWithMessage(403, EmailNotVerified, VerifyBeforeLogin))
        else
          Handled(LoggedIn(LoginSuccessful, jwt, UserView(u.id, u.email, u.name, u.role)),
                  UpdateUserLastSignedIn(t, u.id, now), None)
  }

  method LoginOn(db: LegacyDatabase, email: string, password: string, jwt: string, now: Time) returns (reply: Reply)
    modifies db
    ensures Handled(reply, db.Snapshot(), None) == Login(old(db.Snapshot()), email, password, jwt, now)
    ensures old(db.Valid()) ==> db.Valid()
  {
    if email == "" || password == "" {
      return Fail(400, EmailAndPasswordRequired);
    }
    var user := GetUserByEmail(db.users, email);
    if user.None? {
      return Fail(401, InvalidEmailOrPassword);
    }
    var u := user.value;
    if u.passwordHash == Empty {
      return Fail(401, OAuthAccount);
    }
    if !VerifyPassword(password, u.passwordHash) {
      return Fail(401, InvalidEmailOrPassword);
    }
    if u.isEmailVerified != True {
      return FailWithMessage(403, EmailNotVerified, VerifyBeforeLogin);
    }
    db.UpdateUserLastSignedIn(u.id, now);
    reply := LoggedIn(LoginSuccessful, jwt, UserView(u.id, u.email, u.name, u.role));
  }

  // ------------------------------------------------------------ request-reset

  /** `POST /request-reset`. */
  function RequestReset(t: State, email: string, rand: nat -> Digit, now: Time): Handled
  {
    if email == "" then Answer(t, Fail(400, EmailRequired))
    else if GetUserByEmail(t.users, email).None? then Answer(t, Done(200, IfEmailExists))
    else
      var otp := DrawnCode(rand, OtpLength);
      var created := CreatePasswordResetToken(t, email, otp, now + ResetTtlMs, now);
      if created.result.Failure? then Handled(Fail(ServerError, ResetOtpFailed), created.state, None)
      else Handled(Done(200, OtpSent), created.state, Some(ResetOtpMail(email, otp, ResetTtlMinutes)))
  }

  method RequestResetOn(db: LegacyDatabase, email: string, rand: nat -> Digit, now: Time) returns (reply: Reply, mail: Option<Mail>)
    modifies db
    ensures Handled(reply, db.Snapshot(), mail) == RequestReset(old(db.Snapshot()), email, rand, now)
    ensures old(db.Valid()) ==> db.Valid()
  {
    mail := None;
    if email == "" {
      return Fail(400, EmailRequired), mail;
    }
    var user := GetUserByEmail(db.users, email);
    if user.None? {
      return Done(200, IfEmailExists), mail;
    }
    var otp := GenerateOtp(OtpLength, rand);
    var created := db.CreatePasswordResetToken(email, otp, now + ResetTtlMs, now);
    if created.Failure? {
      return Fail(ServerError, ResetOtpFailed), mail;
    }
    mail := Some(ResetOtpMail(email, otp, ResetTtlMinutes));
    reply := Done(200, OtpSent);
  }

  // --------------------------------------------------------------- verify-otp

  /** `POST /verify-otp`. */
  function VerifyResetOtp(t: State, email: string, otp: string, now: Time): Handled
  {
    if email == "" || otp == "" then Answer(t, Fail(400, EmailAndOtpRequired))
    else if GetPasswordResetToken(t.resets, email, otp, now).None? then Answer(t, Fail(400, InvalidOtp))
    else Handled(Done(200, OtpVerified), VerifyPasswordResetToken(t, email, otp, now), None)
  }

  method VerifyResetOtpOn(db: LegacyDatabase, email: string, otp: string, now: Time) returns (reply: Reply)
    modifies db
    ensures Handled(reply, db.Snapshot(), None) == VerifyResetOtp(old(db.Snapshot()), email, otp, now)
    ensures old(db.Valid()) ==> db.Valid()
  {
    if email == "" || otp == "" {
      return Fail(400, EmailAndOtpRequired);
    }
    var token := GetPasswordResetToken(db.resets, email, otp, now);
    if token.None? {
      return Fail(400, InvalidOtp);
    }
    db.VerifyPasswordResetToken(email, otp, now);
    reply := Done(200, OtpVerified);
  }

  // ----------------------------------------------------------- reset-password

  /** `POST /reset-password`. */
  function ResetPassword(t: State, email: string, otp: string, password: string, passwordConfirm: string,
                         salt: nat, now: Time): Handled
  {
    if email == "" || otp == "" || password == "" || passwordConfirm == "" then Answer(t, Fail(400, MissingFields))
    else if password != passwordConfirm then Answer(t, Fail(400, PasswordsDiffer))
    else if StrengthErrors(password) != [] then Answer(t, FailWithDetails(400, WeakPassword, StrengthErrors(password)))
    else
      var token := GetPasswordResetToken(t.resets, email, otp, now);
      if token.None? then Answer(t, Fail(400, InvalidOtp))
      else if token.value.isVerified != True then Answer(t, Fail(400, OtpNotVerified))
      else
        var t1 := UpdateUserPassword(t, email, HashPassword(password, salt), now);
        Handled(Done(200, PasswordReset), DeletePasswordResetToken(t1, email, otp), None)
  }

  method ResetPasswordOn(db: LegacyDatabase, email: string, otp: string, password: string, passwordConfirm: string,
                         salt: nat, now: Time) returns (reply: Reply)
    modifies db
    ensures Handled(reply, db.Snapshot(), None) == ResetPassword(old(db.Snapshot()), email, otp, password, passwordConfirm, salt, now)
    ensures old(db.Valid()) ==> db.Valid()
  {
    if email == "" || otp == "" || password == "" || passwordConfirm == "" {
      return Fail(400, MissingFields);
    }
    if password != passwordConfirm {
      return Fail(400, PasswordsDiffer);
    }
    var isValid, errors := ValidatePasswordStrength(password);
    if !isValid {
      return FailWithDetails(400, WeakPassword, errors);
    }
    var token := GetPasswordResetToken(db.resets, email, otp, now);
    if token.None? {
      return Fail(400, InvalidOtp);
    }
    if token.value.isVerified != True {
      return Fail(400, OtpNotVerified);
    }
    var passwordHash := HashPassword(password, salt);
    db.UpdateUserPassword(email, passwordHash, now);
    db.DeletePasswordResetToken(email, otp);
    reply := Done(200, PasswordReset);
  }

  // ---------------------------------------------------------- change-password

  /** `POST /change-password`; `authUserId` is the id of `req.user` the
      authentication middleware attached, if any. */
  function ChangePassword(t: State, authUserId: Option<nat>, currentPassword: string, newPassword: string,
                          newPasswordConfirm: string, salt: nat, now: Time): Handled
  {
    if authUserId.None? then Answer(t, Fail(401, NotAuthenticated))
    else if currentPassword == "" || newPassword == "" || newPasswordConfirm == "" then Answer(t, Fail(400, MissingFields))
    else if newPassword != newPasswordConfirm then Answer(t, Fail(400, NewPasswordsDiffer))
    else
      var user := GetUserById(t.users, authUserId.value);
      if user.None? || user.value.passwordHash == Empty then Answer(t, Fail(400, NoPasswordUser))
      else if !VerifyPassword(currentPassword, user.value.passwordHash) then Answer(t, Fail(401, WrongCurrentPassword))
      else if StrengthErrors(newPassword) != [] then Answer(t, FailWithDetails(400, WeakNewPassword, StrengthErrors(newPassword)))
      else Handled(Done(200, PasswordChanged), UpdateUserPassword(t, user.value.email, HashPassword(newPassword, salt), now), None)
  }

  method ChangePasswordOn(db: LegacyDatabase, authUserId: Option<nat>, currentPassword: string, newPassword: string,
                          newPasswordConfirm: string, salt: nat, now: Time) returns (reply: Reply)
    modifies db
    ensures Handled(reply, db.Snapshot(), None) ==
      ChangePassword(old(db.Snapshot()), authUserId, currentPassword, newPassword, newPasswordConfirm, salt, now)
    ensures old(db.Valid()) ==> db.Valid()
  {
    if authUserId.None? {
      return Fail(401, NotAuthenticated);
    }
    if currentPassword == "" || newPassword == "" || newPasswordConfirm == "" {
      return Fail(400, MissingFields);
    }
    if newPassword != newPasswordConfirm {
      return Fail(400, NewPasswordsDiffer);
    }
    var user := GetUserById(db.users, authUserId.value);
    if user.None? || user.value.passwordHash == Empty {
      return Fail(400, NoPasswordUser);
    }
    if !VerifyPassword(currentPassword, user.value.passwordHash) {
      return Fail(401, WrongCurrentPassword);
    }
    var isValid, errors := ValidatePasswordStrength(newPassword);
    if !isValid {
      return FailWithDetails(400, WeakNewPassword, errors);
    }
    var newPasswordHash := HashPassword(newPassword, salt);
    db.UpdateUserPassword(user.value.email, newPasswordHash, now);
    reply := Done(200, PasswordChanged);
  }
}
